/** Rule objects standing in several places: when a sub-filesystem's clones show it. */
module SharedRules {
  import opened Common
  import opened Paths
  import opened Injector
  import opened SubInjector

  function LiftCalls(d: string, calls: seq<Call>): (r: seq<Call>)
    ensures |r| == |calls| && forall k :: 0 <= k < |r| ==> r[k] == Call(calls[k].op, Inside(d, calls[k].path))
  {
    seq(|calls|, k requires 0 <= k < |calls| => Call(calls[k].op, Inside(d, calls[k].path)))
  }

  /** Calls as the filesystem makes them. */
  predicate Proper(calls: seq<Call>) {
    forall k :: 0 <= k < |calls| ==> ValidOp(calls[k].op) && ValidPath(calls[k].path)
  }

  /** Over every run j answers at x as inj does at d/x. */
  ghost predicate Agrees<R, S>(inj: Injector<R>, j: Injector<S>, d: string)
    requires ValidInjector(inj) && ValidInjector(j)
  {
    forall calls :: Proper(calls) ==> RunChecks(inj, LiftCalls(d, calls)).errs == RunChecks(j, calls).errs
  }

  lemma {:induction false} SimRun<R, S>(i: Injector<R>, j: Injector<S>, d: string, calls: seq<Call>)
    requires Sim(i, j, d) && Proper(calls)
    ensures RunChecks(i, LiftCalls(d, calls)).errs == RunChecks(j, calls).errs
    decreases |calls|
  {
    if calls != [] {
      var c := calls[0];
      SimCheck(i, j, d, c.op, c.path);
      assert LiftCalls(d, calls)[1..] == LiftCalls(d, calls[1..]);
      SimRun(After(i, Check(i, c.op, Inside(d, c.path))), After(j, Check(j, c.op, c.path)), d, calls[1..]);
    }
  }

  lemma {:induction false} SimAgrees<R, S>(i: Injector<R>, j: Injector<S>, d: string)
    requires Sim(i, j, d)
    ensures Agrees(i, j, d)
  {
    forall calls | Proper(calls) ensures RunChecks(i, LiftCalls(d, calls)).errs == RunChecks(j, calls).errs {
      SimRun(i, j, d, calls);
    }
  }

  /** Unless a rule that counts is shared, clone and original answer alike over every run. */
  lemma {:induction false} UnsharedAgrees<R>(inj: Injector<R>, d: string)
    requires ValidInjector(inj) && IsRel(d) && AllFresh(inj) && NoDotPath(inj, d) && NoSharing(inj, d)
    ensures Agrees(inj, CloneInjector(inj, d), d)
  {
    CloneSimulates(inj, d);
    SimAgrees(inj, CloneInjector(inj, d), d);
  }

  // ----- The converse -----

  /** op at path consults r and no other rule, and r once. */
  predicate Alone<R(==)>(inj: Injector<R>, op: Operation, path: string, r: R)
    requires ValidInjector(inj)
  {
    Matching(Cascade(inj, op), inj.attr, path) == [r]
  }

  lemma {:induction false} ConsultAlone<R>(rs: seq<R>, attr: map<R, Rule>, ctr: map<R, Counter>, path: string, r: R)
    requires Known(rs, attr, ctr) && Matching(rs, attr, path) == [r]
    ensures r in attr && r in ctr
    ensures var dec := Decide(attr[r].mode, attr[r].afterN, ctr[r]); var v := Consult(rs, attr, ctr, path);
      v.err == (if dec.0 then Some(attr[r].err) else None) && v.ctr == ctr[r := dec.1]
  {
    if RuleMatches(attr[rs[0]], path) {
      var rest := Matching(rs[1..], attr, path);
      assert ([rs[0]] + rest)[0] == rs[0] && ([rs[0]] + rest)[1..] == rest;
      NoneMatch(rs[1..], attr, path);
      var dec := Decide(attr[r].mode, attr[r].afterN, ctr[r]);
      QuietConsult(rs[1..], attr, ctr[r := dec.1], path);
    } else {
      ConsultAlone(rs[1..], attr, ctr, path, r);
    }
  }

  lemma {:induction false} NoneMatch<R>(rs: seq<R>, attr: map<R, Rule>, path: string)
    requires forall i :: 0 <= i < |rs| ==> rs[i] in attr
    requires Matching(rs, attr, path) == []
    ensures forall r :: r in rs ==> !RuleMatches(attr[r], path)
  {
    if rs != [] { NoneMatch(rs[1..], attr, path); }
  }

  function Times(c: Call, n: nat): (r: seq<Call>)
    ensures |r| == n && forall k :: 0 <= k < n ==> r[k] == c
  {
    seq(n, k => c)
  }

  /** n calls that consult r alone, and then another: what the other is told. */
  lemma {:induction false} AfterTimes<R>(inj: Injector<R>, c: Call, n: nat, last: Call, r: R, k: nat)
    requires ValidInjector(inj) && Alone(inj, c.op, c.path, r) && r in inj.ctr && r in inj.attr
    requires inj.ctr[r] == CounterAfter(inj.attr[r].mode, k)
    ensures var end := inj.(ctr := inj.ctr[r := CounterAfter(inj.attr[r].mode, k + n)]);
      ValidInjector(end) && RunChecks(inj, Times(c, n) + [last]).errs[n] == Check(end, last.op, last.path).err
    decreases n
  {
    var calls := Times(c, n) + [last];
    if n == 0 {
      assert calls == [last];
      assert inj.(ctr := inj.ctr[r := CounterAfter(inj.attr[r].mode, k)]) == inj;
    } else {
      ConsultAlone(Cascade(inj, c.op), inj.attr, inj.ctr, c.path, r);
      DecideIsClosed(inj.attr[r].mode, inj.attr[r].afterN, k);
      var next := After(inj, Check(inj, c.op, c.path));
      assert calls[0] == c && calls[1..] == Times(c, n - 1) + [last];
      AfterTimes(next, c, n - 1, last, r, k + 1);
      PutAgain(inj.ctr, r, CounterAfter(inj.attr[r].mode, k + 1), CounterAfter(inj.attr[r].mode, k + n));
    }
  }

  lemma {:induction false} PutAgain<K, V>(m: map<K, V>, k: K, v: V, w: V)
    ensures m[k := v][k := w] == m[k := w]
  {
  }

  /** After how many consultations the decision is first another than at the beginning. */
  function Turn(mode: ErrorMode, n: nat): nat {
    if mode.Once? then 1 else if n == 0 then TWO_64 - 1 else n
  }

  lemma {:induction false} TurnTurns(mode: ErrorMode, n: nat)
    requires Varies(mode, n)
    ensures DecideAt(mode, n, Turn(mode, n) + 1) != DecideAt(mode, n, 1)
  {
  }

  /** What the original tells the last caller: all consultations have counted. */
  lemma {:induction false} OriginalTells<R>(inj: Injector<R>, c: Call, a: nat, last: Call, r: R)
    requires ValidInjector(inj) && r in inj.attr && r in inj.ctr && inj.ctr[r] == Fresh
    requires Alone(inj, c.op, c.path, r) && Alone(inj, last.op, last.path, r)
    ensures RunChecks(inj, Times(c, a) + [last]).errs[a] ==
      if DecideAt(inj.attr[r].mode, inj.attr[r].afterN, a + 1) then Some(inj.attr[r].err) else None
  {
    AfterTimes(inj, c, a, last, r, 0);
    var end := inj.(ctr := inj.ctr[r := CounterAfter(inj.attr[r].mode, 0 + a)]);
    ConsultAlone(Cascade(end, last.op), end.attr, end.ctr, last.path, r);
    DecideIsClosed(inj.attr[r].mode, inj.attr[r].afterN, a);
  }

  /** What a clone tells it: only its own consultation has. */
  lemma {:induction false} CloneTells(j: Injector<Place>, c: Call, a: nat, last: Call, p: Place, q: Place)
    requires ValidInjector(j) && p in j.attr && p in j.ctr && q in j.attr && q in j.ctr && p != q
    requires j.ctr[p] == Fresh == j.ctr[q] && Alone(j, c.op, c.path, p) && Alone(j, last.op, last.path, q)
    ensures RunChecks(j, Times(c, a) + [last]).errs[a] ==
      if DecideAt(j.attr[q].mode, j.attr[q].afterN, 1) then Some(j.attr[q].err) else None
  {
    AfterTimes(j, c, a, last, p, 0);
    var end := j.(ctr := j.ctr[p := CounterAfter(j.attr[p].mode, 0 + a)]);
    ConsultAlone(Cascade(end, last.op), end.attr, end.ctr, last.path, q);
    DecideIsClosed(j.attr[q].mode, j.attr[q].afterN, 0);
  }

  lemma {:induction false} Witness<R, S>(i: Injector<R>, j: Injector<S>, d: string, calls: seq<Call>)
    requires ValidInjector(i) && ValidInjector(j) && Proper(calls)
    requires RunChecks(i, LiftCalls(d, calls)).errs != RunChecks(j, calls).errs
    ensures !Agrees(i, j, d)
  {
  }

  /** p and q hold the same rule, whose decisions vary, and c and last consult it alone. */
  ghost predicate TwoPlaces<R>(
      inj: Injector<R>, j: Injector<Place>, d: string, p: Place, q: Place, c: Call, last: Call)
  {
    && IsClone(inj, d, j) && ValidInjector(j) && AllFresh(inj)
    && IsPlace(inj, p) && IsPlace(inj, q) && p != q && At(inj, p) == At(inj, q)
    && At(inj, p) in inj.attr && At(inj, p) in inj.ctr && Varies(inj.attr[At(inj, p)].mode, inj.attr[At(inj, p)].afterN)
    && Alone(inj, c.op, Inside(d, c.path), At(inj, p)) && Alone(j, c.op, c.path, p)
    && Alone(inj, last.op, Inside(d, last.path), At(inj, p)) && Alone(j, last.op, last.path, q)
  }

  lemma {:induction false} ErrsDiffer<R>(
      inj: Injector<R>, j: Injector<Place>, d: string, p: Place, q: Place, c: Call, last: Call)
    requires TwoPlaces(inj, j, d, p, q, c, last)
    ensures var calls := Times(c, Turn(inj.attr[At(inj, p)].mode, inj.attr[At(inj, p)].afterN)) + [last];
      RunChecks(inj, LiftCalls(d, calls)).errs != RunChecks(j, calls).errs
  {
    var r := At(inj, p);
    var mode, n := inj.attr[r].mode, inj.attr[r].afterN;
    var a := Turn(mode, n);
    CloneAttr(inj, d, j, p);
    CloneAttr(inj, d, j, q);
    OriginalTells(inj, Call(c.op, Inside(d, c.path)), a, Call(last.op, Inside(d, last.path)), r);
    CloneTells(j, c, a, last, p, q);
    TurnTurns(mode, n);
    LiftTimes(d, c, a, last);
  }

  /** A rule that counts, consulted alone in two places: after enough calls at one of them,
      original and clone answer differently at the other. */
  lemma {:induction false} SharedDiverges<R>(
      inj: Injector<R>, j: Injector<Place>, d: string, p: Place, q: Place, c: Call, last: Call)
    requires TwoPlaces(inj, j, d, p, q, c, last) && Proper([c]) && Proper([last])
    ensures !Agrees(inj, j, d)
  {
    ErrsDiffer(inj, j, d, p, q, c, last);
    var a := Turn(inj.attr[At(inj, p)].mode, inj.attr[At(inj, p)].afterN);
    ProperTimes(c, a, last);
    Witness(inj, j, d, Times(c, a) + [last]);
  }

  lemma {:induction false} ProperTimes(c: Call, a: nat, last: Call)
    requires Proper([c]) && Proper([last])
    ensures Proper(Times(c, a) + [last])
  {
    assert [c][0] == c && [last][0] == last;
  }

  lemma {:induction false} LiftTimes(d: string, c: Call, a: nat, last: Call)
    ensures LiftCalls(d, Times(c, a) + [last]) ==
      Times(Call(c.op, Inside(d, c.path)), a) + [Call(last.op, Inside(d, last.path))]
  {
  }

  // ----- Exactly when, for rules that do not get into each other's way -----

  /** Whatever is called within d, at most one rule is consulted. */
  ghost predicate Solo<R>(inj: Injector<R>, d: string)
    requires ValidInjector(inj)
  {
    forall op, x :: ValidOp(op) && ValidPath(x) ==> |Matching(Cascade(inj, op), inj.attr, Inside(d, x))| <= 1
  }

  predicate KnownOps<R(==)>(inj: Injector<R>) {
    forall op :: op in inj.lists ==> ValidOp(op) || op == OpUnknown
  }

  lemma {:induction false} MatchingHas<R>(rs: seq<R>, attr: map<R, Rule>, path: string, k: nat)
    requires k < |rs| && (forall i :: 0 <= i < |rs| ==> rs[i] in attr) && RuleMatches(attr[rs[k]], path)
    ensures rs[k] in Matching(rs, attr, path)
  {
    if k > 0 { MatchingHas(rs[1..], attr, path, k - 1); }
  }

  lemma {:induction false} MatchingTwo<R>(rs: seq<R>, attr: map<R, Rule>, path: string, k: nat, l: nat)
    requires k < l < |rs| && (forall i :: 0 <= i < |rs| ==> rs[i] in attr)
    requires RuleMatches(attr[rs[k]], path) && RuleMatches(attr[rs[l]], path)
    ensures |Matching(rs, attr, path)| >= 2
  {
    if k > 0 {
      MatchingTwo(rs[1..], attr, path, k - 1, l - 1);
    } else {
      MatchingHas(rs[1..], attr, path, l - 1);
    }
  }

  lemma {:induction false} MatchingSize<R, S>(
      rs: seq<R>, attr: map<R, Rule>, path: string, ss: seq<S>, attr': map<S, Rule>, x: string)
    requires |rs| == |ss| && forall i :: 0 <= i < |rs| ==> rs[i] in attr && ss[i] in attr'
    requires forall i :: 0 <= i < |rs| ==> (RuleMatches(attr[rs[i]], path) <==> RuleMatches(attr'[ss[i]], x))
    ensures |Matching(rs, attr, path)| == |Matching(ss, attr', x)|
  {
    if rs != [] { MatchingSize(rs[1..], attr, path, ss[1..], attr', x); }
  }

  /** Where a place stands in the cascade of an operation. */
  function Index<R(==)>(inj: Injector<R>, op: Operation, p: Place): (k: nat)
    requires IsPlace(inj, p) && (p.op == op || p.op == OpUnknown)
    ensures k < |Cascade(inj, op)| && Cascade(inj, op)[k] == At(inj, p)
  {
    if p.op == op then p.i else |ListOf(inj, op)| + p.i
  }

  lemma {:induction false} OnePlaceEach<R>(inj: Injector<R>, d: string, op: Operation, p: Place, q: Place, x: string)
    requires ValidInjector(inj) && Solo(inj, d) && ValidOp(op) && ValidPath(x)
    requires IsPlace(inj, p) && IsPlace(inj, q) && p != q && At(inj, p) == At(inj, q) && At(inj, p) in inj.attr
    requires (p.op == op || p.op == OpUnknown) && (q.op == op || q.op == OpUnknown)
    ensures !RuleMatches(inj.attr[At(inj, p)], Inside(d, x))
  {
    var k, l := Index(inj, op, p), Index(inj, op, q);
    if RuleMatches(inj.attr[At(inj, p)], Inside(d, x)) {
      MatchingTwo(Cascade(inj, op), inj.attr, Inside(d, x), if k < l then k else l, if k < l then l else k);
    }
  }

  lemma {:induction false} AloneThere<R>(inj: Injector<R>, d: string, p: Place, x: string)
    requires ValidInjector(inj) && Solo(inj, d) && ValidOp(p.op) && ValidPath(x) && IsPlace(inj, p)
    requires At(inj, p) in inj.attr && RuleMatches(inj.attr[At(inj, p)], Inside(d, x))
    ensures Alone(inj, p.op, Inside(d, x), At(inj, p))
  {
    MatchingHas(Cascade(inj, p.op), inj.attr, Inside(d, x), Index(inj, p.op, p));
  }

  lemma {:induction false} CloneMatching<R>(inj: Injector<R>, j: Injector<Place>, d: string, op: Operation, x: string)
    requires IsClone(inj, d, j) && ValidInjector(inj) && ValidInjector(j)
    requires IsRel(d) && NoDotPath(inj, d) && ValidPath(x)
    ensures |Matching(Cascade(inj, op), inj.attr, Inside(d, x))| == |Matching(Cascade(j, op), j.attr, x)|
  {
    var rs, ss := Cascade(inj, op), Cascade(j, op);
    assert op in inj.lists.Keys <==> op in j.lists.Keys;
    assert OpUnknown in inj.lists.Keys <==> OpUnknown in j.lists.Keys;
    forall k | 0 <= k < |rs| ensures RuleMatches(inj.attr[rs[k]], Inside(d, x)) <==> RuleMatches(j.attr[ss[k]], x) {
      var p := if k < |ListOf(inj, op)| then Place(op, k) else Place(OpUnknown, k - |ListOf(inj, op)|);
      assert IsPlace(inj, p) && At(inj, p) == rs[k] && ss[k] == p;
      CloneAttr(inj, d, j, p);
      CloneRuleMatches(inj.attr[rs[k]], d, x);
    }
    MatchingSize(rs, inj.attr, Inside(d, x), ss, j.attr, x);
  }

  lemma {:induction false} CloneAlone<R>(inj: Injector<R>, j: Injector<Place>, d: string, p: Place, x: string)
    requires IsClone(inj, d, j) && ValidInjector(inj) && ValidInjector(j)
    requires IsRel(d) && NoDotPath(inj, d) && Solo(inj, d)
    requires ValidOp(p.op) && ValidPath(x) && IsPlace(inj, p) && At(inj, p) in inj.attr
    requires RuleMatches(inj.attr[At(inj, p)], Inside(d, x))
    ensures Alone(j, p.op, x, p)
  {
    ClonePlaces(inj, d, j);
    CloneAttr(inj, d, j, p);
    CloneRuleMatches(inj.attr[At(inj, p)], d, x);
    MatchingHas(Cascade(j, p.op), j.attr, x, Index(j, p.op, p));
    CloneMatching(inj, j, d, p.op, x);
  }

  /** Two places of one rule that matches within d belong to two different operations. */
  lemma {:induction false} DifferentOps<R>(inj: Injector<R>, d: string, p: Place, q: Place, x: string)
    requires ValidInjector(inj) && Solo(inj, d) && KnownOps(inj) && ValidPath(x)
    requires IsPlace(inj, p) && IsPlace(inj, q) && p != q && At(inj, p) == At(inj, q) && At(inj, p) in inj.attr
    requires RuleMatches(inj.attr[At(inj, p)], Inside(d, x))
    ensures ValidOp(p.op) && ValidOp(q.op)
  {
    if p.op == OpUnknown {
      OnePlaceEach(inj, d, if q.op == OpUnknown then OpStat else q.op, p, q, x);
    } else if q.op == OpUnknown {
      OnePlaceEach(inj, d, p.op, p, q, x);
    }
  }

  lemma {:induction false} SharingShows<R>(inj: Injector<R>, j: Injector<Place>, d: string, p: Place, q: Place)
    requires IsClone(inj, d, j) && ValidInjector(inj) && ValidInjector(j)
    requires IsRel(d) && AllFresh(inj) && NoDotPath(inj, d)
    requires Solo(inj, d) && KnownOps(inj)
    requires IsPlace(inj, p) && IsPlace(inj, q) && p != q && At(inj, p) == At(inj, q)
    requires At(inj, p) in inj.attr && Counts(inj.attr[At(inj, p)], d)
    ensures !Agrees(inj, j, d)
  {
    var x :| ValidPath(x) && RuleMatches(inj.attr[At(inj, p)], Inside(d, x));
    DifferentOps(inj, d, p, q, x);
    AloneThere(inj, d, p, x);
    AloneThere(inj, d, q, x);
    CloneAlone(inj, j, d, p, x);
    CloneAlone(inj, j, d, q, x);
    assert At(inj, p) in inj.lists[p.op];
    SharedDiverges(inj, j, d, p, q, Call(p.op, x), Call(q.op, x));
  }

  /** Where no two rules concern the same call, clone and original agree over every run
      exactly when no rule that counts stands in two places. */
  lemma {:induction false} AgreesIff<R>(inj: Injector<R>, d: string)
    requires ValidInjector(inj) && IsRel(d) && AllFresh(inj) && NoDotPath(inj, d) && Solo(inj, d) && KnownOps(inj)
    ensures Agrees(inj, CloneInjector(inj, d), d) <==> NoSharing(inj, d)
  {
    if NoSharing(inj, d) {
      UnsharedAgrees(inj, d);
    } else {
      CloneIsClone(inj, d);
      var p, q :| (
        && IsPlace(inj, p) && IsPlace(inj, q) && At(inj, p) == At(inj, q)
        && At(inj, p) in inj.attr && Counts(inj.attr[At(inj, p)], d)
        && p != q);
      SharingShows(inj, CloneInjector(inj, d), d, p, q);
    }
  }
}
