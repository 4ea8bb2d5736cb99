/** The injector of a sub-filesystem: rules re-rooted, with fresh counters. */
module SubInjector {
  import opened Common
  import opened Paths
  import opened Matchers
  import opened Injector

  /** A clone's rules are new objects, one for each place in the original's lists. */
  datatype Place = Place(op: Operation, i: nat)

  predicate IsPlace<R(==)>(inj: Injector<R>, p: Place) {
    p.op in inj.lists && p.i < |inj.lists[p.op]|
  }

  function Places<R(==)>(inj: Injector<R>): set<Place> {
    set op, i | op in inj.lists && 0 <= i < |inj.lists[op]| :: Place(op, i)
  }

  lemma {:induction false} PlacesAre<R>(inj: Injector<R>)
    ensures forall p :: p in Places(inj) <==> IsPlace(inj, p)
  {
    forall p: Place ensures p in Places(inj) <==> IsPlace(inj, p) {
      if IsPlace(inj, p) {
        assert p.op in inj.lists && 0 <= p.i < |inj.lists[p.op]| && Place(p.op, p.i) == p;
      }
    }
  }

  function At<R(==)>(inj: Injector<R>, p: Place): R
    requires IsPlace(inj, p)
  {
    inj.lists[p.op][p.i]
  }

  function CloneRule(r: Rule, prefix: string): Rule {
    r.(matchers := seq(|r.matchers|, i requires 0 <= i < |r.matchers| => Clone(r.matchers[i], prefix)))
  }

  function CloneInjector<R(==)>(inj: Injector<R>, prefix: string): (c: Injector<Place>)
    requires ValidInjector(inj)
    ensures ValidInjector(c)
  {
    var ps := Places(inj);
    Injector(
      map p | p in ps :: CloneRule(inj.attr[At(inj, p)], prefix),
      map p | p in ps :: Fresh,
      map op | op in inj.lists :: seq(|inj.lists[op]|, i requires 0 <= i < |inj.lists[op]| => Place(op, i)))
  }

  lemma {:induction false} CloneRuleComposes(r: Rule, a: string, b: string)
    requires IsRel(a) && IsRel(b)
    ensures CloneRule(CloneRule(r, a), b) == CloneRule(r, a + "/" + b)
  {
    forall i | 0 <= i < |r.matchers| ensures Clone(Clone(r.matchers[i], a), b) == Clone(r.matchers[i], a + "/" + b) {
      CloneComposes(r.matchers[i], a, b);
    }
  }

  predicate OwnPlaces(lists: map<Operation, seq<Place>>) {
    forall op :: op in lists ==> forall i :: 0 <= i < |lists[op]| ==> lists[op][i] == Place(op, i)
  }

  predicate SameShape<R(==), S(==)>(a: map<Operation, seq<R>>, b: map<Operation, seq<S>>) {
    a.Keys == b.Keys && forall op :: op in a ==> |a[op]| == |b[op]|
  }

  /** A clone, place by place. */
  ghost predicate IsClone<R>(inj: Injector<R>, prefix: string, c: Injector<Place>) {
    && ValidInjector(inj)
    && SameShape(inj.lists, c.lists) && OwnPlaces(c.lists)
    && (forall p :: p in c.attr.Keys <==> IsPlace(inj, p))
    && (forall p :: p in c.ctr.Keys <==> IsPlace(inj, p))
    && (forall p: Place {:trigger IsPlace(inj, p)} :: IsPlace(inj, p) ==>
          && p in c.attr && p in c.ctr && c.ctr[p] == Fresh
          && At(inj, p) in inj.attr && c.attr[p] == CloneRule(inj.attr[At(inj, p)], prefix))
  }

  lemma {:induction false} CloneIsClone<R>(inj: Injector<R>, prefix: string)
    requires ValidInjector(inj)
    ensures IsClone(inj, prefix, CloneInjector(inj, prefix))
  {
    PlacesAre(inj);
  }

  lemma {:induction false} ListsEqual(a: map<Operation, seq<Place>>, b: map<Operation, seq<Place>>)
    requires SameShape(a, b) && OwnPlaces(a) && OwnPlaces(b)
    ensures a == b
  {
    forall op | op in a ensures a[op] == b[op] { }
  }

  lemma {:induction false} MapsEqual<K, V>(a: map<K, V>, b: map<K, V>)
    requires a.Keys == b.Keys && forall k :: k in a.Keys ==> a[k] == b[k]
    ensures a == b
  {
    assert forall k :: k in a <==> k in a.Keys;
    assert forall k :: k in b <==> k in b.Keys;
  }

  /** A clone has the original's places, and each is its own rule. */
  lemma {:induction false} ClonePlaces<R>(inj: Injector<R>, prefix: string, c: Injector<Place>)
    requires IsClone(inj, prefix, c)
    ensures forall p :: IsPlace(c, p) <==> IsPlace(inj, p)
    ensures forall p :: IsPlace(c, p) ==> At(c, p) == p
  {
    forall p: Place ensures IsPlace(c, p) <==> IsPlace(inj, p) {
      assert p.op in c.lists.Keys <==> p.op in inj.lists.Keys;
    }
  }

  lemma {:induction false} CloneAttr<R>(inj: Injector<R>, prefix: string, c: Injector<Place>, p: Place)
    requires IsClone(inj, prefix, c) && IsPlace(inj, p)
    ensures p in c.attr && At(inj, p) in inj.attr && c.attr[p] == CloneRule(inj.attr[At(inj, p)], prefix)
    ensures p in c.ctr && c.ctr[p] == Fresh
  {
    assert p in c.attr.Keys && p in c.ctr.Keys;
  }

  lemma {:induction false} CloneAttrComposes<R>(inj: Injector<R>, a: string, b: string,
                             ca: Injector<Place>, cab: Injector<Place>, c: Injector<Place>, p: Place)
    requires IsRel(a) && IsRel(b) && IsPlace(inj, p)
    requires IsClone(inj, a, ca) && IsClone(ca, b, cab) && IsClone(inj, a + "/" + b, c)
    ensures p in cab.attr && p in c.attr && cab.attr[p] == c.attr[p]
    ensures p in cab.ctr && p in c.ctr && cab.ctr[p] == c.ctr[p]
  {
    ClonePlaces(inj, a, ca);
    CloneAttr(inj, a, ca, p);
    CloneAttr(ca, b, cab, p);
    CloneAttr(inj, a + "/" + b, c, p);
    CloneRuleComposes(inj.attr[At(inj, p)], a, b);
  }

  lemma {:induction false} CloneKeys<R>(inj: Injector<R>, prefix: string, c: Injector<Place>)
    requires IsClone(inj, prefix, c)
    ensures forall p :: p in c.attr.Keys <==> IsPlace(inj, p)
    ensures forall p :: p in c.ctr.Keys <==> IsPlace(inj, p)
    ensures SameShape(inj.lists, c.lists) && OwnPlaces(c.lists)
  {
  }

  lemma {:induction false} CloneListsCompose<R>(inj: Injector<R>, a: string, b: string,
                             ca: Injector<Place>, cab: Injector<Place>, c: Injector<Place>)
    requires IsClone(inj, a, ca) && IsClone(ca, b, cab) && IsClone(inj, a + "/" + b, c)
    ensures cab.lists == c.lists
    ensures cab.attr.Keys == c.attr.Keys && cab.ctr.Keys == c.ctr.Keys && cab.attr.Keys == cab.ctr.Keys
  {
    CloneShapes(inj, a, b, ca, cab, c);
    CloneKeySets(inj, a, b, ca, cab, c);
    ListsEqual(cab.lists, c.lists);
  }

  lemma {:induction false} CloneShapes<R>(inj: Injector<R>, a: string, b: string,
                                          ca: Injector<Place>, cab: Injector<Place>, c: Injector<Place>)
    requires IsClone(inj, a, ca) && IsClone(ca, b, cab) && IsClone(inj, a + "/" + b, c)
    ensures SameShape(cab.lists, c.lists) && OwnPlaces(cab.lists) && OwnPlaces(c.lists)
  {
    CloneKeys(inj, a, ca);
    CloneKeys(ca, b, cab);
    CloneKeys(inj, a + "/" + b, c);
  }

  lemma {:induction false} CloneKeySets<R>(inj: Injector<R>, a: string, b: string,
                                           ca: Injector<Place>, cab: Injector<Place>, c: Injector<Place>)
    requires IsClone(inj, a, ca) && IsClone(ca, b, cab) && IsClone(inj, a + "/" + b, c)
    ensures cab.attr.Keys == c.attr.Keys && cab.ctr.Keys == c.ctr.Keys && cab.attr.Keys == cab.ctr.Keys
  {
    ClonePlaces(inj, a, ca);
    CloneKeys(ca, b, cab);
    CloneKeys(inj, a + "/" + b, c);
    SameSets(cab.attr.Keys, c.attr.Keys);
    SameSets(cab.ctr.Keys, c.ctr.Keys);
    SameSets(cab.attr.Keys, cab.ctr.Keys);
  }

  lemma {:induction false} SameSets(a: set<Place>, b: set<Place>)
    requires forall p :: p in a <==> p in b
    ensures a == b
  {
  }

  lemma {:induction false} CloneAllCompose<R>(inj: Injector<R>, a: string, b: string,
                           ca: Injector<Place>, cab: Injector<Place>, c: Injector<Place>)
    requires IsRel(a) && IsRel(b)
    requires IsClone(inj, a, ca) && IsClone(ca, b, cab) && IsClone(inj, a + "/" + b, c)
    ensures forall p :: p in c.attr.Keys ==> p in cab.attr && cab.attr[p] == c.attr[p]
    ensures forall p :: p in c.ctr.Keys ==> p in cab.ctr && cab.ctr[p] == c.ctr[p]
  {
    forall p | IsPlace(inj, p)
      ensures p in cab.attr && p in c.attr && cab.attr[p] == c.attr[p]
      ensures p in cab.ctr && p in c.ctr && cab.ctr[p] == c.ctr[p]
    {
      CloneAttrComposes(inj, a, b, ca, cab, c, p);
    }
  }

  lemma {:induction false} ClonesCompose<R>(inj: Injector<R>, a: string, b: string)
    requires IsRel(a) && IsRel(b) && ValidInjector(inj)
    ensures var cab, c := CloneInjector(CloneInjector(inj, a), b), CloneInjector(inj, a + "/" + b);
      && cab.lists == c.lists && cab.attr.Keys == c.attr.Keys && cab.ctr.Keys == c.ctr.Keys
      && (forall p :: p in c.attr.Keys ==> cab.attr[p] == c.attr[p])
      && (forall p :: p in c.ctr.Keys ==> cab.ctr[p] == c.ctr[p])
  {
    var ca, c := CloneInjector(inj, a), CloneInjector(inj, a + "/" + b);
    CloneIsClone(inj, a);
    CloneIsClone(ca, b);
    CloneIsClone(inj, a + "/" + b);
    CloneListsCompose(inj, a, b, ca, CloneInjector(ca, b), c);
    CloneAllCompose(inj, a, b, ca, CloneInjector(ca, b), c);
  }

  /** Cloning for a and then for b gives the injector that cloning for a/b gives. */
  lemma {:induction false} CloneInjectorComposes<R>(inj: Injector<R>, a: string, b: string)
    requires IsRel(a) && IsRel(b) && ValidInjector(inj)
    ensures CloneInjector(CloneInjector(inj, a), b) == CloneInjector(inj, a + "/" + b)
  {
    ClonesCompose(inj, a, b);
    InjectorsEqual(CloneInjector(CloneInjector(inj, a), b), CloneInjector(inj, a + "/" + b));
  }

  lemma {:induction false} InjectorsEqual(x: Injector<Place>, y: Injector<Place>)
    requires x.lists == y.lists && x.attr.Keys == y.attr.Keys && x.ctr.Keys == y.ctr.Keys
    requires forall p :: p in y.attr.Keys ==> x.attr[p] == y.attr[p]
    requires forall p :: p in y.ctr.Keys ==> x.ctr[p] == y.ctr[p]
    ensures x == y
  {
    MapsEqual(x.attr, y.attr);
    MapsEqual(x.ctr, y.ctr);
  }

  // ----- Simulation -----

  /** The decision depends on the counter. */
  predicate Varies(mode: ErrorMode, n: nat) {
    mode.Once? || ((mode.AfterSuccesses? || mode.Next?) && n < TWO_64 - 1)
  }

  lemma {:induction false} Constant(mode: ErrorMode, n: nat, a: Counter, b: Counter)
    requires !Varies(mode, n)
    ensures Decide(mode, n, a).0 == Decide(mode, n, b).0
  {
  }

  ghost predicate Concerns(r: Rule, d: string) {
    exists x :: ValidPath(x) && RuleMatches(r, Inside(d, x))
  }

  /** r counts something within d. */
  ghost predicate Counts(r: Rule, d: string) {
    Varies(r.mode, r.afterN) && Concerns(r, d)
  }

  /** s decides at x as r does at d/x, given equal counters. */
  ghost predicate Alike(r: Rule, s: Rule, d: string) {
    && r.err == s.err && r.mode == s.mode && r.afterN == s.afterN
    && (forall x :: ValidPath(x) ==> (RuleMatches(s, x) <==> RuleMatches(r, Inside(d, x))))
  }

  ghost predicate SimPlace<R, S>(i: Injector<R>, j: Injector<S>, d: string, p: Place) {
    && IsPlace(i, p) && IsPlace(j, p)
    && At(i, p) in i.attr && At(i, p) in i.ctr && At(j, p) in j.attr && At(j, p) in j.ctr
    && Alike(i.attr[At(i, p)], j.attr[At(j, p)], d)
    && (Counts(i.attr[At(i, p)], d) ==> i.ctr[At(i, p)] == j.ctr[At(j, p)])
  }

  /** Rules that count stand in the same places. */
  ghost predicate SamePlaces<R, S>(i: Injector<R>, j: Injector<S>, d: string) {
    forall p, q :: (
      && IsPlace(i, p) && IsPlace(i, q) && IsPlace(j, p) && IsPlace(j, q)
      && At(i, p) in i.attr && Counts(i.attr[At(i, p)], d)) ==>
        (At(i, p) == At(i, q) <==> At(j, p) == At(j, q))
  }

  /** j does at x what i does at d/x: place by place rules that match alike, those that count
      in the same state and shared in the same way. */
  ghost predicate Sim<R, S>(i: Injector<R>, j: Injector<S>, d: string) {
    && ValidInjector(i) && ValidInjector(j) && SameShape(i.lists, j.lists)
    && (forall p {:trigger IsPlace(i, p)} :: IsPlace(i, p) ==> SimPlace(i, j, d, p))
    && SamePlaces(i, j, d)
  }

  /** r and s stand in the same place. */
  ghost predicate Paired<R, S>(i: Injector<R>, j: Injector<S>, r: R, s: S) {
    exists p :: IsPlace(i, p) && IsPlace(j, p) && At(i, p) == r && At(j, p) == s
  }

  ghost predicate PairedLists<R, S>(i: Injector<R>, j: Injector<S>, rs: seq<R>, ss: seq<S>) {
    |rs| == |ss| && forall k :: 0 <= k < |rs| ==> Paired(i, j, rs[k], ss[k])
  }

  lemma {:induction false} PairedRules<R, S>(i: Injector<R>, j: Injector<S>, d: string, r: R, s: S)
    requires Sim(i, j, d) && Paired(i, j, r, s)
    ensures r in i.attr && r in i.ctr && s in j.attr && s in j.ctr && Alike(i.attr[r], j.attr[s], d)
    ensures Counts(i.attr[r], d) ==> i.ctr[r] == j.ctr[s]
  {
    var p :| IsPlace(i, p) && IsPlace(j, p) && At(i, p) == r && At(j, p) == s;
    assert SimPlace(i, j, d, p);
  }

  lemma {:induction false} SimUpdate<R, S>(
      i: Injector<R>, j: Injector<S>, d: string, r: R, s: S, a: Counter, b: Counter)
    requires Sim(i, j, d) && Paired(i, j, r, s) && r in i.attr && (Counts(i.attr[r], d) ==> a == b)
    ensures Sim(i.(ctr := i.ctr[r := a]), j.(ctr := j.ctr[s := b]), d)
  {
    PairedRules(i, j, d, r, s);
    var i', j' := i.(ctr := i.ctr[r := a]), j.(ctr := j.ctr[s := b]);
    var p0 :| IsPlace(i, p0) && IsPlace(j, p0) && At(i, p0) == r && At(j, p0) == s;
    forall p {:trigger IsPlace(i', p)} | IsPlace(i', p) ensures SimPlace(i', j', d, p) {
      assert IsPlace(i, p);
      assert SimPlace(i, j, d, p);
    }
    forall p, q | (
      && IsPlace(i', p) && IsPlace(i', q) && IsPlace(j', p) && IsPlace(j', q)
      && At(i', p) in i'.attr && Counts(i'.attr[At(i', p)], d))
      ensures At(i', p) == At(i', q) <==> At(j', p) == At(j', q)
    {
      assert IsPlace(i, p) && IsPlace(i, q) && IsPlace(j, p) && IsPlace(j, q);
    }
  }

  lemma {:induction false} SimConsult<R, S>(
      i: Injector<R>, j: Injector<S>, d: string, rs: seq<R>, ss: seq<S>, x: string)
    requires Sim(i, j, d) && ValidPath(x) && PairedLists(i, j, rs, ss)
    requires Known(rs, i.attr, i.ctr) && Known(ss, j.attr, j.ctr)
    ensures var v := Consult(rs, i.attr, i.ctr, Inside(d, x)); var w := Consult(ss, j.attr, j.ctr, x);
      v.err == w.err && Sim(After(i, v), After(j, w), d)
    decreases |rs|
  {
    if rs == [] {
      assert i.(ctr := i.ctr) == i && j.(ctr := j.ctr) == j;
    } else {
      var r, s := rs[0], ss[0];
      PairedRules(i, j, d, r, s);
      if !RuleMatches(i.attr[r], Inside(d, x)) {
        SimConsult(i, j, d, rs[1..], ss[1..], x);
      } else {
        var a := Decide(i.attr[r].mode, i.attr[r].afterN, i.ctr[r]);
        var b := Decide(j.attr[s].mode, j.attr[s].afterN, j.ctr[s]);
        assert a.0 == b.0 by {
          if !Varies(i.attr[r].mode, i.attr[r].afterN) {
            Constant(i.attr[r].mode, i.attr[r].afterN, i.ctr[r], j.ctr[s]);
          }
        }
        var i', j' := i.(ctr := i.ctr[r := a.1]), j.(ctr := j.ctr[s := b.1]);
        SimUpdate(i, j, d, r, s, a.1, b.1);
        if !a.0 {
          StillPaired(i, j, i', j', rs[1..], ss[1..]);
          SimConsult(i', j', d, rs[1..], ss[1..], x);
        }
      }
    }
  }

  lemma {:induction false} StillPaired<R, S>(
      i: Injector<R>, j: Injector<S>, i': Injector<R>, j': Injector<S>, rs: seq<R>, ss: seq<S>)
    requires PairedLists(i, j, rs, ss) && i'.lists == i.lists && j'.lists == j.lists
    ensures PairedLists(i', j', rs, ss)
  {
    forall k | 0 <= k < |rs| ensures Paired(i', j', rs[k], ss[k]) {
      assert Paired(i, j, rs[k], ss[k]);
      var p :| IsPlace(i, p) && IsPlace(j, p) && At(i, p) == rs[k] && At(j, p) == ss[k];
      assert IsPlace(i', p) && IsPlace(j', p) && At(i', p) == rs[k] && At(j', p) == ss[k];
    }
  }

  lemma {:induction false} ListsPaired<R, S>(i: Injector<R>, j: Injector<S>, op: Operation)
    requires SameShape(i.lists, j.lists)
    ensures PairedLists(i, j, ListOf(i, op), ListOf(j, op))
  {
    assert op in i.lists.Keys <==> op in j.lists.Keys;
    if op in i.lists {
      forall k | 0 <= k < |i.lists[op]| ensures Paired(i, j, i.lists[op][k], j.lists[op][k]) {
        var p := Place(op, k);
        assert IsPlace(i, p) && IsPlace(j, p) && At(i, p) == i.lists[op][k] && At(j, p) == j.lists[op][k];
      }
    }
  }

  lemma {:induction false} SimCheck<R, S>(i: Injector<R>, j: Injector<S>, d: string, op: Operation, x: string)
    requires Sim(i, j, d) && ValidPath(x)
    ensures var v := Check(i, op, Inside(d, x)); var w := Check(j, op, x);
      v.err == w.err && Sim(After(i, v), After(j, w), d)
  {
    ListsPaired(i, j, op);
    ListsPaired(i, j, OpUnknown);
    SimConsult(i, j, d, Cascade(i, op), Cascade(j, op), x);
  }

  // ----- A clone simulates its original -----

  /** No rule that counts something within d stands in two places of the lists. */
  ghost predicate NoSharing<R>(inj: Injector<R>, d: string) {
    forall p, q :: (
      && IsPlace(inj, p) && IsPlace(inj, q) && At(inj, p) == At(inj, q)
      && At(inj, p) in inj.attr && Counts(inj.attr[At(inj, p)], d)) ==>
        p == q
  }

  /** No stored exact path is the invalid path "d/.". */
  predicate NoDotPath<R(==)>(inj: Injector<R>, d: string) {
    forall r :: r in inj.attr ==> forall k :: 0 <= k < |inj.attr[r].matchers| ==>
      !(inj.attr[r].matchers[k].Exact? && inj.attr[r].matchers[k].path == d + "/.")
  }

  lemma {:induction false} CloneRuleMatches(r: Rule, d: string, x: string)
    requires IsRel(d) && ValidPath(x)
    requires forall k :: 0 <= k < |r.matchers| ==> !(r.matchers[k].Exact? && r.matchers[k].path == d + "/.")
    ensures RuleMatches(CloneRule(r, d), x) <==> RuleMatches(r, Inside(d, x))
  {
    forall k | 0 <= k < |r.matchers|
      ensures Matches(CloneRule(r, d).matchers[k], x) <==> Matches(r.matchers[k], Inside(d, x))
    {
      CloneAt(r.matchers[k], d, x);
    }
  }

  /** With fresh counters, and unless a rule that counts is shared, the clone for d does at
      every valid path x exactly what the original does at d/x, from then on. */
  lemma {:induction false} CloneSimulates<R>(inj: Injector<R>, d: string)
    requires ValidInjector(inj) && IsRel(d) && AllFresh(inj) && NoSharing(inj, d) && NoDotPath(inj, d)
    ensures Sim(inj, CloneInjector(inj, d), d)
  {
    var c := CloneInjector(inj, d);
    CloneIsClone(inj, d);
    ClonePlaces(inj, d, c);
    forall p {:trigger IsPlace(inj, p)} | IsPlace(inj, p) ensures SimPlace(inj, c, d, p) {
      CloneSimulatesRule(inj, d, p);
    }
  }

  lemma {:induction false} CloneSimulatesRule<R>(inj: Injector<R>, d: string, p: Place)
    requires ValidInjector(inj) && IsRel(d) && AllFresh(inj) && NoDotPath(inj, d) && IsPlace(inj, p)
    ensures SimPlace(inj, CloneInjector(inj, d), d, p)
  {
    var c, r := CloneInjector(inj, d), At(inj, p);
    CloneIsClone(inj, d);
    ClonePlaces(inj, d, c);
    CloneAttr(inj, d, c, p);
    assert r in inj.lists[p.op];
    forall x | ValidPath(x) ensures RuleMatches(c.attr[p], x) <==> RuleMatches(inj.attr[r], Inside(d, x)) {
      CloneRuleMatches(inj.attr[r], d, x);
    }
  }

  /** A Once rule in two lists. */
  function Shared(e: Error): Injector<int> {
    Injector(map[7 := Rule(e, Once, 0, [Wildcard])], map[7 := Fresh], map[OpStat := [7], OpOpen := [7]])
  }

  lemma {:induction false} SharedIsFresh(e: Error)
    ensures ValidInjector(Shared(e)) && AllFresh(Shared(e)) && NoDotPath(Shared(e), "d")
  {
  }

  lemma {:induction false} SharedClone(e: Error)
    ensures ValidInjector(CloneInjector(Shared(e), "d"))
    ensures RunChecks(CloneInjector(Shared(e), "d"), [Call(OpStat, "x"), Call(OpOpen, "x")]).errs == [Some(e), Some(e)]
  {
    var c := CloneInjector(Shared(e), "d");
    SharedIsFresh(e);
    CloneIsClone(Shared(e), "d");
    CloneOfWildcard(Rule(e, Once, 0, [Wildcard]), "d");
    assert c.lists[OpStat] == [Place(OpStat, 0)] && c.lists[OpOpen] == [Place(OpOpen, 0)];
    TwoSingles(c, e, "x", "x");
  }

  /** Sharing matters: one Once rule added for both Stat and Open fails once in the
      original, but once for each operation in a clone. */
  lemma {:induction false} SharedRuleDiverges(e: Error)
    ensures ValidInjector(Shared(e)) && AllFresh(Shared(e)) && NoDotPath(Shared(e), "d")
    ensures ValidInjector(CloneInjector(Shared(e), "d"))
    ensures RunChecks(Shared(e), [Call(OpStat, "d/x"), Call(OpOpen, "d/x")]).errs == [Some(e), None]
    ensures RunChecks(CloneInjector(Shared(e), "d"), [Call(OpStat, "x"), Call(OpOpen, "x")]).errs == [Some(e), Some(e)]
  {
    SharedIsFresh(e);
    TwoSingles(Shared(e), e, "d/x", "d/x");
    SharedClone(e);
  }

  lemma {:induction false} CloneOfWildcard(rule: Rule, prefix: string)
    requires rule.matchers == [Wildcard]
    ensures CloneRule(rule, prefix) == rule
  {
  }

  /** Stat and then Open, each with one wildcard Once rule. */
  lemma {:induction false} TwoSingles<R>(inj: Injector<R>, e: Error, x: string, y: string)
    requires ValidInjector(inj) && AllFresh(inj) && OpUnknown !in inj.lists
    requires OpStat in inj.lists && OpOpen in inj.lists && |inj.lists[OpStat]| == 1 == |inj.lists[OpOpen]|
    requires inj.attr[inj.lists[OpStat][0]] == Rule(e, Once, 0, [Wildcard]) == inj.attr[inj.lists[OpOpen][0]]
    ensures RunChecks(inj, [Call(OpStat, x), Call(OpOpen, y)]).errs ==
      [Some(e), if inj.lists[OpStat][0] == inj.lists[OpOpen][0] then None else Some(e)]
  {
    FirstRule(inj, OpStat, x, e);
    var v := Check(inj, OpStat, x);
    FirstRule(After(inj, v), OpOpen, y, e);
    RunTwo(inj, Call(OpStat, x), Call(OpOpen, y));
  }

  lemma {:induction false} FirstRule<R>(inj: Injector<R>, op: Operation, path: string, e: Error)
    requires ValidInjector(inj) && OpUnknown !in inj.lists && op in inj.lists && |inj.lists[op]| == 1
    requires inj.attr[inj.lists[op][0]] == Rule(e, Once, 0, [Wildcard])
    ensures var r := inj.lists[op][0]; var v := Check(inj, op, path);
      && v.err == (if inj.ctr[r].used then None else Some(e))
      && v.ctr == inj.ctr[r := Counter(inj.ctr[r].hits, true)]
  {
    var r := inj.lists[op][0];
    var rs := Cascade(inj, op);
    assert rs == [r] && rs[1..] == [];
    var rule := inj.attr[r];
    assert Matches(rule.matchers[0], path);
    assert RuleMatches(rule, path);
    var d := Decide(rule.mode, rule.afterN, inj.ctr[r]);
    assert d == (!inj.ctr[r].used, Counter(inj.ctr[r].hits, true));
    assert Consult(rs[1..], inj.attr, inj.ctr[r := d.1], path) == Verdict(None, inj.ctr[r := d.1], []);
  }

  lemma {:induction false} RunTwo<R>(inj: Injector<R>, a: Call, b: Call)
    requires ValidInjector(inj)
    ensures var v := Check(inj, a.op, a.path); var w := Check(After(inj, v), b.op, b.path);
      RunChecks(inj, [a, b]).errs == [v.err, w.err]
  {
    var v := Check(inj, a.op, a.path);
    var w := Check(After(inj, v), b.op, b.path);
    RunUnfolds(inj, [a, b], []);
    assert [a, b][1..] == [b];
    RunUnfolds(After(inj, v), [b], []);
    assert [b][1..] == [];
  }
}
