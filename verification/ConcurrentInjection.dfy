/** CheckAndApply called by any number of goroutines at once: the read lock excludes no
    other check, so the calls interleave rule by rule, each consultation one atomic
    instruction on the rule's counter. */
module ConcurrentInjection {
  import opened Common
  import opened Injector

  /** A call under way: the rules that match it, in order, and how far it has come. */
  datatype Flight<R(==)> = Flight(chain: seq<R>, pos: nat, fired: bool)

  datatype Sky<R(==)> = Sky(ctr: map<R, Counter>, flights: seq<Flight<R>>, log: seq<Event<R>>)

  predicate InAir<R(==)>(f: Flight<R>) {
    !f.fired && f.pos < |f.chain|
  }

  predicate ValidFlight<R(==)>(f: Flight<R>, attr: map<R, Rule>, ctr: map<R, Counter>) {
    f.pos <= |f.chain| && (f.fired ==> f.pos < |f.chain|) && Known(f.chain, attr, ctr)
  }

  predicate ValidSky<R(==)>(s: Sky<R>, attr: map<R, Rule>) {
    forall i :: 0 <= i < |s.flights| ==> ValidFlight(s.flights[i], attr, s.ctr)
  }

  /** One consultation by the i-th call. */
  function Consulted<R(==)>(s: Sky<R>, i: nat, attr: map<R, Rule>): (s': Sky<R>)
    requires ValidSky(s, attr) && i < |s.flights| && InAir(s.flights[i])
    ensures ValidSky(s', attr) && |s'.flights| == |s.flights|
  {
    var f := s.flights[i];
    var r := f.chain[f.pos];
    var d := Decide(attr[r].mode, attr[r].afterN, s.ctr[r]);
    var f' := if d.0 then f.(fired := true) else f.(pos := f.pos + 1);
    Sky(s.ctr[r := d.1], s.flights[i := f'], s.log + [Event(r, d.0)])
  }

  predicate Schedule<R(==)>(s: Sky<R>, picks: seq<nat>, attr: map<R, Rule>)
    requires ValidSky(s, attr)
    decreases |picks|
  {
    picks == [] || (
      picks[0] < |s.flights| && InAir(s.flights[picks[0]]) && Schedule(Consulted(s, picks[0], attr), picks[1..], attr))
  }

  function Reached<R(==)>(s: Sky<R>, picks: seq<nat>, attr: map<R, Rule>): (r: Sky<R>)
    requires ValidSky(s, attr) && Schedule(s, picks, attr)
    ensures ValidSky(r, attr) && |r.flights| == |s.flights|
    decreases |picks|
  {
    if picks == [] then s else Reached(Consulted(s, picks[0], attr), picks[1..], attr)
  }

  // ----- Every rule follows its closed form, whatever the interleaving -----

  lemma {:induction false} StepFaithful<R>(s: Sky<R>, i: nat, attr: map<R, Rule>)
    requires ValidSky(s, attr) && i < |s.flights| && InAir(s.flights[i])
    requires Tracks(s.ctr, attr, s.log) && Faithful(s.log, attr)
    ensures var s' := Consulted(s, i, attr); Tracks(s'.ctr, attr, s'.log) && Faithful(s'.log, attr)
  {
    var r := s.flights[i].chain[s.flights[i].pos];
    var d := Decide(attr[r].mode, attr[r].afterN, s.ctr[r]);
    DecideIsClosed(attr[r].mode, attr[r].afterN, Count(s.log, r));
    FaithfulSnoc(s.log, Event(r, d.0), attr);
    TracksSnoc(s.ctr, attr, s.log, r, d.0);
  }

  lemma {:induction false} RunFaithful<R>(s: Sky<R>, picks: seq<nat>, attr: map<R, Rule>)
    requires ValidSky(s, attr) && Schedule(s, picks, attr)
    requires Tracks(s.ctr, attr, s.log) && Faithful(s.log, attr)
    ensures var t := Reached(s, picks, attr); Tracks(t.ctr, attr, t.log) && Faithful(t.log, attr)
    decreases |picks|
  {
    if picks != [] {
      StepFaithful(s, picks[0], attr);
      RunFaithful(Consulted(s, picks[0], attr), picks[1..], attr);
    }
  }

  // ----- Accounting -----

  function Sum<R(==)>(fs: seq<Flight<R>>, f: Flight<R> -> nat): nat {
    if fs == [] then 0 else Sum(fs[..|fs|-1], f) + f(fs[|fs|-1])
  }

  lemma {:induction false} SumUpdate<R>(fs: seq<Flight<R>>, f: Flight<R> -> nat, i: nat, x: Flight<R>)
    requires i < |fs|
    ensures Sum(fs[i := x], f) == Sum(fs, f) - f(fs[i]) + f(x)
  {
    var n := |fs| - 1;
    if i == n {
      assert fs[i := x][..n] == fs[..n];
    } else {
      assert fs[i := x][..n] == fs[..n][i := x];
      SumUpdate(fs[..n], f, i, x);
    }
  }

  lemma {:induction false} SumPlus<R>(fs: seq<Flight<R>>, f: Flight<R> -> nat, g: Flight<R> -> nat, h: Flight<R> -> nat)
    requires forall i :: 0 <= i < |fs| ==> f(fs[i]) == g(fs[i]) + h(fs[i])
    ensures Sum(fs, f) == Sum(fs, g) + Sum(fs, h)
  {
    if fs != [] { SumPlus(fs[..|fs|-1], f, g, h); }
  }

  function Occurs<R(==)>(rs: seq<R>, r: R): nat {
    if rs == [] then 0 else Occurs(rs[..|rs|-1], r) + if rs[|rs|-1] == r then 1 else 0
  }

  /** The consultations, passes and fires of r by one call. */
  function PassesOf<R(==)>(r: R): Flight<R> -> nat {
    (f: Flight<R>) => if f.pos <= |f.chain| then Occurs(f.chain[..f.pos], r) else 0
  }

  function FiresOf<R(==)>(r: R): Flight<R> -> nat {
    (f: Flight<R>) => if f.fired && f.pos < |f.chain| && f.chain[f.pos] == r then 1 else 0
  }

  function ConsultationsOf<R(==)>(r: R): Flight<R> -> nat {
    (f: Flight<R>) =>
      (if f.fired && f.pos < |f.chain| && f.chain[f.pos] == r then 1 else 0)
      + if f.pos <= |f.chain| then Occurs(f.chain[..f.pos], r) else 0
  }

  /** The log and the calls tell the same story: fires plus passes are the consultations. */
  ghost predicate Accounted<R(!new)>(s: Sky<R>) {
    forall r :: Fires(s.log, r) == Sum(s.flights, FiresOf(r))
             && Count(s.log, r) == Sum(s.flights, FiresOf(r)) + Sum(s.flights, PassesOf(r))
  }

  lemma {:induction false} StepAccounted<R(!new)>(s: Sky<R>, i: nat, attr: map<R, Rule>)
    requires ValidSky(s, attr) && i < |s.flights| && InAir(s.flights[i]) && Accounted(s)
    ensures Accounted(Consulted(s, i, attr))
  {
    var s' := Consulted(s, i, attr);
    var f, f' := s.flights[i], s'.flights[i];
    var e := s'.log[|s.log|];
    assert s'.log == s.log + [e] && s'.flights == s.flights[i := f'];
    assert f.chain[..f.pos + 1][..f.pos] == f.chain[..f.pos];
    forall r
      ensures Fires(s'.log, r) == Sum(s'.flights, FiresOf(r))
      ensures Count(s'.log, r) == Sum(s'.flights, FiresOf(r)) + Sum(s'.flights, PassesOf(r))
    {
      CountSnoc(s.log, e, r);
      SumUpdate(s.flights, FiresOf(r), i, f');
      SumUpdate(s.flights, PassesOf(r), i, f');
    }
  }

  lemma {:induction false} RunAccounted<R(!new)>(s: Sky<R>, picks: seq<nat>, attr: map<R, Rule>)
    requires ValidSky(s, attr) && Schedule(s, picks, attr) && Accounted(s)
    ensures Accounted(Reached(s, picks, attr))
    decreases |picks|
  {
    if picks != [] {
      StepAccounted(s, picks[0], attr);
      RunAccounted(Consulted(s, picks[0], attr), picks[1..], attr);
    }
  }

  /** All calls are about to begin, on fresh counters. */
  predicate Takeoff<R(==)>(s: Sky<R>, attr: map<R, Rule>) {
    && ValidSky(s, attr) && s.log == []
    && (forall r :: r in s.ctr ==> r in attr && s.ctr[r] == Fresh)
    && (forall i :: 0 <= i < |s.flights| ==> s.flights[i].pos == 0 && !s.flights[i].fired)
  }

  lemma {:induction false} SumZero<R>(fs: seq<Flight<R>>, f: Flight<R> -> nat)
    requires forall i :: 0 <= i < |fs| ==> f(fs[i]) == 0
    ensures Sum(fs, f) == 0
  {
    if fs != [] { SumZero(fs[..|fs|-1], f); }
  }

  lemma {:induction false} TakeoffAccounted<R(!new)>(s: Sky<R>, attr: map<R, Rule>)
    requires Takeoff(s, attr)
    ensures Accounted(s) && Tracks(s.ctr, attr, s.log) && Faithful(s.log, attr)
  {
    forall r ensures Sum(s.flights, FiresOf(r)) == 0 && Sum(s.flights, PassesOf(r)) == 0 {
      SumZero(s.flights, FiresOf(r));
      SumZero(s.flights, PassesOf(r));
    }
  }

  /** In every reachable state of every interleaving of any calls: each rule's fires plus
      passes are its consultations, and its fires are the closed form of them. */
  lemma {:induction false} Conservation<R(!new)>(s: Sky<R>, picks: seq<nat>, attr: map<R, Rule>, r: R)
    requires Takeoff(s, attr) && Schedule(s, picks, attr) && r in attr
    requires Count(Reached(s, picks, attr).log, r) < TWO_64
    ensures var t := Reached(s, picks, attr);
      && Count(t.log, r) == Sum(t.flights, FiresOf(r)) + Sum(t.flights, PassesOf(r))
      && Sum(t.flights, FiresOf(r)) == ClosedFires(attr[r].mode, attr[r].afterN, Count(t.log, r))
  {
    TakeoffAccounted(s, attr);
    RunAccounted(s, picks, attr);
    RunFaithful(s, picks, attr);
    FaithfulCloses(Reached(s, picks, attr).log, attr, r);
  }

  // ----- Handing over to the next rule -----

  /** How many rules a call has consulted. */
  function Tried<R(==)>(f: Flight<R>): nat {
    if f.fired then f.pos + 1 else f.pos
  }

  /** The consultations by one call that come right after a pass of r. */
  function FollowedOf<R(==)>(r: R): Flight<R> -> nat {
    (f: Flight<R>) => if 0 < Tried(f) <= |f.chain| then Occurs(f.chain[..Tried(f) - 1], r) else 0
  }

  /** The call has passed r last, and more rules match it. */
  function WaitingAfter<R(==)>(r: R): Flight<R> -> nat {
    (f: Flight<R>) => if 0 < f.pos < |f.chain| && !f.fired && f.chain[f.pos - 1] == r then 1 else 0
  }

  /** The call has passed r last, and no more rules match it. */
  function EndedAt<R(==)>(r: R): Flight<R> -> nat {
    (f: Flight<R>) => if 0 < f.pos == |f.chain| && f.chain[f.pos - 1] == r then 1 else 0
  }

  function FollowedOrEnded<R(==)>(r: R): Flight<R> -> nat {
    (f: Flight<R>) =>
      (if 0 < Tried(f) <= |f.chain| then Occurs(f.chain[..Tried(f) - 1], r) else 0)
      + if 0 < f.pos == |f.chain| && f.chain[f.pos - 1] == r then 1 else 0
  }

  lemma {:induction false} PassesSplit<R>(f: Flight<R>, r: R)
    requires f.pos <= |f.chain| && (f.fired ==> f.pos < |f.chain|)
    ensures PassesOf(r)(f) == FollowedOf(r)(f) + WaitingAfter(r)(f) + EndedAt(r)(f)
  {
    if !f.fired && f.pos > 0 {
      assert f.chain[..f.pos][..f.pos - 1] == f.chain[..f.pos - 1];
    }
  }

  /** In every reachable state, whatever rules each call matches: what r has let pass has
      consulted the next rule that matches it, is about to, or had no rule left. */
  lemma {:induction false} HandOverAny<R(!new)>(s: Sky<R>, picks: seq<nat>, attr: map<R, Rule>, r: R)
    requires Takeoff(s, attr) && Schedule(s, picks, attr)
    ensures var t := Reached(s, picks, attr);
      Count(t.log, r) - Fires(t.log, r) ==
        Sum(t.flights, FollowedOf(r)) + Sum(t.flights, WaitingAfter(r)) + Sum(t.flights, EndedAt(r))
  {
    TakeoffAccounted(s, attr);
    RunAccounted(s, picks, attr);
    var fs := Reached(s, picks, attr).flights;
    forall i | 0 <= i < |fs|
      ensures PassesOf(r)(fs[i]) == FollowedOrEnded(r)(fs[i]) + WaitingAfter(r)(fs[i])
      ensures FollowedOrEnded(r)(fs[i]) == FollowedOf(r)(fs[i]) + EndedAt(r)(fs[i])
    {
      PassesSplit(fs[i], r);
    }
    SumPlus(fs, PassesOf(r), FollowedOrEnded(r), WaitingAfter(r));
    SumPlus(fs, FollowedOrEnded(r), FollowedOf(r), EndedAt(r));
  }

  /** Two calls that match a Once rule first and then rules of their own. */
  function Pair(): Sky<int> {
    Sky(map[0 := Fresh, 1 := Fresh, 2 := Fresh], [Flight([0, 1], 0, false), Flight([0, 2], 0, false)], [])
  }

  predicate OnceFirst(attr: map<int, Rule>) {
    0 in attr && 1 in attr && 2 in attr && attr[0].mode == Once && attr[1].mode == Always && attr[2].mode == Always
  }

  /** Whichever is asked first fails at the shared rule, and the other goes on. */
  lemma {:induction false} PairRun(attr: map<int, Rule>, i: nat)
    requires OnceFirst(attr) && i < 2
    ensures var t := [i, 1 - i, 1 - i];
      && Schedule(Pair(), t, attr) && Landed(Reached(Pair(), t, attr))
      && Reached(Pair(), t, attr).log == [Event(0, true), Event(0, false), Event(2 - i, true)]
  {
    var s := Pair();
    var s1 := Consulted(s, i, attr);
    assert s1.flights[i] == s.flights[i].(fired := true) && s1.flights[1 - i] == s.flights[1 - i];
    assert s1.log == [Event(0, true)] && s1.ctr[0].used;
    var s2 := Consulted(s1, 1 - i, attr);
    assert s2.flights[1 - i] == s.flights[1 - i].(pos := 1) && s2.flights[i] == s1.flights[i];
    assert s2.log == [Event(0, true), Event(0, false)] && s2.ctr[2 - i] == Fresh;
    var s3 := Consulted(s2, 1 - i, attr);
    assert s3.log == [Event(0, true), Event(0, false), Event(2 - i, true)];
    assert s3.flights[i].fired && s3.flights[1 - i].fired && |s3.flights| == 2;
    BothFired(s3, i);
    ThreePicks(s, attr, i, 1 - i, 1 - i);
  }

  lemma {:induction false} BothFired(s: Sky<int>, i: nat)
    requires i < 2 && |s.flights| == 2 && s.flights[i].fired && s.flights[1 - i].fired
    ensures Landed(s)
  {
    forall k | 0 <= k < 2 ensures !InAir(s.flights[k]) { assert k == i || k == 1 - i; }
  }

  lemma {:induction false} CountThree<R>(a: Event<R>, b: Event<R>, c: Event<R>, r: R)
    ensures Count([a, b, c], r) ==
      (if a.rule == r then 1 else 0) + (if b.rule == r then 1 else 0) + if c.rule == r then 1 else 0
  {
    assert [a, b, c] == [] + [a] + [b] + [c];
    CountSnoc([], a, r);
    CountSnoc([] + [a], b, r);
    CountSnoc([] + [a] + [b], c, r);
  }

  /** Where calls match different rules, how often a later rule is consulted depends on the
      schedule. */
  lemma {:induction false} TotalsDependOnOrder(attr: map<int, Rule>)
    requires OnceFirst(attr)
    ensures Takeoff(Pair(), attr) && Schedule(Pair(), [0, 1, 1], attr) && Schedule(Pair(), [1, 0, 0], attr)
    ensures var x, y := Reached(Pair(), [0, 1, 1], attr), Reached(Pair(), [1, 0, 0], attr);
      Landed(x) && Landed(y) && Count(x.log, 1) == 0 && Count(y.log, 1) == 1
  {
    PairRun(attr, 0);
    PairRun(attr, 1);
    CountThree(Event(0, true), Event(0, false), Event(2, true), 1);
    CountThree(Event(0, true), Event(0, false), Event(1, true), 1);
  }

  predicate Can<R(==)>(s: Sky<R>, i: nat, attr: map<R, Rule>) {
    ValidSky(s, attr) && i < |s.flights| && InAir(s.flights[i])
  }

  lemma {:induction false} Pick<R>(s: Sky<R>, attr: map<R, Rule>, i: nat, rest: seq<nat>)
    requires Can(s, i, attr) && Schedule(Consulted(s, i, attr), rest, attr)
    ensures Schedule(s, [i] + rest, attr) && Reached(s, [i] + rest, attr) == Reached(Consulted(s, i, attr), rest, attr)
  {
    assert ([i] + rest)[0] == i && ([i] + rest)[1..] == rest;
  }

  lemma {:induction false} ThreePicks<R>(s: Sky<R>, attr: map<R, Rule>, a: nat, b: nat, c: nat)
    requires Can(s, a, attr) && Can(Consulted(s, a, attr), b, attr)
    requires Can(Consulted(Consulted(s, a, attr), b, attr), c, attr)
    ensures Schedule(s, [a, b, c], attr)
    ensures Reached(s, [a, b, c], attr) == Consulted(Consulted(Consulted(s, a, attr), b, attr), c, attr)
  {
    var s1 := Consulted(s, a, attr);
    var s2 := Consulted(s1, b, attr);
    Pick(s2, attr, c, []);
    Pick(s1, attr, b, [c] + []);
    Pick(s, attr, a, [b] + ([c] + []));
    assert [a] + ([b] + ([c] + [])) == [a, b, c];
  }

  // ----- Once no call is under way -----

  predicate Landed<R(==)>(s: Sky<R>) {
    forall i :: 0 <= i < |s.flights| ==> !InAir(s.flights[i])
  }

  lemma {:induction false} RuleTotals<R(!new)>(s: Sky<R>, picks: seq<nat>, attr: map<R, Rule>, r: R)
    requires Takeoff(s, attr) && Schedule(s, picks, attr) && r in attr
    requires Count(Reached(s, picks, attr).log, r) < TWO_64
    ensures var t := Reached(s, picks, attr);
      Fires(t.log, r) == ClosedFires(attr[r].mode, attr[r].afterN, Count(t.log, r)) <= Count(t.log, r)
  {
    Conservation(s, picks, attr, r);
    TakeoffAccounted(s, attr);
    RunAccounted(s, picks, attr);
  }

  // ----- One call after the other is one of the schedules -----

  lemma {:induction false} Append<R>(s: Sky<R>, a: seq<nat>, b: seq<nat>, attr: map<R, Rule>)
    requires ValidSky(s, attr) && Schedule(s, a, attr) && Schedule(Reached(s, a, attr), b, attr)
    ensures Schedule(s, a + b, attr) && Reached(s, a + b, attr) == Reached(Reached(s, a, attr), b, attr)
    decreases |a|
  {
    if a == [] {
      assert a + b == b;
    } else {
      Append(Consulted(s, a[0], attr), a[1..], b, attr);
      assert (a + b)[1..] == a[1..] + b;
    }
  }

  /** The i-th call, alone on its way through the rules rs, makes the consultations that the
      sequential check makes. */
  lemma {:induction false} OneCall<R>(s: Sky<R>, i: nat, rs: seq<R>, path: string, attr: map<R, Rule>)
      returns (picks: seq<nat>, t: Sky<R>)
    requires ValidSky(s, attr) && i < |s.flights| && !s.flights[i].fired && Known(rs, attr, s.ctr)
    requires s.flights[i].chain[s.flights[i].pos..] == Matching(rs, attr, path)
    ensures Schedule(s, picks, attr) && t == Reached(s, picks, attr)
    ensures var v := Consult(rs, attr, s.ctr, path); t.ctr == v.ctr && t.log == s.log + v.log
    ensures !InAir(t.flights[i]) && forall k :: 0 <= k < |s.flights| && k != i ==> t.flights[k] == s.flights[k]
    decreases |rs|
  {
    if rs == [] {
      picks, t := [], s;
      assert s.log + [] == s.log;
    } else if !RuleMatches(attr[rs[0]], path) {
      picks, t := OneCall(s, i, rs[1..], path, attr);
    } else {
      var f := s.flights[i];
      assert f.chain[f.pos..][0] == rs[0] && f.chain[f.pos..][1..] == f.chain[f.pos + 1..];
      var s1 := Consulted(s, i, attr);
      var v := Consult(rs, attr, s.ctr, path);
      if s1.flights[i].fired {
        picks, t := [i], s1;
        assert [i][1..] == [];
      } else {
        var rest, t1 := OneCall(s1, i, rs[1..], path, attr);
        picks, t := [i] + rest, t1;
        assert ([i] + rest)[1..] == rest;
        var e := Event(rs[0], false);
        assert s.log + ([e] + v.log[1..]) == (s.log + [e]) + v.log[1..];
      }
    }
  }

  /** From the i-th on, the calls are those given, yet to begin. */
  predicate Queued<R(==)>(s: Sky<R>, inj: Injector<R>, calls: seq<Call>, i: nat)
    requires ValidInjector(inj)
  {
    && i + |calls| == |s.flights|
    && forall j :: 0 <= j < |calls| ==> (
         s.flights[i + j] == Flight(Matching(Cascade(inj, calls[j].op), inj.attr, calls[j].path), 0, false))
  }

  lemma {:induction false} QueuedNext<R>(
      s: Sky<R>, s1: Sky<R>, inj: Injector<R>, inj1: Injector<R>, calls: seq<Call>, i: nat)
    requires ValidInjector(inj) && ValidInjector(inj1) && inj1.attr == inj.attr && inj1.lists == inj.lists
    requires calls != [] && Queued(s, inj, calls, i) && |s1.flights| == |s.flights|
    requires forall k :: 0 <= k < |s.flights| && k != i ==> s1.flights[k] == s.flights[k]
    ensures Queued(s1, inj1, calls[1..], i + 1)
  {
    forall j | 0 <= j < |calls[1..]|
      ensures s1.flights[i + 1 + j] ==
        Flight(Matching(Cascade(inj1, calls[1..][j].op), inj1.attr, calls[1..][j].path), 0, false)
    {
      assert calls[1..][j] == calls[j + 1] && s.flights[i + (j + 1)] == s1.flights[i + 1 + j];
      assert Cascade(inj1, calls[j + 1].op) == Cascade(inj, calls[j + 1].op);
    }
  }

  predicate LandedBelow<R(==)>(s: Sky<R>, i: nat) {
    i <= |s.flights| && forall k :: 0 <= k < i ==> !InAir(s.flights[k])
  }

  lemma {:induction false} NextCall<R>(
      s: Sky<R>, inj: Injector<R>, calls: seq<Call>, i: nat)
    returns (picks: seq<nat>, t: Sky<R>)
    requires ValidInjector(inj) && ValidSky(s, inj.attr) && s.ctr == inj.ctr && calls != []
    requires Queued(s, inj, calls, i) && LandedBelow(s, i)
    ensures Schedule(s, picks, inj.attr) && t == Reached(s, picks, inj.attr) && LandedBelow(t, i + 1)
    ensures var v := Check(inj, calls[0].op, calls[0].path);
      t.ctr == v.ctr && t.log == s.log + v.log && Queued(t, After(inj, v), calls[1..], i + 1)
  {
    var c := calls[0];
    var m := Matching(Cascade(inj, c.op), inj.attr, c.path);
    assert m[0..] == m && s.flights[i + 0] == Flight(m, 0, false);
    picks, t := OneCall(s, i, Cascade(inj, c.op), c.path, inj.attr);
    QueuedNext(s, t, inj, After(inj, Check(inj, c.op, c.path)), calls, i);
  }

  /** The schedule picks leads from s to t and does what the calls, one after the other, do. */
  ghost predicate Does<R>(s: Sky<R>, inj: Injector<R>, calls: seq<Call>, picks: seq<nat>, t: Sky<R>)
    requires ValidInjector(inj)
  {
    && ValidSky(s, inj.attr) && Schedule(s, picks, inj.attr) && t == Reached(s, picks, inj.attr)
    && t.ctr == RunChecks(inj, calls).final.ctr && t.log == s.log + RunChecks(inj, calls).log
  }

  lemma {:induction false} ThenRest<R>(
      s: Sky<R>, inj: Injector<R>, calls: seq<Call>, first: seq<nat>, s1: Sky<R>, rest: seq<nat>, t: Sky<R>)
    requires ValidInjector(inj) && ValidSky(s, inj.attr) && calls != []
    requires Schedule(s, first, inj.attr) && s1 == Reached(s, first, inj.attr)
    requires var v := Check(inj, calls[0].op, calls[0].path);
      s1.log == s.log + v.log && ValidInjector(After(inj, v)) && Does(s1, After(inj, v), calls[1..], rest, t)
    ensures Does(s, inj, calls, first + rest, t)
  {
    RunUnfolds(inj, calls, s.log);
    Append(s, first, rest, inj.attr);
  }

  lemma {:induction false} NoCallLeft<R>(s: Sky<R>, inj: Injector<R>, i: nat)
    requires ValidInjector(inj) && ValidSky(s, inj.attr) && s.ctr == inj.ctr
    requires Queued(s, inj, [], i) && LandedBelow(s, i)
    ensures Does(s, inj, [], [], s) && Landed(s)
  {
    assert s.log + [] == s.log;
  }

  /** A sequential run of checks is the schedule that lets each call finish before the
      next one starts: the same counters, the same consultations. */
  lemma {:induction false} SequentialSchedule<R>(s: Sky<R>, inj: Injector<R>, calls: seq<Call>, i: nat)
      returns (picks: seq<nat>, t: Sky<R>)
    requires ValidInjector(inj) && ValidSky(s, inj.attr) && s.ctr == inj.ctr
    requires Queued(s, inj, calls, i) && LandedBelow(s, i)
    ensures Does(s, inj, calls, picks, t) && Landed(t)
    decreases |calls|
  {
    if calls == [] {
      picks, t := [], s;
      NoCallLeft(s, inj, i);
    } else {
      var next := After(inj, Check(inj, calls[0].op, calls[0].path));
      var first, s1 := NextCall(s, inj, calls, i);
      assert next.attr == inj.attr && s1.ctr == next.ctr;
      var rest, t1 := SequentialSchedule(s1, next, calls[1..], i + 1);
      ThenRest(s, inj, calls, first, s1, rest, t1);
      picks, t := first + rest, t1;
    }
  }
}
