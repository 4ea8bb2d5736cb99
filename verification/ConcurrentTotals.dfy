/** What concurrent checks come to once none is under way: where the rules that follow a rule are
    always the same, the totals of every rule do not depend on the schedule. */
module ConcurrentTotals {
  import opened Common
  import opened Injector
  import opened ConcurrentInjection

  /** Whichever call comes to a rule, the same rules follow it. Calls may start at different
      rules, but once they have met they go on alike. */
  predicate SameTails<R(==)>(fs: seq<Flight<R>>) {
    forall i, j, p, q ::
      (0 <= i < |fs| && 0 <= j < |fs| && 0 <= p < |fs[i].chain| && 0 <= q < |fs[j].chain|
       && fs[i].chain[p] == fs[j].chain[q]) ==>
        fs[i].chain[p + 1..] == fs[j].chain[q + 1..]
  }

  predicate Distinct<R(==)>(rs: seq<R>) {
    forall i, j :: 0 <= i < j < |rs| ==> rs[i] != rs[j]
  }

  lemma {:induction false} ChainDistinct<R>(fs: seq<Flight<R>>, i: nat)
    requires SameTails(fs) && i < |fs|
    ensures Distinct(fs[i].chain)
  {
    var c := fs[i].chain;
    forall p, q | 0 <= p < q < |c| ensures c[p] != c[q] {
      assert |c[p + 1..]| != |c[q + 1..]|;
    }
  }

  // ----- One call -----

  /** qs are rules that r follows in the chain: all that do, and no others. */
  predicate Before<R(==)>(chain: seq<R>, r: R, qs: seq<R>) {
    && (forall p :: 0 < p < |chain| && chain[p] == r ==> chain[p - 1] in qs)
    && (forall p :: 0 <= p < |chain| && chain[p] in qs ==> p + 1 < |chain| && chain[p + 1] == r)
  }

  function StartsOf<R(==)>(r: R): Flight<R> -> nat {
    (f: Flight<R>) => if f.chain != [] && f.chain[0] == r then 1 else 0
  }

  /** How many of the rules qs the call has passed. */
  function PassedBy<R(==)>(f: Flight<R>, qs: seq<R>): nat {
    if qs == [] then 0 else PassedBy(f, qs[..|qs|-1]) + PassesOf(qs[|qs|-1])(f)
  }

  function PassedOf<R(==)>(qs: seq<R>): Flight<R> -> nat {
    (f: Flight<R>) => PassedBy(f, qs)
  }

  lemma {:induction false} OccursNot<R>(rs: seq<R>, r: R)
    requires r !in rs
    ensures Occurs(rs, r) == 0
  {
    if rs != [] { OccursNot(rs[..|rs|-1], r); }
  }

  lemma {:induction false} OccursOnce<R>(chain: seq<R>, n: nat, j: nat)
    requires Distinct(chain) && n <= |chain| && j < |chain|
    ensures Occurs(chain[..n], chain[j]) == if j < n then 1 else 0
  {
    if n > 0 {
      assert chain[..n][..n - 1] == chain[..n - 1];
      OccursOnce(chain, n - 1, j);
    }
  }

  lemma {:induction false} PassesNot<R>(f: Flight<R>, r: R)
    requires r !in f.chain
    ensures PassesOf(r)(f) == 0
  {
    if f.pos <= |f.chain| { OccursNot(f.chain[..f.pos], r); }
  }

  lemma {:induction false} PassedNone<R>(f: Flight<R>, qs: seq<R>)
    requires forall q :: q in qs ==> q !in f.chain
    ensures PassedBy(f, qs) == 0
  {
    if qs != [] {
      PassedNone(f, qs[..|qs|-1]);
      PassesNot(f, qs[|qs|-1]);
    }
  }

  lemma {:induction false} PassedOnly<R>(f: Flight<R>, qs: seq<R>, j: nat)
    requires Distinct(qs) && j < |qs| && forall i :: 0 <= i < |qs| && i != j ==> qs[i] !in f.chain
    ensures PassedBy(f, qs) == PassesOf(qs[j])(f)
  {
    var n := |qs| - 1;
    if j == n {
      PassedNone(f, qs[..n]);
    } else {
      PassedOnly(f, qs[..n], j);
      PassesNot(f, qs[n]);
    }
  }

  lemma {:induction false} NoneBefore<R>(chain: seq<R>, r: R, qs: seq<R>, q: R)
    requires Before(chain, r, qs) && q in qs
    ensures q in chain ==> r in chain
  {
    if q in chain {
      var k :| 0 <= k < |chain| && chain[k] == q;
      assert chain[k + 1] == r;
    }
  }

  lemma {:induction false} OneBefore<R>(chain: seq<R>, r: R, qs: seq<R>, q: R, p: nat)
    requires Before(chain, r, qs) && Distinct(chain) && q in qs && p < |chain| && chain[p] == r
    ensures q in chain ==> p > 0 && chain[p - 1] == q
  {
    if q in chain {
      var k :| 0 <= k < |chain| && chain[k] == q;
      assert chain[k + 1] == r;
    }
  }

  /** A call that is not under way has consulted r exactly if it began there or has passed the
      rule before. */
  lemma {:induction false} CallAtRest<R>(f: Flight<R>, r: R, qs: seq<R>)
    requires f.pos <= |f.chain| && (f.fired ==> f.pos < |f.chain|) && !InAir(f)
    requires Distinct(f.chain) && Distinct(qs) && Before(f.chain, r, qs)
    ensures ConsultationsOf(r)(f) == StartsOf(r)(f) + PassedOf(qs)(f) <= 1
  {
    if r !in f.chain {
      OccursNot(f.chain[..f.pos], r);
      forall q | q in qs ensures q !in f.chain { NoneBefore(f.chain, r, qs, q); }
      PassedNone(f, qs);
    } else {
      var p :| 0 <= p < |f.chain| && f.chain[p] == r;
      OccursOnce(f.chain, f.pos, p);
      if p == 0 {
        forall q | q in qs ensures q !in f.chain { OneBefore(f.chain, r, qs, q, p); }
        PassedNone(f, qs);
      } else {
        var j :| 0 <= j < |qs| && qs[j] == f.chain[p - 1];
        OccursOnce(f.chain, f.pos, p - 1);
        forall i | 0 <= i < |qs| && i != j ensures qs[i] !in f.chain { OneBefore(f.chain, r, qs, qs[i], p); }
        PassedOnly(f, qs, j);
      }
    }
  }

  // ----- All calls -----

  predicate Occurring<R(==)>(fs: seq<Flight<R>>, r: R) {
    exists i, p :: 0 <= i < |fs| && 0 <= p < |fs[i].chain| && fs[i].chain[p] == r
  }

  /** qs are the rules that r follows in any call. */
  predicate Predecessors<R(==)>(fs: seq<Flight<R>>, r: R, qs: seq<R>) {
    && Distinct(qs) && (forall q :: q in qs ==> Occurring(fs, q))
    && forall i :: 0 <= i < |fs| ==> Before(fs[i].chain, r, qs)
  }

  lemma {:induction false} Listed<R>(s: set<R>) returns (qs: seq<R>)
    ensures Distinct(qs) && forall r :: r in qs <==> r in s
    decreases |s|
  {
    if s == {} {
      qs := [];
    } else {
      var r :| r in s;
      var rest := Listed(s - {r});
      qs := rest + [r];
    }
  }

  lemma {:induction false} FindPredecessors<R(!new)>(fs: seq<Flight<R>>, r: R) returns (qs: seq<R>)
    requires SameTails(fs)
    ensures Predecessors(fs, r, qs)
  {
    var ps := set i, p {:trigger fs[i].chain[p]} |
      0 <= i < |fs| && 0 < p < |fs[i].chain| && fs[i].chain[p] == r :: fs[i].chain[p - 1];
    qs := Listed(ps);
    forall i | 0 <= i < |fs| ensures Before(fs[i].chain, r, qs) {
      forall p | 0 <= p < |fs[i].chain| && fs[i].chain[p] in qs
        ensures p + 1 < |fs[i].chain| && fs[i].chain[p + 1] == r
      {
        var j, q :| 0 <= j < |fs| && 0 < q < |fs[j].chain| && fs[j].chain[q] == r
          && fs[i].chain[p] == fs[j].chain[q - 1];
        assert fs[i].chain[p + 1..] == fs[j].chain[q - 1 + 1..];
        assert fs[j].chain[q..][0] == r;
      }
    }
  }

  function SumPassed<R(==)>(fs: seq<Flight<R>>, qs: seq<R>): nat {
    if qs == [] then 0 else SumPassed(fs, qs[..|qs|-1]) + Sum(fs, PassesOf(qs[|qs|-1]))
  }

  lemma {:induction false} PassedSums<R>(fs: seq<Flight<R>>, qs: seq<R>)
    ensures Sum(fs, PassedOf(qs)) == SumPassed(fs, qs)
  {
    if qs == [] {
      SumZero(fs, PassedOf(qs));
    } else {
      var n := |qs| - 1;
      PassedSums(fs, qs[..n]);
      SumPlus(fs, PassedOf(qs), PassedOf(qs[..n]), PassesOf(qs[n]));
    }
  }

  lemma {:induction false} SumAtMost<R>(fs: seq<Flight<R>>, f: Flight<R> -> nat)
    requires forall i :: 0 <= i < |fs| ==> f(fs[i]) <= 1
    ensures Sum(fs, f) <= |fs|
  {
    if fs != [] { SumAtMost(fs[..|fs|-1], f); }
  }

  lemma {:induction false} ChainsStay<R>(s: Sky<R>, picks: seq<nat>, attr: map<R, Rule>)
    requires ValidSky(s, attr) && Schedule(s, picks, attr)
    ensures var t := Reached(s, picks, attr);
      forall i :: 0 <= i < |s.flights| ==> t.flights[i].chain == s.flights[i].chain
    decreases |picks|
  {
    if picks != [] { ChainsStay(Consulted(s, picks[0], attr), picks[1..], attr); }
  }

  /** Calls that come to rest from takeoff. */
  predicate Rests<R(==)>(s: Sky<R>, picks: seq<nat>, attr: map<R, Rule>) {
    Takeoff(s, attr) && Schedule(s, picks, attr) && Landed(Reached(s, picks, attr))
  }

  /** At rest a rule has been consulted once for every call that begins there, and once for
      every pass of a rule before it. */
  lemma {:induction false} AtRest<R(!new)>(s: Sky<R>, picks: seq<nat>, attr: map<R, Rule>, r: R, qs: seq<R>)
    requires Rests(s, picks, attr) && SameTails(s.flights) && Predecessors(s.flights, r, qs)
    ensures var t := Reached(s, picks, attr);
      && Count(t.log, r) == Sum(s.flights, StartsOf(r)) + SumPassed(t.flights, qs)
      && Count(t.log, r) <= |s.flights|
  {
    TakeoffAccounted(s, attr);
    RunAccounted(s, picks, attr);
    ChainsStay(s, picks, attr);
    var t := Reached(s, picks, attr);
    var both := ConsultationsOf(r);
    forall i | 0 <= i < |t.flights|
      ensures both(t.flights[i]) == StartsOf(r)(t.flights[i]) + PassedOf(qs)(t.flights[i]) <= 1
    {
      ChainDistinct(s.flights, i);
      CallAtRest(t.flights[i], r, qs);
    }
    SumPlus(t.flights, both, FiresOf(r), PassesOf(r));
    SumPlus(t.flights, both, StartsOf(r), PassedOf(qs));
    SumAtMost(t.flights, both);
    PassedSums(t.flights, qs);
    StartsStay(s.flights, t.flights, r);
  }

  lemma {:induction false} StartsStay<R>(fs: seq<Flight<R>>, gs: seq<Flight<R>>, r: R)
    requires |fs| == |gs| && forall i :: 0 <= i < |fs| ==> fs[i].chain == gs[i].chain
    ensures Sum(fs, StartsOf(r)) == Sum(gs, StartsOf(r))
  {
    if fs != [] { StartsStay(fs[..|fs|-1], gs[..|gs|-1], r); }
  }

  // ----- Any two schedules -----

  /** No call has r at position n or behind. */
  predicate Within<R(==)>(fs: seq<Flight<R>>, r: R, n: nat) {
    forall i, p :: 0 <= i < |fs| && 0 <= p < |fs[i].chain| && fs[i].chain[p] == r ==> p < n
  }

  ghost predicate SameTotals<R>(s: Sky<R>, a: seq<nat>, b: seq<nat>, attr: map<R, Rule>, r: R)
    requires Rests(s, a, attr) && Rests(s, b, attr)
  {
    var t, u := Reached(s, a, attr), Reached(s, b, attr);
    Count(t.log, r) == Count(u.log, r) && Fires(t.log, r) == Fires(u.log, r)
  }

  lemma {:induction false} SamePasses<R(!new)>(s: Sky<R>, a: seq<nat>, b: seq<nat>, attr: map<R, Rule>, qs: seq<R>)
    requires Rests(s, a, attr) && Rests(s, b, attr) && forall q :: q in qs ==> SameTotals(s, a, b, attr, q)
    ensures SumPassed(Reached(s, a, attr).flights, qs) == SumPassed(Reached(s, b, attr).flights, qs)
  {
    if qs != [] {
      TakeoffAccounted(s, attr);
      RunAccounted(s, a, attr);
      RunAccounted(s, b, attr);
      SamePasses(s, a, b, attr, qs[..|qs|-1]);
      assert SameTotals(s, a, b, attr, qs[|qs|-1]);
    }
  }

  lemma {:induction false} TotalsWithin<R(!new)>(
      s: Sky<R>, a: seq<nat>, b: seq<nat>, attr: map<R, Rule>, r: R, n: nat)
    requires Rests(s, a, attr) && Rests(s, b, attr) && SameTails(s.flights) && |s.flights| < TWO_64
    requires r in attr && Within(s.flights, r, n)
    ensures SameTotals(s, a, b, attr, r)
    decreases n
  {
    var qs := FindPredecessors(s.flights, r);
    AtRest(s, a, attr, r, qs);
    AtRest(s, b, attr, r, qs);
    forall q | q in qs ensures SameTotals(s, a, b, attr, q) {
      PredecessorWithin(s, attr, r, n, qs, q);
      TotalsWithin(s, a, b, attr, q, n - 1);
    }
    SamePasses(s, a, b, attr, qs);
    RuleTotals(s, a, attr, r);
    RuleTotals(s, b, attr, r);
  }

  /** A rule before r comes earlier in every call. */
  lemma {:induction false} PredecessorWithin<R(!new)>(
      s: Sky<R>, attr: map<R, Rule>, r: R, n: nat, qs: seq<R>, q: R)
    requires ValidSky(s, attr) && Predecessors(s.flights, r, qs) && q in qs && Within(s.flights, r, n)
    ensures n > 0 && q in attr && Within(s.flights, q, n - 1)
  {
    var i, p :| 0 <= i < |s.flights| && 0 <= p < |s.flights[i].chain| && s.flights[i].chain[p] == q;
    assert Before(s.flights[i].chain, r, qs) && s.flights[i].chain[p + 1] == r;
    assert ValidFlight(s.flights[i], attr, s.ctr);
    forall j, k | 0 <= j < |s.flights| && 0 <= k < |s.flights[j].chain| && s.flights[j].chain[k] == q
      ensures k < n - 1
    {
      assert Before(s.flights[j].chain, r, qs) && s.flights[j].chain[k + 1] == r;
    }
  }

  function Longest<R(==)>(fs: seq<Flight<R>>): (n: nat)
    ensures forall i :: 0 <= i < |fs| ==> |fs[i].chain| <= n
  {
    if fs == [] then 0
    else
      var n, c := Longest(fs[..|fs|-1]), |fs[|fs|-1].chain|;
      if c > n then c else n
  }

  /** Once no call is under way the totals of every rule are what they are in any other
      schedule of the same calls. */
  lemma {:induction false} TotalsDetermined<R(!new)>(
      s: Sky<R>, a: seq<nat>, b: seq<nat>, attr: map<R, Rule>, r: R)
    requires Rests(s, a, attr) && Rests(s, b, attr) && SameTails(s.flights) && |s.flights| < TWO_64 && r in attr
    ensures SameTotals(s, a, b, attr, r)
  {
    TotalsWithin(s, a, b, attr, r, Longest(s.flights));
  }

  /** In particular they are the totals of the calls made one after the other. */
  lemma {:induction false} TotalsAsSequential<R(!new)>(
      s: Sky<R>, inj: Injector<R>, calls: seq<Call>, picks: seq<nat>, r: R)
    requires ValidInjector(inj) && s.ctr == inj.ctr && Rests(s, picks, inj.attr) && Queued(s, inj, calls, 0)
    requires SameTails(s.flights) && |s.flights| < TWO_64 && r in inj.attr
    ensures var t := Reached(s, picks, inj.attr); var log := RunChecks(inj, calls).log;
      Count(t.log, r) == Count(log, r) && Fires(t.log, r) == Fires(log, r)
  {
    var one, t := SequentialSchedule(s, inj, calls, 0);
    TotalsDetermined(s, picks, one, inj.attr, r);
    assert [] + RunChecks(inj, calls).log == RunChecks(inj, calls).log;
  }
}
