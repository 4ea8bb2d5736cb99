/** The ticket protocol: any number of goroutines working on file handles whose latency
    simulators may be shared, in atomic steps interleaved in any order. */
module Tickets {
  import opened Common

  datatype Flag = Flag(sim: nat, op: Operation)

  /** One call: an operation on a handle, which holds the handle's ticket all along, or a
      direct call of Simulate. quiet calls (on a closed handle) do not simulate; resets
      (a Close) clear the simulator's flags at the end. */
  datatype Job = Job(handle: Option<nat>, sim: nat, op: Operation, once: bool, async: bool, quiet: bool, resets: bool)

  /** Where a goroutine is in its current job, jobs[0]. */
  datatype Pc = Outside | Entered | WaitSim | SleepFree | SleepHeld | Resetting(i: nat) | Leaving

  datatype Gor = Gor(pc: Pc, jobs: seq<Job>)

  /** What happened to a seen flag: a Once call passed it, or Reset cleared it. */
  datatype Event = Passed(flag: Flag) | Cleared(flag: Flag)

  /** The tokens in the channels, the flags that are set, and what has happened to them. */
  datatype State = State(gs: seq<Gor>, hTok: map<nat, nat>, sTok: map<nat, nat>, seen: set<Flag>, log: seq<Event>)

  /** Durations by simulator and operation. */
  type Durations = map<nat, seq<nat>>

  predicate ValidDurations(d: Durations) {
    forall s :: s in d ==> |d[s]| == NumOperations
  }

  function Normal(op: Operation): Operation {
    if ValidOp(op) then op else OpUnknown
  }

  function Duration(d: Durations, s: nat, op: Operation): nat
    requires ValidDurations(d) && s in d
  {
    var n := Normal(op);
    if d[s][n] == 0 && n != OpUnknown then d[s][OpUnknown] else d[s][n]
  }

  // ----- Steps -----

  predicate HoldsHandle(g: Gor, h: nat) {
    g.pc != Outside && g.jobs != [] && g.jobs[0].handle == Some(h)
  }

  predicate HoldsSim(g: Gor, s: nat) {
    g.pc == SleepHeld && g.jobs != [] && g.jobs[0].sim == s
  }

  predicate Finished(g: Gor) {
    g.pc == Outside && g.jobs == []
  }

  predicate WellFormed(g: Gor, st: State, d: Durations) {
    && (g.pc != Outside ==> g.jobs != [])
    && (g.pc.Resetting? ==> g.pc.i <= NumOperations)
    && (forall j :: j in g.jobs ==> j.sim in st.sTok && j.sim in d && (j.handle.Some? ==> j.handle.value in st.hTok))
  }

  predicate Sound(st: State, d: Durations) {
    ValidDurations(d) && forall i :: 0 <= i < |st.gs| ==> WellFormed(st.gs[i], st, d)
  }

  /** A receive needs a token, a send needs room in the one-place channel. */
  predicate Enabled(st: State, i: nat, d: Durations)
    requires i < |st.gs| && Sound(st, d)
  {
    var g := st.gs[i];
    match g.pc
    case Outside => g.jobs != [] && (g.jobs[0].handle.Some? ==> st.hTok[g.jobs[0].handle.value] > 0)
    case WaitSim => st.sTok[g.jobs[0].sim] > 0
    case SleepHeld => st.sTok[g.jobs[0].sim] < 1
    case Leaving => g.jobs[0].handle.Some? ==> st.hTok[g.jobs[0].handle.value] < 1
    case _ => true
  }

  function AfterSleep(j: Job): Pc {
    if j.resets then Resetting(0) else Leaving
  }

  function To(st: State, i: nat, pc: Pc): State
    requires i < |st.gs|
  {
    st.(gs := st.gs[i := st.gs[i].(pc := pc)])
  }

  /** From Entered: the choices of Simulate up to the sleep or the ticket. */
  function Choose(st: State, i: nat, d: Durations): State
    requires i < |st.gs| && Sound(st, d) && st.gs[i].pc == Entered
  {
    var j := st.gs[i].jobs[0];
    var flag := Flag(j.sim, Normal(j.op));
    var asleep := if j.async then SleepFree else WaitSim;
    if j.quiet || Duration(d, j.sim, j.op) == 0 then To(st, i, AfterSleep(j))
    else if !j.once then To(st, i, asleep)
    else if flag in st.seen then To(st, i, AfterSleep(j))
    else To(st, i, asleep).(seen := st.seen + {flag}, log := st.log + [Passed(flag)])
  }

  function Next(st: State, i: nat, d: Durations): State
    requires i < |st.gs| && Sound(st, d) && Enabled(st, i, d)
  {
    var g := st.gs[i];
    var j := g.jobs[0];
    match g.pc
    case Outside =>
      if j.handle.None? then To(st, i, Entered)
      else To(st, i, Entered).(hTok := st.hTok[j.handle.value := st.hTok[j.handle.value] - 1])
    case Entered => Choose(st, i, d)
    case WaitSim => To(st, i, SleepHeld).(sTok := st.sTok[j.sim := st.sTok[j.sim] - 1])
    case SleepFree => To(st, i, AfterSleep(j))
    case SleepHeld => To(st, i, AfterSleep(j)).(sTok := st.sTok[j.sim := st.sTok[j.sim] + 1])
    case Resetting(k) =>
      if k == NumOperations then To(st, i, Leaving)
      else To(st, i, Resetting(k + 1)).(seen := st.seen - {Flag(j.sim, k)}, log := st.log + [Cleared(Flag(j.sim, k))])
    case Leaving =>
      var st' := st.(gs := st.gs[i := Gor(Outside, g.jobs[1..])]);
      if j.handle.None? then st'
      else st'.(hTok := st.hTok[j.handle.value := st.hTok[j.handle.value] + 1])
  }

  // ----- One ticket each -----

  function Count(gs: seq<Gor>, holds: Gor -> bool): nat {
    if gs == [] then 0 else Count(gs[..|gs|-1], holds) + if holds(gs[|gs|-1]) then 1 else 0
  }

  lemma {:induction false} CountUpdate(gs: seq<Gor>, holds: Gor -> bool, i: nat, g: Gor)
    requires i < |gs|
    ensures Count(gs[i := g], holds) ==
      Count(gs, holds) - (if holds(gs[i]) then 1 else 0) + (if holds(g) then 1 else 0)
  {
    var n := |gs| - 1;
    if i == n {
      assert gs[i := g][..n] == gs[..n];
    } else {
      assert gs[i := g][..n] == gs[..n][i := g];
      CountUpdate(gs[..n], holds, i, g);
    }
  }

  lemma {:induction false} CountPositive(gs: seq<Gor>, holds: Gor -> bool) returns (i: nat)
    requires Count(gs, holds) > 0
    ensures i < |gs| && holds(gs[i])
  {
    var n := |gs| - 1;
    if holds(gs[n]) {
      i := n;
    } else {
      i := CountPositive(gs[..n], holds);
    }
  }

  lemma {:induction false} CountAtLeast(gs: seq<Gor>, holds: Gor -> bool, i: nat)
    requires i < |gs| && holds(gs[i])
    ensures Count(gs, holds) >= 1
  {
    var n := |gs| - 1;
    if i < n { CountAtLeast(gs[..n], holds, i); }
  }

  function OnHandle(h: nat): Gor -> bool { (g: Gor) => HoldsHandle(g, h) }
  function OnSim(s: nat): Gor -> bool { (g: Gor) => HoldsSim(g, s) }

  /** For each ticket, the tokens in the channel and the holders are together exactly one. */
  ghost predicate OneTicketEach(st: State) {
    && (forall h :: h in st.hTok ==> st.hTok[h] + Count(st.gs, OnHandle(h)) == 1)
    && (forall s :: s in st.sTok ==> st.sTok[s] + Count(st.gs, OnSim(s)) == 1)
  }

  ghost predicate Inv(st: State, d: Durations) {
    Sound(st, d) && OneTicketEach(st)
  }

  lemma {:induction false} StepSound(st: State, i: nat, d: Durations)
    requires Sound(st, d) && i < |st.gs| && Enabled(st, i, d)
    ensures Sound(Next(st, i, d), d)
    ensures Next(st, i, d).hTok.Keys == st.hTok.Keys && Next(st, i, d).sTok.Keys == st.sTok.Keys
  {
    var g, st' := st.gs[i], Next(st, i, d);
    assert st'.hTok.Keys == st.hTok.Keys && st'.sTok.Keys == st.sTok.Keys;
    forall k | 0 <= k < |st'.gs| ensures WellFormed(st'.gs[k], st', d) {
      assert WellFormed(st.gs[k], st, d);
      forall j | j in st'.gs[k].jobs
        ensures j.sim in st'.sTok && j.sim in d && (j.handle.Some? ==> j.handle.value in st'.hTok)
      {
        assert j in st.gs[k].jobs;
      }
    }
  }

  lemma {:induction false} StepTickets(st: State, i: nat, d: Durations)
    requires Inv(st, d) && i < |st.gs| && Enabled(st, i, d)
    ensures OneTicketEach(Next(st, i, d))
  {
    var st' := Next(st, i, d);
    StepSound(st, i, d);
    forall h | h in st'.hTok ensures st'.hTok[h] + Count(st'.gs, OnHandle(h)) == 1 {
      StepHandleTicket(st, i, d, h);
    }
    forall s | s in st'.sTok ensures st'.sTok[s] + Count(st'.gs, OnSim(s)) == 1 {
      StepSimTicket(st, i, d, s);
    }
  }

  lemma {:induction false} StepHandleTicket(st: State, i: nat, d: Durations, h: nat)
    requires Inv(st, d) && i < |st.gs| && Enabled(st, i, d) && h in st.hTok && h in Next(st, i, d).hTok
    ensures Next(st, i, d).hTok[h] + Count(Next(st, i, d).gs, OnHandle(h)) == 1
  {
    var st' := Next(st, i, d);
    assert st'.gs == st.gs[i := st'.gs[i]];
    CountUpdate(st.gs, OnHandle(h), i, st'.gs[i]);
  }

  lemma {:induction false} StepSimTicket(st: State, i: nat, d: Durations, s: nat)
    requires Inv(st, d) && i < |st.gs| && Enabled(st, i, d) && s in st.sTok && s in Next(st, i, d).sTok
    ensures Next(st, i, d).sTok[s] + Count(Next(st, i, d).gs, OnSim(s)) == 1
  {
    var st' := Next(st, i, d);
    assert st'.gs == st.gs[i := st'.gs[i]];
    CountUpdate(st.gs, OnSim(s), i, st'.gs[i]);
  }

  lemma {:induction false} CountTwo(gs: seq<Gor>, holds: Gor -> bool, i: nat, k: nat)
    requires i < k < |gs| && holds(gs[i]) && holds(gs[k])
    ensures Count(gs, holds) >= 2
  {
    var n := |gs| - 1;
    if k == n {
      CountAtLeast(gs[..n], holds, i);
    } else {
      CountTwo(gs[..n], holds, i, k);
    }
  }

  /** Nobody shares a handle with another, and nobody a serialized sleep. */
  lemma {:induction false} Exclusive(st: State, d: Durations, i: nat, k: nat, h: nat)
    requires Inv(st, d) && i < k < |st.gs|
    ensures h in st.hTok ==> !(HoldsHandle(st.gs[i], h) && HoldsHandle(st.gs[k], h))
    ensures h in st.sTok ==> !(HoldsSim(st.gs[i], h) && HoldsSim(st.gs[k], h))
  {
    if h in st.hTok && HoldsHandle(st.gs[i], h) && HoldsHandle(st.gs[k], h) {
      CountTwo(st.gs, OnHandle(h), i, k);
    }
    if h in st.sTok && HoldsSim(st.gs[i], h) && HoldsSim(st.gs[k], h) {
      CountTwo(st.gs, OnSim(h), i, k);
    }
  }

  /** A send never blocks: who holds a ticket finds its channel empty. */
  lemma {:induction false} SendsNeverBlock(st: State, i: nat, d: Durations)
    requires Inv(st, d) && i < |st.gs| && (st.gs[i].pc == SleepHeld || st.gs[i].pc == Leaving)
    ensures Enabled(st, i, d)
  {
    var g := st.gs[i];
    if g.pc == SleepHeld {
      CountAtLeast(st.gs, OnSim(g.jobs[0].sim), i);
    } else if g.jobs[0].handle.Some? {
      CountAtLeast(st.gs, OnHandle(g.jobs[0].handle.value), i);
    }
  }

  /** A goroutine past the handle's ticket can step, or the holder of the simulator's can. */
  lemma {:induction false} PastHandleRuns(st: State, i: nat, d: Durations) returns (k: nat)
    requires Inv(st, d) && i < |st.gs| && st.gs[i].pc != Outside
    ensures k < |st.gs| && Enabled(st, k, d)
  {
    k := i;
    if st.gs[i].pc == SleepHeld || st.gs[i].pc == Leaving {
      SendsNeverBlock(st, i, d);
    } else if st.gs[i].pc == WaitSim && !Enabled(st, i, d) {
      var s := st.gs[i].jobs[0].sim;
      k := CountPositive(st.gs, OnSim(s));
      SendsNeverBlock(st, k, d);
    }
  }

  /** No deadlock: while any goroutine has work left, some goroutine can step. */
  lemma {:induction false} NoDeadlock(st: State, i: nat, d: Durations) returns (k: nat)
    requires Inv(st, d) && i < |st.gs| && !Finished(st.gs[i])
    ensures k < |st.gs| && Enabled(st, k, d)
  {
    if st.gs[i].pc != Outside {
      k := PastHandleRuns(st, i, d);
    } else if Enabled(st, i, d) {
      k := i;
    } else {
      var h := st.gs[i].jobs[0].handle.value;
      k := CountPositive(st.gs, OnHandle(h));
      k := PastHandleRuns(st, k, d);
    }
  }

  // ----- Progress -----

  function Stage(pc: Pc): nat {
    match pc
    case Outside => NumOperations + 6
    case Entered => NumOperations + 5
    case WaitSim => NumOperations + 4
    case SleepHeld => NumOperations + 3
    case SleepFree => NumOperations + 3
    case Resetting(i) => if i <= NumOperations then NumOperations + 2 - i else 0
    case Leaving => 1
  }

  /** An upper bound on the steps a goroutine still makes. */
  function Work(g: Gor): nat {
    if g.jobs == [] then 0 else (|g.jobs| - 1) * (NumOperations + 6) + Stage(g.pc)
  }

  function TotalWork(gs: seq<Gor>): nat {
    if gs == [] then 0 else TotalWork(gs[..|gs|-1]) + Work(gs[|gs|-1])
  }

  lemma {:induction false} TotalUpdate(gs: seq<Gor>, i: nat, g: Gor)
    requires i < |gs|
    ensures TotalWork(gs[i := g]) == TotalWork(gs) - Work(gs[i]) + Work(g)
  {
    var n := |gs| - 1;
    if i == n {
      assert gs[i := g][..n] == gs[..n];
    } else {
      assert gs[i := g][..n] == gs[..n][i := g];
      TotalUpdate(gs[..n], i, g);
    }
  }

  lemma {:induction false} StepWorks(st: State, i: nat, d: Durations)
    requires Sound(st, d) && i < |st.gs| && Enabled(st, i, d)
    ensures TotalWork(Next(st, i, d).gs) < TotalWork(st.gs)
  {
    var g, st' := st.gs[i], Next(st, i, d);
    assert st'.gs == st.gs[i := st'.gs[i]];
    assert WellFormed(g, st, d);
    assert Work(st'.gs[i]) < Work(g);
    TotalUpdate(st.gs, i, st'.gs[i]);
  }

  // ----- Whole runs -----

  /** A schedule names the goroutine that makes each step. */
  predicate Schedule(st: State, picks: seq<nat>, d: Durations)
    requires Sound(st, d)
    decreases |picks|
  {
    picks == [] || (
      picks[0] < |st.gs| && Enabled(st, picks[0], d)
      && Sound(Next(st, picks[0], d), d) && Schedule(Next(st, picks[0], d), picks[1..], d))
  }

  function Reached(st: State, picks: seq<nat>, d: Durations): (r: State)
    requires Sound(st, d) && Schedule(st, picks, d)
    ensures Sound(r, d) && |r.gs| == |st.gs|
    decreases |picks|
  {
    if picks == [] then st else Reached(Next(st, picks[0], d), picks[1..], d)
  }

  /** In every reachable state each ticket is in exactly one place, and the number of
      steps is bounded by the work there was at the start. */
  lemma {:induction false} RunsKeepTickets(st: State, picks: seq<nat>, d: Durations)
    requires Inv(st, d) && Schedule(st, picks, d)
    ensures Inv(Reached(st, picks, d), d)
    ensures TotalWork(Reached(st, picks, d).gs) + |picks| <= TotalWork(st.gs)
    decreases |picks|
  {
    if picks != [] {
      StepTickets(st, picks[0], d);
      StepWorks(st, picks[0], d);
      RunsKeepTickets(Next(st, picks[0], d), picks[1..], d);
    }
  }

  /** A reachable state in which nobody can step has no work left. */
  lemma {:induction false} StuckMeansDone(st: State, picks: seq<nat>, d: Durations, i: nat)
    requires Inv(st, d) && Schedule(st, picks, d)
    requires forall k :: 0 <= k < |Reached(st, picks, d).gs| ==> !Enabled(Reached(st, picks, d), k, d)
    requires i < |Reached(st, picks, d).gs|
    ensures Finished(Reached(st, picks, d).gs[i])
  {
    RunsKeepTickets(st, picks, d);
    var r := Reached(st, picks, d);
    if !Finished(r.gs[i]) {
      var k := NoDeadlock(r, i, d);
      assert false;
    }
  }

  /** All tickets in their channels, nobody in a call. */
  predicate Fresh(st: State, d: Durations) {
    && Sound(st, d) && (forall i :: 0 <= i < |st.gs| ==> st.gs[i].pc == Outside)
    && (forall h :: h in st.hTok ==> st.hTok[h] == 1) && (forall s :: s in st.sTok ==> st.sTok[s] == 1)
    && st.seen == {} && st.log == []
  }

  lemma {:induction false} NobodyHolds(gs: seq<Gor>, holds: Gor -> bool)
    requires forall i :: 0 <= i < |gs| ==> !holds(gs[i])
    ensures Count(gs, holds) == 0
  {
    if gs != [] { NobodyHolds(gs[..|gs|-1], holds); }
  }

  lemma {:induction false} FreshInv(st: State, d: Durations)
    requires Fresh(st, d)
    ensures Inv(st, d) && OnceInv(st)
  {
    forall h | h in st.hTok ensures st.hTok[h] + Count(st.gs, OnHandle(h)) == 1 { NobodyHolds(st.gs, OnHandle(h)); }
    forall s | s in st.sTok ensures st.sTok[s] + Count(st.gs, OnSim(s)) == 1 { NobodyHolds(st.gs, OnSim(s)); }
  }

  // ----- Once -----

  /** The last thing that happened to a flag was a pass. */
  predicate LastPassed(log: seq<Event>, f: Flag) {
    log != [] && (if log[|log|-1].flag == f then log[|log|-1].Passed? else LastPassed(log[..|log|-1], f))
  }

  /** Between any two passes of a flag it was cleared. */
  predicate Alternates(log: seq<Event>, f: Flag) {
    log == [] || (Alternates(log[..|log|-1], f)
      && (log[|log|-1] == Passed(f) ==> !LastPassed(log[..|log|-1], f)))
  }

  ghost predicate OnceInv(st: State) {
    forall f: Flag :: Alternates(st.log, f) && (f in st.seen <==> LastPassed(st.log, f))
  }

  lemma {:induction false} LogGrows(st: State, st': State, e: Event)
    requires OnceInv(st) && st'.log == st.log + [e]
    requires st'.seen == if e.Passed? then st.seen + {e.flag} else st.seen - {e.flag}
    requires e.Passed? ==> e.flag !in st.seen
    ensures OnceInv(st')
  {
    var n := |st.log|;
    assert st'.log[..n] == st.log && st'.log[n] == e;
    forall f: Flag ensures Alternates(st'.log, f) && (f in st'.seen <==> LastPassed(st'.log, f)) {
      assert Alternates(st.log, f) && (f in st.seen <==> LastPassed(st.log, f));
    }
  }

  lemma {:induction false} StepOnce(st: State, i: nat, d: Durations)
    requires Sound(st, d) && OnceInv(st) && i < |st.gs| && Enabled(st, i, d)
    ensures OnceInv(Next(st, i, d))
  {
    var st' := Next(st, i, d);
    if st'.log != st.log {
      LogGrows(st, st', st'.log[|st'.log|-1]);
    }
  }

  /** Over any run a Once call sleeps at most once per operation between two resets, however
      many goroutines race for it. */
  lemma {:induction false} OnceAtMostOnce(st: State, picks: seq<nat>, d: Durations)
    requires Sound(st, d) && OnceInv(st) && Schedule(st, picks, d)
    ensures OnceInv(Reached(st, picks, d))
    decreases |picks|
  {
    if picks != [] {
      StepOnce(st, picks[0], d);
      OnceAtMostOnce(Next(st, picks[0], d), picks[1..], d);
    }
  }

  /** From the start, with every ticket in its channel and nobody in a call: in every state
      that any schedule reaches each ticket is in one place and Once has slept at most once
      between resets; schedules are bounded; and where nobody can step, all have finished. */
  lemma {:induction false} FromFresh(st: State, picks: seq<nat>, d: Durations)
    requires Fresh(st, d) && Schedule(st, picks, d)
    ensures var r := Reached(st, picks, d);
      && Inv(r, d) && OnceInv(r) && |picks| <= TotalWork(st.gs)
      && ((forall k :: 0 <= k < |r.gs| ==> !Enabled(r, k, d)) ==> forall i :: 0 <= i < |r.gs| ==> Finished(r.gs[i]))
  {
    FreshInv(st, d);
    RunsKeepTickets(st, picks, d);
    OnceAtMostOnce(st, picks, d);
    var r := Reached(st, picks, d);
    if forall k :: 0 <= k < |r.gs| ==> !Enabled(r, k, d) {
      forall i | 0 <= i < |r.gs| ensures Finished(r.gs[i]) { StuckMeansDone(st, picks, d, i); }
    }
  }
}
