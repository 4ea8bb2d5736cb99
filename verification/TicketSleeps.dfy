/** What the tickets are for: which calls sleep, which sleeps exclude each other, and what a reset
    has cleared by the time its call ends. */
module TicketSleeps {
  import opened Common
  import opened Tickets
  import L = Latency

  // ----- One call -----

  /** The flags of simulator s, by operation. */
  function FlagsOf(st: State, s: nat): (r: seq<bool>)
    ensures |r| == NumOperations && forall k :: 0 <= k < NumOperations ==> (r[k] <==> Flag(s, k) in st.seen)
  {
    seq(NumOperations, k => Flag(s, k) in st.seen)
  }

  /** A goroutine that has entered its call goes to sleep exactly when Simulate sleeps, to the
      ticket unless the call is Async; a Once call that sleeps sets its flag and no other. */
  lemma {:induction false} ChoosesAsSimulate(st: State, i: nat, d: Durations)
    requires Sound(st, d) && i < |st.gs| && st.gs[i].pc == Entered
    ensures var j := st.gs[i].jobs[0]; var st' := Next(st, i, d);
      var s := L.Slept(d[j.sim], FlagsOf(st, j.sim), j.op, j.once, j.async);
      && st'.gs[i].pc == (
           if !j.quiet && s.Some? then if s.value.held then WaitSim else SleepFree
           else if j.resets then Resetting(0) else Leaving)
      && st'.seen == (
           if !j.quiet && s.Some? && j.once then st.seen + {Flag(j.sim, if 0 < j.op < 13 then j.op else 0)}
           else st.seen)
  {
    assert st.gs[i].jobs[0] in st.gs[i].jobs;
  }

  // ----- Sleeping over whole runs -----

  /** What op costs at simulator s: its own duration, or else the one for all operations. */
  function Cost(d: Durations, s: nat, op: Operation): nat
    requires ValidDurations(d) && s in d
  {
    if 0 < op < 13 && d[s][op] > 0 then d[s][op] else d[s][0]
  }

  predicate Asleep(g: Gor) {
    g.pc.SleepFree? || g.pc.SleepHeld?
  }

  /** Who waits or sleeps has a call that is not quiet and costs something, and sleeps without
      the ticket only if it is Async; only calls that reset are resetting. */
  predicate AsAsked(g: Gor, d: Durations)
    requires ValidDurations(d) && (g.jobs != [] ==> g.jobs[0].sim in d)
  {
    && (g.pc.WaitSim? || Asleep(g) ==>
          g.jobs != [] && !g.jobs[0].quiet && Cost(d, g.jobs[0].sim, g.jobs[0].op) > 0)
    && (g.pc.WaitSim? || g.pc.SleepHeld? ==> !g.jobs[0].async)
    && (g.pc.SleepFree? ==> g.jobs[0].async)
    && (g.pc.Resetting? ==> g.jobs != [] && g.jobs[0].resets)
  }

  ghost predicate AllAsAsked(st: State, d: Durations)
    requires Sound(st, d)
  {
    forall i :: 0 <= i < |st.gs| ==> WellFormed(st.gs[i], st, d) && FirstKnown(st.gs[i], d) && AsAsked(st.gs[i], d)
  }

  predicate FirstKnown(g: Gor, d: Durations) {
    g.jobs != [] ==> g.jobs[0].sim in d
  }

  lemma {:induction false} StepAsAsked(st: State, i: nat, d: Durations)
    requires Sound(st, d) && AllAsAsked(st, d) && i < |st.gs| && Enabled(st, i, d)
    requires Sound(Next(st, i, d), d)
    ensures AllAsAsked(Next(st, i, d), d)
  {
    var st' := Next(st, i, d);
    forall k | 0 <= k < |st'.gs| ensures FirstKnown(st'.gs[k], d) && AsAsked(st'.gs[k], d) {
      assert WellFormed(st'.gs[k], st', d);
      assert WellFormed(st.gs[k], st, d) && AsAsked(st.gs[k], d);
    }
  }

  lemma {:induction false} RunsAsAsked(st: State, picks: seq<nat>, d: Durations)
    requires Sound(st, d) && AllAsAsked(st, d) && Schedule(st, picks, d)
    ensures AllAsAsked(Reached(st, picks, d), d)
    decreases |picks|
  {
    if picks != [] {
      StepAsAsked(st, picks[0], d);
      RunsAsAsked(Next(st, picks[0], d), picks[1..], d);
    }
  }

  /** In every state that any schedule reaches from the start, who sleeps has been asked to, and
      of two that sleep at the same simulator at the same time one at least is Async. */
  lemma {:induction false} SleepsExclude(st: State, picks: seq<nat>, d: Durations, i: nat, k: nat)
    requires Fresh(st, d) && Schedule(st, picks, d) && i < k < |Reached(st, picks, d).gs|
    ensures var g, h := Reached(st, picks, d).gs[i], Reached(st, picks, d).gs[k];
      Asleep(g) && Asleep(h) ==>
        && g.jobs != [] && h.jobs != [] && g.jobs[0].sim in d && h.jobs[0].sim in d
        && Cost(d, g.jobs[0].sim, g.jobs[0].op) > 0 && Cost(d, h.jobs[0].sim, h.jobs[0].op) > 0
        && (g.jobs[0].sim == h.jobs[0].sim ==> g.jobs[0].async || h.jobs[0].async)
  {
    FreshInv(st, d);
    FreshAsAsked(st, d);
    RunsKeepTickets(st, picks, d);
    RunsAsAsked(st, picks, d);
    var r := Reached(st, picks, d);
    var g, h := r.gs[i], r.gs[k];
    assert WellFormed(g, r, d) && AsAsked(g, d) && WellFormed(h, r, d) && AsAsked(h, d);
    if Asleep(g) && Asleep(h) {
      assert g.jobs[0] in g.jobs && h.jobs[0] in h.jobs;
      Exclusive(r, d, i, k, g.jobs[0].sim);
    }
  }

  lemma {:induction false} FreshAsAsked(st: State, d: Durations)
    requires Fresh(st, d)
    ensures AllAsAsked(st, d)
  {
    forall i | 0 <= i < |st.gs| ensures WellFormed(st.gs[i], st, d) && FirstKnown(st.gs[i], d) {
      assert WellFormed(st.gs[i], st, d);
    }
  }

  // ----- Resetting -----

  predicate ClearedIn(log: seq<Event>, from: nat, f: Flag) {
    exists n :: from <= n < |log| && log[n] == Cleared(f)
  }

  /** What a call that resets has still to clear: everything before it comes to that. */
  predicate StillTo(pc: Pc, k: nat) {
    match pc
    case Leaving => false
    case Resetting(a) => a <= k < NumOperations
    case Outside => false
    case _ => k < NumOperations
  }

  lemma {:induction false} LogKept(st: State, picks: seq<nat>, d: Durations)
    requires Sound(st, d) && Schedule(st, picks, d)
    ensures st.log <= Reached(st, picks, d).log
    decreases |picks|
  {
    if picks != [] { LogKept(Next(st, picks[0], d), picks[1..], d); }
  }

  /** One step of goroutine i's call: what was to be cleared has been, or still is to be. */
  lemma {:induction false} StepClears(st: State, i: nat, j: nat, d: Durations, k: nat)
    requires Sound(st, d) && i < |st.gs| && j < |st.gs| && Enabled(st, j, d) && k < NumOperations
    requires st.gs[i].pc != Outside && st.gs[i].jobs != [] && st.gs[i].jobs[0].resets
    requires Next(st, j, d).gs[i].pc != Outside && StillTo(st.gs[i].pc, k)
    ensures var st' := Next(st, j, d);
      && st'.gs[i].jobs == st.gs[i].jobs && st.log <= st'.log
      && (StillTo(st'.gs[i].pc, k) || ClearedIn(st'.log, |st.log|, Flag(st.gs[i].jobs[0].sim, k)))
  {
    var st' := Next(st, j, d);
    if i == j && st.gs[i].pc == Resetting(k) {
      assert st'.log[|st.log|] == Cleared(Flag(st.gs[i].jobs[0].sim, k));
    }
  }

  /** Goroutine i stays in its call all along. */
  predicate Stays(st: State, picks: seq<nat>, d: Durations, i: nat)
    requires Sound(st, d) && Schedule(st, picks, d)
    decreases |picks|
  {
    i < |st.gs| && st.gs[i].pc != Outside && (picks == [] || Stays(Next(st, picks[0], d), picks[1..], d, i))
  }

  /** When a call that resets comes to its end, every flag of its simulator has been cleared since,
      whatever the others have done in the meantime. */
  lemma {:induction false} ResetClears(st: State, picks: seq<nat>, d: Durations, i: nat, k: nat)
    requires Sound(st, d) && Schedule(st, picks, d) && Stays(st, picks, d, i) && k < NumOperations
    requires st.gs[i].jobs != [] && st.gs[i].jobs[0].resets && StillTo(st.gs[i].pc, k)
    requires Reached(st, picks, d).gs[i].pc.Leaving?
    ensures ClearedIn(Reached(st, picks, d).log, |st.log|, Flag(st.gs[i].jobs[0].sim, k))
    decreases |picks|
  {
    if picks != [] {
      var st' := Next(st, picks[0], d);
      LogKept(st', picks[1..], d);
      StepClears(st, i, picks[0], d, k);
      var r, f := Reached(st', picks[1..], d), Flag(st.gs[i].jobs[0].sim, k);
      var from := |st.log|;
      if StillTo(st'.gs[i].pc, k) {
        ResetClears(st', picks[1..], d, i, k);
        from := |st'.log|;
      }
      var n :| from <= n < |r.log| && r.log[n] == Cleared(f);
    }
  }
}
