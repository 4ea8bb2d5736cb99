/** The latency simulator as one goroutine sees it: durations, flags and the ticket. */
module Latency {
  import opened Common
  import T = Tickets

  /** A sleep, and whether the ticket was held during it. */
  datatype Sleep = Sleep(duration: nat, held: bool)

  function NoFlags(n: nat): (r: seq<bool>)
    ensures |r| == n && forall i :: 0 <= i < n ==> !r[i]
  {
    if n == 0 then [] else NoFlags(n - 1) + [false]
  }

  /** What a call of Simulate sleeps: nothing without a duration, nothing for a Once call
      whose flag is set, else once, with the ticket unless it is Async. */
  function Slept(durations: seq<nat>, seen: seq<bool>, op: Operation, once: bool, async: bool): (r: Option<Sleep>)
    requires |durations| == NumOperations == |seen|
    ensures r.Some? ==> r.value.duration > 0 && (r.value.held <==> !async)
  {
    var n := T.Normal(op);
    var dur := T.Duration(map[0 := durations], 0, op);
    if dur == 0 || (once && seen[n]) then None else Some(Sleep(dur, !async))
  }

  /** Unknown operations count as operation 0, whose duration is the default for all others. */
  lemma {:induction false} SleptIs(durations: seq<nat>, seen: seq<bool>, op: Operation, once: bool, async: bool)
    requires |durations| == NumOperations == |seen|
    ensures Slept(durations, seen, op, once, async) ==
      var n := if 0 < op < 13 then op else 0;
      var dur := if durations[n] > 0 then durations[n] else durations[0];
      if dur == 0 || (once && seen[n]) then None else Some(Sleep(dur, !async))
  {
  }

  class LatencySimulator {
    const durations: seq<nat>
    const seen: array<bool>
    var tokens: nat
    ghost var sleeps: seq<Sleep>

    /** Between calls the ticket is in its channel. */
    ghost predicate Valid()
      reads this
    {
      |durations| == NumOperations && seen.Length == NumOperations && tokens == 1
    }

    constructor (durations: seq<nat>)
      requires |durations| == NumOperations
      ensures Valid() && this.durations == durations && fresh(seen)
      ensures seen[..] == NoFlags(NumOperations) && sleeps == []
    {
      this.durations := durations;
      seen := new bool[NumOperations](_ => false);
      tokens, sleeps := 1, [];
    }

    method Simulate(op: Operation, once: bool, async: bool)
      requires Valid()
      modifies this, seen
      ensures Valid()
      ensures var s := Slept(durations, old(seen[..]), op, once, async);
        && sleeps == old(sleeps) + (if s.Some? then [s.value] else [])
        && seen[..] == if s.Some? && once then old(seen[..])[T.Normal(op) := true] else old(seen[..])
    {
      var n := if ValidOp(op) then op else OpUnknown;
      var dur := durations[n];
      if dur == 0 && n != OpUnknown {
        dur := durations[OpUnknown];
      }
      if dur == 0 {
        return;
      }
      if once {
        if seen[n] {
          return;
        }
        seen[n] := true;
      }
      if async {
        sleeps := sleeps + [Sleep(dur, false)];
      } else {
        tokens := tokens - 1;
        sleeps := sleeps + [Sleep(dur, tokens == 0)];
        tokens := tokens + 1;
      }
    }

    method Reset()
      requires Valid()
      modifies seen
      ensures Valid() && seen[..] == NoFlags(NumOperations)
    {
      for i := 0 to seen.Length
        invariant forall k :: 0 <= k < i ==> !seen[k]
      {
        seen[i] := false;
      }
    }

    /** The same durations, no flag set, and a ticket of its own. */
    method Clone() returns (c: LatencySimulator)
      requires Valid()
      ensures c.Valid() && fresh(c) && fresh(c.seen) && c.durations == durations
      ensures c.seen[..] == NoFlags(NumOperations) && c.sleeps == []
    {
      c := new LatencySimulator(durations);
    }
  }

  // ----- Runs -----

  datatype Sim = Simulate(op: Operation, once: bool, async: bool) | Reset

  datatype Slumber = Slumber(seen: seq<bool>, sleeps: seq<Option<Sleep>>)

  function RunSims(durations: seq<nat>, seen: seq<bool>, cs: seq<Sim>): (r: Slumber)
    requires |durations| == NumOperations == |seen|
    ensures |r.seen| == NumOperations && |r.sleeps| == |cs|
    decreases |cs|
  {
    if cs == [] then Slumber(seen, [])
    else if cs[0].Reset? then
      var r := RunSims(durations, NoFlags(NumOperations), cs[1..]);
      r.(sleeps := [None] + r.sleeps)
    else
      var s := Slept(durations, seen, cs[0].op, cs[0].once, cs[0].async);
      var seen' := if s.Some? && cs[0].once then seen[T.Normal(cs[0].op) := true] else seen;
      var r := RunSims(durations, seen', cs[1..]);
      r.(sleeps := [s] + r.sleeps)
  }

  /** Once the flag of an operation is set, no Once call for it sleeps before a Reset. */
  lemma {:induction false} FlagStaysSet(durations: seq<nat>, seen: seq<bool>, cs: seq<Sim>, n: Operation, k: nat)
    requires |durations| == NumOperations == |seen| && 0 <= n < NumOperations && seen[n] && k < |cs|
    requires forall i :: 0 <= i <= k ==> !cs[i].Reset?
    requires cs[k].once && T.Normal(cs[k].op) == n
    ensures RunSims(durations, seen, cs).sleeps[k].None?
    decreases |cs|
  {
    if k > 0 {
      var s := Slept(durations, seen, cs[0].op, cs[0].once, cs[0].async);
      var seen' := if s.Some? && cs[0].once then seen[T.Normal(cs[0].op) := true] else seen;
      assert seen'[n];
      FlagStaysSet(durations, seen', cs[1..], n, k - 1);
    }
  }

  /** With Once an operation sleeps at most once between two resets: of two such calls that
      both sleep, a Reset came in between. */
  lemma {:induction false} OnceSleepsOnce(durations: seq<nat>, seen: seq<bool>, cs: seq<Sim>, j: nat, k: nat)
    requires |durations| == NumOperations == |seen| && j < k < |cs|
    requires forall i :: j <= i <= k ==> !cs[i].Reset?
    requires cs[j].once && cs[k].once && T.Normal(cs[j].op) == T.Normal(cs[k].op)
    ensures RunSims(durations, seen, cs).sleeps[j].Some? ==> RunSims(durations, seen, cs).sleeps[k].None?
    decreases |cs|
  {
    if j == 0 {
      var s := Slept(durations, seen, cs[0].op, cs[0].once, cs[0].async);
      if s.Some? {
        FlagStaysSet(durations, seen[T.Normal(cs[0].op) := true], cs[1..], T.Normal(cs[0].op), k - 1);
      }
    } else if cs[0].Reset? {
      OnceSleepsOnce(durations, NoFlags(NumOperations), cs[1..], j - 1, k - 1);
    } else {
      var s := Slept(durations, seen, cs[0].op, cs[0].once, cs[0].async);
      var seen' := if s.Some? && cs[0].once then seen[T.Normal(cs[0].op) := true] else seen;
      OnceSleepsOnce(durations, seen', cs[1..], j - 1, k - 1);
    }
  }
}
