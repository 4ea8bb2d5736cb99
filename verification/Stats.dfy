/** Operation statistics: the recorder, its snapshots, and the ledger over a run. */
module Stats {
  import opened Common

  /** One record: operation, bytes transferred, whether it failed. */
  datatype Entry = Entry(op: Operation, bytes: int, failed: bool)

  /** A negative number of bytes counts as none. */
  function Gained(e: Entry): nat {
    if e.bytes > 0 then e.bytes else 0
  }

  datatype OpCount = OpCount(total: nat, failure: nat)

  /** The counters, as unsigned 64-bit numbers. */
  datatype Ledger = Ledger(bytesRead: nat, bytesWritten: nat, ops: seq<OpCount>)

  predicate ValidLedger(l: Ledger) {
    && |l.ops| == NumOperations && l.bytesRead < TWO_64 && l.bytesWritten < TWO_64
    && (forall i :: 0 <= i < NumOperations ==> l.ops[i].total < TWO_64 && l.ops[i].failure < TWO_64)
  }

  function ZeroCounts(n: nat): (r: seq<OpCount>)
    ensures |r| == n && forall i :: 0 <= i < n ==> r[i] == OpCount(0, 0)
  {
    if n == 0 then [] else ZeroCounts(n - 1) + [OpCount(0, 0)]
  }

  const Zero: Ledger := Ledger(0, 0, ZeroCounts(NumOperations))

  function Recorded(l: Ledger, e: Entry): (r: Ledger)
    requires ValidLedger(l) && ValidOp(e.op)
    ensures ValidLedger(r)
  {
    var c := l.ops[e.op];
    var c' := OpCount((c.total + 1) % TWO_64, if e.failed then (c.failure + 1) % TWO_64 else c.failure);
    Ledger(
      if e.op == OpRead then (l.bytesRead + Gained(e)) % TWO_64 else l.bytesRead,
      if e.op == OpWrite then (l.bytesWritten + Gained(e)) % TWO_64 else l.bytesWritten,
      l.ops[e.op := c'])
  }

  /** One record of an operation that has read and written so many bytes. */
  lemma {:induction false} RecordedCounts(l: Ledger, k: Operation, read: nat, wrote: nat, error: bool)
    requires ValidLedger(l) && ValidOp(k) && (read > 0 ==> k == OpRead) && (wrote > 0 ==> k == OpWrite)
    ensures var r := Recorded(l, Entry(k, read + wrote, error));
      && r.ops == l.ops[k := OpCount((l.ops[k].total + 1) % TWO_64,
                               if error then (l.ops[k].failure + 1) % TWO_64 else l.ops[k].failure)]
      && r.bytesRead == (l.bytesRead + read) % TWO_64
      && r.bytesWritten == (l.bytesWritten + wrote) % TWO_64
  {
  }

  predicate ValidEntries(es: seq<Entry>) {
    forall i :: 0 <= i < |es| ==> ValidOp(es[i].op)
  }

  function RecordAll(l: Ledger, es: seq<Entry>): (r: Ledger)
    requires ValidLedger(l) && ValidEntries(es)
    ensures ValidLedger(r)
    decreases |es|
  {
    if es == [] then l else Recorded(RecordAll(l, es[..|es|-1]), es[|es|-1])
  }

  // ----- What a run of records adds up to -----

  function Calls(es: seq<Entry>, op: Operation): nat {
    if es == [] then 0 else Calls(es[..|es|-1], op) + (if es[|es|-1].op == op then 1 else 0)
  }

  function Failures(es: seq<Entry>, op: Operation): nat {
    if es == [] then 0
    else Failures(es[..|es|-1], op) + (if es[|es|-1].op == op && es[|es|-1].failed then 1 else 0)
  }

  function Bytes(es: seq<Entry>, op: Operation): nat {
    if es == [] then 0 else Bytes(es[..|es|-1], op) + (if es[|es|-1].op == op then Gained(es[|es|-1]) else 0)
  }

  lemma {:induction false} AddMod(a: nat, b: nat, c: nat)
    ensures ((a + b) % TWO_64 + c) % TWO_64 == (a + (b + c)) % TWO_64
  {
  }

  lemma {:induction false} CountSums(l: Ledger, es: seq<Entry>, op: Operation)
    requires ValidLedger(l) && ValidEntries(es) && ValidOp(op)
    ensures var r := RecordAll(l, es);
      && r.ops[op].total == (l.ops[op].total + Calls(es, op)) % TWO_64
      && r.ops[op].failure == (l.ops[op].failure + Failures(es, op)) % TWO_64
    decreases |es|
  {
    if es != [] {
      var p := es[..|es|-1];
      CountSums(l, p, op);
      AddMod(l.ops[op].total, Calls(p, op), 1);
      AddMod(l.ops[op].failure, Failures(p, op), 1);
    }
  }

  lemma {:induction false} ByteSums(l: Ledger, es: seq<Entry>)
    requires ValidLedger(l) && ValidEntries(es)
    ensures var r := RecordAll(l, es);
      && r.bytesRead == (l.bytesRead + Bytes(es, OpRead)) % TWO_64
      && r.bytesWritten == (l.bytesWritten + Bytes(es, OpWrite)) % TWO_64
    decreases |es|
  {
    if es != [] {
      var p, e := es[..|es|-1], es[|es|-1];
      ByteSums(l, p);
      AddMod(l.bytesRead, Bytes(p, OpRead), Gained(e));
      AddMod(l.bytesWritten, Bytes(p, OpWrite), Gained(e));
    }
  }

  /** Every counter is the sum over the run, modulo 2^64. */
  lemma {:induction false} LedgerSums(l: Ledger, es: seq<Entry>, op: Operation)
    requires ValidLedger(l) && ValidEntries(es) && ValidOp(op)
    ensures var r := RecordAll(l, es);
      && r.ops[op].total == (l.ops[op].total + Calls(es, op)) % TWO_64
      && r.ops[op].failure == (l.ops[op].failure + Failures(es, op)) % TWO_64
      && r.bytesRead == (l.bytesRead + Bytes(es, OpRead)) % TWO_64
      && r.bytesWritten == (l.bytesWritten + Bytes(es, OpWrite)) % TWO_64
  {
    CountSums(l, es, op);
    ByteSums(l, es);
  }

  lemma {:induction false} FailuresAtMostCalls(es: seq<Entry>, op: Operation)
    ensures Failures(es, op) <= Calls(es, op)
  {
    if es != [] { FailuresAtMostCalls(es[..|es|-1], op); }
  }

  /** From a fresh recorder, and as long as nothing has been counted 2^64 times: counts are
      calls, failures never exceed totals, byte counters are the transferred totals. */
  lemma {:induction false} LedgerExact(es: seq<Entry>, op: Operation)
    requires ValidEntries(es) && ValidOp(op)
    requires Calls(es, op) < TWO_64 && Bytes(es, OpRead) < TWO_64 && Bytes(es, OpWrite) < TWO_64
    ensures var r := RecordAll(Zero, es);
      && r.ops[op] == OpCount(Calls(es, op), Failures(es, op))
      && r.ops[op].failure <= r.ops[op].total
      && r.bytesRead == Bytes(es, OpRead) && r.bytesWritten == Bytes(es, OpWrite)
  {
    LedgerSums(Zero, es, op);
    FailuresAtMostCalls(es, op);
    NoWrap(Calls(es, op));
    NoWrap(Failures(es, op));
    NoWrap(Bytes(es, OpRead));
    NoWrap(Bytes(es, OpWrite));
  }

  lemma {:induction false} NoWrap(n: nat)
    requires n < TWO_64
    ensures (0 + n) % TWO_64 == n
  {
  }

  lemma {:induction false} AddsCommute(v: nat, a: nat, b: nat)
    ensures ((v + a) % TWO_64 + b) % TWO_64 == ((v + b) % TWO_64 + a) % TWO_64
  {
    AddMod(v, a, b);
    AddMod(v, b, a);
  }

  lemma {:induction false} OpsCommute(l: Ledger, a: Entry, b: Entry)
    requires ValidLedger(l) && ValidOp(a.op) && ValidOp(b.op)
    ensures Recorded(Recorded(l, a), b).ops == Recorded(Recorded(l, b), a).ops
  {
    var x, y := Recorded(Recorded(l, a), b), Recorded(Recorded(l, b), a);
    forall i | 0 <= i < NumOperations ensures x.ops[i] == y.ops[i] { }
  }

  lemma {:induction false} BytesCommute(l: Ledger, a: Entry, b: Entry)
    requires ValidLedger(l) && ValidOp(a.op) && ValidOp(b.op)
    ensures Recorded(Recorded(l, a), b).bytesRead == Recorded(Recorded(l, b), a).bytesRead
    ensures Recorded(Recorded(l, a), b).bytesWritten == Recorded(Recorded(l, b), a).bytesWritten
  {
    AddsCommute(l.bytesRead, Gained(a), Gained(b));
    AddsCommute(l.bytesWritten, Gained(a), Gained(b));
  }

  /** Records commute. */
  lemma {:induction false} RecordsCommute(l: Ledger, a: Entry, b: Entry)
    requires ValidLedger(l) && ValidOp(a.op) && ValidOp(b.op)
    ensures Recorded(Recorded(l, a), b) == Recorded(Recorded(l, b), a)
  {
    BytesCommute(l, a, b);
    OpsCommute(l, a, b);
  }

  // ----- Snapshots -----

  function Clamp(v: nat): int {
    if v > MAX_INT then MAX_INT else v
  }

  datatype SnapCount = SnapCount(total: int, failure: int)

  datatype StatsSnapshot = StatsSnapshot(bytesRead: int, bytesWritten: int, ops: seq<SnapCount>)

  predicate ValidSnapshot(s: StatsSnapshot) {
    |s.ops| == NumOperations
  }

  function Snap(l: Ledger): (s: StatsSnapshot)
    requires ValidLedger(l)
    ensures ValidSnapshot(s)
  {
    StatsSnapshot(Clamp(l.bytesRead), Clamp(l.bytesWritten),
      seq(NumOperations, i requires 0 <= i < NumOperations =>
        SnapCount(Clamp(l.ops[i].total), Clamp(l.ops[i].failure))))
  }

  /** CountSuccess of the recorder subtracts in uint64 and then clamps. */
  function RecorderSuccess(c: OpCount): int {
    Clamp((c.total - c.failure) % TWO_64)
  }

  /** CountSuccess of a snapshot subtracts what was clamped. */
  function SnapshotSuccess(c: SnapCount): int {
    Wrap64(c.total - c.failure)
  }

  /** The two agree exactly when the total fits an int, nothing failed, or everything did. */
  lemma {:induction false} SuccessAgreesIff(c: OpCount)
    requires c.failure <= c.total < TWO_64
    ensures RecorderSuccess(c) == SnapshotSuccess(SnapCount(Clamp(c.total), Clamp(c.failure)))
            <==> c.total <= MAX_INT || c.failure == 0 || c.failure == c.total
  {
  }

  /** Delta of two snapshots, field by field; the fields of OpUnknown stay zero. */
  function Delta(a: StatsSnapshot, b: StatsSnapshot): (d: StatsSnapshot)
    requires ValidSnapshot(a) && ValidSnapshot(b)
    ensures ValidSnapshot(d)
  {
    StatsSnapshot(Wrap64(a.bytesRead - b.bytesRead), Wrap64(a.bytesWritten - b.bytesWritten),
      seq(NumOperations, i requires 0 <= i < NumOperations =>
        if !ValidOp(i) then SnapCount(0, 0)
        else SnapCount(Wrap64(a.ops[i].total - b.ops[i].total), Wrap64(a.ops[i].failure - b.ops[i].failure))))
  }

  lemma {:induction false} WrapTelescopes(a: int, b: int, c: int)
    ensures Wrap64(Wrap64(a - c) - Wrap64(b - c)) == Wrap64(a - b)
  {
    WrapCongruent(a - c);
    WrapCongruent(b - c);
    WrapUnique(Wrap64(a - c) - Wrap64(b - c), a - b);
  }

  lemma {:induction false} WrapCongruent(x: int)
    ensures (x - Wrap64(x)) % TWO_64 == 0
  {
  }

  lemma {:induction false} WrapUnique(x: int, y: int)
    requires (x - y) % TWO_64 == 0
    ensures Wrap64(x) == Wrap64(y)
  {
    var k := (x - y) / TWO_64;
    assert x + TWO_63 == y + TWO_63 + k * TWO_64;
  }

  /** Delta telescopes: what happened since b is what happened since c less what had
      happened by b, for any three snapshots. */
  lemma {:induction false} DeltaTelescopes(a: StatsSnapshot, b: StatsSnapshot, c: StatsSnapshot)
    requires ValidSnapshot(a) && ValidSnapshot(b) && ValidSnapshot(c)
    ensures Delta(Delta(a, c), Delta(b, c)) == Delta(a, b)
  {
    WrapTelescopes(a.bytesRead, b.bytesRead, c.bytesRead);
    WrapTelescopes(a.bytesWritten, b.bytesWritten, c.bytesWritten);
    forall i | 0 <= i < NumOperations ensures Delta(Delta(a, c), Delta(b, c)).ops[i] == Delta(a, b).ops[i] {
      DeltaTelescopesAt(a, b, c, i);
    }
  }

  lemma {:induction false} DeltaTelescopesAt(a: StatsSnapshot, b: StatsSnapshot, c: StatsSnapshot, i: nat)
    requires ValidSnapshot(a) && ValidSnapshot(b) && ValidSnapshot(c) && i < NumOperations
    ensures Delta(Delta(a, c), Delta(b, c)).ops[i] == Delta(a, b).ops[i]
  {
    WrapTelescopes(a.ops[i].total, b.ops[i].total, c.ops[i].total);
    WrapTelescopes(a.ops[i].failure, b.ops[i].failure, c.ops[i].failure);
  }

  /** Between two moments of a run, Delta counts the calls and failures in between. */
  lemma {:induction false} DeltaCountsCalls(l: Ledger, es: seq<Entry>, op: Operation)
    requires ValidLedger(l) && ValidEntries(es) && ValidOp(op)
    requires l.ops[op].total + Calls(es, op) <= MAX_INT && l.ops[op].failure + Failures(es, op) <= MAX_INT
    ensures Delta(Snap(RecordAll(l, es)), Snap(l)).ops[op] == SnapCount(Calls(es, op), Failures(es, op))
  {
    LedgerSumsSmall(l, es, op);
    SnapDelta(RecordAll(l, es), l, op);
  }

  /** And the bytes. */
  lemma {:induction false} DeltaCountsBytes(l: Ledger, es: seq<Entry>)
    requires ValidLedger(l) && ValidEntries(es)
    requires l.bytesRead + Bytes(es, OpRead) <= MAX_INT && l.bytesWritten + Bytes(es, OpWrite) <= MAX_INT
    ensures var d := Delta(Snap(RecordAll(l, es)), Snap(l));
      d.bytesRead == Bytes(es, OpRead) && d.bytesWritten == Bytes(es, OpWrite)
  {
    ByteSums(l, es);
    SmallMod(l.bytesRead + Bytes(es, OpRead));
    SmallMod(l.bytesWritten + Bytes(es, OpWrite));
  }

  lemma {:induction false} LedgerSumsSmall(l: Ledger, es: seq<Entry>, op: Operation)
    requires ValidLedger(l) && ValidEntries(es) && ValidOp(op)
    requires l.ops[op].total + Calls(es, op) <= MAX_INT && l.ops[op].failure + Failures(es, op) <= MAX_INT
    ensures RecordAll(l, es).ops[op] == OpCount(l.ops[op].total + Calls(es, op), l.ops[op].failure + Failures(es, op))
  {
    LedgerSums(l, es, op);
    SmallMod(l.ops[op].total + Calls(es, op));
    SmallMod(l.ops[op].failure + Failures(es, op));
  }

  lemma {:induction false} SnapDelta(r: Ledger, l: Ledger, op: Operation)
    requires ValidLedger(r) && ValidLedger(l) && ValidOp(op)
    requires l.ops[op].total <= r.ops[op].total <= MAX_INT && l.ops[op].failure <= r.ops[op].failure <= MAX_INT
    ensures Delta(Snap(r), Snap(l)).ops[op] ==
      SnapCount(r.ops[op].total - l.ops[op].total, r.ops[op].failure - l.ops[op].failure)
  {
    DeltaAt(Snap(r), Snap(l), op);
  }

  lemma {:induction false} SmallMod(x: nat)
    requires x <= MAX_INT
    ensures x % TWO_64 == x
  {
  }

  lemma {:induction false} DeltaAt(a: StatsSnapshot, b: StatsSnapshot, op: Operation)
    requires ValidSnapshot(a) && ValidSnapshot(b) && ValidOp(op)
    ensures Delta(a, b).ops[op] ==
      SnapCount(Wrap64(a.ops[op].total - b.ops[op].total), Wrap64(a.ops[op].failure - b.ops[op].failure))
  {
  }

  // ----- Rebuilding a recorder from a snapshot -----

  /** NewStatsRecorder(initial): Set for every operation with a count, then SetBytes. It
      panics on counts that Set rejects. */
  predicate Accepted(s: StatsSnapshot)
    requires ValidSnapshot(s)
  {
    && s.bytesRead >= 0 && s.bytesWritten >= 0
    && (forall i :: 0 <= i < NumOperations && ValidOp(i) && (s.ops[i].total > 0 || s.ops[i].failure > 0) ==>
          0 <= s.ops[i].failure <= s.ops[i].total)
  }

  function SetCount(c: SnapCount): OpCount
    requires c.total > 0 || c.failure > 0 ==> 0 <= c.failure <= c.total
  {
    if c.total > 0 || c.failure > 0 then OpCount(c.total, c.failure) else OpCount(0, 0)
  }

  function Rebuilt(s: StatsSnapshot): Ledger
    requires ValidSnapshot(s) && Accepted(s)
  {
    Ledger(s.bytesRead, s.bytesWritten,
      seq(NumOperations, i requires 0 <= i < NumOperations => if ValidOp(i) then SetCount(s.ops[i]) else OpCount(0, 0)))
  }

  predicate Fits(l: Ledger) {
    && l.bytesRead <= MAX_INT && l.bytesWritten <= MAX_INT
    && (forall i :: 0 <= i < |l.ops| ==> l.ops[i].total <= MAX_INT)
  }

  predicate Sane(l: Ledger) {
    && ValidLedger(l) && l.ops[OpUnknown] == OpCount(0, 0)
    && (forall i :: 0 <= i < NumOperations ==> l.ops[i].failure <= l.ops[i].total)
  }

  /** Rebuilding a recorder from its own snapshot is lossless exactly when the counters
      fit an int. */
  lemma {:induction false} RebuildLosslessIff(l: Ledger)
    requires Sane(l)
    ensures Accepted(Snap(l))
    ensures Rebuilt(Snap(l)) == l <==> Fits(l)
  {
    var r := Rebuilt(Snap(l));
    forall i | 0 <= i < NumOperations ensures r.ops[i] == l.ops[i] <==> l.ops[i].total <= MAX_INT {
      assert Snap(l).ops[i] == SnapCount(Clamp(l.ops[i].total), Clamp(l.ops[i].failure));
    }
    if r == l {
      forall i | 0 <= i < NumOperations ensures l.ops[i].total <= MAX_INT {
        assert r.ops[i] == l.ops[i];
      }
    }
  }

  /** A snapshot of counters that fit an int shows them as they are, and both ways of counting
      successes come to the calls less the failures. */
  lemma {:induction false} SnapshotExact(l: Ledger, op: Operation)
    requires Sane(l) && Fits(l) && ValidOp(op)
    ensures var s, c := Snap(l), l.ops[op];
      && s.bytesRead == l.bytesRead && s.bytesWritten == l.bytesWritten
      && s.ops[op] == SnapCount(c.total, c.failure)
      && RecorderSuccess(c) == c.total - c.failure == SnapshotSuccess(s.ops[op])
  {
    assert l.ops[op].total - l.ops[op].failure <= MAX_INT;
  }

  // ----- The recorder itself -----

  class StatsRecorder {
    var bytesRead: nat
    var bytesWritten: nat
    const ops: array<OpCount>

    ghost predicate Valid()
      reads this, ops
    {
      ops.Length == NumOperations && ValidLedger(View())
    }

    ghost function View(): Ledger
      reads this, ops
    {
      Ledger(bytesRead, bytesWritten, ops[..])
    }

    constructor ()
      ensures Valid() && View() == Zero && fresh(ops)
    {
      bytesRead, bytesWritten := 0, 0;
      ops := new OpCount[NumOperations](_ => OpCount(0, 0));
      new;
      assert ops[..] == Zero.ops;
    }

    /** The source panics on an invalid operation. */
    method Record(op: Operation, bytes: int, failed: bool)
      requires Valid() && ValidOp(op)
      modifies this, ops
      ensures Valid() && View() == Recorded(old(View()), Entry(op, bytes, failed))
      ensures bytes <= 0 ==> bytesRead == old(bytesRead) && bytesWritten == old(bytesWritten)
    {
      var c := ops[op];
      ops[op] := OpCount((c.total + 1) % TWO_64, c.failure);
      if failed {
        ops[op] := OpCount(ops[op].total, (c.failure + 1) % TWO_64);
      }
      if bytes > 0 {
        if op == OpRead {
          bytesRead := (bytesRead + bytes) % TWO_64;
        } else if op == OpWrite {
          bytesWritten := (bytesWritten + bytes) % TWO_64;
        }
      }
      assert ops[..] == old(ops[..])[op := ops[op]];
    }

    /** The source panics on negative failures and on failures > total. */
    method Set(op: Operation, total: int, failures: int)
      requires Valid() && ValidOp(op) && 0 <= failures <= total <= MAX_INT
      modifies ops
      ensures Valid() && View() == old(View()).(ops := old(View().ops)[op := OpCount(total, failures)])
    {
      ops[op] := OpCount(total, failures);
      assert ops[..] == old(ops[..])[op := OpCount(total, failures)];
    }

    method Reset()
      requires Valid()
      modifies this, ops
      ensures Valid() && View() == Zero
    {
      bytesRead, bytesWritten := 0, 0;
      var i := 0;
      while i < NumOperations
        invariant 0 <= i <= NumOperations
        invariant forall j :: 0 <= j < i ==> ops[j] == OpCount(0, 0)
        modifies ops
      {
        ops[i] := OpCount(0, 0);
        i := i + 1;
      }
      assert ops[..] == Zero.ops;
    }

    method Snapshot() returns (s: StatsSnapshot)
      requires Valid()
      ensures s == Snap(View())
    {
      var counts: seq<SnapCount> := [];
      var i := 0;
      while i < NumOperations
        invariant 0 <= i <= NumOperations && |counts| == i
        invariant forall j :: 0 <= j < i ==> counts[j] == Snap(View()).ops[j]
      {
        counts := counts + [SnapCount(Clamp(ops[i].total), Clamp(ops[i].failure))];
        i := i + 1;
      }
      s := StatsSnapshot(Clamp(bytesRead), Clamp(bytesWritten), counts);
    }

    /** NewStatsRecorder with initial values. */
    constructor FromSnapshot(s: StatsSnapshot)
      requires ValidSnapshot(s) && Accepted(s)
      requires forall i :: 0 <= i < NumOperations ==> s.ops[i].total <= MAX_INT
      requires s.bytesRead <= MAX_INT && s.bytesWritten <= MAX_INT
      ensures Valid() && View() == Rebuilt(s) && fresh(ops)
    {
      bytesRead, bytesWritten := 0, 0;
      ops := new OpCount[NumOperations](_ => OpCount(0, 0));
      new;
      var op := 0;
      while op < NumOperations
        invariant 0 <= op <= NumOperations && ops.Length == NumOperations && fresh(ops)
        invariant bytesRead == 0 && bytesWritten == 0
        invariant forall j :: 0 <= j < op ==> ops[j] == Rebuilt(s).ops[j]
        invariant forall j :: op <= j < NumOperations ==> ops[j] == OpCount(0, 0)
        modifies ops
      {
        if ValidOp(op) && (s.ops[op].total > 0 || s.ops[op].failure > 0) {
          assert ValidLedger(View());
          Set(op, s.ops[op].total, s.ops[op].failure);
        }
        op := op + 1;
      }
      bytesRead, bytesWritten := s.bytesRead, s.bytesWritten;
      assert ops[..] == Rebuilt(s).ops;
    }
  }
}
