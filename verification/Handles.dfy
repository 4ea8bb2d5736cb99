/** File handles as a state machine over the bytes of one node. */
module Handles {
  import opened Common
  import opened Paths
  import opened Files
  import opened Nodes
  import opened Listing
  import opened Pagination
  import Inj = Injector
  import Stats

  datatype Cursor = Cursor(entries: seq<FileInfo>, offset: nat)

  /** An open file: the node it writes to, and its own state. */
  datatype Handle<R(==)> = Handle(
    node: Entry, name: string, pos: int, closed: bool, writeMode: WriteMode,
    cursor: Option<Cursor>, inj: Inj.Injector<R>, stats: Stats.Ledger)

  /** Read and ReadAt take the length of the caller's buffer. */
  datatype FileOp =
    | Read(n: nat)
    | ReadAt(n: nat, off: int)
    | Write(b: seq<byte>)
    | WriteAt(b: seq<byte>, off: int)
    | Seek(offset: int, whence: int)
    | ReadDir(count: int)
    | Stat
    | Close

  datatype Answer =
    | Failed(err: Error)
    | Got(bytes: seq<byte>, readErr: Option<Error>)
    | Wrote(n: nat)
    | Sought(pos: int)
    | Listed(page: Page)
    | Info(info: FileInfo)
    | Done
    | Panicked

  const SeekStart := 0
  const SeekCurrent := 1
  const SeekEnd := 2

  predicate ValidHandle<R(==)>(h: Handle<R>) {
    && 0 <= h.pos <= MAX_INT && |h.node.data| <= MAX_INT
    && (h.cursor.Some? ==> h.cursor.value.offset <= |h.cursor.value.entries| <= MAX_INT)
    && Inj.ValidInjector(h.inj) && Stats.ValidLedger(h.stats)
  }

  /** The machine types of the arguments. */
  predicate Typed(op: FileOp) {
    match op
    case Read(n) => n <= MAX_INT
    case ReadAt(n, off) => n <= MAX_INT && IsInt64(off)
    case Write(b) => |b| <= MAX_INT
    case WriteAt(b, off) => |b| <= MAX_INT && IsInt64(off)
    case Seek(offset, _) => IsInt64(offset)
    case ReadDir(n) => IsInt64(n)
    case _ => true
  }

  function Kind(op: FileOp): (k: Operation)
    ensures ValidOp(k)
  {
    match op
    case Read(_) => OpRead
    case ReadAt(_, _) => OpRead
    case Write(_) => OpWrite
    case WriteAt(_, _) => OpWrite
    case Seek(_, _) => OpSeek
    case ReadDir(_) => OpReadDir
    case Stat => OpStat
    case Close => OpClose
  }

  // ----- One step -----

  /** What is decided before the error rules are asked. */
  function Refusal<R(==)>(h: Handle<R>, op: FileOp): Option<Error> {
    if h.closed then Some(Closed)
    else if op.ReadDir? && !h.node.mode.dir then Some(Invalid)
    else if op.WriteAt? && h.writeMode == ReadOnly then Some(Permission)
    else None
  }

  datatype Stepped<R(==)> = Stepped(h: Handle<R>, answer: Answer)

  function Min(a: nat, b: nat): nat { if a < b then a else b }

  function Touched<R(==)>(h: Handle<R>, data: seq<byte>, now: int): Handle<R> {
    h.(node := h.node.(data := data, mtime := now))
  }

  function WriteEffect<R(==)>(h: Handle<R>, b: seq<byte>, now: int): Stepped<R> {
    match h.writeMode
    case ReadOnly => Stepped(h, Failed(Permission))
    case Append =>
      if |h.node.data| + |b| > MAX_INT then Stepped(h, Panicked)
      else Stepped(Touched(h, h.node.data + b, now), Wrote(|b|))
    case Overwrite => Stepped(Touched(h, b, now).(pos := |b|), Wrote(|b|))
  }

  /** When off + |b| wraps around, nothing is extended and the copy is cut short. */
  function WriteAtEffect<R(==)>(h: Handle<R>, b: seq<byte>, off: int, now: int): Stepped<R>
    requires ValidHandle(h) && Typed(WriteAt(b, off))
  {
    var data := h.node.data;
    if off < 0 then Stepped(h, Failed(NegativeOffset))
    else if off + |b| <= MAX_INT then Stepped(Touched(h, Overlay(data, b, off), now), Wrote(|b|))
    else if off > |data| then Stepped(h, Panicked)
    else Stepped(Touched(h, data[..off] + b[..|data| - off], now), Wrote(|data| - off))
  }

  function SeekEffect<R(==)>(h: Handle<R>, offset: int, whence: int): Stepped<R> {
    if whence !in {SeekStart, SeekCurrent, SeekEnd} then Stepped(h, Failed(Invalid))
    else
      var n :=
        if whence == SeekStart then offset
        else if whence == SeekCurrent then Wrap64(h.pos + offset)
        else Wrap64(|h.node.data| + offset);
      if n < 0 then Stepped(h, Failed(Invalid)) else Stepped(h.(pos := n), Sought(n))
  }

  /** What an operation does once nothing stops it. */
  function Effect<R(==)>(h: Handle<R>, op: FileOp, now: int): (s: Stepped<R>)
    requires ValidHandle(h) && Typed(op)
    ensures ValidHandle(s.h) && s.h.inj == h.inj && s.h.stats == h.stats
  {
    var data := h.node.data;
    match op
    case Read(n) =>
      if h.pos >= |data| then Stepped(h, Got([], Some(EOF)))
      else
        var k := Min(n, |data| - h.pos);
        Stepped(h.(pos := h.pos + k), Got(data[h.pos..h.pos + k], None))
    case ReadAt(n, off) =>
      if off < 0 then Stepped(h, Failed(NegativeOffset))
      else if off >= |data| then Stepped(h, Got([], Some(EOF)))
      else
        var k := Min(n, |data| - off);
        Stepped(h, Got(data[off..off + k], if k < n then Some(EOF) else None))
    case Write(b) => WriteEffect(h, b, now)
    case WriteAt(b, off) => WriteAtEffect(h, b, off, now)
    case Seek(offset, whence) => SeekEffect(h, offset, whence)
    case ReadDir(n) =>
      if h.cursor.None? then Stepped(h, Listed(Page([], n > 0)))
      else
        var c := h.cursor.value;
        var p := NextPage(c.entries, c.offset, n);
        Stepped(h.(cursor := Some(c.(offset := p.offset))), Listed(p.page))
    case Stat =>
      Stepped(h, Info(FileInfo(Base(h.name), h.node.mode, h.node.mtime, if h.node.mode.dir then 0 else |data|)))
    case Close => Stepped(h.(closed := true), Done)
  }

  /** The bytes and the failure that go into the statistics. */
  function Transferred(a: Answer): nat {
    if a.Got? then |a.bytes| else if a.Wrote? then a.n else 0
  }

  predicate Fails(a: Answer) {
    a.Failed? || (a.Got? && a.readErr.Some?) || (a.Listed? && a.page.Page? && a.page.eof)
  }

  function Recorded<R(==)>(h: Handle<R>, op: FileOp, a: Answer): (r: Handle<R>)
    requires ValidHandle(h)
    ensures ValidHandle(r)
  {
    h.(stats := Stats.Recorded(h.stats, Stats.Entry(Kind(op), Transferred(a), Fails(a))))
  }

  /** The step before it is recorded. An injected error on Close closes all the same. */
  function Act<R(==)>(h: Handle<R>, op: FileOp, now: int): (s: Stepped<R>)
    requires ValidHandle(h) && Typed(op)
    ensures ValidHandle(s.h)
  {
    if Refusal(h, op).Some? then Stepped(h, Failed(Refusal(h, op).value))
    else
      var v := Inj.Check(h.inj, Kind(op), h.name);
      var h' := h.(inj := Inj.After(h.inj, v));
      if v.err.Some? then Stepped(if op.Close? then h'.(closed := true) else h', Failed(v.err.value))
      else Effect(h', op, now)
  }

  function FileStep<R(==)>(h: Handle<R>, op: FileOp, now: int): (s: Stepped<R>)
    requires ValidHandle(h) && Typed(op)
    ensures ValidHandle(s.h)
  {
    var s := Act(h, op, now);
    Stepped(Recorded(s.h, op, s.answer), s.answer)
  }

  // ----- Runs -----

  datatype FileCall = FileCall(op: FileOp, now: int)

  predicate AllTyped(cs: seq<FileCall>) {
    forall i :: 0 <= i < |cs| ==> Typed(cs[i].op)
  }

  datatype Ran<R(==)> = Ran(h: Handle<R>, answers: seq<Answer>)

  /** The position never leaves 0..MaxInt64, whatever the reads, writes and seeks. */
  function FileRun<R(==)>(h: Handle<R>, cs: seq<FileCall>): (r: Ran<R>)
    requires ValidHandle(h) && AllTyped(cs)
    ensures |r.answers| == |cs| && ValidHandle(r.h) && 0 <= r.h.pos <= MAX_INT
    decreases |cs|
  {
    if cs == [] then Ran(h, [])
    else
      var s := FileStep(h, cs[0].op, cs[0].now);
      var r := FileRun(s.h, cs[1..]);
      Ran(r.h, [s.answer] + r.answers)
  }

  function FileRecords(cs: seq<FileCall>, answers: seq<Answer>): (es: seq<Stats.Entry>)
    requires |cs| == |answers|
    ensures Stats.ValidEntries(es)
  {
    if cs == [] then []
    else [Stats.Entry(Kind(cs[0].op), Transferred(answers[0]), Fails(answers[0]))] + FileRecords(cs[1..], answers[1..])
  }

  /** The handle's ledger is the record of its answers: one entry for every call, with
      the bytes it returned, also on a closed handle and after a panic. */
  lemma {:induction false} FileRunLedger<R>(h: Handle<R>, cs: seq<FileCall>)
    requires ValidHandle(h) && AllTyped(cs)
    ensures var r := FileRun(h, cs); r.h.stats == Stats.RecordAll(h.stats, FileRecords(cs, r.answers))
    decreases |cs|
  {
    if cs != [] {
      var s := FileStep(h, cs[0].op, cs[0].now);
      var r := FileRun(s.h, cs[1..]);
      FileRunLedger(s.h, cs[1..]);
      assert ([s.answer] + r.answers)[1..] == r.answers;
      var e := Stats.Entry(Kind(cs[0].op), Transferred(s.answer), Fails(s.answer));
      RecordFirst(h.stats, e, FileRecords(cs[1..], r.answers));
    }
  }

  lemma {:induction false} RecordFirst(l: Stats.Ledger, e: Stats.Entry, es: seq<Stats.Entry>)
    requires Stats.ValidLedger(l) && ValidOp(e.op) && Stats.ValidEntries(es)
    ensures Stats.RecordAll(l, [e] + es) == Stats.RecordAll(Stats.Recorded(l, e), es)
    decreases |es|
  {
    if es == [] {
      assert ([e] + es)[..0] == [];
    } else {
      RecordFirst(l, e, es[..|es|-1]);
      assert ([e] + es)[..|es|] == [e] + es[..|es|-1];
    }
  }

  /** Once closed a handle is dead: every call fails with ErrClosed and changes nothing
      but the handle's own statistics. */
  lemma {:induction false} ClosedIsDead<R>(h: Handle<R>, cs: seq<FileCall>)
    requires ValidHandle(h) && AllTyped(cs) && h.closed
    ensures var r := FileRun(h, cs);
      r.h == h.(stats := r.h.stats) && forall i :: 0 <= i < |cs| ==> r.answers[i] == Failed(Closed)
    decreases |cs|
  {
    if cs != [] { ClosedIsDead(FileStep(h, cs[0].op, cs[0].now).h, cs[1..]); }
  }

  // ----- Handles that no rule concerns -----

  /** No rule matches this operation on this handle. */
  predicate Quiet<R(==)>(h: Handle<R>, k: Operation)
    requires Inj.ValidInjector(h.inj)
  {
    forall r :: r in Inj.Cascade(h.inj, k) ==> !Inj.RuleMatches(h.inj.attr[r], h.name)
  }

  lemma {:induction false} QuietStep<R>(h: Handle<R>, op: FileOp, now: int)
    requires ValidHandle(h) && Typed(op) && Quiet(h, Kind(op)) && Refusal(h, op).None?
    ensures Act(h, op, now) == Effect(h, op, now)
  {
    Inj.QuietConsult(Inj.Cascade(h.inj, Kind(op)), h.inj.attr, h.inj.ctr, h.name);
  }

  // ----- Seek under wrap-around -----

  /** Where a Seek should lead, in unbounded arithmetic. */
  function Target<R(==)>(h: Handle<R>, offset: int, whence: int): int {
    if whence == SeekStart then offset
    else if whence == SeekCurrent then h.pos + offset
    else |h.node.data| + offset
  }

  /** A Seek on an open handle that no rule concerns succeeds exactly when the
      mathematical target fits, and then leads there; else it leaves the position. */
  lemma {:induction false} SeekSucceedsIff<R>(h: Handle<R>, offset: int, whence: int, now: int)
    requires ValidHandle(h) && IsInt64(offset) && whence in {SeekStart, SeekCurrent, SeekEnd}
    requires !h.closed && Quiet(h, OpSeek)
    ensures var s := FileStep(h, Seek(offset, whence), now); var t := Target(h, offset, whence);
      if 0 <= t <= MAX_INT then s.answer == Sought(t) && s.h.pos == t
      else s.answer == Failed(Invalid) && s.h.pos == h.pos
  {
    QuietStep(h, Seek(offset, whence), now);
  }

  // ----- Positioned writes -----

  /** WriteAt is the zero-padded overlay whenever its end fits; an end beyond MaxInt64
      wraps around, and then it panics exactly when it starts beyond the data, and else
      writes less than it was given. */
  lemma {:induction false} WriteAtIsOverlayIff<R>(h: Handle<R>, b: seq<byte>, off: int, now: int)
    requires ValidHandle(h) && Typed(WriteAt(b, off)) && 0 <= off
    requires !h.closed && h.writeMode != ReadOnly && Quiet(h, OpWrite)
    ensures var s := FileStep(h, WriteAt(b, off), now);
      && (s.answer == Wrote(|b|) <==> off + |b| <= MAX_INT)
      && (s.answer == Wrote(|b|) ==> s.h.node.data == Overlay(h.node.data, b, off) && s.h.pos == h.pos)
      && (s.answer == Panicked <==> off + |b| > MAX_INT && off > |h.node.data|)
      && (s.answer == Panicked ==> s.h.node == h.node)
  {
    QuietStep(h, WriteAt(b, off), now);
  }

  /** ReadAt after a full WriteAt returns what was written, unless a rule fires. */
  lemma {:induction false} ReadAtAfterWriteAt<R>(h: Handle<R>, b: seq<byte>, off: int, now: int, later: int)
    requires ValidHandle(h) && Typed(WriteAt(b, off)) && b != [] && off + |b| <= MAX_INT
    requires FileStep(h, WriteAt(b, off), now).answer == Wrote(|b|)
    ensures var h1 := FileStep(h, WriteAt(b, off), now).h;
      var s := FileStep(h1, ReadAt(|b|, off), later);
      if Inj.Check(h1.inj, OpRead, h1.name).err.Some? then s.answer.Failed? else s.answer == Got(b, None)
  {
    OverlayReadsBack(h.node.data, b, off);
    WroteAt(h, b, off, now);
  }

  lemma {:induction false} WroteAt<R>(h: Handle<R>, b: seq<byte>, off: int, now: int)
    requires ValidHandle(h) && Typed(WriteAt(b, off)) && off + |b| <= MAX_INT
    requires FileStep(h, WriteAt(b, off), now).answer == Wrote(|b|)
    ensures var h1 := FileStep(h, WriteAt(b, off), now).h;
      0 <= off && !h1.closed && h1.node.data == Overlay(h.node.data, b, off)
  {
  }

  /** Positioned writes that do not meet can be swapped: same bytes, position, counters
      and statistics. */
  lemma {:induction false} DisjointWritesCommute<R>(
      h: Handle<R>, a: seq<byte>, i: int, b: seq<byte>, j: int, now: int, later: int)
    requires ValidHandle(h) && Typed(WriteAt(a, i)) && Typed(WriteAt(b, j)) && 0 <= i && 0 <= j
    requires !h.closed && h.writeMode != ReadOnly && Quiet(h, OpWrite)
    requires i + |a| <= MAX_INT && j + |b| <= MAX_INT && (i + |a| <= j || j + |b| <= i)
    ensures var x := FileRun(h, [FileCall(WriteAt(a, i), now), FileCall(WriteAt(b, j), later)]);
      var y := FileRun(h, [FileCall(WriteAt(b, j), now), FileCall(WriteAt(a, i), later)]);
      x.h.node == y.h.node && x.h.pos == y.h.pos && x.h.inj == y.h.inj && x.h.stats == y.h.stats
      && x.answers == [Wrote(|a|), Wrote(|b|)] && y.answers == [Wrote(|b|), Wrote(|a|)]
  {
    TwoWrites(h, a, i, b, j, now, later);
    TwoWrites(h, b, j, a, i, now, later);
    OverlaysCommute(h.node.data, a, i, b, j);
    Stats.RecordsCommute(h.stats, Stats.Entry(OpWrite, |a|, false), Stats.Entry(OpWrite, |b|, false));
  }

  lemma {:induction false} RunFirst<R>(h: Handle<R>, c: FileCall, cs: seq<FileCall>)
    requires ValidHandle(h) && Typed(c.op) && AllTyped(cs)
    ensures AllTyped([c] + cs)
    ensures var s := FileStep(h, c.op, c.now); var r := FileRun(s.h, cs);
      FileRun(h, [c] + cs) == Ran(r.h, [s.answer] + r.answers)
  {
    assert ([c] + cs)[1..] == cs;
  }

  lemma {:induction false} OneWrite<R>(h: Handle<R>, b: seq<byte>, off: int, now: int)
    requires ValidHandle(h) && Typed(WriteAt(b, off)) && 0 <= off && off + |b| <= MAX_INT
    requires !h.closed && h.writeMode != ReadOnly && Quiet(h, OpWrite)
    ensures var s := FileStep(h, WriteAt(b, off), now);
      && s.answer == Wrote(|b|)
      && s.h == h.(node := h.node.(data := Overlay(h.node.data, b, off), mtime := now),
                   stats := Stats.Recorded(h.stats, Stats.Entry(OpWrite, |b|, false)))
  {
    QuietStep(h, WriteAt(b, off), now);
  }

  lemma {:induction false} TwoWrites<R>(h: Handle<R>, a: seq<byte>, i: int, b: seq<byte>, j: int, now: int, later: int)
    requires ValidHandle(h) && Typed(WriteAt(a, i)) && Typed(WriteAt(b, j)) && 0 <= i && 0 <= j
    requires !h.closed && h.writeMode != ReadOnly && Quiet(h, OpWrite)
    requires i + |a| <= MAX_INT && j + |b| <= MAX_INT
    ensures var x := FileRun(h, [FileCall(WriteAt(a, i), now), FileCall(WriteAt(b, j), later)]);
      x.h.node == h.node.(data := Overlay(Overlay(h.node.data, a, i), b, j), mtime := later)
      && x.h.pos == h.pos && x.h.inj == h.inj && x.answers == [Wrote(|a|), Wrote(|b|)]
      && x.h.stats ==
           Stats.Recorded(Stats.Recorded(h.stats, Stats.Entry(OpWrite, |a|, false)), Stats.Entry(OpWrite, |b|, false))
  {
    var c1, c2 := FileCall(WriteAt(a, i), now), FileCall(WriteAt(b, j), later);
    OneWrite(h, a, i, now);
    var s := FileStep(h, WriteAt(a, i), now);
    OneWrite(s.h, b, j, later);
    RunFirst(h, c1, [c2]);
    RunFirst(s.h, c2, []);
    assert [c1] + [c2] == [c1, c2] && [c2] + [] == [c2];
  }

  // ----- Reading to the end -----

  function Reads(ns: seq<nat>): seq<FileCall> {
    if ns == [] then [] else [FileCall(Read(ns[0]), 0)] + Reads(ns[1..])
  }

  function Total(ns: seq<nat>): nat {
    if ns == [] then 0 else ns[0] + Total(ns[1..])
  }

  function Bytes(answers: seq<Answer>): seq<byte> {
    if answers == [] then [] else (if answers[0].Got? then answers[0].bytes else []) + Bytes(answers[1..])
  }

  lemma {:induction false} ReadsTyped(ns: seq<nat>)
    requires forall i :: 0 <= i < |ns| ==> 0 < ns[i] <= MAX_INT
    ensures |Reads(ns)| == |ns| && AllTyped(Reads(ns))
    ensures ns != [] ==> Reads(ns)[0] == FileCall(Read(ns[0]), 0) && Reads(ns)[1..] == Reads(ns[1..])
  {
    if ns != [] { ReadsTyped(ns[1..]); }
  }

  /** A handle ready to be read through, wherever Seek has put it. */
  predicate Readable<R(==)>(h: Handle<R>) {
    ValidHandle(h) && !h.closed && Quiet(h, OpRead)
  }

  /** Where reading n bytes leads: to the end of the data at most, and nowhere from behind it. */
  function ReadTo<R(==)>(h: Handle<R>, n: nat): int
    requires 0 <= h.pos
  {
    if h.pos >= |h.node.data| then h.pos else Min(h.pos + n, |h.node.data|)
  }

  /** The data between two positions; there is none behind the end. */
  function Stretch(data: seq<byte>, i: int, j: int): seq<byte>
    requires 0 <= i <= j
  {
    data[Min(i, |data|)..Min(j, |data|)]
  }

  lemma {:induction false} OneRead<R>(h: Handle<R>, n: nat)
    requires Readable(h) && 0 < n <= MAX_INT
    ensures var s := FileStep(h, Read(n), 0);
      && Readable(s.h) && s.h.node == h.node && 0 <= h.pos <= s.h.pos && s.h.pos == ReadTo(h, n)
      && s.answer == Got(Stretch(h.node.data, h.pos, s.h.pos), if h.pos >= |h.node.data| then Some(EOF) else None)
  {
    QuietStep(h, Read(n), 0);
  }

  lemma {:induction false} StretchJoin(data: seq<byte>, i: int, j: int, k: int)
    requires 0 <= i <= j <= k
    ensures Stretch(data, i, j) + Stretch(data, j, k) == Stretch(data, i, k)
  {
  }

  lemma {:induction false} BytesFirst(a: Answer, rest: seq<Answer>)
    ensures Bytes([a] + rest) == (if a.Got? then a.bytes else []) + Bytes(rest)
  {
    assert ([a] + rest)[1..] == rest;
  }

  /** What reading n bytes should come to. */
  predicate Yields<R(==)>(h: Handle<R>, n: nat, r: Ran<R>) {
    && r.h.node == h.node && 0 <= h.pos <= r.h.pos && r.h.pos == ReadTo(h, n)
    && Bytes(r.answers) == Stretch(h.node.data, h.pos, r.h.pos)
  }

  lemma {:induction false} YieldsOn<R>(h: Handle<R>, s: Stepped<R>, n: nat, m: nat, r: Ran<R>)
    requires 0 <= h.pos <= s.h.pos && s.h.pos == ReadTo(h, n) && s.h.node == h.node
    requires s.answer.Got? && s.answer.bytes == Stretch(h.node.data, h.pos, s.h.pos)
    requires Yields(s.h, m, r)
    ensures Yields(h, n + m, Ran(r.h, [s.answer] + r.answers))
  {
    StretchJoin(h.node.data, h.pos, s.h.pos, r.h.pos);
    BytesFirst(s.answer, r.answers);
  }

  /** Reading with buffers of any non-zero sizes yields exactly the data from the start
      position on, which is nothing behind the end ... */
  lemma {:induction false} ReadsYieldTheData<R>(h: Handle<R>, ns: seq<nat>)
    requires Readable(h) && forall i :: 0 <= i < |ns| ==> 0 < ns[i] <= MAX_INT
    ensures |Reads(ns)| == |ns| && AllTyped(Reads(ns))
    ensures Yields(h, Total(ns), FileRun(h, Reads(ns)))
    decreases |ns|
  {
    ReadsTyped(ns);
    if ns != [] {
      OneRead(h, ns[0]);
      var c := FileCall(Read(ns[0]), 0);
      var s := FileStep(h, c.op, c.now);
      ReadsYieldTheData(s.h, ns[1..]);
      RunFirst(h, c, Reads(ns[1..]));
      YieldsOn(h, s, ns[0], Total(ns[1..]), FileRun(s.h, Reads(ns[1..])));
    }
  }

  /** ... and the k-th read reports EOF exactly when the sizes before it have used the
      data up: reading until EOF ends and misses nothing. */
  lemma {:induction false} ReadsEndAtEOF<R>(h: Handle<R>, ns: seq<nat>, k: nat)
    requires Readable(h) && k < |ns| && forall i :: 0 <= i < |ns| ==> 0 < ns[i] <= MAX_INT
    ensures |Reads(ns)| == |ns| && AllTyped(Reads(ns))
    ensures FileRun(h, Reads(ns)).answers[k] == Got([], Some(EOF)) <==> h.pos + Total(ns[..k]) >= |h.node.data|
    decreases |ns|
  {
    ReadsTyped(ns);
    OneRead(h, ns[0]);
    var c := FileCall(Read(ns[0]), 0);
    RunFirst(h, c, Reads(ns[1..]));
    if k > 0 {
      ReadsEndAtEOF(FileStep(h, c.op, c.now).h, ns[1..], k - 1);
      TotalFirst(ns, k);
    }
  }

  lemma {:induction false} TotalFirst(ns: seq<nat>, k: nat)
    requires 0 < k <= |ns|
    ensures Total(ns[..k]) == ns[0] + Total(ns[1..][..k - 1])
  {
    assert ns[..k][1..] == ns[1..][..k - 1];
  }
}
