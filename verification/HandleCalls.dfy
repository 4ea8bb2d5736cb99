/** What each call on an open file comes to, said of the bytes, the position and the rules
    themselves. */
module HandleCalls {
  import opened Common
  import opened Paths
  import opened Files
  import opened Listing
  import opened Pagination
  import opened Nodes
  import opened Handles
  import Inj = Injector
  import Stats

  // ----- The error rules -----

  /** Read and ReadAt ask the rules for Read, Write and WriteAt those for Write. */
  predicate AsksFor(op: FileOp, k: Operation) {
    || (k == OpRead && (op.Read? || op.ReadAt?))
    || (k == OpWrite && (op.Write? || op.WriteAt?))
    || (k == OpSeek && op.Seek?)
    || (k == OpReadDir && op.ReadDir?)
    || (k == OpStat && op.Stat?)
    || (k == OpClose && op.Close?)
  }

  /** Refused before the rules are asked are all calls on a closed handle, ReadDir on a file, and
      WriteAt on a read-only handle. */
  predicate Asks<R(==)>(h: Handle<R>, op: FileOp) {
    !h.closed && (op.ReadDir? ==> h.node.mode.dir) && (op.WriteAt? ==> h.writeMode != ReadOnly)
  }

  lemma {:induction false} RefusedFirst<R>(h: Handle<R>, op: FileOp, now: int)
    requires ValidHandle(h) && Typed(op) && !Asks(h, op)
    ensures var s := FileStep(h, op, now);
      && s.h == h.(stats := s.h.stats)
      && s.answer == Failed(if h.closed then Closed else if op.ReadDir? then Invalid else Permission)
  {
  }

  /** An injected error reaches the caller; node, position and cursor are as they were, and only
      Close closes the handle all the same. The rules have counted on in any case. */
  lemma {:induction false} InjectedErrorReaches<R>(h: Handle<R>, op: FileOp, k: Operation, now: int)
    requires ValidHandle(h) && Typed(op) && AsksFor(op, k) && Asks(h, op)
    ensures var s, v := FileStep(h, op, now), Inj.Check(h.inj, k, h.name);
      && s.h.inj == h.inj.(ctr := v.ctr)
      && (v.err.Some? ==>
            && s.answer == Failed(v.err.value)
            && s.h == h.(inj := s.h.inj, closed := op.Close?, stats := s.h.stats))
  {
    assert Kind(op) == k;
  }

  // ----- What the calls come to when no rule fires -----

  predicate Unstopped<R(==)>(h: Handle<R>, op: FileOp, k: Operation) {
    && ValidHandle(h) && Typed(op) && AsksFor(op, k) && Asks(h, op)
    && Inj.Check(h.inj, k, h.name).err.None?
  }

  /** The step changes nothing but the node, the position and the counters. */
  ghost predicate Keeps<R>(h: Handle<R>, s: Stepped<R>) {
    s.h == h.(node := s.h.node, pos := s.h.pos, inj := s.h.inj, stats := s.h.stats)
  }

  /** Write appends and leaves the position, or replaces everything and goes to its end. */
  lemma {:induction false} WriteComesTo<R>(h: Handle<R>, b: seq<byte>, now: int)
    requires Unstopped(h, Write(b), OpWrite)
    ensures var s, data := FileStep(h, Write(b), now), h.node.data;
      && Keeps(h, s)
      && match h.writeMode
         case ReadOnly => s.answer == Failed(Permission) && s.h.node == h.node && s.h.pos == h.pos
         case Append =>
           if |data| + |b| <= MAX_INT then
             s.answer == Wrote(|b|) && s.h.node == Entry(h.node.mode, data + b, now) && s.h.pos == h.pos
           else s.answer == Panicked && s.h.node == h.node && s.h.pos == h.pos
         case Overwrite =>
           s.answer == Wrote(|b|) && s.h.node == Entry(h.node.mode, b, now) && s.h.pos == |b|
  {
  }

  /** ReadAt answers what is stored from off on, with EOF if that is less than was asked for. */
  lemma {:induction false} ReadAtComesTo<R>(h: Handle<R>, n: nat, off: int, now: int)
    requires Unstopped(h, ReadAt(n, off), OpRead)
    ensures var s, data := FileStep(h, ReadAt(n, off), now), h.node.data;
      && Keeps(h, s) && s.h.node == h.node && s.h.pos == h.pos
      && s.answer ==
         if off < 0 then Failed(NegativeOffset)
         else if off >= |data| then Got([], Some(EOF))
         else if off + n <= |data| then Got(data[off..off + n], None)
         else Got(data[off..], Some(EOF))
  {
  }

  /** Read answers at most n bytes from the position on and moves it behind them; EOF comes only
      when there are none. */
  lemma {:induction false} ReadComesTo<R>(h: Handle<R>, n: nat, now: int)
    requires Unstopped(h, Read(n), OpRead)
    ensures var s, data := FileStep(h, Read(n), now), h.node.data;
      && Keeps(h, s) && s.h.node == h.node
      && if h.pos >= |data| then s.answer == Got([], Some(EOF)) && s.h.pos == h.pos
         else if h.pos + n <= |data| then s.answer == Got(data[h.pos..h.pos + n], None) && s.h.pos == h.pos + n
         else s.answer == Got(data[h.pos..], None) && s.h.pos == |data|
  {
  }

  /** What WriteAt and Seek refuse. */
  lemma {:induction false} BadArguments<R>(h: Handle<R>, b: seq<byte>, off: int, whence: int, now: int)
    requires off < 0 && whence !in {0, 1, 2}
    ensures Unstopped(h, WriteAt(b, off), OpWrite) ==>
      var s := FileStep(h, WriteAt(b, off), now);
      s.answer == Failed(NegativeOffset) && Keeps(h, s) && s.h.node == h.node && s.h.pos == h.pos
    ensures Unstopped(h, Seek(off, whence), OpSeek) ==>
      var s := FileStep(h, Seek(off, whence), now);
      s.answer == Failed(Invalid) && Keeps(h, s) && s.h.node == h.node && s.h.pos == h.pos
  {
  }

  /** ReadDir hands out the listing from the cursor on: all the rest for n <= 0, else at most n.
      Without a cursor there is nothing to hand out. */
  lemma {:induction false} ReadDirComesTo<R>(h: Handle<R>, n: int, now: int)
    requires Unstopped(h, ReadDir(n), OpReadDir)
    ensures var s := FileStep(h, ReadDir(n), now);
      && s.h == h.(cursor := s.h.cursor, inj := s.h.inj, stats := s.h.stats)
      && match h.cursor
         case None => s.h.cursor.None? && s.answer == Listed(Page([], n > 0))
         case Some(Cursor(es, i)) =>
           if n <= 0 then s.answer == Listed(Page(es[i..], false)) && s.h.cursor == Some(Cursor(es, |es|))
           else if i == |es| then s.answer == Listed(Page([], true)) && s.h.cursor == h.cursor
           else if i + n > MAX_INT then s.answer == Listed(Panic) && s.h.cursor == h.cursor
           else if i + n < |es| then
             s.answer == Listed(Page(es[i..i + n], false)) && s.h.cursor == Some(Cursor(es, i + n))
           else s.answer == Listed(Page(es[i..], true)) && s.h.cursor == Some(Cursor(es, |es|))
  {
    if h.cursor.Some? { PageIs(h.cursor.value.entries, h.cursor.value.offset, n); }
  }

  /** Stat of a handle that was opened as the child c of d, or of the root; Close. */
  lemma {:induction false} StatComesTo<R>(h: Handle<R>, d: string, c: string, now: int)
    requires ValidPath(d) && (ValidElem(c) || (d == "." && c == ".")) && h.name == Child(d, c)
    requires Unstopped(h, Stat, OpStat)
    ensures var s := FileStep(h, Stat, now);
      && Keeps(h, s) && s.h.node == h.node && s.h.pos == h.pos
      && s.answer == Info(FileInfo(c, h.node.mode, h.node.mtime, if h.node.mode.dir then 0 else |h.node.data|))
  {
    if d == "." { NoSlashNoDir(c); } else { DirOfChild(d, c); }
  }

  lemma {:induction false} CloseComesTo<R>(h: Handle<R>, now: int)
    requires Unstopped(h, Close, OpClose)
    ensures var s := FileStep(h, Close, now);
      s.answer == Done && s.h == h.(closed := true, inj := s.h.inj, stats := s.h.stats)
  {
  }

  // ----- Runs of writes -----

  function Writes(bs: seq<seq<byte>>, now: int): (cs: seq<FileCall>)
    ensures |cs| == |bs|
  {
    if bs == [] then [] else [FileCall(Write(bs[0]), now)] + Writes(bs[1..], now)
  }

  function Concat(bs: seq<seq<byte>>): seq<byte> {
    if bs == [] then [] else bs[0] + Concat(bs[1..])
  }

  /** A handle to write to in the mode w, which no rule concerns. */
  predicate Writable<R(==)>(h: Handle<R>, w: WriteMode) {
    ValidHandle(h) && !h.closed && h.writeMode == w && Quiet(h, OpWrite)
  }

  lemma {:induction false} OneWriteMore<R>(h: Handle<R>, w: WriteMode, b: seq<byte>, now: int)
    requires Writable(h, w) && |b| <= MAX_INT
    ensures Unstopped(h, Write(b), OpWrite) && Writable(FileStep(h, Write(b), now).h, w)
  {
    Inj.QuietConsult(Inj.Cascade(h.inj, OpWrite), h.inj.attr, h.inj.ctr, h.name);
  }

  lemma {:induction false} WritesTyped(bs: seq<seq<byte>>, now: int)
    requires forall i :: 0 <= i < |bs| ==> |bs[i]| <= MAX_INT
    ensures AllTyped(Writes(bs, now))
  {
    if bs != [] { WritesTyped(bs[1..], now); }
  }

  lemma {:induction false} PartsFit(bs: seq<seq<byte>>)
    ensures forall i :: 0 <= i < |bs| ==> |bs[i]| <= |Concat(bs)|
  {
    if bs != [] { PartsFit(bs[1..]); }
  }

  /** What any writes leave is the old data and theirs, in order; the position has not moved. */
  ghost predicate AddsUp<R>(h: Handle<R>, bs: seq<seq<byte>>, r: Ran<R>) {
    && r.h.node.data == h.node.data + Concat(bs) && r.h.node.mode == h.node.mode && r.h.pos == h.pos
    && |r.answers| == |bs| && forall i :: 0 <= i < |bs| ==> r.answers[i] == Wrote(|bs[i]|)
  }

  lemma {:induction false} AddsUpFrom<R>(h: Handle<R>, s: Stepped<R>, b: seq<byte>, bs: seq<seq<byte>>, r: Ran<R>)
    requires s.answer == Wrote(|b|) && s.h.node.data == h.node.data + b
    requires s.h.node.mode == h.node.mode && s.h.pos == h.pos && AddsUp(s.h, bs, r)
    ensures AddsUp(h, [b] + bs, Ran(r.h, [s.answer] + r.answers))
  {
    assert ([b] + bs)[1..] == bs;
    assert (h.node.data + b) + Concat(bs) == h.node.data + (b + Concat(bs));
  }

  /** Appending handles add up. */
  lemma {:induction false} AppendsAddUp<R>(h: Handle<R>, bs: seq<seq<byte>>, now: int)
    requires Writable(h, Append) && |h.node.data| + |Concat(bs)| <= MAX_INT
    ensures AllTyped(Writes(bs, now)) && AddsUp(h, bs, FileRun(h, Writes(bs, now)))
    decreases |bs|
  {
    PartsFit(bs);
    WritesTyped(bs, now);
    if bs == [] {
      assert h.node.data + [] == h.node.data;
    } else {
      var s := FileStep(h, Write(bs[0]), now);
      OneWriteMore(h, Append, bs[0], now);
      WriteComesTo(h, bs[0], now);
      AppendsAddUp(s.h, bs[1..], now);
      RunFirst(h, FileCall(Write(bs[0]), now), Writes(bs[1..], now));
      AddsUpFrom(h, s, bs[0], bs[1..], FileRun(s.h, Writes(bs[1..], now)));
      assert [bs[0]] + bs[1..] == bs;
    }
  }

  /** Overwriting handles keep the last write only, and stand behind it. */
  lemma {:induction false} LastWriteStays<R>(h: Handle<R>, bs: seq<seq<byte>>, b: seq<byte>, now: int)
    requires Writable(h, Overwrite) && |b| <= MAX_INT && forall i :: 0 <= i < |bs| ==> |bs[i]| <= MAX_INT
    ensures AllTyped(Writes(bs + [b], now))
    ensures var r := FileRun(h, Writes(bs + [b], now));
      r.h.node == Entry(h.node.mode, b, now) && r.h.pos == |b|
    decreases |bs|
  {
    WritesTyped(bs + [b], now);
    if bs == [] {
      OneWriteMore(h, Overwrite, b, now);
      WriteComesTo(h, b, now);
      RunFirst(h, FileCall(Write(b), now), []);
      assert Writes([b], now) == [FileCall(Write(b), now)] + [] && [] + [b] == [b];
    } else {
      OneWriteMore(h, Overwrite, bs[0], now);
      WriteComesTo(h, bs[0], now);
      LastWriteStays(FileStep(h, Write(bs[0]), now).h, bs[1..], b, now);
      RunFirst(h, FileCall(Write(bs[0]), now), Writes(bs[1..] + [b], now));
      assert (bs + [b])[1..] == bs[1..] + [b];
    }
  }

  // ----- Statistics -----

  lemma {:induction false} AnswerFits<R>(h: Handle<R>, op: FileOp, k: Operation, now: int)
    requires ValidHandle(h) && Typed(op) && AsksFor(op, k)
    ensures Kind(op) == k && Act(h, op, now).h.stats == h.stats
    ensures Act(h, op, now).answer.Got? ==> k == OpRead
    ensures Act(h, op, now).answer.Wrote? ==> k == OpWrite
  {
  }

  /** Whatever it comes to, a call counts once for its kind, as a failure if its answer holds an
      error, and with the bytes that were read or written. */
  lemma {:induction false} CallCounts<R>(h: Handle<R>, op: FileOp, k: Operation, now: int)
    requires ValidHandle(h) && Typed(op) && AsksFor(op, k)
    ensures var s := FileStep(h, op, now); var was, after := h.stats, s.h.stats;
      var error := s.answer.Failed? || (s.answer.Got? && s.answer.readErr.Some?)
                   || (s.answer.Listed? && s.answer.page.Page? && s.answer.page.eof);
      var read := if s.answer.Got? then |s.answer.bytes| else 0;
      var wrote := if s.answer.Wrote? then s.answer.n else 0;
      && after.ops == was.ops[k := Stats.OpCount((was.ops[k].total + 1) % TWO_64,
                                  if error then (was.ops[k].failure + 1) % TWO_64 else was.ops[k].failure)]
      && after.bytesRead == (was.bytesRead + read) % TWO_64
      && after.bytesWritten == (was.bytesWritten + wrote) % TWO_64
  {
    AnswerFits(h, op, k, now);
    var a := FileStep(h, op, now).answer;
    Stats.RecordedCounts(h.stats, k, if a.Got? then |a.bytes| else 0, if a.Wrote? then a.n else 0, Fails(a));
  }
}
