/** The open file as an object: every method refines one step of the handle machine. */
module MockFile {
  import opened Common
  import opened Paths
  import opened Files
  import opened Nodes
  import opened Listing
  import opened Pagination
  import opened Handles
  import opened ErrorRules
  import Inj = Injector
  import Stats

  /** The ReadDir handler of a directory. */
  datatype Handler = NoHandler | FsHandler(fs: FsCursor) | StaticHandler(st: StaticCursor)

  class MockFile {
    const node: MapFile
    const name: string
    const writeMode: WriteMode
    const handler: Handler
    const injector: ErrorInjector
    const stats: Stats.StatsRecorder
    var position: int
    var closed: bool

    ghost function CursorObjects(): set<object> {
      if handler.FsHandler? then {handler.fs} else if handler.StaticHandler? then {handler.st} else {}
    }

    ghost predicate ValidCursor()
      reads CursorObjects()
    {
      (handler.FsHandler? ==> handler.fs.Valid()) && (handler.StaticHandler? ==> handler.st.Valid())
    }

    ghost function CursorView(): Option<Cursor>
      requires ValidCursor()
      reads CursorObjects()
    {
      if handler.FsHandler? then Some(Cursor(handler.fs.entries, handler.fs.offset))
      else if handler.StaticHandler? then Some(Cursor(handler.st.entries, handler.st.offset))
      else None
    }

    ghost predicate Valid()
      reads this, node, node.buf, CursorObjects(), stats, stats.ops, injector
    {
      && node.Valid() && node.len <= MAX_INT && 0 <= position <= MAX_INT
      && ValidCursor() && stats.Valid() && injector.Valid()
    }

    ghost function View(): (h: Handle<ErrorRule>)
      requires Valid()
      reads this, node, node.buf, CursorObjects(), stats, stats.ops, injector, injector.rules
      ensures ValidHandle(h)
    {
      Handle(node.AsEntry(), name, position, closed, writeMode, CursorView(), injector.View(), stats.View())
    }

    /** What happens elsewhere leaves the handle alone. */
    twostate lemma {:induction false} Framed()
      requires old(Valid()) && unchanged(this) && unchanged(node) && unchanged(node.buf)
      requires forall o :: o in CursorObjects() ==> unchanged(o)
      requires unchanged(stats) && unchanged(stats.ops) && unchanged(injector)
      requires forall r :: r in old(injector.rules) ==> unchanged(r)
      ensures Valid() && View() == old(View())
    {
    }

    /** newMockFile with a new recorder, as Open calls it. */
    constructor (node: MapFile, name: string, writeMode: WriteMode, injector: ErrorInjector, handler: Handler)
      requires node.Valid() && node.len <= MAX_INT && injector.Valid()
      requires handler.FsHandler? ==> handler.fs.Valid()
      requires handler.StaticHandler? ==> handler.st.Valid()
      ensures Valid() && this.node == node && this.injector == injector && this.handler == handler
      ensures fresh(stats) && fresh(stats.ops)
      ensures View() == Handle(node.AsEntry(), name, 0, false, writeMode, CursorView(), injector.View(), Stats.Zero)
    {
      this.node, this.name, this.writeMode, this.injector, this.handler := node, name, writeMode, injector, handler;
      position, closed := 0, false;
      stats := new Stats.StatsRecorder();
    }

    /** The error rules, asked on behalf of this file. */
    method Inject(k: Operation) returns (err: Option<Error>)
      requires Valid()
      modifies injector.rules
      ensures Valid() && err == Inj.Check(old(View()).inj, k, name).err
      ensures View() == old(View()).(inj := Inj.After(old(View()).inj, Inj.Check(old(View()).inj, k, name)))
    {
      err := injector.CheckAndApply(k, name);
    }

    /** The deferred Record, after the operation has come to the answer a. */
    method Record(op: FileOp, a: Answer)
      requires Valid()
      modifies stats, stats.ops
      ensures Valid() && View() == Recorded(old(View()), op, a)
    {
      stats.Record(Kind(op), Transferred(a), Fails(a));
    }

    /** copy(b, Data[off:]). */
    method Copy(b: array<byte>, off: nat) returns (n: nat)
      requires Valid() && b != node.buf && off <= node.len
      modifies b
      ensures n == Min(b.Length, node.len - off)
      ensures b[..n] == node.Data()[off..off + n] && b[n..] == old(b[..])[n..]
    {
      n := if b.Length < node.len - off then b.Length else node.len - off;
      var from := node.buf;
      forall i | 0 <= i < n { b[i] := from[off + i]; }
      assert b[..n] == from[off..off + n];
      assert from[off..off + n] == from[..node.len][off..off + n];
    }

    // ----- What each operation does once nothing stops it -----

    method DoRead(b: array<byte>) returns (a: Answer)
      requires Valid() && b != node.buf && b.Length <= MAX_INT
      modifies `position, b
      ensures Valid() && Stepped(View(), a) == Effect(old(View()), FileOp.Read(b.Length), 0)
      ensures a.Got? && |a.bytes| <= b.Length && b[..] == a.bytes + old(b[..])[|a.bytes|..]
    {
      if position >= node.len {
        return Got([], Some(EOF));
      }
      var n := Copy(b, position);
      a := Got(b[..n], None);
      position := position + n;
      assert b[..] == b[..n] + b[n..];
    }

    method DoReadAt(b: array<byte>, off: int) returns (a: Answer)
      requires Valid() && b != node.buf && b.Length <= MAX_INT && IsInt64(off)
      modifies b
      ensures Valid() && Stepped(View(), a) == Effect(old(View()), FileOp.ReadAt(b.Length, off), 0)
      ensures if a.Got? then |a.bytes| <= b.Length && b[..] == a.bytes + old(b[..])[|a.bytes|..]
              else b[..] == old(b[..])
    {
      if off < 0 {
        return Failed(NegativeOffset);
      }
      if off >= node.len {
        return Got([], Some(EOF));
      }
      var n := Copy(b, off);
      a := Got(b[..n], if n < b.Length then Some(EOF) else None);
      assert b[..] == b[..n] + b[n..];
    }

    method DoAppend(b: seq<byte>, now: int) returns (a: Answer)
      requires Valid() && |b| <= MAX_INT && writeMode == Append
      modifies node, node.buf
      ensures Valid() && Stepped(View(), a) == WriteEffect(old(View()), b, now)
      ensures node.buf == old(node.buf) || fresh(node.buf)
    {
      if node.len + |b| > MAX_INT {
        return Panicked;
      }
      node.Append(b);
      node.Touch(now);
      return Wrote(|b|);
    }

    method ReplaceNode(b: seq<byte>, now: int)
      requires Valid() && |b| <= MAX_INT
      modifies node
      ensures Valid() && fresh(node.buf) && View() == Touched(old(View()), b, now)
    {
      node.Replace(b);
      node.Touch(now);
    }

    method DoOverwrite(b: seq<byte>, now: int) returns (a: Answer)
      requires Valid() && |b| <= MAX_INT && writeMode == Overwrite
      modifies `position, node
      ensures Valid() && Stepped(View(), a) == WriteEffect(old(View()), b, now)
      ensures fresh(node.buf)
    {
      ReplaceNode(b, now);
      position := |b|;
      return Wrote(|b|);
    }

    method DoWrite(b: seq<byte>, now: int) returns (a: Answer)
      requires Valid() && |b| <= MAX_INT
      modifies `position, node, node.buf
      ensures Valid() && Stepped(View(), a) == Effect(old(View()), FileOp.Write(b), now)
      ensures node.buf == old(node.buf) || fresh(node.buf)
    {
      match writeMode
      case ReadOnly =>
        a := Failed(Permission);
      case Append =>
        a := DoAppend(b, now);
      case Overwrite =>
        a := DoOverwrite(b, now);
    }

    method DoWriteAt(b: seq<byte>, off: int, now: int) returns (a: Answer)
      requires Valid() && |b| <= MAX_INT && IsInt64(off)
      modifies node, node.buf
      ensures Valid() && Stepped(View(), a) == WriteAtEffect(old(View()), b, off, now)
      ensures node.buf == old(node.buf) || fresh(node.buf)
    {
      if off < 0 {
        return Failed(NegativeOffset);
      }
      var n := node.PutAt(b, off, now);
      if n.None? {
        return Panicked;
      }
      return Wrote(n.value);
    }

    method DoSeek(offset: int, whence: int) returns (a: Answer)
      requires Valid() && IsInt64(offset)
      modifies `position
      ensures Valid() && Stepped(View(), a) == SeekEffect(old(View()), offset, whence)
    {
      var n := 0;
      if whence == SeekStart {
        n := offset;
      } else if whence == SeekCurrent {
        n := Wrap64(position + offset);
      } else if whence == SeekEnd {
        n := Wrap64(node.len + offset);
      } else {
        return Failed(Invalid);
      }
      if n < 0 {
        return Failed(Invalid);
      }
      position := n;
      assert View() == old(View()).(pos := n);
      return Sought(n);
    }

    method DoReadDir(n: int) returns (a: Answer)
      requires Valid() && IsInt64(n)
      modifies CursorObjects()
      ensures Valid() && Stepped(View(), a) == Effect(old(View()), FileOp.ReadDir(n), 0)
    {
      match handler
      case NoHandler =>
        return Listed(Page([], n > 0));
      case FsHandler(c) =>
        var p := c.Next(n);
        return Listed(p);
      case StaticHandler(c) =>
        var p := c.Next(n);
        return Listed(p);
    }

    method MarkClosed()
      requires Valid()
      modifies `closed
      ensures Valid() && View() == old(View()).(closed := true)
    {
      closed := true;
    }

    // ----- The operations -----

    method Read(b: array<byte>) returns (a: Answer)
      requires Valid() && b != node.buf && b.Length <= MAX_INT
      modifies `position, b, injector.rules, stats, stats.ops
      ensures Valid() && Stepped(View(), a) == FileStep(old(View()), FileOp.Read(b.Length), 0)
      ensures if a.Got? then |a.bytes| <= b.Length && b[..] == a.bytes + old(b[..])[|a.bytes|..]
              else b[..] == old(b[..])
    {
      ghost var h := View();
      if closed {
        a := Failed(Closed);
      } else {
        var err := Inject(OpRead);
        if err.Some? {
          a := Failed(err.value);
        } else {
          a := DoRead(b);
        }
      }
      assert Stepped(View(), a) == Act(h, FileOp.Read(b.Length), 0);
      Record(FileOp.Read(b.Length), a);
    }

    method ReadAt(b: array<byte>, off: int) returns (a: Answer)
      requires Valid() && b != node.buf && b.Length <= MAX_INT && IsInt64(off)
      modifies b, injector.rules, stats, stats.ops
      ensures Valid() && Stepped(View(), a) == FileStep(old(View()), FileOp.ReadAt(b.Length, off), 0)
      ensures if a.Got? then |a.bytes| <= b.Length && b[..] == a.bytes + old(b[..])[|a.bytes|..]
              else b[..] == old(b[..])
    {
      ghost var h := View();
      if closed {
        a := Failed(Closed);
      } else {
        var err := Inject(OpRead);
        if err.Some? {
          a := Failed(err.value);
        } else {
          a := DoReadAt(b, off);
        }
      }
      assert Stepped(View(), a) == Act(h, FileOp.ReadAt(b.Length, off), 0);
      Record(FileOp.ReadAt(b.Length, off), a);
    }

    method Write(b: seq<byte>, now: int) returns (a: Answer)
      requires Valid() && |b| <= MAX_INT
      modifies `position, node, node.buf, injector.rules, stats, stats.ops
      ensures Valid() && Stepped(View(), a) == FileStep(old(View()), FileOp.Write(b), now)
      ensures node.buf == old(node.buf) || fresh(node.buf)
    {
      ghost var h := View();
      if closed {
        a := Failed(Closed);
      } else {
        var err := Inject(OpWrite);
        if err.Some? {
          a := Failed(err.value);
        } else {
          a := DoWrite(b, now);
        }
      }
      assert Stepped(View(), a) == Act(h, FileOp.Write(b), now);
      Record(FileOp.Write(b), a);
    }

    method WriteAt(b: seq<byte>, off: int, now: int) returns (a: Answer)
      requires Valid() && |b| <= MAX_INT && IsInt64(off)
      modifies node, node.buf, injector.rules, stats, stats.ops
      ensures Valid() && Stepped(View(), a) == FileStep(old(View()), FileOp.WriteAt(b, off), now)
      ensures node.buf == old(node.buf) || fresh(node.buf)
    {
      ghost var h := View();
      if closed {
        a := Failed(Closed);
      } else if writeMode == ReadOnly {
        a := Failed(Permission);
      } else {
        var err := Inject(OpWrite);
        if err.Some? {
          a := Failed(err.value);
        } else {
          a := DoWriteAt(b, off, now);
        }
      }
      assert Stepped(View(), a) == Act(h, FileOp.WriteAt(b, off), now);
      Record(FileOp.WriteAt(b, off), a);
    }

    method Seek(offset: int, whence: int) returns (a: Answer)
      requires Valid() && IsInt64(offset)
      modifies `position, injector.rules, stats, stats.ops
      ensures Valid() && Stepped(View(), a) == FileStep(old(View()), FileOp.Seek(offset, whence), 0)
    {
      ghost var h := View();
      if closed {
        a := Failed(Closed);
      } else {
        var err := Inject(OpSeek);
        if err.Some? {
          a := Failed(err.value);
        } else {
          a := DoSeek(offset, whence);
        }
      }
      assert Stepped(View(), a) == Act(h, FileOp.Seek(offset, whence), 0);
      Record(FileOp.Seek(offset, whence), a);
    }

    method ReadDir(n: int) returns (a: Answer)
      requires Valid() && IsInt64(n)
      modifies CursorObjects(), injector.rules, stats, stats.ops
      ensures Valid() && Stepped(View(), a) == FileStep(old(View()), FileOp.ReadDir(n), 0)
    {
      ghost var h := View();
      if closed {
        a := Failed(Closed);
      } else if !node.mode.dir {
        a := Failed(Invalid);
      } else {
        var err := Inject(OpReadDir);
        if err.Some? {
          a := Failed(err.value);
        } else {
          a := DoReadDir(n);
        }
      }
      assert Stepped(View(), a) == Act(h, FileOp.ReadDir(n), 0);
      Record(FileOp.ReadDir(n), a);
    }

    method Stat() returns (a: Answer)
      requires Valid()
      modifies injector.rules, stats, stats.ops
      ensures Valid() && Stepped(View(), a) == FileStep(old(View()), FileOp.Stat, 0)
    {
      ghost var h := View();
      if closed {
        a := Failed(Closed);
      } else {
        var err := Inject(OpStat);
        if err.Some? {
          a := Failed(err.value);
        } else {
          a := Info(FileInfo(Base(name), node.mode, node.mtime, if node.mode.dir then 0 else node.len));
        }
      }
      assert Stepped(View(), a) == Act(h, FileOp.Stat, 0);
      Record(FileOp.Stat, a);
    }

    method Close() returns (a: Answer)
      requires Valid()
      modifies `closed, injector.rules, stats, stats.ops
      ensures Valid() && Stepped(View(), a) == FileStep(old(View()), FileOp.Close, 0)
    {
      ghost var h := View();
      if closed {
        a := Failed(Closed);
      } else {
        var err := Inject(OpClose);
        MarkClosed();
        a := if err.Some? then Failed(err.value) else Done;
      }
      assert Stepped(View(), a) == Act(h, FileOp.Close, 0);
      Record(FileOp.Close, a);
    }
  }
}
