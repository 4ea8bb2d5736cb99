/** Opening files, and reading them whole. */
module OpenFiles {
  import opened Common
  import opened Paths
  import opened Files
  import opened Listing
  import opened Pagination
  import opened FsMachine
  import H = Handles
  import M = MockFile
  import F = MockFS
  import Inj = Injector
  import Stats

  // ----- io.ReadAll on a handle -----

  function BufferSize(chunk: nat -> nat, n: nat): (k: nat)
    ensures 0 < k <= MAX_INT
  {
    if chunk(n) == 0 then 1 else if chunk(n) > MAX_INT then MAX_INT else chunk(n)
  }

  /** What one Read, from pos to pos', leaves io.ReadAll to do. */
  ghost predicate Resumes<R>(data: seq<byte>, name: string, chunk: nat -> nat,
                             inj: Inj.Injector<R>, pos: int, inj': Inj.Injector<R>, pos': int, a: H.Answer)
  {
    && Inj.ValidInjector(inj) && Inj.ValidInjector(inj') && 0 <= pos <= pos' <= |data|
    && var whole := ReadAll(inj, name, data, pos, chunk);
       match a
       case Failed(e) => whole == AllRead(data[..pos], if e == EOF then None else Some(e), inj')
       case Got(bytes, None) =>
         pos < pos' && bytes == data[pos..pos'] && whole == ReadAll(inj', name, data, pos', chunk)
       case Got(_, Some(_)) => whole == AllRead(data[..pos], None, inj')
       case _ => false
  }

  lemma {:induction false} ReadCases<R>(h: H.Handle<R>, n: nat)
    requires H.ValidHandle(h) && !h.closed && n <= MAX_INT
    ensures var s := H.FileStep(h, H.Read(n), 0); var v := Inj.Check(h.inj, OpRead, h.name);
      && !s.h.closed && s.h.inj == Inj.After(h.inj, v)
      && (v.err.Some? ==> s.answer == H.Failed(v.err.value) && s.h.pos == h.pos)
      && (v.err.None? && h.pos >= |h.node.data| ==> s.answer == H.Got([], Some(EOF)) && s.h.pos == h.pos)
      && (v.err.None? && h.pos < |h.node.data| ==>
            && s.h.pos == h.pos + H.Min(n, |h.node.data| - h.pos)
            && s.answer == H.Got(h.node.data[h.pos..s.h.pos], None))
  {
  }

  lemma {:induction false} ResumesFrom<R>(
      data: seq<byte>, name: string, chunk: nat -> nat, inj: Inj.Injector<R>, pos: nat, pos': nat, a: H.Answer)
    requires Inj.ValidInjector(inj) && pos <= |data|
    requires var v := Inj.Check(inj, OpRead, name);
      if v.err.Some? then a == H.Failed(v.err.value) && pos' == pos
      else if pos == |data| then a == H.Got([], Some(EOF)) && pos' == pos
      else pos' == pos + ReadSize(chunk, pos, |data| - pos) && a == H.Got(data[pos..pos'], None)
    ensures Resumes(data, name, chunk, inj, pos, Inj.After(inj, Inj.Check(inj, OpRead, name)), pos', a)
  {
    assert data[..|data|] == data;
  }

  lemma {:induction false} ReadAllStep<R>(h: H.Handle<R>, chunk: nat -> nat)
    requires H.ValidHandle(h) && !h.closed && h.pos <= |h.node.data|
    ensures var s := H.FileStep(h, H.Read(BufferSize(chunk, h.pos)), 0);
      !s.h.closed && Resumes(h.node.data, h.name, chunk, h.inj, h.pos, s.h.inj, s.h.pos, s.answer)
  {
    var n := BufferSize(chunk, h.pos);
    ReadCases(h, n);
    if h.pos < |h.node.data| {
      assert ReadSize(chunk, h.pos, |h.node.data| - h.pos) == H.Min(n, |h.node.data| - h.pos);
    }
    var s := H.FileStep(h, H.Read(n), 0);
    ResumesFrom(h.node.data, h.name, chunk, h.inj, h.pos, s.h.pos, s.answer);
  }

  method ReadOnce(f: M.MockFile, chunk: nat -> nat) returns (a: H.Answer)
    requires f.Valid() && !f.closed && f.position <= f.node.len
    modifies f`position, f.injector.rules, f.stats, f.stats.ops
    ensures f.Valid() && !f.closed
    ensures Resumes(f.node.Data(), f.name, chunk,
                    old(f.injector.View()), old(f.position), f.injector.View(), f.position, a)
  {
    ghost var h := f.View();
    ReadAllStep(h, chunk);
    var b := new byte[BufferSize(chunk, f.position)];
    f.Framed();
    a := f.Read(b);
  }

  /** io.ReadAll: buffers of the sizes that chunk gives, until EOF or another error. */
  method ReadAllOf(f: M.MockFile, chunk: nat -> nat) returns (data: seq<byte>, err: Option<Error>)
    requires f.Valid() && !f.closed && f.position == 0
    modifies f`position, f.injector.rules, f.stats, f.stats.ops
    ensures f.Valid() && !f.closed
    ensures AllRead(data, err, f.injector.View()) ==
      ReadAll(old(f.injector.View()), f.name, f.node.Data(), 0, chunk)
  {
    ghost var d := f.node.Data();
    ghost var whole := ReadAll(f.injector.View(), f.name, d, 0, chunk);
    data := [];
    while true
      invariant f.Valid() && !f.closed && f.position <= |d| && d == f.node.Data()
      invariant data == d[..f.position]
      invariant whole == ReadAll(f.injector.View(), f.name, d, f.position, chunk)
      decreases |d| - f.position
    {
      ghost var pos := f.position;
      var a := ReadOnce(f, chunk);
      match a
      case Failed(e) =>
        return data, if e == EOF then None else Some(e);
      case Got(bytes, readErr) =>
        if readErr.Some? {
          return data, None;
        }
        assert d[..pos] + d[pos..f.position] == d[..f.position];
        data := data + bytes;
    }
  }

  // ----- Open -----

  /** Everything is within what a machine can hold. */
  ghost predicate Fits(m: F.MockFS, name: string)
    requires m.Valid()
    reads m, m.files, m.files.nodes.Keys, m.files.buffers.Keys, m.injector, m.stats, m.stats.ops
  {
    name in m.files.at ==> m.files.at[name].len <= MAX_INT && |DirListing(m.files.Contents(), name)| <= MAX_INT
  }

  /** The handle of a file that is there, with a sorted listing for a directory. */
  method NewHandle(m: F.MockFS, name: string) returns (f: M.MockFile)
    requires m.Valid() && name in m.files.at && Fits(m, name)
    ensures fresh(f) && fresh(f.stats) && fresh(f.stats.ops) && fresh(f.CursorObjects()) && f.Valid()
    ensures f.node == m.files.at[name] && f.injector == m.injector && f.name == name && f.writeMode == m.writeMode
    ensures f.position == 0 && !f.closed && f.stats.View() == Stats.Zero
    ensures f.CursorView() ==
      if m.files.at[name].mode.dir then Some(H.Cursor(DirListing(old(m.files.Contents()), name), 0)) else None
  {
    if m.files.at[name].mode.dir {
      var entries := m.List(name);
      m.files.Framed();
      var cursor := new FsCursor(entries);
      f := new M.MockFile(m.files.at[name], name, m.writeMode, m.injector, M.FsHandler(cursor));
    } else {
      f := new M.MockFile(m.files.at[name], name, m.writeMode, m.injector, M.NoHandler);
    }
  }

  /** A handle that Open made: at the start of the node's data, sharing the filesystem's
      error rules, with statistics of its own. */
  ghost predicate IsOpen(m: F.MockFS, name: string, f: M.MockFile)
    reads m, m.files, f, f.node, f.node.buf, f.CursorObjects(), f.stats, f.stats.ops, f.injector
  {
    && name in m.files.at && f.node == m.files.at[name] && f.name == name && f.writeMode == m.writeMode
    && f.injector == m.injector && f.Valid() && f.position == 0 && !f.closed && f.stats.View() == Stats.Zero
  }

  method RecordOpen(m: F.MockFS, ghost name: string)
    requires m.Valid() && Fits(m, name)
    modifies m.stats, m.stats.ops
    ensures m.Valid() && m.View() == Recorded(old(m.View()), OpOpen, 0, false) && Fits(m, name)
  {
    m.Record(OpOpen, 0, false);
    m.files.Framed();
  }

  /** Open of a file that is there, recorded. */
  method Reach(m: F.MockFS, name: string) returns (f: M.MockFile)
    requires m.Valid() && Fits(m, name) && name in m.files.at
    modifies m.stats, m.stats.ops
    ensures m.Valid() && m.View() == Recorded(old(m.View()), OpOpen, 0, false)
    ensures fresh(f) && fresh(f.stats) && fresh(f.stats.ops) && fresh(f.CursorObjects()) && IsOpen(m, name, f)
    ensures f.CursorView() ==
      if m.files.at[name].mode.dir then Some(H.Cursor(DirListing(old(m.files.Contents()), name), 0)) else None
  {
    RecordOpen(m, name);
    label recorded:
    f := NewHandle(m, name);
    m.Beside@recorded();
    m.files.Framed@recorded();
  }

  method Open(m: F.MockFS, name: string) returns (err: Option<Error>, f: M.MockFile?)
    requires m.Valid() && Fits(m, name)
    modifies m.injector.rules, m.stats, m.stats.ops
    ensures m.Valid()
    ensures err == if ValidPath(name) then OpenErr(old(m.View()), name) else Some(Invalid)
    ensures m.View() ==
      if ValidPath(name) then Opened(old(m.View()), name) else Recorded(old(m.View()), OpOpen, 0, true)
    ensures err.None? ==>
      && f != null && fresh(f) && fresh(f.stats) && fresh(f.stats.ops) && fresh(f.CursorObjects()) && IsOpen(m, name, f)
      && f.CursorView() ==
           if m.files.at[name].mode.dir then Some(H.Cursor(DirListing(old(m.files.Contents()), name), 0)) else None
  {
    f := null;
    err := m.Enter(OpOpen, name, ValidPath(name));
    m.files.Framed();
    if err.None? {
      if name in m.files.at {
        f := Reach(m, name);
        return;
      }
      err := Some(NotExist);
    }
    m.Record(OpOpen, 0, true);
  }

  // ----- ReadFile -----

  lemma {:induction false} CloseCases<R>(h: H.Handle<R>)
    requires H.ValidHandle(h) && !h.closed
    ensures var s := H.FileStep(h, H.Close, 0); var v := Inj.Check(h.inj, OpClose, h.name);
      s.h.inj == Inj.After(h.inj, v) && s.answer == if v.err.Some? then H.Failed(v.err.value) else H.Done
  {
  }

  /** Read everything and close. */
  method Drain(f: M.MockFile, chunk: nat -> nat)
    returns (data: seq<byte>, readErr: Option<Error>, closeErr: Option<Error>)
    requires f.Valid() && !f.closed && f.position == 0
    modifies f`position, f`closed, f.injector.rules, f.stats, f.stats.ops
    ensures f.injector.Valid()
    ensures var a := ReadAll(old(f.injector.View()), f.name, old(f.node.Data()), 0, chunk);
      var v := Inj.Check(a.inj, OpClose, f.name);
      data == a.data && readErr == a.err && closeErr == v.err && f.injector.View() == Inj.After(a.inj, v)
  {
    data, readErr := ReadAllOf(f, chunk);
    CloseCases(f.View());
    var c := f.Close();
    closeErr := if c.Failed? then Some(c.err) else None;
  }

  /** What reading an opened file does to the filesystem: only its rules count on. */
  method DrainFor(m: F.MockFS, name: string, f: M.MockFile, chunk: nat -> nat)
    returns (data: seq<byte>, readErr: Option<Error>, closeErr: Option<Error>)
    requires m.Valid() && IsOpen(m, name, f) && f.stats != m.stats && f.stats.ops != m.stats.ops
    modifies f`position, f`closed, m.injector.rules, f.stats, f.stats.ops
    ensures m.Valid()
    ensures var a := ReadAll(old(m.View()).inj, name, old(m.View()).files[name].data, 0, chunk);
      var v := Inj.Check(a.inj, OpClose, name);
      && data == a.data && readErr == a.err && closeErr == v.err
      && m.View() == old(m.View()).(inj := Inj.After(a.inj, v))
  {
    data, readErr, closeErr := Drain(f, chunk);
    m.files.Framed();
    m.StatsKept();
  }

  method ReadFile(m: F.MockFS, name: string, chunk: nat -> nat) returns (out: Outcome)
    requires m.Valid() && Fits(m, name)
    modifies m.injector.rules, m.stats, m.stats.ops
    ensures m.Valid() && Stepped(m.View(), out) == ReadFileStep(old(m.View()), name, chunk)
  {
    if !ValidPath(name) {
      return Failed(Invalid);
    }
    var err, f := Open(m, name);
    if err.Some? {
      return Failed(err.value);
    }
    var data, readErr, closeErr := DrainFor(m, name, f, chunk);
    return Content(data, JoinErrors(readErr, closeErr));
  }
}
