/** The File and Dir options, applied to a new filesystem one after the other. */
module Options {
  import opened Paths
  import opened Files
  import opened MockFS
  import B = Builder
  import Stats

  /** Apply the options in the context that buildCtx names. The context is restored, also
      when an option fails. */
  method ApplyAll(m: MockFS, ns: seq<B.Node>, now: int) returns (ok: bool)
    requires m.files.Valid()
    modifies m`buildCtx, m.files
    ensures m.files.Valid() && m.files.Stays() && m.buildCtx == old(m.buildCtx)
    ensures var r := B.BuildAll(old(m.files.Contents()), m.buildCtx, ns, now);
      ok == r.Some? && (ok ==> m.files.Contents() == r.value)
    decreases ns, 0
  {
    for i := 0 to |ns|
      invariant m.files.Valid() && m.files.Stays() && m.buildCtx == old(m.buildCtx)
      invariant B.BuildAll(old(m.files.Contents()), m.buildCtx, ns, now) ==
        B.BuildAll(m.files.Contents(), m.buildCtx, ns[i..], now)
    {
      assert ns[i..][1..] == ns[i + 1..];
      var done := ApplyOne(m, ns[i], now);
      if !done {
        return false;
      }
    }
    return true;
  }

  method SetContext(m: MockFS, ctx: string)
    requires m.files.Valid()
    modifies m`buildCtx
    ensures m.buildCtx == ctx && m.files.Valid() && m.files.Contents() == old(m.files.Contents())
  {
    m.buildCtx := ctx;
    m.files.Framed();
  }

  method ApplyOne(m: MockFS, n: B.Node, now: int) returns (ok: bool)
    requires m.files.Valid()
    modifies m`buildCtx, m.files
    ensures m.files.Valid() && m.files.Stays() && m.buildCtx == old(m.buildCtx)
    ensures var r := B.BuildOne(old(m.files.Contents()), m.buildCtx, n, now);
      ok == r.Some? && (ok ==> m.files.Contents() == r.value)
    decreases n, 1
  {
    if !ValidElem(n.name) {
      return false;
    }
    var callerCtx := m.buildCtx;
    var path := if callerCtx == "." then n.name else callerCtx + "/" + n.name;
    match n
    case FileNode(_, data, mode) =>
      m.Store(path, data, FileMode(mode), now);
      return true;
    case DirNode(_, mode, children) =>
      m.Store(path, [], DirMode(mode), now);
      SetContext(m, path);
      ok := ApplyAll(m, children, now);
      SetContext(m, callerCtx);
  }

  /** NewMockFS with File and Dir options. */
  method NewMockFS(ns: seq<B.Node>, now: int) returns (ok: bool, m: MockFS)
    ensures ok == B.BuildAll(B.EmptyFs(now), ".", ns, now).Some?
    ensures ok ==>
      m.files.Valid() && m.files.Contents() == B.BuildAll(B.EmptyFs(now), ".", ns, now).value && m.buildCtx == "."
    ensures fresh(m) && fresh(m.files) && fresh(m.files.nodes.Keys) && fresh(m.files.buffers.Keys)
    ensures m.Valid() && fresh(m.injector) && m.injector.rules == {} && fresh(m.stats) && fresh(m.stats.ops)
    ensures m.writeMode == Overwrite && !m.create && m.injector.configs == map[] && m.stats.View() == Stats.Zero
  {
    m := new MockFS(now);
    ok := ApplyAll(m, ns, now);
    assert forall n :: n in m.files.nodes.Keys ==> fresh(n);
    assert forall b :: b in m.files.buffers.Keys ==> fresh(b);
  }
}
