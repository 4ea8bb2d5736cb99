/** Filesystems, sub-filesystems and open handles used together, over whole runs: who owns
    which node and which buffer, and what a write through a handle can reach. */
module Sessions {
  import opened Common
  import opened Files
  import opened Nodes
  import opened FileMaps
  import opened MockFS
  import Fs = FsMachine
  import H = Handles
  import M = MockFile
  import O = OpenFiles
  import Sub = SubObjects
  import B = Builder
  import Options
  import Inj = Injector
  import Matchers
  import R = ErrorRules
  import OrphanRuns
  import SubRuns

  // ----- One operation of a filesystem, whichever it is -----

  /** What the machine can hold: io.ReadAll and a paged listing count in int. */
  method FitsInt(m: MockFS, name: string) returns (fits: bool)
    requires m.Valid()
    ensures fits ==> O.Fits(m, name)
  {
    if name in m.files.at && m.files.at[name].len <= MAX_INT {
      var es := m.List(name);
      return |es| <= MAX_INT;
    }
    return name !in m.files.at;
  }

  /** The paths at which an operation can put, replace or take away something. */
  ghost function Touched(op: Fs.Op): iset<string> {
    match op
    case AddFile(p, _, _) => iset{p}
    case Remove(p) => iset{p}
    case RemoveEntry(p) => TreeOf(p)
    case RemoveAll(p) => TreeOf(p)
    case Rename(p, to) => TreeOf(p) + TreeOf(to)
    case _ => iset{}
  }

  /** Those at which it does when it succeeds. */
  ghost function Taken(t: Files, op: Fs.Op): iset<string> {
    match op
    case Rename(p, to) => Displaced(t, p, to)
    case _ => Touched(op)
  }

  /** From v to v' is one step of the machine; only a ReadFile of more than the machine can
      hold is not tried. */
  ghost predicate Came(v: Fs.Fs<R.ErrorRule>, v': Fs.Fs<R.ErrorRule>,
                       op: Fs.Op, now: int, out: Option<Fs.Outcome>, end: Res)
    requires Fs.ValidFs(v)
  {
    && (out.None? ==> op.ReadFile? && v'.files == v.files)
    && (out.Some? ==>
          Fs.CanCome(v.files, op, now, end) && Fs.Stepped(v', out.value) == Fs.StepTo(v, op, now, end))
  }

  /** Where op puts or takes away nothing, what was stored in at still is; where it did, it is
      not. */
  ghost predicate Rearranged(
      t: Files, at: map<string, MapFile>, at': map<string, MapFile>, nodes': map<MapFile, string>,
                             op: Fs.Op, out: Option<Fs.Outcome>)
  {
    Kept(at, at', Touched(op)) && (out == Some(Fs.Done) ==> LostAll(at, nodes', Taken(t, op)))
  }

  lemma {:induction false} CameStep(
      v: Fs.Fs<R.ErrorRule>, v': Fs.Fs<R.ErrorRule>, op: Fs.Op, now: int, out: Fs.Outcome)
    requires Fs.ValidFs(v) && !op.Rename? && Fs.Stepped(v', out) == Fs.Step(v, op, now)
    ensures Came(v, v', op, now, Some(out), Res(None, v.files))
  {
  }

  method ReadIfFits(m: MockFS, p: string, chunk: nat -> nat) returns (out: Option<Fs.Outcome>)
    requires m.Valid()
    modifies m.injector.rules, m.stats, m.stats.ops
    ensures m.Valid()
    ensures if out.None? then m.View() == old(m.View())
            else Fs.Stepped(m.View(), out.value) == Fs.ReadFileStep(old(m.View()), p, chunk)
  {
    var fits := FitsInt(m, p);
    m.Beside();
    m.files.Framed();
    if !fits {
      return None;
    }
    var o := O.ReadFile(m, p, chunk);
    return Some(o);
  }

  method Look(m: MockFS, op: Fs.Op, now: int) returns (out: Option<Fs.Outcome>)
    requires m.Valid() && (op.Stat? || op.ReadDir?)
    modifies m.injector.rules, m.stats, m.stats.ops
    ensures m.Valid() && out.Some? && Fs.Stepped(m.View(), out.value) == Fs.Step(old(m.View()), op, now)
  {
    var o;
    match op {
      case Stat(p) => o := m.Stat(p, now);
      case ReadDir(p) => o := m.ReadDir(p, now);
    }
    out := Some(o);
  }

  method Read(m: MockFS, op: Fs.Op, now: int) returns (out: Option<Fs.Outcome>, ghost end: Res)
    requires m.Valid() && (op.Stat? || op.ReadDir? || op.ReadFile?)
    modifies m.injector.rules, m.stats, m.stats.ops
    ensures m.Valid()
    ensures Came(old(m.View()), m.View(), op, now, out, end)
    ensures Rearranged(old(m.files.Contents()), old(m.files.at), m.files.at, m.files.nodes, op, out)
  {
    end := Res(None, m.files.Contents());
    if op.ReadFile? {
      out := ReadIfFits(m, op.path, op.chunk);
    } else {
      out := Look(m, op, now);
    }
  }

  /** Operations that put something there. */
  method Make(m: MockFS, op: Fs.Op, now: int) returns (out: Option<Fs.Outcome>, ghost end: Res)
    requires m.Valid() && (op.Mkdir? || op.MkdirAll? || op.AddFile? || op.AddDir? || op.Rename?)
    modifies m.files, m.injector.rules, m.stats, m.stats.ops
    ensures m.Valid() && m.files.Stays()
    ensures Came(old(m.View()), m.View(), op, now, out, end)
    ensures Rearranged(old(m.files.Contents()), old(m.files.at), m.files.at, m.files.nodes, op, out)
  {
    end := Res(None, m.files.Contents());
    var err;
    match op {
      case Mkdir(p, mode) => err := m.Mkdir(p, mode, now);
      case MkdirAll(p, mode) => err := m.MkdirAll(p, mode, now);
      case AddFile(p, data, mode) => err := m.AddFile(p, data, mode, now);
      case AddDir(p, mode) => err := m.AddDir(p, mode, now);
      case Rename(p, to) => err, end := m.Rename(p, to, now);
    }
    out := Some(Fs.OutcomeOf(err));
  }

  /** Operations that take something away. */
  method Unmake(m: MockFS, op: Fs.Op, now: int) returns (out: Option<Fs.Outcome>, ghost end: Res)
    requires m.Valid() && (op.RemoveEntry? || op.Remove? || op.RemoveAll?)
    modifies m.files, m.injector.rules, m.stats, m.stats.ops
    ensures m.Valid() && m.files.Stays()
    ensures Came(old(m.View()), m.View(), op, now, out, end)
    ensures Rearranged(old(m.files.Contents()), old(m.files.at), m.files.at, m.files.nodes, op, out)
  {
    end := Res(None, m.files.Contents());
    var err;
    match op {
      case RemoveEntry(p) => err := m.RemoveEntry(p, now);
      case Remove(p) => err := m.Remove(p, now);
      case RemoveAll(p) => err := m.RemoveAll(p, now);
    }
    out := Some(Fs.OutcomeOf(err));
  }

  /** All that writes through no stored node. */
  method Change(m: MockFS, op: Fs.Op, now: int) returns (out: Option<Fs.Outcome>, ghost end: Res)
    requires m.Valid() && !op.WriteFile?
    modifies m.files, m.injector.rules, m.stats, m.stats.ops
    ensures forall n :: n in old(m.files.nodes.Keys) && n !in m.files.nodes.Keys ==> unchanged(n)
    ensures m.Valid() && m.files.Stays()
    ensures Came(old(m.View()), m.View(), op, now, out, end)
    ensures Rearranged(old(m.files.Contents()), old(m.files.at), m.files.at, m.files.nodes, op, out)
  {
    if op.Stat? || op.ReadDir? || op.ReadFile? {
      out, end := Read(m, op, now);
    } else if op.RemoveEntry? || op.Remove? || op.RemoveAll? {
      out, end := Unmake(m, op, now);
    } else {
      out, end := Make(m, op, now);
    }
  }

  lemma {:induction false} NodesKept(at: map<string, MapFile>, nodes: map<MapFile, string>,
                                     at': map<string, MapFile>, nodes': map<MapFile, string>)
    requires forall n :: n in nodes.Keys ==> nodes[n] in at && at[nodes[n]] == n
    requires Kept(at, at', iset{}) && forall p :: p in at' ==> at'[p] in nodes'.Keys
    ensures nodes.Keys <= nodes'.Keys
  {
  }

  /** The one that writes to a stored node, if one is stored at its path. */
  method Write(m: MockFS, op: Fs.Op, now: int) returns (out: Option<Fs.Outcome>, ghost end: Res)
    requires m.Valid() && op.WriteFile?
    modifies m.files, m.injector.rules, m.stats, m.stats.ops,
             if op.path in m.files.at then {m.files.at[op.path], m.files.at[op.path].buf} else {}
    ensures m.Valid() && m.files.Stays()
    ensures Came(old(m.View()), m.View(), op, now, out, end)
    ensures Rearranged(old(m.files.Contents()), old(m.files.at), m.files.at, m.files.nodes, op, out)
    ensures old(m.files.nodes).Keys <= m.files.nodes.Keys
  {
    ghost var v, at, nodes := m.View(), m.files.at, m.files.nodes;
    end := Res(None, v.files);
    var err := m.WriteFile(op.path, op.data, op.mode, now);
    CameStep(v, m.View(), op, now, Fs.OutcomeOf(err));
    out := Some(Fs.OutcomeOf(err));
    NodesKept(at, nodes, m.files.at, m.files.nodes);
  }

  method Perform(m: MockFS, op: Fs.Op, now: int) returns (out: Option<Fs.Outcome>, ghost end: Res)
    requires m.Valid()
    modifies m.files, m.injector.rules, m.stats, m.stats.ops, m.files.nodes.Keys, m.files.buffers.Keys
    ensures m.Valid() && m.files.Stays()
    ensures Came(old(m.View()), m.View(), op, now, out, end)
    ensures Rearranged(old(m.files.Contents()), old(m.files.at), m.files.at, m.files.nodes, op, out)
    ensures forall n :: n in old(m.files.nodes.Keys) && n !in m.files.nodes.Keys ==> unchanged(n)
  {
    if op.WriteFile? {
      out, end := Write(m, op, now);
    } else {
      out, end := Change(m, op, now);
    }
  }

  // ----- One operation of a handle, whichever it is -----

  predicate Feasible(fop: H.FileOp) {
    match fop
    case Read(n) => n <= MAX_INT
    case ReadAt(n, off) => n <= MAX_INT && IsInt64(off)
    case Write(b) => |b| <= MAX_INT
    case WriteAt(b, off) => |b| <= MAX_INT && IsInt64(off)
    case Seek(offset, _) => IsInt64(offset)
    case ReadDir(n) => IsInt64(n)
    case _ => true
  }

  /** The operations that leave the file alone. */
  method UseAside(f: M.MockFile, fop: H.FileOp) returns (a: H.Answer)
    requires f.Valid() && Feasible(fop) && !fop.Write? && !fop.WriteAt?
    modifies f`position, f`closed, f.CursorObjects(), f.injector.rules, f.stats, f.stats.ops
    ensures f.Valid()
  {
    match fop
    case Read(n) =>
      var b := new byte[n];
      a := f.Read(b);
    case ReadAt(n, off) =>
      var b := new byte[n];
      a := f.ReadAt(b, off);
    case Seek(offset, whence) => a := f.Seek(offset, whence);
    case ReadDir(n) => a := f.ReadDir(n);
    case Stat => a := f.Stat();
    case Close => a := f.Close();
  }

  method Use(f: M.MockFile, fop: H.FileOp, now: int) returns (a: H.Answer)
    requires f.Valid() && Feasible(fop)
    modifies f`position, f`closed, f.CursorObjects(), f.node, f.node.buf, f.injector.rules, f.stats, f.stats.ops
    ensures f.Valid() && (f.node.buf == old(f.node.buf) || fresh(f.node.buf))
  {
    match fop
    case Write(b) => a := f.Write(b, now);
    case WriteAt(b, off) => a := f.WriteAt(b, off, now);
    case _ => a := UseAside(f, fop);
  }

  /** The map after an operation on the handle of node n: changed under the key that holds
      the node, or nowhere. */
  ghost function After(t: Files, nodes: map<MapFile, string>, n: MapFile, e: Entry): Files {
    if n in nodes.Keys then t[nodes[n] := e] else t
  }

  /** The node is stored in the map, or has nothing to do with it any more. */
  ghost predicate InOrOut(t: FileMap<string>, n: MapFile)
    reads t, n
  {
    n in t.nodes.Keys || n.buf !in t.buffers.Keys
  }

  /** An operation on a handle, seen from a map: one node and its buffer may have changed. */
  method UseBeside(ghost t: FileMap<string>, f: M.MockFile, fop: H.FileOp, now: int) returns (a: H.Answer)
    requires f.Valid() && Feasible(fop)
    modifies f`position, f`closed, f.CursorObjects(), f.node, f.node.buf, f.injector.rules, f.stats, f.stats.ops
    ensures f.Valid() && (f.node.buf == old(f.node.buf) || fresh(f.node.buf)) && unchanged(t)
    ensures forall n :: n in t.nodes.Keys && n != f.node ==> unchanged(n)
    ensures forall b :: b in t.buffers.Keys && b != old(f.node.buf) ==> unchanged(b)
  {
    a := Use(f, fop, now);
  }

  /** What an operation on a handle does to a map: nothing, or its node has changed. */
  method UseOnMap(ghost t: FileMap<string>, f: M.MockFile, fop: H.FileOp, now: int) returns (a: H.Answer)
    requires t.Valid() && f.Valid() && Feasible(fop) && InOrOut(t, f.node)
    modifies f`position, f`closed, f.CursorObjects(), f.node, f.node.buf
    modifies f.injector.rules, f.stats, f.stats.ops, t`buffers
    ensures f.Valid() && (f.node.buf == old(f.node.buf) || fresh(f.node.buf))
    ensures t.Valid() && unchanged(t`at, t`nodes)
    ensures t.Contents() == After(old(t.Contents()), t.nodes, f.node, f.node.AsEntry())
    ensures t.buffers == if f.node in t.nodes.Keys then old(t.buffers)[f.node.buf := f.node] else old(t.buffers)
  {
    ghost var was := t.Contents();
    a := UseBeside(t, f, fop, now);
    if f.node in t.nodes.Keys {
      t.OthersKept(t.nodes[f.node]);
      t.Refresh(t.nodes[f.node], was);
    } else {
      t.Framed();
    }
  }

  // ----- A session -----

  /** Filesystems and handles are named by their numbers; naming a missing one does nothing. */
  datatype Call =
    | NewCall(nodes: seq<B.Node>, now: int)
    | FsCall(fs: nat, op: Fs.Op, now: int)
    | RuleCall(fs: nat, k: Operation, err: Error, mode: Inj.ErrorMode, afterN: nat, matcher: Matchers.Matcher)
    | OpenCall(fs: nat, path: string)
    | SubCall(fs: nat, dir: string, now: int)
    | HandleCall(h: nat, fop: H.FileOp, now: int)

  /** Whom calls name by numbers, and which filesystem a handle was opened in. */
  datatype Named = Named(systems: seq<MockFS>, handles: seq<M.MockFile>, source: map<M.MockFile, MockFS>)

  ghost predicate Grew(a: Named, b: Named) {
    && a.systems <= b.systems && a.handles <= b.handles
    && forall f :: f in a.handles ==> f in a.source && f in b.source && b.source[f] == a.source[f]
  }

  ghost predicate ChangedAt(a: Files, b: Files, p: string) {
    p in a && b.Keys == a.Keys && forall q :: q in a && q != p ==> b[q] == a[q]
  }

  /** What a call may do to the files of x, which were a: an operation of x has its effect, or
      was stopped; a handle may have written to the file it was opened on in x; nothing else
      changes any files. */
  ghost predicate Allowed(n: Named, c: Call, x: MockFS, a: Files, b: Files) {
    b == a || match c
    case FsCall(i, op, now) =>
      i < |n.systems| && n.systems[i] == x && exists w, create, end ::
        Fs.CanCome(a, op, now, end) && b == SubRuns.Effect(a, w, create, op, now, end).files
    case HandleCall(h, _, _) =>
      && h < |n.handles| && n.handles[h] in n.source && n.source[n.handles[h]] == x
      && ChangedAt(a, b, n.handles[h].name)
    case _ => false
  }

  ghost predicate Follows(n: Named, c: Call, t: map<MockFS, Files>, t': map<MockFS, Files>) {
    forall x :: x in t ==> x in t' && Allowed(n, c, x, t[x], t'[x])
  }

  /** The files of all filesystems before the first call, between any two, and after the last. */
  ghost predicate Traced(n: Named, calls: seq<Call>, hist: seq<map<MockFS, Files>>) {
    |hist| == |calls| + 1 && forall i :: 0 <= i < |calls| ==> Follows(n, calls[i], hist[i], hist[i + 1])
  }

  lemma {:induction false} FollowsStays(n: Named, n': Named, c: Call, t: map<MockFS, Files>, t': map<MockFS, Files>)
    requires Grew(n, n') && Follows(n, c, t, t')
    ensures Follows(n', c, t, t')
  {
    forall x | x in t ensures x in t' && Allowed(n', c, x, t[x], t'[x]) {
      assert Allowed(n, c, x, t[x], t'[x]);
    }
  }

  /** Calls on the handles of mute change no files. */
  ghost predicate Quiet(mute: set<nat>, calls: seq<Call>, hist: seq<map<MockFS, Files>>)
    requires |hist| == |calls| + 1
  {
    forall i :: 0 <= i < |calls| && calls[i].HandleCall? && calls[i].h in mute ==> hist[i + 1] == hist[i]
  }

  lemma {:induction false} TracedOn(n: Named, n': Named, mute: set<nat>, calls: seq<Call>,
                                    hist: seq<map<MockFS, Files>>, c: Call, t: map<MockFS, Files>)
    requires Grew(n, n') && Traced(n, calls, hist) && Quiet(mute, calls, hist) && Follows(n', c, hist[|calls|], t)
    requires c.HandleCall? && c.h in mute ==> t == hist[|calls|]
    ensures Traced(n', calls + [c], hist + [t]) && Quiet(mute, calls + [c], hist + [t])
  {
    forall i | 0 <= i < |calls| ensures Follows(n', calls[i], hist[i], hist[i + 1]) {
      FollowsStays(n, n', calls[i], hist[i], hist[i + 1]);
    }
  }

  lemma {:induction false} TracedFrom(n: Named, n': Named, c: Call, t: map<MockFS, Files>,
                                      calls: seq<Call>, hist: seq<map<MockFS, Files>>)
    requires Grew(n, n') && Traced(n', calls, hist) && Follows(n, c, t, hist[0])
    ensures Traced(n', [c] + calls, [t] + hist)
  {
    FollowsStays(n, n', c, t, hist[0]);
    forall i | 0 <= i < |calls| + 1 ensures Follows(n', ([c] + calls)[i], ([t] + hist)[i], ([t] + hist)[i + 1]) {
      if i > 0 {
        assert Follows(n', calls[i - 1], hist[i - 1], hist[i]);
      }
    }
  }

  lemma {:induction false} CameFollows(
      n: Named, i: nat, t: map<MockFS, Files>, v: Fs.Fs<R.ErrorRule>, v': Fs.Fs<R.ErrorRule>,
      op: Fs.Op, now: int, out: Option<Fs.Outcome>, end: Res)
    requires i < |n.systems| && n.systems[i] in t && t[n.systems[i]] == v.files
    requires Fs.ValidFs(v) && Came(v, v', op, now, out, end)
    ensures Follows(n, FsCall(i, op, now), t, t[n.systems[i] := v'.files])
  {
    OrphanRuns.StepIsEffect(v, op, now, end);
    assert Allowed(n, FsCall(i, op, now), n.systems[i], v.files, v'.files);
  }

  /** owner with everything that m has come to own. */
  ghost function Adopted(owner: map<object, object>, m: MockFS): map<object, object>
    reads m.files
  {
    var ns: set<object> := m.files.nodes.Keys;
    owner + (map n | n in ns :: m as object) + m.files.buffers
  }

  class Session {
    var systems: seq<MockFS>
    var handles: seq<M.MockFile>
    ghost var owner: map<object, object>
    ghost var source: map<M.MockFile, MockFS>

    ghost predicate Owns(y: object, x: object)
      reads this
    {
      x in owner.Keys && owner[x] == y
    }

    /** A filesystem owns its parts and the nodes that it stores, and each of these the
        buffers that are known as its own. */
    ghost predicate Settled(m: MockFS)
      reads this, owner.Keys
    {
      && Owns(m, m) && Owns(m, m.files) && Owns(m, m.injector) && Owns(m, m.stats) && Owns(m, m.stats.ops)
      && (forall r :: r in m.injector.rules ==> Owns(m, r))
      && (forall n :: n in m.files.nodes.Keys ==> Owns(m, n))
      && (forall b :: b in m.files.buffers.Keys ==> Owns(m.files.buffers[b], b))
      && m.Valid()
    }

    /** A handle owns its position, its statistics and its page cursor. Its node owns the
        buffer. Where the node is still stored, it is under the path it was opened at. */
    ghost predicate Sound(f: M.MockFile)
      reads this, owner.Keys
    {
      && Owns(f, f) && Owns(f, f.stats) && Owns(f, f.stats.ops) && (forall o :: o in f.CursorObjects() ==> Owns(f, o))
      && f in source && source[f] in systems && Owns(source[f], f.injector)
      && source[f] in owner.Keys && source[f].injector == f.injector
      && Owns(source[f], f.node) && Owns(f.node, f.node.buf)
      && f.node.Valid() && 0 <= f.position <= MAX_INT && f.ValidCursor() && f.stats.Valid()
    }

    ghost predicate AtHome(f: M.MockFile, m: MockFS)
      reads this, m.files
    {
      f in source && (f.node in m.files.nodes.Keys ==> m == source[f] && m.files.nodes[f.node] == f.name)
    }

    ghost predicate Valid()
      reads this, owner.Keys
    {
      && this !in owner.Keys
      && (forall m :: m in systems ==> Settled(m))
      && (forall f :: f in handles ==> Sound(f) && forall m :: m in systems ==> AtHome(f, m))
    }

    constructor ()
      ensures Valid() && systems == [] && handles == [] && owner == map[]
    {
      systems, handles, owner, source := [], [], map[], map[];
    }

    /** Nothing is forgotten: who owned something still owns it, what is new is owned by what
        made it, handles keep their filesystem, and no stored node has changed its place. */
    twostate predicate Onward()
      reads this, set x | x in systems :: x.files
    {
      && old(systems) <= systems && old(handles) <= handles
      && (forall o :: o in owner.Keys ==> fresh(o) || o in old(owner.Keys))
      && (forall g :: g in old(handles) ==> g in old(source) && g in source && source[g] == old(source)[g])
      && (forall x :: x in old(systems) ==> x.files.Stays())
    }

    // ----- What one filesystem does -----

    /** Who owned something still owns it. */
    twostate predicate Grown()
      reads this
    {
      forall o :: o in old(owner.Keys) ==> o in owner.Keys && owner[o] == old(owner)[o]
    }

    /** Nothing that x owned has changed. */
    twostate predicate Spared(x: object)
      reads this, owner.Keys
    {
      forall o :: o in old(owner.Keys) && o in owner.Keys && old(owner)[o] == x ==> unchanged(o)
    }

    ghost function AllContents(): (t: map<MockFS, Files>)
      requires Valid()
      reads this, owner.Keys
    {
      assert forall x :: x in systems ==> Settled(x);
      map x | x in systems :: x.files.Contents()
    }

    /** Nothing that was owned has changed. */
    twostate predicate AllStill()
      reads this, owner.Keys
    {
      forall o :: o in old(owner.Keys) && o in owner.Keys ==> unchanged(o)
    }

    twostate lemma {:induction false} StillFiles(x: MockFS)
      requires old(Settled(x)) && Grown() && AllStill()
      ensures x.files.Valid() && x.files.Contents() == old(x.files.Contents())
    {
      x.files.Framed();
    }

    twostate lemma {:induction false} SameContents()
      requires old(Valid()) && Valid() && systems == old(systems)
      requires forall x :: x in systems ==> x.files.Contents() == old(x.files.Contents())
      ensures AllContents() == old(AllContents())
    {
    }

    /** Every filesystem of t has the files that it has there. */
    ghost predicate Keeping(t: map<MockFS, Files>)
      requires Valid()
      reads this, owner.Keys
    {
      forall x :: x in t ==> x in AllContents() && AllContents()[x] == t[x]
    }

    twostate lemma {:induction false} StillSame()
      requires old(Valid()) && Valid() && Grown() && AllStill() && old(systems) <= systems
      ensures Keeping(old(AllContents())) && (systems == old(systems) ==> AllContents() == old(AllContents()))
    {
      forall x | x in old(systems) ensures x in systems && x.files.Contents() == old(x.files.Contents()) {
        StillFiles(x);
      }
    }

    twostate lemma {:induction false} StillSettled(x: MockFS)
      requires Grown() && old(Settled(x)) && Spared(x)
      ensures Settled(x) && x.files.Stays()
    {
    }

    /** m has come to own what is new in its files. */
    twostate lemma {:induction false} Adopting(m: MockFS)
      requires old(Settled(m)) && m.files.Stays() && owner == Adopted(old(owner), m)
      requires unchanged(m) && m.Valid() && m.injector.rules == old(m.injector.rules)
      ensures Grown() && Settled(m) && forall o :: o in owner.Keys ==> fresh(o) || o in old(owner.Keys)
    {
    }

    twostate lemma {:induction false} StillSound(f: M.MockFile)
      requires Grown() && old(Sound(f)) && Spared(f) && source == old(source) && systems == old(systems)
      requires Settled(source[f]) && unchanged(source[f])
      requires f.node.Valid() && Owns(f.node, f.node.buf)
      ensures Sound(f)
    {
    }

    /** m has done something; what belongs to others is unchanged, and so are the nodes that
        m does not store now. */
    twostate predicate Beyond(m: MockFS)
      reads this, owner.Keys, m, m.files, m.injector
    {
      && unchanged(m) && m.files.Stays() && m.injector.rules == old(m.injector.rules)
      && (forall o :: (
            && o in old(owner.Keys) && o in owner.Keys
            && old(owner)[o] != m && old(owner)[o] !in old(m.files.nodes.Keys)) ==>
            unchanged(o))
      && (forall n: MapFile :: n in old(owner.Keys) && n in owner.Keys && n !in m.files.nodes.Keys ==> unchanged(n))
    }

    twostate predicate Acted(m: MockFS)
      reads this, owner.Keys, m, m.files, m.injector
    {
      && unchanged(`systems, `handles, `source)
      && owner == Adopted(old(owner), m) && Beyond(m)
    }

    twostate lemma {:induction false} OthersSettled(m: MockFS)
      requires old(Valid()) && Acted(m) && Grown() && m in systems
      ensures forall x :: x in systems && x != m ==> Settled(x) && x.files.Stays()
    {
      forall x | x in systems && x != m ensures Settled(x) && x.files.Stays() { StillSettled(x); }
    }

    twostate lemma {:induction false} AllSound(m: MockFS)
      requires old(Valid()) && Acted(m) && Grown() && m in systems && forall x :: x in systems ==> Settled(x)
      ensures forall f :: f in handles ==> Sound(f)
    {
      forall f | f in handles ensures Sound(f) {
        assert Spared(f);
        assert unchanged(source[f]);
        StillSound(f);
      }
    }

    twostate lemma {:induction false} AllAtHome(m: MockFS)
      requires old(Valid()) && Acted(m) && Grown() && m in systems
      ensures forall f :: f in handles ==> forall x :: x in systems ==> AtHome(f, x)
    {
    }

    /** Whatever m can change belongs to it or to one of its nodes. */
    lemma {:induction false} SettledOwns(m: MockFS)
      requires Settled(m)
      ensures m.Valid() && Owns(m, m.files) && Owns(m, m.injector) && Owns(m, m.stats) && Owns(m, m.stats.ops)
      ensures forall r :: r in m.injector.rules ==> Owns(m, r)
      ensures forall n :: n in m.files.nodes.Keys ==> Owns(m, n)
      ensures forall b :: b in m.files.buffers.Keys ==> b in owner.Keys && owner[b] in m.files.nodes.Keys
    {
    }

    method Act(m: MockFS, op: Fs.Op, now: int) returns (out: Option<Fs.Outcome>, ghost end: Res)
      requires Settled(m) && this !in owner.Keys
      modifies owner.Keys
      ensures m.Valid() && unchanged(this) && Beyond(m)
      ensures Came(old(m.View()), m.View(), op, now, out, end)
      ensures Rearranged(old(m.files.Contents()), old(m.files.at), m.files.at, m.files.nodes, op, out)
    {
      SettledOwns(m);
      out, end := Perform(m, op, now);
    }

    ghost method Adopt(m: MockFS)
      modifies this`owner
      ensures owner == Adopted(old(owner), m)
    {
      owner := Adopted(owner, m);
    }

    ghost method AdoptOnly(m: MockFS)
      requires m.Valid()
      modifies this`owner
      ensures owner == Adopted(old(owner), m) && m.Valid() && m.View() == old(m.View())
    {
      Adopt(m);
    }

    /** Whatever one filesystem does, all stay separate. */
    method DoOnFs(m: MockFS, op: Fs.Op, now: int) returns (out: Option<Fs.Outcome>, ghost end: Res)
      requires Valid() && m in systems
      modifies this`owner, owner.Keys
      ensures m.Valid() && Acted(m)
      ensures Came(old(m.View()), m.View(), op, now, out, end)
      ensures Rearranged(old(m.files.Contents()), old(m.files.at), m.files.at, m.files.nodes, op, out)
    {
      out, end := Act(m, op, now);
      AdoptOnly(m);
    }

    twostate lemma {:induction false} ActedValid(m: MockFS)
      requires old(Valid()) && m in systems && Acted(m) && m.Valid()
      ensures Valid() && Grown() && Onward()
    {
      Adopting(m);
      OthersSettled(m);
      AllSound(m);
      AllAtHome(m);
    }

    twostate lemma {:induction false} OthersSpared(m: MockFS)
      requires old(Valid()) && Acted(m) && Grown() && m in systems
      ensures forall x: MockFS :: x in systems && x != m ==> Spared(x)
    {
    }

    /** Nor has anything that the nodes of x owned. */
    twostate predicate NodesSpared(x: MockFS)
      reads this, owner.Keys
    {
      forall o :: o in old(owner.Keys) && o in owner.Keys && old(owner)[o] in old(x.files.nodes).Keys ==> unchanged(o)
    }

    twostate lemma {:induction false} BuffersSpared(x: MockFS)
      requires old(Settled(x)) && Grown() && NodesSpared(x)
      ensures forall b :: b in old(x.files.buffers).Keys ==> unchanged(b)
    {
    }

    twostate lemma {:induction false} OthersNodesSpared(m: MockFS)
      requires old(Valid()) && Acted(m) && Grown() && m in systems
      ensures forall x: MockFS :: x in systems && x != m ==> NodesSpared(x)
    {
      forall x: MockFS | x in systems && x != m ensures NodesSpared(x) {
        assert old(Settled(x)) && old(Settled(m));
      }
    }

    /** The others have the files they had. */
    twostate lemma {:induction false} OthersUnnoticed(m: MockFS)
      requires old(Valid()) && Acted(m) && Grown() && m in systems && Valid()
      ensures forall x :: x in systems && x != m ==> x.files.Contents() == old(x.files.Contents())
    {
      OthersSpared(m);
      OthersNodesSpared(m);
      forall x | x in systems && x != m ensures x.files.Contents() == old(x.files.Contents()) {
        BuffersSpared(x);
        Unnoticed(x);
      }
    }

    /** The file that f was opened on is not stored any more. */
    ghost predicate Inert(f: M.MockFile)
      requires f in source
      reads this, source[f].files
    {
      f.node !in source[f].files.nodes.Keys
    }

    /** An operation has taken away or replaced what f was opened on. */
    twostate lemma {:induction false} Detached(f: M.MockFile)
      requires old(Valid()) && Onward() && f in old(handles) && source == old(source) && f in source
      requires Lost(old(source[f].files.at), source[f].files.nodes, f.name)
      ensures Inert(f)
    {
      assert old(Sound(f)) && old(AtHome(f, source[f]));
      assert old(Settled(source[f]));
    }

    /** One operation of one filesystem: a step of the machine there, and nothing elsewhere. What
        it removes, renames or replaces its handles cannot reach any more. */
    method OnFs(m: MockFS, op: Fs.Op, now: int) returns (out: Option<Fs.Outcome>, ghost end: Res)
      requires Valid() && m in systems
      modifies this`owner, owner.Keys
      ensures Valid() && Onward() && unchanged(`systems, `handles, `source)
      ensures m.Valid() && Came(old(m.View()), m.View(), op, now, out, end)
      ensures Rearranged(old(m.files.Contents()), old(m.files.at), m.files.at, m.files.nodes, op, out)
      ensures forall x :: x in systems && x != m ==> x.files.Contents() == old(x.files.Contents())
      ensures out == Some(Fs.Done) ==> forall f ::
        f in handles && f in source && source[f] == m && f.name in Taken(old(m.files.Contents()), op) ==> Inert(f)
    {
      ghost var taken := Taken(m.files.Contents(), op);
      out, end := DoOnFs(m, op, now);
      ActedValid(m);
      OthersUnnoticed(m);
      forall f | out == Some(Fs.Done) && f in handles && f in source && source[f] == m && f.name in taken
        ensures Inert(f)
      {
        Detached(f);
      }
    }

    // ----- New handles and new filesystems -----

    /** Only the session itself has changed, and has lost nothing. */
    twostate predicate Extended()
      reads this, owner.Keys
    {
      && Grown() && old(systems) <= systems && old(handles) <= handles && this !in owner.Keys
      && (forall g :: g in old(handles) ==> g in old(source) && g in source && source[g] == old(source)[g])
      && (forall o :: o in old(owner.Keys) && o in owner.Keys ==> unchanged(o))
    }

    twostate lemma {:induction false} StillAll()
      requires old(Valid()) && Extended()
      ensures forall x :: x in old(systems) ==> Settled(x)
      ensures forall g :: g in old(handles) ==> Sound(g) && forall x :: x in old(systems) ==> AtHome(g, x)
    {
    }

    ghost function Parts(f: M.MockFile): set<object> {
      {f as object, f.stats, f.stats.ops} + f.CursorObjects()
    }

    ghost method Record(f: M.MockFile, m: MockFS)
      requires forall o :: o in Parts(f) ==> o !in owner.Keys
      modifies this`owner, this`source
      ensures source == old(source)[f := m] && Grown()
      ensures forall o :: o in owner.Keys ==> o in old(owner.Keys) || o in Parts(f)
      ensures forall o :: o in Parts(f) ==> Owns(f, o)
    {
      var os := Parts(f);
      owner := owner + (map o | o in os :: f as object);
      source := source[f := m];
    }

    method Append(f: M.MockFile, m: MockFS)
      requires Valid() && m in systems && forall o :: o in Parts(f) ==> o !in owner.Keys && o != this
      modifies this
      ensures Extended() && systems == old(systems) && handles == old(handles) + [f] && f in source && source[f] == m
      ensures forall o :: o in owner.Keys ==> o in old(owner.Keys) || o in Parts(f)
      ensures forall o :: o in Parts(f) ==> Owns(f, o)
    {
      Record(f, m);
      handles := handles + [f];
    }

    lemma {:induction false} OpenedSound(f: M.MockFile, m: MockFS)
      requires m in systems && Settled(m) && f in source && source[f] == m && f.Valid()
      requires f.injector == m.injector && f.name in m.files.at && m.files.at[f.name] == f.node
      requires forall o :: o in Parts(f) ==> Owns(f, o)
      ensures Sound(f)
    {
    }

    lemma {:induction false} OpenedAtHome(f: M.MockFile, m: MockFS, x: MockFS)
      requires Settled(m) && Settled(x) && f in source && source[f] == m
      requires f.name in m.files.at && m.files.at[f.name] == f.node
      ensures AtHome(f, x)
    {
      assert Owns(m, f.node);
    }

    method Enlist(f: M.MockFile, m: MockFS)
      requires Valid() && m in systems && forall o :: o in Parts(f) ==> o !in owner.Keys && o != this
      requires f.Valid() && f.injector == m.injector && f.name in m.files.at && m.files.at[f.name] == f.node
      modifies this
      ensures Valid() && Extended() && systems == old(systems) && handles == old(handles) + [f]
      ensures forall o :: o in owner.Keys ==> o in old(owner.Keys) || o in Parts(f)
    {
      Append(f, m);
      StillAll();
      OpenedSound(f, m);
      forall x | x in systems ensures AtHome(f, x) { OpenedAtHome(f, m, x); }
    }

    /** Open, before the handle is known to the session. */
    method DoOpen(m: MockFS, name: string) returns (err: Option<Error>, f: M.MockFile?)
      requires Settled(m) && this !in owner.Keys && O.Fits(m, name)
      modifies owner.Keys
      ensures m.Valid() && Beyond(m) && unchanged(this) && unchanged(m.files)
      ensures m.files.Contents() == old(m.files.Contents())
      ensures err.None? ==> f != null && f.Valid() && forall o :: o in Parts(f) ==> fresh(o)
      ensures err.None? ==>
        f.injector == m.injector && f.name == name && name in m.files.at && m.files.at[name] == f.node
    {
      SettledOwns(m);
      err, f := O.Open(m, name);
      if err.None? {
        PartsNew(f);
      }
    }

    twostate lemma {:induction false} NothingNew(m: MockFS)
      requires old(Settled(m)) && unchanged(m.files) && owner == Adopted(old(owner), m)
      ensures owner.Keys == old(owner.Keys)
    {
    }

    twostate lemma {:induction false} PartsNew(new f: M.MockFile)
      requires fresh(f) && fresh(f.stats) && fresh(f.stats.ops) && fresh(f.CursorObjects())
      ensures forall o :: o in Parts(f) ==> fresh(o)
    {
    }

    method OpenAdopting(m: MockFS, name: string) returns (err: Option<Error>, f: M.MockFile?)
      requires Settled(m) && this !in owner.Keys && O.Fits(m, name)
      modifies this`owner, owner.Keys
      ensures m.Valid() && Acted(m) && unchanged(m.files) && m.files.Contents() == old(m.files.Contents())
      ensures err.None? ==> f != null && f.Valid() && forall o :: o in Parts(f) ==> fresh(o)
      ensures err.None? ==>
        f.injector == m.injector && f.name == name && name in m.files.at && m.files.at[name] == f.node
    {
      err, f := DoOpen(m, name);
      AdoptOnly(m);
    }

    method TryOpen(m: MockFS, name: string) returns (err: Option<Error>, f: M.MockFile?)
      requires Valid() && m in systems && O.Fits(m, name)
      modifies this`owner, owner.Keys
      ensures Valid() && unchanged(`systems, `handles) && Grown() && owner.Keys == old(owner.Keys)
      ensures AllContents() == old(AllContents())
      ensures forall x :: x in systems ==> x.files.Stays()
      ensures err.None? ==> f != null && f.Valid() && forall o :: o in Parts(f) ==> fresh(o)
      ensures err.None? ==>
        f.injector == m.injector && f.name == name && name in m.files.at && m.files.at[name] == f.node
    {
      err, f := OpenAdopting(m, name);
      OpenedSame(m);
    }

    /** Open leaves the files alone. */
    twostate lemma {:induction false} OpenedSame(m: MockFS)
      requires old(Valid()) && m in systems && Acted(m) && m.Valid()
      requires unchanged(m.files) && m.files.Contents() == old(m.files.Contents())
      ensures Valid() && Grown() && Onward() && owner.Keys == old(owner.Keys) && AllContents() == old(AllContents())
    {
      ActedValid(m);
      OthersUnnoticed(m);
      NothingNew(m);
      SameContents();
    }

    method Open(m: MockFS, name: string) returns (err: Option<Error>, f: M.MockFile?)
      requires Valid() && m in systems && O.Fits(m, name)
      modifies this, owner.Keys
      ensures Valid() && Onward() && systems == old(systems) && AllContents() == old(AllContents())
      ensures handles == old(handles) + if err.None? && f != null then [f] else []
    {
      err, f := TryOpen(m, name);
      label tried:
      if err.None? {
        Enlist(f, m);
        StillSame@tried();
      }
    }

    /** What belongs to a filesystem that is not yet known to the session. */
    ghost function Whole(x: MockFS): set<object>
      reads x, x.files, x.injector
    {
      {x as object, x.files, x.injector, x.stats, x.stats.ops} + x.injector.rules
    }

    ghost method Register(x: MockFS)
      requires forall o :: o in Whole(x) ==> o !in owner.Keys
      modifies this`owner
      ensures Grown()
      ensures forall o :: o in owner.Keys ==> o in old(owner.Keys) || o in Whole(x)
      ensures forall o :: o in Whole(x) ==> Owns(x, o)
    {
      var os := Whole(x);
      owner := owner + (map o | o in os :: x as object);
    }

    /** x now owns its nodes, and these their buffers. */
    twostate lemma {:induction false} AdoptedNew(x: MockFS)
      requires owner == Adopted(old(owner), x)
      requires forall n :: n in x.files.nodes.Keys ==> n !in old(owner).Keys
      requires forall b :: b in x.files.buffers.Keys ==> b !in old(owner).Keys
      ensures Grown()
      ensures forall o :: o in owner.Keys ==>
        o in old(owner.Keys) || o in x.files.nodes.Keys || o in x.files.buffers.Keys
      ensures forall n :: n in x.files.nodes.Keys ==> Owns(x, n)
      ensures forall b :: b in x.files.buffers.Keys ==> Owns(x.files.buffers[b], b)
    {
    }

    ghost method AdoptNew(x: MockFS)
      requires forall n :: n in x.files.nodes.Keys ==> n !in owner.Keys
      requires forall b :: b in x.files.buffers.Keys ==> b !in owner.Keys
      modifies this`owner
      ensures Grown()
      ensures forall o :: o in owner.Keys ==>
        o in old(owner.Keys) || o in x.files.nodes.Keys || o in x.files.buffers.Keys
      ensures forall n :: n in x.files.nodes.Keys ==> Owns(x, n)
      ensures forall b :: b in x.files.buffers.Keys ==> Owns(x.files.buffers[b], b)
    {
      Adopt(x);
      AdoptedNew(x);
    }

    /** x shares nothing with what the session knows. */
    ghost predicate Foreign(x: MockFS)
      reads this, x, x.files, x.injector
    {
      && (forall o :: o in Whole(x) ==> o !in owner.Keys && o != this)
      && (forall n :: n in x.files.nodes.Keys ==> n !in owner.Keys)
      && (forall b :: b in x.files.buffers.Keys ==> b !in owner.Keys)
    }

    lemma {:induction false} EnrolledSettled(x: MockFS)
      requires x.Valid() && forall o :: o in Whole(x) ==> Owns(x, o)
      requires forall n :: n in x.files.nodes.Keys ==> Owns(x, n)
      requires forall b :: b in x.files.buffers.Keys ==> Owns(x.files.buffers[b], b)
      ensures Settled(x)
    {
    }

    ghost method RegisterAll(x: MockFS)
      requires Foreign(x)
      modifies this`owner
      ensures Grown()
      ensures forall o :: o in owner.Keys ==>
        o in old(owner.Keys) || o in Whole(x) || o in x.files.nodes.Keys || o in x.files.buffers.Keys
      ensures forall o :: o in Whole(x) ==> Owns(x, o)
      ensures forall n :: n in x.files.nodes.Keys ==> Owns(x, n)
      ensures forall b :: b in x.files.buffers.Keys ==> Owns(x.files.buffers[b], b)
    {
      Register(x);
      AdoptNew(x);
    }

    method AddSystem(x: MockFS)
      requires Valid() && Foreign(x)
      modifies this`owner, this`systems
      ensures Extended() && systems == old(systems) + [x] && handles == old(handles) && x !in old(owner.Keys)
      ensures forall o :: o in owner.Keys ==>
        o in old(owner.Keys) || o in Whole(x) || o in x.files.nodes.Keys || o in x.files.buffers.Keys
      ensures forall o :: o in Whole(x) ==> Owns(x, o)
      ensures forall n :: n in x.files.nodes.Keys ==> Owns(x, n)
      ensures forall b :: b in x.files.buffers.Keys ==> Owns(x.files.buffers[b], b)
    {
      RegisterAll(x);
      systems := systems + [x];
    }

    lemma {:induction false} NobodyAtHome(x: MockFS, g: M.MockFile)
      requires Settled(x) && Sound(g) && source[g] != x
      ensures AtHome(g, x)
    {
    }

    /** A filesystem that shares nothing with the others joins them. */
    method Enroll(x: MockFS)
      requires Valid() && x.Valid() && Foreign(x)
      modifies this`owner, this`systems
      ensures Valid() && Extended() && systems == old(systems) + [x] && handles == old(handles)
      ensures forall o :: o in owner.Keys ==>
        o in old(owner.Keys) || o in Whole(x) || o in x.files.nodes.Keys || o in x.files.buffers.Keys
    {
      AddSystem(x);
      StillAll();
      EnrolledSettled(x);
      forall g | g in handles ensures AtHome(g, x) { NobodyAtHome(x, g); }
    }

    method Join(x: MockFS)
      requires Valid() && x.Valid() && Foreign(x)
      modifies this`owner, this`systems
      ensures Valid() && Extended() && systems == old(systems) + [x] && handles == old(handles)
      ensures Keeping(old(AllContents())) && forall y :: y in old(systems) ==>
        y.files.nodes == old(y.files.nodes) && y.files.buffers == old(y.files.buffers)
      ensures forall o :: o in owner.Keys ==>
        o in old(owner.Keys) || o in Whole(x) || o in x.files.nodes.Keys || o in x.files.buffers.Keys
    {
      Enroll(x);
      StillSame();
    }

    /** What is new the session does not know. */
    twostate lemma {:induction false} ForeignNew(new x: MockFS)
      requires unchanged(this) && forall o :: o in Whole(x) ==> fresh(o)
      requires (forall n :: n in x.files.nodes.Keys ==> fresh(n))
      requires (forall b :: b in x.files.buffers.Keys ==> fresh(b))
      ensures Foreign(x)
    {
    }

    twostate lemma {:induction false} WholeNew(new x: MockFS)
      requires fresh(x) && fresh(x.files) && fresh(x.injector) && fresh(x.stats)
      requires fresh(x.stats.ops) && fresh(x.injector.rules)
      ensures forall o :: o in Whole(x) ==> fresh(o)
    {
    }

    /** Sub, before the new filesystem is known to the session. */
    method DoSub(m: MockFS, d: string, now: int) returns (err: Option<Error>, x: MockFS)
      requires m.Valid()
      ensures err.None? && d != "." ==> x.Valid() && forall o :: o in Whole(x) ==> fresh(o)
      ensures err.None? && d != "." ==>
        (forall n :: n in x.files.nodes.Keys ==> fresh(n)) && (forall b :: b in x.files.buffers.Keys ==> fresh(b))
    {
      err, x := Sub.Sub(m, d, now);
      if err.None? && d != "." {
        WholeNew(x);
      }
    }

    /** Nothing the session knows has changed. */
    twostate lemma {:induction false} Undisturbed()
      requires old(Valid()) && unchanged(this) && forall o :: o in owner.Keys ==> unchanged(o)
      ensures Valid() && AllContents() == old(AllContents())
    {
      StillSame();
    }

    method TrySub(m: MockFS, d: string, now: int) returns (err: Option<Error>, x: MockFS)
      requires Valid() && m in systems
      ensures Valid() && unchanged(this) && AllContents() == old(AllContents())
      ensures err.None? && d != "." ==> x.Valid() && Foreign(x) && (forall o :: o in Whole(x) ==> fresh(o))
      ensures err.None? && d != "." ==>
        (forall n :: n in x.files.nodes.Keys ==> fresh(n)) && (forall b :: b in x.files.buffers.Keys ==> fresh(b))
    {
      assert Settled(m);
      err, x := DoSub(m, d, now);
      Undisturbed();
      if err.None? && d != "." {
        ForeignNew(x);
      }
    }

    method MakeSub(m: MockFS, d: string, now: int) returns (err: Option<Error>, x: MockFS)
      requires Valid() && m in systems
      modifies this`owner, this`systems
      ensures Valid() && Onward() && Keeping(old(AllContents()))
    {
      err, x := TrySub(m, d, now);
      if err.None? && d != "." {
        Join(x);
        forall y | y in old(systems) ensures y.files.Stays() { assert y.files.nodes == old(y.files.nodes); }
      }
    }

    method DoCreate(ns: seq<B.Node>, now: int) returns (ok: bool, x: MockFS)
      ensures x.Valid() && (forall o :: o in Whole(x) ==> fresh(o))
      ensures (forall n :: n in x.files.nodes.Keys ==> fresh(n)) && (forall b :: b in x.files.buffers.Keys ==> fresh(b))
    {
      ok, x := Options.NewMockFS(ns, now);
      WholeNew(x);
    }

    /** NewMockFS with File and Dir options. */
    method Create(ns: seq<B.Node>, now: int) returns (ok: bool)
      requires Valid()
      modifies this`owner, this`systems
      ensures Valid() && Onward() && Keeping(old(AllContents()))
    {
      var x: MockFS;
      ok, x := DoCreate(ns, now);
      Undisturbed();
      if ok {
        ForeignNew(x);
        Join(x);
        forall y | y in old(systems) ensures y.files.Stays() { assert y.files.nodes == old(y.files.nodes); }
      }
    }

    /** m has one more rule, which is new. */
    twostate predicate RuleAdded(m: MockFS)
      reads this, owner.Keys, m, m.injector
    {
      && unchanged(`systems, `handles, `source) && unchanged(m) && m.injector.Valid()
      && Grown() && (forall r :: r in m.injector.rules ==> Owns(m, r))
      && (forall o :: o in old(owner.Keys) && o in owner.Keys && o != m.injector ==> unchanged(o))
    }

    twostate lemma {:induction false} RuleAddedValid(m: MockFS)
      requires old(Valid()) && m in systems && RuleAdded(m) && this !in owner.Keys
      requires forall o :: o in owner.Keys ==> fresh(o) || o in old(owner.Keys)
      ensures Valid() && Onward()
    {
      RuleAddedSettled(m);
      forall g | g in handles ensures Sound(g) { StillSound(g); }
    }

    twostate lemma {:induction false} RuleAddedSettled(m: MockFS)
      requires old(Valid()) && m in systems && RuleAdded(m)
      ensures forall x :: x in systems ==> Settled(x) && x.files.Stays()
    {
      assert old(Settled(m));
      forall x | x in systems && x != m ensures Settled(x) && x.files.Stays() { StillSettled(x); }
    }

    method DoAddRule(m: MockFS, op: Operation, err: Error, mode: Inj.ErrorMode, afterN: nat, matcher: Matchers.Matcher)
      requires Settled(m) && this !in owner.Keys
      modifies this`owner, m.injector
      ensures RuleAdded(m) && this !in owner.Keys
      ensures forall o :: o in owner.Keys ==> fresh(o) || o in old(owner.Keys)
    {
      var rule := new R.ErrorRule(err, mode, afterN, [matcher]);
      m.injector.Add(op, rule);
      owner := owner[rule := m];
    }

    /** NewErrorRule and Add, on the injector of m. */
    method AddRule(m: MockFS, op: Operation, err: Error, mode: Inj.ErrorMode, afterN: nat, matcher: Matchers.Matcher)
      requires Valid() && m in systems
      modifies this`owner, m.injector
      ensures Valid() && Onward() && unchanged(`systems, `handles) && AllContents() == old(AllContents())
    {
      DoAddRule(m, op, err, mode, afterN, matcher);
      RuleAddedValid(m);
      RuleSame(m);
    }

    twostate lemma {:induction false} RuleSame(m: MockFS)
      requires old(Valid()) && Valid() && m in systems && RuleAdded(m)
      ensures AllContents() == old(AllContents())
    {
      forall x | x in systems ensures x.files.Contents() == old(x.files.Contents()) {
        assert old(Settled(x));
        x.files.Framed();
      }
      SameContents();
    }

    // ----- What one handle does -----

    lemma {:induction false} StoredOrGone(f: M.MockFile, m: MockFS)
      requires Settled(m) && Sound(f)
      ensures InOrOut(m.files, f.node)
    {
      assert f.node.buf in m.files.buffers.Keys ==> m.files.buffers[f.node.buf] == f.node;
    }

    /** What f can reach. */
    ghost function Reach(f: M.MockFile): set<object>
      requires f in source
      reads this, f.node, f.injector
    {
      {f as object, f.stats, f.stats.ops, f.node, f.node.buf, source[f].files} + f.CursorObjects() + f.injector.rules
    }

    /** It reaches only what belongs to itself, its filesystem or its node. */
    ghost predicate Contained(f: M.MockFile)
      requires f in source
      reads this, f.node, f.injector
    {
      && (forall o :: o in Reach(f) ==> o in owner.Keys && owner[o] in {f as object, source[f], f.node})
      && (forall n: MapFile :: n in Reach(f) ==> n == f.node)
    }

    lemma {:induction false} SoundContained(f: M.MockFile)
      requires Sound(f) && Settled(source[f])
      ensures Contained(f)
    {
    }

    /** f has been used; what it could not reach is unchanged. */
    twostate predicate Used(f: M.MockFile)
      reads this, owner.Keys, f, f.node
    {
      && unchanged(`systems, `handles, `source)
      && f in old(source) && old(Contained(f)) && owner == old(owner)[f.node.buf := f.node]
      && (f.node.buf == old(f.node.buf) || fresh(f.node.buf))
      && (forall o :: o in old(owner.Keys) && o in owner.Keys && o !in old(Reach(f)) ==> unchanged(o))
    }

    method UseReach(ghost m: MockFS, f: M.MockFile, fop: H.FileOp, now: int) returns (a: H.Answer)
      requires m.files.Valid() && f.Valid() && InOrOut(m.files, f.node) && Feasible(fop)
      requires f in source && m == source[f] && Contained(f) && this !in owner.Keys
      modifies f`position, f`closed, f.CursorObjects(), f.node, f.node.buf
      modifies f.injector.rules, f.stats, f.stats.ops, m.files`buffers, this`owner
      ensures f.Valid() && Used(f)
      ensures m.files.Valid()
      ensures m.files.Contents() == After(old(m.files.Contents()), m.files.nodes, f.node, f.node.AsEntry())
      ensures unchanged(m.files`at, m.files`nodes)
      ensures m.files.buffers ==
        if f.node in m.files.nodes.Keys then old(m.files.buffers)[f.node.buf := f.node] else old(m.files.buffers)
    {
      a := UseOnMap(m.files, f, fop, now);
      Note(m, f);
    }

    ghost method Note(m: MockFS, f: M.MockFile)
      requires m.files.Valid() && f.Valid()
      modifies this`owner
      ensures owner == old(owner)[f.node.buf := f.node]
      ensures m.files.Valid() && f.Valid() && m.files.Contents() == old(m.files.Contents())
    {
      owner := owner[f.node.buf := f.node];
      m.files.Framed();
    }

    twostate lemma {:induction false} UsedGrown(f: M.MockFile)
      requires old(Sound(f)) && Used(f)
      ensures Grown() && forall o :: o in owner.Keys ==> fresh(o) || o in old(owner.Keys)
    {
    }

    twostate lemma {:induction false} Unnoticed(x: MockFS)
      requires old(Settled(x)) && Grown() && Spared(x) && forall b :: b in old(x.files.buffers).Keys ==> unchanged(b)
      ensures Settled(x) && x.files.Stays() && x.files.Contents() == old(x.files.Contents())
    {
      StillSettled(x);
      x.files.Framed();
    }

    twostate lemma {:induction false} UsedAside(f: M.MockFile)
      requires Used(f) && old(Sound(f)) && old(Settled(source[f]))
      ensures unchanged(source[f]) && unchanged(source[f].injector)
      ensures unchanged(source[f].stats) && unchanged(source[f].stats.ops)
    {
    }

    /** Its own filesystem has noted the new buffer, if it still stores the node. */
    twostate lemma {:induction false} UsedHome(f: M.MockFile)
      requires Used(f) && Grown() && old(Sound(f)) && old(Settled(source[f]))
      requires var t := source[f].files;
        && t.Valid() && unchanged(t`at, t`nodes)
        && t.buffers == if f.node in t.nodes.Keys then old(t.buffers)[f.node.buf := f.node] else old(t.buffers)
      requires unchanged(source[f]) && unchanged(source[f].injector)
      requires unchanged(source[f].stats) && unchanged(source[f].stats.ops)
      ensures Settled(source[f]) && source[f].files.Stays()
    {
    }

    twostate lemma {:induction false} UsedSelf(f: M.MockFile)
      requires old(Sound(f)) && Used(f) && Grown() && f.Valid() && Settled(source[f]) && unchanged(source[f])
      ensures Sound(f)
    {
    }

    twostate lemma {:induction false} UsedKept(f: M.MockFile)
      requires old(Valid()) && Used(f) && Grown() && f in handles
      ensures forall x: MockFS :: x in systems && x != source[f] ==> Spared(x)
    {
      assert old(Sound(f));
    }

    twostate lemma {:induction false} UsedBuffers(f: M.MockFile)
      requires old(Valid()) && Used(f) && Grown() && f in handles
      ensures forall x: MockFS :: x in systems && x != source[f] ==>
        Spared(x) && forall b :: b in old(x.files.buffers).Keys ==> unchanged(b)
    {
      UsedKept(f);
      forall x: MockFS, b | x in systems && x != source[f] && b in old(x.files.buffers).Keys ensures unchanged(b) {
        assert old(Settled(x)) && old(Sound(f));
      }
    }

    twostate lemma {:induction false} UsedOthers(f: M.MockFile)
      requires old(Valid()) && Used(f) && Grown() && f in handles
      ensures forall x :: x in systems && x != source[f] ==>
        Settled(x) && x.files.Stays() && x.files.Contents() == old(x.files.Contents())
    {
      UsedBuffers(f);
      forall x | x in systems && x != source[f]
        ensures Settled(x) && x.files.Stays() && x.files.Contents() == old(x.files.Contents())
      {
        Unnoticed(x);
      }
    }

    twostate lemma {:induction false} UsedAllSound(f: M.MockFile)
      requires old(Valid()) && Used(f) && Grown() && f in handles && f.Valid() && Sound(f)
      requires forall x :: x in systems ==> Settled(x) && unchanged(x)
      ensures forall g :: g in handles ==> Sound(g)
    {
      forall g | g in handles && g != f ensures Sound(g) {
        assert old(Sound(g)) && old(Sound(f));
        assert Spared(g);
        StillSound(g);
      }
    }

    twostate lemma {:induction false} UsedAtHome(f: M.MockFile)
      requires old(Valid()) && source == old(source) && systems == old(systems) && handles == old(handles)
      requires forall x :: x in systems ==> x.files.nodes == old(x.files.nodes)
      ensures forall g :: g in handles ==> forall x :: x in systems ==> AtHome(g, x)
    {
    }

    /** After f has been used all stay separate, and only its own filesystem can have noticed. */
    twostate lemma {:induction false} UsedValid(f: M.MockFile)
      requires old(Valid()) && f in handles && Used(f) && f.Valid()
      requires var t := source[f].files;
        && t.Valid() && unchanged(t`at, t`nodes)
        && t.buffers == if f.node in t.nodes.Keys then old(t.buffers)[f.node.buf := f.node] else old(t.buffers)
      ensures Valid() && Onward()
      ensures forall x :: x in systems && x != source[f] ==> x.files.Contents() == old(x.files.Contents())
      ensures forall x :: x in systems ==> unchanged(x.files`nodes)
    {
      UsedGrown(f);
      UsedAside(f);
      UsedHome(f);
      UsedOthers(f);
      UsedSelf(f);
      UsedAllSound(f);
      UsedAtHome(f);
    }

    /** t, the files of x, with the entry of f's node as it is now, if x has it under the path
        that f was opened at. */
    ghost function Reached(f: M.MockFile, x: MockFS, t: Files): Files
      reads this, x.files, f.node, f.node.buf
    {
      if f in source && x == source[f] && f.node in x.files.nodes.Keys then t[f.name := f.node.AsEntry()] else t
    }

    twostate lemma {:induction false} UsedSeen(f: M.MockFile)
      requires old(Valid()) && Valid() && f in handles && unchanged(`systems, `handles, `source)
      requires source[f].files.Contents() ==
        After(old(source[f].files.Contents()), source[f].files.nodes, f.node, f.node.AsEntry())
      requires forall x :: x in systems && x != source[f] ==> x.files.Contents() == old(x.files.Contents())
      ensures forall x :: x in systems ==> x.files.Contents() == Reached(f, x, old(x.files.Contents()))
    {
      assert AtHome(f, source[f]);
    }

    method DoOnHandle(f: M.MockFile, fop: H.FileOp, now: int) returns (a: H.Answer)
      requires Valid() && f in handles && Feasible(fop) && f.node.len <= MAX_INT
      modifies this`owner, owner.Keys
      ensures Valid() && Onward() && unchanged(`systems, `handles, `source)
      ensures source[f].files.Contents() ==
        After(old(source[f].files.Contents()), source[f].files.nodes, f.node, f.node.AsEntry())
      ensures forall x :: x in systems && x != source[f] ==> x.files.Contents() == old(x.files.Contents())
      ensures forall x :: x in systems ==> unchanged(x.files`nodes)
    {
      StoredOrGone(f, source[f]);
      SoundContained(f);
      a := UseReach(source[f], f, fop, now);
      UsedValid(f);
    }

    method OnHandle(f: M.MockFile, fop: H.FileOp, now: int) returns (a: H.Answer)
      requires Valid() && f in handles && Feasible(fop) && f.node.len <= MAX_INT
      modifies this`owner, owner.Keys
      ensures Valid() && Onward() && unchanged(`systems, `handles, `source)
      ensures forall x :: x in systems ==> x.files.Contents() == Reached(f, x, old(x.files.Contents()))
      ensures forall x :: x in systems ==> unchanged(x.files`nodes)
    {
      a := DoOnHandle(f, fop, now);
      UsedSeen(f);
    }

    // ----- Whole runs -----

    method Fits(m: MockFS, name: string) returns (fits: bool)
      requires Valid() && m in systems
      ensures Valid() && AllContents() == old(AllContents()) && (fits ==> O.Fits(m, name))
    {
      assert Settled(m);
      fits := FitsInt(m, name);
      Undisturbed();
    }

    method OpenIfFits(m: MockFS, name: string)
      requires Valid() && m in systems
      modifies this, owner.Keys
      ensures Valid() && Onward() && AllContents() == old(AllContents())
    {
      var fits := Fits(m, name);
      if fits {
        var _, _ := Open(m, name);
      }
    }

    ghost function Names(): Named
      reads this
    {
      Named(systems, handles, source)
    }

    twostate lemma {:induction false} ChangedThere(m: MockFS)
      requires old(Valid()) && Valid() && m in systems && systems == old(systems)
      requires forall x :: x in systems && x != m ==> x.files.Contents() == old(x.files.Contents())
      ensures AllContents() == old(AllContents())[m := m.files.Contents()]
    {
    }

    /** An operation of a filesystem, as a call of a run. */
    method CallFs(i: nat, op: Fs.Op, now: int) returns (out: Option<Fs.Outcome>)
      requires Valid() && i < |systems|
      modifies this`owner, owner.Keys
      ensures Valid() && Onward() && unchanged(`systems, `handles, `source)
      ensures Follows(Names(), FsCall(i, op, now), old(AllContents()), AllContents())
      ensures out == Some(Fs.Done) ==> forall f ::
        (&& f in handles && f in source && source[f] == systems[i]
         && f.name in Taken(old(AllContents())[systems[i]], op)) ==>
          Inert(f)
    {
      var m := systems[i];
      assert Settled(m);
      ghost var v, t := m.View(), AllContents();
      ghost var end;
      out, end := OnFs(m, op, now);
      ChangedThere(m);
      CameFollows(Names(), i, t, v, m.View(), op, now, out, end);
    }

    /** A used handle has changed its file in the filesystem it was opened in, or nothing. */
    lemma {:induction false} ReachedAllowed(h: nat, fop: H.FileOp, now: int, x: MockFS, t: Files)
      requires h < |handles| && (handles[h].node in x.files.nodes.Keys ==> handles[h].name in t)
      ensures Allowed(Names(), HandleCall(h, fop, now), x, t, Reached(handles[h], x, t))
    {
    }

    lemma {:induction false} NamedAtHome(f: M.MockFile)
      requires Valid() && f in handles
      ensures f in source && forall x :: x in AllContents() && f.node in x.files.nodes.Keys ==>
        f.name in AllContents()[x]
    {
      assert Sound(f);
      forall x | x in systems && f.node in x.files.nodes.Keys ensures f.name in AllContents()[x] {
        assert AtHome(f, x) && Settled(x);
      }
    }

    /** One of a handle. */
    method CallHandle(h: nat, fop: H.FileOp, now: int)
      requires Valid() && h < |handles| && Feasible(fop) && handles[h].node.len <= MAX_INT
      modifies this`owner, owner.Keys
      ensures Valid() && Onward() && unchanged(`systems, `handles, `source) && handles[h] in source
      ensures Follows(Names(), HandleCall(h, fop, now), old(AllContents()), AllContents())
      ensures old(handles[h] in source && Inert(handles[h])) ==> AllContents() == old(AllContents())
    {
      ghost var f, t := handles[h], AllContents();
      NamedAtHome(f);
      ghost var inert := Inert(f);
      var _ := OnHandle(handles[h], fop, now);
      forall x | x in t
        ensures x in AllContents() && Allowed(Names(), HandleCall(h, fop, now), x, t[x], AllContents()[x])
      {
        ReachedAllowed(h, fop, now, x, t[x]);
      }
      if inert {
        SameContents();
      }
    }

    ghost predicate IsMute(h: nat)
      reads this, set x | x in systems :: x.files
    {
      h < |handles| && handles[h] in source && source[handles[h]] in systems && Inert(handles[h])
    }

    /** Handles that have lost their file. */
    ghost predicate Mute(hs: set<nat>)
      reads this, set x | x in systems :: x.files
    {
      forall h :: h in hs ==> IsMute(h)
    }

    /** They never get it back. */
    twostate lemma {:induction false} StaysMute(hs: set<nat>)
      requires old(Valid()) && Valid() && Onward() && old(Mute(hs))
      ensures Mute(hs)
    {
      forall h | h in hs ensures IsMute(h) {
        assert old(IsMute(h));
        assert old(Sound(handles[h])) && handles[h] == old(handles[h]);
      }
    }

    method Do(c: Call)
      requires Valid()
      modifies this, owner.Keys
      ensures Valid() && Onward() && Follows(Names(), c, old(AllContents()), AllContents())
      ensures old(c.HandleCall? && c.h < |handles| && handles[c.h] in source && Inert(handles[c.h])) ==>
        AllContents() == old(AllContents())
    {
      match c
      case NewCall(nodes, now) =>
        var _ := Create(nodes, now);
      case FsCall(i, op, now) =>
        if i < |systems| {
          var _ := CallFs(i, op, now);
        }
      case RuleCall(i, k, err, mode, afterN, matcher) =>
        if i < |systems| {
          assert Settled(systems[i]);
          AddRule(systems[i], k, err, mode, afterN, matcher);
        }
      case OpenCall(i, path) =>
        if i < |systems| {
          OpenIfFits(systems[i], path);
        }
      case SubCall(i, dir, now) =>
        if i < |systems| {
          var _, _ := MakeSub(systems[i], dir, now);
        }
      case HandleCall(h, fop, now) =>
        if h < |handles| && Feasible(fop) && handles[h].node.len <= MAX_INT {
          CallHandle(h, fop, now);
        }
    }

    /** The next call of a run. */
    method DoNext(c: Call, ghost mute: set<nat>, ghost calls: seq<Call>, ghost hist: seq<map<MockFS, Files>>)
      requires Valid() && Mute(mute) && Traced(Names(), calls, hist) && Quiet(mute, calls, hist)
      requires hist[|calls|] == AllContents()
      modifies this, owner.Keys
      ensures Valid() && Onward() && Mute(mute)
      ensures Traced(Names(), calls + [c], hist + [AllContents()]) && Quiet(mute, calls + [c], hist + [AllContents()])
    {
      ghost var n := Names();
      Do(c);
      StaysMute(mute);
      TracedOn(n, Names(), mute, calls, hist, c, AllContents());
    }

    /** Over all runs: whatever is called on whatever filesystem, sub-filesystem or handle, in
        any order, all stay separate, no node comes to be stored where it was not stored before,
        each call changes only the files that it names, and handles that have lost their file
        change nothing. */
    method Run(calls: seq<Call>, ghost mute: set<nat>) returns (ghost hist: seq<map<MockFS, Files>>)
      requires Valid() && Mute(mute)
      modifies this, owner.Keys
      ensures Valid() && Onward() && Mute(mute) && Traced(Names(), calls, hist) && Quiet(mute, calls, hist)
      ensures hist[0] == old(AllContents()) && hist[|calls|] == AllContents()
      decreases |calls|
    {
      if calls == [] {
        hist := [AllContents()];
      } else {
        var k := |calls| - 1;
        hist := Run(calls[..k], mute);
        DoNext(calls[k], mute, calls[..k], hist);
        assert calls[..k] + [calls[k]] == calls;
        hist := hist + [AllContents()];
      }
    }

    /** An operation of the filesystem that the handle h was opened in: mute are the handles,
        none or h, that have lost their file then. */
    method Detach(i: nat, op: Fs.Op, now: int, h: nat) returns (out: Option<Fs.Outcome>, ghost mute: set<nat>)
      requires Valid() && i < |systems| && h < |handles| && handles[h] in source && source[handles[h]] == systems[i]
      modifies this`owner, owner.Keys
      ensures Valid() && Onward() && unchanged(`systems, `handles, `source) && Mute(mute)
      ensures Follows(Names(), FsCall(i, op, now), old(AllContents()), AllContents())
      ensures out == Some(Fs.Done) && handles[h].name in Taken(old(AllContents())[systems[i]], op) ==> h in mute
    {
      out := CallFs(i, op, now);
      mute := if Inert(handles[h]) then {h} else {};
    }

    /** A run after a call c that has found the files t. */
    method RunAfter(ghost c: Call, ghost t: map<MockFS, Files>, calls: seq<Call>, ghost mute: set<nat>)
      returns (ghost hist: seq<map<MockFS, Files>>)
      requires Valid() && Mute(mute) && Follows(Names(), c, t, AllContents())
      modifies this, owner.Keys
      ensures Valid() && Traced(Names(), [c] + calls, [t] + hist)
      ensures |hist| == |calls| + 1 && hist[|calls|] == AllContents() && Quiet(mute, calls, hist)
    {
      ghost var n := Names();
      hist := Run(calls, mute);
      TracedFrom(n, Names(), c, t, calls, hist);
    }

    /** An operation that removes, renames or replaces the file of the handle h, and whatever is
        called afterwards: the handle changes nothing any more. */
    method RunDetached(i: nat, op: Fs.Op, now: int, h: nat, calls: seq<Call>)
      returns (out: Option<Fs.Outcome>, ghost hist: seq<map<MockFS, Files>>)
      requires Valid() && i < |systems| && h < |handles| && handles[h] in source && source[handles[h]] == systems[i]
      modifies this, owner.Keys
      ensures Valid() && Traced(Names(), [FsCall(i, op, now)] + calls, [old(AllContents())] + hist)
      ensures |hist| == |calls| + 1 && hist[|calls|] == AllContents()
      ensures out == Some(Fs.Done) && old(handles[h].name in Taken(AllContents()[systems[i]], op)) ==>
        Quiet({h}, calls, hist)
    {
      ghost var t, mute := AllContents(), {};
      out, mute := Detach(i, op, now, h);
      hist := RunAfter(FsCall(i, op, now), t, calls, mute);
    }

    /** No two keys, of one filesystem or of two, share a node or a buffer. */
    lemma {:induction false} Separation(x: MockFS, p: string, y: MockFS, q: string)
      requires Valid() && x in systems && y in systems && p in x.files.at && q in y.files.at && (x, p) != (y, q)
      ensures x.files.at[p] != y.files.at[q] && x.files.at[p].buf != y.files.at[q].buf
    {
      assert Settled(x) && Settled(y);
      assert Owns(x, x.files.at[p]) && Owns(y, y.files.at[q]);
      assert Owns(x.files.at[p], x.files.at[p].buf) && Owns(y.files.at[q], y.files.at[q].buf);
    }
  }
}
