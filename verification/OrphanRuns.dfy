/** Over whole runs: which calls make the second pass of a listing skip a name. */
module OrphanRuns {
  import opened Common
  import opened Paths
  import opened Files
  import opened Tree
  import opened Listing
  import opened FsMachine
  import opened Orphans
  import R = Rename
  import RO = RenameOrders
  import SR = SubRuns

  /** An invalid path or an injected error stops the call before it reaches the files. */
  predicate Stopped<Q(==)>(fs: Fs<Q>, op: Op)
    requires ValidFs(fs)
  {
    match op
    case Mkdir(p, _) => Gate(fs, OpMkdir, p, ValidPath(p) && p != ".").Some?
    case MkdirAll(p, _) => Gate(fs, OpMkdirAll, p, ValidPath(p)).Some?
    case Remove(p) => Gate(fs, OpRemove, p, ValidPath(p)).Some?
    case RemoveAll(p) => Gate(fs, OpRemoveAll, p, ValidPath(p)).Some?
    case Rename(p, to) => Gate(fs, OpRename, p, ValidPath(p) && ValidPath(to)).Some?
    case WriteFile(p, _, _) => Gate(fs, OpWrite, p, ValidPath(p)).Some?
    case _ => !ValidPath(op.path)
  }

  lemma {:induction false} MutatingFiles<Q>(fs: Fs<Q>, k: Operation, p: string, valid: bool, r: Res, bytes: nat)
    requires ValidFs(fs) && ValidOp(k)
    ensures Mutating(fs, k, p, valid, r, bytes).fs.files == if Gate(fs, k, p, valid).Some? then fs.files else r.files
  {
  }

  lemma {:induction false} StepIsEffect<Q>(fs: Fs<Q>, op: Op, now: int, end: Res)
    requires ValidFs(fs)
    ensures StepTo(fs, op, now, end).fs.files ==
      if Stopped(fs, op) then fs.files else SR.Effect(fs.files, fs.writeMode, fs.create, op, now, end).files
    ensures !Stopped(fs, op) ==>
      ValidPath(op.path) && (op.Mkdir? ==> op.path != ".") && (op.Rename? ==> ValidPath(op.to))
  {
    var t := fs.files;
    match op
    case Mkdir(p, m) => MutatingFiles(fs, OpMkdir, p, ValidPath(p) && p != ".", MkdirRes(t, p, m, now), 0);
    case MkdirAll(p, m) => MutatingFiles(fs, OpMkdirAll, p, ValidPath(p), MkdirAllRes(t, p, m, now), 0);
    case Remove(p) => MutatingFiles(fs, OpRemove, p, ValidPath(p), RemoveRes(t, p), 0);
    case RemoveAll(p) => MutatingFiles(fs, OpRemoveAll, p, ValidPath(p), Res(None, RemoveTree(t, p)), 0);
    case Rename(p, to) => MutatingFiles(fs, OpRename, p, ValidPath(p) && ValidPath(to), end, 0);
    case WriteFile(p, data, m) =>
      MutatingFiles(fs, OpWrite, p, ValidPath(p), WriteFileRes(t, fs.writeMode, fs.create, p, data, m, now), |data|);
    case _ =>
  }

  /** What a caller can look up before a call: Remove and Rename of a file look for no entries
      below it, WriteFile and Rename for no parent. */
  predicate Orphaning(t: Files, w: WriteMode, create: bool, op: Op) {
    match op
    case Remove(p) => FileAbove(t, p)
    case WriteFile(p, _, _) => w != ReadOnly && create && p !in t && p != "." && !ParentStored(t, p)
    case Rename(p, to) => p in t && (FileAbove(t, p) || (p != to && (!ParentStored(t, to) || Under(p, to))))
    case _ => false
  }

  /** Renames whose outcome depends on an order are set aside. */
  ghost predicate Apart(t: Files, op: Op) {
    op.Rename? && op.path in t ==> Definite(t, op.path, op.to)
  }

  lemma {:induction false} EffectConnectedIff(t: Files, w: WriteMode, create: bool, op: Op, now: int, end: Res)
    requires Connected(t) && CanCome(t, op, now, end) && Apart(t, op)
    requires ValidPath(op.path) && (op.Mkdir? ==> op.path != ".") && (op.Rename? ==> ValidPath(op.to))
    ensures Connected(SR.Effect(t, w, create, op, now, end).files) <==> !Orphaning(t, w, create, op)
  {
    var p := op.path;
    StartsWithElem(p);
    match op
    case Mkdir(_, m) => PutConnected(t, p, NewDir(m, now));
    case MkdirAll(_, m) => MkdirAllConnected(t, p, |p|, NewDir(m, now));
    case AddDir(_, m) => MkdirAllConnected(t, p, |p|, NewDir(m, now));
    case AddFile(_, data, m) => AddFileConnected(t, p, data, m, now);
    case RemoveEntry(_) => DropTreeConnected(t, p);
    case Remove(_) => RemoveConnectedIff(t, p);
    case RemoveAll(_) => DropTreeConnected(t, p);
    case Rename(_, to) => RenameEffect(t, p, to, now, end);
    case WriteFile(_, data, m) =>
      if w != ReadOnly && (p in t || create) {
        PutConnected(t, p, WriteFileRes(t, w, create, p, data, m, now).files[p]);
      }
    case _ =>
  }

  lemma {:induction false} RenameEffect(t: Files, p: string, to: string, now: int, end: Res)
    requires Connected(t) && ValidPath(p) && ValidPath(to) && RO.Outcome(t, p, to, now, end)
    requires p in t ==> Definite(t, p, to)
    ensures Connected(end.files) <==>
      !(p in t && (FileAbove(t, p) || (p != to && (!ParentStored(t, to) || Under(p, to)))))
  {
    if p in t {
      RO.OutcomeSettled(t, p, to, now, end);
      if p != to {
        R.RenameIsRename(t, p, to, now);
        RenameConnectedIff(t, p, to, now, RenameFiles(t, p, to, now));
      } else if t[p].mode.dir {
        R.MinusAbsentKey(RemoveTree(t, p), p);
        DropTreeConnected(t, p);
      } else {
        R.MinusAbsentKey(t - {p}, p);
        DropFile(t, p);
      }
    }
  }

  /** One call makes a listing skip a name exactly when it leaves an orphan. */
  lemma {:induction false} StepSkipsIff<Q>(fs: Fs<Q>, op: Op, now: int, end: Res)
    requires ValidFs(fs) && NoSkip(fs.files) && CanCome(fs.files, op, now, end) && Apart(fs.files, op)
    ensures NoSkip(StepTo(fs, op, now, end).fs.files) <==>
      Stopped(fs, op) || !Orphaning(fs.files, fs.writeMode, fs.create, op)
  {
    SkipIsDeadIff(fs.files);
    StepIsEffect(fs, op, now, end);
    if !Stopped(fs, op) {
      EffectConnectedIff(fs.files, fs.writeMode, fs.create, op, now, end);
    }
    SkipIsDeadIff(StepTo(fs, op, now, end).fs.files);
  }

  ghost predicate NoOrphans<Q>(fs: Fs<Q>, calls: seq<Call>, ends: seq<Res>)
    requires ValidFs(fs) && |ends| == |calls|
    decreases |calls|
  {
    calls == [] || (
      && Apart(fs.files, calls[0].op)
      && (Stopped(fs, calls[0].op) || !Orphaning(fs.files, fs.writeMode, fs.create, calls[0].op))
      && NoOrphans(StepTo(fs, calls[0].op, calls[0].now, ends[0]).fs, calls[1..], ends[1..]))
  }

  /** As long as no call leaves an orphan, no listing ever skips a name. */
  lemma {:induction false} RunSkipsNothing<Q>(fs: Fs<Q>, calls: seq<Call>, ends: seq<Res>)
    requires ValidFs(fs) && NoSkip(fs.files) && Comes(fs, calls, ends) && NoOrphans(fs, calls, ends)
    ensures var t := Run(fs, calls, ends).fs.files;
      NoSkip(t) && (ValidKeys(t) ==> forall d :: ValidPath(d) ==> Listed(t, d) == ChildNames(t, d))
    decreases |calls|
  {
    if NoSkip(Run(fs, calls, ends).fs.files) && ValidKeys(Run(fs, calls, ends).fs.files) {
      ValidKeysNames(Run(fs, calls, ends).fs.files);
    }
    if calls != [] {
      StepSkipsIff(fs, calls[0].op, calls[0].now, ends[0]);
      RunSkipsNothing(StepTo(fs, calls[0].op, calls[0].now, ends[0]).fs, calls[1..], ends[1..]);
    }
  }

  // ----- Trees -----

  lemma {:induction false} NothingBelowRoot(t: Files)
    requires ValidKeys(t)
    ensures Subtree(t, ".") <= {"."}
  {
    forall p | p in Subtree(t, ".") && p != "." ensures false { UnderRel(".", p); }
  }

  /** In a tree a safe call leaves no orphan. */
  lemma {:induction false} SafeLeavesNone<Q>(fs: Fs<Q>, op: Op)
    requires ValidFs(fs) && TreeInv(fs.files) && Safe(fs, op)
    ensures Apart(fs.files, op) && !Orphaning(fs.files, fs.writeMode, fs.create, op)
  {
    var t, p := fs.files, op.path;
    if p in t && !t[p].mode.dir { FilesHaveNoDescendants(t, p); }
    if op.Rename? && p in t {
      NothingBelowRoot(t);
      if p != op.to {
        R.IncomparableRenamable(t.Keys + {op.to}, p, op.to);
        RO.RenamableSettled(t.Keys + {op.to}, p, op.to);
      }
    }
  }

  /** From a tree, a run that keeps the tree is one that leaves no orphan. */
  lemma {:induction false} TreeRunsSkipNothing<Q>(fs: Fs<Q>, calls: seq<Call>, ends: seq<Res>)
    requires ValidFs(fs) && TreeInv(fs.files) && Comes(fs, calls, ends) && AllSafe(fs, calls, ends)
    ensures NoSkip(fs.files) && NoOrphans(fs, calls, ends)
    decreases |calls|
  {
    TreeIsConnected(fs.files);
    SkipIsDeadIff(fs.files);
    if calls != [] {
      var c := calls[0];
      SafeLeavesNone(fs, c.op);
      SafeStep(fs, c.op, c.now, ends[0]);
      StepKeepsTree(fs, c.op, c.now);
      TreeRunsSkipNothing(StepTo(fs, c.op, c.now, ends[0]).fs, calls[1..], ends[1..]);
    }
  }

  // ----- Two calls that do -----

  lemma {:induction false} TwoElems()
    ensures IsRel("a/b") && Dir("a/b") == "a" && Under("a", "a/b") && FirstSeg("a/b") == "a" && IsRel("a")
  {
    assert "a/b" == "a" + "/" + "b";
    SplitNoSlash("a");
    SplitNoSlash("b");
    RelConcat("a", "b");
    DirOfChild("a", "b");
    FirstSegUnique("a", "a/b");
  }

  /** WriteFile("a/b") into an empty filesystem: the listing of the root skips "a". */
  lemma {:induction false} WriteFileSkips(w: WriteMode, data: seq<byte>, m: Mode)
    requires w != ReadOnly
    ensures var t := WriteFileRes(map["." := NewDir(DefaultDir, 0)], w, true, "a/b", data, m, 1).files;
      "a" in ChildNames(t, ".") && "a" !in Listed(t, ".")
  {
    TwoElems();
    var t := WriteFileRes(map["." := NewDir(DefaultDir, 0)], w, true, "a/b", data, m, 1).files;
    assert "a/b" in t && Below(".", "a/b");
  }

  lemma {:induction false} NothingAbove(q: string, p: string)
    requires '/' !in p
    ensures !Under(q, p)
  {
    assert (q + "/")[|q|] == '/';
  }

  /** The map after AddFile("a") into an empty filesystem. */
  lemma {:induction false} OneFile(data: seq<byte>, m: Mode, now: int)
    ensures AddFileRes(map["." := NewDir(DefaultDir, 0)], "a", data, m, now) ==
      Res(None, map["." := NewDir(DefaultDir, 0), "a" := Entry(FileMode(m), data, now)])
  {
    TwoElems();
    NoSlashNoDir("a");
  }

  /** AddFile("a"), then WriteFile("a/b") with createIfMissing, then Remove("a"): the listing of
      the root skips "a", though the comment on the skip names Remove among the operations that
      prevent it, and before the Remove nothing was skipped. */
  lemma {:induction false} RemoveSkips(w: WriteMode, data: seq<byte>, m: Mode)
    requires w != ReadOnly
    ensures var a := AddFileRes(map["." := NewDir(DefaultDir, 0)], "a", data, m, 1);
      var b := WriteFileRes(a.files, w, true, "a/b", data, m, 2);
      var c := RemoveRes(b.files, "a");
      && a.err.None? && b.err.None? && c.err.None? && NoSkip(b.files)
      && "a" in ChildNames(c.files, ".") && "a" !in Listed(c.files, ".")
  {
    TwoElems();
    OneFile(data, m, 1);
    var a := AddFileRes(map["." := NewDir(DefaultDir, 0)], "a", data, m, 1).files;
    forall p, q | p in a ensures !Under(q, p) { NothingAbove(q, p); }
    PutConnected(a, "a/b", Entry(Mode(false, m.bits), data, 2));
    var b := WriteFileRes(a, w, true, "a/b", data, m, 2).files;
    SkipIsDeadIff(b);
    assert "a/b" in RemoveRes(b, "a").files && Below(".", "a/b");
  }
}
