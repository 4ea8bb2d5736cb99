/** What each call of the filesystem comes to, said of the map itself: the error rules come
    first, and where no rule fires the outcome and the new map are the ones given here. */
module FsCalls {
  import opened Common
  import opened Paths
  import opened Files
  import opened Tree
  import opened Listing
  import opened Order
  import opened FsMachine
  import Rename
  import RO = RenameOrders
  import Inj = Injector
  import Stats
  import SubFs

  // ----- The error rules -----

  /** The operations that ask the error rules once. AddFile, AddDir and RemoveEntry do not ask
      them at all; ReadFile asks them for each of its parts. */
  predicate Asks(op: Op) {
    !(op.AddFile? || op.AddDir? || op.RemoveEntry? || op.ReadFile?)
  }

  function Asked(op: Op): Operation
    requires Asks(op)
  {
    match op
    case Mkdir(_, _) => OpMkdir
    case MkdirAll(_, _) => OpMkdirAll
    case Remove(_) => OpRemove
    case RemoveAll(_) => OpRemoveAll
    case Rename(_, _) => OpRename
    case WriteFile(_, _, _) => OpWrite
    case Stat(_) => OpStat
    case ReadDir(_) => OpReadDir
  }

  predicate Proper(op: Op) {
    ValidPath(op.path) && (op.Mkdir? ==> op.path != ".") && (op.Rename? ==> ValidPath(op.to))
  }

  /** The same filesystem without any rule. */
  function Ruleless<R(==)>(fs: Fs<R>): (r: Fs<R>)
    requires ValidFs(fs)
    ensures ValidFs(r)
  {
    fs.(inj := Inj.Injector(map[], map[], map[]))
  }

  /** What the rules may do to a step: stop it with an error, or have no part in it. */
  ghost predicate Obeys<R>(fs: Fs<R>, v: Inj.Verdict<R>, s: Stepped<R>, free: Stepped<R>) {
    if v.err.Some? then
      s.out == Failed(v.err.value) && s.fs == fs.(inj := fs.inj.(ctr := v.ctr), stats := s.fs.stats)
    else
      s.out == free.out && s.fs == free.fs.(inj := fs.inj.(ctr := v.ctr))
  }

  lemma {:induction false} MutatingObeys<R>(fs: Fs<R>, k: Operation, p: string, r: Res, bytes: nat)
    requires ValidFs(fs) && ValidOp(k)
    ensures Obeys(fs, Inj.Check(fs.inj, k, p), Mutating(fs, k, p, true, r, bytes),
                  Mutating(Ruleless(fs), k, p, true, r, bytes))
  {
    assert Inj.Check(Ruleless(fs).inj, k, p).err.None?;
  }

  lemma {:induction false} LookingObeys<R>(fs: Fs<R>, k: Operation, p: string, out: Outcome)
    requires ValidFs(fs) && ValidOp(k)
    ensures Obeys(fs, Inj.Check(fs.inj, k, p), Looking(fs, k, p, true, out), Looking(Ruleless(fs), k, p, true, out))
  {
    assert Inj.Check(Ruleless(fs).inj, k, p).err.None?;
  }

  /** An injected error reaches the caller, and the files are as they were. If no rule fires, the
      rules have no part in what happens. Either way they have counted on. */
  lemma {:induction false} InjectedErrorReaches<R>(fs: Fs<R>, op: Op, now: int, end: Res)
    requires ValidFs(fs) && Asks(op) && Proper(op)
    ensures Obeys(fs, Inj.Check(fs.inj, Asked(op), op.path),
                  StepTo(fs, op, now, end), StepTo(Ruleless(fs), op, now, end))
  {
    var t := fs.files;
    match op
    case Mkdir(p, m) => MutatingObeys(fs, OpMkdir, p, MkdirRes(t, p, m, now), 0);
    case MkdirAll(p, m) => MutatingObeys(fs, OpMkdirAll, p, MkdirAllRes(t, p, m, now), 0);
    case Remove(p) => MutatingObeys(fs, OpRemove, p, RemoveRes(t, p), 0);
    case RemoveAll(p) => MutatingObeys(fs, OpRemoveAll, p, Res(None, RemoveTree(t, p)), 0);
    case Rename(p, to) => MutatingObeys(fs, OpRename, p, end, 0);
    case WriteFile(p, data, m) =>
      MutatingObeys(fs, OpWrite, p, WriteFileRes(t, fs.writeMode, fs.create, p, data, m, now), |data|);
    case Stat(p) => LookingObeys(fs, OpStat, p, StatOut(t, p));
    case ReadDir(p) => LookingObeys(fs, OpReadDir, p, ReadDirOut(t, p));
  }

  /** An improper path is refused before the rules are asked, by every operation. */
  lemma {:induction false} ImproperIsInvalid<R>(fs: Fs<R>, op: Op, now: int, end: Res)
    requires ValidFs(fs) && !Proper(op)
    ensures var s := StepTo(fs, op, now, end);
      s.out == Failed(Invalid) && s.fs.files == fs.files && s.fs.inj == fs.inj
  {
  }

  /** AddFile, AddDir and RemoveEntry neither ask the rules nor count. */
  lemma {:induction false} BeneathTheRules<R>(fs: Fs<R>, op: Op, now: int, end: Res)
    requires ValidFs(fs) && (op.AddFile? || op.AddDir? || op.RemoveEntry?)
    ensures var s := StepTo(fs, op, now, end);
      s.fs == fs.(files := s.fs.files) && s.out == StepTo(Ruleless(fs), op, now, end).out
  {
  }

  /** One call of kind k more. */
  ghost predicate CountsOnce(was: Stats.Ledger, after: Stats.Ledger, k: Operation, wrote: nat, failed: bool)
    requires Stats.ValidLedger(was) && ValidOp(k)
  {
    && after.ops == was.ops[k := Stats.OpCount((was.ops[k].total + 1) % TWO_64,
                                   if failed then (was.ops[k].failure + 1) % TWO_64 else was.ops[k].failure)]
    && after.bytesRead == was.bytesRead
    && after.bytesWritten == (was.bytesWritten + wrote) % TWO_64
  }

  lemma {:induction false} CountsFrom<R>(fs: Fs<R>, op: Op, s: Stepped<R>)
    requires ValidFs(fs) && (Asks(op) || (op.ReadFile? && ValidPath(op.path)))
    requires RecordOf(op, s.out) != [] ==> s.fs.stats == Stats.Recorded(fs.stats, RecordOf(op, s.out)[0])
    ensures CountsOnce(fs.stats, s.fs.stats, if op.ReadFile? then OpOpen else Asked(op),
                       if op.WriteFile? && !s.out.Failed? then |op.data| else 0, s.out.Failed?)
  {
    Stats.RecordedCounts(fs.stats, if op.ReadFile? then OpOpen else Asked(op), 0,
                         if op.WriteFile? && !s.out.Failed? then |op.data| else 0, s.out.Failed?);
  }

  /** Whatever it comes to, a call counts once for its kind, as a failure if it fails, and with
      the bytes that WriteFile has written. Of ReadFile the opening counts. */
  lemma {:induction false} CallCounts<R>(fs: Fs<R>, op: Op, now: int, end: Res)
    requires ValidFs(fs) && (Asks(op) || (op.ReadFile? && ValidPath(op.path)))
    ensures var s := StepTo(fs, op, now, end);
      CountsOnce(fs.stats, s.fs.stats, if op.ReadFile? then OpOpen else Asked(op),
                 if op.WriteFile? && !s.out.Failed? then |op.data| else 0, s.out.Failed?)
  {
    StepRecords(fs, op, now, end);
    CountsFrom(fs, op, StepTo(fs, op, now, end));
  }

  // ----- What the operations come to when no rule fires -----

  predicate Unstopped<R(==)>(fs: Fs<R>, op: Op) {
    ValidFs(fs) && Proper(op) && (Asks(op) ==> Inj.Check(fs.inj, Asked(op), op.path).err.None?)
  }

  lemma {:induction false} DirOf(d: string, n: string)
    requires ValidPath(d) && ValidElem(n)
    ensures Dir(Child(d, n)) == d && Base(Child(d, n)) == n
  {
    if d == "." { NoSlashNoDir(n); } else { DirOfChild(d, n); }
  }

  lemma {:induction false} MkdirMakes(t: Files, d: string, n: string, m: Mode, now: int)
    requires ValidPath(d) && ValidElem(n)
    ensures var p := Child(d, n);
      MkdirRes(t, p, m, now) ==
        if p in t then Res(Some(Exist), t)
        else if d != "." && d !in t then Res(Some(NotExist), t)
        else if d != "." && !t[d].mode.dir then Res(Some(NotDir), t)
        else Res(None, t[p := Entry(Mode(true, m.bits % 512), [], now)])
  {
    DirOf(d, n);
  }

  /** Mkdir of the child n of d. */
  lemma {:induction false} MkdirComesTo<R>(fs: Fs<R>, d: string, n: string, m: Mode, now: int, end: Res)
    requires ValidPath(d) && ValidElem(n) && Unstopped(fs, Mkdir(Child(d, n), m))
    ensures var t, p, s := fs.files, Child(d, n), StepTo(fs, Mkdir(Child(d, n), m), now, end);
      if p in t then s.out == Failed(Exist) && s.fs.files == t
      else if d != "." && d !in t then s.out == Failed(NotExist) && s.fs.files == t
      else if d != "." && !t[d].mode.dir then s.out == Failed(NotDir) && s.fs.files == t
      else s.out == Done && s.fs.files == t[p := Entry(Mode(true, m.bits % 512), [], now)]
  {
    MkdirMakes(fs.files, d, n, m, now);
  }

  /** p and its ancestors as directories: none of them is a file in the old map; in the new one
      all are there, those that were missing with the given entry, and nothing else is new. */
  ghost predicate MadeAll(t: Files, p: string, e: Entry, t': Files) {
    && (forall q :: q in t' <==> q in t || Within(q, p))
    && (forall q :: q in t ==> t'[q] == t[q])
    && (forall q :: q in t' && q !in t ==> t'[q] == e)
  }

  ghost predicate FileOnTheWay(t: Files, p: string) {
    exists q :: q in t && Within(q, p) && !t[q].mode.dir
  }

  lemma {:induction false} MkdirAllMakes(t: Files, p: string, m: Mode, now: int)
    requires ValidPath(p)
    ensures var r := MkdirAllRes(t, p, m, now);
      if FileOnTheWay(t, p) then r.err == Some(NotDir) && (TreeInv(t) ==> r.files == t)
      else r.err == None && MadeAll(t, p, Entry(Mode(true, m.bits % 512), [], now), r.files)
  {
    MkdirAllAny(t, p, |p|, NewDir(m, now));
    if TreeInv(t) { MkdirAllAtomic(t, p, m, now); }
    forall q ensures q in Ancestry(p) <==> Within(q, p) { AncestryIsWithin(p, q); }
    if FileOnTheWay(t, p) {
      var q :| q in t && Within(q, p) && !t[q].mode.dir;
      assert q in Ancestry(p);
    }
  }

  /** MkdirAll and AddDir: all or nothing in a tree. */
  lemma {:induction false} MkdirAllComesTo<R>(fs: Fs<R>, op: Op, now: int, end: Res)
    requires (op.MkdirAll? || op.AddDir?) && Unstopped(fs, op)
    ensures var t, p, s := fs.files, op.path, StepTo(fs, op, now, end);
      if FileOnTheWay(t, p) then s.out == Failed(NotDir) && (TreeInv(t) ==> s.fs.files == t)
      else s.out == Done && MadeAll(t, p, Entry(Mode(true, op.mode.bits % 512), [], now), s.fs.files)
  {
    MkdirAllMakes(fs.files, op.path, op.mode, now);
  }

  /** A file at p, and d and its ancestors as directories with the permissions 0o755. */
  ghost predicate PlacedAt(t: Files, d: string, p: string, e: Entry, now: int, t': Files) {
    && p in t' && t'[p] == e
    && (forall q :: q != p ==> (q in t' <==> q in t || (d != "." && Within(q, d))))
    && (forall q :: q != p && q in t ==> t'[q] == t[q])
    && (forall q :: q != p && q in t' && q !in t ==> t'[q] == Entry(Mode(true, 0x1ED), [], now))
  }

  lemma {:induction false} NothingMissing(t: Files, d: string, p: string, e: Entry, t': Files)
    requires TreeInv(t) && p in t && Under(d, p) && MadeAll(t, d, e, t')
    ensures t' == t
  {
    forall q | Within(q, d) ensures q in t {
      if q != d { UnderTransitive(q, d, p); }
      AncestorsPresent(t, q, p);
    }
  }

  lemma {:induction false} ParentsOf(t: Files, d: string, n: string, now: int)
    requires ValidPath(d) && ValidElem(n)
    ensures EnsureParents(t, Child(d, n), now) ==
      if d == "." then Res(None, t) else MkdirAllRes(t, d, Mode(false, 0x1ED), now)
  {
    DirOf(d, n);
  }

  lemma {:induction false} ParentsMake(t: Files, d: string, n: string, now: int)
    requires TreeInv(t) && ValidPath(d) && ValidElem(n)
    ensures var r := EnsureParents(t, Child(d, n), now);
      if d == "." then r == Res(None, t)
      else if FileOnTheWay(t, d) then r == Res(Some(NotDir), t)
      else r.err.None? && MadeAll(t, d, Entry(Mode(true, 0x1ED), [], now), r.files)
  {
    ParentsOf(t, d, n, now);
    MkdirAllMakes(t, d, Mode(false, 0x1ED), now);
  }

  lemma {:induction false} PlacedFrom(t: Files, d: string, p: string, e: Entry, now: int, made: Files)
    requires if d == "." then made == t else MadeAll(t, d, Entry(Mode(true, 0x1ED), [], now), made)
    requires d == "." || !Within(p, d)
    ensures PlacedAt(t, d, p, e, now, made[p := e]) && IsDirIn(made, p) == IsDirIn(t, p)
  {
  }

  lemma {:induction false} AddFileMakes(t: Files, d: string, n: string, data: seq<byte>, m: Mode, now: int)
    requires TreeInv(t) && ValidPath(d) && ValidElem(n)
    ensures var p := Child(d, n); var r := AddFileRes(t, p, data, m, now);
      if d != "." && FileOnTheWay(t, d) then r == Res(Some(NotDir), t)
      else if p in t && t[p].mode.dir then r == Res(Some(IsDir), t)
      else r.err.None? && PlacedAt(t, d, p, Entry(Mode(false, m.bits % 512), data, now), now, r.files)
  {
    var p := Child(d, n);
    var r := EnsureParents(t, p, now);
    ChildBelow(d, n);
    ParentsMake(t, d, n, now);
    if r.err.None? {
      assert d == "." || !Within(p, d);
      PlacedFrom(t, d, p, Entry(Mode(false, m.bits % 512), data, now), now, r.files);
      if d != "." && p in t { NothingMissing(t, d, p, Entry(Mode(true, 0x1ED), [], now), r.files); }
    }
  }

  /** AddFile to the child n of d. */
  lemma {:induction false} AddFileComesTo<R>(
      fs: Fs<R>, d: string, n: string, data: seq<byte>, m: Mode, now: int, end: Res)
    requires ValidFs(fs) && TreeInv(fs.files) && ValidPath(d) && ValidElem(n)
    ensures var t, p, s := fs.files, Child(d, n), StepTo(fs, AddFile(Child(d, n), data, m), now, end);
      if d != "." && FileOnTheWay(t, d) then s.out == Failed(NotDir) && s.fs.files == t
      else if p in t && t[p].mode.dir then s.out == Failed(IsDir) && s.fs.files == t
      else s.out == Done && PlacedAt(t, d, p, Entry(Mode(false, m.bits % 512), data, now), now, s.fs.files)
  {
    AddFileMakes(fs.files, d, n, data, m, now);
  }

  /** Remove. */
  lemma {:induction false} RemoveComesTo<R>(fs: Fs<R>, p: string, now: int, end: Res)
    requires Unstopped(fs, Remove(p))
    ensures var t, s := fs.files, StepTo(fs, Remove(p), now, end);
      if p !in t then s.out == Failed(NotExist) && s.fs.files == t
      else if t[p].mode.dir && exists q :: q in t && Under(p, q) then s.out == Failed(NotEmpty) && s.fs.files == t
      else s.out == Done && s.fs.files == t - {p}
  {
    assert HasDescendants(fs.files, p) <==> exists q :: q in fs.files && Under(p, q);
  }

  /** RemoveAll and RemoveEntry take away p and everything below it, and nothing else. */
  lemma {:induction false} RemoveAllComesTo<R>(fs: Fs<R>, op: Op, now: int, end: Res)
    requires (op.RemoveAll? || op.RemoveEntry?) && Unstopped(fs, op)
    ensures var t, p, s := fs.files, op.path, StepTo(fs, op, now, end);
      && s.out == Done
      && (forall q :: q in s.fs.files <==> q in t && q != p && !Under(p, q))
      && (forall q :: q in s.fs.files ==> s.fs.files[q] == t[q])
  {
    var t' := RemoveTree(fs.files, op.path);
    forall q ensures q in t' <==> q in fs.files && q != op.path && !Under(op.path, q) {
      assert q in Subtree(fs.files, op.path) <==> q in fs.files && Within(op.path, q);
    }
  }

  /** The entries that a rename of p carries: p, and all below it if it is a directory. */
  predicate Goes(t: Files, p: string, q: string)
    requires p in t
  {
    q in t && (q == p || (t[p].mode.dir && Under(p, q)))
  }

  /** x goes to q when p becomes to. */
  predicate GoesTo(t: Files, p: string, to: string, x: string, q: string)
    requires p in t
  {
    Goes(t, p, x) && q == to + x[|p|..]
  }

  /** What goes arrives under its new name, p itself with a new time; an entry that does not go
      stays unless one arrives in its place; there is nothing else. */
  ghost predicate MovedTo(t: Files, p: string, to: string, now: int, t': Files)
    requires p in t
  {
    && (forall x, q :: GoesTo(t, p, to, x, q) ==>
          q in t' && t'[q] == if x == p then t[p].(mtime := now) else t[x])
    && (forall q :: q in t' && (forall x :: !GoesTo(t, p, to, x, q)) ==> q in t && !Goes(t, p, q) && t'[q] == t[q])
    && (forall q :: q in t && !Goes(t, p, q) ==> q in t')
  }

  lemma {:induction false} RenameMakes(t: Files, p: string, to: string, now: int)
    requires p in t && p != to
    ensures MovedTo(t, p, to, now, RenameFiles(t, p, to, now))
  {
    var t' := RenameFiles(t, p, to, now);
    Rename.RenameIsRename(t, p, to, now);
    forall x, q | GoesTo(t, p, to, x, q)
      ensures q in t' && t'[q] == if x == p then t[p].(mtime := now) else t[x]
    {
      RebaseInverse(p, to, x);
      assert Rename.IsTarget(t, p, to, q);
    }
    forall q | q in t' && (forall x :: !GoesTo(t, p, to, x, q)) ensures q in t && !Goes(t, p, q) && t'[q] == t[q] {
      if Rename.IsTarget(t, p, to, q) {
        RebaseInverse(to, p, q);
        assert GoesTo(t, p, to, Rebase(to, p, q), q);
      }
    }
  }

  /** Rename of paths none of which lies within the other. */
  lemma {:induction false} RenameComesTo<R>(fs: Fs<R>, p: string, to: string, now: int, end: Res)
    requires Unstopped(fs, Rename(p, to)) && CanCome(fs.files, Rename(p, to), now, end) && Incomparable(p, to)
    ensures var t, s := fs.files, StepTo(fs, Rename(p, to), now, end);
      if p !in t then s.out == Failed(NotExist) && s.fs.files == t
      else s.out == Done && MovedTo(t, p, to, now, s.fs.files)
  {
    Rename.IncomparableRenamable(fs.files.Keys + {to}, p, to);
    RO.OutcomeIsRewrite(fs.files, p, to, now, end);
    if p in fs.files { RenameMakes(fs.files, p, to, now); }
  }

  /** WriteFile stores what it is given: in place of the old bytes, or behind them. */
  lemma {:induction false} WriteFileComesTo<R>(fs: Fs<R>, p: string, data: seq<byte>, m: Mode, now: int, end: Res)
    requires Unstopped(fs, WriteFile(p, data, m))
    ensures var t, s := fs.files, StepTo(fs, WriteFile(p, data, m), now, end);
      if fs.writeMode == ReadOnly then s.out == Failed(Permission) && s.fs.files == t
      else if p !in t && !fs.create then s.out == Failed(NotExist) && s.fs.files == t
      else
        && s.out == Done && p in s.fs.files && s.fs.files == t[p := s.fs.files[p]]
        && s.fs.files[p].mtime == now
        && s.fs.files[p].mode == (if p in t then t[p].mode else Mode(false, m.bits))
        && s.fs.files[p].data == (if p in t && fs.writeMode == Append then t[p].data + data else data)
  {
  }

  lemma {:induction false} StatIs(t: Files, d: string, n: string)
    requires ValidPath(d) && (ValidElem(n) || (d == "." && n == "."))
    ensures var p := Child(d, n);
      StatOut(t, p) == if p in t then Info(FileInfo(n, t[p].mode, t[p].mtime, |t[p].data|)) else Failed(NotExist)
  {
    if n == "." { NoSlashNoDir(n); } else { DirOf(d, n); }
  }

  /** Stat of the child n of d, or of the root. */
  lemma {:induction false} StatComesTo<R>(fs: Fs<R>, d: string, n: string, now: int, end: Res)
    requires ValidPath(d) && (ValidElem(n) || (d == "." && n == ".")) && Unstopped(fs, Stat(Child(d, n)))
    ensures var t, p, s := fs.files, Child(d, n), StepTo(fs, Stat(Child(d, n)), now, end);
      && s.fs.files == t
      && s.out == if p in t then Info(FileInfo(n, t[p].mode, t[p].mtime, |t[p].data|)) else Failed(NotExist)
  {
    StatIs(fs.files, d, n);
  }

  /** ReadDir of d lists exactly the children of d, as they are stored, in order. */
  lemma {:induction false} ReadDirComesTo<R>(fs: Fs<R>, d: string, now: int, end: Res)
    requires Unstopped(fs, ReadDir(d)) && ValidKeys(fs.files)
    ensures var t, s := fs.files, StepTo(fs, ReadDir(d), now, end);
      && s.fs.files == t
      && if d !in t then s.out == Failed(NotExist)
         else if !t[d].mode.dir then s.out == Failed(NotDir)
         else
           && s.out.Entries? && Increasing(NamesOf(s.out.entries))
           && (forall n :: n in NamesOf(s.out.entries) <==> ValidElem(n) && Child(d, n) in t)
           && forall i :: 0 <= i < |s.out.entries| ==> DescribesChild(t, d, s.out.entries[i])
  {
    ReadDirCanonical(fs.files, d);
  }

  /** Sub refuses what ReadDir refuses, with the same error, but asks no rule. */
  lemma {:induction false} SubRefuses<R>(fs: Fs<R>, d: string, now: int, end: Res)
    requires Unstopped(fs, ReadDir(d))
    ensures var t, s, e := fs.files, StepTo(fs, ReadDir(d), now, end), SubFs.SubErr(fs.files, d);
      && e == (if d !in t then Some(NotExist) else if !t[d].mode.dir then Some(NotDir) else None)
      && if e.Some? then s.out == Failed(e.value) else s.out.Entries?
  {
  }

  // ----- ReadFile -----

  /** No rule for opening, reading, closing, or for all operations concerns p. */
  ghost predicate Silent<R>(inj: Inj.Injector<R>, p: string)
    requires Inj.ValidInjector(inj)
  {
    forall op, i :: op in inj.lists && op in {OpUnknown, OpOpen, OpRead, OpClose} && 0 <= i < |inj.lists[op]| ==>
      !Inj.RuleMatches(inj.attr[inj.lists[op][i]], p)
  }

  lemma {:induction false} SilentCascade<R>(inj: Inj.Injector<R>, p: string)
    requires Inj.ValidInjector(inj) && Silent(inj, p)
    ensures forall op, r :: op in {OpOpen, OpRead, OpClose} && r in Inj.Cascade(inj, op) ==>
      !Inj.RuleMatches(inj.attr[r], p)
  {
  }

  lemma {:induction false} ReadsBack<R>(fs: Fs<R>, p: string, chunk: nat -> nat, now: int, end: Res)
    requires ValidFs(fs) && ValidPath(p) && p in fs.files && Silent(fs.inj, p)
    ensures StepTo(fs, ReadFile(p, chunk), now, end).out == Content(fs.files[p].data, None)
  {
    SilentCascade(fs.inj, p);
    ReadFileReturnsStored(fs, p, chunk);
  }

  /** What WriteFile has stored ReadFile returns. */
  lemma {:induction false} WriteThenRead<R>(
      fs: Fs<R>, p: string, data: seq<byte>, m: Mode, chunk: nat -> nat, now: int, later: int, e: Res, e': Res)
    requires Unstopped(fs, WriteFile(p, data, m)) && Silent(fs.inj, p)
    requires StepTo(fs, WriteFile(p, data, m), now, e).out == Done
    ensures var t, s := fs.files, StepTo(fs, WriteFile(p, data, m), now, e);
      StepTo(s.fs, ReadFile(p, chunk), later, e').out ==
        Content(if p in t && fs.writeMode == Append then t[p].data + data else data, None)
  {
    WriteFileComesTo(fs, p, data, m, now, e);
    InjectedErrorReaches(fs, WriteFile(p, data, m), now, e);
    ReadsBack(StepTo(fs, WriteFile(p, data, m), now, e).fs, p, chunk, later, e');
  }

  function ReadCalls(p: string, k: nat): (r: seq<Inj.Call>)
    ensures |r| == k
  {
    if k == 0 then [] else [Inj.Call(OpRead, p)] + ReadCalls(p, k - 1)
  }

  /** k reads that no rule stops, and one more that ends it: they have come to n. */
  ghost predicate StopsAt<R>(inj: Inj.Injector<R>, p: string, data: seq<byte>, pos: nat, a: AllRead<R>, k: nat, n: nat)
    requires Inj.ValidInjector(inj)
  {
    var t := Inj.RunChecks(inj, ReadCalls(p, k + 1));
    && (forall i :: 0 <= i < k ==> t.errs[i].None?)
    && pos + k <= n <= |data| && (k == 0 ==> n == pos) && (t.errs[k].None? ==> n == |data|)
    && a == AllRead(data[..n], if t.errs[k] == Some(EOF) then None else t.errs[k], t.final)
  }

  lemma {:induction false} StopsLater<R>(
      inj: Inj.Injector<R>, p: string, data: seq<byte>, pos: nat, pos': nat, a: AllRead<R>, k: nat, n: nat)
    requires Inj.ValidInjector(inj) && Inj.Check(inj, OpRead, p).err.None? && pos < pos'
    requires StopsAt(Inj.After(inj, Inj.Check(inj, OpRead, p)), p, data, pos', a, k, n)
    ensures StopsAt(inj, p, data, pos, a, k + 1, n)
  {
    assert ReadCalls(p, k + 2)[1..] == ReadCalls(p, k + 1);
  }

  lemma {:induction false} ReadAllStops<R>(
      inj: Inj.Injector<R>, p: string, data: seq<byte>, pos: nat, chunk: nat -> nat) returns (k: nat, n: nat)
    requires Inj.ValidInjector(inj) && pos <= |data|
    ensures StopsAt(inj, p, data, pos, ReadAll(inj, p, data, pos, chunk), k, n)
    decreases |data| - pos
  {
    var v := Inj.Check(inj, OpRead, p);
    if v.err.Some? || pos == |data| {
      k, n := 0, pos;
      assert ReadCalls(p, 1) == [Inj.Call(OpRead, p)] && ReadCalls(p, 1)[1..] == [];
      assert data[..|data|] == data;
    } else {
      var pos' := pos + ReadSize(chunk, pos, |data| - pos);
      k, n := ReadAllStops(Inj.After(inj, v), p, data, pos', chunk);
      StopsLater(inj, p, data, pos, pos', ReadAll(inj, p, data, pos, chunk), k, n);
      k := k + 1;
    }
  }

  /** What ReadFile of a stored file comes to after k reads that no rule stopped and that have
      come to n bytes, when the next one has ended it. */
  ghost predicate ReadSoFar<R>(fs: Fs<R>, p: string, k: nat, n: nat, s: Stepped<R>)
    requires ValidFs(fs) && p in fs.files
  {
    var data := fs.files[p].data;
    var start := fs.inj.(ctr := Inj.Check(fs.inj, OpOpen, p).ctr);
    var tries := Inj.RunChecks(start, ReadCalls(p, k + 1));
    var close := Inj.Check(tries.final, OpClose, p);
    && (forall i :: 0 <= i < k ==> tries.errs[i].None?)
    && k <= n <= |data| && (k == 0 ==> n == 0) && (tries.errs[k].None? ==> n == |data|)
    && s.fs.files == fs.files && s.fs.inj == tries.final.(ctr := close.ctr)
    && s.out == Content(data[..n],
         if tries.errs[k].None? || tries.errs[k] == Some(EOF) then close.err
         else if close.err.None? then tries.errs[k]
         else Some(Joined(tries.errs[k].value, close.err.value)))
  }

  lemma {:induction false} ReadingComesTo<R>(fs: Fs<R>, p: string, chunk: nat -> nat, k: nat, n: nat)
    requires ValidFs(fs) && ValidPath(p) && OpenErr(fs, p).None?
    requires StopsAt(Opened(fs, p).inj, p, fs.files[p].data, 0,
                     ReadAll(Opened(fs, p).inj, p, fs.files[p].data, 0, chunk), k, n)
    ensures ReadSoFar(fs, p, k, n, ReadFileStep(fs, p, chunk))
  {
  }

  /** ReadFile asks the rules for Open, for every read and for Close. An error injected into Open
      or a missing file stops it; one injected into a read ends it, with the bytes read so far;
      one injected into Close comes with the bytes as well, joined to the other. */
  lemma {:induction false} ReadFileComesTo<R>(fs: Fs<R>, p: string, chunk: nat -> nat, now: int, end: Res)
    returns (k: nat, n: nat)
    requires ValidFs(fs) && ValidPath(p)
    ensures var s, open := StepTo(fs, ReadFile(p, chunk), now, end), Inj.Check(fs.inj, OpOpen, p);
      if open.err.Some? then
        s.out == Failed(open.err.value) && s.fs.files == fs.files && s.fs.inj == fs.inj.(ctr := open.ctr)
      else if p !in fs.files then
        s.out == Failed(NotExist) && s.fs.files == fs.files && s.fs.inj == fs.inj.(ctr := open.ctr)
      else ReadSoFar(fs, p, k, n, s)
  {
    k, n := 0, 0;
    if OpenErr(fs, p).None? {
      k, n := ReadAllStops(Opened(fs, p).inj, p, fs.files[p].data, 0, chunk);
      ReadingComesTo(fs, p, chunk, k, n);
    }
  }
}
