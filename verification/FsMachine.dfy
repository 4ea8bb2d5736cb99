/** The filesystem as a state machine: one step for each public operation, with path
    validation, error injection, the effect on the file map, and statistics. */
module FsMachine {
  import opened Common
  import opened Paths
  import opened Files
  import opened Tree
  import opened Listing
  import Rename
  import RO = RenameOrders
  import Inj = Injector
  import Stats

  datatype Fs<R(==)> = Fs(
    files: Files, inj: Inj.Injector<R>, writeMode: WriteMode, create: bool, stats: Stats.Ledger)

  /** chunk gives the free buffer space io.ReadAll offers after n bytes; always positive. */
  datatype Op =
    | Mkdir(path: string, mode: Mode)
    | MkdirAll(path: string, mode: Mode)
    | AddFile(path: string, data: seq<byte>, mode: Mode)
    | AddDir(path: string, mode: Mode)
    | RemoveEntry(path: string)
    | Remove(path: string)
    | RemoveAll(path: string)
    | Rename(path: string, to: string)
    | WriteFile(path: string, data: seq<byte>, mode: Mode)
    | Stat(path: string)
    | ReadDir(path: string)
    | ReadFile(path: string, chunk: nat -> nat)

  datatype Outcome =
    | Done
    | Failed(err: Error)
    | Info(info: FileInfo)
    | Entries(entries: seq<FileInfo>)
    | Content(data: seq<byte>, readErr: Option<Error>)

  predicate ValidFs<R(==)>(fs: Fs<R>) {
    Inj.ValidInjector(fs.inj) && Stats.ValidLedger(fs.stats)
  }

  datatype Stepped<R(==)> = Stepped(fs: Fs<R>, out: Outcome)

  function OutcomeOf(err: Option<Error>): Outcome {
    if err.Some? then Failed(err.value) else Done
  }

  function Recorded<R(==)>(fs: Fs<R>, op: Operation, bytes: nat, failed: bool): (r: Fs<R>)
    requires ValidFs(fs) && ValidOp(op)
    ensures ValidFs(r)
  {
    fs.(stats := Stats.Recorded(fs.stats, Stats.Entry(op, bytes, failed)))
  }

  function Checked<R(==)>(fs: Fs<R>, op: Operation, path: string): (r: Fs<R>)
    requires ValidFs(fs)
    ensures ValidFs(r)
  {
    fs.(inj := Inj.After(fs.inj, Inj.Check(fs.inj, op, path)))
  }

  /** What stops an operation before it reaches the files. */
  function Gate<R(==)>(fs: Fs<R>, op: Operation, path: string, valid: bool): Option<Error>
    requires ValidFs(fs)
  {
    if !valid then Some(Invalid) else Inj.Check(fs.inj, op, path).err
  }

  function Passed<R(==)>(fs: Fs<R>, op: Operation, path: string, valid: bool): (r: Fs<R>)
    requires ValidFs(fs)
    ensures ValidFs(r)
  {
    if valid then Checked(fs, op, path) else fs
  }

  /** A recorded operation that changes the files. */
  function Mutating<R(==)>(fs: Fs<R>, op: Operation, path: string, valid: bool, r: Res, bytes: nat): (s: Stepped<R>)
    requires ValidFs(fs) && ValidOp(op)
    ensures ValidFs(s.fs)
  {
    var g := Gate(fs, op, path, valid);
    var fs' := Passed(fs, op, path, valid);
    if g.Some? then Stepped(Recorded(fs', op, 0, true), Failed(g.value))
    else if r.err.Some? then Stepped(Recorded(fs'.(files := r.files), op, 0, true), Failed(r.err.value))
    else Stepped(Recorded(fs'.(files := r.files), op, bytes, false), Done)
  }

  /** A recorded operation that only looks. */
  function Looking<R(==)>(fs: Fs<R>, op: Operation, path: string, valid: bool, out: Outcome): (s: Stepped<R>)
    requires ValidFs(fs) && ValidOp(op)
    ensures ValidFs(s.fs) && s.fs.files == fs.files
  {
    var g := Gate(fs, op, path, valid);
    var fs' := Passed(fs, op, path, valid);
    if g.Some? then Stepped(Recorded(fs', op, 0, true), Failed(g.value))
    else Stepped(Recorded(fs', op, 0, out.Failed?), out)
  }

  function StatOut(t: Files, p: string): Outcome {
    if p !in t then Failed(NotExist)
    else Info(FileInfo(Base(p), t[p].mode, t[p].mtime, |t[p].data|))
  }

  ghost function ReadDirOut(t: Files, p: string): Outcome {
    if p !in t then Failed(NotExist)
    else if !t[p].mode.dir then Failed(NotDir)
    else Entries(DirListing(t, p))
  }

  // ----- ReadFile: open, read until EOF, close -----

  datatype AllRead<R(==)> = AllRead(data: seq<byte>, err: Option<Error>, inj: Inj.Injector<R>)

  function ReadSize(chunk: nat -> nat, n: nat, left: nat): nat
    requires left > 0
    ensures 0 < ReadSize(chunk, n, left) <= left
  {
    var c := chunk(n);
    if c == 0 then 1 else if c < left then c else left
  }

  /** io.ReadAll on a handle at position pos; an injected EOF ends it like the real one. */
  function ReadAll<R(==)>(
      inj: Inj.Injector<R>, p: string, data: seq<byte>, pos: nat, chunk: nat -> nat): (a: AllRead<R>)
    requires Inj.ValidInjector(inj) && pos <= |data|
    ensures Inj.ValidInjector(a.inj)
    decreases |data| - pos
  {
    var v := Inj.Check(inj, OpRead, p);
    var inj' := Inj.After(inj, v);
    if v.err == Some(EOF) then AllRead(data[..pos], None, inj')
    else if v.err.Some? then AllRead(data[..pos], v.err, inj')
    else if pos == |data| then AllRead(data, None, inj')
    else ReadAll(inj', p, data, pos + ReadSize(chunk, pos, |data| - pos), chunk)
  }

  function JoinErrors(a: Option<Error>, b: Option<Error>): Option<Error> {
    if b.None? then a else if a.None? then b else Some(Joined(a.value, b.value))
  }

  function OpenErr<R(==)>(fs: Fs<R>, p: string): Option<Error>
    requires ValidFs(fs)
  {
    var v := Inj.Check(fs.inj, OpOpen, p);
    if v.err.Some? then v.err else if p !in fs.files then Some(NotExist) else None
  }

  function Opened<R(==)>(fs: Fs<R>, p: string): (r: Fs<R>)
    requires ValidFs(fs)
    ensures ValidFs(r) && r.files == fs.files
  {
    Recorded(Checked(fs, OpOpen, p), OpOpen, 0, OpenErr(fs, p).Some?)
  }

  function ReadFileStep<R(==)>(fs: Fs<R>, p: string, chunk: nat -> nat): (s: Stepped<R>)
    requires ValidFs(fs)
    ensures ValidFs(s.fs) && s.fs.files == fs.files
  {
    if !ValidPath(p) then Stepped(fs, Failed(Invalid))
    else
      var fs1 := Opened(fs, p);
      if OpenErr(fs, p).Some? then Stepped(fs1, Failed(OpenErr(fs, p).value))
      else
        var a := ReadAll(fs1.inj, p, fs.files[p].data, 0, chunk);
        var v := Inj.Check(a.inj, OpClose, p);
        Stepped(fs1.(inj := Inj.After(a.inj, v)), Content(a.data, JoinErrors(a.err, v.err)))
  }

  // ----- Steps and runs -----

  /** What a call can come to. Only Rename has a choice, by the order of its loop. */
  ghost predicate CanCome(t: Files, op: Op, now: int, end: Res) {
    op.Rename? ==> RO.Outcome(t, op.path, op.to, now, end)
  }

  /** One call; end is what the files come to by Rename. */
  ghost function StepTo<R>(fs: Fs<R>, op: Op, now: int, end: Res): (s: Stepped<R>)
    requires ValidFs(fs)
    ensures ValidFs(s.fs)
  {
    var t := fs.files;
    match op
    case Mkdir(p, m) => Mutating(fs, OpMkdir, p, ValidPath(p) && p != ".", MkdirRes(t, p, m, now), 0)
    case MkdirAll(p, m) => Mutating(fs, OpMkdirAll, p, ValidPath(p), MkdirAllRes(t, p, m, now), 0)
    case AddFile(p, data, m) =>
      var r := AddFileRes(t, p, data, m, now);
      Stepped(fs.(files := r.files), OutcomeOf(r.err))
    case AddDir(p, m) =>
      if !ValidPath(p) then Stepped(fs, Failed(Invalid))
      else
        var r := MkdirAllRes(t, p, m, now);
        Stepped(fs.(files := r.files), OutcomeOf(r.err))
    case RemoveEntry(p) =>
      if !ValidPath(p) then Stepped(fs, Failed(Invalid)) else Stepped(fs.(files := RemoveTree(t, p)), Done)
    case Remove(p) => Mutating(fs, OpRemove, p, ValidPath(p), RemoveRes(t, p), 0)
    case RemoveAll(p) => Mutating(fs, OpRemoveAll, p, ValidPath(p), Res(None, RemoveTree(t, p)), 0)
    case Rename(p, to) => Mutating(fs, OpRename, p, ValidPath(p) && ValidPath(to), end, 0)
    case WriteFile(p, data, m) =>
      Mutating(fs, OpWrite, p, ValidPath(p), WriteFileRes(t, fs.writeMode, fs.create, p, data, m, now), |data|)
    case Stat(p) => Looking(fs, OpStat, p, ValidPath(p), StatOut(t, p))
    case ReadDir(p) => Looking(fs, OpReadDir, p, ValidPath(p), ReadDirOut(t, p))
    case ReadFile(p, chunk) => ReadFileStep(fs, p, chunk)
  }

  /** One call, Rename being the one-shot rewrite: what it is whenever that does not depend on
      the order of its loop, and nothing takes the name of the source. */
  ghost function Step<R>(fs: Fs<R>, op: Op, now: int): (s: Stepped<R>)
    requires ValidFs(fs)
    ensures ValidFs(s.fs)
  {
    StepTo(fs, op, now, if op.Rename? then RenameRes(fs.files, op.path, op.to, now) else Res(None, fs.files))
  }

  datatype Call = Call(op: Op, now: int)

  datatype Ran<R(==)> = Ran(fs: Fs<R>, outs: seq<Outcome>)

  /** ends are what the renames among the calls come to, one for each call. */
  ghost predicate Comes<R>(fs: Fs<R>, calls: seq<Call>, ends: seq<Res>)
    requires ValidFs(fs)
    decreases |calls|
  {
    |ends| == |calls| && (calls == [] || (
      && CanCome(fs.files, calls[0].op, calls[0].now, ends[0])
      && Comes(StepTo(fs, calls[0].op, calls[0].now, ends[0]).fs, calls[1..], ends[1..])))
  }

  ghost function Run<R>(fs: Fs<R>, calls: seq<Call>, ends: seq<Res>): (r: Ran<R>)
    requires ValidFs(fs) && |ends| == |calls|
    ensures ValidFs(r.fs) && |r.outs| == |calls|
    decreases |calls|
  {
    if calls == [] then Ran(fs, [])
    else
      var s := StepTo(fs, calls[0].op, calls[0].now, ends[0]);
      var r := Run(s.fs, calls[1..], ends[1..]);
      Ran(r.fs, [s.out] + r.outs)
  }

  /** Every sequence of calls has a run. */
  lemma {:induction false} SomeRun<R>(fs: Fs<R>, calls: seq<Call>) returns (ends: seq<Res>)
    requires ValidFs(fs)
    ensures Comes(fs, calls, ends)
    decreases |calls|
  {
    ends := [];
    if calls != [] {
      var c := calls[0];
      var end := Res(None, fs.files);
      if c.op.Rename? { end := RO.SomeOutcome(fs.files, c.op.path, c.op.to, c.now); }
      var rest := SomeRun(StepTo(fs, c.op, c.now, end).fs, calls[1..]);
      assert ([end] + rest)[1..] == rest;
      ends := [end] + rest;
    }
  }

  // ----- The tree over whole runs -----

  /** What a caller can check before a call: only WriteFile and Rename can break the tree. */
  predicate Safe<R(==)>(fs: Fs<R>, op: Op) {
    var t := fs.files;
    match op
    case WriteFile(p, _, _) => fs.writeMode == ReadOnly || !fs.create || p in t || ParentOk(t, p)
    case Rename(p, to) =>
      p in t && p != to ==>
        && p != "." && to != "." && Incomparable(p, to)
        && ParentOk(t, to) && !Rename.FileLandsOnDirectory(t, p, to)
    case _ => true
  }

  lemma {:induction false} StepKeepsTree<R>(fs: Fs<R>, op: Op, now: int)
    requires ValidFs(fs) && TreeInv(fs.files) && Safe(fs, op)
    ensures TreeInv(Step(fs, op, now).fs.files)
  {
    var t := fs.files;
    match op
    case Mkdir(p, m) => if ValidPath(p) { MkdirKeepsTree(t, p, m, now); }
    case MkdirAll(p, m) => if ValidPath(p) { MkdirAllKeepsTree(t, p, m, now); }
    case AddFile(p, data, m) => AddFileKeepsTree(t, p, data, m, now);
    case AddDir(p, m) => if ValidPath(p) { MkdirAllKeepsTree(t, p, m, now); }
    case RemoveEntry(p) => RemoveTreeKeepsTree(t, p);
    case Remove(p) => RemoveKeepsTree(t, p);
    case RemoveAll(p) => RemoveTreeKeepsTree(t, p);
    case Rename(p, to) =>
      if ValidPath(p) && ValidPath(to) && p in t {
        if p == to {
          Rename.RenameToItselfErases(t, p, now);
          RemoveTreeKeepsTree(t, p);
        } else {
          Rename.RenameIsRename(t, p, to, now);
          Rename.RenameKeepsTreeIff(t, p, to, now, RenameFiles(t, p, to, now));
        }
      }
    case WriteFile(p, data, m) =>
      if ValidPath(p) { WriteFileKeepsTreeIff(t, fs.writeMode, fs.create, p, data, m, now); }
    case _ =>
  }

  /** Where every order leads to the one-shot rewrite, that is the only step. */
  lemma {:induction false} OneStep<R>(fs: Fs<R>, op: Op, now: int, end: Res)
    requires ValidFs(fs) && CanCome(fs.files, op, now, end)
    requires op.Rename? && IsDirIn(fs.files, op.path) ==>
      Rename.Renamable(fs.files.Keys + {op.to}, op.path, op.to)
    ensures StepTo(fs, op, now, end) == Step(fs, op, now)
  {
    if op.Rename? { RO.OutcomeIsRewrite(fs.files, op.path, op.to, now, end); }
  }

  lemma {:induction false} SafeStep<R>(fs: Fs<R>, op: Op, now: int, end: Res)
    requires ValidFs(fs) && Safe(fs, op) && CanCome(fs.files, op, now, end)
    ensures StepTo(fs, op, now, end) == Step(fs, op, now)
  {
    if op.Rename? && op.path != op.to && op.path in fs.files {
      Rename.IncomparableRenamable(fs.files.Keys + {op.to}, op.path, op.to);
    }
    OneStep(fs, op, now, end);
  }

  ghost predicate AllSafe<R>(fs: Fs<R>, calls: seq<Call>, ends: seq<Res>)
    requires ValidFs(fs) && |ends| == |calls|
    decreases |calls|
  {
    calls == [] || (
      && Safe(fs, calls[0].op)
      && AllSafe(StepTo(fs, calls[0].op, calls[0].now, ends[0]).fs, calls[1..], ends[1..]))
  }

  /** The tree invariant over all runs: whatever the calls, their order, the injected
      errors and the clock, as long as WriteFile and Rename are called where they may be. */
  lemma {:induction false} RunKeepsTree<R>(fs: Fs<R>, calls: seq<Call>, ends: seq<Res>)
    requires ValidFs(fs) && TreeInv(fs.files) && Comes(fs, calls, ends) && AllSafe(fs, calls, ends)
    ensures var t := Run(fs, calls, ends).fs.files;
      TreeInv(t) && forall d :: ValidPath(d) ==> Listed(t, d) == ChildNames(t, d)
    decreases |calls|
  {
    var t := Run(fs, calls, ends).fs.files;
    if calls != [] {
      var c := calls[0];
      SafeStep(fs, c.op, c.now, ends[0]);
      StepKeepsTree(fs, c.op, c.now);
      RunKeepsTree(StepTo(fs, c.op, c.now, ends[0]).fs, calls[1..], ends[1..]);
    }
    forall d | ValidPath(d) ensures Listed(t, d) == ChildNames(t, d) { SkipIsDead(t, d); }
  }

  // ----- The ledger over whole runs -----

  /** The record an operation makes, if any. */
  function RecordOf(op: Op, out: Outcome): seq<Stats.Entry> {
    var failed := out.Failed?;
    match op
    case Mkdir(_, _) => [Stats.Entry(OpMkdir, 0, failed)]
    case MkdirAll(_, _) => [Stats.Entry(OpMkdirAll, 0, failed)]
    case Remove(_) => [Stats.Entry(OpRemove, 0, failed)]
    case RemoveAll(_) => [Stats.Entry(OpRemoveAll, 0, failed)]
    case Rename(_, _) => [Stats.Entry(OpRename, 0, failed)]
    case WriteFile(_, data, _) => [Stats.Entry(OpWrite, if failed then 0 else |data|, failed)]
    case Stat(_) => [Stats.Entry(OpStat, 0, failed)]
    case ReadDir(_) => [Stats.Entry(OpReadDir, 0, failed)]
    case ReadFile(p, _) => if ValidPath(p) then [Stats.Entry(OpOpen, 0, failed)] else []
    case _ => []
  }

  function Records(calls: seq<Call>, outs: seq<Outcome>): (es: seq<Stats.Entry>)
    requires |calls| == |outs|
    ensures Stats.ValidEntries(es)
  {
    if calls == [] then [] else RecordOf(calls[0].op, outs[0]) + Records(calls[1..], outs[1..])
  }

  lemma {:induction false} MutatingRecords<R>(fs: Fs<R>, k: Operation, p: string, valid: bool, r: Res, bytes: nat)
    requires ValidFs(fs) && ValidOp(k)
    ensures var s := Mutating(fs, k, p, valid, r, bytes);
      s.fs.stats == Stats.Recorded(fs.stats, Stats.Entry(k, if s.out.Failed? then 0 else bytes, s.out.Failed?))
  {
  }

  lemma {:induction false} LookingRecords<R>(fs: Fs<R>, k: Operation, p: string, valid: bool, out: Outcome)
    requires ValidFs(fs) && ValidOp(k)
    ensures var s := Looking(fs, k, p, valid, out);
      s.fs.stats == Stats.Recorded(fs.stats, Stats.Entry(k, 0, s.out.Failed?))
  {
  }

  lemma {:induction false} StepRecords<R>(fs: Fs<R>, op: Op, now: int, end: Res)
    requires ValidFs(fs)
    ensures var s := StepTo(fs, op, now, end); var es := RecordOf(op, s.out);
      s.fs.stats == if es == [] then fs.stats else Stats.Recorded(fs.stats, es[0])
  {
    var t := fs.files;
    match op
    case Mkdir(p, m) => MutatingRecords(fs, OpMkdir, p, ValidPath(p) && p != ".", MkdirRes(t, p, m, now), 0);
    case MkdirAll(p, m) => MutatingRecords(fs, OpMkdirAll, p, ValidPath(p), MkdirAllRes(t, p, m, now), 0);
    case Remove(p) => MutatingRecords(fs, OpRemove, p, ValidPath(p), RemoveRes(t, p), 0);
    case RemoveAll(p) => MutatingRecords(fs, OpRemoveAll, p, ValidPath(p), Res(None, RemoveTree(t, p)), 0);
    case Rename(p, to) => MutatingRecords(fs, OpRename, p, ValidPath(p) && ValidPath(to), end, 0);
    case WriteFile(p, data, m) =>
      MutatingRecords(fs, OpWrite, p, ValidPath(p), WriteFileRes(t, fs.writeMode, fs.create, p, data, m, now), |data|);
    case Stat(p) => LookingRecords(fs, OpStat, p, ValidPath(p), StatOut(t, p));
    case ReadDir(p) => LookingRecords(fs, OpReadDir, p, ValidPath(p), ReadDirOut(t, p));
    case _ =>
  }

  lemma {:induction false} RecordAllAppend(l: Stats.Ledger, a: seq<Stats.Entry>, b: seq<Stats.Entry>)
    requires Stats.ValidLedger(l) && Stats.ValidEntries(a) && Stats.ValidEntries(b)
    ensures Stats.ValidEntries(a + b)
    ensures Stats.RecordAll(l, a + b) == Stats.RecordAll(Stats.RecordAll(l, a), b)
    decreases |b|
  {
    if b == [] {
      assert a + b == a;
    } else {
      RecordAllAppend(l, a, b[..|b|-1]);
      assert (a + b)[..|a + b|-1] == a + b[..|b|-1];
      assert (a + b)[|a + b|-1] == b[|b|-1];
    }
  }

  /** Over any run the ledger is what its calls and outcomes say: one record for every
      recorded call, a failure for every failing one, the bytes of every successful
      WriteFile. */
  lemma {:induction false} RunLedger<R>(fs: Fs<R>, calls: seq<Call>, ends: seq<Res>)
    requires ValidFs(fs) && |ends| == |calls|
    ensures var r := Run(fs, calls, ends);
      r.fs.stats == Stats.RecordAll(fs.stats, Records(calls, r.outs))
    decreases |calls|
  {
    if calls != [] {
      var c := calls[0];
      var s := StepTo(fs, c.op, c.now, ends[0]);
      var r := Run(s.fs, calls[1..], ends[1..]);
      StepRecords(fs, c.op, c.now, ends[0]);
      RunLedger(s.fs, calls[1..], ends[1..]);
      var es := RecordOf(c.op, s.out);
      assert ([s.out] + r.outs)[1..] == r.outs;
      RecordAllAppend(fs.stats, es, Records(calls[1..], r.outs));
      RecordAllSmall(fs.stats, es);
    }
  }

  lemma {:induction false} RecordAllSmall(l: Stats.Ledger, es: seq<Stats.Entry>)
    requires Stats.ValidLedger(l) && Stats.ValidEntries(es) && |es| <= 1
    ensures Stats.RecordAll(l, es) == if es == [] then l else Stats.Recorded(l, es[0])
  {
    if |es| == 1 { assert es[..0] == []; }
  }

  // ----- ReadFile -----

  /** When no rule fires on Read, the bytes read are the stored ones, however the buffer
      grows. */
  lemma {:induction false} ReadAllReadsAll<R>(
      inj: Inj.Injector<R>, p: string, data: seq<byte>, pos: nat, chunk: nat -> nat)
    requires Inj.ValidInjector(inj) && pos <= |data|
    requires forall r :: r in Inj.Cascade(inj, OpRead) ==> !Inj.RuleMatches(inj.attr[r], p)
    ensures ReadAll(inj, p, data, pos, chunk) == AllRead(data, None, inj)
    decreases |data| - pos
  {
    Inj.QuietConsult(Inj.Cascade(inj, OpRead), inj.attr, inj.ctr, p);
    if pos < |data| {
      ReadAllReadsAll(inj, p, data, pos + ReadSize(chunk, pos, |data| - pos), chunk);
    }
  }

  /** ReadFile of an existing file that no rule concerns returns its bytes. */
  lemma {:induction false} ReadFileReturnsStored<R>(fs: Fs<R>, p: string, chunk: nat -> nat)
    requires ValidFs(fs) && ValidPath(p) && p in fs.files
    requires forall op, r :: op in {OpOpen, OpRead, OpClose} && r in Inj.Cascade(fs.inj, op) ==>
      !Inj.RuleMatches(fs.inj.attr[r], p)
    ensures ReadFileStep(fs, p, chunk).out == Content(fs.files[p].data, None)
  {
    Inj.QuietConsult(Inj.Cascade(fs.inj, OpOpen), fs.inj.attr, fs.inj.ctr, p);
    var fs1 := Opened(fs, p);
    assert fs1.inj == fs.inj;
    ReadAllReadsAll(fs.inj, p, fs.files[p].data, 0, chunk);
    Inj.QuietConsult(Inj.Cascade(fs.inj, OpClose), fs.inj.attr, fs.inj.ctr, p);
  }
}
