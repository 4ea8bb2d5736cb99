/** Sub is a bisimulation over whole runs, and Sub composes. */
module SubRuns {
  import opened Common
  import opened Paths
  import opened Files
  import opened Tree
  import Inj = Injector
  import opened SubInjector
  import opened FsMachine
  import opened SubFs
  import opened SubOrders
  import RO = RenameOrders

  // ----- The sub operation seen from the parent -----

  predicate NonRoot(op: Op) {
    op.path != "." && (op.Rename? ==> op.to != ".")
  }

  function Lift(d: string, op: Op): Op {
    match op
    case Mkdir(x, m) => Mkdir(Inside(d, x), m)
    case MkdirAll(x, m) => MkdirAll(Inside(d, x), m)
    case AddFile(x, data, m) => AddFile(Inside(d, x), data, m)
    case AddDir(x, m) => AddDir(Inside(d, x), m)
    case RemoveEntry(x) => RemoveEntry(Inside(d, x))
    case Remove(x) => Remove(Inside(d, x))
    case RemoveAll(x) => RemoveAll(Inside(d, x))
    case Rename(x, y) => Rename(Inside(d, x), Inside(d, y))
    case WriteFile(x, data, m) => WriteFile(Inside(d, x), data, m)
    case Stat(x) => Stat(Inside(d, x))
    case ReadDir(x) => ReadDir(Inside(d, x))
    case ReadFile(x, chunk) => ReadFile(Inside(d, x), chunk)
  }

  function LiftCalls(d: string, calls: seq<Call>): (r: seq<Call>)
    ensures |r| == |calls|
  {
    if calls == [] then [] else [Call(Lift(d, calls[0].op), calls[0].now)] + LiftCalls(d, calls[1..])
  }

  // ----- The relation -----

  ghost predicate FilesRelated(p: Files, s: Files, d: string) {
    IsRel(d) && Rerooted(p, s, d) && Anchored(p, d) && ValidKeys(s)
  }

  ghost predicate Related<Q, S>(p: Fs<Q>, s: Fs<S>, d: string) {
    && ValidFs(p) && ValidFs(s)
    && FilesRelated(p.files, s.files, d)
    && p.writeMode == s.writeMode && p.create == s.create
    && Sim(p.inj, s.inj, d)
  }

  // ----- Valid keys stay valid -----

  lemma {:induction false} MkdirAllValidKeys(t: Files, x: string, i: nat, e: Entry)
    requires ValidKeys(t) && IsRel(x) && i <= |x|
    ensures ValidKeys(MkdirAllTo(t, x, i, e).files)
  {
    if i > 0 {
      MkdirAllValidKeys(t, x, i - 1, e);
      RelNonEmpty(x);
      if AtStop(x, i) {
        if i < |x| {
          assert x == x[..i] + "/" + x[i + 1..];
          RelConcat(x[..i], x[i + 1..]);
        } else {
          assert x[..i] == x;
        }
      }
    }
  }

  /** What an operation makes of the files, injection apart; end is what Rename comes to. */
  ghost function Effect(t: Files, w: WriteMode, create: bool, op: Op, now: int, end: Res): Res {
    match op
    case Mkdir(p, m) => MkdirRes(t, p, m, now)
    case MkdirAll(p, m) => MkdirAllRes(t, p, m, now)
    case AddFile(p, data, m) => AddFileRes(t, p, data, m, now)
    case AddDir(p, m) => MkdirAllRes(t, p, m, now)
    case RemoveEntry(p) => Res(None, RemoveTree(t, p))
    case Remove(p) => RemoveRes(t, p)
    case RemoveAll(p) => Res(None, RemoveTree(t, p))
    case Rename(_, _) => end
    case WriteFile(p, data, m) => WriteFileRes(t, w, create, p, data, m, now)
    case _ => Res(None, t)
  }

  predicate RelPaths(op: Op) {
    IsRel(op.path) && (op.Rename? ==> IsRel(op.to))
  }

  lemma {:induction false} AddFileValidKeys(t: Files, p: string, data: seq<byte>, m: Mode, now: int)
    requires ValidKeys(t) && IsRel(p)
    ensures ValidKeys(AddFileRes(t, p, data, m, now).files)
  {
    if Dir(p) != "." {
      DirValid(p);
      MkdirAllValidKeys(t, Dir(p), |Dir(p)|, NewDir(DefaultDir, now));
    }
    assert ValidKeys(EnsureParents(t, p, now).files);
  }

  lemma {:induction false} EffectValidKeys(t: Files, w: WriteMode, create: bool, op: Op, now: int, end: Res)
    requires ValidKeys(t) && RelPaths(op) && (op.Rename? ==> ValidKeys(end.files))
    ensures ValidKeys(Effect(t, w, create, op, now, end).files)
  {
    match op
    case MkdirAll(p, m) => MkdirAllValidKeys(t, p, |p|, NewDir(m, now));
    case AddDir(p, m) => MkdirAllValidKeys(t, p, |p|, NewDir(m, now));
    case AddFile(p, data, m) => AddFileValidKeys(t, p, data, m, now);
    case _ =>
  }

  /** ep in the parent and es in the sub-filesystem are ends of a Rename that agree. */
  ghost predicate EndsAlike(p: Files, d: string, op: Op, ep: Res, es: Res) {
    op.Rename? && RelPaths(op) ==> Agree(p, ep, es, d) && ValidKeys(es.files)
  }

  lemma {:induction false} EffectAgrees(
      p: Files, s: Files, d: string, w: WriteMode, create: bool, op: Op, now: int, ep: Res, es: Res)
    requires FilesRelated(p, s, d) && RelPaths(op) && EndsAlike(p, d, op, ep, es)
    ensures Agree(p, Effect(p, w, create, Lift(d, op), now, ep), Effect(s, w, create, op, now, es), d)
  {
    RelNonEmpty(op.path);
    match op
    case Mkdir(x, m) => MkdirAgrees(p, s, d, x, m, now);
    case MkdirAll(x, m) => MkdirAllAgrees(p, s, d, x, m, now);
    case AddFile(x, data, m) => AddFileAgrees(p, s, d, x, data, m, now);
    case AddDir(x, m) => MkdirAllAgrees(p, s, d, x, m, now);
    case RemoveEntry(x) => RemoveTreeAgrees(p, s, d, x);
    case Remove(x) => RemoveAgrees(p, s, d, x);
    case RemoveAll(x) => RemoveTreeAgrees(p, s, d, x);
    case WriteFile(x, data, m) => WriteFileAgrees(p, s, d, w, create, x, data, m, now);
    case _ =>
  }

  lemma {:induction false} EffectRelated(
      p: Files, s: Files, d: string, w: WriteMode, create: bool, op: Op, now: int, ep: Res, es: Res)
    requires FilesRelated(p, s, d) && RelPaths(op) && EndsAlike(p, d, op, ep, es)
    ensures var rp, rs := Effect(p, w, create, Lift(d, op), now, ep), Effect(s, w, create, op, now, es);
      rp.err == rs.err && FilesRelated(rp.files, rs.files, d) && SameOutside(p, rp.files, d)
  {
    EffectAgrees(p, s, d, w, create, op, now, ep, es);
    EffectValidKeys(s, w, create, op, now, es);
    AnchoredStays(p, Effect(p, w, create, Lift(d, op), now, ep).files, d);
  }

  // ----- One step -----

  ghost predicate StepAgrees<Q, S>(p: Fs<Q>, a: Stepped<Q>, b: Stepped<S>, d: string) {
    a.out == b.out && Related(a.fs, b.fs, d) && SameOutside(p.files, a.fs.files, d)
  }

  lemma {:induction false} MutatingAgrees<Q, S>(p: Fs<Q>, s: Fs<S>, d: string,
                             op: Operation, x: string, valid: bool, rp: Res, rs: Res, bytes: nat)
    requires Related(p, s, d) && ValidOp(op) && (valid ==> ValidPath(x))
    requires valid ==> rp.err == rs.err && FilesRelated(rp.files, rs.files, d) && SameOutside(p.files, rp.files, d)
    ensures StepAgrees(p, Mutating(p, op, Inside(d, x), valid, rp, bytes), Mutating(s, op, x, valid, rs, bytes), d)
  {
    if valid {
      SimCheck(p.inj, s.inj, d, op, x);
      PassedRelated(p, s, d, op, x, rp.files, rs.files);
    }
  }

  /** Passing the gate alike, with files that are related. */
  lemma {:induction false} PassedRelated<Q, S>(p: Fs<Q>, s: Fs<S>, d: string,
                                               op: Operation, x: string, fp: Files, fs: Files)
    requires Related(p, s, d) && ValidOp(op) && ValidPath(x) && FilesRelated(fp, fs, d)
    ensures forall b, f, b', f' :: Related(
      Recorded(Passed(p, op, Inside(d, x), true).(files := fp), op, b, f),
      Recorded(Passed(s, op, x, true).(files := fs), op, b', f'), d)
  {
    SimCheck(p.inj, s.inj, d, op, x);
  }

  lemma {:induction false} LookingAgrees<Q, S>(p: Fs<Q>, s: Fs<S>, d: string,
                            op: Operation, x: string, valid: bool, outP: Outcome, outS: Outcome)
    requires Related(p, s, d) && ValidOp(op) && (valid ==> ValidPath(x) && outP == outS)
    ensures StepAgrees(p, Looking(p, op, Inside(d, x), valid, outP), Looking(s, op, x, valid, outS), d)
  {
    if valid { SimCheck(p.inj, s.inj, d, op, x); }
  }

  lemma {:induction false} ReadAllAgrees<Q, S>(
      i: Inj.Injector<Q>, j: Inj.Injector<S>, d: string, x: string,
      data: seq<byte>, pos: nat, chunk: nat -> nat)
    requires Sim(i, j, d) && ValidPath(x) && pos <= |data|
    ensures var a, b := ReadAll(i, Inside(d, x), data, pos, chunk), ReadAll(j, x, data, pos, chunk);
      a.data == b.data && a.err == b.err && Sim(a.inj, b.inj, d)
    decreases |data| - pos
  {
    SimCheck(i, j, d, OpRead, x);
    var v, w := Inj.Check(i, OpRead, Inside(d, x)), Inj.Check(j, OpRead, x);
    if v.err.None? && pos < |data| {
      ReadAllAgrees(Inj.After(i, v), Inj.After(j, w), d, x, data, pos + ReadSize(chunk, pos, |data| - pos), chunk);
    }
  }

  lemma {:induction false} ReadFileAgrees<Q, S>(p: Fs<Q>, s: Fs<S>, d: string, x: string, chunk: nat -> nat)
    requires Related(p, s, d) && x != "."
    ensures StepAgrees(p, ReadFileStep(p, Inside(d, x), chunk), ReadFileStep(s, x, chunk), d)
  {
    InsideValid(d, x);
    if ValidPath(x) {
      SimCheck(p.inj, s.inj, d, OpOpen, x);
      if OpenErr(s, x).None? {
        var p1, s1 := Opened(p, Inside(d, x)), Opened(s, x);
        ReadAllAgrees(p1.inj, s1.inj, d, x, s.files[x].data, 0, chunk);
        var a := ReadAll(p1.inj, Inside(d, x), s.files[x].data, 0, chunk);
        var b := ReadAll(s1.inj, x, s.files[x].data, 0, chunk);
        SimCheck(a.inj, b.inj, d, OpClose, x);
      }
    }
  }

  lemma {:induction false} PathsLift(d: string, op: Op)
    requires IsRel(d) && NonRoot(op)
    ensures ValidPath(op.path) ==> IsRel(op.path)
    ensures ValidPath(Inside(d, op.path)) <==> ValidPath(op.path)
    ensures op.Rename? ==> (ValidPath(Inside(d, op.to)) <==> ValidPath(op.to))
    ensures Inside(d, op.path) != "."
  {
    InsideValid(d, op.path);
    if op.Rename? { InsideValid(d, op.to); }
    RelNonEmpty(d);
  }

  lemma {:induction false} LookAlike(p: Files, s: Files, d: string, x: string)
    requires FilesRelated(p, s, d) && IsRel(x)
    ensures StatOut(p, Inside(d, x)) == StatOut(s, x)
    ensures ReadDirOut(p, Inside(d, x)) == ReadDirOut(s, x)
  {
    RelNonEmpty(x);
    DirInside(d, x);
    ListingAgrees(p, s, d, x);
  }

  lemma {:induction false} StepsAgree<Q, S>(p: Fs<Q>, s: Fs<S>, d: string, op: Op, now: int, ep: Res, es: Res)
    requires Related(p, s, d) && NonRoot(op) && EndsAlike(p.files, d, op, ep, es)
    ensures StepAgrees(p, StepTo(p, Lift(d, op), now, ep), StepTo(s, op, now, es), d)
  {
    var x := op.path;
    PathsLift(d, op);
    var rp := Effect(p.files, p.writeMode, p.create, Lift(d, op), now, ep);
    var rs := Effect(s.files, s.writeMode, s.create, op, now, es);
    if RelPaths(op) {
      EffectRelated(p.files, s.files, d, s.writeMode, s.create, op, now, ep, es);
    }
    match op
    case Mkdir(_, _) => MutatingAgrees(p, s, d, OpMkdir, x, ValidPath(x) && x != ".", rp, rs, 0);
    case MkdirAll(_, _) => MutatingAgrees(p, s, d, OpMkdirAll, x, ValidPath(x), rp, rs, 0);
    case Remove(_) => MutatingAgrees(p, s, d, OpRemove, x, ValidPath(x), rp, rs, 0);
    case RemoveAll(_) => MutatingAgrees(p, s, d, OpRemoveAll, x, ValidPath(x), rp, rs, 0);
    case Rename(_, y) => MutatingAgrees(p, s, d, OpRename, x, ValidPath(x) && ValidPath(y), rp, rs, 0);
    case WriteFile(_, data, _) => MutatingAgrees(p, s, d, OpWrite, x, ValidPath(x), rp, rs, |data|);
    case Stat(_) =>
      if ValidPath(x) { LookAlike(p.files, s.files, d, x); }
      LookingAgrees(p, s, d, OpStat, x, ValidPath(x), StatOut(p.files, Inside(d, x)), StatOut(s.files, x));
    case ReadDir(_) =>
      if ValidPath(x) { LookAlike(p.files, s.files, d, x); }
      LookingAgrees(p, s, d, OpReadDir, x, ValidPath(x), ReadDirOut(p.files, Inside(d, x)), ReadDirOut(s.files, x));
    case ReadFile(_, chunk) => ReadFileAgrees(p, s, d, x, chunk);
    case _ =>
  }

  lemma {:induction false} EndLifts(p: Files, s: Files, d: string, op: Op, now: int, es: Res) returns (ep: Res)
    requires FilesRelated(p, s, d) && CanCome(s, op, now, es)
    ensures CanCome(p, Lift(d, op), now, ep) && EndsAlike(p, d, op, ep, es)
  {
    ep := Res(None, p);
    match op {
      case Rename(x, y) =>
        if RelPaths(op) {
          ep := OutcomeLifts(p, s, d, x, y, now, es);
          RO.OutcomeKeys(s, x, y, now, es);
        } else {
          ep := RO.SomeOutcome(p, Inside(d, x), Inside(d, y), now);
        }
      case _ =>
    }
  }

  lemma {:induction false} EndDrops(p: Files, s: Files, d: string, op: Op, now: int, ep: Res) returns (es: Res)
    requires FilesRelated(p, s, d) && CanCome(p, Lift(d, op), now, ep)
    ensures CanCome(s, op, now, es) && EndsAlike(p, d, op, ep, es)
  {
    es := Res(None, s);
    match op {
      case Rename(x, y) =>
        if RelPaths(op) {
          es := OutcomeDrops(p, s, d, x, y, now, ep);
          RO.OutcomeKeys(s, x, y, now, es);
        } else {
          es := RO.SomeOutcome(s, x, y, now);
        }
      case _ =>
    }
  }

  /** Whatever a call on the sub-filesystem comes to, on the parent it can come to the like. */
  lemma {:induction false} StepLifts<Q, S>(p: Fs<Q>, s: Fs<S>, d: string, op: Op, now: int, es: Res) returns (ep: Res)
    requires Related(p, s, d) && NonRoot(op) && CanCome(s.files, op, now, es)
    ensures CanCome(p.files, Lift(d, op), now, ep)
    ensures StepAgrees(p, StepTo(p, Lift(d, op), now, ep), StepTo(s, op, now, es), d)
  {
    ep := EndLifts(p.files, s.files, d, op, now, es);
    StepsAgree(p, s, d, op, now, ep, es);
  }

  /** And whatever it comes to on the parent, on the sub-filesystem it can come to the like. */
  lemma {:induction false} StepDrops<Q, S>(p: Fs<Q>, s: Fs<S>, d: string, op: Op, now: int, ep: Res) returns (es: Res)
    requires Related(p, s, d) && NonRoot(op) && CanCome(p.files, Lift(d, op), now, ep)
    ensures CanCome(s.files, op, now, es)
    ensures StepAgrees(p, StepTo(p, Lift(d, op), now, ep), StepTo(s, op, now, es), d)
  {
    es := EndDrops(p.files, s.files, d, op, now, ep);
    StepsAgree(p, s, d, op, now, ep, es);
  }

  // ----- Runs -----

  predicate AllNonRoot(calls: seq<Call>) {
    forall i :: 0 <= i < |calls| ==> NonRoot(calls[i].op)
  }

  /** Two runs of the calls, the parent's on d/x, that look alike. */
  ghost predicate RunsAgree<Q, S>(p: Fs<Q>, s: Fs<S>, d: string, calls: seq<Call>, ep: seq<Res>, es: seq<Res>)
    requires ValidFs(p) && ValidFs(s)
  {
    && Comes(p, LiftCalls(d, calls), ep) && Comes(s, calls, es)
    && var a, b := Run(p, LiftCalls(d, calls), ep), Run(s, calls, es);
      a.outs == b.outs && Rerooted(a.fs.files, b.fs.files, d) && SameOutside(p.files, a.fs.files, d)
  }

  lemma {:induction false} RunHead<Q>(fs: Fs<Q>, c: Call, rest: seq<Call>, end: Res, ends: seq<Res>)
    requires ValidFs(fs) && CanCome(fs.files, c.op, c.now, end)
    requires Comes(StepTo(fs, c.op, c.now, end).fs, rest, ends)
    ensures Comes(fs, [c] + rest, [end] + ends)
    ensures var s := StepTo(fs, c.op, c.now, end); var r := Run(s.fs, rest, ends);
      Run(fs, [c] + rest, [end] + ends) == Ran(r.fs, [s.out] + r.outs)
  {
    assert ([c] + rest)[1..] == rest && ([end] + ends)[1..] == ends;
  }

  lemma {:induction false} RunsFromHere<Q, S>(
      p: Fs<Q>, s: Fs<S>, d: string, c: Call, rest: seq<Call>, ep: Res, es: Res, eps: seq<Res>, ess: seq<Res>)
    requires Related(p, s, d) && CanCome(p.files, Lift(d, c.op), c.now, ep) && CanCome(s.files, c.op, c.now, es)
    requires StepAgrees(p, StepTo(p, Lift(d, c.op), c.now, ep), StepTo(s, c.op, c.now, es), d)
    requires RunsAgree(StepTo(p, Lift(d, c.op), c.now, ep).fs, StepTo(s, c.op, c.now, es).fs, d, rest, eps, ess)
    ensures RunsAgree(p, s, d, [c] + rest, [ep] + eps, [es] + ess)
  {
    var c' := Call(Lift(d, c.op), c.now);
    RunHead(p, c', LiftCalls(d, rest), ep, eps);
    RunHead(s, c, rest, es, ess);
    assert ([c] + rest)[1..] == rest;
    assert LiftCalls(d, [c] + rest) == [c'] + LiftCalls(d, rest);
    var a := Run(p, [c'] + LiftCalls(d, rest), [ep] + eps);
    OutsideTwice(p.files, StepTo(p, c'.op, c'.now, ep).fs.files, a.fs.files, d);
  }

  /** Every run of the sub-filesystem is one that the parent can have, on d/x. */
  lemma {:induction false} RunLifts<Q, S>(p: Fs<Q>, s: Fs<S>, d: string, calls: seq<Call>, es: seq<Res>)
    returns (ep: seq<Res>)
    requires Related(p, s, d) && AllNonRoot(calls) && Comes(s, calls, es)
    ensures RunsAgree(p, s, d, calls, ep, es)
    decreases |calls|
  {
    if calls == [] {
      ep := [];
    } else {
      var c := calls[0];
      var e := StepLifts(p, s, d, c.op, c.now, es[0]);
      var a, b := StepTo(p, Lift(d, c.op), c.now, e).fs, StepTo(s, c.op, c.now, es[0]).fs;
      var rest := RunLifts(a, b, d, calls[1..], es[1..]);
      RunsFromHere(p, s, d, c, calls[1..], e, es[0], rest, es[1..]);
      assert calls == [c] + calls[1..] && es == [es[0]] + es[1..];
      ep := [e] + rest;
    }
  }

  /** And every run of the parent on d/x is one that the sub-filesystem can have. */
  lemma {:induction false} RunDrops<Q, S>(p: Fs<Q>, s: Fs<S>, d: string, calls: seq<Call>, ep: seq<Res>)
    returns (es: seq<Res>)
    requires Related(p, s, d) && AllNonRoot(calls) && Comes(p, LiftCalls(d, calls), ep)
    ensures RunsAgree(p, s, d, calls, ep, es)
    decreases |calls|
  {
    if calls == [] {
      es := [];
    } else {
      var c := calls[0];
      var e := StepDrops(p, s, d, c.op, c.now, ep[0]);
      var a, b := StepTo(p, Lift(d, c.op), c.now, ep[0]).fs, StepTo(s, c.op, c.now, e).fs;
      var rest := RunDrops(a, b, d, calls[1..], ep[1..]);
      RunsFromHere(p, s, d, c, calls[1..], ep[0], e, ep[1..], rest);
      assert calls == [c] + calls[1..] && ep == [ep[0]] + ep[1..];
      es := [e] + rest;
    }
  }

  /** Over any calls the two filesystems have the same runs. */
  ghost predicate SameRuns<Q, S>(p: Fs<Q>, s: Fs<S>, d: string, calls: seq<Call>)
    requires ValidFs(p) && ValidFs(s)
  {
    && (forall es :: Comes(s, calls, es) ==> exists ep :: RunsAgree(p, s, d, calls, ep, es))
    && (forall ep :: Comes(p, LiftCalls(d, calls), ep) ==> exists es :: RunsAgree(p, s, d, calls, ep, es))
  }

  lemma {:induction false} RelatedRuns<Q, S>(p: Fs<Q>, s: Fs<S>, d: string, calls: seq<Call>)
    requires Related(p, s, d) && AllNonRoot(calls)
    ensures SameRuns(p, s, d, calls)
  {
    forall es | Comes(s, calls, es) ensures exists ep :: RunsAgree(p, s, d, calls, ep, es) {
      var ep := RunLifts(p, s, d, calls, es);
    }
    forall ep | Comes(p, LiftCalls(d, calls), ep) ensures exists es :: RunsAgree(p, s, d, calls, ep, es) {
      var es := RunDrops(p, s, d, calls, ep);
    }
  }

  lemma {:induction false} TreeAnchors(t: Files, d: string)
    requires TreeInv(t) && IsRel(d) && IsDirIn(t, d)
    ensures Anchored(t, d)
  {
    forall q | q in Ancestry(d) ensures IsDirIn(t, q) {
      AncestryIsWithin(d, q);
      if q != d { AncestorsPresent(t, q, d); }
    }
  }

  lemma {:induction false} SubKeyValid(t: Files, d: string, x: string)
    requires ValidKeys(t) && IsDirIn(t, d) && x in SubFiles(t, d)
    ensures ValidPath(x)
  {
    if x != "." {
      SubFilesAt(t, d, x);
      UnderRel(d, Inside(d, x));
      assert Inside(d, x)[|d| + 1..] == x;
    }
  }

  lemma {:induction false} SubFilesRelated(t: Files, d: string)
    requires TreeInv(t) && IsRel(d) && IsDirIn(t, d)
    ensures FilesRelated(t, SubFiles(t, d), d)
  {
    TreeAnchors(t, d);
    forall x | x in SubFiles(t, d) ensures ValidPath(x) {
      SubKeyValid(t, d, x);
    }
    forall x | x != "."
      ensures x in SubFiles(t, d) <==> Inside(d, x) in t
      ensures x in SubFiles(t, d) ==> SubFiles(t, d)[x] == t[Inside(d, x)]
    {
      SubFilesAt(t, d, x);
    }
  }

  /** Sub(d) starts out related to its parent. */
  lemma {:induction false} SubStartsRelated<Q>(fs: Fs<Q>, d: string)
    requires ValidFs(fs) && TreeInv(fs.files) && d != "." && SubErr(fs.files, d).None?
    requires Inj.AllFresh(fs.inj) && NoSharing(fs.inj, d) && NoDotPath(fs.inj, d)
    ensures Related(fs, SubOf(fs, d), d)
  {
    SubFilesRelated(fs.files, d);
    assert Sim(fs.inj, SubOf(fs, d).inj, d) by {
      CloneSimulates(fs.inj, d);
    }
  }

  /** Sub is a bisimulation: over any calls on non-root paths, whatever the sub-filesystem
      answers its parent can answer on d/x with fresh rule counters, and conversely; its map
      stays the parent's subtree re-rooted, and nothing outside d changes in the parent. */
  lemma {:induction false} SubBisimulation<Q>(fs: Fs<Q>, d: string, calls: seq<Call>)
    requires ValidFs(fs) && TreeInv(fs.files) && d != "." && SubErr(fs.files, d).None?
    requires Inj.AllFresh(fs.inj) && NoSharing(fs.inj, d) && NoDotPath(fs.inj, d)
    requires AllNonRoot(calls)
    ensures SameRuns(fs, SubOf(fs, d), d, calls)
  {
    SubStartsRelated(fs, d);
    RelatedRuns(fs, SubOf(fs, d), d, calls);
  }

  // ----- Composition -----

  lemma {:induction false} SubFilesAt(t: Files, d: string, x: string)
    requires IsDirIn(t, d) && x != "."
    ensures x in SubFiles(t, d) <==> Inside(d, x) in t
    ensures x in SubFiles(t, d) ==> SubFiles(t, d)[x] == t[Inside(d, x)]
  {
  }

  lemma {:induction false} SubErrComposes(t: Files, a: string, b: string)
    requires ValidKeys(t) && IsRel(a) && IsRel(b) && IsDirIn(t, a)
    ensures SubErr(SubFiles(t, a), b) == SubErr(t, a + "/" + b)
    ensures b in SubFiles(t, a) ==> SubFiles(t, a)[b] == t[a + "/" + b]
  {
    RelConcat(a, b);
    RelNonEmpty(b);
    SubFilesAt(t, a, b);
  }

  lemma {:induction false} SubFilesComposeAt(t: Files, a: string, b: string, x: string)
    requires ValidKeys(t) && IsRel(a) && IsRel(b) && IsDirIn(t, a)
    requires IsDirIn(SubFiles(t, a), b) && IsDirIn(t, a + "/" + b)
    ensures var sab, sc := SubFiles(SubFiles(t, a), b), SubFiles(t, a + "/" + b);
      (x in sab <==> x in sc) && (x in sc ==> sab[x] == sc[x])
  {
    var sa, c := SubFiles(t, a), a + "/" + b;
    assert |b + "/" + x| >= 2 || b == "" by { }
    RelNonEmpty(b);
    assert a + "/" + (b + "/" + x) == c + "/" + x;
    if x != "." {
      SubFilesAt(sa, b, x);
      SubFilesAt(t, a, b + "/" + x);
      SubFilesAt(t, c, x);
    } else {
      NoDotKey(t, a, b);
      SubErrComposes(t, a, b);
      SubRoot(sa, b);
      SubRoot(t, c);
    }
  }

  lemma {:induction false} SubRoot(t: Files, d: string)
    requires IsDirIn(t, d) && d + "/." !in t
    ensures "." in SubFiles(t, d) && SubFiles(t, d)["."] == Entry(Mode(true, t[d].mode.bits), [], t[d].mtime)
  {
    assert d + "/" + "." == d + "/.";
  }

  /** Sub(a) then Sub(b) is Sub(a/b): the same files, the same rules, the same settings,
      hence the same answers to any run. */
  lemma {:induction false} SubComposes<Q>(fs: Fs<Q>, a: string, b: string)
    requires ValidFs(fs) && ValidKeys(fs.files) && IsRel(a) && IsRel(b)
    requires IsDirIn(fs.files, a)
    ensures SubErr(SubOf(fs, a).files, b) == SubErr(fs.files, a + "/" + b)
    ensures SubErr(fs.files, a + "/" + b).None? ==> SubOf(SubOf(fs, a), b) == SubOf(fs, a + "/" + b)
  {
    var t, c := fs.files, a + "/" + b;
    SubErrComposes(t, a, b);
    if SubErr(t, c).None? {
      var sab, sc := SubFiles(SubFiles(t, a), b), SubFiles(t, c);
      forall x ensures (x in sab <==> x in sc) && (x in sc ==> sab[x] == sc[x]) {
        SubFilesComposeAt(t, a, b, x);
      }
      assert sab == sc;
      CloneInjectorComposes(fs.inj, a, b);
    }
  }

  /** The root of a sub-filesystem is never overwritten by a copied entry. */
  lemma {:induction false} NoDotKey(t: Files, a: string, b: string)
    requires ValidKeys(t) && IsRel(a) && IsRel(b) && IsDirIn(t, a)
    ensures b + "/." !in SubFiles(t, a) && a + "/" + b + "/." !in t
  {
    var c := a + "/" + b;
    assert b + "/." == b + "/" + "." && c + "/." == c + "/" + ".";
    RelConcat(c, ".");
    SplitNoSlash(".");
    assert "." in Split(".");
    assert c + "/." != "." by { assert |c + "/."| >= 2; }
    SubFilesAt(t, a, b + "/.");
    assert a + "/" + (b + "/.") == c + "/.";
    assert b + "/." != "." by { RelNonEmpty(b); assert |b + "/."| >= 3; }
  }
}
