/** The filesystem as an object: a map from path to node, changed entry by entry. */
module MockFS {
  import opened Common
  import opened Paths
  import opened Files
  import opened FileMaps
  import opened Nodes
  import opened Listing
  import opened FsMachine
  import opened ErrorRules
  import Builder
  import R = Rename
  import RO = RenameOrders
  import Inj = Injector
  import Stats

  lemma {:induction false} MkdirAllStuck(t: Files, p: string, i: nat, j: nat, e: Entry)
    requires i <= j <= |p| && MkdirAllTo(t, p, i, e).err.Some?
    ensures MkdirAllTo(t, p, j, e) == MkdirAllTo(t, p, i, e)
  {
    if i < j { MkdirAllStuck(t, p, i, j - 1, e); }
  }

  lemma {:induction false} MinusTwice<K, V>(m: map<K, V>, s: set<K>, k: K)
    ensures m - s - {k} == m - (s + {k})
  {
  }

  lemma {:induction false} MinusNothing<K, V>(m: map<K, V>, s: set<K>)
    requires s !! m.Keys
    ensures m - s == m
  {
  }

  /** p and all that may lie below it. */
  ghost function TreeOf(p: string): iset<string> {
    iset q | Within(p, q)
  }

  /** Rename takes away what was stored under name, or puts something else there. */
  ghost predicate IsDisplaced(t: Files, from: string, to: string, name: string) {
    name == from || name == to || (IsDirIn(t, from) && exists x ::
      x in t.Keys + {to} && Under(from, x) && (name == x || name == Rebase(from, to, x)))
  }

  ghost function Displaced(t: Files, from: string, to: string): iset<string> {
    iset name | IsDisplaced(t, from, to, name)
  }

  /** Nothing of at0 has changed its key. */
  ghost predicate InPlace(at0: map<string, MapFile>, nodes: map<MapFile, string>) {
    forall x :: x in at0 && at0[x] in nodes.Keys ==> nodes[at0[x]] == x
  }

  /** Of the keys of at0 below the source those that are not pending have been moved. */
  ghost predicate Left(
    at0: map<string, MapFile>, nodes: map<MapFile, string>, from: string, to: string, pending: set<string>)
  {
    forall x :: x in at0 && x !in pending && Under(from, x) ==>
      Lost(at0, nodes, x) && Lost(at0, nodes, Rebase(from, to, x))
  }

  lemma {:induction false} LeftShrinks(
      at0: map<string, MapFile>, nodes: map<MapFile, string>, nodes': map<MapFile, string>, from: string, to: string)
    requires Left(at0, nodes, from, to, {}) && nodes'.Keys <= nodes.Keys
    ensures Left(at0, nodes', from, to, {})
  {
  }

  lemma {:induction false} FileDisplaced(
      t: Files, at0: map<string, MapFile>, nodes: map<MapFile, string>, from: string, to: string)
    requires !IsDirIn(t, from) && Lost(at0, nodes, from) && Lost(at0, nodes, to)
    ensures LostAll(at0, nodes, Displaced(t, from, to))
  {
  }

  /** at0 is the map before the copy of from onto to, at1 after it. */
  lemma {:induction false} DisplacedLost(
      t: Files, at0: map<string, MapFile>, at1: map<string, MapFile>, nodes1: map<MapFile, string>,
      nodes2: map<MapFile, string>, from: string, to: string, name: string)
    requires t.Keys == at0.Keys && from in at0 && to in at1 && at1 == at0[to := at1[to]]
    requires Lost(at0, nodes1, to) && forall x :: x in at0 && at0[x] in nodes2.Keys ==> at0[x] in nodes1.Keys
    requires Left(at1, nodes2, from, to, {}) && Lost(at1, nodes2, from)
    requires name in Displaced(t, from, to)
    ensures Lost(at0, nodes2, name)
  {
  }

  /** The map while the entries of pending are still to be looked at. */
  function Dropped(t: Files, p: string, pending: set<string>): Files {
    t - (Subtree(t, p) - pending)
  }

  lemma {:induction false} DropEnds(t: Files, p: string)
    ensures Dropped(t, p, t.Keys) == t && Dropped(t, p, {}) == RemoveTree(t, p)
  {
    MinusNothing(t, Subtree(t, p) - t.Keys);
    assert Subtree(t, p) - {} == Subtree(t, p);
  }

  lemma {:induction false} DropStep(t: Files, p: string, pending: set<string>, q: string, before: Files, after: Files)
    requires q in pending && before == Dropped(t, p, pending)
    requires after == if Within(p, q) then before - {q} else before
    ensures after == Dropped(t, p, pending - {q})
  {
    var s, s' := Subtree(t, p) - pending, Subtree(t, p) - (pending - {q});
    if q in Subtree(t, p) {
      assert s' == s + {q};
      MinusTwice(t, s, q);
    } else {
      assert s' == s;
      if Within(p, q) { MinusNothing(before, {q}); }
    }
  }

  class MockFS {
    const files: FileMap<string>
    var injector: ErrorInjector
    const stats: Stats.StatsRecorder
    var writeMode: WriteMode
    var create: bool
    var buildCtx: string

    ghost predicate Valid()
      reads this, files, files.nodes.Keys, injector, stats, stats.ops
    {
      files.Valid() && injector.Valid() && stats.Valid()
    }

    ghost function View(): (v: Fs<ErrorRule>)
      requires Valid()
      reads this, files, files.nodes.Keys, files.buffers.Keys, injector, injector.rules, stats, stats.ops
      ensures ValidFs(v)
    {
      Fs(files.Contents(), injector.View(), writeMode, create, stats.View())
    }

    /** What happens to the files leaves the error rules and the statistics alone. */
    twostate lemma {:induction false} Beside()
      requires old(Valid()) && unchanged(this) && unchanged(injector) && unchanged(stats) && unchanged(stats.ops)
      requires forall r :: r in old(injector.rules) ==> unchanged(r)
      ensures injector.Valid() && injector.View() == old(injector.View())
      ensures stats.Valid() && stats.View() == old(stats.View())
    {
    }

    twostate lemma {:induction false} StatsKept()
      requires old(stats.Valid()) && unchanged(this) && unchanged(stats) && unchanged(stats.ops)
      ensures stats.Valid() && stats.View() == old(stats.View())
    {
    }

    /** NewMockFS before its options. */
    constructor (now: int)
      ensures Valid() && fresh(files) && fresh(files.nodes.Keys) && fresh(files.buffers.Keys)
      ensures fresh(injector) && fresh(injector.rules) && fresh(stats) && fresh(stats.ops)
      ensures files.Contents() == Builder.EmptyFs(now) && injector.configs == map[] && stats.View() == Stats.Zero
      ensures writeMode == Overwrite && !create && buildCtx == "."
    {
      injector := new ErrorInjector();
      stats := new Stats.StatsRecorder();
      writeMode, create, buildCtx := Overwrite, false, ".";
      files := new FileMap();
      new;
      files.Store(".", [], DirMode(DefaultDir), now);
    }

    /** A filesystem with the given map, rules and settings, and statistics of its own. */
    constructor Over(files: FileMap<string>, injector: ErrorInjector, writeMode: WriteMode, create: bool)
      requires files.Valid() && injector.Valid()
      ensures Valid() && this.files == files && this.injector == injector && fresh(stats) && fresh(stats.ops)
      ensures files.Contents() == old(files.Contents())
      ensures this.writeMode == writeMode && this.create == create && stats.View() == Stats.Zero
    {
      this.files, this.injector, this.writeMode, this.create := files, injector, writeMode, create;
      stats := new Stats.StatsRecorder();
      buildCtx := ".";
      new;
      files.Framed();
    }

    // ----- Logic layer -----

    /** m.files[p] = &MapFile{...} */
    method Store(p: string, data: seq<byte>, mode: Mode, now: int)
      requires files.Valid()
      modifies files
      ensures files.Valid() && files.Contents() == old(files.Contents())[p := Entry(mode, data, now)]
      ensures files.Stays() && Lost(old(files.at), files.nodes, p) && Kept(old(files.at), files.at, iset{p})
    {
      files.Store(p, data, mode, now);
    }

    method MakeDir(p: string, m: Mode, now: int) returns (err: Option<Error>)
      requires files.Valid()
      modifies files
      ensures files.Valid() && files.Stays() && Kept(old(files.at), files.at, iset{})
      ensures Res(err, files.Contents()) == MkdirRes(old(files.Contents()), p, m, now)
    {
      if p in files.at {
        return Some(Exist);
      }
      var parent := Dir(p);
      if parent != "." {
        if parent !in files.at {
          return Some(NotExist);
        }
        if !files.at[parent].mode.dir {
          return Some(NotDir);
        }
      }
      Store(p, [], DirMode(m), now);
      return None;
    }

    method MakeDirAll(p: string, m: Mode, now: int) returns (err: Option<Error>)
      requires files.Valid()
      modifies files
      ensures files.Valid() && files.Stays() && Kept(old(files.at), files.at, iset{})
      ensures Res(err, files.Contents()) == MkdirAllRes(old(files.Contents()), p, m, now)
    {
      ghost var t, e := files.Contents(), NewDir(m, now);
      if p == "" {
        return None;
      }
      for i := 1 to |p| + 1
        invariant files.Valid() && files.Stays() && Kept(old(files.at), files.at, iset{})
        invariant MkdirAllTo(t, p, i - 1, e) == Res(None, files.Contents())
      {
        ghost var was := files.Contents();
        assert MkdirAllTo(t, p, i, e) == if AtStop(p, i) then MkdirStep(was, p[..i], e) else Res(None, was);
        if i != |p| && p[i] != '/' {
          continue;
        }
        if p[..i] in files.at {
          if !files.at[p[..i]].mode.dir {
            MkdirAllStuck(t, p, i, |p|, e);
            return Some(NotDir);
          }
          continue;
        }
        ghost var at := files.at;
        files.Store(p[..i], [], DirMode(m), now);
        KeptPut(at, p[..i], files.at[p[..i]], iset{});
        KeptOn(old(files.at), at, files.at, iset{});
      }
      return None;
    }

    method EnsureParentDirs(p: string, now: int) returns (err: Option<Error>)
      requires files.Valid()
      modifies files
      ensures files.Valid() && files.Stays() && Kept(old(files.at), files.at, iset{})
      ensures Res(err, files.Contents()) == EnsureParents(old(files.Contents()), p, now)
    {
      var dir := Dir(p);
      if dir == "." {
        return None;
      }
      err := MakeDirAll(dir, DefaultDir, now);
    }

    method DropWithin(p: string, q: string)
      requires files.Valid()
      modifies files
      ensures files.Valid() && files.Stays() && Kept(old(files.at), files.at, TreeOf(p))
      ensures files.Contents() == if Within(p, q) then old(files.Contents()) - {q} else old(files.Contents())
    {
      if q == p || p + "/" <= q {
        files.Delete(q);
      }
    }

    /** delete(m.files, p) for p and everything below it. */
    method DropTree(p: string)
      requires files.Valid()
      modifies files
      ensures files.Valid() && files.Stays() && Kept(old(files.at), files.at, TreeOf(p))
      ensures LostAll(old(files.at), files.nodes, TreeOf(p))
      ensures files.Contents() == RemoveTree(old(files.Contents()), p)
    {
      ghost var t := files.Contents();
      var pending := files.at.Keys;
      DropEnds(t, p);
      while pending != {}
        invariant files.Valid() && files.Stays() && Kept(old(files.at), files.at, TreeOf(p))
        invariant files.Contents() == Dropped(t, p, pending)
        decreases |pending|
      {
        var q :| q in pending;
        ghost var before := files.Contents();
        DropWithin(p, q);
        DropStep(t, p, pending, q, before, files.Contents());
        pending := pending - {q};
      }
      forall x | x in TreeOf(p) ensures Lost(old(files.at), files.nodes, x) { files.LostIff(x); }
    }

    /** Is there a key below p? */
    method AnyBelow(p: string) returns (b: bool)
      requires files.Valid()
      ensures b == HasDescendants(files.Contents(), p)
    {
      var pending := files.at.Keys;
      while pending != {}
        invariant pending <= files.at.Keys
        invariant forall q :: q in files.at && q !in pending ==> !Under(p, q)
        decreases |pending|
      {
        var q :| q in pending;
        pending := pending - {q};
        if p + "/" <= q {
          assert q in files.Contents() && Under(p, q);
          return true;
        }
      }
      return false;
    }

    /** Remove, below the simulation layer. */
    method Unlink(p: string) returns (err: Option<Error>)
      requires files.Valid()
      modifies files
      ensures files.Valid() && files.Stays() && Kept(old(files.at), files.at, iset{p})
      ensures err.None? ==> Lost(old(files.at), files.nodes, p)
      ensures Res(err, files.Contents()) == RemoveRes(old(files.Contents()), p)
    {
      if p !in files.at {
        return Some(NotExist);
      }
      if files.at[p].mode.dir {
        var below := AnyBelow(p);
        if below {
          return Some(NotEmpty);
        }
      }
      files.Delete(p);
      return None;
    }

    /** AddFile, once the parents are there. */
    method PlaceEntry(p: string, data: seq<byte>, m: Mode, now: int) returns (err: Option<Error>)
      requires files.Valid()
      modifies files
      ensures files.Valid() && files.Stays() && Kept(old(files.at), files.at, iset{p})
      ensures err.None? ==> Lost(old(files.at), files.nodes, p)
      ensures err == if IsDirIn(old(files.Contents()), p) then Some(IsDir) else None
      ensures files.Contents() ==
        if err.Some? then old(files.Contents()) else old(files.Contents())[p := Entry(FileMode(m), data, now)]
    {
      if p in files.at && files.at[p].mode.dir {
        return Some(IsDir);
      }
      Store(p, data, FileMode(m), now);
      return None;
    }

    /** AddFile, once its path is known to be valid. */
    method PlaceFile(p: string, data: seq<byte>, m: Mode, now: int) returns (err: Option<Error>)
      requires files.Valid() && ValidPath(p)
      modifies files
      ensures files.Valid() && files.Stays() && Kept(old(files.at), files.at, iset{p})
      ensures err.None? ==> Lost(old(files.at), files.nodes, p)
      ensures Res(err, files.Contents()) == AddFileRes(old(files.Contents()), p, data, m, now)
    {
      ghost var t := files.Contents();
      err := EnsureParentDirs(p, now);
      ghost var made := files.Contents();
      assert EnsureParents(t, p, now) == Res(err, made);
      if err.None? {
        err := PlaceEntry(p, data, m, now);
        assert err.Some? ==> files.Contents() == made;
      }
    }

    /** WriteFile to a file that is there, which keeps its node. */
    method Rewrite(p: string, data: seq<byte>, now: int)
      requires files.Valid() && p in files.at
      modifies files, files.at[p], files.at[p].buf
      ensures files.Valid() && files.Stays() && files.at == old(files.at)
      ensures files.Contents() ==
        old(files.Contents()[p :=
          Entry(files.Contents()[p].mode, Written(writeMode, files.Contents()[p].data, data), now)])
    {
      if writeMode == Append {
        files.Append(p, data, now);
      } else {
        files.Overwrite(p, data, now);
      }
    }

    /** One round of the loop of Rename, for a key below the source. A key inserted now may be
        visited later, or not; one that was there keeps its turn. */
    method MoveRound(from: string, to: string, q: string, pending: set<string>, extra: set<string>)
      returns (pending': set<string>, extra': set<string>)
      requires files.Valid() && q in pending + extra && Under(from, q) && q in files.at
      modifies files
      ensures files.Valid() && files.Stays() && Lost(old(files.at), files.nodes, q)
      ensures Lost(old(files.at), files.nodes, Rebase(from, to, q))
      ensures Kept(old(files.at), files.at, iset{q, Rebase(from, to, q)})
      ensures pending' == pending - {q}
      ensures RO.Loop(files.Contents(), pending', extra') ==
        RO.Visit(RO.Loop(old(files.Contents()), pending, extra), from, to, q)
    {
      R.NewName(from, to, q);
      var newQ := to + "/" + q[|from| + 1..];
      pending', extra' := pending - {q}, extra - {q} + if newQ in files.at then {} else {newQ};
      files.MoveTo(q, newQ);
    }

    /** One round of the loop, whatever the key. */
    method Visit(from: string, to: string, q: string, pending: set<string>, extra: set<string>)
      returns (pending': set<string>, extra': set<string>)
      requires files.Valid() && q in pending + extra
      modifies files
      ensures files.Valid() && files.Stays() && Kept(old(files.at), files.at, TreeOf(from) + TreeOf(to))
      ensures Under(from, q) && q in old(files.at) ==>
        Lost(old(files.at), files.nodes, q) && Lost(old(files.at), files.nodes, Rebase(from, to, q))
      ensures pending' == pending - {q} && old(files.at).Keys - {q} <= files.at.Keys
      ensures RO.Loop(files.Contents(), pending', extra') ==
        RO.Visit(RO.Loop(old(files.Contents()), pending, extra), from, to, q)
    {
      if q in files.at && from + "/" <= q {
        RebaseInverse(from, to, q);
        pending', extra' := MoveRound(from, to, q, pending, extra);
      } else {
        pending', extra' := pending - {q}, extra - {q};
      }
    }

    /** What a round leaves behind of the map at0 that the loop began with. */
    method VisitNext(from: string, to: string, q: string, pending: set<string>, extra: set<string>,
                     ghost at0: map<string, MapFile>)
      returns (pending': set<string>, extra': set<string>)
      requires files.Valid() && q in pending + extra && pending <= files.at.Keys
      requires InPlace(at0, files.nodes) && Left(at0, files.nodes, from, to, pending)
      modifies files
      ensures files.Valid() && files.Stays() && Kept(old(files.at), files.at, TreeOf(from) + TreeOf(to))
      ensures pending' == pending - {q} && pending' <= files.at.Keys
      ensures InPlace(at0, files.nodes) && Left(at0, files.nodes, from, to, pending')
      ensures RO.Loop(files.Contents(), pending', extra') ==
        RO.Visit(RO.Loop(old(files.Contents()), pending, extra), from, to, q)
    {
      pending', extra' := Visit(from, to, q, pending, extra);
    }

    /** The loop of Rename over the keys, in any order, visiting any number of inserted keys. */
    method MoveChildren(from: string, to: string) returns (ghost qs: seq<string>)
      requires files.Valid()
      modifies files
      ensures files.Valid() && files.Stays() && Kept(old(files.at), files.at, TreeOf(from) + TreeOf(to))
      ensures Left(old(files.at), files.nodes, from, to, {})
      ensures var s := RO.Loop(old(files.Contents()), old(files.at.Keys), {});
        && RO.Order(s, from, to, qs) && RO.MayEnd(RO.Reached(s, from, to, qs))
        && files.Contents() == RO.Reached(s, from, to, qs).files
    {
      var pending, extra := files.at.Keys, {};
      ghost var s := RO.Loop(files.Contents(), pending, extra);
      var again: nat :| true;
      qs := [];
      while pending != {} || (extra != {} && again > 0)
        invariant files.Valid() && files.Stays() && Kept(old(files.at), files.at, TreeOf(from) + TreeOf(to))
        invariant pending <= files.at.Keys && InPlace(old(files.at), files.nodes)
        invariant Left(old(files.at), files.nodes, from, to, pending)
        invariant RO.Order(s, from, to, qs) && RO.Reached(s, from, to, qs) == RO.Loop(files.Contents(), pending, extra)
        decreases pending, again
      {
        var q :| q in pending + extra && (again == 0 ==> q in pending);
        if q !in pending {
          again := again - 1;
        }
        RO.Last(s, from, to, qs, q);
        RO.Visited(pending, q);
        qs := qs + [q];
        pending, extra := VisitNext(from, to, q, pending, extra, old(files.at));
      }
    }

    /** Rename of a directory, after its entry has been copied. */
    method MoveAll(from: string, to: string) returns (ghost qs: seq<string>)
      requires files.Valid()
      modifies files
      ensures files.Valid() && files.Stays() && Kept(old(files.at), files.at, TreeOf(from) + TreeOf(to))
      ensures Left(old(files.at), files.nodes, from, to, {}) && Lost(old(files.at), files.nodes, from)
      ensures var s := RO.Loop(old(files.Contents()), old(files.at.Keys), {});
        && RO.Order(s, from, to, qs) && RO.MayEnd(RO.Reached(s, from, to, qs))
        && files.Contents() == RO.Reached(s, from, to, qs).files - {from}
    {
      qs := MoveChildren(from, to);
      ghost var nodes := files.nodes;
      files.Delete(from);
      LeftShrinks(old(files.at), nodes, files.nodes, from, to);
      files.LostIff(from);
    }

    /** Rename of a directory. */
    method MoveDir(from: string, to: string, now: int)
      requires files.Valid() && from in files.at && files.at[from].mode.dir
      modifies files
      ensures files.Valid() && files.Stays() && Kept(old(files.at), files.at, TreeOf(from) + TreeOf(to))
      ensures LostAll(old(files.at), files.nodes, Displaced(old(files.Contents()), from, to))
      ensures RO.Outcome(old(files.Contents()), from, to, now, Res(None, files.Contents()))
    {
      ghost var t, at0, touched := files.Contents(), files.at, TreeOf(from) + TreeOf(to);
      files.CopyTo(from, to, now);
      ghost var at1, nodes1 := files.at, files.nodes;
      KeptPut(at0, to, at1[to], touched);
      ghost var qs := MoveAll(from, to);
      KeptOn(at0, at1, files.at, touched);
      assert RO.Order(RO.Start(t, from, to, now), from, to, qs);
      forall name | name in Displaced(t, from, to) ensures Lost(at0, files.nodes, name) {
        DisplacedLost(t, at0, at1, nodes1, files.nodes, from, to, name);
      }
    }

    /** Rename of a file. */
    method MoveFile(from: string, to: string, now: int)
      requires files.Valid() && from in files.at && !files.at[from].mode.dir
      modifies files
      ensures files.Valid() && files.Stays() && Kept(old(files.at), files.at, TreeOf(from) + TreeOf(to))
      ensures LostAll(old(files.at), files.nodes, Displaced(old(files.Contents()), from, to))
      ensures RO.Outcome(old(files.Contents()), from, to, now, Res(None, files.Contents()))
    {
      ghost var at0, touched := files.at, TreeOf(from) + TreeOf(to);
      R.FileMoved(files.Contents(), from, to, now);
      files.CopyTo(from, to, now);
      ghost var at1 := files.at;
      files.Delete(from);
      KeptPut(at0, to, at1[to], touched);
      KeptMinus(at1, from, touched);
      KeptOn(at0, at1, files.at, touched);
      files.LostIff(from);
      FileDisplaced(old(files.Contents()), at0, files.nodes, from, to);
    }

    /** Rename of what exists, below the simulation layer. */
    method MoveExisting(from: string, to: string, now: int)
      requires files.Valid() && from in files.at
      modifies files
      ensures files.Valid() && files.Stays() && Kept(old(files.at), files.at, TreeOf(from) + TreeOf(to))
      ensures LostAll(old(files.at), files.nodes, Displaced(old(files.Contents()), from, to))
      ensures RO.Outcome(old(files.Contents()), from, to, now, Res(None, files.Contents()))
    {
      if files.at[from].mode.dir {
        MoveDir(from, to, now);
      } else {
        MoveFile(from, to, now);
      }
    }

    method Move(from: string, to: string, now: int) returns (err: Option<Error>)
      requires files.Valid()
      modifies files
      ensures files.Valid() && files.Stays() && Kept(old(files.at), files.at, TreeOf(from) + TreeOf(to))
      ensures err.None? ==> LostAll(old(files.at), files.nodes, Displaced(old(files.Contents()), from, to))
      ensures RO.Outcome(old(files.Contents()), from, to, now, Res(err, files.Contents()))
    {
      if from !in files.at {
        return Some(NotExist);
      }
      MoveExisting(from, to, now);
      return None;
    }

    // ----- Simulation layer -----

    method Inject(k: Operation, p: string) returns (err: Option<Error>)
      requires Valid()
      modifies injector.rules
      ensures Valid() && err == Inj.Check(old(View()).inj, k, p).err && View() == Checked(old(View()), k, p)
    {
      err := injector.CheckAndApply(k, p);
      files.Framed();
    }

    /** Path validation and error injection. */
    method Enter(k: Operation, p: string, valid: bool) returns (err: Option<Error>)
      requires Valid()
      modifies injector.rules
      ensures Valid() && err == Gate(old(View()), k, p, valid) && View() == Passed(old(View()), k, p, valid)
    {
      if !valid {
        return Some(Invalid);
      }
      err := Inject(k, p);
    }

    /** The deferred Record. */
    method Record(k: Operation, bytes: nat, failed: bool)
      requires Valid() && ValidOp(k)
      modifies stats, stats.ops
      ensures Valid() && View() == Recorded(old(View()), k, bytes, failed)
    {
      stats.Record(k, bytes, failed);
    }

    /** The deferred Record of an operation that has had the effect r on the files, unless
        something stopped it. */
    method Finish(k: Operation, bytes: nat, err: Option<Error>,
                  ghost v: Fs<ErrorRule>, ghost p: string, ghost valid: bool, ghost r: Res)
      requires Valid() && ValidOp(k) && ValidFs(v)
      requires var g := Gate(v, k, p, valid);
        err == (if g.Some? then g else r.err)
        && View() == if g.Some? then Passed(v, k, p, valid) else Passed(v, k, p, valid).(files := r.files)
      modifies stats, stats.ops
      ensures Valid() && Stepped(View(), OutcomeOf(err)) == Mutating(v, k, p, valid, r, bytes)
    {
      Record(k, if err.None? then bytes else 0, err.Some?);
    }

    /** The same for an operation that only looks. */
    method FinishLook(
        k: Operation, out: Outcome, ghost v: Fs<ErrorRule>, ghost p: string, ghost valid: bool, ghost seen: Outcome)
      requires Valid() && ValidOp(k) && ValidFs(v) && View() == Passed(v, k, p, valid)
      requires out == if Gate(v, k, p, valid).Some? then Failed(Gate(v, k, p, valid).value) else seen
      modifies stats, stats.ops
      ensures Valid() && Stepped(View(), out) == Looking(v, k, p, valid, seen)
    {
      Record(k, 0, out.Failed?);
    }

    method Mkdir(p: string, m: Mode, now: int) returns (err: Option<Error>)
      requires Valid()
      modifies files, injector.rules, stats, stats.ops
      ensures Valid() && files.Stays() && Kept(old(files.at), files.at, iset{})
      ensures Stepped(View(), OutcomeOf(err)) == Step(old(View()), Op.Mkdir(p, m), now)
    {
      ghost var v, r := View(), MkdirRes(files.Contents(), p, m, now);
      err := Enter(OpMkdir, p, ValidPath(p) && p != ".");
      label entered:
      if err.None? {
        err := MakeDir(p, m, now);
        Beside@entered();
      }
      Finish(OpMkdir, 0, err, v, p, ValidPath(p) && p != ".", r);
    }

    method MkdirAll(p: string, m: Mode, now: int) returns (err: Option<Error>)
      requires Valid()
      modifies files, injector.rules, stats, stats.ops
      ensures Valid() && files.Stays() && Kept(old(files.at), files.at, iset{})
      ensures Stepped(View(), OutcomeOf(err)) == Step(old(View()), Op.MkdirAll(p, m), now)
    {
      ghost var v, r := View(), MkdirAllRes(files.Contents(), p, m, now);
      err := Enter(OpMkdirAll, p, ValidPath(p));
      label entered:
      if err.None? {
        err := MakeDirAll(p, m, now);
        Beside@entered();
      }
      Finish(OpMkdirAll, 0, err, v, p, ValidPath(p), r);
    }

    method Remove(p: string, ghost now: int) returns (err: Option<Error>)
      requires Valid()
      modifies files, injector.rules, stats, stats.ops
      ensures Valid() && files.Stays() && Kept(old(files.at), files.at, iset{p})
      ensures err.None? ==> Lost(old(files.at), files.nodes, p)
      ensures Stepped(View(), OutcomeOf(err)) == Step(old(View()), Op.Remove(p), now)
    {
      ghost var v, r := View(), RemoveRes(files.Contents(), p);
      err := Enter(OpRemove, p, ValidPath(p));
      label entered:
      if err.None? {
        err := Unlink(p);
        Beside@entered();
      }
      Finish(OpRemove, 0, err, v, p, ValidPath(p), r);
    }

    method RemoveAll(p: string, ghost now: int) returns (err: Option<Error>)
      requires Valid()
      modifies files, injector.rules, stats, stats.ops
      ensures Valid() && files.Stays() && Kept(old(files.at), files.at, TreeOf(p))
      ensures err.None? ==> LostAll(old(files.at), files.nodes, TreeOf(p))
      ensures Stepped(View(), OutcomeOf(err)) == Step(old(View()), Op.RemoveAll(p), now)
    {
      ghost var v, r := View(), Res(None, RemoveTree(files.Contents(), p));
      err := Enter(OpRemoveAll, p, ValidPath(p));
      label entered:
      if err.None? {
        DropTree(p);
        Beside@entered();
      }
      Finish(OpRemoveAll, 0, err, v, p, ValidPath(p), r);
    }

    method MoveThrough(p: string, to: string, now: int) returns (err: Option<Error>, ghost end: Res)
      requires Valid()
      modifies files
      ensures Valid() && files.Stays() && Kept(old(files.at), files.at, TreeOf(p) + TreeOf(to))
      ensures err.None? ==> LostAll(old(files.at), files.nodes, Displaced(old(files.Contents()), p, to))
      ensures err == end.err && RO.Outcome(old(files.Contents()), p, to, now, end)
      ensures View() == old(View()).(files := end.files)
    {
      err := Move(p, to, now);
      Beside();
      end := Res(err, files.Contents());
    }

    /** Rename comes to one of the outcomes that the order of its loop allows. What was stored
        under a name that it moves, or moves something to, is stored no more. */
    method Rename(p: string, to: string, now: int) returns (err: Option<Error>, ghost end: Res)
      requires Valid()
      modifies files, injector.rules, stats, stats.ops
      ensures Valid() && files.Stays() && Kept(old(files.at), files.at, TreeOf(p) + TreeOf(to))
      ensures err.None? ==> LostAll(old(files.at), files.nodes, Displaced(old(files.Contents()), p, to))
      ensures CanCome(old(files.Contents()), Op.Rename(p, to), now, end)
      ensures Stepped(View(), OutcomeOf(err)) == StepTo(old(View()), Op.Rename(p, to), now, end)
    {
      ghost var v := View();
      end := RO.SomeOutcome(files.Contents(), p, to, now);
      err := Enter(OpRename, p, ValidPath(p) && ValidPath(to));
      if err.None? {
        err, end := MoveThrough(p, to, now);
      }
      Finish(OpRename, 0, err, v, p, ValidPath(p) && ValidPath(to), end);
    }

    method RewriteThrough(p: string, data: seq<byte>, now: int)
      requires Valid() && p in files.at
      modifies files, files.at[p], files.at[p].buf
      ensures Valid() && files.Stays() && files.at == old(files.at)
      ensures View() == old(View()).(files :=
        old(files.Contents()[p :=
          Entry(files.Contents()[p].mode, Written(writeMode, files.Contents()[p].data, data), now)]))
    {
      Rewrite(p, data, now);
    }

    method CreateThrough(p: string, data: seq<byte>, m: Mode, now: int)
      requires Valid()
      modifies files
      ensures Valid() && files.Stays() && Kept(old(files.at), files.at, iset{p})
      ensures View() == old(View()).(files := old(files.Contents())[p := Entry(Mode(false, m.bits), data, now)])
    {
      Store(p, data, Mode(false, m.bits), now);
    }

    /** WriteFile, below the simulation layer. */
    method WriteThrough(p: string, data: seq<byte>, m: Mode, now: int) returns (err: Option<Error>)
      requires Valid()
      modifies files, if p in files.at then {files.at[p], files.at[p].buf} else {}
      ensures Valid() && files.Stays() && Kept(old(files.at), files.at, iset{})
      ensures var r := WriteFileRes(old(files.Contents()), writeMode, create, p, data, m, now);
        err == r.err && View() == old(View()).(files := r.files)
    {
      if writeMode == ReadOnly {
        return Some(Permission);
      }
      if p !in files.at {
        if !create {
          return Some(NotExist);
        }
        CreateThrough(p, data, m, now);
      } else {
        RewriteThrough(p, data, now);
      }
      return None;
    }

    method WriteFile(p: string, data: seq<byte>, m: Mode, now: int) returns (err: Option<Error>)
      requires Valid()
      modifies files, injector.rules, stats, stats.ops, if p in files.at then {files.at[p], files.at[p].buf} else {}
      ensures Valid() && files.Stays() && Kept(old(files.at), files.at, iset{})
      ensures Stepped(View(), OutcomeOf(err)) == Step(old(View()), Op.WriteFile(p, data, m), now)
    {
      ghost var v, r := View(), WriteFileRes(files.Contents(), writeMode, create, p, data, m, now);
      err := Enter(OpWrite, p, ValidPath(p));
      if err.None? {
        err := WriteThrough(p, data, m, now);
      }
      Finish(OpWrite, |data|, err, v, p, ValidPath(p), r);
    }

    // ----- Operations that neither inject nor record -----

    method AddFile(p: string, data: seq<byte>, m: Mode, now: int) returns (err: Option<Error>)
      requires Valid()
      modifies files
      ensures Valid() && files.Stays() && Kept(old(files.at), files.at, iset{p})
      ensures err.None? ==> Lost(old(files.at), files.nodes, p)
      ensures Stepped(View(), OutcomeOf(err)) == Step(old(View()), Op.AddFile(p, data, m), now)
    {
      if !ValidPath(p) {
        return Some(Invalid);
      }
      err := PlaceFile(p, data, m, now);
      Beside();
    }

    method AddDir(p: string, m: Mode, now: int) returns (err: Option<Error>)
      requires Valid()
      modifies files
      ensures Valid() && files.Stays() && Kept(old(files.at), files.at, iset{})
      ensures Stepped(View(), OutcomeOf(err)) == Step(old(View()), Op.AddDir(p, m), now)
    {
      if !ValidPath(p) {
        return Some(Invalid);
      }
      err := MakeDirAll(p, m, now);
    }

    method RemoveEntry(p: string, ghost now: int) returns (err: Option<Error>)
      requires Valid()
      modifies files
      ensures Valid() && files.Stays() && Kept(old(files.at), files.at, TreeOf(p))
      ensures err.None? ==> LostAll(old(files.at), files.nodes, TreeOf(p))
      ensures Stepped(View(), OutcomeOf(err)) == Step(old(View()), Op.RemoveEntry(p), now)
    {
      if !ValidPath(p) {
        return Some(Invalid);
      }
      DropTree(p);
      return None;
    }

    // ----- Looking -----

    /** First pass of collectDirEntries, over the keys in any order. */
    method CollectNames(d: string) returns (names: set<string>)
      requires files.Valid()
      ensures names == ChildNames(files.Contents(), d)
    {
      var keys := files.at.Keys;
      names := {};
      var pending := keys;
      var prefix := if d == "." then "" else d + "/";
      NamesAll(files.Contents(), d);
      assert keys - pending == {};
      while pending != {}
        invariant pending <= keys && names == NamesFrom(keys - pending, d)
        decreases pending
      {
        var p :| p in pending;
        NamesStep(keys - pending, d, p);
        assert keys - (pending - {p}) == keys - pending + {p};
        pending := pending - {p};
        if p != d {
          if prefix == "" {
            names := names + {FirstSeg(p)};
          } else if prefix <= p {
            names := names + {FirstSeg(p[|prefix|..])};
          }
        }
      }
      assert keys - {} == keys;
    }

    /** Second pass, over the names in any order. */
    method CollectEntries(d: string, names: set<string>) returns (es: seq<FileInfo>)
      requires files.Valid()
      ensures Gathered(files.Contents(), d, names, es)
    {
      es := [];
      var pending := names;
      assert names - pending == {};
      while pending != {}
        invariant pending <= names && Gathered(files.Contents(), d, names - pending, es)
        decreases pending
      {
        var n :| n in pending;
        GatheredStep(files.Contents(), d, names - pending, es, n);
        assert names - (pending - {n}) == names - pending + {n};
        pending := pending - {n};
        var child := JoinName(d, n);
        if child in files.at {
          var f := files.at[child];
          es := es + [FileInfo(n, f.mode, f.mtime, f.len)];
        }
      }
      assert names - {} == names;
    }

    method List(d: string) returns (es: seq<FileInfo>)
      requires files.Valid()
      ensures es == DirListing(files.Contents(), d)
    {
      var names := CollectNames(d);
      var found := CollectEntries(d, names);
      es := SortByName(found);
      GatheredSorted(files.Contents(), d, found, es);
    }

    method Look(p: string) returns (out: Outcome)
      requires files.Valid()
      ensures out == StatOut(files.Contents(), p)
    {
      if p !in files.at {
        return Failed(NotExist);
      }
      var f := files.at[p];
      return Info(FileInfo(Base(p), f.mode, f.mtime, f.len));
    }

    method LookDir(p: string) returns (out: Outcome)
      requires files.Valid()
      ensures out == ReadDirOut(files.Contents(), p)
    {
      if p !in files.at {
        return Failed(NotExist);
      }
      if !files.at[p].mode.dir {
        return Failed(NotDir);
      }
      var es := List(p);
      return Entries(es);
    }

    method Stat(p: string, ghost now: int) returns (out: Outcome)
      requires Valid()
      modifies injector.rules, stats, stats.ops
      ensures Valid() && Stepped(View(), out) == Step(old(View()), Op.Stat(p), now)
    {
      ghost var v, seen := View(), StatOut(files.Contents(), p);
      var err := Enter(OpStat, p, ValidPath(p));
      label entered:
      if err.Some? {
        out := Failed(err.value);
      } else {
        out := Look(p);
        Beside@entered();
        files.Framed@entered();
      }
      FinishLook(OpStat, out, v, p, ValidPath(p), seen);
    }

    method ReadDir(p: string, ghost now: int) returns (out: Outcome)
      requires Valid()
      modifies injector.rules, stats, stats.ops
      ensures Valid() && Stepped(View(), out) == Step(old(View()), Op.ReadDir(p), now)
    {
      ghost var v, seen := View(), ReadDirOut(files.Contents(), p);
      var err := Enter(OpReadDir, p, ValidPath(p));
      label entered:
      if err.Some? {
        out := Failed(err.value);
      } else {
        out := LookDir(p);
        Beside@entered();
        files.Framed@entered();
      }
      FinishLook(OpReadDir, out, v, p, ValidPath(p), seen);
    }
  }
}
