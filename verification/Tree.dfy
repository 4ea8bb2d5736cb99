/** The flat map behaves as a tree: the invariant, and what each operation does to it. */
module Tree {
  import opened Common
  import opened Paths
  import opened Files

  predicate ValidKeys(t: Files) {
    forall p :: p in t ==> ValidPath(p)
  }

  predicate ParentOk(t: Files, p: string) {
    p == "." || Dir(p) == "." || IsDirIn(t, Dir(p))
  }

  /** Every key is a valid path, and the parent of every key that is not at the top
      level is present and a directory. */
  predicate TreeInv(t: Files) {
    ValidKeys(t) && forall p :: p in t ==> ParentOk(t, p)
  }

  lemma {:induction false} AncestorsPresent(t: Files, d: string, p: string)
    requires TreeInv(t) && p in t && Under(d, p)
    ensures IsDirIn(t, d)
    decreases |p|
  {
    UnderRel(d, p);
    RelNonEmpty(p);
    UnderDir(d, p);
    DirValid(p);
    assert ParentOk(t, p);
    if Dir(p) != d {
      AncestorsPresent(t, d, Dir(p));
    }
  }

  lemma {:induction false} FilesHaveNoDescendants(t: Files, p: string)
    requires TreeInv(t) && !IsDirIn(t, p)
    ensures !HasDescendants(t, p)
  {
    forall q | q in t && Under(p, q) ensures false {
      AncestorsPresent(t, p, q);
    }
  }

  // ----- mkdirAll in closed form -----

  /** The paths mkdirAll(p) looks at up to index i. */
  function Stops(p: string, i: nat): set<string>
    requires i <= |p|
  {
    set j | 1 <= j <= i && AtStop(p, j) :: p[..j]
  }

  function Ancestry(p: string): set<string> {
    Stops(p, |p|)
  }

  /** They are p and its proper ancestors. */
  lemma {:induction false} AncestryIsWithin(p: string, q: string)
    requires ValidPath(p)
    ensures q in Ancestry(p) <==> Within(q, p)
  {
    if p != "." { RelNonEmpty(p); }
    if Within(q, p) {
      assert p[..|q|] == q && AtStop(p, |q|);
    }
  }

  predicate Blocked(t: Files, s: set<string>) {
    exists q :: q in s && q in t && !t[q].mode.dir
  }

  function Added(t: Files, s: set<string>, e: Entry): Files {
    t + map q | q in s && q !in t :: e
  }

  lemma {:induction false} StopsStep(p: string, i: nat)
    requires 0 < i <= |p|
    ensures Stops(p, i) == if AtStop(p, i) then Stops(p, i - 1) + {p[..i]} else Stops(p, i - 1)
    ensures p[..i] !in Stops(p, i - 1)
  {
    forall q | q in Stops(p, i) ensures q in Stops(p, i - 1) || (AtStop(p, i) && q == p[..i]) {
      var j :| 1 <= j <= i && AtStop(p, j) && q == p[..j];
    }
    forall q | q in Stops(p, i - 1) ensures |q| < i && q in Stops(p, i) {
      var j :| 1 <= j <= i - 1 && AtStop(p, j) && q == p[..j];
    }
  }

  lemma {:induction false} BlockedGrow(t: Files, s: set<string>, q: string)
    ensures Blocked(t, s + {q}) <==> Blocked(t, s) || (q in t && !t[q].mode.dir)
  {
    if q in t && !t[q].mode.dir { assert q in s + {q}; }
    if Blocked(t, s) {
      var b :| b in s && b in t && !t[b].mode.dir;
      assert b in s + {q};
    }
  }

  lemma {:induction false} AddedGrow(t: Files, s: set<string>, q: string, e: Entry)
    requires q !in s
    ensures Added(t, s + {q}, e) == if q in t then Added(t, s, e) else Added(t, s, e)[q := e]
    ensures q in Added(t, s, e) <==> q in t
    ensures q in t ==> Added(t, s, e)[q] == t[q]
  {
  }

  lemma {:induction false} AddedNothing(t: Files, s: set<string>, e: Entry)
    requires forall q :: q in s ==> q in t
    ensures Added(t, s, e) == t
  {
  }

  /** On any map: it fails exactly when a file is in the way, and otherwise adds
      exactly what is missing. */
  lemma {:induction false} MkdirAllAny(t: Files, p: string, i: nat, e: Entry)
    requires i <= |p| && e.mode.dir
    ensures MkdirAllTo(t, p, i, e).err == if Blocked(t, Stops(p, i)) then Some(NotDir) else None
    ensures !Blocked(t, Stops(p, i)) ==> MkdirAllTo(t, p, i, e).files == Added(t, Stops(p, i), e)
  {
    if i == 0 {
      assert Stops(p, 0) == {};
    } else {
      MkdirAllAny(t, p, i - 1, e);
      StopsStep(p, i);
      BlockedGrow(t, Stops(p, i - 1), p[..i]);
      AddedGrow(t, Stops(p, i - 1), p[..i], e);
    }
  }

  lemma {:induction false} StopsAbove(p: string, i: nat, a: string)
    requires 0 < i <= |p| && a in Stops(p, i - 1)
    ensures Under(a, p[..i])
  {
    var j :| 1 <= j <= i - 1 && AtStop(p, j) && a == p[..j];
    assert p[..i][..j + 1] == a + "/";
  }

  /** In a tree a file in the way means that nothing is missing before it. */
  lemma {:induction false} MkdirAllBlocked(t: Files, p: string, i: nat, e: Entry)
    requires i <= |p| && e.mode.dir && TreeInv(t) && Blocked(t, Stops(p, i))
    ensures MkdirAllTo(t, p, i, e) == Res(Some(NotDir), t)
  {
    assert i != 0;
    MkdirAllAny(t, p, i - 1, e);
    StopsStep(p, i);
    if Blocked(t, Stops(p, i - 1)) {
      MkdirAllBlocked(t, p, i - 1, e);
    } else {
      var q := p[..i];
      assert AtStop(p, i) && q in t && !t[q].mode.dir;
      forall a | a in Stops(p, i - 1) ensures a in t {
        StopsAbove(p, i, a);
        AncestorsPresent(t, a, q);
      }
      AddedNothing(t, Stops(p, i - 1), e);
    }
  }

  /** mkdirAll is all-or-nothing: an error leaves the map as it was, and success adds
      exactly the missing ones among p and its ancestors, leaving every other entry alone. */
  lemma {:induction false} MkdirAllAtomic(t: Files, p: string, m: Mode, now: int)
    requires TreeInv(t) && ValidPath(p)
    ensures MkdirAllRes(t, p, m, now) ==
      if Blocked(t, Ancestry(p)) then Res(Some(NotDir), t)
      else Res(None, Added(t, Ancestry(p), NewDir(m, now)))
  {
    if Blocked(t, Ancestry(p)) {
      MkdirAllBlocked(t, p, |p|, NewDir(m, now));
    } else {
      MkdirAllAny(t, p, |p|, NewDir(m, now));
    }
  }

  lemma {:induction false} MkdirAllKeepsTree(t: Files, p: string, m: Mode, now: int)
    requires TreeInv(t) && ValidPath(p)
    ensures TreeInv(MkdirAllRes(t, p, m, now).files)
    ensures MkdirAllRes(t, p, m, now).err.None? ==> IsDirIn(MkdirAllRes(t, p, m, now).files, p)
  {
    MkdirAllAtomic(t, p, m, now);
    if !Blocked(t, Ancestry(p)) {
      var t' := Added(t, Ancestry(p), NewDir(m, now));
      AncestryIsWithin(p, p);
      forall q | q in t' ensures ValidPath(q) && ParentOk(t', q) {
        if q in t {
          assert ParentOk(t, q);
        } else {
          AddedParent(t, p, NewDir(m, now), q);
        }
      }
    }
  }

  lemma {:induction false} AddedParent(t: Files, p: string, e: Entry, q: string)
    requires ValidPath(p) && e.mode.dir && !Blocked(t, Ancestry(p)) && q in Ancestry(p)
    ensures ValidPath(q) && ParentOk(Added(t, Ancestry(p), e), q)
  {
    AncestryIsWithin(p, q);
    if q != p { UnderRel(q, p); }
    if q != "." && Dir(q) != "." {
      DirValid(q);
      if q != p { UnderTransitive(Dir(q), q, p); }
      AncestryIsWithin(p, Dir(q));
    }
  }

  // ----- AddFile -----

  function ParentStops(p: string): set<string> {
    if Dir(p) == "." then {} else Ancestry(Dir(p))
  }

  /** AddFile is all-or-nothing too: success adds exactly the missing proper ancestors
      and the file. */
  lemma {:induction false} AddFileAtomic(t: Files, p: string, data: seq<byte>, m: Mode, now: int)
    requires TreeInv(t)
    ensures AddFileRes(t, p, data, m, now) ==
      if !ValidPath(p) then Res(Some(Invalid), t)
      else if Blocked(t, ParentStops(p)) then Res(Some(NotDir), t)
      else if IsDirIn(t, p) then Res(Some(IsDir), t)
      else Res(None, Added(t, ParentStops(p), NewDir(DefaultDir, now))[p := Entry(FileMode(m), data, now)])
    ensures ValidPath(p) ==> forall q :: q in ParentStops(p) <==> q != p && Within(q, p) && Dir(p) != "."
  {
    if ValidPath(p) {
      ParentStopsAre(p);
      EnsureParentsAtomic(t, p, now);
      if !Blocked(t, ParentStops(p)) {
        var t0 := Added(t, ParentStops(p), NewDir(DefaultDir, now));
        assert p !in ParentStops(p);
        assert IsDirIn(t0, p) == IsDirIn(t, p);
        if IsDirIn(t, p) {
          forall q | q in ParentStops(p) ensures q in t { AncestorsPresent(t, q, p); }
          assert t0 == t;
        }
      }
    }
  }

  lemma {:induction false} EnsureParentsAtomic(t: Files, p: string, now: int)
    requires TreeInv(t) && ValidPath(p)
    ensures EnsureParents(t, p, now) ==
      if Blocked(t, ParentStops(p)) then Res(Some(NotDir), t)
      else Res(None, Added(t, ParentStops(p), NewDir(DefaultDir, now)))
  {
    DirOfRoot(p);
    if Dir(p) == "." {
      assert Added(t, ParentStops(p), NewDir(DefaultDir, now)) == t;
    } else {
      DirValid(p);
      MkdirAllAtomic(t, Dir(p), DefaultDir, now);
    }
  }

  lemma {:induction false} DirOfRoot(p: string)
    ensures p == "." ==> Dir(p) == "."
  {
    NoSlashNoDir(".");
  }

  lemma {:induction false} ParentStopsAre(p: string)
    requires ValidPath(p)
    ensures forall q :: q in ParentStops(p) <==> q != p && Within(q, p) && Dir(p) != "."
  {
    DirOfRoot(p);
    if Dir(p) != "." {
      DirValid(p);
      forall q ensures q in ParentStops(p) <==> q != p && Within(q, p) {
        AncestryIsWithin(Dir(p), q);
        if Under(q, p) { UnderDir(q, p); }
        if Within(q, Dir(p)) { DirUnder(q, p); }
      }
    }
  }

  lemma {:induction false} AddFileKeepsTree(t: Files, p: string, data: seq<byte>, m: Mode, now: int)
    requires TreeInv(t)
    ensures TreeInv(AddFileRes(t, p, data, m, now).files)
  {
    AddFileAtomic(t, p, data, m, now);
    var r := AddFileRes(t, p, data, m, now);
    if r.err.None? {
      DirOfRoot(p);
      if Dir(p) != "." {
        DirValid(p);
        MkdirAllKeepsTree(t, Dir(p), DefaultDir, now);
        MkdirAllAtomic(t, Dir(p), DefaultDir, now);
      } else {
        assert Added(t, ParentStops(p), NewDir(DefaultDir, now)) == t;
      }
      var t0 := Added(t, ParentStops(p), NewDir(DefaultDir, now));
      assert TreeInv(t0);
      FileInTree(t0, p, Entry(FileMode(m), data, now));
    }
  }

  /** Putting an entry at a path that is not a directory keeps the tree, if the parent
      is there; and only then. */
  lemma {:induction false} FileInTree(t: Files, p: string, e: Entry)
    requires TreeInv(t) && ValidPath(p) && !IsDirIn(t, p)
    ensures TreeInv(t[p := e]) <==> ParentOk(t, p)
  {
    var t' := t[p := e];
    FilesHaveNoDescendants(t, p);
    DirOfRoot(p);
    if p != "." && Dir(p) != "." { DirValid(p); }
    if ParentOk(t, p) {
      forall q | q in t' ensures ValidPath(q) && ParentOk(t', q) {
        if q != p {
          assert ParentOk(t, q);
          if q != "." && Dir(q) == p && Dir(q) != "." { DirValid(q); }
        }
      }
    } else {
      assert !ParentOk(t', p);
    }
  }

  // ----- The remaining operations -----

  lemma {:induction false} MkdirKeepsTree(t: Files, p: string, m: Mode, now: int)
    requires TreeInv(t) && ValidPath(p)
    ensures TreeInv(MkdirRes(t, p, m, now).files)
  {
    if MkdirRes(t, p, m, now).err.None? {
      FileInTree(t, p, NewDir(m, now));
    }
  }

  lemma {:induction false} RemoveTreeKeepsTree(t: Files, p: string)
    requires TreeInv(t)
    ensures TreeInv(RemoveTree(t, p))
  {
    var t' := RemoveTree(t, p);
    forall q | q in t' ensures ParentOk(t', q) {
      assert ParentOk(t, q);
      if q != "." && Dir(q) != "." && Within(p, Dir(q)) { DirUnder(p, q); }
    }
  }

  lemma {:induction false} RemoveKeepsTree(t: Files, p: string)
    requires TreeInv(t)
    ensures TreeInv(RemoveRes(t, p).files)
    ensures RemoveRes(t, p).err.None? ==> RemoveRes(t, p).files == RemoveTree(t, p)
  {
    if RemoveRes(t, p).err.None? {
      if !IsDirIn(t, p) { FilesHaveNoDescendants(t, p); }
      assert Subtree(t, p) == {p};
      RemoveTreeKeepsTree(t, p);
    }
  }

  /** WriteFile checks no parent: it keeps the tree exactly when it does not create an
      orphan. */
  lemma {:induction false} WriteFileKeepsTreeIff(
      t: Files, w: WriteMode, create: bool, p: string, data: seq<byte>, m: Mode, now: int)
    requires TreeInv(t) && ValidPath(p)
    ensures TreeInv(WriteFileRes(t, w, create, p, data, m, now).files) <==>
            w == ReadOnly || !create || p in t || ParentOk(t, p)
  {
    var t' := WriteFileRes(t, w, create, p, data, m, now).files;
    if p in t {
      forall q | q in t' ensures ValidPath(q) && ParentOk(t', q) {
        assert ParentOk(t, q);
      }
    } else {
      FileInTree(t, p, Entry(Mode(false, m.bits), data, now));
    }
  }

  /** The concrete orphan: WriteFile("a/b") into an empty filesystem. */
  lemma {:induction false} WriteFileOrphan(w: WriteMode, data: seq<byte>, m: Mode)
    requires w != ReadOnly
    ensures var t: Files := map["." := NewDir(DefaultDir, 0)];
      TreeInv(t) && WriteFileRes(t, w, true, "a/b", data, m, 1).err.None?
      && !TreeInv(WriteFileRes(t, w, true, "a/b", data, m, 1).files)
  {
    var t: Files := map["." := NewDir(DefaultDir, 0)];
    assert "a/b" == "a" + "/" + "b";
    SplitNoSlash("a");
    SplitNoSlash("b");
    RelConcat("a", "b");
    DirOfChild("a", "b");
    WriteFileKeepsTreeIff(t, w, true, "a/b", data, m, 1);
  }
}
