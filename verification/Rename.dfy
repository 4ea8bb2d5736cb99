/** What Rename does to the map: the one-shot prefix rewrite, what it conserves, how it
    is undone, and when it keeps the tree. */
module Rename {
  import opened Common
  import opened Paths
  import opened Files
  import opened Tree

  /** q is the new name of an entry that the rename carries along. */
  predicate IsTarget(t: Files, from: string, to: string, q: string)
    requires from in t
  {
    Within(to, q) && Rebase(to, from, q) in Carried(t, from)
  }

  /** A rename, key by key: the carried entries are found under their new names, and
      everything neither carried nor overwritten stays. */
  ghost predicate IsRename(t: Files, from: string, to: string, now: int, r: Files) {
    && from in t
    && (forall q :: q in r <==> IsTarget(t, from, to, q) || (q in t && q !in Carried(t, from)))
    && (forall q :: q in r ==>
          r[q] == if IsTarget(t, from, to, q) then Moved(t, from, Rebase(to, from, q), now) else t[q])
  }

  lemma {:induction false} RenameIsRename(t: Files, from: string, to: string, now: int)
    requires from in t
    ensures IsRename(t, from, to, now, RenameFiles(t, from, to, now))
  {
    RebaseInjective(from, to, Carried(t, from));
    forall p | p in Carried(t, from)
      ensures Within(to, Rebase(from, to, p)) && Rebase(to, from, Rebase(from, to, p)) == p
    {
      RebaseInverse(from, to, p);
    }
    forall q | IsTarget(t, from, to, q)
      ensures Rebase(from, to, Rebase(to, from, q)) == q
    {
      RebaseInverse(to, from, q);
    }
  }

  lemma {:induction false} RenameUnique(t: Files, from: string, to: string, now: int, r: Files)
    requires IsRename(t, from, to, now, r)
    ensures r == RenameFiles(t, from, to, now)
  {
    RenameIsRename(t, from, to, now);
  }

  lemma {:induction false} TargetOf(t: Files, from: string, to: string, p: string)
    requires from in t && p in Carried(t, from)
    ensures IsTarget(t, from, to, Rebase(from, to, p))
    ensures Rebase(to, from, Rebase(from, to, p)) == p
  {
    RebaseInverse(from, to, p);
  }

  lemma {:induction false} CarriedIsSubtree(t: Files, from: string, q: string)
    requires from in t && (t[from].mode.dir || !HasDescendants(t, from))
    ensures q in Carried(t, from) <==> q in t && Within(from, q)
  {
  }

  // ----- Conservation and undoing -----

  predicate Vacant(t: Files, p: string) {
    p !in t && !HasDescendants(t, p)
  }

  lemma {:induction false} RebaseImageSize(from: string, to: string, s: set<string>)
    requires forall p :: p in s ==> Within(from, p)
    ensures |set p | p in s :: Rebase(from, to, p)| == |s|
  {
    var image := set p | p in s :: Rebase(from, to, p);
    if s != {} {
      var x :| x in s;
      var rest := set p | p in s - {x} :: Rebase(from, to, p);
      RebaseImageSize(from, to, s - {x});
      RebaseInjective(from, to, s);
      assert image == rest + {Rebase(from, to, x)};
    }
  }

  lemma {:induction false} RenamedKeySet(t: Files, from: string, to: string, now: int, r: Files)
    requires IsRename(t, from, to, now, r)
    ensures r.Keys == (t.Keys - Carried(t, from)) + set p | p in Carried(t, from) :: Rebase(from, to, p)
  {
    var image := set p | p in Carried(t, from) :: Rebase(from, to, p);
    forall q ensures q in image <==> IsTarget(t, from, to, q) {
      if IsTarget(t, from, to, q) { RebaseInverse(to, from, q); }
      if q in image {
        var p :| p in Carried(t, from) && q == Rebase(from, to, p);
        TargetOf(t, from, to, p);
      }
    }
  }

  /** Onto a vacant place nothing is lost: as many entries as before, and each carried one
      with the same content and mode. */
  lemma {:induction false} RenameConserves(t: Files, from: string, to: string, now: int, r: Files)
    requires IsRename(t, from, to, now, r) && Vacant(t, to)
    ensures |r| == |t|
    ensures forall p :: p in Carried(t, from) ==>
      var q := Rebase(from, to, p); q in r && r[q].data == t[p].data && r[q].mode == t[p].mode
  {
    forall p | p in Carried(t, from)
      ensures var q := Rebase(from, to, p); q in r && r[q].data == t[p].data && r[q].mode == t[p].mode
    {
      TargetOf(t, from, to, p);
    }
    RenameCounts(t, from, to, now, r);
  }

  lemma {:induction false} RenameCounts(t: Files, from: string, to: string, now: int, r: Files)
    requires IsRename(t, from, to, now, r) && Vacant(t, to)
    ensures |r| == |t|
  {
    RenamedKeySet(t, from, to, now, r);
    var c := Carried(t, from);
    var image := set p | p in c :: Rebase(from, to, p);
    RebaseImageSize(from, to, c);
    forall q | q in image ensures q !in t {
      var p :| p in c && q == Rebase(from, to, p);
      RebaseInverse(from, to, p);
    }
    CountMoved(t.Keys, c, image, r.Keys);
  }

  lemma {:induction false} CountMoved(a: set<string>, c: set<string>, image: set<string>, b: set<string>)
    requires c <= a && image !! a && |image| == |c| && b == (a - c) + image
    ensures |b| == |a|
  {
    assert a == (a - c) + c;
  }

  /** After a rename onto a vacant place, exactly the moved entries are carried back. */
  lemma {:induction false} CarriedBack(t: Files, from: string, to: string, now: int, r: Files)
    requires IsRename(t, from, to, now, r) && Vacant(t, to)
    requires t[from].mode.dir || !HasDescendants(t, from)
    ensures to in r && r[to] == t[from].(mtime := now)
    ensures forall q :: q in Carried(r, to) <==> IsTarget(t, from, to, q)
  {
    TargetOf(t, from, to, from);
    forall q ensures q in Carried(r, to) <==> IsTarget(t, from, to, q) {
      if q in t { assert !Within(to, q); }
      if IsTarget(t, from, to, q) { RebaseInverse(to, from, q); }
    }
  }

  /** Renaming back restores the map, apart from the modification time at the top. */
  lemma {:induction false} RenameUndoes(t: Files, from: string, to: string, now: int, later: int, r: Files, b: Files)
    requires IsRename(t, from, to, now, r) && Vacant(t, to) && Incomparable(from, to)
    requires t[from].mode.dir || !HasDescendants(t, from)
    requires IsRename(r, to, from, later, b)
    ensures b == t[from := t[from].(mtime := later)]
  {
    forall q ensures (q in b <==> q in t) && (q in t ==> b[q] == t[from := t[from].(mtime := later)][q]) {
      UndoAt(t, from, to, now, later, r, b, q);
    }
  }

  lemma {:induction false} UndoAt(
      t: Files, from: string, to: string, now: int, later: int, r: Files, b: Files, q: string)
    requires IsRename(t, from, to, now, r) && Vacant(t, to) && Incomparable(from, to)
    requires t[from].mode.dir || !HasDescendants(t, from)
    requires IsRename(r, to, from, later, b)
    ensures q in b <==> q in t
    ensures q in t ==> b[q] == t[from := t[from].(mtime := later)][q]
  {
    CarriedBack(t, from, to, now, r);
    CarriedIsSubtree(t, from, q);
    if Within(from, q) {
      var q' := Rebase(from, to, q);
      RebaseInverse(from, to, q);
      assert q' == to <==> q == from;
      assert IsTarget(r, to, from, q) <==> q in t;
      if q !in t && q in r { WithinComparable(from, to, q); }
    } else {
      assert !IsTarget(r, to, from, q);
      assert IsTarget(t, from, to, q) ==> q in Carried(r, to);
    }
  }

  // ----- When the tree survives -----

  /** Some file would come to lie where the destination already has entries below. */
  predicate FileLandsOnDirectory(t: Files, from: string, to: string)
    requires from in t
  {
    exists f, q :: f in Carried(t, from) && !t[f].mode.dir && q in t && Under(Rebase(from, to, f), q)
  }

  lemma {:induction false} RebaseInside(from: string, to: string, x: string)
    ensures Within(from, Inside(from, x)) && Rebase(from, to, Inside(from, x)) == Inside(to, x)
  {
    if x != "." {
      assert (from + "/" + x)[|from|..] == "/" + x;
      assert to + ("/" + x) == to + "/" + x;
    }
  }

  lemma {:induction false} DirRebase(from: string, to: string, p: string)
    requires IsRel(from) && IsRel(to) && Under(from, p) && IsRel(p)
    ensures Within(from, Dir(p)) && Dir(Rebase(from, to, p)) == Rebase(from, to, Dir(p))
    ensures IsRel(Rebase(from, to, p))
  {
    UnderRel(from, p);
    UnderDir(from, p);
    var x := p[|from| + 1..];
    RebaseInside(from, to, x);
    DirInside(from, x);
    DirInside(to, x);
    RelConcat(to, x);
    RelNonEmpty(x);
    RebaseInside(from, to, Dir(x));
  }

  /** The parent of the destination is not touched by the rename. */
  lemma {:induction false} DestinationParent(t: Files, from: string, to: string, now: int, r: Files)
    requires IsRename(t, from, to, now, r) && IsRel(to) && Incomparable(from, to) && Dir(to) != "."
    ensures Dir(to) in r <==> Dir(to) in t
    ensures Dir(to) in t ==> r[Dir(to)] == t[Dir(to)]
  {
    DirValid(to);
    if Within(from, Dir(to)) { DirUnder(from, to); }
  }

  /** Rename checks neither the new parent nor what lies at the destination. In a tree it
      leaves a tree exactly when the new parent is there and no file lands on entries. */
  lemma {:induction false} RenameKeepsTreeIff(t: Files, from: string, to: string, now: int, r: Files)
    requires TreeInv(t) && IsRename(t, from, to, now, r)
    requires from != "." && IsRel(to) && Incomparable(from, to)
    ensures TreeInv(r) <==> ParentOk(t, to) && !FileLandsOnDirectory(t, from, to)
  {
    RelNonEmpty(to);
    TargetOf(t, from, to, from);
    if TreeInv(r) {
      assert ParentOk(r, to);
      if Dir(to) != "." { DestinationParent(t, from, to, now, r); }
      if FileLandsOnDirectory(t, from, to) { FileLandsBreaks(t, from, to, now, r); }
    }
    if ParentOk(t, to) && !FileLandsOnDirectory(t, from, to) {
      forall q | q in r ensures ValidPath(q) && ParentOk(r, q) {
        if IsTarget(t, from, to, q) {
          MovedParent(t, from, to, now, r, Rebase(to, from, q));
          RebaseInverse(to, from, q);
        } else {
          StayingParent(t, from, to, now, r, q);
        }
      }
    }
  }

  lemma {:induction false} FileLandsBreaks(t: Files, from: string, to: string, now: int, r: Files)
    requires TreeInv(t) && IsRename(t, from, to, now, r) && Incomparable(from, to)
    requires FileLandsOnDirectory(t, from, to)
    ensures !TreeInv(r)
  {
    var f, q :| f in Carried(t, from) && !t[f].mode.dir && q in t && Under(Rebase(from, to, f), q);
    TargetOf(t, from, to, f);
    var f' := Rebase(from, to, f);
    if f != from { UnderTransitive(to, f', q); }
    NotCarried(t, from, to, q);
    if TreeInv(r) { AncestorsPresent(r, f', q); }
  }

  lemma {:induction false} NotCarried(t: Files, from: string, to: string, q: string)
    requires from in t && Incomparable(from, to) && Within(to, q)
    ensures q !in Carried(t, from)
  {
    if Within(from, q) { WithinComparable(from, to, q); }
  }

  lemma {:induction false} MovedParent(t: Files, from: string, to: string, now: int, r: Files, p: string)
    requires TreeInv(t) && IsRename(t, from, to, now, r)
    requires from != "." && IsRel(to) && Incomparable(from, to)
    requires ParentOk(t, to) && p in Carried(t, from)
    ensures ValidPath(Rebase(from, to, p)) && ParentOk(r, Rebase(from, to, p))
  {
    if p == from {
      assert Rebase(from, to, p) == to;
      if Dir(to) != "." { DestinationParent(t, from, to, now, r); }
    } else {
      UnderRel(from, p);
      DirRebase(from, to, p);
      assert ParentOk(t, p);
      assert Dir(p) in Carried(t, from);
      TargetOf(t, from, to, Dir(p));
    }
  }

  lemma {:induction false} StayingParent(t: Files, from: string, to: string, now: int, r: Files, q: string)
    requires TreeInv(t) && IsRename(t, from, to, now, r)
    requires IsRel(to) && Incomparable(from, to) && !FileLandsOnDirectory(t, from, to)
    requires q in t && q !in Carried(t, from)
    ensures ParentOk(r, q)
  {
    assert ParentOk(t, q);
    if q != "." && Dir(q) != "." {
      var d := Dir(q);
      DirValid(q);
      if !t[from].mode.dir { FilesHaveNoDescendants(t, from); }
      CarriedIsSubtree(t, from, q);
      CarriedIsSubtree(t, from, d);
      if Within(from, d) { DirUnder(from, q); }
      if IsTarget(t, from, to, d) {
        RebaseInverse(to, from, d);
        assert Under(Rebase(from, to, Rebase(to, from, d)), q);
      }
    }
  }

  /** Renaming a path to itself, which the documentation calls overwriting, erases it. */
  lemma {:induction false} RenameToItselfErases(t: Files, p: string, now: int)
    requires TreeInv(t) && p in t
    ensures RenameRes(t, p, p, now) == Res(None, RemoveTree(t, p))
  {
    if !t[p].mode.dir {
      FilesHaveNoDescendants(t, p);
      assert Subtree(t, p) == {p};
    }
  }

  // ----- What overwriting comes to -----

  /** The destination holds what was moved there and nothing else. */
  ghost predicate Overwritten(t: Files, from: string, to: string, r: Files)
    requires from in t
  {
    forall q :: Within(to, q) ==> (q in r <==> IsTarget(t, from, to, q))
  }

  /** An existing destination is overwritten, as the documentation says, exactly when it is not
      the source itself and everything at or below it is replaced or carried along; otherwise
      the two merge. */
  lemma {:induction false} OverwritesIff(t: Files, from: string, to: string, now: int)
    requires from in t
    ensures Overwritten(t, from, to, RenameRes(t, from, to, now).files) <==>
      from != to && forall q :: q in t && Within(to, q) ==> IsTarget(t, from, to, q) || q in Carried(t, from)
  {
    TargetOf(t, from, to, from);
    if from == to {
      assert to !in RenameRes(t, from, to, now).files;
    } else {
      RenameIsRename(t, from, to, now);
    }
  }

  /** A directory renamed onto another, in a sound tree: what was below that one stays. */
  lemma {:induction false} RenameMerges(dir: Entry, file: Entry, now: int)
    requires dir.mode.dir && !file.mode.dir
    ensures var t: Files := map["a" := dir, "b" := dir, "b/x" := file];
      TreeInv(t) && !Overwritten(t, "a", "b", RenameRes(t, "a", "b", now).files)
  {
    var t: Files := map["a" := dir, "b" := dir, "b/x" := file];
    assert "b/x" == "b" + "/" + "x";
    SmallTree(t, "a", "b", "x");
    OnlyItself(t, "a", "b/x");
    OverwritesIff(t, "a", "b", now);
  }

  lemma {:induction false} SmallTree(t: Files, a: string, b: string, x: string)
    requires ValidElem(a) && ValidElem(b) && ValidElem(x)
    requires t.Keys == {a, b, b + "/" + x} && t[b].mode.dir
    ensures TreeInv(t)
  {
    SplitNoSlash(a);
    SplitNoSlash(b);
    SplitNoSlash(x);
    RelConcat(b, x);
    DirOfChild(b, x);
    NoSlashNoDir(a);
    NoSlashNoDir(b);
  }

  lemma {:induction false} OnlyItself(t: Files, from: string, q: string)
    requires t.Keys == {from, "b", q} && q == "b/x" && from == "a"
    ensures Within("b", q) && !IsTarget(t, from, "b", q) && q !in Carried(t, from)
  {
    assert q[|"b"|..] == "/x";
    assert Rebase("b", from, q) == "a/x";
    assert |"a/x"| == 3 && "a/x"[0] != q[0];
  }

  // ----- The loop of Rename -----

  /** The map after the loop has moved the entries of done, in whatever order; a path
      renamed to itself is written back and then deleted. */
  function Partly(base: Files, from: string, to: string, done: set<string>): Files
    requires done <= base.Keys && forall p :: p in done ==> Under(from, p)
  {
    RebaseInjective(from, to, done);
    (base + map p | p in done :: Rebase(from, to, p) := base[p]) - done
  }

  /** Nothing moves back to below the source: what a directory needs so that its rename
      does not depend on the order of the loop. */
  ghost predicate Settled(keys: set<string>, from: string, to: string) {
    from == to || forall p :: p in keys && Under(from, p) ==> !Under(from, Rebase(from, to, p))
  }

  /** Nothing takes the name of the source either: what it needs to be the one-shot rewrite. */
  ghost predicate Renamable(keys: set<string>, from: string, to: string) {
    from == to || forall p :: p in keys && Under(from, p) ==> !Within(from, Rebase(from, to, p))
  }

  lemma {:induction false} IncomparableRenamable(keys: set<string>, from: string, to: string)
    requires Incomparable(from, to)
    ensures Renamable(keys, from, to)
  {
    forall p | p in keys && Under(from, p) ensures !Within(from, Rebase(from, to, p)) {
      RebaseInverse(from, to, p);
      if Within(from, Rebase(from, to, p)) { WithinComparable(from, to, Rebase(from, to, p)); }
    }
  }

  /** What is in the map half-way. */
  lemma {:induction false} PartlyAt(base: Files, from: string, to: string, done: set<string>, q: string)
    requires done <= base.Keys && forall p :: p in done ==> Under(from, p)
    requires Settled(base.Keys, from, to)
    ensures var r := Partly(base, from, to, done);
      var landed := from != to && Within(to, q) && Rebase(to, from, q) in done;
      && (landed ==> !Under(from, q))
      && (q in r <==> landed || (q in base && q !in done))
      && (q in r ==> r[q] == if landed then base[Rebase(to, from, q)] else base[q])
  {
    RebaseInjective(from, to, done);
    if Within(to, q) { RebaseInverse(to, from, q); }
    forall p | p in done && Rebase(from, to, p) == q ensures Within(to, q) && Rebase(to, from, q) == p {
      RebaseInverse(from, to, p);
    }
  }

  /** One round of the loop: q is written under its new name and then deleted. */
  lemma {:induction false} PartlyStep(base: Files, from: string, to: string, done: set<string>, q: string)
    requires done <= base.Keys && forall p :: p in done ==> Under(from, p)
    requires Settled(base.Keys, from, to) && q in base && q !in done && Under(from, q)
    ensures var r := Partly(base, from, to, done);
      q in r && r[q] == base[q] && r[Rebase(from, to, q) := base[q]] - {q} == Partly(base, from, to, done + {q})
  {
    var r, r' := Partly(base, from, to, done), Partly(base, from, to, done + {q});
    PartlyAt(base, from, to, done, q);
    RebaseInverse(from, to, q);
    var s := r[Rebase(from, to, q) := base[q]] - {q};
    forall x ensures (x in s <==> x in r') && (x in s ==> s[x] == r'[x]) {
      PartlyStepAt(base, from, to, done, q, x);
    }
  }

  lemma {:induction false} PartlyStepAt(base: Files, from: string, to: string, done: set<string>, q: string, x: string)
    requires done <= base.Keys && forall p :: p in done ==> Under(from, p)
    requires Settled(base.Keys, from, to) && q in base && q !in done && Under(from, q)
    ensures var s := Partly(base, from, to, done)[Rebase(from, to, q) := base[q]] - {q};
      var r' := Partly(base, from, to, done + {q});
      (x in s <==> x in r') && (x in s ==> s[x] == r'[x])
  {
    PartlyAt(base, from, to, done, x);
    PartlyAt(base, from, to, done + {q}, x);
    RebaseInverse(from, to, q);
    if Within(to, x) { RebaseInverse(to, from, x); }
  }

  lemma {:induction false} PartlyNothing(base: Files, from: string, to: string)
    ensures Partly(base, from, to, {}) == base
  {
  }

  /** What the loop inserts is not below the source again, unless nothing moves. */
  lemma {:induction false} MovedOut(keys: set<string>, from: string, to: string, q: string)
    requires Settled(keys, from, to) && q in keys && Under(from, q)
    ensures if from == to then Rebase(from, to, q) == q else !Under(from, Rebase(from, to, q))
  {
    RebaseInverse(from, to, q);
  }

  lemma {:induction false} StillBelow(from: string, to: string)
    requires Under(from, to)
    ensures Under(from, Rebase(from, to, to))
  {
    assert to <= Rebase(from, to, to);
  }

  lemma {:induction false} TargetOutside(keys: set<string>, from: string, to: string)
    requires Settled(keys, from, to) && to in keys
    ensures !Under(from, to)
  {
    if Under(from, to) { StillBelow(from, to); }
  }

  lemma {:induction false} FileMoved(t: Files, from: string, to: string, now: int)
    requires from in t && !t[from].mode.dir
    ensures t[to := Moved(t, from, from, now)] - {from} == RenameRes(t, from, to, now).files
  {
    if from != to {
      RebaseInjective(from, to, {from});
      assert Rebase(from, to, from) == to;
    }
  }

  /** Once all entries below the source have been moved, deleting the source leaves the
      one-shot rewrite, less an entry that has taken the name of the source. */
  lemma {:induction false} PartlyDone(t: Files, from: string, to: string, now: int, done: set<string>)
    requires from in t && t[from].mode.dir && Settled(t.Keys + {to}, from, to)
    requires forall q :: q in done <==> q in t && Under(from, q)
    ensures done <= t[to := Moved(t, from, from, now)].Keys
    ensures Partly(t[to := Moved(t, from, from, now)], from, to, done) - {from} ==
      RenameRes(t, from, to, now).files - {from}
  {
    if from == to {
      PartlyDoneInPlace(t, from, now, done);
    } else {
      RenameIsRename(t, from, to, now);
      forall x | x != from { PartlyDoneAt(t, from, to, now, done, x); }
      SameBut(Partly(t[to := Moved(t, from, from, now)], from, to, done), RenameRes(t, from, to, now).files, from);
    }
  }

  lemma {:induction false} SameBut(a: Files, b: Files, k: string)
    requires forall x :: x != k ==> (x in a <==> x in b) && (x in a ==> a[x] == b[x])
    ensures a - {k} == b - {k}
  {
  }

  lemma {:induction false} PartlyDoneInPlace(t: Files, from: string, now: int, done: set<string>)
    requires from in t && t[from].mode.dir && forall q :: q in done <==> q in t && Under(from, q)
    ensures done <= t[from := Moved(t, from, from, now)].Keys
    ensures Partly(t[from := Moved(t, from, from, now)], from, from, done) - {from} == t - Carried(t, from) - {from}
  {
    var base := t[from := Moved(t, from, from, now)];
    assert base.Keys == t.Keys;
    assert Carried(t, from) == done + {from};
    forall x | x != from { PartlyAt(base, from, from, done, x); }
    SameBut(Partly(base, from, from, done), t - Carried(t, from), from);
  }

  lemma {:induction false} PartlyDoneAt(t: Files, from: string, to: string, now: int, done: set<string>, x: string)
    requires from in t && t[from].mode.dir && Settled(t.Keys + {to}, from, to) && from != to && x != from
    requires forall q :: q in done <==> q in t && Under(from, q)
    requires done <= t[to := Moved(t, from, from, now)].Keys
    ensures var r := Partly(t[to := Moved(t, from, from, now)], from, to, done);
      (x in r <==> IsTarget(t, from, to, x) || (x in t && x !in Carried(t, from)))
      && (x in r ==> r[x] == if IsTarget(t, from, to, x) then Moved(t, from, Rebase(to, from, x), now) else t[x])
  {
    var base := t[to := Moved(t, from, from, now)];
    assert base.Keys == t.Keys + {to};
    PartlyAt(base, from, to, done, x);
    TargetOutside(base.Keys, from, to);
    if Within(to, x) { RebaseInverse(to, from, x); }
    RebaseInverse(from, to, from);
  }

  function Below(s: set<string>, from: string): set<string> {
    set q | q in s && Under(from, q)
  }

  /** Passing a key that is not below the source: pending are the keys still to come, extra
      the inserted ones that may still be visited. */
  lemma {:induction false} UnderwayPass(
      base: Files, from: string, to: string, pending: set<string>, extra: set<string>, q: string)
    requires pending <= base.Keys && !Under(from, q) && Below(extra, from) == {}
    ensures Underway(base, from, to, pending - {q}) == Underway(base, from, to, pending)
    ensures Below(extra - {q}, from) == {}
    ensures (pending - {q}) + (extra - {q}) <= pending + extra
  {
    assert Below(extra - {q}, from) <= Below(extra, from);
    assert Below(base.Keys - (pending - {q}), from) == Below(base.Keys - pending, from);
  }

  /** Moving one that is. */
  lemma {:induction false} UnderwayMove(
      keys: set<string>, from: string, to: string, pending: set<string>, extra: set<string>, q: string,
      created: set<string>)
    requires Below(extra, from) == {} && Settled(keys, from, to) && pending <= keys
    requires q in pending + extra && Under(from, q)
    requires created <= {Rebase(from, to, q)} && (from == to ==> created == {})
    ensures q in pending && q !in created && Below(extra - {q} + created, from) == {}
  {
    assert q in extra ==> q in Below(extra, from);
    MovedOut(keys, from, to, q);
    assert Below(extra - {q} + created, from) <= Below(extra, from);
  }

  lemma {:induction false} BelowWithin(s: set<string>, from: string)
    ensures Below(s, from) <= s && forall p :: p in Below(s, from) ==> Under(from, p)
  {
  }

  /** The map while pending are still to come. */
  function Underway(base: Files, from: string, to: string, pending: set<string>): Files {
    BelowWithin(base.Keys - pending, from);
    Partly(base, from, to, Below(base.Keys - pending, from))
  }

  lemma {:induction false} UnderwayEnds(base: Files, from: string, to: string)
    ensures Underway(base, from, to, base.Keys) == base && Below({}, from) == {}
    ensures Underway(base, from, to, {}) == Partly(base, from, to, Below(base.Keys, from))
  {
    assert Below(base.Keys - base.Keys, from) == {};
    assert base.Keys - {} == base.Keys;
    PartlyNothing(base, from, to);
  }

  lemma {:induction false} NewName(from: string, to: string, q: string)
    requires Under(from, q)
    ensures to + "/" + q[|from| + 1..] == Rebase(from, to, q)
  {
    assert q[|from|..] == "/" + q[|from| + 1..];
    assert to + "/" + q[|from| + 1..] == to + ("/" + q[|from| + 1..]);
  }

  lemma {:induction false} UnderwayStep(base: Files, from: string, to: string, pending: set<string>, q: string)
    requires pending <= base.Keys && Settled(base.Keys, from, to) && q in pending && Under(from, q)
    ensures var r := Underway(base, from, to, pending);
      q in r && r[Rebase(from, to, q) := r[q]] - {q} == Underway(base, from, to, pending - {q})
  {
    BelowWithin(base.Keys - pending, from);
    assert Below(base.Keys - (pending - {q}), from) == Below(base.Keys - pending, from) + {q};
    PartlyStep(base, from, to, Below(base.Keys - pending, from), q);
  }

  /** When none is left, deleting the source completes the one-shot rewrite, less an entry
      that has taken the name of the source. */
  lemma {:induction false} UnderwayDone(t: Files, from: string, to: string, now: int)
    requires from in t && t[from].mode.dir && Settled(t.Keys + {to}, from, to)
    ensures Underway(t[to := Moved(t, from, from, now)], from, to, {}) - {from} ==
      RenameRes(t, from, to, now).files - {from}
  {
    var base := t[to := Moved(t, from, from, now)];
    UnderwayEnds(base, from, to);
    assert !Under(from, to) by { if from != to { TargetOutside(t.Keys + {to}, from, to); } }
    PartlyDone(t, from, to, now, Below(base.Keys, from));
  }

  lemma {:induction false} MinusAbsentKey(t: Files, k: string)
    requires k !in t
    ensures t - {k} == t
  {
  }

  /** An entry takes the name of the source exactly when one below it is moved there. */
  lemma {:induction false} SourceGoes(t: Files, from: string, to: string, now: int)
    requires from in t && (t[from].mode.dir ==> Renamable(t.Keys + {to}, from, to))
    ensures from !in RenameRes(t, from, to, now).files
    ensures RenameRes(t, from, to, now).files - {from} == RenameRes(t, from, to, now).files
  {
    if from != to {
      RenameIsRename(t, from, to, now);
      if IsTarget(t, from, to, from) {
        RebaseInverse(to, from, from);
      }
    }
    MinusAbsentKey(RenameRes(t, from, to, now).files, from);
  }
}
