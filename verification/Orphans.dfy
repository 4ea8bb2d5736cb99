/** When the second pass of a listing skips a name: which maps have it, and which calls bring
    it about. */
module Orphans {
  import opened Paths
  import opened Files
  import opened Tree
  import opened Listing
  import R = Rename

  /** Every proper ancestor of a key has an entry of its own, a directory or not; a prefix that
      is no valid path is not one. */
  ghost predicate Connected(t: Files) {
    forall p, q :: p in t && Under(q, p) && IsRel(q) ==> q in t
  }

  /** No listing of the map skips a name. Only keys that are no valid paths give others. */
  ghost predicate NoSkip(t: Files) {
    forall d, n :: ValidPath(d) && ValidElem(n) && n in ChildNames(t, d) ==> n in Listed(t, d)
  }

  lemma {:induction false} ValidKeysNames(t: Files)
    requires ValidKeys(t) && NoSkip(t)
    ensures forall d :: ValidPath(d) ==> Listed(t, d) == ChildNames(t, d)
  {
    forall d | ValidPath(d) ensures Listed(t, d) == ChildNames(t, d) {
      forall n | n in ChildNames(t, d) ensures n in Listed(t, d) {
        var p :| p in t && Below(d, p) && n == FirstSeg(Relative(d, p));
        BelowValid(d, p);
        FirstSegWithin(Relative(d, p));
      }
    }
  }

  // ----- Which maps -----

  /** q is a child of its parent, and on the way to what is below it. */
  lemma {:induction false} NamedByBase(q: string, p: string)
    requires IsRel(q) && Under(q, p)
    ensures var d := Dir(q); var n := Base(q);
      ValidPath(d) && ValidElem(n) && Child(d, n) == q && Below(d, p) && FirstSeg(Relative(d, p)) == n
  {
    var d, n := Dir(q), Base(q);
    if d != "." {
      DirValid(q);
      UnderTransitive(d, q, p);
      assert p == d + "/" + p[|d| + 1..];
    } else {
      NoDirBase(q);
    }
    OnTheWayIsWithin(d, n, Relative(d, p));
    FirstSegUnique(n, Relative(d, p));
  }

  lemma {:induction false} NoDirBase(q: string)
    requires IsRel(q) && Dir(q) == "."
    ensures Base(q) == q && '/' !in q && ValidElem(q) && q != "."
  {
    if LastSlash(q) >= 0 { DirNotRoot(q); }
    RelElem(q);
    RelNonEmpty(q);
  }

  /** n is the first name on the way from d to p. */
  lemma {:induction false} NamedFirst(d: string, n: string, p: string)
    requires ValidPath(d) && ValidElem(n) && Below(d, p) && n == FirstSeg(Relative(d, p))
    ensures JoinName(d, n) == Child(d, n) && ValidPath(Child(d, n)) && (p == Child(d, n) || Under(Child(d, n), p))
  {
    ChildBelow(d, n);
    OnTheWayIsWithin(d, n, Relative(d, p));
    if d != "." { assert p == d + "/" + Relative(d, p); }
  }

  /** The skip is dead exactly when every proper ancestor of every key is there. */
  lemma {:induction false} SkipIsDeadIff(t: Files)
    ensures NoSkip(t) <==> Connected(t)
  {
    if Connected(t) {
      forall d, n | ValidPath(d) && ValidElem(n) && n in ChildNames(t, d) ensures n in Listed(t, d) {
        var p :| p in t && Below(d, p) && n == FirstSeg(Relative(d, p));
        NamedFirst(d, n, p);
      }
    }
    if NoSkip(t) {
      forall p, q | p in t && Under(q, p) && IsRel(q) ensures q in t {
        NamedByBase(q, p);
        var d, n := Dir(q), Base(q);
        assert n in ChildNames(t, d);
        assert n in Listed(t, d);
        ChildBelow(d, n);
      }
    }
  }

  /** A tree has no such name. */
  lemma {:induction false} TreeIsConnected(t: Files)
    requires TreeInv(t)
    ensures Connected(t)
  {
    forall p, q | p in t && Under(q, p) ensures q in t { AncestorsPresent(t, q, p); }
  }

  // ----- Which calls -----

  predicate ParentStored(t: Files, p: string) {
    Dir(p) == "." || Dir(p) in t
  }

  /** A file with entries below it. */
  predicate FileAbove(t: Files, p: string) {
    IsRel(p) && p in t && !t[p].mode.dir && HasDescendants(t, p)
  }

  lemma {:induction false} PutConnected(t: Files, p: string, e: Entry)
    requires Connected(t) && ValidPath(p)
    ensures Connected(t[p := e]) <==> p in t || p == "." || ParentStored(t, p)
  {
    var t' := t[p := e];
    if p in t || p == "." || ParentStored(t, p) {
      forall x, q | x in t' && Under(q, x) && IsRel(q) ensures q in t' {
        if x !in t {
          UnderRel(q, p);
          UnderDir(q, p);
        }
      }
    } else {
      DirValid(p);
      assert p in t' && Under(Dir(p), p) && Dir(p) != p;
    }
  }

  lemma {:induction false} DropTreeConnected(t: Files, p: string)
    requires Connected(t)
    ensures Connected(RemoveTree(t, p))
  {
    var t' := RemoveTree(t, p);
    forall x, q | x in t' && Under(q, x) && IsRel(q) ensures q in t' {
      if Within(p, q) && p != q { UnderTransitive(p, q, x); }
    }
  }

  lemma {:induction false} DropFile(t: Files, p: string)
    requires Connected(t) && ValidPath(p) && (p in t ==> !t[p].mode.dir)
    ensures Connected(t - {p}) <==> !FileAbove(t, p)
  {
    if FileAbove(t, p) {
      var x :| x in t && Under(p, x);
      assert x in t - {p};
    }
  }

  /** Remove of a file looks for no entries below it, so that it can leave them orphaned. */
  lemma {:induction false} RemoveConnectedIff(t: Files, p: string)
    requires Connected(t) && ValidPath(p)
    ensures Connected(RemoveRes(t, p).files) <==> !FileAbove(t, p)
  {
    if p in t && !t[p].mode.dir { DropFile(t, p); }
  }

  lemma {:induction false} MkdirAllConnected(t: Files, p: string, i: nat, e: Entry)
    requires Connected(t) && i <= |p| && p != "" && p[0] != '/'
    ensures var r := MkdirAllTo(t, p, i, e);
      Connected(r.files) && (r.err.None? ==> forall j :: 1 <= j <= i && AtStop(p, j) ==> p[..j] in r.files)
  {
    if i != 0 {
      MkdirAllConnected(t, p, i - 1, e);
      var r := MkdirAllTo(t, p, i - 1, e);
      if r.err.None? && AtStop(p, i) {
        var t' := r.files[p[..i] := e];
        forall x, q | x in t' && Under(q, x) && IsRel(q) ensures q in t' {
          if x == p[..i] {
            assert q == p[..|q|] && AtStop(p, |q|);
          }
        }
      }
    }
  }

  lemma {:induction false} StartsWithElem(p: string)
    requires ValidPath(p)
    ensures p != "" && p[0] != '/'
  {
    if p != "." { RelNonEmpty(p); }
  }

  lemma {:induction false} AddFileConnected(t: Files, p: string, data: seq<byte>, m: Mode, now: int)
    requires Connected(t)
    ensures Connected(AddFileRes(t, p, data, m, now).files)
  {
    if ValidPath(p) {
      var r := EnsureParents(t, p, now);
      var d := Dir(p);
      if d != "." {
        NotRoot(p);
        DirValid(p);
        StartsWithElem(d);
        MkdirAllConnected(t, d, |d|, NewDir(DefaultDir, now));
        assert AtStop(d, |d|) && d[..|d|] == d;
      }
      if r.err.None? { PutConnected(r.files, p, Entry(FileMode(m), data, now)); }
    }
  }

  lemma {:induction false} NotRoot(p: string)
    requires ValidPath(p) && Dir(p) != "."
    ensures IsRel(p)
  {
    DirOfRoot(p);
  }

  /** What Rename comes to does not depend on an order, and nothing goes along with the root. */
  ghost predicate Definite(t: Files, from: string, to: string)
    requires from in t
  {
    (t[from].mode.dir ==> R.Settled(t.Keys + {to}, from, to)) && (from == "." ==> Carried(t, from) == {from})
  }

  /** Rename checks neither the new parent nor that a file has no entries below it, nor that
      it does not come to lie below its own old name. */
  lemma {:induction false} RenameConnectedIff(t: Files, from: string, to: string, now: int, r: Files)
    requires Connected(t) && R.IsRename(t, from, to, now, r) && from != to
    requires ValidPath(from) && ValidPath(to) && Definite(t, from, to)
    ensures Connected(r - {from}) <==> ParentStored(t, to) && !FileAbove(t, from) && !Under(from, to)
  {
    var r' := r - {from};
    R.TargetOf(t, from, to, from);
    if ParentStored(t, to) && !FileAbove(t, from) && !Under(from, to) {
      forall x, q | x in r' && Under(q, x) && IsRel(q) ensures q in r' { RenamedAncestor(t, from, to, now, r, x, q); }
    }
    if Connected(r') {
      assert to in r';
      if Under(from, to) { UnderRel(from, to); }
      if Dir(to) != "." {
        NotRoot(to);
        DirValid(to);
        assert Dir(to) in r' && !R.IsTarget(t, from, to, Dir(to));
      }
      if FileAbove(t, from) { OrphansStay(t, from, to, now, r); }
    }
  }

  lemma {:induction false} OrphansStay(t: Files, from: string, to: string, now: int, r: Files)
    requires R.IsRename(t, from, to, now, r) && FileAbove(t, from)
    ensures !Connected(r - {from})
  {
    var x :| x in t && Under(from, x);
    assert x in r - {from};
  }

  /** What lies above the destination is still there. */
  lemma {:induction false} AboveTarget(t: Files, from: string, to: string, now: int, r: Files, q: string)
    requires Connected(t) && R.IsRename(t, from, to, now, r)
    requires ValidPath(to) && !Under(from, to) && ParentStored(t, to) && Under(q, to)
    ensures q in r && q != from
  {
    UnderRel(q, to);
    UnderDir(q, to);
    assert q in t;
    if Within(from, q) && from != q { UnderTransitive(from, q, to); }
  }

  lemma {:induction false} RenamedAncestor(t: Files, from: string, to: string, now: int, r: Files, x: string, q: string)
    requires Connected(t) && R.IsRename(t, from, to, now, r) && from != to && Definite(t, from, to)
    requires ValidPath(from) && ValidPath(to) && !Under(from, to) && ParentStored(t, to) && !FileAbove(t, from)
    requires x in r && x != from && Under(q, x) && IsRel(q)
    ensures q in r && q != from
  {
    if R.IsTarget(t, from, to, x) {
      if Under(q, to) {
        AboveTarget(t, from, to, now, r, q);
      } else {
        WithinTarget(to, q, x);
        AlongTarget(t, from, to, now, r, x, q);
      }
    } else {
      assert q in t;
      if Within(from, q) && from != q { UnderTransitive(from, q, x); }
    }
  }

  lemma {:induction false} WithinTarget(to: string, q: string, x: string)
    requires Within(to, x) && Under(q, x) && !Under(q, to)
    ensures Within(to, q)
  {
    WithinComparable(to, q, x);
  }

  /** The old name of a valid path is one, unless the root is renamed. */
  lemma {:induction false} OldNameValid(from: string, to: string, q: string)
    requires ValidPath(from) && from != "." && ValidPath(to) && IsRel(q) && Within(to, q)
    ensures IsRel(Rebase(to, from, q))
  {
    if q == to {
      assert Rebase(to, from, q) == from;
    } else {
      UnderRel(to, q);
      var rest := q[|to| + 1..];
      assert q[|to|..] == "/" + rest;
      RelConcat(from, rest);
      assert from + ("/" + rest) == from + "/" + rest;
    }
  }

  lemma {:induction false} AlongTarget(t: Files, from: string, to: string, now: int, r: Files, x: string, q: string)
    requires Connected(t) && R.IsRename(t, from, to, now, r) && R.IsTarget(t, from, to, x) && from != to
    requires ValidPath(from) && ValidPath(to) && Definite(t, from, to) && !FileAbove(t, from)
    requires Within(to, q) && Under(q, x) && IsRel(q)
    ensures q in r && q != from
  {
    var p, a := Rebase(to, from, x), Rebase(to, from, q);
    RebaseUnder(to, from, q, x);
    RebaseInverse(to, from, q);
    RebaseInverse(to, from, x);
    NotItself(from, a, p);
    if from == "." {
      assert false;
    } else {
      OldNameValid(from, to, q);
      assert t[from].mode.dir && a in t;
    }
  }

  lemma {:induction false} NotItself(from: string, a: string, p: string)
    requires Within(from, a) && Under(a, p)
    ensures Under(from, p)
  {
    if a != from { UnderTransitive(from, a, p); }
  }
}
