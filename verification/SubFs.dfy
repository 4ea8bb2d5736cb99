/** Sub-filesystems: a sub-filesystem rooted at d does at x what its parent does at d/x. */
module SubFs {
  import opened Common
  import opened Paths
  import opened Files
  import opened Tree
  import opened Listing
  import Order
  import opened SubInjector
  import Stats
  import opened FsMachine

  // ----- Sub -----

  function Strip(d: string, p: string): string
    requires Under(d, p)
  {
    p[|d| + 1..]
  }

  lemma {:induction false} StripInverse(d: string)
    ensures forall p :: Under(d, p) ==> p == d + "/" + Strip(d, p)
    ensures forall x :: Under(d, d + "/" + x) && Strip(d, d + "/" + x) == x
  {
    forall x ensures Under(d, d + "/" + x) && Strip(d, d + "/" + x) == x {
      assert (d + "/" + x)[|d| + 1..] == x;
    }
  }

  function SubKeys(t: Files, d: string): (r: set<string>)
    ensures forall x :: x in r <==> d + "/" + x in t
  {
    StripInverse(d);
    set p | p in t && Under(d, p) :: Strip(d, p)
  }

  function SubFiles(t: Files, d: string): Files
    requires IsDirIn(t, d)
  {
    map["." := Entry(Mode(true, t[d].mode.bits), [], t[d].mtime)] + map x | x in SubKeys(t, d) :: t[d + "/" + x]
  }

  /** The copy while the keys in pending are still to be looked at. */
  function SubPart(t: Files, d: string, pending: set<string>): Files
    requires IsDirIn(t, d)
  {
    map["." := Entry(Mode(true, t[d].mode.bits), [], t[d].mtime)]
      + map x | x in SubKeys(t, d) && d + "/" + x !in pending :: t[d + "/" + x]
  }

  lemma {:induction false} SubPartEnds(t: Files, d: string)
    requires IsDirIn(t, d)
    ensures SubPart(t, d, {}) == SubFiles(t, d)
    ensures SubPart(t, d, t.Keys) == map["." := Entry(Mode(true, t[d].mode.bits), [], t[d].mtime)]
  {
  }

  lemma {:induction false} SubPartStep(t: Files, d: string, pending: set<string>, p: string)
    requires IsDirIn(t, d) && p in pending && p in t
    ensures SubPart(t, d, pending - {p}) ==
      if Under(d, p) then SubPart(t, d, pending)[Strip(d, p) := t[p]] else SubPart(t, d, pending)
  {
    StripInverse(d);
  }

  function SubErr(t: Files, d: string): Option<Error> {
    if !ValidPath(d) then Some(Invalid)
    else if d !in t then Some(NotExist)
    else if !t[d].mode.dir then Some(NotDir)
    else None
  }

  /** Sub(d) for d other than "."; Sub(".") is the filesystem itself. */
  function SubOf<Q(==)>(fs: Fs<Q>, d: string): (s: Fs<Place>)
    requires ValidFs(fs) && SubErr(fs.files, d).None?
    ensures ValidFs(s)
  {
    Fs(SubFiles(fs.files, d), CloneInjector(fs.inj, d), fs.writeMode, fs.create, Stats.Zero)
  }

  // ----- The relation between the two maps -----

  /** Apart from the root, the sub map is the parent's subtree re-rooted. */
  ghost predicate Rerooted(p: Files, s: Files, d: string) {
    forall x :: x != "." ==> (x in s <==> Inside(d, x) in p) && (x in s ==> s[x] == p[Inside(d, x)])
  }

  /** d and all its ancestors are directories. */
  predicate Anchored(p: Files, d: string) {
    forall q :: q in Ancestry(d) ==> IsDirIn(p, q)
  }

  ghost predicate SameOutside(p: Files, p': Files, d: string) {
    forall q :: !Under(d, q) ==> (q in p' <==> q in p) && (q in p ==> p'[q] == p[q])
  }

  ghost predicate Agree(p: Files, rp: Res, rs: Res, d: string) {
    rp.err == rs.err && Rerooted(rp.files, rs.files, d) && SameOutside(p, rp.files, d)
  }

  lemma {:induction false} InsideInjective(d: string, x: string, y: string)
    requires x != "." && y != "."
    ensures Inside(d, x) == Inside(d, y) <==> x == y
    ensures Under(d, Inside(d, x)) && Inside(d, x)[|d| + 1..] == x
    ensures Within(Inside(d, x), Inside(d, y)) <==> Within(x, y)
  {
    assert (d + "/" + x)[|d| + 1..] == x;
    assert (d + "/" + y)[|d| + 1..] == y;
    UnderInside(d, x, y);
  }

  /** What lies under d/x lies under d, at a path under x. */
  lemma {:induction false} InsideOfUnder(d: string, x: string, q: string)
    requires IsRel(x) && Under(Inside(d, x), q)
    ensures Under(d, q) && q[|d| + 1..] != "." && q == Inside(d, q[|d| + 1..]) && Under(x, q[|d| + 1..])
  {
    RelNonEmpty(x);
    var y := q[|d| + 1..];
    assert Inside(d, x) + "/" == d + "/" + (x + "/");
    assert d + "/" <= q;
    assert q == d + "/" + y;
    assert x + "/" <= y by {
      PrefixCancel(d + "/", x + "/", y);
    }
    assert |y| >= 2;
  }

  lemma {:induction false} AnchoredStays(p: Files, p': Files, d: string)
    requires IsRel(d) && Anchored(p, d) && SameOutside(p, p', d)
    ensures Anchored(p', d)
  {
    forall q | q in Ancestry(d) ensures IsDirIn(p', q) {
      AncestryIsWithin(d, q);
      assert |q| <= |d|;
    }
  }

  lemma {:induction false} PutAgrees(p: Files, s: Files, d: string, x: string, e: Entry)
    requires Rerooted(p, s, d) && x != "."
    ensures Rerooted(p[Inside(d, x) := e], s[x := e], d) && SameOutside(p, p[Inside(d, x) := e], d)
  {
    forall y | y != "." ensures Inside(d, x) == Inside(d, y) <==> x == y {
      InsideInjective(d, x, y);
    }
    InsideInjective(d, x, x);
  }

  // ----- Operation by operation -----

  lemma {:induction false} MkdirAgrees(p: Files, s: Files, d: string, x: string, m: Mode, now: int)
    requires Rerooted(p, s, d) && Anchored(p, d) && IsRel(d) && IsRel(x)
    ensures Agree(p, MkdirRes(p, Inside(d, x), m, now), MkdirRes(s, x, m, now), d)
  {
    RelNonEmpty(x);
    RelNonEmpty(d);
    DirInside(d, x);
    AncestryIsWithin(d, d);
    PutAgrees(p, s, d, x, NewDir(m, now));
    if Dir(x) != "." { DirValid(x); RelNonEmpty(Inside(d, Dir(x))) by { RelConcat(d, Dir(x)); } }
  }

  /** mkdirAll(d/x) stops at index k where mkdirAll(x) stops at j, and looks at the path
      that the other sees from d. */
  predicate StopsAlike(d: string, x: string, j: nat, k: nat)
    requires j <= |x| && k <= |Inside(d, x)|
  {
    && (AtStop(Inside(d, x), k) <==> AtStop(x, j))
    && (AtStop(x, j) ==> x[..j] != "." && Inside(d, x)[..k] == Inside(d, x[..j]))
  }

  lemma {:induction false} StopInside(d: string, x: string, j: nat, k: nat)
    requires IsRel(x) && 0 < j <= |x| && k == |d| + 1 + j
    ensures k <= |Inside(d, x)| && StopsAlike(d, x, j, k)
  {
    RelNonEmpty(x);
    var p := d + "/" + x;
    assert p[..k] == d + "/" + x[..j];
    if j < |x| {
      assert p[k] == x[j];
      if x[j] == '/' {
        assert x == x[..j] + "/" + x[j + 1..];
        RelConcat(x[..j], x[j + 1..]);
        RelNonEmpty(x[..j]);
      }
    } else {
      assert x[..j] == x;
    }
  }

  lemma {:induction false} MkdirAllAboveIsDone(p: Files, d: string, x: string, k: nat, e: Entry)
    requires Anchored(p, d) && IsRel(d) && IsRel(x) && e.mode.dir && k == |d| + 1
    ensures k <= |Inside(d, x)| && MkdirAllTo(p, Inside(d, x), k, e) == Res(None, p)
  {
    RelNonEmpty(x);
    var q := d + "/" + x;
    MkdirAllAny(p, q, k, e);
    var stops := Stops(q, k);
    forall a | a in stops ensures IsDirIn(p, a) {
      var j :| 1 <= j <= k && AtStop(q, j) && a == q[..j];
      assert q[k] == x[0];
      assert j <= |d|;
      assert a == d[..j] && (j < |d| ==> d[j] == q[j]);
      assert AtStop(d, j);
    }
    AddedNothing(p, stops, e);
    assert !Blocked(p, stops);
  }

  lemma {:induction false} StepAgrees(p: Files, rp: Res, rs: Res, d: string, x: string, e: Entry)
    requires Agree(p, rp, rs, d) && rs.err.None? && x != "."
    ensures Agree(p, MkdirStep(rp.files, Inside(d, x), e), MkdirStep(rs.files, x, e), d)
  {
    PutAgrees(rp.files, rs.files, d, x, e);
  }

  /** One index of mkdirAll's loop. */
  function AtIndex(r: Res, p: string, i: nat, e: Entry): Res
    requires 0 < i <= |p|
  {
    if r.err.Some? || !AtStop(p, i) then r else MkdirStep(r.files, p[..i], e)
  }

  /** Two mkdirAll loops in lockstep keep whatever relation every index keeps. */
  lemma {:induction false} Lockstep(
      t: Files, q: string, base: nat, s: Files, x: string, j: nat, e: Entry, related: (Res, Res) -> bool)
    requires base + |x| == |q| && j <= |x|
    requires related(MkdirAllTo(t, q, base, e), Res(None, s))
    requires forall rt, rs, i, k {:trigger AtIndex(rt, q, k, e), AtIndex(rs, x, i, e)} ::
      0 < i <= |x| && k == base + i && related(rt, rs) ==>
      related(AtIndex(rt, q, k, e), AtIndex(rs, x, i, e))
    ensures related(MkdirAllTo(t, q, base + j, e), MkdirAllTo(s, x, j, e))
  {
    if j > 0 {
      var k := base + j;
      Lockstep(t, q, base, s, x, j - 1, e, related);
      var rt, rs := MkdirAllTo(t, q, k - 1, e), MkdirAllTo(s, x, j - 1, e);
      assert related(AtIndex(rt, q, k, e), AtIndex(rs, x, j, e));
    }
  }

  lemma {:induction false} IndexAgrees(p: Files, d: string, x: string, i: nat, k: nat, e: Entry, rp: Res, rs: Res)
    requires IsRel(x) && 0 < i <= |x| && k == |d| + 1 + i <= |Inside(d, x)|
    requires Agree(p, rp, rs, d)
    ensures Agree(p, AtIndex(rp, Inside(d, x), k, e), AtIndex(rs, x, i, e), d)
  {
    StopInside(d, x, i, k);
    if rs.err.None? && AtStop(x, i) {
      StepAgrees(p, rp, rs, d, x[..i], e);
    }
  }

  lemma {:induction false} EveryIndexAgrees(
      p: Files, d: string, x: string, base: nat, e: Entry, related: (Res, Res) -> bool)
    requires IsRel(x) && base == |d| + 1 && |Inside(d, x)| == base + |x|
    requires forall rp, rs :: related(rp, rs) == Agree(p, rp, rs, d)
    ensures forall rp, rs, i, k {:trigger AtIndex(rp, Inside(d, x), k, e), AtIndex(rs, x, i, e)} ::
      0 < i <= |x| && k == base + i && related(rp, rs) ==>
      related(AtIndex(rp, Inside(d, x), k, e), AtIndex(rs, x, i, e))
  {
    forall rp, rs, i, k | 0 < i <= |x| && k == base + i && related(rp, rs)
      ensures related(AtIndex(rp, Inside(d, x), k, e), AtIndex(rs, x, i, e))
    {
      IndexAgrees(p, d, x, i, k, e, rp, rs);
    }
  }

  lemma {:induction false} LockstepWhole(
      t: Files, q: string, base: nat, s: Files, x: string, m: Mode, now: int, related: (Res, Res) -> bool)
    requires base + |x| == |q|
    requires related(MkdirAllTo(t, q, base, NewDir(m, now)), Res(None, s))
    requires forall rt, rs, i, k {:trigger AtIndex(rt, q, k, NewDir(m, now)), AtIndex(rs, x, i, NewDir(m, now))} ::
      0 < i <= |x| && k == base + i && related(rt, rs) ==>
        related(AtIndex(rt, q, k, NewDir(m, now)), AtIndex(rs, x, i, NewDir(m, now)))
    ensures related(MkdirAllRes(t, q, m, now), MkdirAllRes(s, x, m, now))
  {
    Lockstep(t, q, base, s, x, |x|, NewDir(m, now), related);
  }

  lemma {:induction false} FromRelated(p: Files, d: string, rp: Res, rs: Res, related: (Res, Res) -> bool)
    requires forall x, y :: related(x, y) == Agree(p, x, y, d)
    requires related(rp, rs)
    ensures Agree(p, rp, rs, d)
  {
  }

  lemma {:induction false} MkdirAllAgrees(p: Files, s: Files, d: string, x: string, m: Mode, now: int)
    requires Rerooted(p, s, d) && Anchored(p, d) && IsRel(d) && IsRel(x)
    ensures Agree(p, MkdirAllRes(p, Inside(d, x), m, now), MkdirAllRes(s, x, m, now), d)
  {
    var base, e := |d| + 1, NewDir(m, now);
    RelNonEmpty(x);
    assert |Inside(d, x)| == |d| + 1 + |x|;
    MkdirAllAboveIsDone(p, d, x, base, e);
    var related := (rp: Res, rs: Res) => Agree(p, rp, rs, d);
    EveryIndexAgrees(p, d, x, base, e, related);
    LockstepWhole(p, Inside(d, x), base, s, x, m, now, related);
    FromRelated(p, d, MkdirAllRes(p, Inside(d, x), m, now), MkdirAllRes(s, x, m, now), related);
  }

  /** Nothing is missing above d. */
  lemma {:induction false} MkdirAllAnchored(p: Files, d: string, m: Mode, now: int)
    requires Anchored(p, d)
    ensures MkdirAllRes(p, d, m, now) == Res(None, p)
  {
    var e := NewDir(m, now);
    MkdirAllAny(p, d, |d|, e);
    assert forall a :: a in Ancestry(d) ==> IsDirIn(p, a);
    AddedNothing(p, Ancestry(d), e);
  }

  lemma {:induction false} ParentsAgree(p: Files, s: Files, d: string, x: string, now: int)
    requires Rerooted(p, s, d) && Anchored(p, d) && IsRel(d) && IsRel(x)
    ensures Agree(p, EnsureParents(p, Inside(d, x), now), EnsureParents(s, x, now), d)
  {
    DirInside(d, x);
    RelNonEmpty(d);
    if Dir(x) == "." {
      MkdirAllAnchored(p, d, DefaultDir, now);
    } else {
      DirValid(x);
      RelConcat(d, Dir(x));
      RelNonEmpty(Inside(d, Dir(x)));
      MkdirAllAgrees(p, s, d, Dir(x), DefaultDir, now);
    }
  }

  lemma {:induction false} AddFileAgrees(p: Files, s: Files, d: string, x: string, data: seq<byte>, m: Mode, now: int)
    requires Rerooted(p, s, d) && Anchored(p, d) && IsRel(d) && x != "."
    ensures Agree(p, AddFileRes(p, Inside(d, x), data, m, now), AddFileRes(s, x, data, m, now), d)
  {
    InsideValid(d, x);
    if IsRel(x) {
      ParentsAgree(p, s, d, x, now);
      PutAgrees(EnsureParents(p, Inside(d, x), now).files, EnsureParents(s, x, now).files, d, x,
                Entry(FileMode(m), data, now));
    }
  }

  lemma {:induction false} RemoveTreeAgrees(p: Files, s: Files, d: string, x: string)
    requires Rerooted(p, s, d) && IsRel(x)
    ensures Rerooted(RemoveTree(p, Inside(d, x)), RemoveTree(s, x), d)
    ensures SameOutside(p, RemoveTree(p, Inside(d, x)), d)
  {
    RelNonEmpty(x);
    forall y | y != "." ensures Within(Inside(d, x), Inside(d, y)) <==> Within(x, y) {
      InsideInjective(d, x, y);
    }
    forall q | Within(Inside(d, x), q) ensures Under(d, q) {
      InsideInjective(d, x, x);
      if q != Inside(d, x) { InsideOfUnder(d, x, q); }
    }
  }

  lemma {:induction false} RemoveAgrees(p: Files, s: Files, d: string, x: string)
    requires Rerooted(p, s, d) && IsRel(x)
    ensures Agree(p, RemoveRes(p, Inside(d, x)), RemoveRes(s, x), d)
  {
    RelNonEmpty(x);
    assert HasDescendants(p, Inside(d, x)) <==> HasDescendants(s, x) by {
      if HasDescendants(p, Inside(d, x)) {
        var q :| q in p && Under(Inside(d, x), q);
        InsideOfUnder(d, x, q);
        assert q[|d| + 1..] in s;
      }
      if HasDescendants(s, x) {
        var y :| y in s && Under(x, y);
        assert |y| >= 2;
        UnderInside(d, x, y);
        assert Inside(d, y) in p;
      }
    }
    forall y | y != "." ensures Inside(d, x) == Inside(d, y) <==> x == y {
      InsideInjective(d, x, y);
    }
    InsideInjective(d, x, x);
  }

  lemma {:induction false} WriteFileAgrees(
      p: Files, s: Files, d: string, w: WriteMode, create: bool, x: string, data: seq<byte>, m: Mode, now: int)
    requires Rerooted(p, s, d) && IsRel(x)
    ensures Agree(p, WriteFileRes(p, w, create, Inside(d, x), data, m, now),
                  WriteFileRes(s, w, create, x, data, m, now), d)
  {
    RelNonEmpty(x);
    if x in s {
      PutAgrees(p, s, d, x, Entry(s[x].mode, Written(w, s[x].data, data), now));
    } else {
      PutAgrees(p, s, d, x, Entry(Mode(false, m.bits), data, now));
    }
  }

  lemma {:induction false} RebaseInsideBoth(d: string, from: string, to: string, y: string)
    requires IsRel(from) && IsRel(to) && y != "." && Within(to, y)
    ensures Within(Inside(d, to), Inside(d, y))
    ensures Rebase(to, from, y) != "."
    ensures Rebase(Inside(d, to), Inside(d, from), Inside(d, y)) == Inside(d, Rebase(to, from, y))
  {
    RelNonEmpty(from);
    RelNonEmpty(to);
    InsideInjective(d, to, y);
    var tail := y[|to|..];
    assert (d + "/" + y)[|d + "/" + to|..] == tail;
    assert (d + "/" + from) + tail == d + "/" + (from + tail);
    assert (from + tail)[0] == from[0];
    assert |from + tail| == 1 ==> |from| == 1 && from == [from[0]];
  }

  lemma {:induction false} ChildNamesAgree(p: Files, s: Files, d: string, x: string)
    requires Rerooted(p, s, d) && IsRel(d) && IsRel(x)
    ensures ChildNames(p, Inside(d, x)) == ChildNames(s, x)
  {
    RelNonEmpty(x);
    RelConcat(d, x);
    RelNonEmpty(Inside(d, x));
    forall n ensures n in ChildNames(p, Inside(d, x)) <==> n in ChildNames(s, x) {
      if n in ChildNames(p, Inside(d, x)) {
        var q :| q in p && Below(Inside(d, x), q) && n == FirstSeg(Relative(Inside(d, x), q));
        InsideOfUnder(d, x, q);
        var y := q[|d| + 1..];
        RelativeInside(d, x, y);
        assert y in s;
      }
      if n in ChildNames(s, x) {
        var y :| y in s && Below(x, y) && n == FirstSeg(Relative(x, y));
        assert |y| >= 2;
        RelativeInside(d, x, y);
        assert Inside(d, y) in p;
      }
    }
  }

  lemma {:induction false} ChildPathInside(d: string, x: string, n: string, s: Files)
    requires ValidKeys(s) && IsRel(d) && IsRel(x) && n in ChildNames(s, x)
    ensures JoinName(Inside(d, x), n) == Inside(d, JoinName(x, n)) && JoinName(x, n) != "."
  {
    var y :| y in s && Below(x, y) && n == FirstSeg(Relative(x, y));
    BelowValid(x, y);
    FirstSegWithin(Relative(x, y));
    ElemPathInside(d, x, n);
  }

  lemma {:induction false} ElemPathInside(d: string, x: string, n: string)
    requires IsRel(d) && IsRel(x) && ValidElem(n)
    ensures JoinName(Inside(d, x), n) == Inside(d, JoinName(x, n)) && JoinName(x, n) != "."
  {
    RelNonEmpty(x);
    RelConcat(d, x);
    RelNonEmpty(Inside(d, x));
    assert (d + "/" + x) + "/" + n == d + "/" + (x + "/" + n);
    assert |x + "/" + n| >= 2;
  }

  lemma {:induction false} ListedAgree(p: Files, s: Files, d: string, x: string)
    requires Rerooted(p, s, d) && ValidKeys(s) && IsRel(d) && IsRel(x)
    ensures Listed(p, Inside(d, x)) == Listed(s, x)
    ensures forall n :: n in Listed(s, x) ==>
      JoinName(Inside(d, x), n) in p && InfoOf(p, Inside(d, x), n) == InfoOf(s, x, n)
  {
    ChildNamesAgree(p, s, d, x);
    forall n | n in ChildNames(s, x)
      ensures JoinName(Inside(d, x), n) == Inside(d, JoinName(x, n)) && JoinName(x, n) != "."
    {
      ChildPathInside(d, x, n, s);
    }
  }

  lemma {:induction false} RelativeInside(d: string, x: string, y: string)
    requires x != "." && y != "." && Under(x, y) && Inside(d, x) != "."
    ensures Below(Inside(d, x), Inside(d, y)) && Below(x, y)
    ensures Relative(Inside(d, x), Inside(d, y)) == Relative(x, y)
  {
    UnderInside(d, x, y);
    assert (d + "/" + y)[|d + "/" + x| + 1..] == y[|x| + 1..];
  }

  lemma {:induction false} ListingAgrees(p: Files, s: Files, d: string, x: string)
    requires Rerooted(p, s, d) && ValidKeys(s) && IsRel(d) && IsRel(x)
    ensures DirListing(p, Inside(d, x)) == DirListing(s, x)
  {
    ListedAgree(p, s, d, x);
    ListingNames(s, x);
    ListingNames(p, Inside(d, x));
    var l, k := DirListing(p, Inside(d, x)), DirListing(s, x);
    assert |NamesOf(l)| == |NamesOf(k)|;
    forall i | 0 <= i < |k| ensures l[i] == k[i] {
      assert NamesOf(l)[i] == NamesOf(k)[i];
      ListedName(s, x, i);
    }
  }

  lemma {:induction false} ListedName(t: Files, x: string, i: nat)
    requires i < |DirListing(t, x)|
    ensures DirListing(t, x)[i].name in Listed(t, x)
  {
    ListingNames(t, x);
    Order.SortedIsSorted(Listed(t, x));
    var names := Order.Sorted(Listed(t, x));
    assert names[i] in Order.Elems(names);
    assert NamesOf(DirListing(t, x))[i] == names[i];
  }
}
