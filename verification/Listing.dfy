/** Directory listings: what ReadDir returns for any state of the map. */
module Listing {
  import opened Paths
  import opened Files
  import opened Tree
  import opened Order

  datatype FileInfo = FileInfo(name: string, mode: Mode, mtime: int, size: nat)

  /** path.Join(d, n) for a valid d and an n without slashes; the root is not joined. */
  function JoinName(d: string, n: string): string {
    if d == "." then n
    else if n == "" || n == "." then d
    else if n == ".." then Dir(d)
    else d + "/" + n
  }

  predicate Below(d: string, p: string) {
    p != d && (d == "." || Under(d, p))
  }

  function Relative(d: string, p: string): string
    requires Below(d, p)
  {
    if d == "." then p else p[|d| + 1..]
  }

  /** First pass of collectDirEntries: the first segments below d. */
  function ChildNames(t: Files, d: string): set<string> {
    set p | p in t && Below(d, p) :: FirstSeg(Relative(d, p))
  }

  /** Second pass: those that have an entry of their own. */
  function Listed(t: Files, d: string): set<string> {
    set n | n in ChildNames(t, d) && JoinName(d, n) in t
  }

  function InfoOf(t: Files, d: string, n: string): FileInfo
    requires JoinName(d, n) in t
  {
    var e := t[JoinName(d, n)];
    FileInfo(n, e.mode, e.mtime, |e.data|)
  }

  ghost function DirListing(t: Files, d: string): seq<FileInfo> {
    SortedIsSorted(Listed(t, d));
    var names := Sorted(Listed(t, d));
    assert forall i :: 0 <= i < |names| ==> names[i] in Elems(names);
    seq(|names|, i requires 0 <= i < |names| => InfoOf(t, d, names[i]))
  }

  function NamesOf(l: seq<FileInfo>): seq<string> {
    seq(|l|, i requires 0 <= i < |l| => l[i].name)
  }

  lemma {:induction false} ListingNames(t: Files, d: string)
    ensures NamesOf(DirListing(t, d)) == Sorted(Listed(t, d))
    ensures forall i :: 0 <= i < |DirListing(t, d)| ==>
      var n := DirListing(t, d)[i].name; JoinName(d, n) in t && DirListing(t, d)[i] == InfoOf(t, d, n)
  {
    SortedIsSorted(Listed(t, d));
    var names := Sorted(Listed(t, d));
    assert forall i :: 0 <= i < |names| ==> names[i] in Elems(names);
  }

  lemma {:induction false} BelowValid(d: string, p: string)
    requires ValidPath(d) && ValidPath(p) && Below(d, p)
    ensures IsRel(Relative(d, p)) && p == Child(d, Relative(d, p))
  {
    if d != "." { UnderRel(d, p); }
  }

  lemma {:induction false} ChildBelow(d: string, n: string)
    requires ValidPath(d) && ValidElem(n)
    ensures ValidPath(Child(d, n)) && Below(d, Child(d, n)) && Relative(d, Child(d, n)) == n
    ensures FirstSeg(n) == n && JoinName(d, n) == Child(d, n)
  {
    RelElem(n);
    RelConcat(d, n);
    RelNonEmpty(n);
    FirstSegUnique(n, n);
    if d != "." {
      assert |d + "/" + n| > |d|;
    }
  }

  /** What is said of a child is what is stored at its path. */
  predicate DescribesChild(t: Files, d: string, e: FileInfo) {
    ValidElem(e.name) ==>
      && Child(d, e.name) in t && e.mode == t[Child(d, e.name)].mode
      && e.mtime == t[Child(d, e.name)].mtime && e.size == |t[Child(d, e.name)].data|
  }

  lemma {:induction false} EntriesAreChildren(t: Files, d: string, i: nat)
    requires ValidPath(d) && i < |DirListing(t, d)|
    ensures DescribesChild(t, d, DirListing(t, d)[i])
  {
    ListingNames(t, d);
    if ValidElem(DirListing(t, d)[i].name) { ChildBelow(d, DirListing(t, d)[i].name); }
  }

  /** The listing is canonical: for any map it is strictly increasing, a proper name is in it
      exactly when the child path has an entry, and its mode, time and size are the entry's.
      Other names come from keys that are not valid paths only. */
  lemma {:induction false} ReadDirCanonical(t: Files, d: string)
    requires ValidPath(d)
    ensures Increasing(NamesOf(DirListing(t, d)))
    ensures forall n :: ValidElem(n) ==> (n in NamesOf(DirListing(t, d)) <==> Child(d, n) in t)
    ensures ValidKeys(t) ==> forall n :: n in NamesOf(DirListing(t, d)) ==> ValidElem(n)
    ensures forall i :: 0 <= i < |DirListing(t, d)| ==> DescribesChild(t, d, DirListing(t, d)[i])
  {
    forall i | 0 <= i < |DirListing(t, d)| ensures DescribesChild(t, d, DirListing(t, d)[i]) {
      EntriesAreChildren(t, d, i);
    }
    ListingNames(t, d);
    SortedIsSorted(Listed(t, d));
    var names := Sorted(Listed(t, d));
    forall n ensures n in names <==> n in Listed(t, d) {
      assert n in names <==> n in Elems(names);
    }
    forall n | ValidElem(n) ensures n in Listed(t, d) <==> Child(d, n) in t {
      ChildBelow(d, n);
    }
    forall n | n in Listed(t, d) && ValidKeys(t) ensures ValidElem(n) {
      var p :| p in t && Below(d, p) && n == FirstSeg(Relative(d, p));
      BelowValid(d, p);
      FirstSegWithin(Relative(d, p));
    }
  }

  predicate OnTheWay(d: string, n: string, p: string) {
    Within(Child(d, n), p)
  }

  lemma {:induction false} FirstSegOnTheWay(d: string, p: string)
    requires ValidPath(d) && ValidPath(p) && Below(d, p)
    ensures var n := FirstSeg(Relative(d, p));
      ValidElem(n) && OnTheWay(d, n, p) && (OnTheWay(d, n, p) <==> Within(n, Relative(d, p)))
  {
    BelowValid(d, p);
    var s := Relative(d, p);
    var n := FirstSeg(s);
    FirstSegWithin(s);
    OnTheWayIsWithin(d, n, s);
  }

  lemma {:induction false} OnTheWayIsWithin(d: string, n: string, s: string)
    ensures OnTheWay(d, n, Child(d, s)) <==> Within(n, s)
  {
    if d != "." {
      var q := d + "/";
      assert Child(d, n) == q + n && Child(d, s) == q + s && Child(d, n) + "/" == q + (n + "/");
      PrefixCancel(q, n + "/", s);
      if q + n == q + s {
        assert n == (q + n)[|q|..] && s == (q + s)[|q|..];
      }
    }
  }

  /** In a tree every entry below d is represented by exactly one listed name. */
  lemma {:induction false} ReadDirRepresents(t: Files, d: string, p: string)
    requires TreeInv(t) && ValidPath(d) && p in t && Below(d, p)
    ensures var n := FirstSeg(Relative(d, p));
      && n in Listed(t, d) && OnTheWay(d, n, p)
      && forall m :: m in Listed(t, d) && OnTheWay(d, m, p) ==> m == n
  {
    var s := Relative(d, p);
    var n := FirstSeg(s);
    BelowValid(d, p);
    FirstSegOnTheWay(d, p);
    ChildBelow(d, n);
    if Child(d, n) != p { AncestorsPresent(t, Child(d, n), p); }
    forall m | m in Listed(t, d) && OnTheWay(d, m, p) ensures m == n {
      var q :| q in t && Below(d, q) && m == FirstSeg(Relative(d, q));
      OnTheWayIsWithin(d, m, s);
      FirstSegUnique(m, s);
    }
  }

  /** In a tree the second pass never skips a name. */
  lemma {:induction false} SkipIsDead(t: Files, d: string)
    requires TreeInv(t) && ValidPath(d)
    ensures Listed(t, d) == ChildNames(t, d)
  {
    forall n | n in ChildNames(t, d) ensures n in Listed(t, d) {
      var p :| p in t && Below(d, p) && n == FirstSeg(Relative(d, p));
      ReadDirRepresents(t, d, p);
    }
  }

  // ----- The two passes and the sorting -----

  /** The child names that the keys in s give. */
  function NamesFrom(s: set<string>, d: string): set<string> {
    set p | p in s && Below(d, p) :: FirstSeg(Relative(d, p))
  }

  lemma {:induction false} NamesStep(s: set<string>, d: string, p: string)
    ensures NamesFrom(s + {p}, d) == NamesFrom(s, d) + if Below(d, p) then {FirstSeg(Relative(d, p))} else {}
  {
    var a, b := NamesFrom(s + {p}, d), NamesFrom(s, d) + if Below(d, p) then {FirstSeg(Relative(d, p))} else {};
    forall n | n in a ensures n in b {
      var q :| q in s + {p} && Below(d, q) && n == FirstSeg(Relative(d, q));
      assert q in s ==> n in NamesFrom(s, d);
    }
    forall n | n in b ensures n in a {
      if n in NamesFrom(s, d) {
        var q :| q in s && Below(d, q) && n == FirstSeg(Relative(d, q));
        assert q in s + {p};
      } else {
        assert p in s + {p};
      }
    }
  }

  lemma {:induction false} NamesAll(t: Files, d: string)
    ensures NamesFrom(t.Keys, d) == ChildNames(t, d) && NamesFrom({}, d) == {}
  {
    forall n | n in NamesFrom(t.Keys, d) ensures n in ChildNames(t, d) {
      var q :| q in t.Keys && Below(d, q) && n == FirstSeg(Relative(d, q));
      assert q in t;
    }
    forall n | n in ChildNames(t, d) ensures n in NamesFrom(t.Keys, d) {
      var q :| q in t && Below(d, q) && n == FirstSeg(Relative(d, q));
      assert q in t.Keys;
    }
  }

  /** es lists, in some order, exactly the children among names that have an entry. */
  ghost predicate Gathered(t: Files, d: string, names: set<string>, es: seq<FileInfo>) {
    && (forall i :: 0 <= i < |es| ==>
          es[i].name in names && JoinName(d, es[i].name) in t && es[i] == InfoOf(t, d, es[i].name))
    && (forall n :: n in names && JoinName(d, n) in t ==> exists i :: 0 <= i < |es| && es[i].name == n)
    && (forall i, j :: 0 <= i < j < |es| ==> es[i].name != es[j].name)
  }

  lemma {:induction false} GatheredStep(t: Files, d: string, names: set<string>, es: seq<FileInfo>, n: string)
    requires Gathered(t, d, names, es) && n !in names
    ensures Gathered(t, d, names + {n}, if JoinName(d, n) in t then es + [InfoOf(t, d, n)] else es)
  {
    if JoinName(d, n) in t {
      var es' := es + [InfoOf(t, d, n)];
      forall m | m in names + {n} && JoinName(d, m) in t ensures exists i :: 0 <= i < |es'| && es'[i].name == m {
        if m == n {
          assert es'[|es|].name == m;
        } else {
          var i :| 0 <= i < |es| && es[i].name == m;
          assert es'[i].name == m;
        }
      }
    }
  }

  /** Insertion of one entry, by name. */
  method InsertByName(es: seq<FileInfo>, e: FileInfo) returns (r: seq<FileInfo>)
    requires Increasing(NamesOf(es)) && forall i :: 0 <= i < |es| ==> es[i].name != e.name
    ensures Increasing(NamesOf(r)) && multiset(r) == multiset(es + [e])
  {
    var k := 0;
    while k < |es| && Less(es[k].name, e.name)
      invariant 0 <= k <= |es|
      invariant forall i :: 0 <= i < k ==> Less(es[i].name, e.name)
    {
      k := k + 1;
    }
    r := es[..k] + [e] + es[k..];
    assert es == es[..k] + es[k..];
    if k < |es| {
      LessTotal(es[k].name, e.name);
      InsertSorted(es, e, k);
    } else {
      InsertSorted(es, e, k);
    }
  }

  lemma {:induction false} InsertSorted(es: seq<FileInfo>, e: FileInfo, k: nat)
    requires k <= |es| && Increasing(NamesOf(es))
    requires forall i :: 0 <= i < k ==> Less(es[i].name, e.name)
    requires k < |es| ==> Less(e.name, es[k].name)
    ensures Increasing(NamesOf(es[..k] + [e] + es[k..]))
  {
    var r := es[..k] + [e] + es[k..];
    var ns := NamesOf(es);
    forall i, j | 0 <= i < j < |r| ensures Less(NamesOf(r)[i], NamesOf(r)[j]) {
      if j == k {
      } else if i == k {
        if j > k + 1 { LessTransitive(e.name, ns[k], ns[j - 1]); }
      } else {
        var i', j' := if i < k then i else i - 1, if j < k then j else j - 1;
        assert Less(ns[i'], ns[j']);
      }
    }
  }

  /** slices.SortFunc by name, for distinct names. */
  method SortByName(es: seq<FileInfo>) returns (r: seq<FileInfo>)
    requires forall i, j :: 0 <= i < j < |es| ==> es[i].name != es[j].name
    ensures Increasing(NamesOf(r)) && multiset(r) == multiset(es)
  {
    r := [];
    for k := 0 to |es|
      invariant Increasing(NamesOf(r)) && multiset(r) == multiset(es[..k])
    {
      assert es[..k + 1] == es[..k] + [es[k]];
      forall i | 0 <= i < |r| ensures r[i].name != es[k].name {
        assert r[i] in multiset(r);
        assert r[i] in es[..k];
      }
      r := InsertByName(r, es[k]);
    }
    assert es[..|es|] == es;
  }

  lemma {:induction false} SameMembers(r: seq<FileInfo>, es: seq<FileInfo>)
    requires multiset(r) == multiset(es)
    ensures forall x :: x in r <==> x in es
  {
    forall x ensures x in r <==> x in es {
      assert x in r <==> x in multiset(r);
      assert x in es <==> x in multiset(es);
    }
  }

  lemma {:induction false} GatheredNames(t: Files, d: string, es: seq<FileInfo>, r: seq<FileInfo>)
    requires Gathered(t, d, ChildNames(t, d), es) && forall x :: x in r <==> x in es
    ensures Elems(NamesOf(r)) == Listed(t, d)
  {
    forall n | n in Elems(NamesOf(r)) ensures n in Listed(t, d) {
      var i :| 0 <= i < |r| && NamesOf(r)[i] == n;
      assert r[i] in es;
    }
    forall n | n in Listed(t, d) ensures n in Elems(NamesOf(r)) {
      var i :| 0 <= i < |es| && es[i].name == n;
      assert es[i] in r;
      var j :| 0 <= j < |r| && r[j] == es[i];
      assert NamesOf(r)[j] == n;
    }
  }

  lemma {:induction false} ListingIs(t: Files, d: string, r: seq<FileInfo>)
    requires NamesOf(r) == Sorted(Listed(t, d))
    requires forall x :: x in r ==> JoinName(d, x.name) in t && x == InfoOf(t, d, x.name)
    ensures r == DirListing(t, d)
  {
    ListingNames(t, d);
    var l := DirListing(t, d);
    assert |r| == |NamesOf(r)| && |l| == |NamesOf(l)|;
    forall i | 0 <= i < |r| ensures r[i] == l[i] {
      assert NamesOf(r)[i] == NamesOf(l)[i];
      assert r[i] in r;
    }
  }

  /** Whatever the order of the passes, sorting gives the listing. */
  lemma {:induction false} GatheredSorted(t: Files, d: string, es: seq<FileInfo>, r: seq<FileInfo>)
    requires Gathered(t, d, ChildNames(t, d), es)
    requires Increasing(NamesOf(r)) && multiset(r) == multiset(es)
    ensures r == DirListing(t, d)
  {
    SameMembers(r, es);
    GatheredNames(t, d, es, r);
    SortedUnique(NamesOf(r));
    ListingIs(t, d, r);
  }
}
