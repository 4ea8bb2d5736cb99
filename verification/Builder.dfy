/** Building a filesystem from nested File and Dir options, and listing it back. */
module Builder {
  import opened Common
  import opened Paths
  import opened Files
  import opened Tree
  import opened Order
  import opened Listing

  /** A File or Dir option; mode is the permission that finally applies. */
  datatype Node =
    | FileNode(name: string, data: seq<byte>, mode: Mode)
    | DirNode(name: string, mode: Mode, children: seq<Node>)

  function EntryOf(n: Node, now: int): Entry {
    match n
    case FileNode(_, data, m) => Entry(FileMode(m), data, now)
    case DirNode(_, m, _) => NewDir(m, now)
  }

  // ----- What the options do, in order -----

  /** The map after applying the options in the context ctx; None for a rejected name. */
  function BuildAll(t: Files, ctx: string, ns: seq<Node>, now: int): Option<Files>
    decreases ns, 0
  {
    if ns == [] then Some(t)
    else
      var r := BuildOne(t, ctx, ns[0], now);
      if r.None? then None else BuildAll(r.value, ctx, ns[1..], now)
  }

  function BuildOne(t: Files, ctx: string, n: Node, now: int): Option<Files>
    decreases n, 1
  {
    if !ValidElem(n.name) then None
    else
      var p := Child(ctx, n.name);
      var t1 := t[p := EntryOf(n, now)];
      if n.FileNode? then Some(t1) else BuildAll(t1, p, n.children, now)
  }

  function EmptyFs(now: int): Files {
    map["." := Entry(DirMode(DefaultDir), [], now)]
  }

  // ----- The described tree -----

  predicate ValidNames(ns: seq<Node>) {
    forall n :: n in ns ==> ValidElem(n.name) && (n.DirNode? ==> ValidNames(n.children))
  }

  predicate DistinctNames(ns: seq<Node>) {
    && (forall i, j :: 0 <= i < j < |ns| ==> ns[i].name != ns[j].name)
    && (forall n :: n in ns && n.DirNode? ==> DistinctNames(n.children))
  }

  /** The node a component list leads to. */
  ghost predicate Leads(ns: seq<Node>, c: Comps, n: Node)
    decreases |c|
  {
    c != [] && exists m :: (
      m in ns && m.name == c[0]
      && if |c| == 1 then n == m else m.DirNode? && Leads(m.children, c[1..], n))
  }

  // ----- Building yields exactly the described tree -----

  function Flatten(ctx: string, ns: seq<Node>, now: int): Files
    decreases ns, 0
  {
    if ns == [] then map[] else FlattenOne(ctx, ns[0], now) + Flatten(ctx, ns[1..], now)
  }

  function FlattenOne(ctx: string, n: Node, now: int): Files
    decreases n, 1
  {
    var p := Child(ctx, n.name);
    map[p := EntryOf(n, now)] + (if n.DirNode? then Flatten(p, n.children, now) else map[])
  }

  lemma {:induction false} BuildIsFlatten(t: Files, ctx: string, ns: seq<Node>, now: int)
    ensures BuildAll(t, ctx, ns, now).Some? <==> ValidNames(ns)
    ensures ValidNames(ns) ==> BuildAll(t, ctx, ns, now) == Some(t + Flatten(ctx, ns, now))
    decreases ns, 0
  {
    if ns == [] {
      assert t + map[] == t;
    } else {
      var n := ns[0];
      ValidNamesSplit(ns);
      BuildOneIsFlatten(t, ctx, n, now);
      var r := BuildOne(t, ctx, n, now);
      if r.Some? {
        BuildIsFlatten(r.value, ctx, ns[1..], now);
        MergeAssoc(t, FlattenOne(ctx, n, now), Flatten(ctx, ns[1..], now));
      }
    }
  }

  predicate ValidNode(n: Node) {
    ValidElem(n.name) && (n.DirNode? ==> ValidNames(n.children))
  }

  lemma {:induction false} ValidNamesSplit(ns: seq<Node>)
    requires ns != []
    ensures ValidNames(ns) <==> ValidNode(ns[0]) && ValidNames(ns[1..])
  {
    assert forall m :: m in ns <==> m == ns[0] || m in ns[1..];
  }

  lemma {:induction false} MergeAssoc(a: Files, b: Files, c: Files)
    ensures (a + b) + c == a + (b + c)
  {
  }

  lemma {:induction false} BuildOneIsFlatten(t: Files, ctx: string, n: Node, now: int)
    ensures BuildOne(t, ctx, n, now).Some? <==> ValidNode(n)
    ensures BuildOne(t, ctx, n, now).Some? ==> BuildOne(t, ctx, n, now) == Some(t + FlattenOne(ctx, n, now))
    decreases n, 1
  {
    if ValidElem(n.name) {
      var p := Child(ctx, n.name);
      var t1 := t[p := EntryOf(n, now)];
      if n.DirNode? {
        BuildIsFlatten(t1, p, n.children, now);
        if ValidNames(n.children) {
          var one := map[p := EntryOf(n, now)];
          assert t1 == t + one;
          MergeAssoc(t, one, Flatten(p, n.children, now));
        }
      } else {
        assert t1 == t + FlattenOne(ctx, n, now);
      }
    }
  }

  lemma {:induction false} ChildRel(ctx: string, n: string)
    requires ValidPath(ctx) && ValidElem(n)
    ensures IsRel(Child(ctx, n)) && Child(ctx, n) != "."
  {
    RelElem(n);
    RelConcat(ctx, n);
    RelNonEmpty(Child(ctx, n));
  }

  /** Siblings' subtrees do not meet. */
  lemma {:induction false} SiblingsApart(ctx: string, a: string, b: string, p: string)
    requires ValidPath(ctx) && ValidElem(a) && ValidElem(b) && a != b
    ensures !(Within(Child(ctx, a), p) && Within(Child(ctx, b), p))
  {
    if Within(Child(ctx, a), p) && Within(Child(ctx, b), p) {
      var q := if ctx == "." then "" else ctx + "/";
      assert Child(ctx, a) == q + a && Child(ctx, b) == q + b;
      var s := p[|q|..];
      WithinTail(q, a, p);
      WithinTail(q, b, p);
      FirstSegUnique(a, s);
      FirstSegUnique(b, s);
    }
  }

  lemma {:induction false} WithinTail(q: string, n: string, p: string)
    requires Within(q + n, p)
    ensures |q| <= |p| && Within(n, p[|q|..])
  {
    var s := p[|q|..];
    assert p[..|q|] == (q + n)[..|q|] == q;
    assert p == q + s;
    assert q + n + "/" == q + (n + "/");
    PrefixCancel(q, n + "/", s);
    if p == q + n { assert s == (q + n)[|q|..] == n; }
  }

  /** Which paths a description occupies, and with what. */
  lemma {:induction false} FlattenKeys(ctx: string, ns: seq<Node>, now: int, p: string)
    requires ValidPath(ctx) && ValidNames(ns) && DistinctNames(ns)
    ensures p in Flatten(ctx, ns, now) ==>
      exists n :: n in ns && Within(Child(ctx, n.name), p)
    ensures forall n :: n in ns && Within(Child(ctx, n.name), p) ==>
      (p in Flatten(ctx, ns, now) <==> p in FlattenOne(ctx, n, now)) &&
      (p in FlattenOne(ctx, n, now) ==> Flatten(ctx, ns, now)[p] == FlattenOne(ctx, n, now)[p])
    decreases ns, 0
  {
    if ns != [] {
      var h := ns[0];
      assert h in ns;
      assert forall m :: m in ns <==> m == h || m in ns[1..];
      FlattenKeys(ctx, ns[1..], now, p);
      FlattenOneKeys(ctx, h, now, p);
      var rest := Flatten(ctx, ns[1..], now);
      forall n | n in ns[1..] && Within(Child(ctx, h.name), p) && Within(Child(ctx, n.name), p) ensures false {
        SiblingsApart(ctx, h.name, n.name, p);
      }
    }
  }

  lemma {:induction false} FlattenOneKeys(ctx: string, n: Node, now: int, p: string)
    requires ValidPath(ctx) && ValidElem(n.name)
    requires n.DirNode? ==> ValidNames(n.children) && DistinctNames(n.children)
    ensures var c := Child(ctx, n.name);
      && (p in FlattenOne(ctx, n, now) ==> Within(c, p))
      && c in FlattenOne(ctx, n, now) && FlattenOne(ctx, n, now)[c] == EntryOf(n, now)
      && (p != c ==> (p in FlattenOne(ctx, n, now) <==> n.DirNode? && p in Flatten(c, n.children, now)))
      && (p != c && p in FlattenOne(ctx, n, now) ==> FlattenOne(ctx, n, now)[p] == Flatten(c, n.children, now)[p])
    decreases n, 1
  {
    var c := Child(ctx, n.name);
    ChildRel(ctx, n.name);
    if n.DirNode? {
      FlattenKeys(c, n.children, now, p);
      FlattenKeys(c, n.children, now, c);
      forall m | m in n.children && Within(Child(c, m.name), p) ensures Under(c, p) {
        ChildBelow(c, m.name);
        if p != Child(c, m.name) { UnderTransitive(c, Child(c, m.name), p); }
      }
      forall m | m in n.children ensures !Within(Child(c, m.name), c) {
        assert |Child(c, m.name)| > |c|;
      }
    }
  }

  /** Exactly the described tree: an entry is at a path if and only if the description
      leads there, and it is the described one. */
  lemma {:induction false} FlattenIsDescription(ctx: string, ns: seq<Node>, now: int, c: Comps, e: Entry)
    requires ValidPath(ctx) && ValidNames(ns) && DistinctNames(ns) && ValidComps(c) && c != []
    ensures var p := Child(ctx, Render(c)); var f := Flatten(ctx, ns, now);
      (p in f && f[p] == e) <==> exists n :: Leads(ns, c, n) && EntryOf(n, now) == e
    decreases |c|
  {
    var p := Child(ctx, Render(c));
    assert c[0] in c;
    HeadOnTheWay(ctx, c);
    FlattenKeys(ctx, ns, now, p);
    if exists m :: m in ns && m.name == c[0] {
      var m :| m in ns && m.name == c[0];
      ThereIsOne(ns, m);
      FlattenOneKeys(ctx, m, now, p);
      if |c| == 1 {
        assert p == Child(ctx, m.name);
        assert Leads(ns, c, m);
      } else {
        var q := Child(ctx, m.name);
        ChildRel(ctx, m.name);
        TailPath(ctx, c);
        if m.DirNode? {
          FlattenIsDescription(q, m.children, now, c[1..], e);
        }
        forall n ensures Leads(ns, c, n) <==> m.DirNode? && Leads(m.children, c[1..], n) { }
      }
    } else {
      forall n | n in ns && Within(Child(ctx, n.name), p) ensures false {
        SiblingsApart(ctx, n.name, c[0], p);
      }
    }
  }

  lemma {:induction false} ThereIsOne(ns: seq<Node>, m: Node)
    requires DistinctNames(ns) && m in ns
    ensures forall n :: n in ns && n.name == m.name ==> n == m
  {
  }

  lemma {:induction false} HeadOnTheWay(ctx: string, c: Comps)
    requires ValidPath(ctx) && ValidComps(c) && c != []
    ensures Within(Child(ctx, c[0]), Child(ctx, Render(c)))
    ensures |c| == 1 ==> Child(ctx, Render(c)) == Child(ctx, c[0])
  {
    if |c| > 1 { TailPath(ctx, c); }
  }

  lemma {:induction false} TailPath(ctx: string, c: Comps)
    requires ValidPath(ctx) && ValidComps(c) && |c| > 1
    ensures Child(ctx, Render(c)) == Child(Child(ctx, c[0]), Render(c[1..]))
    ensures Under(Child(ctx, c[0]), Child(ctx, Render(c)))
  {
    assert c[0] in c;
    ChildRel(ctx, c[0]);
    assert Render(c) == c[0] + "/" + Join(c[1..]);
    if ctx != "." {
      assert ctx + "/" + (c[0] + "/" + Join(c[1..])) == (ctx + "/" + c[0]) + "/" + Join(c[1..]);
    }
  }

  /** NewMockFS on a description with distinct sibling names: besides the root it holds the
      described files, with their bytes and permission bits, and the described directories. */
  lemma {:induction false} BuilderYieldsDescription(ns: seq<Node>, now: int, c: Comps, e: Entry)
    requires ValidNames(ns) && DistinctNames(ns) && ValidComps(c) && c != []
    ensures var r := BuildAll(EmptyFs(now), ".", ns, now);
      && r.Some?
      && "." in r.value && r.value["."] == Entry(Mode(true, 0x1ED), [], now)
      && ((Render(c) in r.value && r.value[Render(c)] == e) <==>
          exists n :: Leads(ns, c, n) && match n
            case FileNode(_, data, m) => e == Entry(Mode(false, m.bits % 512), data, now)
            case DirNode(_, m, _) => e == Entry(Mode(true, m.bits % 512), [], now))
  {
    BuildIsFlatten(EmptyFs(now), ".", ns, now);
    FlattenIsDescription(".", ns, now, c, e);
    FlattenValid(".", ns, now);
    if "." in Flatten(".", ns, now) { RelNonEmpty("."); }
    RenderBijection(c, ".");
    assert Render(c) != ".";
  }

  lemma {:induction false} BuildAppend(t: Files, ctx: string, ns: seq<Node>, n: Node, now: int)
    ensures var r := BuildAll(t, ctx, ns, now);
      BuildAll(t, ctx, ns + [n], now) == if r.None? then None else BuildOne(r.value, ctx, n, now)
    decreases |ns|
  {
    if ns == [] {
      assert [] + [n] == [n] && [n][1..] == [];
      assert BuildOne(t, ctx, n, now).Some? ==> BuildAll(BuildOne(t, ctx, n, now).value, ctx, [], now).Some?;
    } else {
      assert (ns + [n])[1..] == ns[1..] + [n];
      var r := BuildOne(t, ctx, ns[0], now);
      if r.Some? { BuildAppend(r.value, ctx, ns[1..], n, now); }
    }
  }

  /** Of two options for one path the later one counts; what was put elsewhere stays. */
  lemma {:induction false} LaterOptionWins(
      t: Files, ctx: string, ns: seq<Node>, name: string, data: seq<byte>, m: Mode, now: int)
    requires ValidNames(ns) && ValidElem(name)
    ensures BuildAll(t, ctx, ns, now).Some?
    ensures BuildAll(t, ctx, ns + [FileNode(name, data, m)], now) ==
      Some(BuildAll(t, ctx, ns, now).value[Child(ctx, name) := Entry(Mode(false, m.bits % 512), data, now)])
  {
    BuildIsFlatten(t, ctx, ns, now);
    BuildAppend(t, ctx, ns, FileNode(name, data, m), now);
  }

  // ----- Listing it back -----

  predicate Describes(t: Files, ctx: string, ns: seq<Node>, now: int) {
    && ValidKeys(t) && ValidPath(ctx) && ValidNames(ns) && DistinctNames(ns)
    && (forall p :: p in t && Below(ctx, p) ==> p in Flatten(ctx, ns, now) && t[p] == Flatten(ctx, ns, now)[p])
    && (forall p :: p in Flatten(ctx, ns, now) ==> p in t)
  }

  ghost function Found(ns: seq<Node>, name: string): (n: Node)
    requires exists n :: n in ns && n.name == name
    ensures n in ns && n.name == name
  {
    var n :| n in ns && n.name == name;
    n
  }

  function NodeNames(ns: seq<Node>): set<string> {
    set n | n in ns :: n.name
  }

  /** The description with children sorted by name and permissions masked. */
  ghost function Normal(ns: seq<Node>): seq<Node>
    decreases ns
  {
    SortedIsSorted(NodeNames(ns));
    var names := Sorted(NodeNames(ns));
    assert forall i :: 0 <= i < |names| ==> names[i] in Elems(names);
    seq(|names|, i requires 0 <= i < |names| => NormalOne(ns, Found(ns, names[i])))
  }

  ghost function NormalOne(ns: seq<Node>, n: Node): Node
    requires n in ns
    decreases ns, 0
  {
    match n
    case FileNode(name, data, m) => FileNode(name, data, Mode(false, m.bits % 512))
    case DirNode(name, m, ch) => DirNode(name, Mode(true, m.bits % 512), Normal(ch))
  }

  function Inhabited(t: Files, d: string): set<string> {
    set p | p in t && Below(d, p)
  }

  lemma {:induction false} InhabitedShrinks(t: Files, d: string, n: string)
    requires ValidKeys(t) && ValidPath(d) && n in Listed(t, d)
    ensures ValidElem(n) && JoinName(d, n) == Child(d, n) && ValidPath(Child(d, n))
    ensures Inhabited(t, Child(d, n)) < Inhabited(t, d)
  {
    ListingNames(t, d);
    SortedIsSorted(Listed(t, d));
    ReadDirCanonical(t, d);
    assert n in Elems(Sorted(Listed(t, d)));
    ChildBelow(d, n);
    ChildRel(d, n);
    var c := Child(d, n);
    forall p | p in Inhabited(t, c) ensures p in Inhabited(t, d) {
      if d == "." {
        assert p != "." by { if p == "." { UnderRel(c, "."); RelNonEmpty("."); } }
      } else {
        UnderTransitive(d, c, p);
      }
    }
    assert c in Inhabited(t, d) && c !in Inhabited(t, c);
  }

  lemma {:induction false} EntriesListed(t: Files, d: string)
    ensures |DirListing(t, d)| == |Sorted(Listed(t, d))|
    ensures forall i :: 0 <= i < |DirListing(t, d)| ==>
      DirListing(t, d)[i].name == Sorted(Listed(t, d))[i] && DirListing(t, d)[i].name in Listed(t, d)
  {
    ListingNames(t, d);
    SortedIsSorted(Listed(t, d));
    var l, names := DirListing(t, d), Sorted(Listed(t, d));
    assert |NamesOf(l)| == |l|;
    forall i | 0 <= i < |l| ensures l[i].name == names[i] && names[i] in Listed(t, d) {
      assert NamesOf(l)[i] == names[i] && names[i] in Elems(names);
    }
  }

  /** Listing d, then listing what the listing calls directories and reading what it calls files,
      and so on. */
  ghost function Rebuild(t: Files, d: string): seq<Node>
    requires ValidKeys(t) && ValidPath(d)
    decreases Inhabited(t, d), 1
  {
    EntriesListed(t, d);
    var l := DirListing(t, d);
    seq(|l|, i requires 0 <= i < |l| => RebuildOne(t, d, l[i]))
  }

  ghost function RebuildOne(t: Files, d: string, e: FileInfo): Node
    requires ValidKeys(t) && ValidPath(d) && e.name in Listed(t, d)
    decreases Inhabited(t, d), 0
  {
    InhabitedShrinks(t, d, e.name);
    var p := Child(d, e.name);
    if e.mode.dir then DirNode(e.name, e.mode, Rebuild(t, p)) else FileNode(e.name, t[p].data, e.mode)
  }

  lemma {:induction false} DescribedNames(t: Files, d: string, ns: seq<Node>, now: int)
    requires Describes(t, d, ns, now)
    ensures Listed(t, d) == NodeNames(ns)
  {
    ReadDirCanonical(t, d);
    ListingNames(t, d);
    SortedIsSorted(Listed(t, d));
    forall s ensures s in Listed(t, d) <==> s in NodeNames(ns) {
      assert s in Listed(t, d) <==> s in Elems(Sorted(Listed(t, d)));
      if s in Listed(t, d) {
        ChildBelow(d, s);
        FlattenKeys(d, ns, now, Child(d, s));
        var n :| n in ns && Within(Child(d, n.name), Child(d, s));
        OnTheWayIsWithin(d, n.name, s);
        FirstSegUnique(n.name, s);
      }
      if s in NodeNames(ns) {
        var n :| n in ns && n.name == s;
        FlattenOneKeys(d, n, now, Child(d, s));
        FlattenKeys(d, ns, now, Child(d, s));
      }
    }
  }

  lemma {:induction false} DescribedChild(t: Files, d: string, ns: seq<Node>, now: int, n: Node)
    requires Describes(t, d, ns, now) && n in ns
    ensures var c := Child(d, n.name);
      c in t && t[c] == EntryOf(n, now) && (n.DirNode? ==> Describes(t, c, n.children, now))
  {
    var c := Child(d, n.name);
    ChildRel(d, n.name);
    ChildBelow(d, n.name);
    FlattenOneKeys(d, n, now, c);
    FlattenKeys(d, ns, now, c);
    if n.DirNode? {
      forall p | p in t && Below(c, p)
        ensures p in Flatten(c, n.children, now) && t[p] == Flatten(c, n.children, now)[p]
      {
        FlattenKeys(d, ns, now, p);
        FlattenOneKeys(d, n, now, p);
        if d == "." { UnderRel(c, p); RelNonEmpty(p); } else { UnderTransitive(d, c, p); }
      }
      forall p | p in Flatten(c, n.children, now) ensures p in t {
        FlattenKeys(d, ns, now, p);
        FlattenOneKeys(d, n, now, p);
        FlattenKeys(c, n.children, now, p);
        var m :| m in n.children && Within(Child(c, m.name), p);
        ChildBelow(c, m.name);
        if p != Child(c, m.name) { UnderTransitive(c, Child(c, m.name), p); }
      }
    }
  }

  lemma {:induction false} RebuildDescribed(t: Files, d: string, ns: seq<Node>, now: int)
    requires Describes(t, d, ns, now)
    ensures Rebuild(t, d) == Normal(ns)
    decreases ns, 2
  {
    DescribedNames(t, d, ns, now);
    EntriesListed(t, d);
    forall i | 0 <= i < |Normal(ns)| ensures Rebuild(t, d)[i] == Normal(ns)[i] { RebuildDescribedAt(t, d, ns, now, i); }
  }

  lemma {:induction false} RebuildDescribedAt(t: Files, d: string, ns: seq<Node>, now: int, i: nat)
    requires Describes(t, d, ns, now) && i < |Normal(ns)|
    ensures i < |Rebuild(t, d)| && Rebuild(t, d)[i] == Normal(ns)[i]
    decreases ns, 1
  {
    DescribedNames(t, d, ns, now);
    EntriesListed(t, d);
    RebuildDescribedOne(t, d, ns, now, Found(ns, Sorted(NodeNames(ns))[i]), i);
  }

  lemma {:induction false} RebuildDescribedOne(t: Files, d: string, ns: seq<Node>, now: int, n: Node, i: nat)
    requires Describes(t, d, ns, now) && n in ns && i < |DirListing(t, d)| && DirListing(t, d)[i].name == n.name
    requires n.name in Listed(t, d)
    ensures RebuildOne(t, d, DirListing(t, d)[i]) == NormalOne(ns, n)
    decreases ns, 0
  {
    DescribedChild(t, d, ns, now, n);
    EntriesAreChildren(t, d, i);
    assert ValidElem(n.name);
    if n.DirNode? {
      RebuildDescribed(t, Child(d, n.name), n.children, now);
    }
  }

  /** Building a description and listing the result recursively from the root gives the
      description back, children sorted by name. */
  lemma {:induction false} BuildThenList(ns: seq<Node>, now: int)
    requires ValidNames(ns) && DistinctNames(ns)
    ensures var r := BuildAll(EmptyFs(now), ".", ns, now);
      r.Some? && ValidKeys(r.value) && Rebuild(r.value, ".") == Normal(ns)
  {
    BuildIsFlatten(EmptyFs(now), ".", ns, now);
    var t := BuildAll(EmptyFs(now), ".", ns, now).value;
    FlattenValid(".", ns, now);
    assert Describes(t, ".", ns, now);
    RebuildDescribed(t, ".", ns, now);
  }

  lemma {:induction false} FlattenValid(ctx: string, ns: seq<Node>, now: int)
    requires ValidPath(ctx) && ValidNames(ns)
    ensures forall p :: p in Flatten(ctx, ns, now) ==> IsRel(p)
    decreases ns, 0
  {
    if ns != [] {
      assert ns[0] in ns;
      FlattenValidOne(ctx, ns[0], now);
      FlattenValid(ctx, ns[1..], now);
    }
  }

  lemma {:induction false} FlattenValidOne(ctx: string, n: Node, now: int)
    requires ValidPath(ctx) && ValidElem(n.name) && (n.DirNode? ==> ValidNames(n.children))
    ensures forall p :: p in FlattenOne(ctx, n, now) ==> IsRel(p)
    decreases n, 1
  {
    ChildRel(ctx, n.name);
    if n.DirNode? { FlattenValid(Child(ctx, n.name), n.children, now); }
  }
}
