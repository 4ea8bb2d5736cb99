/** Slash-separated paths: the strings the filesystem uses as map keys, and the
    component lists they stand for. */
module Paths {

  // ----- Splitting and joining -----

  /** The '/'-separated elements of s; never empty. */
  function Split(s: string): (r: seq<string>)
    ensures |r| >= 1
  {
    if s == [] then [""]
    else if s[0] == '/' then [""] + Split(s[1..])
    else
      var r := Split(s[1..]);
      [[s[0]] + r[0]] + r[1..]
  }

  function Join(parts: seq<string>): string
    requires |parts| >= 1
  {
    if |parts| == 1 then parts[0] else parts[0] + "/" + Join(parts[1..])
  }

  predicate ValidElem(e: string) {
    e != "" && e != "." && e != ".." && '/' !in e
  }

  /** A path that names something strictly below the root. */
  predicate IsRel(s: string) {
    forall e :: e in Split(s) ==> ValidElem(e)
  }

  /** fs.ValidPath; every Dafny string is well-formed text. */
  predicate ValidPath(s: string) {
    s == "." || IsRel(s)
  }

  /** The test strings.HasPrefix(p, d+"/") used for "p is a descendant of d". */
  predicate Under(d: string, p: string) {
    d + "/" <= p
  }

  predicate Within(d: string, p: string) {
    p == d || Under(d, p)
  }

  /** Neither path is the other or lies below it. */
  predicate Incomparable(a: string, b: string) {
    !Within(a, b) && !Within(b, a)
  }

  /** The path that a sub-filesystem rooted at d calls x. */
  function Inside(d: string, x: string): string {
    if x == "." then d else d + "/" + x
  }

  /** The key under which ReadDir looks for the child n of directory d. */
  function Child(d: string, n: string): string {
    if d == "." then n else d + "/" + n
  }

  function LastSlash(s: string): (k: int)
    ensures -1 <= k < |s|
    ensures k >= 0 ==> s[k] == '/'
    ensures forall j :: k < j < |s| ==> s[j] != '/'
  {
    if s == [] then -1
    else if s[|s|-1] == '/' then |s| - 1
    else LastSlash(s[..|s|-1])
  }

  /** path.Dir on a valid path. */
  function Dir(s: string): string {
    var k := LastSlash(s);
    if k < 0 then "." else s[..k]
  }

  function Base(s: string): string {
    s[LastSlash(s) + 1..]
  }

  /** strings.Cut(s, "/"): the part before the first slash. */
  function FirstSeg(s: string): (r: string)
    ensures '/' !in r
    ensures r == s || r + "/" <= s
  {
    if s == [] || s[0] == '/' then ""
    else [s[0]] + FirstSeg(s[1..])
  }

  // ----- Facts about splitting -----

  /** What one more leading character does to the elements. */
  function Grow(c: char, r: seq<string>): seq<string>
    requires |r| >= 1
  {
    if c == '/' then [""] + r else [[c] + r[0]] + r[1..]
  }

  lemma {:induction false} SplitStep(c: char, s: string)
    ensures Split([c] + s) == Grow(c, Split(s))
  {
    assert ([c] + s)[1..] == s;
  }

  lemma {:induction false} SplitConcat(a: string, b: string)
    ensures Split(a + "/" + b) == Split(a) + Split(b)
  {
    if a == [] {
      SplitStep('/', b);
      assert a + "/" + b == ['/'] + b;
    } else {
      var c, t := a[0], a[1..];
      SplitConcat(t, b);
      assert a == [c] + t;
      assert a + "/" + b == [c] + (t + "/" + b);
      SplitStep(c, t + "/" + b);
      SplitStep(c, t);
      GrowConcat(c, Split(t), Split(b));
    }
  }

  lemma {:induction false} GrowConcat(c: char, l: seq<string>, r: seq<string>)
    requires |l| >= 1
    ensures Grow(c, l + r) == Grow(c, l) + r
  {
    if c != '/' {
      assert (l + r)[1..] == l[1..] + r;
    }
  }

  lemma {:induction false} SplitNoSlash(s: string)
    requires '/' !in s
    ensures Split(s) == [s]
  {
    if s != [] {
      SplitNoSlash(s[1..]);
      assert s == [s[0]] + s[1..];
    }
  }

  lemma {:induction false} JoinSplit(s: string)
    ensures Join(Split(s)) == s
  {
    if s != [] {
      JoinSplit(s[1..]);
      var r := Split(s[1..]);
      assert s == [s[0]] + s[1..];
      if s[0] == '/' {
        assert ([""] + r)[1..] == r;
      } else {
        assert ([[s[0]] + r[0]] + r[1..])[1..] == r[1..];
      }
    }
  }

  lemma {:induction false} SplitJoin(parts: seq<string>)
    requires |parts| >= 1
    requires forall e :: e in parts ==> '/' !in e
    ensures Split(Join(parts)) == parts
  {
    SplitNoSlash(parts[0]);
    if |parts| > 1 {
      SplitJoin(parts[1..]);
      SplitConcat(parts[0], Join(parts[1..]));
    }
  }

  lemma {:induction false} JoinConcat(a: seq<string>, b: seq<string>)
    requires |a| >= 1 && |b| >= 1
    ensures Join(a + b) == Join(a) + "/" + Join(b)
  {
    if |a| == 1 {
      assert (a + b)[1..] == b;
    } else {
      JoinConcat(a[1..], b);
      assert (a + b)[1..] == a[1..] + b;
    }
  }

  /** A string with a slash in it is a proper path exactly when both sides are. */
  lemma {:induction false} RelConcat(a: string, b: string)
    ensures IsRel(a + "/" + b) <==> IsRel(a) && IsRel(b)
  {
    SplitConcat(a, b);
    var l, r := Split(a), Split(b);
    assert forall e :: e in l + r <==> e in l || e in r;
  }

  lemma {:induction false} RelElem(n: string)
    requires '/' !in n
    ensures IsRel(n) <==> ValidElem(n)
  {
    SplitNoSlash(n);
  }

  lemma {:induction false} RelNonEmpty(s: string)
    requires IsRel(s)
    ensures s != "" && s != "." && s[0] != '/'
  {
    SplitNoSlash(".");
    assert Split(s)[0] in Split(s);
  }

  // ----- Component lists -----

  type Comps = seq<string>

  predicate ValidComps(c: Comps) {
    forall e :: e in c ==> ValidElem(e)
  }

  function Render(c: Comps): string {
    if c == [] then "." else Join(c)
  }

  function Components(s: string): Comps {
    if s == "." then [] else Split(s)
  }

  /** Valid path strings and component lists are in bijection. */
  lemma {:induction false} RenderBijection(c: Comps, s: string)
    ensures ValidComps(c) ==> ValidPath(Render(c)) && Components(Render(c)) == c
    ensures ValidPath(s) ==> ValidComps(Components(s)) && Render(Components(s)) == s
  {
    if ValidComps(c) && c != [] {
      SplitJoin(c);
      RelNonEmpty(Join(c));
    }
    JoinSplit(s);
  }

  /** The string test for "descendant" is the proper-ancestor relation on component
      lists, except that nothing is ever found below the root by it. */
  lemma {:induction false} UnderIsProperAncestor(d: Comps, p: Comps)
    requires ValidComps(d) && ValidComps(p)
    ensures Under(Render(d), Render(p)) <==> d != [] && d < p
  {
    RenderBijection(d, ".");
    RenderBijection(p, ".");
    if Under(Render(d), Render(p)) {
      var rest := Render(p)[|Render(d)| + 1..];
      assert Render(p) == Render(d) + "/" + rest;
      SplitConcat(Render(d), rest);
      assert Render(p) != "." && IsRel(Render(p));
      RelConcat(Render(d), rest);
      RelNonEmpty(Render(d));
    } else if d != [] && d < p {
      assert p == d + p[|d|..];
      JoinConcat(d, p[|d|..]);
    }
  }

  /** path.Dir removes the last component. */
  lemma {:induction false} DirDropsLast(c: Comps)
    requires ValidComps(c) && c != []
    ensures Dir(Render(c)) == Render(c[..|c|-1])
    ensures Base(Render(c)) == c[|c|-1]
  {
    var l := c[|c|-1];
    assert l in c && ValidElem(l);
    if |c| == 1 {
      assert Render(c) == l;
      NoSlashNoDir(l);
    } else {
      assert c == c[..|c|-1] + [l];
      JoinConcat(c[..|c|-1], [l]);
      DirOfChild(Render(c[..|c|-1]), l);
    }
  }

  // ----- Facts about strings, used by the filesystem proofs -----

  lemma {:induction false} LastSlashIs(s: string, k: int)
    requires -1 <= k < |s|
    requires k >= 0 ==> s[k] == '/'
    requires forall j :: k < j < |s| ==> s[j] != '/'
    ensures LastSlash(s) == k
  {
  }

  lemma {:induction false} NoSlashNoDir(s: string)
    requires '/' !in s
    ensures LastSlash(s) == -1
  {
    LastSlashIs(s, -1);
  }

  lemma {:induction false} PrefixCancel(p: string, a: string, b: string)
    ensures p + a <= p + b <==> a <= b
  {
    if a <= b {
      assert p + b == p + a + b[|a|..];
    }
    if p + a <= p + b {
      assert b == (p + b)[|p|..];
      assert p + a == (p + b)[..|p| + |a|];
      assert a == b[..|a|];
    }
  }

  lemma {:induction false} DirOfChild(d: string, n: string)
    requires '/' !in n
    ensures Dir(d + "/" + n) == d
    ensures Base(d + "/" + n) == n
  {
    var s := d + "/" + n;
    assert s[|d|] == '/';
    assert forall j :: |d| < j < |s| ==> s[j] == n[j - |d| - 1];
    LastSlashIs(s, |d|);
  }

  lemma {:induction false} UnderTransitive(a: string, b: string, c: string)
    requires Under(a, b) && Under(b, c)
    ensures Under(a, c)
  {
    assert b <= c;
    assert a + "/" <= c;
  }

  /** A proper ancestor of p is p's parent or a proper ancestor of p's parent. */
  lemma {:induction false} UnderDir(d: string, p: string)
    requires Under(d, p)
    ensures LastSlash(p) >= |d| && Dir(p) == p[..LastSlash(p)]
    ensures Within(d, Dir(p))
  {
    assert p[|d|] == '/';
    var k := LastSlash(p);
    assert k >= |d|;
    if k > |d| {
      assert d + "/" <= p[..k];
    } else {
      assert p[..k] == d;
    }
  }

  /** Conversely, whatever lies above the parent lies above the path. */
  lemma {:induction false} DirUnder(d: string, p: string)
    requires IsRel(p) && Dir(p) != "."
    requires Within(d, Dir(p))
    ensures Under(d, p)
  {
    assert Dir(p) + "/" <= p;
    if d != Dir(p) {
      UnderTransitive(d, Dir(p), p);
    }
  }

  lemma {:induction false} UnderRel(d: string, p: string)
    requires Under(d, p) && ValidPath(p)
    ensures IsRel(p) && IsRel(d) && d != "." && IsRel(p[|d| + 1..])
    ensures p == d + "/" + p[|d| + 1..]
    ensures Dir(p) != "."
  {
    var rest := p[|d| + 1..];
    assert p == d + "/" + rest;
    assert p[|d|] == '/';
    RelConcat(d, rest);
    RelNonEmpty(d);
    UnderDir(d, p);
    DirNotRoot(p);
  }

  lemma {:induction false} DirValid(p: string)
    requires IsRel(p) && Dir(p) != "."
    ensures IsRel(Dir(p)) && Under(Dir(p), p) && |Dir(p)| < |p|
    ensures p == Dir(p) + "/" + Base(p) && ValidElem(Base(p))
  {
    var k := LastSlash(p);
    assert p == p[..k] + "/" + p[k + 1..];
    RelConcat(p[..k], p[k + 1..]);
    RelElem(p[k + 1..]);
  }

  lemma {:induction false} InsideValid(d: string, x: string)
    requires IsRel(d)
    ensures x != "." ==> (ValidPath(Inside(d, x)) <==> ValidPath(x))
    ensures ValidPath(x) ==> ValidPath(Inside(d, x)) && Within(d, Inside(d, x))
  {
    RelConcat(d, x);
    RelNonEmpty(d);
    assert |d + "/" + x| == |d| + 1 + |x|;
  }

  /** A path with a slash does not have the root as its parent. */
  lemma {:induction false} DirNotRoot(x: string)
    requires IsRel(x) && LastSlash(x) >= 0
    ensures Dir(x) != "."
  {
    var k := LastSlash(x);
    assert x == x[..k] + "/" + x[k + 1..];
    RelConcat(x[..k], x[k + 1..]);
    RelNonEmpty(x[..k]);
  }

  lemma {:induction false} DirInside(d: string, x: string)
    requires IsRel(d) && IsRel(x)
    ensures Dir(Inside(d, x)) == Inside(d, Dir(x))
    ensures Base(Inside(d, x)) == Base(x)
  {
    RelNonEmpty(x);
    var k := LastSlash(x);
    if k < 0 {
      assert '/' !in x;
      DirOfChild(d, x);
    } else {
      DirNotRoot(x);
      var a, b := x[..k], x[k + 1..];
      assert x == a + "/" + b;
      assert '/' !in b;
      assert d + "/" + x == (d + "/" + a) + "/" + b;
      DirOfChild(d + "/" + a, b);
    }
  }

  lemma {:induction false} UnderInside(d: string, x: string, y: string)
    requires x != "." && y != "."
    ensures Under(Inside(d, x), Inside(d, y)) <==> Under(x, y)
  {
    var p := d + "/";
    assert Inside(d, x) + "/" == p + (x + "/");
    assert Inside(d, y) == p + y;
    PrefixCancel(p, x + "/", y);
  }

  /** The first segment below d of a path under d is the child of d on the way to it. */
  lemma {:induction false} FirstSegWithin(s: string)
    requires IsRel(s)
    ensures ValidElem(FirstSeg(s)) && Within(FirstSeg(s), s)
  {
    var f := FirstSeg(s);
    if f != s {
      var rest := s[|f| + 1..];
      assert s == f + "/" + rest;
      RelConcat(f, rest);
    }
    RelElem(f);
  }

  lemma {:induction false} FirstSegUnique(n: string, s: string)
    requires '/' !in n && Within(n, s)
    ensures FirstSeg(s) == n
  {
    if n == "" {
    } else {
      assert s[0] == n[0];
      assert s == [s[0]] + s[1..];
      if s == n {
        assert s[1..] == n[1..];
      } else {
        assert n[1..] + "/" == (n + "/")[1..];
        assert n[1..] + "/" <= s[1..];
      }
      FirstSegUnique(n[1..], s[1..]);
      assert n == [n[0]] + n[1..];
    }
  }
}
