/** Path matchers and their re-rooting for sub-filesystems. Regular expressions and
    glob patterns are arbitrary predicates on strings. */
module Matchers {
  import opened Paths

  datatype Matcher =
    | Exact(path: string)
    | Regexp(re: string -> bool)
    | RegexpParent(re: string -> bool, prefix: string)
    | Glob(glob: string -> bool)
    | GlobParent(glob: string -> bool, prefix: string)
    | Wildcard
    | Never

  /** The parent path that a re-rooted matcher assembles for a candidate. */
  function Assemble(prefix: string, s: string): string {
    if s == "." || s == "" then prefix else prefix + "/" + s
  }

  predicate Matches(m: Matcher, s: string) {
    match m
    case Exact(p) => s == p
    case Regexp(re) => re(s)
    case RegexpParent(re, prefix) => re(Assemble(prefix, s))
    case Glob(g) => g(s)
    case GlobParent(g, prefix) => g(Assemble(prefix, s))
    case Wildcard => true
    case Never => false
  }

  function TrimSlash(p: string): string {
    if p != "" && p[|p|-1] == '/' then p[..|p|-1] else p
  }

  /** CloneForSub of each kind of matcher. */
  function Clone(m: Matcher, prefix: string): Matcher {
    var trimmed := TrimSlash(prefix);
    match m
    case Exact(p) =>
      if prefix == "" || prefix == "." then Exact(p)
      else if p == trimmed then Exact(".")
      else if trimmed + "/" <= p then Exact(p[|trimmed| + 1..])
      else Never
    case Regexp(re) =>
      if prefix == "" || prefix == "." then m else RegexpParent(re, prefix)
    case RegexpParent(re, own) =>
      if trimmed == "" || trimmed == "." then m else RegexpParent(re, own + "/" + trimmed)
    case Glob(g) =>
      if prefix == "" || prefix == "." then m else GlobParent(g, prefix)
    case GlobParent(g, own) =>
      if trimmed == "" || trimmed == "." then m else GlobParent(g, own + "/" + trimmed)
    case Wildcard => m
    case Never => m
  }

  lemma {:induction false} TrimValid(a: string)
    requires IsRel(a)
    ensures TrimSlash(a) == a && a != "" && a != "."
  {
    RelNonEmpty(a);
    if a[|a|-1] == '/' {
      assert a == a[..|a|-1] + "/" + "";
      RelConcat(a[..|a|-1], "");
      RelNonEmpty("");
    }
  }

  lemma {:induction false} CloneAt(m: Matcher, a: string, s: string)
    requires IsRel(a) && ValidPath(s)
    requires m.Exact? ==> m.path != a + "/."
    ensures Matches(Clone(m, a), s) <==> Matches(m, Inside(a, s))
  {
    TrimValid(a);
    if s != "." { RelNonEmpty(s); }
    InsideValid(a, s);
    RelNonEmpty(Inside(a, s));
    match m
    case Exact(p) =>
      if a + "/" <= p {
        assert p == a + "/" + p[|a| + 1..];
      }
      if s != "." && p == a + "/" + s {
        assert p[|a| + 1..] == s;
      }
    case RegexpParent(re, own) => AssembleNested(own, a, s);
    case GlobParent(g, own) => AssembleNested(own, a, s);
    case _ =>
  }

  lemma {:induction false} AssembleNested(own: string, a: string, s: string)
    requires IsRel(a) && ValidPath(s)
    ensures Assemble(own + "/" + a, s) == Assemble(own, Inside(a, s))
  {
    RelNonEmpty(a);
    if s != "." {
      RelNonEmpty(s);
      InsideValid(a, s);
      RelNonEmpty(Inside(a, s));
      assert (own + "/" + a) + "/" + s == own + "/" + (a + "/" + s);
    }
  }

  /** Re-rooting is exact: the clone for a matches s exactly when the original matches
      a/s, or a itself for ".". The one exception is a stored exact path "a/.", which
      no valid path equals. */
  lemma {:induction false} CloneExactIff(m: Matcher, a: string)
    requires IsRel(a)
    ensures (forall s :: ValidPath(s) ==> (Matches(Clone(m, a), s) <==> Matches(m, Inside(a, s))))
            <==> !(m.Exact? && m.path == a + "/.")
  {
    if m.Exact? && m.path == a + "/." {
      TrimValid(a);
      assert m.path[|a| + 1..] == ".";
      assert ValidPath(".") && Matches(Clone(m, a), ".") && !Matches(m, Inside(a, "."));
    } else {
      forall s | ValidPath(s) ensures Matches(Clone(m, a), s) <==> Matches(m, Inside(a, s)) {
        CloneAt(m, a, s);
      }
    }
  }

  /** Re-rooting composes, matcher for matcher. */
  lemma {:induction false} CloneComposes(m: Matcher, a: string, b: string)
    requires IsRel(a) && IsRel(b)
    ensures Clone(Clone(m, a), b) == Clone(m, a + "/" + b)
  {
    var c := a + "/" + b;
    RelConcat(a, b);
    TrimValid(a);
    TrimValid(b);
    TrimValid(c);
    match m
    case Exact(p) =>
      if p == a {
        assert |c| > |a|;
        assert !(b + "/" <= ".");
      } else if a + "/" <= p {
        var r := p[|a| + 1..];
        assert p == a + "/" + r;
        assert c + "/" == (a + "/") + (b + "/");
        PrefixCancel(a + "/", b + "/", r);
        assert c == p <==> b == r by { if c == p { assert r == c[|a| + 1..] == b; } }
        if b + "/" <= r {
          assert p[|c| + 1..] == r[|b| + 1..];
        }
      } else {
        assert a + "/" <= c && a + "/" <= c + "/";
      }
    case RegexpParent(re, own) =>
      assert (own + "/" + a) + "/" + b == own + "/" + c;
    case GlobParent(g, own) =>
      assert (own + "/" + a) + "/" + b == own + "/" + c;
    case _ =>
  }
}
