/** The order of strings.Compare, and the sorted sequence of a set of strings. */
module Order {

  predicate Less(a: string, b: string) {
    if b == "" then false
    else if a == "" then true
    else a[0] < b[0] || (a[0] == b[0] && Less(a[1..], b[1..]))
  }

  predicate Increasing(s: seq<string>) {
    forall i, j :: 0 <= i < j < |s| ==> Less(s[i], s[j])
  }

  /** The first place where they differ decides; a proper prefix comes first. */
  predicate DiffersAt(a: string, b: string, k: nat) {
    k <= |a| && k < |b| && a[..k] == b[..k] && (k < |a| ==> a[k] < b[k])
  }

  lemma {:induction false} LessIsLexicographic(a: string, b: string)
    ensures Less(a, b) <==> exists k: nat :: DiffersAt(a, b, k)
  {
    forall k: nat | DiffersAt(a, b, k) && k > 0 ensures a != "" && b != "" && a[0] == b[0] {
      assert a[..k][0] == b[..k][0];
    }
    if a == "" || b == "" || a[0] != b[0] {
      if Less(a, b) { assert DiffersAt(a, b, 0); }
    } else {
      LessIsLexicographic(a[1..], b[1..]);
      forall k: nat | DiffersAt(a, b, k) ensures Less(a, b) {
        assert a[1..][..k-1] == a[..k][1..] && b[1..][..k-1] == b[..k][1..];
        assert DiffersAt(a[1..], b[1..], k - 1);
      }
      forall k: nat | DiffersAt(a[1..], b[1..], k) ensures DiffersAt(a, b, k + 1) {
        assert a[..k+1] == [a[0]] + a[1..][..k] && b[..k+1] == [b[0]] + b[1..][..k];
      }
    }
  }

  lemma {:induction false} LessIrreflexive(a: string)
    ensures !Less(a, a)
  {
    if a != "" { LessIrreflexive(a[1..]); }
  }

  lemma {:induction false} LessTransitive(a: string, b: string, c: string)
    requires Less(a, b) && Less(b, c)
    ensures Less(a, c)
  {
    if a != "" && a[0] == b[0] && b[0] == c[0] {
      LessTransitive(a[1..], b[1..], c[1..]);
    }
  }

  lemma {:induction false} LessTotal(a: string, b: string)
    ensures a == b || Less(a, b) || Less(b, a)
  {
    if a != "" && b != "" && a[0] == b[0] {
      LessTotal(a[1..], b[1..]);
      assert a == [a[0]] + a[1..] && b == [b[0]] + b[1..];
    }
  }

  predicate IsLeast(x: string, s: set<string>) {
    x in s && forall y :: y in s ==> y == x || Less(x, y)
  }

  lemma {:induction false} LeastExists(s: set<string>) returns (x: string)
    requires s != {}
    ensures IsLeast(x, s)
  {
    x :| x in s;
    if s != {x} {
      var z := LeastExists(s - {x});
      LessTotal(x, z);
      if Less(z, x) {
        x := z;
      } else {
        forall y | y in s ensures y == x || Less(x, y) {
          if y != x && y != z { LessTransitive(x, z, y); }
        }
      }
    }
  }

  lemma {:induction false} LeastUnique(x: string, y: string, s: set<string>)
    requires IsLeast(x, s) && IsLeast(y, s)
    ensures x == y
  {
    if x != y {
      LessTransitive(x, y, x);
      LessIrreflexive(x);
    }
  }

  ghost function Least(s: set<string>): (x: string)
    requires s != {}
    ensures IsLeast(x, s)
  {
    assert exists x :: IsLeast(x, s) by { var x := LeastExists(s); }
    var x :| IsLeast(x, s);
    x
  }

  ghost function Sorted(s: set<string>): seq<string>
    decreases |s|
  {
    if s == {} then [] else [Least(s)] + Sorted(s - {Least(s)})
  }

  function Elems(q: seq<string>): set<string> {
    set i | 0 <= i < |q| :: q[i]
  }

  lemma {:induction false} SortedIsSorted(s: set<string>)
    ensures Increasing(Sorted(s)) && Elems(Sorted(s)) == s && |Sorted(s)| == |s|
    decreases |s|
  {
    if s != {} {
      var x := Least(s);
      var r := Sorted(s - {x});
      SortedIsSorted(s - {x});
      forall i | 0 <= i < |r| ensures Less(x, r[i]) {
        assert r[i] in Elems(r);
      }
      assert Sorted(s) == [x] + r;
      forall y ensures y in Elems([x] + r) <==> y in s {
        if y in Elems(r) {
          var i :| 0 <= i < |r| && r[i] == y;
          assert ([x] + r)[i + 1] == y;
        }
        if y == x { assert ([x] + r)[0] == y; }
      }
    }
  }

  /** There is only one strictly increasing arrangement of a set. */
  lemma {:induction false} SortedUnique(q: seq<string>)
    requires Increasing(q)
    ensures q == Sorted(Elems(q))
    decreases |q|
  {
    if q == [] {
      assert Elems(q) == {};
    } else {
      var s := Elems(q);
      assert q[0] in s;
      forall y | y in s ensures y == q[0] || Less(q[0], y) { }
      LeastUnique(q[0], Least(s), s);
      forall i | 1 <= i < |q| ensures q[i] != q[0] { LessIrreflexive(q[0]); }
      assert Elems(q[1..]) == s - {q[0]} by {
        forall y | y in s - {q[0]} ensures y in Elems(q[1..]) {
          var i :| 0 <= i < |q| && q[i] == y;
          assert q[1..][i - 1] == y;
        }
      }
      SortedUnique(q[1..]);
    }
  }
}
