/** Renaming a directory in a sub-filesystem and in its parent: whatever order the one's loop
    takes, the other's can take one that ends alike. */
module SubOrders {
  import opened Common
  import opened Paths
  import opened Files
  import opened SubFs
  import R = Rename
  import RO = RenameOrders

  /** A key of the parent that the sub-filesystem has as x. */
  predicate Seen(d: string, q: string) {
    Under(d, q) && Strip(d, q) != "."
  }

  lemma {:induction false} SeenIs(d: string)
    ensures forall q :: Seen(d, q) ==> q == Inside(d, Strip(d, q))
    ensures forall x :: x != "." ==> Seen(d, Inside(d, x)) && Strip(d, Inside(d, x)) == x
  {
    StripInverse(d);
  }

  ghost predicate SameKeys(p: set<string>, s: set<string>, d: string) {
    forall x :: x != "." ==> (x in s <==> Inside(d, x) in p)
  }

  /** The two loops stand at the same place; the keys that the sub-filesystem does not see are
      passed over. */
  ghost predicate LoopsAgree(p: RO.Loop, s: RO.Loop, d: string) {
    && Rerooted(p.files, s.files, d) && SameKeys(p.pending, s.pending, d) && SameKeys(p.extra, s.extra, d)
    && "." !in s.extra && forall q :: q in p.extra ==> Seen(d, q)
  }

  lemma {:induction false} UnseenPassed(d: string, x: string, q: string)
    requires IsRel(x)
    ensures Under(Inside(d, x), q) ==> Seen(d, q)
  {
    if Under(Inside(d, x), q) { InsideOfUnder(d, x, q); }
  }

  lemma {:induction false} RootPassed(x: string)
    requires IsRel(x)
    ensures !Under(x, ".")
  {
    RelNonEmpty(x);
  }

  /** The new names correspond. */
  lemma {:induction false} NewNames(d: string, x: string, to: string, y: string)
    requires IsRel(x) && IsRel(to) && y != "." && Under(x, y)
    ensures Under(Inside(d, x), Inside(d, y))
    ensures Rebase(x, to, y) != "." && Rebase(Inside(d, x), Inside(d, to), Inside(d, y)) == Inside(d, Rebase(x, to, y))
  {
    RelNonEmpty(x);
    RelNonEmpty(to);
    UnderInside(d, x, y);
    RebaseInsideBoth(d, to, x, y);
  }

  lemma {:induction false} MinusAgrees(p: Files, s: Files, d: string, y: string)
    requires Rerooted(p, s, d) && y != "."
    ensures Rerooted(p - {Inside(d, y)}, s - {y}, d) && SameOutside(p, p - {Inside(d, y)}, d)
  {
    forall z | z != "." ensures Inside(d, z) == Inside(d, y) <==> z == y { InsideInjective(d, z, y); }
    InsideInjective(d, y, y);
  }

  lemma {:induction false} KeysMinus(p: set<string>, s: set<string>, d: string, y: string)
    requires SameKeys(p, s, d) && y != "."
    ensures SameKeys(p - {Inside(d, y)}, s - {y}, d)
  {
    forall z | z != "." ensures Inside(d, z) == Inside(d, y) <==> z == y { InsideInjective(d, z, y); }
  }

  lemma {:induction false} KeysPlus(p: set<string>, s: set<string>, d: string, y: string)
    requires SameKeys(p, s, d) && y != "."
    ensures SameKeys(p + {Inside(d, y)}, s + {y}, d)
  {
    forall z | z != "." ensures Inside(d, z) == Inside(d, y) <==> z == y { InsideInjective(d, z, y); }
  }

  lemma {:induction false} OutsideTwice(p: Files, q: Files, r: Files, d: string)
    requires SameOutside(p, q, d) && SameOutside(q, r, d)
    ensures SameOutside(p, r, d)
  {
  }

  // ----- One visit -----

  lemma {:induction false} FilesMove(p: Files, s: Files, d: string, y: string, n: string)
    requires Rerooted(p, s, d) && y != "." && n != "." && y in s
    ensures var q, m := Inside(d, y), Inside(d, n);
      && q in p && p[q] == s[y] && (n in s <==> m in p)
      && Rerooted(p[m := p[q]] - {q}, s[n := s[y]] - {y}, d) && SameOutside(p, p[m := p[q]] - {q}, d)
  {
    var q, m := Inside(d, y), Inside(d, n);
    PutAgrees(p, s, d, n, s[y]);
    MinusAgrees(p[m := s[y]], s[n := s[y]], d, y);
    OutsideTwice(p, p[m := s[y]], p[m := s[y]] - {q}, d);
  }

  lemma {:induction false} KeysMove(p: set<string>, s: set<string>, d: string, y: string, n: string, present: bool)
    requires SameKeys(p, s, d) && y != "." && n != "." && "." !in s && forall q :: q in p ==> Seen(d, q)
    ensures var p' := p - {Inside(d, y)} + if present then {} else {Inside(d, n)};
      var s' := s - {y} + if present then {} else {n};
      SameKeys(p', s', d) && "." !in s' && forall q :: q in p' ==> Seen(d, q)
  {
    KeysMinus(p, s, d, y);
    SeenIs(d);
    if !present { KeysPlus(p - {Inside(d, y)}, s - {y}, d, n); }
  }

  lemma {:induction false} Moves(s: RO.Loop, from: string, to: string, q: string)
    requires q in s.pending + s.extra && Under(from, q) && q in s.files
    ensures var n := Rebase(from, to, q);
      RO.Visit(s, from, to, q) == RO.Loop(s.files[n := s.files[q]] - {q}, s.pending - {q},
                                          s.extra - {q} + if n in s.files then {} else {n})
  {
  }

  /** Both move y. */
  lemma {:induction false} BothMove(p: RO.Loop, s: RO.Loop, d: string, x: string, to: string, y: string)
    requires LoopsAgree(p, s, d) && IsRel(x) && IsRel(to) && y != "." && y in s.pending + s.extra && y in s.files
    requires Under(x, y)
    ensures var q := Inside(d, y);
      q in p.pending + p.extra
      && LoopsAgree(RO.Visit(p, Inside(d, x), Inside(d, to), q), RO.Visit(s, x, to, y), d)
      && SameOutside(p.files, RO.Visit(p, Inside(d, x), Inside(d, to), q).files, d)
  {
    var n, q := Rebase(x, to, y), Inside(d, y);
    NewNames(d, x, to, y);
    FilesMove(p.files, s.files, d, y, n);
    KeysMinus(p.pending, s.pending, d, y);
    KeysMove(p.extra, s.extra, d, y, n, n in s.files);
    Moves(p, Inside(d, x), Inside(d, to), q);
    Moves(s, x, to, y);
  }

  /** Both pass over y. */
  lemma {:induction false} BothPass(p: RO.Loop, s: RO.Loop, d: string, x: string, to: string, y: string)
    requires LoopsAgree(p, s, d) && IsRel(x) && y != "." && y in s.pending + s.extra
    requires !Under(x, y) || y !in s.files
    ensures var q := Inside(d, y);
      q in p.pending + p.extra
      && LoopsAgree(RO.Visit(p, Inside(d, x), Inside(d, to), q), RO.Visit(s, x, to, y), d)
      && RO.Visit(p, Inside(d, x), Inside(d, to), q).files == p.files
  {
    RelNonEmpty(x);
    UnderInside(d, x, y);
    KeysMinus(p.pending, s.pending, d, y);
    KeysMinus(p.extra, s.extra, d, y);
  }

  lemma {:induction false} BothVisit(p: RO.Loop, s: RO.Loop, d: string, x: string, to: string, y: string)
    requires LoopsAgree(p, s, d) && IsRel(x) && IsRel(to) && y != "." && y in s.pending + s.extra
    ensures var q := Inside(d, y);
      q in p.pending + p.extra
      && LoopsAgree(RO.Visit(p, Inside(d, x), Inside(d, to), q), RO.Visit(s, x, to, y), d)
      && SameOutside(p.files, RO.Visit(p, Inside(d, x), Inside(d, to), q).files, d)
  {
    if Under(x, y) && y in s.files { BothMove(p, s, d, x, to, y); } else { BothPass(p, s, d, x, to, y); }
  }

  /** The sub-filesystem passes over its root. */
  lemma {:induction false} SubPasses(p: RO.Loop, s: RO.Loop, d: string, x: string, to: string)
    requires LoopsAgree(p, s, d) && IsRel(x) && "." in s.pending
    ensures LoopsAgree(p, RO.Visit(s, x, to, "."), d)
  {
    RootPassed(x);
  }

  /** The parent passes over a key that the sub-filesystem does not see. */
  lemma {:induction false} ParentPasses(p: RO.Loop, s: RO.Loop, d: string, x: string, to: string, q: string)
    requires LoopsAgree(p, s, d) && IsRel(x) && q in p.pending && !Seen(d, q)
    ensures LoopsAgree(RO.Visit(p, Inside(d, x), Inside(d, to), q), s, d)
    ensures RO.Visit(p, Inside(d, x), Inside(d, to), q) == RO.Loop(p.files, p.pending - {q}, p.extra - {q})
  {
    UnseenPassed(d, x, q);
    SeenIs(d);
  }

  // ----- Whole orders -----

  /** The parent visits what is left of keys the sub-filesystem does not see. */
  lemma {:induction false} EndRest(p: RO.Loop, s: RO.Loop, d: string, x: string, to: string) returns (ps: seq<string>)
    requires LoopsAgree(p, s, d) && IsRel(x) && RO.MayEnd(s)
    ensures RO.Order(p, Inside(d, x), Inside(d, to), ps)
    ensures var end := RO.Reached(p, Inside(d, x), Inside(d, to), ps);
      RO.MayEnd(end) && LoopsAgree(end, s, d) && end.files == p.files
    decreases |p.pending|
  {
    if p.pending == {} {
      ps := [];
    } else {
      var q :| q in p.pending;
      SeenIs(d);
      assert !Seen(d, q);
      ParentPasses(p, s, d, x, to, q);
      RO.Without(p.pending, q);
      var rest := EndRest(RO.Visit(p, Inside(d, x), Inside(d, to), q), s, d, x, to);
      RO.First(p, Inside(d, x), Inside(d, to), q, rest);
      ps := [q] + rest;
    }
  }

  /** Where the parent's order ps leads is what qs leads the sub-filesystem to. */
  ghost predicate OrdersAgree(
      p: RO.Loop, s: RO.Loop, d: string, x: string, to: string, ps: seq<string>, qs: seq<string>)
  {
    && RO.Order(p, Inside(d, x), Inside(d, to), ps) && RO.Order(s, x, to, qs)
    && var a, b := RO.Reached(p, Inside(d, x), Inside(d, to), ps), RO.Reached(s, x, to, qs);
      RO.MayEnd(a) && RO.MayEnd(b) && Rerooted(a.files, b.files, d) && SameOutside(p.files, a.files, d)
  }

  lemma {:induction false} AlikeFromHere(
      p: RO.Loop, s: RO.Loop, d: string, x: string, to: string, y: string, ps: seq<string>, qs: seq<string>)
    requires LoopsAgree(p, s, d) && IsRel(x) && IsRel(to) && y != "." && y in s.pending + s.extra
    requires Inside(d, y) in p.pending + p.extra
    requires SameOutside(p.files, RO.Visit(p, Inside(d, x), Inside(d, to), Inside(d, y)).files, d)
    requires OrdersAgree(RO.Visit(p, Inside(d, x), Inside(d, to), Inside(d, y)), RO.Visit(s, x, to, y),
                         d, x, to, ps, qs)
    ensures OrdersAgree(p, s, d, x, to, [Inside(d, y)] + ps, [y] + qs)
  {
    var f, g, q := Inside(d, x), Inside(d, to), Inside(d, y);
    RO.First(p, f, g, q, ps);
    RO.First(s, x, to, y, qs);
    OutsideTwice(p.files, RO.Visit(p, f, g, q).files, RO.Reached(p, f, g, [q] + ps).files, d);
  }

  /** Whatever order the loop of the sub-filesystem takes, the parent's can end like it. */
  lemma {:induction false} LiftOrder(p: RO.Loop, s: RO.Loop, d: string, x: string, to: string, qs: seq<string>)
    returns (ps: seq<string>)
    requires LoopsAgree(p, s, d) && IsRel(x) && IsRel(to)
    requires RO.Order(s, x, to, qs) && RO.MayEnd(RO.Reached(s, x, to, qs))
    ensures OrdersAgree(p, s, d, x, to, ps, qs)
    decreases |qs|
  {
    if qs == [] {
      ps := EndRest(p, s, d, x, to);
    } else if qs[0] == "." {
      SubPasses(p, s, d, x, to);
      ps := LiftOrder(p, RO.Visit(s, x, to, "."), d, x, to, qs[1..]);
    } else {
      BothVisit(p, s, d, x, to, qs[0]);
      var q := Inside(d, qs[0]);
      var rest := LiftOrder(RO.Visit(p, Inside(d, x), Inside(d, to), q), RO.Visit(s, x, to, qs[0]), d, x, to, qs[1..]);
      AlikeFromHere(p, s, d, x, to, qs[0], rest, qs[1..]);
      assert [qs[0]] + qs[1..] == qs;
      ps := [q] + rest;
    }
  }

  /** And whatever order the parent's takes, the sub-filesystem's can end like it. */
  lemma {:induction false} DropOrder(p: RO.Loop, s: RO.Loop, d: string, x: string, to: string, ps: seq<string>)
    returns (qs: seq<string>)
    requires LoopsAgree(p, s, d) && IsRel(x) && IsRel(to)
    requires RO.Order(p, Inside(d, x), Inside(d, to), ps) && RO.MayEnd(RO.Reached(p, Inside(d, x), Inside(d, to), ps))
    ensures OrdersAgree(p, s, d, x, to, ps, qs)
    decreases |ps|
  {
    SeenIs(d);
    if ps == [] {
      qs := RootLast(p, s, d, x, to);
    } else if Seen(d, ps[0]) {
      var y := Strip(d, ps[0]);
      BothVisit(p, s, d, x, to, y);
      var rest := DropOrder(RO.Visit(p, Inside(d, x), Inside(d, to), ps[0]), RO.Visit(s, x, to, y), d, x, to, ps[1..]);
      AlikeFromHere(p, s, d, x, to, y, ps[1..], rest);
      assert [Inside(d, y)] + ps[1..] == ps;
      qs := [y] + rest;
    } else {
      ParentPasses(p, s, d, x, to, ps[0]);
      qs := DropOrder(RO.Visit(p, Inside(d, x), Inside(d, to), ps[0]), s, d, x, to, ps[1..]);
    }
  }

  /** Of what the sub-filesystem had to visit only its root can be left. */
  lemma {:induction false} RootLast(p: RO.Loop, s: RO.Loop, d: string, x: string, to: string) returns (qs: seq<string>)
    requires LoopsAgree(p, s, d) && IsRel(x) && RO.MayEnd(p)
    ensures OrdersAgree(p, s, d, x, to, [], qs)
  {
    SeenIs(d);
    assert forall y :: y in s.pending ==> y == ".";
    if "." in s.pending {
      SubPasses(p, s, d, x, to);
      RO.First(s, x, to, ".", []);
      qs := ["."] + [];
    } else {
      qs := [];
    }
  }

  // ----- Outcomes -----

  lemma {:induction false} StartsAgree(p: Files, s: Files, d: string, x: string, to: string, now: int)
    requires Rerooted(p, s, d) && IsRel(x) && IsRel(to) && x in s
    ensures Inside(d, x) in p && p[Inside(d, x)] == s[x]
    ensures LoopsAgree(RO.Start(p, Inside(d, x), Inside(d, to), now), RO.Start(s, x, to, now), d)
    ensures SameOutside(p, RO.Start(p, Inside(d, x), Inside(d, to), now).files, d)
  {
    RelNonEmpty(x);
    RelNonEmpty(to);
    PutAgrees(p, s, d, to, Moved(s, x, x, now));
  }

  /** Ends that correspond give outcomes that agree. */
  lemma {:induction false} EndsAgree(
      p: Files, s: Files, d: string, x: string, to: string, now: int, ps: seq<string>, qs: seq<string>)
    returns (rp: Res, rs: Res)
    requires IsRel(x) && IsRel(to) && x in s && s[x].mode.dir && Inside(d, x) in p && p[Inside(d, x)] == s[x]
    requires OrdersAgree(RO.Start(p, Inside(d, x), Inside(d, to), now), RO.Start(s, x, to, now), d, x, to, ps, qs)
    requires SameOutside(p, RO.Start(p, Inside(d, x), Inside(d, to), now).files, d)
    ensures rs == Res(None, RO.Reached(RO.Start(s, x, to, now), x, to, qs).files - {x})
    ensures var f, g := Inside(d, x), Inside(d, to);
      rp == Res(None, RO.Reached(RO.Start(p, f, g, now), f, g, ps).files - {f})
    ensures RO.Outcome(p, Inside(d, x), Inside(d, to), now, rp) && RO.Outcome(s, x, to, now, rs) && Agree(p, rp, rs, d)
  {
    var f, g := Inside(d, x), Inside(d, to);
    var u, v := RO.Start(p, f, g, now), RO.Start(s, x, to, now);
    var a, b := RO.Reached(u, f, g, ps).files, RO.Reached(v, x, to, qs).files;
    RelNonEmpty(x);
    MinusAgrees(a, b, d, x);
    OutsideTwice(p, u.files, a, d);
    OutsideTwice(p, a, a - {f}, d);
    rp, rs := Res(None, a - {f}), Res(None, b - {x});
  }

  /** A file is moved without any loop. */
  lemma {:induction false} FileAgrees(p: Files, s: Files, d: string, x: string, to: string, now: int)
    requires Rerooted(p, s, d) && IsRel(x) && IsRel(to) && (x in s ==> !s[x].mode.dir)
    ensures Agree(p, RenameRes(p, Inside(d, x), Inside(d, to), now), RenameRes(s, x, to, now), d)
  {
    RelNonEmpty(x);
    RelNonEmpty(to);
    InsideInjective(d, x, to);
    if x in s {
      var f, g, e := Inside(d, x), Inside(d, to), Moved(s, x, x, now);
      R.FileMoved(p, f, g, now);
      R.FileMoved(s, x, to, now);
      PutAgrees(p, s, d, to, e);
      MinusAgrees(p[g := e], s[to := e], d, x);
      OutsideTwice(p, p[g := e], p[g := e] - {f}, d);
    }
  }

  /** Whatever Rename comes to in the sub-filesystem, it can come to the like in the parent. */
  lemma {:induction false} OutcomeLifts(p: Files, s: Files, d: string, x: string, to: string, now: int, rs: Res)
    returns (rp: Res)
    requires Rerooted(p, s, d) && IsRel(x) && IsRel(to) && RO.Outcome(s, x, to, now, rs)
    ensures RO.Outcome(p, Inside(d, x), Inside(d, to), now, rp) && Agree(p, rp, rs, d)
  {
    RelNonEmpty(x);
    if x in s && s[x].mode.dir {
      StartsAgree(p, s, d, x, to, now);
      var v := RO.Start(s, x, to, now);
      var qs :| RO.Order(v, x, to, qs) && RO.MayEnd(RO.Reached(v, x, to, qs))
        && rs.files == RO.Reached(v, x, to, qs).files - {x};
      var ps := LiftOrder(RO.Start(p, Inside(d, x), Inside(d, to), now), v, d, x, to, qs);
      var r;
      rp, r := EndsAgree(p, s, d, x, to, now, ps, qs);
    } else {
      FileAgrees(p, s, d, x, to, now);
      rp := RenameRes(p, Inside(d, x), Inside(d, to), now);
    }
  }

  /** And whatever it comes to in the parent, it can come to the like in the sub-filesystem. */
  lemma {:induction false} OutcomeDrops(p: Files, s: Files, d: string, x: string, to: string, now: int, rp: Res)
    returns (rs: Res)
    requires Rerooted(p, s, d) && IsRel(x) && IsRel(to) && RO.Outcome(p, Inside(d, x), Inside(d, to), now, rp)
    ensures RO.Outcome(s, x, to, now, rs) && Agree(p, rp, rs, d)
  {
    RelNonEmpty(x);
    if x in s && s[x].mode.dir {
      StartsAgree(p, s, d, x, to, now);
      var f, g := Inside(d, x), Inside(d, to);
      var u := RO.Start(p, f, g, now);
      var ps :| RO.Order(u, f, g, ps) && RO.MayEnd(RO.Reached(u, f, g, ps))
        && rp.files == RO.Reached(u, f, g, ps).files - {f};
      var qs := DropOrder(u, RO.Start(s, x, to, now), d, x, to, ps);
      var r;
      r, rs := EndsAgree(p, s, d, x, to, now, ps, qs);
    } else {
      FileAgrees(p, s, d, x, to, now);
      rs := RenameRes(s, x, to, now);
    }
  }
}
