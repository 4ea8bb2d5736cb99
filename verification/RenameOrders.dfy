/** The loop of Rename as a relation: which keys it may visit, and where it can end. */
module RenameOrders {
  import opened Common
  import opened Paths
  import opened Files
  import opened Tree
  import opened Rename

  /** The map, the keys that were there when the loop began and are still to be visited, and
      the keys created since, which may be visited or not. */
  datatype Loop = Loop(files: Files, pending: set<string>, extra: set<string>)

  function Start(t: Files, from: string, to: string, now: int): Loop
    requires from in t
  {
    var base := t[to := Moved(t, from, from, now)];
    Loop(base, base.Keys, {})
  }

  /** The key that moving q creates, if it was not in the map. */
  function Created(s: Loop, from: string, to: string, q: string): (created: set<string>)
    requires Under(from, q)
    ensures |created| <= 1 && created <= {Rebase(from, to, q)}
  {
    if Rebase(from, to, q) in s.files then {} else {Rebase(from, to, q)}
  }

  /** The loop visits q; a key that is no longer in the map is passed over. */
  function Visit(s: Loop, from: string, to: string, q: string): Loop
    requires q in s.pending + s.extra
  {
    if !Under(from, q) || q !in s.files then Loop(s.files, s.pending - {q}, s.extra - {q})
    else
      Loop(s.files[Rebase(from, to, q) := s.files[q]] - {q}, s.pending - {q}, s.extra - {q} + Created(s, from, to, q))
  }

  predicate Order(s: Loop, from: string, to: string, qs: seq<string>)
    decreases |qs|
  {
    qs == [] || (qs[0] in s.pending + s.extra && Order(Visit(s, from, to, qs[0]), from, to, qs[1..]))
  }

  function Reached(s: Loop, from: string, to: string, qs: seq<string>): Loop
    requires Order(s, from, to, qs)
    decreases |qs|
  {
    if qs == [] then s else Reached(Visit(s, from, to, qs[0]), from, to, qs[1..])
  }

  /** The loop may end once every key it began with has been visited. */
  predicate MayEnd(s: Loop) {
    s.pending == {}
  }

  /** Where the loop stands, whatever it has visited. */
  ghost predicate Halfway(base: Files, from: string, to: string, s: Loop) {
    s.pending <= base.Keys && Below(s.extra, from) == {} && s.files == Underway(base, from, to, s.pending)
  }

  lemma {:induction false} VisitHalfway(base: Files, from: string, to: string, s: Loop, q: string)
    requires Halfway(base, from, to, s) && Settled(base.Keys, from, to) && q in s.pending + s.extra
    ensures Halfway(base, from, to, Visit(s, from, to, q))
  {
    if Under(from, q) {
      assert q in s.extra ==> q in Below(s.extra, from);
      UnderwayStep(base, from, to, s.pending, q);
      MovedOut(base.Keys, from, to, q);
      UnderwayMove(base.Keys, from, to, s.pending, s.extra, q, Created(s, from, to, q));
    } else {
      UnderwayPass(base, from, to, s.pending, s.extra, q);
    }
  }

  /** Inserted keys are not below the source, so a visit never creates more than it uses up. */
  lemma {:induction false} VisitShrinks(s: Loop, from: string, to: string, q: string)
    requires Below(s.extra, from) == {} && q in s.pending + s.extra
    ensures Measure(Visit(s, from, to, q)) < Measure(s)
  {
    Without(s.pending, q);
    Without(s.extra, q);
    if Under(from, q) {
      assert q in s.extra ==> q in Below(s.extra, from);
      SmallerSets(s.extra - {q}, Created(s, from, to, q));
    }
  }

  lemma {:induction false} Without(a: set<string>, q: string)
    ensures |a - {q}| == |a| - if q in a then 1 else 0
  {
    assert q in a ==> a == (a - {q}) + {q};
    assert q !in a ==> a == a - {q};
  }

  function Measure(s: Loop): nat {
    2 * |s.pending| + |s.extra|
  }

  lemma {:induction false} Visited(pending: set<string>, q: string)
    ensures if q in pending then pending - {q} < pending else pending - {q} == pending
  {
  }

  lemma {:induction false} SmallerSets(a: set<string>, b: set<string>)
    ensures |a + b| <= |a| + |b|
  {
    assert a + b == a + (b - a) && b == (b - a) + (b * a);
  }

  lemma {:induction false} OrderHalfway(base: Files, from: string, to: string, s: Loop, qs: seq<string>)
    requires Halfway(base, from, to, s) && Settled(base.Keys, from, to) && Order(s, from, to, qs)
    ensures Halfway(base, from, to, Reached(s, from, to, qs))
    ensures |qs| <= Measure(s)
    decreases |qs|
  {
    if qs != [] {
      VisitHalfway(base, from, to, s, qs[0]);
      VisitShrinks(s, from, to, qs[0]);
      OrderHalfway(base, from, to, Visit(s, from, to, qs[0]), qs[1..]);
    }
  }

  /** Every order that range allows, with any of the inserted keys visited again, ends in
      the one-shot prefix rewrite. */
  ghost predicate AlwaysRewrites(t: Files, from: string, to: string, now: int)
    requires from in t
  {
    var s := Start(t, from, to, now);
    forall qs :: Order(s, from, to, qs) && MayEnd(Reached(s, from, to, qs)) ==>
      Reached(s, from, to, qs).files - {from} == RenameRes(t, from, to, now).files
  }

  /** What Rename can come to. */
  ghost predicate Outcome(t: Files, from: string, to: string, now: int, r: Res) {
    if from !in t then r == Res(Some(NotExist), t)
    else if !t[from].mode.dir then r == RenameRes(t, from, to, now)
    else r.err.None? && Ends(t, from, to, now, r.files)
  }

  /** Some order that range allows ends in files. */
  ghost predicate Ends(t: Files, from: string, to: string, now: int, files: Files)
    requires from in t
  {
    var s := Start(t, from, to, now);
    exists qs :: (
      && Order(s, from, to, qs) && MayEnd(Reached(s, from, to, qs))
      && files == Reached(s, from, to, qs).files - {from})
  }

  /** Rename has one outcome only, whatever that is. */
  ghost predicate OrderIndependent(t: Files, from: string, to: string, now: int) {
    forall a, b :: Outcome(t, from, to, now, a) && Outcome(t, from, to, now, b) ==> a == b
  }

  lemma {:induction false} StartHalfway(t: Files, from: string, to: string, now: int)
    requires from in t
    ensures var s := Start(t, from, to, now);
      s.files.Keys == s.pending == t.Keys + {to} && Halfway(s.files, from, to, s)
  {
    UnderwayEnds(t[to := Moved(t, from, from, now)], from, to);
  }

  /** When no entry is moved to below the source, all orders end alike, after at most two
      visits for each key: in the one-shot rewrite, less an entry that has taken the name of
      the source. */
  lemma {:induction false} Confluent(t: Files, from: string, to: string, now: int)
    requires from in t && t[from].mode.dir && Settled(t.Keys + {to}, from, to)
    ensures OrderIndependent(t, from, to, now)
    ensures forall r :: Outcome(t, from, to, now, r) ==> r == Res(None, RenameRes(t, from, to, now).files - {from})
    ensures var s := Start(t, from, to, now);
      forall qs :: Order(s, from, to, qs) ==> |qs| <= 2 * |t.Keys + {to}|
  {
    var s := Start(t, from, to, now);
    StartHalfway(t, from, to, now);
    UnderwayDone(t, from, to, now);
    forall qs | Order(s, from, to, qs)
      ensures |qs| <= 2 * |t.Keys + {to}|
      ensures MayEnd(Reached(s, from, to, qs)) ==> Reached(s, from, to, qs).files == Underway(s.files, from, to, {})
    {
      OrderHalfway(s.files, from, to, s, qs);
    }
  }

  lemma {:induction false} RenamableSettled(keys: set<string>, from: string, to: string)
    requires Renamable(keys, from, to)
    ensures Settled(keys, from, to)
  {
  }

  /** When none takes the name of the source either, that end is the one-shot prefix rewrite.
      Incomparable paths are one such case. */
  lemma {:induction false} ConfluentRewrites(t: Files, from: string, to: string, now: int)
    requires from in t && t[from].mode.dir && Renamable(t.Keys + {to}, from, to)
    ensures AlwaysRewrites(t, from, to, now)
  {
    var s := Start(t, from, to, now);
    RenamableSettled(t.Keys + {to}, from, to);
    Confluent(t, from, to, now);
    SourceGoes(t, from, to, now);
    forall qs | Order(s, from, to, qs) && MayEnd(Reached(s, from, to, qs))
      ensures Reached(s, from, to, qs).files - {from} == RenameRes(t, from, to, now).files
    {
      assert Outcome(t, from, to, now, Res(None, Reached(s, from, to, qs).files - {from}));
    }
  }

  // ----- When an entry is moved back to or below the source -----

  lemma {:induction false} First(s: Loop, from: string, to: string, q: string, rest: seq<string>)
    requires q in s.pending + s.extra && Order(Visit(s, from, to, q), from, to, rest)
    ensures Order(s, from, to, [q] + rest)
    ensures Reached(s, from, to, [q] + rest) == Reached(Visit(s, from, to, q), from, to, rest)
  {
    assert ([q] + rest)[1..] == rest;
  }

  lemma {:induction false} Last(s: Loop, from: string, to: string, qs: seq<string>, q: string)
    requires Order(s, from, to, qs) && q in Reached(s, from, to, qs).pending + Reached(s, from, to, qs).extra
    ensures Order(s, from, to, qs + [q])
    ensures Reached(s, from, to, qs + [q]) == Visit(Reached(s, from, to, qs), from, to, q)
    decreases |qs|
  {
    if qs == [] {
      assert [q][1..] == [];
      assert Order(Visit(s, from, to, q), from, to, []);
      assert qs + [q] == [q];
    } else {
      Last(Visit(s, from, to, qs[0]), from, to, qs[1..], q);
      assert (qs + [q])[1..] == qs[1..] + [q];
    }
  }

  /** Some order always leads to an end. */
  lemma {:induction false} CanEnd(s: Loop, from: string, to: string) returns (qs: seq<string>)
    ensures Order(s, from, to, qs) && MayEnd(Reached(s, from, to, qs))
    decreases |s.pending|
  {
    if s.pending == {} {
      qs := [];
    } else {
      var q :| q in s.pending;
      Without(s.pending, q);
      var rest := CanEnd(Visit(s, from, to, q), from, to);
      First(s, from, to, q, rest);
      qs := [q] + rest;
    }
  }

  lemma {:induction false} SameTail(from: string, to: string, p: string)
    requires Within(from, p) && Rebase(from, to, p) == p
    ensures from == to
  {
    assert |from| == |to| && from == p[..|from|] && to == p[..|to|];
  }

  lemma {:induction false} NewNameDiffers(from: string, to: string, p: string)
    requires Under(from, p) && from != to
    ensures Rebase(from, to, p) != p
  {
    if Rebase(from, to, p) == p { SameTail(from, to, p); }
  }

  /** p is still to be moved to n, which is not in the map. */
  predicate Awaits(s: Loop, from: string, to: string, p: string, n: string) {
    p in s.pending && p in s.files && n !in s.files && Under(from, p) && Rebase(from, to, p) == n && from != to
  }

  lemma {:induction false} StillAwaits(s: Loop, from: string, to: string, p: string, n: string, q: string)
    requires Awaits(s, from, to, p, n) && q in s.pending && q != p
    ensures Awaits(Visit(s, from, to, q), from, to, p, n)
  {
    if Under(from, q) { RebaseInjective(from, to, {p, q}); }
  }

  lemma {:induction false} MovedLast(s: Loop, from: string, to: string, p: string, n: string)
    requires Awaits(s, from, to, p, n)
    ensures var s' := Visit(s, from, to, p); n in s'.extra && n in s'.files && s'.pending == s.pending - {p}
  {
    NewNameDiffers(from, to, p);
  }

  /** Moving p last leaves n in the map, as a key that range may or may not visit. */
  lemma {:induction false} Drain(s: Loop, from: string, to: string, p: string, n: string) returns (qs: seq<string>)
    requires Awaits(s, from, to, p, n)
    ensures Order(s, from, to, qs)
    ensures var end := Reached(s, from, to, qs); MayEnd(end) && n in end.extra && n in end.files
    decreases |s.pending|
  {
    if s.pending == {p} {
      MovedLast(s, from, to, p, n);
      First(s, from, to, p, []);
      qs := [p] + [];
    } else {
      var q :| q in s.pending && q != p;
      Without(s.pending, q);
      StillAwaits(s, from, to, p, n, q);
      var rest := Drain(Visit(s, from, to, q), from, to, p, n);
      First(s, from, to, q, rest);
      qs := [q] + rest;
    }
  }

  /** Visiting n first, if it was there, makes room for p to be moved to it. */
  lemma {:induction false} MakeRoom(s: Loop, from: string, to: string, p: string, n: string)
    requires p in s.pending && p in s.files && Under(from, p)
    requires Under(from, n) && Rebase(from, to, p) == n && from != to
    requires n in s.files && n in s.pending
    ensures Awaits(Visit(s, from, to, n), from, to, p, n)
  {
    NewNameDiffers(from, to, p);
    NewNameDiffers(from, to, n);
  }

  /** An entry moved to below the source: two orders that range allows end in different maps. */
  lemma {:induction false} TwoEnds(s: Loop, from: string, to: string, p: string, n: string)
    returns (one: seq<string>, two: seq<string>)
    requires p in s.pending && p in s.files && Under(from, p)
    requires Under(from, n) && Rebase(from, to, p) == n && from != to
    requires n in s.files ==> n in s.pending
    ensures Order(s, from, to, one) && MayEnd(Reached(s, from, to, one)) && n in Reached(s, from, to, one).files
    ensures Order(s, from, to, two) && MayEnd(Reached(s, from, to, two)) && n !in Reached(s, from, to, two).files
  {
    if n in s.files {
      MakeRoom(s, from, to, p, n);
      var rest := Drain(Visit(s, from, to, n), from, to, p, n);
      First(s, from, to, n, rest);
      one := [n] + rest;
    } else {
      one := Drain(s, from, to, p, n);
    }
    Last(s, from, to, one, n);
    NewNameDiffers(from, to, n);
    two := one + [n];
  }

  lemma {:induction false} NotBelowItself(p: string)
    ensures !Under(p, p)
  {
  }

  /** When an entry takes the source's own name, every order ends without it. */
  lemma {:induction false} OntoSource(t: Files, from: string, to: string, now: int, p: string)
    requires from in t && t[from].mode.dir && from != to
    requires p in t.Keys + {to} && Under(from, p) && Rebase(from, to, p) == from
    ensures from in RenameRes(t, from, to, now).files
  {
    NotBelowItself(from);
    if p == to { StillBelow(from, to); }
    TargetOf(t, from, to, p);
    RenameIsRename(t, from, to, now);
  }

  lemma {:induction false} EndsDiffer(t: Files, from: string, to: string, now: int, p: string)
    requires from in t && t[from].mode.dir && from != to
    requires p in t.Keys + {to} && Under(from, p) && Under(from, Rebase(from, to, p))
    ensures !OrderIndependent(t, from, to, now) && !AlwaysRewrites(t, from, to, now)
  {
    var s := Start(t, from, to, now);
    var n := Rebase(from, to, p);
    var one, two := TwoEnds(s, from, to, p, n);
    NotBelowItself(from);
    assert Reached(s, from, to, one).files - {from} != Reached(s, from, to, two).files - {from} by {
      assert n in Reached(s, from, to, one).files - {from};
    }
    assert Outcome(t, from, to, now, Res(None, Reached(s, from, to, one).files - {from}));
    assert Outcome(t, from, to, now, Res(None, Reached(s, from, to, two).files - {from}));
  }

  /** The outcome depends on the order exactly when a directory is renamed, not to itself, and
      some entry below it gets a name below it again. */
  lemma {:induction false} OrderIndependentIff(t: Files, from: string, to: string, now: int)
    ensures OrderIndependent(t, from, to, now) <==>
      (from in t && t[from].mode.dir ==> Settled(t.Keys + {to}, from, to))
  {
    if from in t && t[from].mode.dir {
      if Settled(t.Keys + {to}, from, to) {
        Confluent(t, from, to, now);
      } else {
        var p :| p in t.Keys + {to} && Under(from, p) && Under(from, Rebase(from, to, p));
        EndsDiffer(t, from, to, now, p);
      }
    }
  }

  /** Every order of the loop ends in the one-shot rewrite exactly when no entry is moved
      back to or below the source. */
  lemma {:induction false} RewritesIff(t: Files, from: string, to: string, now: int)
    requires from in t && t[from].mode.dir
    ensures AlwaysRewrites(t, from, to, now) <==> Renamable(t.Keys + {to}, from, to)
  {
    if Renamable(t.Keys + {to}, from, to) {
      ConfluentRewrites(t, from, to, now);
    } else {
      var p :| p in t.Keys + {to} && Under(from, p) && Within(from, Rebase(from, to, p));
      if Under(from, Rebase(from, to, p)) {
        EndsDiffer(t, from, to, now, p);
      } else {
        OntoSource(t, from, to, now, p);
        var s := Start(t, from, to, now);
        var qs := CanEnd(s, from, to);
        assert from !in Reached(s, from, to, qs).files - {from};
      }
    }
  }

  /** Renaming a directory into itself always depends on the order. */
  lemma {:induction false} IntoItself(t: Files, from: string, to: string, now: int)
    requires from in t && t[from].mode.dir && Under(from, to)
    ensures !OrderIndependent(t, from, to, now)
  {
    NotBelowItself(from);
    StillBelow(from, to);
    EndsDiffer(t, from, to, now, to);
  }

  // ----- What Rename comes to -----

  /** Where Rename does not depend on an order, this is what it comes to. */
  lemma {:induction false} OutcomeSettled(t: Files, from: string, to: string, now: int, r: Res)
    requires Outcome(t, from, to, now, r) && from in t
    requires t[from].mode.dir ==> Settled(t.Keys + {to}, from, to)
    ensures r == Res(None, RenameRes(t, from, to, now).files - {from})
  {
    if t[from].mode.dir { Confluent(t, from, to, now); } else { SourceGoes(t, from, to, now); }
  }

  lemma {:induction false} OutcomeIsRewrite(t: Files, from: string, to: string, now: int, r: Res)
    requires Outcome(t, from, to, now, r)
    requires from in t && t[from].mode.dir ==> Renamable(t.Keys + {to}, from, to)
    ensures r == RenameRes(t, from, to, now)
  {
    if from in t {
      if t[from].mode.dir { RenamableSettled(t.Keys + {to}, from, to); }
      OutcomeSettled(t, from, to, now, r);
      SourceGoes(t, from, to, now);
    }
  }

  /** What overwriting comes to, wherever Rename does not depend on an order: an entry that
      takes the name of the source is lost as well. */
  lemma {:induction false} OutcomeOverwritesIff(t: Files, from: string, to: string, now: int, r: Res)
    requires from in t && Outcome(t, from, to, now, r)
    requires t[from].mode.dir ==> Settled(t.Keys + {to}, from, to)
    ensures Overwritten(t, from, to, r.files) <==>
      && from != to && !IsTarget(t, from, to, from)
      && forall q :: q in t && Within(to, q) ==> IsTarget(t, from, to, q) || q in Carried(t, from)
  {
    OutcomeSettled(t, from, to, now, r);
    if from != to {
      RenameIsRename(t, from, to, now);
    } else {
      TargetOf(t, from, to, from);
    }
  }

  /** Rename always comes to something. */
  lemma {:induction false} SomeOutcome(t: Files, from: string, to: string, now: int) returns (r: Res)
    ensures Outcome(t, from, to, now, r)
  {
    if from !in t || !t[from].mode.dir {
      r := RenameRes(t, from, to, now);
    } else {
      var s := Start(t, from, to, now);
      var qs := CanEnd(s, from, to);
      r := Res(None, Reached(s, from, to, qs).files - {from});
    }
  }

  lemma {:induction false} NewNameValid(from: string, to: string, q: string)
    requires IsRel(to) && ValidPath(q) && Under(from, q)
    ensures IsRel(Rebase(from, to, q))
  {
    UnderRel(from, q);
    var rest := q[|from| + 1..];
    assert q[|from|..] == "/" + rest;
    RelConcat(to, rest);
    assert to + ("/" + rest) == to + "/" + rest;
  }

  lemma {:induction false} OrderKeepsKeys(s: Loop, from: string, to: string, qs: seq<string>)
    requires ValidKeys(s.files) && IsRel(to) && Order(s, from, to, qs)
    ensures ValidKeys(Reached(s, from, to, qs).files)
    decreases |qs|
  {
    if qs != [] {
      if Under(from, qs[0]) && qs[0] in s.files { NewNameValid(from, to, qs[0]); }
      OrderKeepsKeys(Visit(s, from, to, qs[0]), from, to, qs[1..]);
    }
  }

  /** Whatever Rename comes to has valid keys. */
  lemma {:induction false} OutcomeKeys(t: Files, from: string, to: string, now: int, r: Res)
    requires ValidKeys(t) && IsRel(to) && Outcome(t, from, to, now, r)
    ensures ValidKeys(r.files)
  {
    if from in t {
      if t[from].mode.dir {
        var s := Start(t, from, to, now);
        var qs :| Order(s, from, to, qs) && MayEnd(Reached(s, from, to, qs))
          && r.files == Reached(s, from, to, qs).files - {from};
        OrderKeepsKeys(s, from, to, qs);
      } else {
        FileMoved(t, from, to, now);
      }
    }
  }
}
