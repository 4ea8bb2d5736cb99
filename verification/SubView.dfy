/** What Sub on objects means for runs: the new filesystem's rules simulate the parent's. */
module SubView {
  import opened Paths
  import opened Tree
  import opened ErrorRules
  import opened SubInjector
  import opened SubObjects
  import opened FsMachine
  import Inj = Injector
  import SubFs
  import SubRuns

  /** j's lists are clones for d of i's, rule by rule new objects with fresh counters. */
  ghost predicate Mirrors<R>(i: Inj.Injector<R>, j: Inj.Injector<R>, d: string) {
    && Inj.ValidInjector(i) && Inj.ValidInjector(j) && SameShape(i.lists, j.lists)
    && (forall p, q :: IsPlace(j, p) && IsPlace(j, q) && At(j, p) == At(j, q) ==> p == q)
    && (forall p {:trigger IsPlace(i, p)} :: IsPlace(i, p) ==>
          && IsPlace(j, p) && At(i, p) in i.attr && At(j, p) in j.attr && At(j, p) in j.ctr
          && j.attr[At(j, p)] == CloneRule(i.attr[At(i, p)], d) && j.ctr[At(j, p)] == Inj.Fresh)
  }

  lemma {:induction false} MirrorPlace<R>(i: Inj.Injector<R>, j: Inj.Injector<R>, d: string, p: Place)
    requires Mirrors(i, j, d) && IsRel(d) && Inj.AllFresh(i) && NoDotPath(i, d) && IsPlace(i, p)
    ensures SimPlace(i, j, d, p)
  {
    var r, s := At(i, p), At(j, p);
    assert r in i.lists[p.op];
    forall x | ValidPath(x) ensures Inj.RuleMatches(j.attr[s], x) <==> Inj.RuleMatches(i.attr[r], Inside(d, x)) {
      CloneRuleMatches(i.attr[r], d, x);
    }
  }

  lemma {:induction false} MirrorSimulates<R>(i: Inj.Injector<R>, j: Inj.Injector<R>, d: string)
    requires Mirrors(i, j, d) && IsRel(d) && Inj.AllFresh(i) && NoSharing(i, d) && NoDotPath(i, d)
    ensures Sim(i, j, d)
  {
    forall p {:trigger IsPlace(i, p)} | IsPlace(i, p) ensures SimPlace(i, j, d, p) { MirrorPlace(i, j, d, p); }
  }

  // ----- From the objects to their views -----

  lemma {:induction false} RecastMirrors(c: ErrorInjector, i: ErrorInjector, d: string)
    requires i.Valid() && NoEmpty(i.configs) && Recast(c, i, d)
    ensures Mirrors(i.View(), c.View(), d)
  {
    var v, w := i.View(), c.View();
    assert w.lists.Keys == v.lists.Keys by {
      forall op ensures op in c.configs <==> op in i.configs {
        assert |c.RulesFor(op)| == |i.RulesFor(op)|;
      }
    }
    forall op | op in v.lists ensures |v.lists[op]| == |w.lists[op]| {
      assert |c.RulesFor(op)| == |i.RulesFor(op)|;
    }
    forall p {:trigger IsPlace(v, p)} | IsPlace(v, p)
      ensures IsPlace(w, p) && At(v, p) in v.attr && At(w, p) in w.attr && At(w, p) in w.ctr
      ensures w.attr[At(w, p)] == CloneRule(v.attr[At(v, p)], d) && w.ctr[At(w, p)] == Inj.Fresh
    {
      RecastAt(c, i, d, p);
    }
  }

  lemma {:induction false} RecastAt(c: ErrorInjector, i: ErrorInjector, d: string, p: Place)
    requires i.Valid() && NoEmpty(i.configs) && Recast(c, i, d) && IsPlace(i.View(), p)
    ensures var v, w := i.View(), c.View();
      && IsPlace(w, p) && At(v, p) in v.attr && At(w, p) in w.attr && At(w, p) in w.ctr
      && w.attr[At(w, p)] == CloneRule(v.attr[At(v, p)], d) && w.ctr[At(w, p)] == Inj.Fresh
  {
    assert |c.RulesFor(p.op)| == |i.RulesFor(p.op)| && Clones(c.RulesFor(p.op), i.RulesFor(p.op), d);
    assert i.configs[p.op][p.i] in i.rules;
    assert c.configs[p.op][p.i] in c.rules;
  }

  // ----- Runs -----

  function Refreshed<R(==)>(inj: Inj.Injector<R>): Inj.Injector<R> {
    inj.(ctr := map r | r in inj.ctr && r in inj.attr :: Inj.Fresh)
  }

  lemma {:induction false} RefreshedMirrors<R>(i: Inj.Injector<R>, j: Inj.Injector<R>, d: string)
    requires Mirrors(i, j, d)
    ensures Mirrors(Refreshed(i), j, d)
  {
    var i' := Refreshed(i);
    forall p {:trigger IsPlace(i', p)} | IsPlace(i', p)
      ensures IsPlace(j, p) && At(i', p) in i'.attr && At(j, p) in j.attr && At(j, p) in j.ctr
      ensures j.attr[At(j, p)] == CloneRule(i'.attr[At(i', p)], d) && j.ctr[At(j, p)] == Inj.Fresh
    {
      assert IsPlace(i, p) && At(i, p) == At(i', p);
    }
  }

  lemma {:induction false} RefreshedShares<R>(i: Inj.Injector<R>, d: string)
    requires NoSharing(i, d)
    ensures NoSharing(Refreshed(i), d)
  {
    var i' := Refreshed(i);
    forall a, b | (
      && IsPlace(i', a) && IsPlace(i', b) && At(i', a) == At(i', b)
      && At(i', a) in i'.attr && Counts(i'.attr[At(i', a)], d))
      ensures a == b
    {
      assert IsPlace(i, a) && IsPlace(i, b) && At(i, a) == At(i, b);
    }
  }

  /** Over any calls on non-root paths a filesystem object that Sub made has the runs that its
      parent has on d/x with fresh rule counters, and no others. */
  lemma {:induction false} SubObjectBisimulates<R>(p: Fs<R>, s: Fs<R>, d: string, calls: seq<Call>)
    requires ValidFs(p) && ValidFs(s) && TreeInv(p.files) && d != "." && SubFs.SubErr(p.files, d).None?
    requires s.files == SubFs.SubFiles(p.files, d) && s.writeMode == p.writeMode && s.create == p.create
    requires Mirrors(p.inj, s.inj, d) && NoSharing(p.inj, d) && NoDotPath(p.inj, d)
    requires SubRuns.AllNonRoot(calls)
    ensures ValidFs(p.(inj := Refreshed(p.inj)))
    ensures SubRuns.SameRuns(p.(inj := Refreshed(p.inj)), s, d, calls)
  {
    var i := Refreshed(p.inj);
    RefreshedMirrors(p.inj, s.inj, d);
    RefreshedShares(p.inj, d);
    MirrorSimulates(i, s.inj, d);
    SubRuns.SubFilesRelated(p.files, d);
    SubRuns.RelatedRuns(p.(inj := i), s, d, calls);
  }
}
