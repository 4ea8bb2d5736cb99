/** Sub on filesystem objects: the new one shares no node, buffer, rule or counter with
    its parent. */
module SubObjects {
  import opened Common
  import opened Paths
  import opened Files
  import opened ErrorRules
  import opened MockFS
  import Inj = Injector
  import SubFs
  import SubMap
  import Stats

  /** The rules of c are new clones for d, list by list, with fresh counters. */
  ghost predicate Recast(c: ErrorInjector, i: ErrorInjector, d: string)
    reads c, c.rules, i
  {
    && c.Valid() && c.Proper()
    && (forall op :: |c.RulesFor(op)| == |i.RulesFor(op)| && Clones(c.RulesFor(op), i.RulesFor(op), d))
    && (forall r :: r in c.rules ==> r.Ctr() == Inj.Fresh)
  }

  /** Sub of a directory other than the root. */
  method SubDir(m: MockFS, d: string, now: int) returns (sub: MockFS)
    requires m.Valid() && IsDirIn(m.files.Contents(), d)
    ensures sub.Valid() && fresh(sub) && fresh(sub.files)
    ensures fresh(sub.files.nodes.Keys) && fresh(sub.files.buffers.Keys)
    ensures fresh(sub.stats) && fresh(sub.stats.ops) && sub.stats.View() == Stats.Zero
    ensures sub.files.Contents() == SubFs.SubFiles(old(m.files.Contents()), d)
    ensures sub.writeMode == m.writeMode && sub.create == m.create
    ensures fresh(sub.injector) && fresh(sub.injector.rules) && Recast(sub.injector, m.injector, d)
  {
    var clone := m.injector.CloneForSub(d);
    m.files.Framed();
    var files := SubMap.SubMapOf(m.files, d, now);
    sub := new MockFS.Over(files, clone, m.writeMode, m.create);
  }

  /** Sub returns the receiver for ".". */
  method Sub(m: MockFS, d: string, now: int) returns (err: Option<Error>, sub: MockFS)
    requires m.Valid()
    ensures d == "." ==> err.None? && sub == m
    ensures d != "." ==> err == SubFs.SubErr(old(m.files.Contents()), d)
    ensures d != "." && err.None? ==>
      && sub.Valid() && fresh(sub) && fresh(sub.files) && fresh(sub.files.nodes.Keys) && fresh(sub.files.buffers.Keys)
      && fresh(sub.stats) && fresh(sub.stats.ops) && sub.stats.View() == Stats.Zero
      && sub.files.Contents() == SubFs.SubFiles(old(m.files.Contents()), d)
      && sub.writeMode == m.writeMode && sub.create == m.create
      && fresh(sub.injector) && fresh(sub.injector.rules) && Recast(sub.injector, m.injector, d)
  {
    if d == "." {
      return None, m;
    }
    if !ValidPath(d) {
      return Some(Invalid), m;
    }
    if d !in m.files.at {
      return Some(NotExist), m;
    }
    if !m.files.at[d].mode.dir {
      return Some(NotDir), m;
    }
    sub := SubDir(m, d, now);
    return None, sub;
  }
}
