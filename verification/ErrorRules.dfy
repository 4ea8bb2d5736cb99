/** Error rules and the injector as the objects they are: counters change in place. */
module ErrorRules {
  import opened Common
  import opened Matchers
  import opened Injector
  import SubInjector

  lemma {:induction false} SomeOperation(s: set<int>)
    requires s != {}
    ensures exists op :: op in s
  {
    assert (forall op :: op !in s) ==> s == {};
  }

  ghost function RulesIn(m: map<Operation, seq<ErrorRule>>): set<ErrorRule> {
    set op, i | op in m && 0 <= i < |m[op]| :: m[op][i]
  }

  lemma {:induction false} RulesInAppend(
      m: map<Operation, seq<ErrorRule>>, op: Operation, rs: seq<ErrorRule>, rule: ErrorRule)
    requires rs == if op in m then m[op] else []
    ensures RulesIn(m[op := rs + [rule]]) == RulesIn(m) + {rule}
  {
    var m' := m[op := rs + [rule]];
    forall r | r in RulesIn(m) ensures r in RulesIn(m') {
      var o, i :| o in m && 0 <= i < |m[o]| && m[o][i] == r;
      assert m'[o][i] == r;
    }
    assert m'[op][|rs|] == rule;
    forall r | r in RulesIn(m') ensures r in RulesIn(m) + {rule} {
      var o, i :| o in m' && 0 <= i < |m'[o]| && m'[o][i] == r;
      if o != op || i < |rs| {
        assert m[o][i] == r;
      }
    }
  }

  /** An operation is in the map only once it has a rule. */
  predicate NoEmpty(m: map<Operation, seq<ErrorRule>>) {
    forall op :: op in m ==> m[op] != []
  }

  /** No rule object stands in two places. */
  ghost predicate DistinctIn(m: map<Operation, seq<ErrorRule>>) {
    forall op, i, op', j :: (
      op in m && op' in m && 0 <= i < |m[op]| && 0 <= j < |m[op']| && m[op][i] == m[op'][j]) ==> op == op' && i == j
  }

  lemma {:induction false} DistinctAppend(
      m: map<Operation, seq<ErrorRule>>, op: Operation, rs: seq<ErrorRule>, rule: ErrorRule)
    requires rs == if op in m then m[op] else []
    requires DistinctIn(m) && rule !in RulesIn(m)
    ensures DistinctIn(m[op := rs + [rule]])
  {
    var m' := m[op := rs + [rule]];
    forall o, i, o', j | o in m' && o' in m' && 0 <= i < |m'[o]| && 0 <= j < |m'[o']| && m'[o][i] == m'[o'][j]
      ensures o == o' && i == j
    {
      assert o != op || i < |rs| ==> m[o][i] == m'[o][i] && m[o][i] in RulesIn(m);
      assert o' != op || j < |rs| ==> m[o'][j] == m'[o'][j] && m[o'][j] in RulesIn(m);
    }
  }

  /** The first rules of src, cloned. */
  ghost predicate Clones(rs: seq<ErrorRule>, src: seq<ErrorRule>, prefix: string) {
    |rs| <= |src| && forall i :: 0 <= i < |rs| ==> rs[i].Attr() == SubInjector.CloneRule(src[i].Attr(), prefix)
  }

  class ErrorRule {
    const err: Error
    const mode: ErrorMode
    const afterN: nat
    const matchers: seq<Matcher>
    var usedOnce: bool
    var hits: nat

    ghost function Attr(): Rule {
      Rule(err, mode, afterN, matchers)
    }

    ghost function Ctr(): Counter
      reads this
    {
      Counter(hits, usedOnce)
    }

    constructor (err: Error, mode: ErrorMode, afterN: nat, matchers: seq<Matcher>)
      ensures Attr() == Rule(err, mode, afterN, matchers) && Ctr() == Fresh
    {
      this.err, this.mode, this.afterN, this.matchers := err, mode, afterN, matchers;
      usedOnce, hits := false, 0;
    }

    method Applies(path: string) returns (b: bool)
      ensures b == RuleMatches(Attr(), path)
    {
      for i := 0 to |matchers|
        invariant forall k :: 0 <= k < i ==> !Matches(matchers[k], path)
      {
        if Matches(matchers[i], path) {
          assert Matches(Attr().matchers[i], path);
          return true;
        }
      }
      return false;
    }

    method ShouldReturnError() returns (b: bool)
      modifies this
      ensures (b, Ctr()) == Decide(mode, afterN, old(Ctr()))
    {
      match mode
      case Always =>
        return true;
      case Once =>
        b := !usedOnce;
        usedOnce := true;
      case AfterSuccesses =>
        hits := (hits + 1) % TWO_64;
        return hits > afterN;
      case Next =>
        hits := (hits + 1) % TWO_64;
        return hits <= afterN;
    }

    /** The rule for a sub-filesystem: re-rooted, counters fresh. */
    constructor CloneForSub(r: ErrorRule, prefix: string)
      ensures Attr() == SubInjector.CloneRule(r.Attr(), prefix) && Ctr() == Fresh
    {
      var ms: seq<Matcher> := [];
      for i := 0 to |r.matchers|
        invariant |ms| == i
        invariant forall k :: 0 <= k < i ==> ms[k] == Clone(r.matchers[k], prefix)
      {
        ms := ms + [Clone(r.matchers[i], prefix)];
      }
      err, mode, afterN, matchers := r.err, r.mode, r.afterN, ms;
      usedOnce, hits := false, 0;
    }
  }

  class ErrorInjector {
    var configs: map<Operation, seq<ErrorRule>>
    ghost var rules: set<ErrorRule>

    ghost predicate Valid()
      reads this
    {
      rules == RulesIn(configs)
    }

    function RulesFor(op: Operation): seq<ErrorRule>
      reads this
    {
      if op in configs then configs[op] else []
    }

    ghost predicate Proper()
      reads this
    {
      DistinctIn(configs) && NoEmpty(configs)
    }

    ghost function Counters(): map<ErrorRule, Counter>
      reads this, rules
    {
      map r | r in rules :: r.Ctr()
    }

    ghost function View(): (v: Injector<ErrorRule>)
      requires Valid()
      reads this, rules
      ensures ValidInjector(v)
    {
      Injector(map r | r in rules :: r.Attr(), Counters(), configs)
    }

    constructor ()
      ensures Valid() && configs == map[] && rules == {}
    {
      configs, rules := map[], {};
    }

    /** Append a rule to the list of op. */
    method Add(op: Operation, rule: ErrorRule)
      requires Valid()
      modifies this
      ensures Valid() && configs == old(configs)[op := old(RulesFor(op)) + [rule]]
      ensures rules == old(rules) + {rule}
    {
      RulesInAppend(configs, op, RulesFor(op), rule);
      rules := rules + {rule};
      configs := configs[op := RulesFor(op) + [rule]];
    }

    method Clear()
      modifies this
      ensures Valid() && configs == map[] && rules == {}
    {
      configs, rules := map[], {};
    }

    /** NewErrorRule and Add: the rule is new, so it shares its counter with no other. */
    method AddNew(op: Operation, err: Error, mode: ErrorMode, afterN: nat, m: Matcher) returns (rule: ErrorRule)
      requires Valid() && Proper()
      modifies this
      ensures Valid() && Proper() && fresh(rule) && rule.Attr() == Rule(err, mode, afterN, [m]) && rule.Ctr() == Fresh
      ensures RulesFor(op) == old(RulesFor(op)) + [rule]
      ensures forall o :: o != op ==> RulesFor(o) == old(RulesFor(o))
    {
      rule := new ErrorRule(err, mode, afterN, [m]);
      DistinctAppend(configs, op, RulesFor(op), rule);
      Add(op, rule);
    }

    /** The common part of the Add*ForAllOps methods: a new rule for each operation, so
        that no counter is shared. */
    method AddForAllOps(err: Error, mode: ErrorMode, afterN: nat, m: Matcher)
      requires Valid() && Proper()
      modifies this
      ensures Valid() && Proper()
      ensures forall op :: !ValidOp(op) ==> RulesFor(op) == old(RulesFor(op))
      ensures forall op :: ValidOp(op) ==>
        |RulesFor(op)| == |old(RulesFor(op))| + 1 && RulesFor(op)[..|old(RulesFor(op))|] == old(RulesFor(op))
        && fresh(RulesFor(op)[|old(RulesFor(op))|])
        && RulesFor(op)[|old(RulesFor(op))|].Attr() == Rule(err, mode, afterN, [m])
        && RulesFor(op)[|old(RulesFor(op))|].Ctr() == Fresh
    {
      ghost var added: map<Operation, ErrorRule> := map[];
      var op := OpStat;
      while op < NumOperations
        invariant OpStat <= op <= NumOperations && Valid() && Proper()
        invariant forall o :: o in added <==> OpStat <= o < op
        invariant forall o :: RulesFor(o) == old(RulesFor(o)) + if o in added then [added[o]] else []
        invariant forall o :: o in added ==>
          fresh(added[o]) && added[o].Attr() == Rule(err, mode, afterN, [m]) && added[o].Ctr() == Fresh
      {
        var rule := AddNew(op, err, mode, afterN, m);
        added := added[op := rule];
        op := op + 1;
      }
    }

    /** Of the counters only rule's has changed. */
    twostate lemma {:induction false} Counted(rule: ErrorRule)
      requires old(Valid()) && unchanged(this) && rule in rules && forall r :: r in rules && r != rule ==> unchanged(r)
      ensures View() == old(View()).(ctr := old(View()).ctr[rule := rule.Ctr()])
    {
    }

    /** One list of rules, tried in order. */
    method TryList(rs: seq<ErrorRule>, path: string) returns (err: Option<Error>)
      requires Valid() && forall i :: 0 <= i < |rs| ==> rs[i] in rules
      modifies rules
      ensures Valid()
      ensures var v := Consult(rs, old(View().attr), old(View().ctr), path);
        err == v.err && View() == old(View()).(ctr := v.ctr)
    {
      ghost var attr, ctr0 := View().attr, View().ctr;
      for i := 0 to |rs|
        invariant View().attr == attr && View().ctr.Keys == ctr0.Keys && configs == old(configs)
        invariant Consult(rs, attr, ctr0, path).err == Consult(rs[i..], attr, View().ctr, path).err
        invariant Consult(rs, attr, ctr0, path).ctr == Consult(rs[i..], attr, View().ctr, path).ctr
      {
        assert rs[i..][1..] == rs[i+1..];
        var applies := rs[i].Applies(path);
        if applies {
          label asked:
          var fires := rs[i].ShouldReturnError();
          Counted@asked(rs[i]);
          if fires {
            return Some(rs[i].err);
          }
        }
      }
      return None;
    }

    /** The rules of op first; the rules for all operations only when none of those fires. */
    method CheckAndApply(op: Operation, path: string) returns (err: Option<Error>)
      requires Valid()
      modifies rules
      ensures Valid()
      ensures var v := Check(old(View()), op, path);
        err == v.err && View() == After(old(View()), v)
      ensures var was, own := old(View()), if op in configs then configs[op] else [];
        var all := if OpUnknown in configs then configs[OpUnknown] else [];
        var v := Consult(own, was.attr, was.ctr, path);
        if v.err.Some? then
          err == v.err && View().ctr == v.ctr && forall r :: r in rules && r !in own ==> r.Ctr() == old(r.Ctr())
        else
          err == Consult(all, was.attr, v.ctr, path).err && View().ctr == Consult(all, was.attr, v.ctr, path).ctr
    {
      ghost var v0 := View();
      ghost var own := if op in configs then configs[op] else [];
      ghost var all := if OpUnknown in configs then configs[OpUnknown] else [];
      OwnListFirst(v0, op, path, own, all);
      if op in configs {
        err := TryList(configs[op], path);
        if err.Some? { return; }
      }
      if OpUnknown in configs {
        err := TryList(configs[OpUnknown], path);
        return;
      }
      return None;
    }

    /** c holds clones, and nothing else, of the rules of the operations in done. */
    ghost predicate ClonedLists(c: ErrorInjector, done: set<Operation>, prefix: string)
      reads this, c
    {
      forall op ::
        && Clones(c.RulesFor(op), RulesFor(op), prefix)
        && |c.RulesFor(op)| == if op in done then |RulesFor(op)| else 0
    }

    /** Clone the rules of op, which c does not have yet. */
    method CloneList(c: ErrorInjector, op: Operation, prefix: string, ghost done: set<Operation>)
      requires c != this && op in configs && op !in done && c.Valid() && c.Proper() && ClonedLists(c, done, prefix)
      modifies c
      ensures c.Valid() && c.Proper() && ClonedLists(c, done + {op}, prefix)
      ensures forall r :: r in c.rules - old(c.rules) ==> fresh(r) && r.Ctr() == Fresh
    {
      var rs := configs[op];
      ghost var was := c.rules;
      for i := 0 to |rs|
        invariant c.Valid() && c.Proper() && configs == old(configs)
        invariant forall r :: r in c.rules - was ==> fresh(r) && r.Ctr() == Fresh
        invariant Clones(c.RulesFor(op), rs, prefix) && |c.RulesFor(op)| == i
        invariant forall o :: o != op ==> c.RulesFor(o) == old(c.RulesFor(o))
      {
        ghost var before := c.rules;
        var rule := new ErrorRule.CloneForSub(rs[i], prefix);
        DistinctAppend(c.configs, op, c.RulesFor(op), rule);
        c.Add(op, rule);
        assert c.rules - was == (before - was) + {rule};
      }
    }

    /** Every rule cloned into a new object, list by list, the operations in any order. */
    method CloneForSub(prefix: string) returns (c: ErrorInjector)
      ensures fresh(c) && c.Valid() && c.Proper()
      ensures forall r :: r in c.rules ==> fresh(r) && r.Ctr() == Fresh
      ensures forall op :: |c.RulesFor(op)| == |RulesFor(op)| && Clones(c.RulesFor(op), RulesFor(op), prefix)
    {
      c := new ErrorInjector();
      var todo := configs.Keys;
      while todo != {}
        invariant todo <= configs.Keys && fresh(c) && c.Valid() && c.Proper()
        invariant forall r :: r in c.rules ==> fresh(r) && r.Ctr() == Fresh
        invariant ClonedLists(c, configs.Keys - todo, prefix)
        invariant configs == old(configs)
        decreases todo
      {
        SomeOperation(todo);
        var op: Operation :| op in todo;
        ghost var before := c.rules;
        CloneList(c, op, prefix, configs.Keys - todo);
        assert c.rules <= before + (c.rules - before);
        assert configs.Keys - (todo - {op}) == configs.Keys - todo + {op};
        todo := todo - {op};
      }
    }
  }
}
