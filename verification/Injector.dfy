/** The error-rule engine: rules with counters, tried in order. Rules have an identity R,
    so that one rule may stand in several places and its counter is then shared. */
module Injector {
  import opened Common
  import opened Matchers

  datatype ErrorMode = Always | Once | AfterSuccesses | Next

  datatype Rule = Rule(err: Error, mode: ErrorMode, afterN: nat, matchers: seq<Matcher>)

  /** hits is an unsigned 64-bit number. */
  datatype Counter = Counter(hits: nat, used: bool)

  const Fresh := Counter(0, false)

  predicate RuleMatches(r: Rule, path: string) {
    exists i :: 0 <= i < |r.matchers| && Matches(r.matchers[i], path)
  }

  /** shouldReturnError: the decision and the new counter. */
  function Decide(mode: ErrorMode, n: nat, c: Counter): (bool, Counter) {
    var hits := (c.hits + 1) % TWO_64;
    match mode
    case Always => (true, c)
    case Once => (!c.used, c.(used := true))
    case AfterSuccesses => (hits > n, c.(hits := hits))
    case Next => (hits <= n, c.(hits := hits))
  }

  /** configs as lists of rule identities, with the rules and their counters. */
  datatype Injector<R(==)> = Injector(
    attr: map<R, Rule>, ctr: map<R, Counter>, lists: map<Operation, seq<R>>)

  predicate Known<R(==)>(rs: seq<R>, attr: map<R, Rule>, ctr: map<R, Counter>) {
    forall i :: 0 <= i < |rs| ==> rs[i] in attr && rs[i] in ctr
  }

  predicate ValidInjector<R(==)>(inj: Injector<R>) {
    forall op :: op in inj.lists ==> Known(inj.lists[op], inj.attr, inj.ctr)
  }

  datatype Event<R> = Event(rule: R, fired: bool)

  datatype Verdict<R(==)> = Verdict(err: Option<Error>, ctr: map<R, Counter>, log: seq<Event<R>>)

  /** Try the rules in order until one fires. */
  function Consult<R(==)>(rs: seq<R>, attr: map<R, Rule>, ctr: map<R, Counter>, path: string): (v: Verdict<R>)
    requires Known(rs, attr, ctr)
    ensures v.ctr.Keys == ctr.Keys
  {
    if rs == [] then Verdict(None, ctr, [])
    else if !RuleMatches(attr[rs[0]], path) then Consult(rs[1..], attr, ctr, path)
    else
      var d := Decide(attr[rs[0]].mode, attr[rs[0]].afterN, ctr[rs[0]]);
      var ctr' := ctr[rs[0] := d.1];
      if d.0 then Verdict(Some(attr[rs[0]].err), ctr', [Event(rs[0], true)])
      else
        var v := Consult(rs[1..], attr, ctr', path);
        v.(log := [Event(rs[0], false)] + v.log)
  }

  function ListOf<R(==)>(inj: Injector<R>, op: Operation): seq<R> {
    if op in inj.lists then inj.lists[op] else []
  }

  /** The rules that apply to op, in the order they are tried. */
  function Cascade<R(==)>(inj: Injector<R>, op: Operation): seq<R> {
    ListOf(inj, op) + ListOf(inj, OpUnknown)
  }

  function Check<R(==)>(inj: Injector<R>, op: Operation, path: string): Verdict<R>
    requires ValidInjector(inj)
  {
    Consult(Cascade(inj, op), inj.attr, inj.ctr, path)
  }

  function After<R(==)>(inj: Injector<R>, v: Verdict<R>): Injector<R> {
    inj.(ctr := v.ctr)
  }

  // ----- Who is consulted -----

  function Matching<R(==)>(rs: seq<R>, attr: map<R, Rule>, path: string): (m: seq<R>)
    requires forall i :: 0 <= i < |rs| ==> rs[i] in attr
    ensures forall i :: 0 <= i < |m| ==> m[i] in attr
  {
    if rs == [] then []
    else if RuleMatches(attr[rs[0]], path) then [rs[0]] + Matching(rs[1..], attr, path)
    else Matching(rs[1..], attr, path)
  }

  /** A rule is consulted exactly when it matches and no earlier rule fired: the log runs
      through the matching rules in order, only its last event can have fired, and it
      stops early only for that. */
  lemma {:induction false} ConsultExact<R>(rs: seq<R>, attr: map<R, Rule>, ctr: map<R, Counter>, path: string)
    requires Known(rs, attr, ctr)
    ensures var v := Consult(rs, attr, ctr, path); var m := Matching(rs, attr, path); var k := |v.log|;
      && k <= |m|
      && (forall i :: 0 <= i < k ==> v.log[i].rule == m[i])
      && (forall i :: 0 <= i < k - 1 ==> !v.log[i].fired)
      && (v.err.None? ==> k == |m| && (k > 0 ==> !v.log[k-1].fired))
      && (v.err.Some? ==> k > 0 && v.log[k-1].fired && v.err.value == attr[m[k-1]].err)
  {
    if rs != [] {
      if RuleMatches(attr[rs[0]], path) {
        var d := Decide(attr[rs[0]].mode, attr[rs[0]].afterN, ctr[rs[0]]);
        ConsultExact(rs[1..], attr, ctr[rs[0] := d.1], path);
      } else {
        ConsultExact(rs[1..], attr, ctr, path);
      }
    }
  }

  /** Trying two lists one after the other. */
  lemma {:induction false} ConsultConcat<R>(
      a: seq<R>, b: seq<R>, attr: map<R, Rule>, ctr: map<R, Counter>, path: string)
    requires Known(a, attr, ctr) && Known(b, attr, ctr)
    ensures var v, va := Consult(a + b, attr, ctr, path), Consult(a, attr, ctr, path);
      if va.err.Some? then v.err == va.err && v.ctr == va.ctr
      else v.err == Consult(b, attr, va.ctr, path).err && v.ctr == Consult(b, attr, va.ctr, path).ctr
  {
    if a == [] {
      assert a + b == b;
    } else {
      assert (a + b)[1..] == a[1..] + b;
      if RuleMatches(attr[a[0]], path) {
        var d := Decide(attr[a[0]].mode, attr[a[0]].afterN, ctr[a[0]]);
        ConsultConcat(a[1..], b, attr, ctr[a[0] := d.1], path);
      } else {
        ConsultConcat(a[1..], b, attr, ctr, path);
      }
    }
  }

  /** Only the rules that are tried count. */
  lemma {:induction false} ConsultKeeps<R>(
      rs: seq<R>, attr: map<R, Rule>, ctr: map<R, Counter>, path: string, r: R)
    requires Known(rs, attr, ctr) && r in ctr && r !in rs
    ensures Consult(rs, attr, ctr, path).ctr[r] == ctr[r]
  {
    if rs != [] {
      if RuleMatches(attr[rs[0]], path) {
        var d := Decide(attr[rs[0]].mode, attr[rs[0]].afterN, ctr[rs[0]]);
        ConsultKeeps(rs[1..], attr, ctr[rs[0] := d.1], path, r);
      } else {
        ConsultKeeps(rs[1..], attr, ctr, path, r);
      }
    }
  }

  /** The operation's own list comes first. If a rule of it fires, that is the verdict, and the
      rules that stand elsewhere keep their counters; only if none fires are the rules for all
      operations tried, from the counters so reached. */
  lemma {:induction false} OwnListFirst<R>(inj: Injector<R>, op: Operation, path: string, own: seq<R>, all: seq<R>)
    requires ValidInjector(inj)
    requires own == if op in inj.lists then inj.lists[op] else []
    requires all == if OpUnknown in inj.lists then inj.lists[OpUnknown] else []
    ensures var c, v := Check(inj, op, path), Consult(own, inj.attr, inj.ctr, path);
      if v.err.Some? then
        c.err == v.err && c.ctr == v.ctr && forall r :: r in inj.ctr && r !in own ==> c.ctr[r] == inj.ctr[r]
      else
        var w := Consult(all, inj.attr, v.ctr, path);
        c.err == w.err && c.ctr == w.ctr
  {
    ConsultConcat(own, all, inj.attr, inj.ctr, path);
    forall r | r in inj.ctr && r !in own ensures Consult(own, inj.attr, inj.ctr, path).ctr[r] == inj.ctr[r] {
      ConsultKeeps(own, inj.attr, inj.ctr, path, r);
    }
  }

  /** The first rule of the own list that fires, when those before it have been asked, gives its
      error. It counts once more; the rules behind it, and those for all operations, do not. */
  lemma {:induction false} FirstToFire<R>(inj: Injector<R>, op: Operation, path: string, i: nat)
    requires ValidInjector(inj) && op in inj.lists && i < |inj.lists[op]|
    requires var rs := inj.lists[op]; var v := Consult(rs[..i], inj.attr, inj.ctr, path);
      && v.err.None? && RuleMatches(inj.attr[rs[i]], path)
      && Decide(inj.attr[rs[i]].mode, inj.attr[rs[i]].afterN, v.ctr[rs[i]]).0
    ensures var rs := inj.lists[op]; var v, c := Consult(rs[..i], inj.attr, inj.ctr, path), Check(inj, op, path);
      && c.err == Some(inj.attr[rs[i]].err)
      && c.ctr == v.ctr[rs[i] := Decide(inj.attr[rs[i]].mode, inj.attr[rs[i]].afterN, v.ctr[rs[i]]).1]
      && forall r :: r in inj.ctr && r !in rs[..i+1] ==> c.ctr[r] == inj.ctr[r]
  {
    var rs := inj.lists[op];
    assert rs == rs[..i] + rs[i..];
    ConsultConcat(rs[..i], rs[i..], inj.attr, inj.ctr, path);
    OwnListFirst(inj, op, path, rs, if OpUnknown in inj.lists then inj.lists[OpUnknown] else []);
    forall r | r in inj.ctr && r !in rs[..i+1] ensures Check(inj, op, path).ctr[r] == inj.ctr[r] {
      assert rs[i] in rs[..i+1] && forall x :: x in rs[..i] ==> x in rs[..i+1];
      ConsultKeeps(rs[..i], inj.attr, inj.ctr, path, r);
    }
  }

  /** A rule that always fires, the only one there is: its error comes from every check of its
      operation, or of any operation if it is for all, on a path that one of its matchers takes. */
  lemma {:induction false} OneRule<R>(r: R, rule: Rule, op: Operation, o: Operation, q: string)
    requires rule.mode == Always
    ensures var c := Check(Injector(map[r := rule], map[r := Fresh], map[op := [r]]), o, q);
      c.err == if (o == op || op == OpUnknown) && (exists i :: (
        0 <= i < |rule.matchers| && match rule.matchers[i]
        case Exact(p) => q == p
        case Regexp(re) => re(q)
        case RegexpParent(re, prefix) => re(if q == "." || q == "" then prefix else prefix + "/" + q)
        case Glob(g) => g(q)
        case GlobParent(g, prefix) => g(if q == "." || q == "" then prefix else prefix + "/" + q)
        case Wildcard => true
        case Never => false)) then Some(rule.err) else None
  {
    var inj := Injector(map[r := rule], map[r := Fresh], map[op := [r]]);
    assert Consult([r], inj.attr, inj.ctr, q).err == if RuleMatches(rule, q) then Some(rule.err) else None;
    OwnListFirst(inj, o, q, if o == op then [r] else [], if op == OpUnknown then [r] else []);
  }

  /** Rules that do not match neither fire nor count. */
  lemma {:induction false} QuietConsult<R>(rs: seq<R>, attr: map<R, Rule>, ctr: map<R, Counter>, p: string)
    requires Known(rs, attr, ctr)
    requires forall r :: r in rs ==> !RuleMatches(attr[r], p)
    ensures Consult(rs, attr, ctr, p) == Verdict(None, ctr, [])
  {
    if rs != [] {
      QuietConsult(rs[1..], attr, ctr, p);
    }
  }

  // ----- The closed form of a rule -----

  /** The decision at the j-th consultation of a fresh rule. */
  predicate DecideAt(mode: ErrorMode, n: nat, j: nat) {
    match mode
    case Always => true
    case Once => j == 1
    case AfterSuccesses => j % TWO_64 > n
    case Next => j % TWO_64 <= n
  }

  function CounterAfter(mode: ErrorMode, k: nat): Counter {
    match mode
    case Always => Fresh
    case Once => Counter(0, k > 0)
    case AfterSuccesses => Counter(k % TWO_64, false)
    case Next => Counter(k % TWO_64, false)
  }

  /** How many of k consultations fire. */
  function ClosedFires(mode: ErrorMode, n: nat, k: nat): nat {
    match mode
    case Always => k
    case Once => if k < 1 then k else 1
    case AfterSuccesses => if k < n then 0 else k - n
    case Next => if k < n then k else n
  }

  lemma {:induction false} DecideIsClosed(mode: ErrorMode, n: nat, k: nat)
    ensures Decide(mode, n, CounterAfter(mode, k)) == (DecideAt(mode, n, k + 1), CounterAfter(mode, k + 1))
  {
    assert (k % TWO_64 + 1) % TWO_64 == (k + 1) % TWO_64;
  }

  function Count<R(==)>(log: seq<Event<R>>, r: R): nat {
    if log == [] then 0
    else Count(log[..|log|-1], r) + (if log[|log|-1].rule == r then 1 else 0)
  }

  function Fires<R(==)>(log: seq<Event<R>>, r: R): nat {
    if log == [] then 0
    else Fires(log[..|log|-1], r) + (if log[|log|-1] == Event(r, true) then 1 else 0)
  }

  predicate FaithfulAt<R(==)>(log: seq<Event<R>>, attr: map<R, Rule>, i: nat)
    requires i < |log|
  {
    && log[i].rule in attr
    && log[i].fired == DecideAt(attr[log[i].rule].mode, attr[log[i].rule].afterN, Count(log[..i], log[i].rule) + 1)
  }

  /** Every event in the log is what the closed form says for its rule. */
  predicate Faithful<R(==)>(log: seq<Event<R>>, attr: map<R, Rule>) {
    forall i :: 0 <= i < |log| ==> FaithfulAt(log, attr, i)
  }

  /** The counters are what the log says. */
  predicate Tracks<R(==)>(ctr: map<R, Counter>, attr: map<R, Rule>, log: seq<Event<R>>) {
    forall r :: r in ctr ==> r in attr && ctr[r] == CounterAfter(attr[r].mode, Count(log, r))
  }

  lemma {:induction false} CountSnoc<R>(log: seq<Event<R>>, e: Event<R>, r: R)
    ensures Count(log + [e], r) == Count(log, r) + (if e.rule == r then 1 else 0)
    ensures Fires(log + [e], r) == Fires(log, r) + (if e == Event(r, true) then 1 else 0)
  {
    assert (log + [e])[..|log|] == log;
  }

  lemma {:induction false} FaithfulSnoc<R>(log: seq<Event<R>>, e: Event<R>, attr: map<R, Rule>)
    requires Faithful(log, attr) && e.rule in attr
    requires e.fired == DecideAt(attr[e.rule].mode, attr[e.rule].afterN, Count(log, e.rule) + 1)
    ensures Faithful(log + [e], attr)
  {
    var l := log + [e];
    forall i | 0 <= i < |l| ensures FaithfulAt(l, attr, i) {
      if i < |log| {
        assert FaithfulAt(log, attr, i) && l[..i] == log[..i];
      } else {
        assert l[..i] == log;
      }
    }
  }

  lemma {:induction false} TracksSnoc<R>(
      ctr: map<R, Counter>, attr: map<R, Rule>, log: seq<Event<R>>, r: R, fired: bool)
    requires Tracks(ctr, attr, log) && r in ctr
    ensures var c := Decide(attr[r].mode, attr[r].afterN, ctr[r]).1;
      Tracks(ctr[r := c], attr, log + [Event(r, fired)])
  {
    DecideIsClosed(attr[r].mode, attr[r].afterN, Count(log, r));
    forall s | s in ctr ensures Count(log + [Event(r, fired)], s) == Count(log, s) + (if r == s then 1 else 0) {
      CountSnoc(log, Event(r, fired), s);
    }
  }

  /** One rule consulted. */
  lemma {:induction false} FaithfulNext<R>(attr: map<R, Rule>, ctr: map<R, Counter>, log: seq<Event<R>>, r: R)
    requires r in attr && r in ctr && Tracks(ctr, attr, log) && Faithful(log, attr)
    ensures var d := Decide(attr[r].mode, attr[r].afterN, ctr[r]);
      Tracks(ctr[r := d.1], attr, log + [Event(r, d.0)]) && Faithful(log + [Event(r, d.0)], attr)
  {
    var d := Decide(attr[r].mode, attr[r].afterN, ctr[r]);
    DecideIsClosed(attr[r].mode, attr[r].afterN, Count(log, r));
    FaithfulSnoc(log, Event(r, d.0), attr);
    TracksSnoc(ctr, attr, log, r, d.0);
  }

  lemma {:induction false} FaithfulJoin<R>(v: Verdict<R>, attr: map<R, Rule>, log: seq<Event<R>>, e: Event<R>)
    requires Tracks(v.ctr, attr, log + [e] + v.log) && Faithful(log + [e] + v.log, attr)
    ensures Tracks(v.ctr, attr, log + ([e] + v.log)) && Faithful(log + ([e] + v.log), attr)
  {
    assert log + ([e] + v.log) == log + [e] + v.log;
  }

  lemma {:induction false} ConsultFaithful<R>(
      rs: seq<R>, attr: map<R, Rule>, ctr: map<R, Counter>, path: string, log: seq<Event<R>>)
    requires Known(rs, attr, ctr) && Tracks(ctr, attr, log) && Faithful(log, attr)
    ensures var v := Consult(rs, attr, ctr, path);
      Tracks(v.ctr, attr, log + v.log) && Faithful(log + v.log, attr)
  {
    if rs == [] {
      assert log + [] == log;
    } else if !RuleMatches(attr[rs[0]], path) {
      ConsultFaithful(rs[1..], attr, ctr, path, log);
    } else {
      var r := rs[0];
      var d := Decide(attr[r].mode, attr[r].afterN, ctr[r]);
      FaithfulNext(attr, ctr, log, r);
      if !d.0 {
        ConsultFaithful(rs[1..], attr, ctr[r := d.1], path, log + [Event(r, false)]);
        FaithfulJoin(Consult(rs[1..], attr, ctr[r := d.1], path), attr, log, Event(r, false));
      }
    }
  }

  lemma {:induction false} ClosedStep(mode: ErrorMode, n: nat, k: nat)
    requires k + 1 < TWO_64
    ensures ClosedFires(mode, n, k + 1) == ClosedFires(mode, n, k) + (if DecideAt(mode, n, k + 1) then 1 else 0)
  {
    assert (k + 1) % TWO_64 == k + 1;
  }

  lemma {:induction false} FaithfulPrefix<R>(log: seq<Event<R>>, attr: map<R, Rule>)
    requires Faithful(log, attr) && log != []
    ensures Faithful(log[..|log|-1], attr)
  {
    var l := log[..|log|-1];
    forall i | 0 <= i < |l| ensures FaithfulAt(l, attr, i) {
      assert FaithfulAt(log, attr, i) && l[..i] == log[..i] && l[i] == log[i];
    }
  }

  lemma {:induction false} FaithfulCloses<R>(log: seq<Event<R>>, attr: map<R, Rule>, r: R)
    requires Faithful(log, attr) && r in attr && Count(log, r) < TWO_64
    ensures Fires(log, r) == ClosedFires(attr[r].mode, attr[r].afterN, Count(log, r))
  {
    if log != [] {
      var k := |log| - 1;
      FaithfulPrefix(log, attr);
      FaithfulCloses(log[..k], attr, r);
      assert FaithfulAt(log, attr, k);
      if log[k].rule == r {
        ClosedStep(attr[r].mode, attr[r].afterN, Count(log[..k], r));
      }
    }
  }

  // ----- Runs -----

  datatype Call = Call(op: Operation, path: string)

  datatype Trace<R(==)> = Trace(errs: seq<Option<Error>>, final: Injector<R>, log: seq<Event<R>>)

  function RunChecks<R(==)>(inj: Injector<R>, calls: seq<Call>): (t: Trace<R>)
    requires ValidInjector(inj)
    ensures |t.errs| == |calls| && t.final.attr == inj.attr && t.final.lists == inj.lists
    ensures t.final.ctr.Keys == inj.ctr.Keys
    decreases |calls|
  {
    if calls == [] then Trace([], inj, [])
    else
      var v := Check(inj, calls[0].op, calls[0].path);
      var rest := RunChecks(After(inj, v), calls[1..]);
      Trace([v.err] + rest.errs, rest.final, v.log + rest.log)
  }

  predicate AllFresh<R(==)>(inj: Injector<R>) {
    forall r :: r in inj.ctr ==> r in inj.attr && inj.ctr[r] == Fresh
  }

  lemma {:induction false} RunUnfolds<R>(inj: Injector<R>, calls: seq<Call>, log: seq<Event<R>>)
    requires ValidInjector(inj) && calls != []
    ensures var v := Check(inj, calls[0].op, calls[0].path); var next := After(inj, v);
      && ValidInjector(next)
      && RunChecks(inj, calls) == Trace([v.err] + RunChecks(next, calls[1..]).errs,
                                        RunChecks(next, calls[1..]).final, v.log + RunChecks(next, calls[1..]).log)
      && log + RunChecks(inj, calls).log == (log + v.log) + RunChecks(next, calls[1..]).log
  {
    var v := Check(inj, calls[0].op, calls[0].path);
    AppendAssoc(log, v.log, RunChecks(After(inj, v), calls[1..]).log);
  }

  lemma {:induction false} AppendAssoc<T>(a: seq<T>, b: seq<T>, c: seq<T>)
    ensures a + (b + c) == (a + b) + c
  {
  }

  lemma {:induction false} CheckFaithful<R>(inj: Injector<R>, c: Call, log: seq<Event<R>>)
    requires ValidInjector(inj) && Tracks(inj.ctr, inj.attr, log) && Faithful(log, inj.attr)
    ensures var v := Check(inj, c.op, c.path);
      Tracks(v.ctr, inj.attr, log + v.log) && Faithful(log + v.log, inj.attr)
  {
    ConsultFaithful(Cascade(inj, c.op), inj.attr, inj.ctr, c.path, log);
  }

  lemma {:induction false} RunFaithful<R>(inj: Injector<R>, calls: seq<Call>, log: seq<Event<R>>)
    requires ValidInjector(inj) && Tracks(inj.ctr, inj.attr, log) && Faithful(log, inj.attr)
    ensures var t := RunChecks(inj, calls);
      Tracks(t.final.ctr, inj.attr, log + t.log) && Faithful(log + t.log, inj.attr)
    decreases |calls|
  {
    if calls == [] {
      assert log + [] == log;
    } else {
      RunUnfolds(inj, calls, log);
      CheckFaithful(inj, calls[0], log);
      var v := Check(inj, calls[0].op, calls[0].path);
      RunFaithful(After(inj, v), calls[1..], log + v.log);
    }
  }

  /** Over any run from fresh counters: a rule consulted k < 2^64 times has produced k,
      min(k,1), max(0,k-N) or min(k,N) errors. */
  lemma {:induction false} CascadeClosedForm<R>(inj: Injector<R>, calls: seq<Call>, r: R)
    requires ValidInjector(inj) && AllFresh(inj) && r in inj.attr
    requires Count(RunChecks(inj, calls).log, r) < TWO_64
    ensures var log := RunChecks(inj, calls).log;
      Fires(log, r) == ClosedFires(inj.attr[r].mode, inj.attr[r].afterN, Count(log, r))
  {
    var log := RunChecks(inj, calls).log;
    RunFaithful(inj, calls, []);
    assert [] + log == log;
    FaithfulCloses(log, inj.attr, r);
  }

  /** The bound is sharp: at its 2^64-th consultation a rule that fails after N successes
      succeeds again, and one that fails N times fails again. */
  lemma {:induction false} CounterWraps(n: nat)
    requires n < TWO_64
    ensures !DecideAt(AfterSuccesses, n, TWO_64) && DecideAt(Next, n, TWO_64)
    ensures forall j: nat :: 1 <= j < TWO_64 ==>
      (DecideAt(AfterSuccesses, n, j) <==> j > n) && (DecideAt(Next, n, j) <==> j <= n)
  {
  }

  // ----- Rules that behave alike -----

  /** The same rule, written with another mode: Once is Next with N = 1, Always is
      AfterSuccesses with N = 0. */
  ghost predicate SameRule(a: Rule, b: Rule) {
    && a.err == b.err && a.matchers == b.matchers
    && (|| (a.mode == b.mode && a.afterN == b.afterN)
        || (a.mode == Once && b.mode == Next && b.afterN == 1)
        || (a.mode == Always && b.mode == AfterSuccesses && b.afterN == 0))
  }

  /** What is left to consult after the first matching rule. */
  function RestLog<R(==)>(rs: seq<R>, attr: map<R, Rule>, ctr: map<R, Counter>, path: string): seq<Event<R>>
    requires Known(rs, attr, ctr) && rs != []
  {
    var d := Decide(attr[rs[0]].mode, attr[rs[0]].afterN, ctr[rs[0]]);
    if d.0 then [] else Consult(rs[1..], attr, ctr[rs[0] := d.1], path).log
  }

  lemma {:induction false} ConsultUnfolds<R>(
      rs: seq<R>, attr: map<R, Rule>, ctr: map<R, Counter>, path: string, log: seq<Event<R>>)
    requires Known(rs, attr, ctr) && rs != [] && RuleMatches(attr[rs[0]], path)
    ensures var d := Decide(attr[rs[0]].mode, attr[rs[0]].afterN, ctr[rs[0]]); var e := Event(rs[0], d.0);
      && Consult(rs, attr, ctr, path).log == [e] + RestLog(rs, attr, ctr, path)
      && log + Consult(rs, attr, ctr, path).log == (log + [e]) + RestLog(rs, attr, ctr, path)
  {
  }

  /** One consultation of equivalent rules with equal histories. */
  lemma {:induction false} StepAlike<R>(
      r: R, attr: map<R, Rule>, ctr: map<R, Counter>, attr': map<R, Rule>, ctr': map<R, Counter>,
                     log: seq<Event<R>>)
    requires Tracks(ctr, attr, log) && Tracks(ctr', attr', log) && r in ctr && r in ctr'
    requires SameRule(attr[r], attr'[r]) && Count(log, r) + 1 < TWO_64
    ensures var d := Decide(attr[r].mode, attr[r].afterN, ctr[r]);
      var d' := Decide(attr'[r].mode, attr'[r].afterN, ctr'[r]);
      && d.0 == d'.0
      && Tracks(ctr[r := d.1], attr, log + [Event(r, d.0)])
      && Tracks(ctr'[r := d'.1], attr', log + [Event(r, d.0)])
  {
    var k := Count(log, r);
    DecideIsClosed(attr[r].mode, attr[r].afterN, k);
    DecideIsClosed(attr'[r].mode, attr'[r].afterN, k);
    assert (k + 1) % TWO_64 == k + 1;
    var fired := DecideAt(attr[r].mode, attr[r].afterN, k + 1);
    TracksSnoc(ctr, attr, log, r, fired);
    TracksSnoc(ctr', attr', log, r, fired);
  }

  lemma {:induction false} ConsultAlike<R>(
      rs: seq<R>, attr: map<R, Rule>, ctr: map<R, Counter>, attr': map<R, Rule>, ctr': map<R, Counter>,
      path: string, log: seq<Event<R>>)
    requires Known(rs, attr, ctr) && Known(rs, attr', ctr')
    requires Tracks(ctr, attr, log) && Tracks(ctr', attr', log)
    requires forall r :: r in attr && r in attr' ==> SameRule(attr[r], attr'[r])
    requires forall r :: r in attr ==> Count(log + Consult(rs, attr, ctr, path).log, r) < TWO_64
    ensures var v, v' := Consult(rs, attr, ctr, path), Consult(rs, attr', ctr', path);
      v.err == v'.err && v.log == v'.log && Tracks(v.ctr, attr, log + v.log) && Tracks(v'.ctr, attr', log + v.log)
  {
    if rs == [] {
      assert log + [] == log;
    } else {
      var r := rs[0];
      assert SameRule(attr[r], attr'[r]);
      assert RuleMatches(attr[r], path) == RuleMatches(attr'[r], path);
      if !RuleMatches(attr[r], path) {
        ConsultAlike(rs[1..], attr, ctr, attr', ctr', path, log);
      } else {
        var d, d' := Decide(attr[r].mode, attr[r].afterN, ctr[r]), Decide(attr'[r].mode, attr'[r].afterN, ctr'[r]);
        var e := Event(r, d.0);
        ConsultUnfolds(rs, attr, ctr, path, log);
        CountMonotone(log + [e], RestLog(rs, attr, ctr, path), r);
        CountSnoc(log, e, r);
        StepAlike(r, attr, ctr, attr', ctr', log);
        if !d.0 {
          ConsultAlike(rs[1..], attr, ctr[r := d.1], attr', ctr'[r := d'.1], path, log + [e]);
          ConsultUnfolds(rs, attr', ctr', path, log);
        }
      }
    }
  }

  lemma {:induction false} CountMonotone<R>(a: seq<Event<R>>, b: seq<Event<R>>, r: R)
    ensures Count(a, r) <= Count(a + b, r)
  {
    if b == [] {
      assert a + b == a;
    } else {
      CountMonotone(a, b[..|b|-1], r);
      assert a + b == (a + b[..|b|-1]) + [b[|b|-1]];
      CountSnoc(a + b[..|b|-1], b[|b|-1], r);
    }
  }

  /** Rewriting rules to their equivalents changes no error and no consultation of any run
      in which every rule is consulted fewer than 2^64 times. */
  lemma {:induction false} RunAlike<R>(inj: Injector<R>, inj': Injector<R>, calls: seq<Call>, log: seq<Event<R>>)
    requires ValidInjector(inj) && ValidInjector(inj') && inj.lists == inj'.lists
    requires Tracks(inj.ctr, inj.attr, log) && Tracks(inj'.ctr, inj'.attr, log)
    requires Faithful(log, inj.attr)
    requires forall r :: r in inj.attr && r in inj'.attr ==> SameRule(inj.attr[r], inj'.attr[r])
    requires forall r :: r in inj.attr ==> Count(log + RunChecks(inj, calls).log, r) < TWO_64
    ensures RunChecks(inj, calls).errs == RunChecks(inj', calls).errs
    ensures RunChecks(inj, calls).log == RunChecks(inj', calls).log
    decreases |calls|
  {
    if calls != [] {
      var c := calls[0];
      var v := Check(inj, c.op, c.path);
      RunUnfolds(inj, calls, log);
      RunUnfolds(inj', calls, log);
      forall r | r in inj.attr ensures Count(log + v.log, r) < TWO_64 {
        CountMonotone(log + v.log, RunChecks(After(inj, v), calls[1..]).log, r);
      }
      CheckAlike(inj, inj', c, log);
      CheckFaithful(inj, c, log);
      RunAlike(After(inj, v), After(inj', Check(inj', c.op, c.path)), calls[1..], log + v.log);
    }
  }

  lemma {:induction false} CheckAlike<R>(inj: Injector<R>, inj': Injector<R>, c: Call, log: seq<Event<R>>)
    requires ValidInjector(inj) && ValidInjector(inj') && inj.lists == inj'.lists
    requires Tracks(inj.ctr, inj.attr, log) && Tracks(inj'.ctr, inj'.attr, log)
    requires forall r :: r in inj.attr && r in inj'.attr ==> SameRule(inj.attr[r], inj'.attr[r])
    requires forall r :: r in inj.attr ==> Count(log + Check(inj, c.op, c.path).log, r) < TWO_64
    ensures var v, v' := Check(inj, c.op, c.path), Check(inj', c.op, c.path);
      && v.err == v'.err && v.log == v'.log
      && Tracks(v.ctr, inj.attr, log + v.log) && Tracks(v'.ctr, inj'.attr, log + v.log)
  {
    ConsultAlike(Cascade(inj, c.op), inj.attr, inj.ctr, inj'.attr, inj'.ctr, c.path, log);
  }
}
