/** The rule router of `router/dispatcher.py`. */
module Dispatcher {
  import opened Wrappers
  import opened Rules
  import opened StableSort

  datatype RouterConfig = RouterConfig(rules: seq<RouteRule>, ipBlacklist: seq<string>, ipWhitelist: seq<string>)

  /** A connection is routed, or evaluating a condition raised. */
  datatype Outcome = Decided(decision: RouteDecision) | Raised

  const WHITELISTED := Decided(RouteDecision(LogOnly, "", "whitelist"))
  const FALLBACK := Decided(RouteDecision(LogOnly, "", "fallback"))

  function Priority(rule: RouteRule): int { rule.priority }

  predicate Decisive(c: Context, rule: RouteRule) { VerdictOf(c, rule) != No }

  /** The declared choice, straight from the configured list: among the rules that do not fail to match,
      the one of greatest priority, and the first listed among equals. */
  function Best(c: Context, rules: seq<RouteRule>): Option<RouteRule> {
    if rules == [] then None
    else
      var rest := Best(c, rules[1..]);
      if Decisive(c, rules[0]) && (rest.None? || rest.value.priority <= rules[0].priority) then Some(rules[0]) else rest
  }

  function OutcomeOf(c: Context, chosen: Option<RouteRule>): Outcome {
    match chosen
    case None => FALLBACK
    case Some(rule) =>
      if VerdictOf(c, rule) == Raises then Raised
      else DecisionBy(rule)
  }

  /** What a matching rule decides. */
  function DecisionBy(rule: RouteRule): Outcome { Decided(RouteDecision(FromStr(rule.action), rule.target, rule.name)) }

  /** The declared routing of a connection. */
  function Routed(config: RouterConfig, c: Context): Outcome {
    if c.remoteIp in config.ipWhitelist then WHITELISTED else OutcomeOf(c, Best(c, config.rules))
  }

  /** What routing promises, case by case: a whitelisted IP is only logged, whatever the rules say; otherwise the best
      decisive rule decides, or its condition raises; and where no rule is decisive the connection is only logged. */
  lemma RoutingMeaning(config: RouterConfig, c: Context)
    ensures c.remoteIp in config.ipWhitelist ==>
      Routed(config, c) == Decided(RouteDecision(LogOnly, "", "whitelist"))
    ensures c.remoteIp !in config.ipWhitelist && (forall rule :: rule in config.rules ==> VerdictOf(c, rule) == No) ==>
      Routed(config, c) == Decided(RouteDecision(LogOnly, "", "fallback"))
    ensures forall i :: c.remoteIp !in config.ipWhitelist && IsBest(c, config.rules, i) ==>
      var rule := config.rules[i];
      if VerdictOf(c, rule) == Raises then Routed(config, c) == Raised
      else Routed(config, c) == Decided(RouteDecision(FromStr(rule.action), rule.target, rule.name))
  {
    hide VerdictOf, FromStr, Best;
    BestIsGreatest(c, config.rules);
    if Best(c, config.rules).Some? {
      var k :| IsBest(c, config.rules, k) && config.rules[k] == Best(c, config.rules).value;
      assert config.rules[k] in config.rules;
    }
    forall i | IsBest(c, config.rules, i) ensures Best(c, config.rules) == Some(config.rules[i]) {
      BestIsUnique(c, config.rules, i);
    }
  }

  function FirstDecisive(c: Context, rules: seq<RouteRule>): Option<RouteRule> {
    if rules == [] then None else if Decisive(c, rules[0]) then Some(rules[0]) else FirstDecisive(c, rules[1..])
  }

  /** Rule `i` is decisive, at least as high as every decisive rule, and strictly higher than the earlier ones. */
  ghost predicate IsBest(c: Context, rules: seq<RouteRule>, i: int) {
    && 0 <= i < |rules| && Decisive(c, rules[i])
    && forall j :: 0 <= j < |rules| && Decisive(c, rules[j]) ==>
      rules[j].priority + (if j < i then 1 else 0) <= rules[i].priority
  }

  /** `Best` is what the policy says in words: the greatest priority wins, and among equals the first listed. */
  lemma {:induction false} BestIsGreatest(c: Context, rules: seq<RouteRule>)
    ensures Best(c, rules).None? ==> forall r :: r in rules ==> !Decisive(c, r)
    ensures Best(c, rules).Some? ==> exists i :: IsBest(c, rules, i) && rules[i] == Best(c, rules).value
  {
    if rules != [] {
      var tail := rules[1..];
      BestIsGreatest(c, tail);
      var rest := Best(c, tail);
      if Decisive(c, rules[0]) && (rest.None? || rest.value.priority <= rules[0].priority) {
        forall j | 0 < j < |rules| && Decisive(c, rules[j]) ensures rules[j].priority <= rules[0].priority {
          assert rules[j] == tail[j - 1] && tail[j - 1] in tail;
        }
        assert IsBest(c, rules, 0);
      } else if rest.Some? {
        var i :| IsBest(c, tail, i) && tail[i] == rest.value;
        forall j | 0 < j < |rules| && Decisive(c, rules[j])
          ensures rules[j].priority + (if j < i + 1 then 1 else 0) <= rules[i + 1].priority {
          assert rules[j] == tail[j - 1];
        }
        assert IsBest(c, rules, i + 1);
      }
    }
  }

  /** There is only one best rule. */
  lemma BestIsUnique(c: Context, rules: seq<RouteRule>, i: int)
    requires IsBest(c, rules, i)
    ensures Best(c, rules) == Some(rules[i])
  {
    BestIsGreatest(c, rules);
    assert rules[i] in rules;
    var k :| IsBest(c, rules, k) && rules[k] == Best(c, rules).value;
  }

  /** `Best` seen through the rules of one priority: none above it is decisive, and it is the first at its own. */
  lemma {:induction false} BestByPriority(c: Context, rules: seq<RouteRule>, p: int)
    ensures Best(c, rules).None? ==> FirstDecisive(c, WithKey(rules, Priority, p)) == None
    ensures Best(c, rules).Some? && p > Best(c, rules).value.priority ==>
      FirstDecisive(c, WithKey(rules, Priority, p)) == None
    ensures Best(c, rules).Some? && p == Best(c, rules).value.priority ==>
      FirstDecisive(c, WithKey(rules, Priority, p)) == Best(c, rules)
  {
    if rules != [] {
      BestByPriority(c, rules[1..], p);
      if Priority(rules[0]) == p {
        assert WithKey(rules, Priority, p)[1..] == WithKey(rules[1..], Priority, p);
      } else {
        assert WithKey(rules, Priority, p) == WithKey(rules[1..], Priority, p);
      }
    }
  }

  lemma {:induction false} FirstIsBestWhenSorted(c: Context, rules: seq<RouteRule>)
    requires Descending(rules, Priority)
    ensures FirstDecisive(c, rules) == Best(c, rules)
  {
    if rules != [] {
      FirstIsBestWhenSorted(c, rules[1..]);
      BestIsGreatest(c, rules[1..]);
    }
  }

  /** Sorting stably and taking the first match refines the declared choice, for every rule list and input. */
  lemma SortRefinesBest(c: Context, rules: seq<RouteRule>, sorted: seq<RouteRule>)
    requires StableDescending(rules, sorted, Priority)
    ensures FirstDecisive(c, sorted) == Best(c, rules)
  {
    FirstIsBestWhenSorted(c, sorted);
    var a, b := Best(c, rules), Best(c, sorted);
    if a.Some? {
      BestByPriority(c, rules, a.value.priority);
      BestByPriority(c, sorted, a.value.priority);
    }
    if b.Some? {
      BestByPriority(c, rules, b.value.priority);
      BestByPriority(c, sorted, b.value.priority);
    }
  }

  lemma BestAmong(c: Context, rules: seq<RouteRule>)
    ensures Best(c, rules).None? ==> forall r :: r in rules ==> !Decisive(c, r)
    ensures Best(c, rules).Some? ==> Best(c, rules).value in rules && Decisive(c, Best(c, rules).value)
    ensures Best(c, rules).Some? ==> forall r :: r in rules && Decisive(c, r) ==>
      r.priority <= Best(c, rules).value.priority
  {
    BestIsGreatest(c, rules);
    if Best(c, rules).Some? {
      var i :| IsBest(c, rules, i) && rules[i] == Best(c, rules).value;
      forall r | r in rules && Decisive(c, r) ensures r.priority <= rules[i].priority {
        var j :| 0 <= j < |rules| && rules[j] == r;
      }
    }
  }

  /** With pairwise distinct priorities the order of the configured rules does not matter. */
  lemma OrderIrrelevant(c: Context, rules: seq<RouteRule>, shuffled: seq<RouteRule>)
    requires multiset(rules) == multiset(shuffled)
    requires forall i, j :: 0 <= i < j < |rules| ==> rules[i].priority != rules[j].priority
    ensures Best(c, rules) == Best(c, shuffled)
  {
    hide *;
    BestAmong(c, rules);
    BestAmong(c, shuffled);
    assert forall r :: r in rules <==> r in multiset(rules);
    assert forall r :: r in shuffled <==> r in multiset(shuffled);
  }

  function AtLeastPriority(rules: seq<RouteRule>, p: int): seq<RouteRule> {
    if rules == [] then [] else (if rules[0].priority >= p then [rules[0]] else []) + AtLeastPriority(rules[1..], p)
  }

  function Better(a: Option<RouteRule>, b: Option<RouteRule>): Option<RouteRule> {
    if a.None? then b else if b.None? || b.value.priority <= a.value.priority then a else b
  }

  lemma {:induction false} BestConcat(c: Context, a: seq<RouteRule>, b: seq<RouteRule>)
    ensures Best(c, a + b) == Better(Best(c, a), Best(c, b))
  {
    hide Decisive;
    if a == [] {
      assert a + b == b;
    } else {
      assert (a + b)[1..] == a[1..] + b;
      BestConcat(c, a[1..], b);
    }
  }

  lemma {:induction false} BestAtLeast(c: Context, rules: seq<RouteRule>, p: int)
    ensures Best(c, AtLeastPriority(rules, p)) == if Best(c, rules).Some? && Best(c, rules).value.priority >= p
      then Best(c, rules) else None
  {
    hide Decisive;
    if rules != [] {
      BestAtLeast(c, rules[1..], p);
      if rules[0].priority >= p {
        assert AtLeastPriority(rules, p)[1..] == AtLeastPriority(rules[1..], p);
      } else {
        assert AtLeastPriority(rules, p) == AtLeastPriority(rules[1..], p);
      }
    }
  }

  lemma BestOfDefault(c: Context, default: RouteRule)
    requires default.conditions == []
    ensures Best(c, [default]) == Some(default)
  {
    assert [default][1..] == [];
  }

  /** The rules that rank after a rule without conditions never decide anything. */
  lemma ShadowedByDefault(c: Context, before: seq<RouteRule>, default: RouteRule, after: seq<RouteRule>)
    requires default.conditions == []
    ensures Best(c, before + [default] + after)
         == Best(c, AtLeastPriority(before, default.priority) + [default]
           + AtLeastPriority(after, default.priority + 1))
  {
    hide Best, AtLeastPriority;
    var p := default.priority;
    var before', after' := AtLeastPriority(before, p), AtLeastPriority(after, p + 1);
    BestOfDefault(c, default);
    BestConcat(c, before + [default], after);
    BestConcat(c, before, [default]);
    BestConcat(c, before' + [default], after');
    BestConcat(c, before', [default]);
    BestAtLeast(c, before, p);
    BestAtLeast(c, after, p + 1);
  }

  /** More evidence never lowers the priority of the first rule that matches or raises. */
  lemma RoutingMonotone(c: Context, c': Context, rules: seq<RouteRule>)
    requires MoreEvidence(c, c') && Best(c, rules).Some? && VerdictOf(c, Best(c, rules).value) == Yes
    ensures Best(c', rules).Some? && Best(c', rules).value.priority >= Best(c, rules).value.priority
  {
    BestIsGreatest(c, rules);
    BestIsGreatest(c', rules);
    var i :| IsBest(c, rules, i) && rules[i] == Best(c, rules).value;
    AllMonotone(c, c', rules[i].conditions);
    assert rules[i] in rules;
  }

  /** `rule` decides the connection: it is the declared choice, it matches, and its decision is the outcome. */
  ghost predicate RoutedBy(config: RouterConfig, c: Context, rule: RouteRule) {
    && c.remoteIp !in config.ipWhitelist && Best(c, config.rules) == Some(rule) && VerdictOf(c, rule) == Yes
    && Routed(config, c) == DecisionBy(rule)
  }

  lemma RoutedByOutcome(config: RouterConfig, c: Context, rule: RouteRule)
    requires RoutedBy(config, c, rule)
    ensures Best(c, config.rules) == Some(rule) && Routed(config, c) == DecisionBy(rule)
    ensures Routed(config, c) != Raised
  {}

  /** A connection that a rule routes is, under more evidence, still routed by a rule of no lower priority, if and
      only if the declared choice then has no condition that raises after all before it held. */
  lemma MonotoneUnlessRaises(config: RouterConfig, c: Context, c': Context, rule: RouteRule)
    requires MoreEvidence(c, c') && RoutedBy(config, c, rule)
    ensures Best(c', config.rules).Some? && Best(c', config.rules).value.priority >= rule.priority
    ensures var after := Best(c', config.rules).value;
      && (RoutedBy(config, c', after) <==> !exists i :: RaisesAt(c', after.conditions, i))
      && (Routed(config, c') == Raised <==> exists i :: RaisesAt(c', after.conditions, i))
  {
    hide All, EvaluateCondition, RaisesAt, Best, FromStr;
    RoutingMonotone(c, c', config.rules);
    var after := Best(c', config.rules).value;
    BestAmong(c', config.rules);
    AllMeaning(c', after.conditions);
  }

  /** If every configured threshold is a number, more evidence never lowers the priority of the rule that routes
      a connection, and it never turns routing into an exception. */
  lemma MonotoneWhenWellFormed(config: RouterConfig, c: Context, c': Context, rule: RouteRule)
    requires MoreEvidence(c, c') && RoutedBy(config, c, rule) && ThresholdsParse(c.lib, config.rules)
    ensures exists after :: RoutedBy(config, c', after) && after.priority >= rule.priority
  {
    hide VerdictOf, Best, FromStr, RaisesAt, ThresholdsParse;
    RoutingMonotone(c, c', config.rules);
    BestAmong(c', config.rules);
    var after := Best(c', config.rules).value;
    WellFormedNeverRaises(c', config.rules, after);
    assert RoutedBy(config, c', after);
  }

  const STRICT := RouteRule("strict", 100,
    [RouteCondition("frequency_threshold", Int(3)), RouteCondition("score_threshold", Str("abc"))],
    "route_to_external", "endlessh")
  const LENIENT := RouteRule("lenient", 0, [], "route_to_external", "cowrie")

  /** Without that, it can: the third connection makes the malformed threshold of the stricter rule be read, and a
      connection that was sent to Cowrie before is not routed at all. */
  lemma MoreEvidenceMayRaise(lib: Library, protocol: string, ip: string, port: int)
    requires lib.parseInt("abc") == None
    ensures var config := RouterConfig([STRICT, LENIENT], [], []);
      var seen := n => Context(lib, AnalysisResult(protocol, 50, "medium", {}, false, n), ip, port, [], []);
      && MoreEvidence(seen(2), seen(3))
      && Routed(config, seen(2)) == Decided(RouteDecision(RouteToExternal, "cowrie", "lenient"))
      && Routed(config, seen(3)) == Raised
  {
    var rules := [STRICT, LENIENT];
    var two := Context(lib, AnalysisResult(protocol, 50, "medium", {}, false, 2), ip, port, [], []);
    var three := Context(lib, AnalysisResult(protocol, 50, "medium", {}, false, 3), ip, port, [], []);
    assert EvaluateCondition(two, STRICT.conditions[0]) == No;
    assert EvaluateCondition(three, STRICT.conditions[0]) == Yes;
    assert EvaluateCondition(three, STRICT.conditions[1]) == Raises;
    assert STRICT.conditions[1..][0] == STRICT.conditions[1];
    assert All(three, STRICT.conditions[1..]) == Raises;
    assert VerdictOf(two, STRICT) == No && VerdictOf(three, STRICT) == Raises;
    assert IsBest(two, rules, 1) && IsBest(three, rules, 0);
    BestIsUnique(two, rules, 1);
    BestIsUnique(three, rules, 0);
  }

  class HoneypotRouter {
    const config: RouterConfig
    var rules: seq<RouteRule>

    ghost predicate Valid()
      reads this
    {
      StableDescending(config.rules, rules, Priority)
    }

    /** Copies the configured rules and sorts them in place. */
    constructor (config: RouterConfig)
      ensures Valid() && this.config == config
    {
      this.config := config;
      rules := [];
      new;
      var i := 0;
      while i < |config.rules|
        invariant 0 <= i <= |config.rules| && rules == config.rules[..i]
      {
        rules := rules + [config.rules[i]];
        i := i + 1;
      }
      assert rules == config.rules;
      SortedStable(rules, Priority);
      rules := Sorted(rules, Priority);
    }

    /** The scan over the sorted rules gives the declared routing. */
    method Route(lib: Library, result: AnalysisResult, remoteIp: string, localPort: int) returns (outcome: Outcome)
      requires Valid()
      ensures outcome == Routed(config,
        Context(lib, result, remoteIp, localPort, config.ipBlacklist, config.ipWhitelist))
      ensures remoteIp in config.ipWhitelist ==> outcome == Decided(RouteDecision(LogOnly, "", "whitelist"))
      ensures
        var c := Context(lib, result, remoteIp, localPort, config.ipBlacklist, config.ipWhitelist);
        remoteIp !in config.ipWhitelist && (forall rule :: rule in config.rules ==> VerdictOf(c, rule) == No) ==>
          outcome == Decided(RouteDecision(LogOnly, "", "fallback"))
    {
      var c := Context(lib, result, remoteIp, localPort, config.ipBlacklist, config.ipWhitelist);
      if remoteIp in config.ipWhitelist {
        return WHITELISTED;
      }
      SortRefinesBest(c, config.rules, rules);
      RoutingMeaning(config, c);
      var i := 0;
      while i < |rules|
        invariant 0 <= i <= |rules| && FirstDecisive(c, rules[i..]) == Best(c, config.rules)
      {
        var rule := rules[i];
        assert rules[i..][0] == rule && rules[i..][1..] == rules[i + 1..];
        if rule.conditions == [] {
          return Decided(RouteDecision(FromStr(rule.action), rule.target, rule.name));
        }
        var allMatch := true;
        var k := 0;
        while k < |rule.conditions|
          invariant 0 <= k <= |rule.conditions| && allMatch
          invariant All(c, rule.conditions[k..]) == VerdictOf(c, rule)
        {
          assert rule.conditions[k..][0] == rule.conditions[k] && rule.conditions[k..][1..] == rule.conditions[k + 1..];
          var verdict := EvaluateCondition(c, rule.conditions[k]);
          if verdict == Raises {
            return Raised;
          }
          if verdict == No {
            allMatch := false;
            break;
          }
          k := k + 1;
        }
        if allMatch {
          return Decided(RouteDecision(FromStr(rule.action), rule.target, rule.name));
        }
        i := i + 1;
      }
      return FALLBACK;
    }
  }
}
