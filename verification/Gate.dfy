/** Detecting, analyzing and routing a connection (`app.py`, `gateway/server.py`), over whole runs. */
module Gate {
  import opened SlidingLog
  import opened Protocols
  import opened Rules
  import opened Dispatcher
  import opened Engine

  /** A connection, with the two clock readings of its analysis. */
  datatype Connection = Connection(ip: IP, port: int, data: Bytes, recordedAt: real, scoredAt: real)

  datatype Setup = Setup(
    analyzer: AnalyzerConfig, search: Search, signatures: seq<Signature>, router: RouterConfig, lib: Library
  )

  /** The clock readings of a run never go backwards. */
  ghost predicate InOrder(conns: seq<Connection>) {
    forall i :: 0 <= i < |conns| ==>
      conns[i].recordedAt <= conns[i].scoredAt && (i > 0 ==> conns[i - 1].scoredAt <= conns[i].recordedAt)
  }

  function CallsOf(conns: seq<Connection>): seq<Call> {
    if conns == [] then []
    else CallsOf(conns[..|conns| - 1]) + [Call(conns[|conns| - 1].ip, conns[|conns| - 1].recordedAt)]
  }

  /** When the IP of connection `k` connected, up to and including that connection. */
  function TimesAt(conns: seq<Connection>, k: nat): seq<real>
    requires k < |conns|
  {
    TimesOf(CallsOf(conns[..k + 1]), conns[k].ip)
  }

  /** How many of them lie in the window when connection `k` is recorded, and when it is scored. */
  function SeenAt(s: Setup, conns: seq<Connection>, k: nat): nat
    requires k < |conns|
  {
    CountSince(TimesAt(conns, k), conns[k].recordedAt - s.analyzer.windowSeconds as real)
  }

  function ScoredAt(s: Setup, conns: seq<Connection>, k: nat): nat
    requires k < |conns|
  {
    CountSince(TimesAt(conns, k), conns[k].scoredAt - s.analyzer.windowSeconds as real)
  }

  ghost function AnalysisAt(s: Setup, conns: seq<Connection>, k: nat): AnalysisResult
    requires k < |conns| && s.analyzer.threshold >= 1
  {
    Assess(s.analyzer, s.search, s.signatures, DetectProtocol(conns[k].data).Label(), conns[k].data,
      SeenAt(s, conns, k), ScoredAt(s, conns, k))
  }

  ghost function ContextAt(s: Setup, conns: seq<Connection>, k: nat): Context
    requires k < |conns| && s.analyzer.threshold >= 1
  {
    Context(s.lib, AnalysisAt(s, conns, k), conns[k].ip, conns[k].port, s.router.ipBlacklist, s.router.ipWhitelist)
  }

  /** Where connection `k` of a run is routed, as a function of the whole run. */
  ghost function OutcomeAt(s: Setup, conns: seq<Connection>, k: nat): Outcome
    requires k < |conns| && s.analyzer.threshold >= 1
  {
    Routed(s.router, ContextAt(s, conns, k))
  }

  /** Without frequency analysis the counts are not looked at. */
  lemma CountsUnused(s: Setup, conn: Connection, a: nat, b: nat, c: nat, d: nat)
    requires s.analyzer.threshold >= 1
    ensures !s.analyzer.enableFrequency ==>
      Assess(s.analyzer, s.search, s.signatures, DetectProtocol(conn.data).Label(), conn.data, a, b)
      == Assess(s.analyzer, s.search, s.signatures, DetectProtocol(conn.data).Label(), conn.data, c, d)
  {
    hide SignatureScore, SignatureTags, HeuristicScore, HeuristicTags, DetectProtocol, FT.FrequencyScore;
  }

  /** When connection `k` of a run scores at least 80, and when it is flagged: the flag depends on the window at
      its recording, the score on the window at its scoring. */
  lemma ScoresHighExactlyAt(s: Setup, conns: seq<Connection>, k: nat)
    requires k < |conns| && s.analyzer.enableFrequency && NonNegative(s.signatures) && s.analyzer.threshold >= 1
    ensures var result, threshold := AnalysisAt(s, conns, k), s.analyzer.threshold;
      var payload := PayloadPoints(s.analyzer, s.search, s.signatures, DetectProtocol(conns[k].data).Label(),
        conns[k].data);
      && (result.isHighFrequency <==> SeenAt(s, conns, k) >= threshold)
      && (result.score >= 80 <==>
          ScoredAt(s, conns, k) >= threshold || payload + 40 * ScoredAt(s, conns, k) / threshold >= 80)
  {
    hide *;
    var protocol := DetectProtocol(conns[k].data).Label();
    UnfoldAt(s, conns, k);
    ScoresHighExactly(s.analyzer, s.search, s.signatures, protocol, conns[k].data, SeenAt(s, conns, k),
      ScoredAt(s, conns, k));
  }

  /** What is reported about each connection of a run, item by item. */
  lemma ReportsAt(s: Setup, conns: seq<Connection>, k: nat)
    requires k < |conns| && s.analyzer.threshold >= 1
    ensures Reports(s.analyzer, s.search, s.signatures, DetectProtocol(conns[k].data).Label(), conns[k].data,
      SeenAt(s, conns, k), ScoredAt(s, conns, k), AnalysisAt(s, conns, k))
  {
    hide *;
    UnfoldAt(s, conns, k);
    AssessReports(s.analyzer, s.search, s.signatures, DetectProtocol(conns[k].data).Label(), conns[k].data,
      SeenAt(s, conns, k), ScoredAt(s, conns, k));
  }

  /** How each connection of a run is routed, case by case and under any policy. */
  lemma RoutingAt(s: Setup, conns: seq<Connection>, k: nat)
    requires k < |conns| && s.analyzer.threshold >= 1
    ensures conns[k].ip in s.router.ipWhitelist ==>
      OutcomeAt(s, conns, k) == Decided(RouteDecision(LogOnly, "", "whitelist"))
    ensures
      conns[k].ip !in s.router.ipWhitelist
      && (forall rule :: rule in s.router.rules ==> VerdictOf(ContextAt(s, conns, k), rule) == No) ==>
        OutcomeAt(s, conns, k) == Decided(RouteDecision(LogOnly, "", "fallback"))
    ensures forall i ::
      conns[k].ip !in s.router.ipWhitelist && IsBest(ContextAt(s, conns, k), s.router.rules, i) ==>
        var rule := s.router.rules[i];
        if VerdictOf(ContextAt(s, conns, k), rule) == Raises then OutcomeAt(s, conns, k) == Raised
        else OutcomeAt(s, conns, k) == Decided(RouteDecision(FromStr(rule.action), rule.target, rule.name))
  {
    hide VerdictOf, FromStr, Best, AnalysisAt, Routed;
    RoutingMeaning(s.router, ContextAt(s, conns, k));
  }

  /** Of two connections of a run, `k` repeats `j` and finds at least as much traffic of its IP at either clock read. */
  ghost predicate MoreTraffic(s: Setup, conns: seq<Connection>, j: nat, k: nat)
    requires j < |conns| && k < |conns|
  {
    && conns[j].ip == conns[k].ip && conns[j].port == conns[k].port && conns[j].data == conns[k].data
    && SeenAt(s, conns, j) <= SeenAt(s, conns, k) && ScoredAt(s, conns, j) <= ScoredAt(s, conns, k)
  }

  lemma TrafficIsEvidence(s: Setup, conns: seq<Connection>, j: nat, k: nat)
    requires j < |conns| && k < |conns| && s.analyzer.threshold >= 1 && MoreTraffic(s, conns, j, k)
    ensures MoreEvidence(ContextAt(s, conns, j), ContextAt(s, conns, k))
  {
    hide SeenAt, ScoredAt, DetectProtocol, Protocol.Label, Assess;
    AssessMonotone(s.analyzer, s.search, s.signatures, DetectProtocol(conns[j].data).Label(), conns[j].data,
                   SeenAt(s, conns, j), ScoredAt(s, conns, j), SeenAt(s, conns, k), ScoredAt(s, conns, k));
  }

  /** Within any run and under any policy: if a rule routes connection `j`, then the rule that decides a repetition
      `k` under more traffic has no lower priority. It routes `k` if its conditions do not raise, which is so
      whenever the configured thresholds are numbers. */
  lemma MoreTrafficNeverDeescalates(s: Setup, conns: seq<Connection>, j: nat, k: nat, rule: RouteRule)
    requires j < |conns| && k < |conns| && s.analyzer.threshold >= 1 && MoreTraffic(s, conns, j, k)
    requires RoutedBy(s.router, ContextAt(s, conns, j), rule)
    ensures OutcomeAt(s, conns, j) == DecisionBy(rule)
    ensures var c, best := ContextAt(s, conns, k), Best(ContextAt(s, conns, k), s.router.rules);
      && best.Some? && best.value.priority >= rule.priority
      && (OutcomeAt(s, conns, k) == Raised <==> exists i :: RaisesAt(c, best.value.conditions, i))
      && (OutcomeAt(s, conns, k) != Raised ==>
          RoutedBy(s.router, c, best.value) && OutcomeAt(s, conns, k) == DecisionBy(best.value))
    ensures ThresholdsParse(s.lib, s.router.rules) ==> OutcomeAt(s, conns, k) != Raised
  {
    hide *;
    TrafficIsEvidence(s, conns, j, k);
    UnfoldAt(s, conns, j);
    UnfoldAt(s, conns, k);
    var c, c' := ContextAt(s, conns, j), ContextAt(s, conns, k);
    RoutedByOutcome(s.router, c, rule);
    MonotoneUnlessRaises(s.router, c, c', rule);
    var after := Best(c', s.router.rules).value;
    if RoutedBy(s.router, c', after) {
      RoutedByOutcome(s.router, c', after);
    }
    if ThresholdsParse(s.lib, s.router.rules) {
      MonotoneWhenWellFormed(s.router, c, c', rule);
      var other :| RoutedBy(s.router, c', other) && other.priority >= rule.priority;
      RoutedByOutcome(s.router, c', other);
    }
  }

  /** What becomes of a routed connection. */
  datatype Handling = Dropped | Proxied(host: string, port: int) | Served(honeypot: string)

  /** The dispatch on a decision: external targets go through the port map, others to a registered honeypot. */
  function Dispatch(
    external: map<string, (string, int)>, honeypots: set<string>, protocol: string, decision: RouteDecision
  ): Handling {
    match decision.action
    case Block => Dropped
    case LogOnly => Dropped
    case RouteToExternal =>
      if decision.target in external then Proxied(external[decision.target].0, external[decision.target].1) else Dropped
    case RouteToTarpit => if "tarpit" in honeypots then Served("tarpit") else Dropped
    case RouteToHoneypot =>
      var name := if decision.target != "" then decision.target else protocol;
      if name in honeypots then Served(name) else Dropped
  }

  /** Blocked and logged connections are dropped; only an external action reaches an endpoint, and only one that is
      mapped; a honeypot serves only if it is registered, and an empty target means the one named after the protocol. */
  lemma DispatchMeaning(
    external: map<string, (string, int)>, honeypots: set<string>, protocol: string, decision: RouteDecision
  )
    ensures var handling := Dispatch(external, honeypots, protocol, decision);
      && (decision.action in {Block, LogOnly} ==> handling == Dropped)
      && (forall host, port :: handling == Proxied(host, port) <==>
          decision.action == RouteToExternal && (decision.target, (host, port)) in external.Items)
      && (forall name :: handling == Served(name) <==>
          && name in honeypots
          && (decision.action == RouteToTarpit ==> name == "tarpit")
          && (decision.action == RouteToHoneypot ==>
              name == if decision.target == "" then protocol else decision.target)
          && decision.action in {RouteToTarpit, RouteToHoneypot})
  {}

  class Gateway {
    const setup: Setup
    const engine: AnalysisEngine
    const router: HoneypotRouter

    ghost var log: seq<Connection>

    ghost predicate Valid()
      reads this, engine, engine.tracker, router
    {
      && engine.Valid() && router.Valid() && setup.analyzer.threshold >= 1
      && engine.config == setup.analyzer && engine.search == setup.search && engine.signatures == setup.signatures
      && router.config == setup.router
      && engine.tracker.calls == if setup.analyzer.enableFrequency then CallsOf(log) else []
    }

    constructor (setup: Setup, ghost now: real)
      requires setup.analyzer.windowSeconds >= 1 && setup.analyzer.threshold >= 1
      ensures Valid() && fresh(engine) && fresh(engine.tracker) && fresh(router)
      ensures this.setup == setup && log == [] && engine.tracker.clock == now
    {
      this.setup := setup;
      engine := new AnalysisEngine(setup.analyzer, setup.search, setup.signatures, now);
      router := new HoneypotRouter(setup.router);
      log := [];
    }

    /** Handles the next connection of the run: its outcome is the declared one, over the full history. */
    method Handle(session: Session, data: Bytes, recordedAt: real, scoredAt: real) returns (outcome: Outcome)
      requires Valid() && engine.tracker.clock <= recordedAt <= scoredAt
      modifies this, engine.tracker, session
      ensures Valid() && engine.tracker.clock <= scoredAt
      ensures log == old(log) + [Connection(session.remoteHost, session.localPort, data, recordedAt, scoredAt)]
      ensures outcome == OutcomeAt(setup, log, |log| - 1)
      ensures session.protocol == DetectProtocol(data).Label() && session.initialData == data
      ensures session.threatScore == AnalysisAt(setup, log, |log| - 1).score
      ensures session.threatLevel == AnalysisAt(setup, log, |log| - 1).threatLevel
      ensures outcome.Decided? ==> session.routeTarget == outcome.decision.target
    {
      hide *;
      Unfold();
      session.initialData := data;
      session.protocol := DetectProtocol(data).Label();
      var result := engine.Analyze(session, recordedAt, scoredAt);
      outcome := router.Route(setup.lib, result, session.remoteHost, session.localPort);
      if outcome.Decided? {
        session.routeTarget := outcome.decision.target;
      }
      ghost var conn := Connection(session.remoteHost, session.localPort, data, recordedAt, scoredAt);
      OutcomeOfLast(setup, log, conn, engine.tracker.calls);
      log := log + [conn];
      Unfold();
    }

    /** Handles a whole run: the outcome of every connection is the declared one. */
    method HandleAll(conns: seq<Connection>) returns (outcomes: seq<Outcome>)
      requires Valid() && InOrder(conns) && (conns != [] ==> engine.tracker.clock <= conns[0].recordedAt)
      modifies this, engine.tracker
      ensures Valid() && log == old(log) + conns && |outcomes| == |conns|
      ensures forall k :: |old(log)| <= k < |log| ==> outcomes[k - |old(log)|] == OutcomeAt(setup, log, k)
    {
      hide Valid, OutcomeAt, AnalysisAt;
      Threshold();
      ghost var n := |log|;
      outcomes := [];
      var i := 0;
      while i < |conns|
        invariant 0 <= i <= |conns| && Valid() && setup.analyzer.threshold >= 1
        invariant log == old(log) + conns[..i] && |outcomes| == i
        invariant i < |conns| ==> engine.tracker.clock <= conns[i].recordedAt
        invariant forall k :: n <= k < n + i ==> outcomes[k - n] == OutcomeAt(setup, log, k)
      {
        ghost var before := log;
        var session := new Session(conns[i].ip, conns[i].port);
        var outcome := Handle(session, conns[i].data, conns[i].recordedAt, conns[i].scoredAt);
        assert log == before + [conns[i]] && conns[..i + 1] == conns[..i] + [conns[i]];
        forall k | n <= k < n + i ensures OutcomeAt(setup, log, k) == OutcomeAt(setup, before, k) {
          OutcomeOfPrefix(setup, before, [conns[i]], k);
        }
        outcomes := outcomes + [outcome];
        i := i + 1;
      }
      assert conns[..|conns|] == conns;
    }

    lemma Threshold()
      requires Valid()
      ensures setup.analyzer.threshold >= 1
    {}

    /** The invariant, spelled out for proofs that hide everything. */
    lemma Unfold()
      ensures Valid() <==>
        && engine.Valid() && router.Valid() && setup.analyzer.threshold >= 1
        && engine.config == setup.analyzer && engine.search == setup.search && engine.signatures == setup.signatures
        && router.config == setup.router
        && engine.tracker.calls == if setup.analyzer.enableFrequency then CallsOf(log) else []
    {}
  }

  /** Later connections do not change the outcome of an earlier one. */
  lemma OutcomeOfPrefix(s: Setup, conns: seq<Connection>, more: seq<Connection>, k: nat)
    requires k < |conns| && s.analyzer.threshold >= 1
    ensures OutcomeAt(s, conns + more, k) == OutcomeAt(s, conns, k)
  {
    hide CallsOf, TimesOf, Assess, Routed, DetectProtocol;
    assert (conns + more)[..k + 1] == conns[..k + 1];
  }

  lemma TimesOfLast(log: seq<Connection>, conn: Connection)
    ensures (log + [conn])[|log|] == conn
    ensures CallsOf(log + [conn]) == CallsOf(log) + [Call(conn.ip, conn.recordedAt)]
    ensures TimesAt(log + [conn], |log|) == TimesOf(CallsOf(log) + [Call(conn.ip, conn.recordedAt)], conn.ip)
  {
    hide TimesOf;
    var conns := log + [conn];
    assert conns[..|conns| - 1] == log && conns[..|log| + 1] == conns;
  }

  lemma CountsOfLast(s: Setup, log: seq<Connection>, conn: Connection)
    ensures var times, w := TimesOf(CallsOf(log) + [Call(conn.ip, conn.recordedAt)], conn.ip),
      s.analyzer.windowSeconds as real;
      && SeenAt(s, log + [conn], |log|) == CountSince(times, conn.recordedAt - w)
      && ScoredAt(s, log + [conn], |log|) == CountSince(times, conn.scoredAt - w)
  {
    hide TimesOf, CallsOf, TimesAt, CountSince;
    TimesOfLast(log, conn);
  }

  lemma UnfoldAt(s: Setup, conns: seq<Connection>, k: nat)
    requires k < |conns| && s.analyzer.threshold >= 1
    ensures AnalysisAt(s, conns, k)
         == Assess(s.analyzer, s.search, s.signatures, DetectProtocol(conns[k].data).Label(), conns[k].data,
           SeenAt(s, conns, k), ScoredAt(s, conns, k))
    ensures ContextAt(s, conns, k).lib == s.lib && OutcomeAt(s, conns, k) == Routed(s.router, ContextAt(s, conns, k))
    ensures OutcomeAt(s, conns, k)
         == Routed(s.router, Context(s.lib, AnalysisAt(s, conns, k), conns[k].ip, conns[k].port,
           s.router.ipBlacklist, s.router.ipWhitelist))
  {
    hide Assess, Routed, SeenAt, ScoredAt, DetectProtocol;
  }

  /** The outcome of a connection appended to a run, from the calls the tracker then holds. */
  lemma OutcomeOfLast(s: Setup, log: seq<Connection>, conn: Connection, calls: seq<Call>)
    requires s.analyzer.threshold >= 1
    requires calls == if s.analyzer.enableFrequency then CallsOf(log) + [Call(conn.ip, conn.recordedAt)] else []
    ensures var conns, k, w := log + [conn], |log|, s.analyzer.windowSeconds as real;
      var times := TimesOf(calls, conn.ip);
      var result := Assess(s.analyzer, s.search, s.signatures, DetectProtocol(conn.data).Label(), conn.data,
                           CountSince(times, conn.recordedAt - w), CountSince(times, conn.scoredAt - w));
      && CallsOf(conns) == CallsOf(log) + [Call(conn.ip, conn.recordedAt)]
      && AnalysisAt(s, conns, k) == result
      && OutcomeAt(s, conns, k)
         == Routed(s.router, Context(s.lib, result, conn.ip, conn.port, s.router.ipBlacklist, s.router.ipWhitelist))
  {
    hide *;
    UnfoldAt(s, log + [conn], |log|);
    TimesOfLast(log, conn);
    CountsOfLast(s, log, conn);
    var conns, k := log + [conn], |log|;
    var w, times := s.analyzer.windowSeconds as real, TimesOf(calls, conn.ip);
    CountsUnused(s, conn, SeenAt(s, conns, k), ScoredAt(s, conns, k), CountSince(times, conn.recordedAt - w),
      CountSince(times, conn.scoredAt - w));
  }
}
