/** The policy shipped in `config/default.yaml`, and what it guarantees over whole runs. */
module ShippedPolicy {
  import opened Wrappers
  import opened SlidingLog
  import opened Protocols
  import opened Rules
  import opened Dispatcher
  import opened Engine
  import opened Gate

  const ANALYZER := AnalyzerConfig(true, true, true, 60, 10, 30, 60, 85)

  const FREQUENT_SSH := RouteRule("高频SSH攻击 -> Endlessh", 100,
    [RouteCondition("protocol_match", Str("ssh")), RouteCondition("frequency_threshold", Int(10))],
    "route_to_external", "endlessh")
  const MALICIOUS_SSH := RouteRule("恶意SSH流量 -> Cowrie", 85,
    [RouteCondition("protocol_match", Str("ssh")), RouteCondition("score_threshold", Int(30))],
    "route_to_external", "cowrie")
  const MALICIOUS_TELNET := RouteRule("恶意Telnet流量 -> Cowrie", 84,
    [RouteCondition("protocol_match", Str("telnet")), RouteCondition("score_threshold", Int(30))],
    "route_to_external", "cowrie")
  const MALICIOUS_HTTP := RouteRule("恶意HTTP流量 -> SNARE", 80,
    [RouteCondition("protocol_match", Str("http")), RouteCondition("score_threshold", Int(30))],
    "route_to_external", "snare")
  const FREQUENT := RouteRule("高频恶意流量 -> 通用Tarpit", 95,
    [RouteCondition("frequency_threshold", Int(15))], "route_to_tarpit", "tarpit")
  const BLACKLISTED := RouteRule("IP黑名单 -> Endlessh", 90,
    [RouteCondition("ip_match", Str("blacklist"))], "route_to_external", "endlessh")
  const DEFAULT := RouteRule("默认 -> 仅记录", 0, [], "log_only", "")

  const RULES := [FREQUENT_SSH, MALICIOUS_SSH, MALICIOUS_TELNET, MALICIOUS_HTTP, FREQUENT, BLACKLISTED, DEFAULT]

  const SSH_BRUTE_FORCE := Signature("ssh_brute_force", "ssh", "^SSH-", 20, ["ssh", "scan"])

  const OTHER_SIGNATURES := [
    Signature("http_path_scan_admin", "http", @"(GET|POST|HEAD)\s+/(admin|wp-admin|administrator|manager)", 40,
      ["http", "scan", "admin_access"]),
    Signature("http_path_scan_env", "http", @"(GET|POST|HEAD)\s+/\.env", 50, ["http", "scan", "sensitive_file"]),
    Signature("http_path_scan_config", "http", @"(GET|POST|HEAD)\s+/(config|backup|dump|sql|db)", 45,
      ["http", "scan", "sensitive_file"]),
    Signature("http_sql_injection", "http", @"(\bUNION\s+SELECT\b|\bSELECT\b.*\bFROM\b.*\bWHERE\b|'.*OR\s+'1'='1)",
      70, ["http", "injection", "sql"]),
    Signature("http_xss_attempt", "http", @"(<script>|javascript:|onerror=|onload=|<img.*src=.*onerror)", 60,
      ["http", "injection", "xss"]),
    Signature("http_scanner_ua", "http",
      @"User-Agent:\s*(nmap|nikto|sqlmap|nessus|burpsuite|acunetix|gobuster|dirbuster)", 55,
      ["http", "scanner", "known_tool"]),
    Signature("http_path_traversal", "http", @"(\.\./|\.\.%2f|%2e%2e%2f|\.%00)", 65, ["http", "traversal"]),
    Signature("telnet_connection", "telnet", @".", 15, ["telnet", "scan"]),
    Signature("http_webshell_scan", "http", @"(GET|POST)\s+/(cmd|shell|exec|upload)(\.(php|jsp|asp|aspx))?", 60,
      ["http", "scan", "webshell"]),
    Signature("http_wordpress_scan", "http", @"(GET|POST)\s+/(wp-content|wp-includes|wp-login|xmlrpc)", 35,
      ["http", "scan", "wordpress"]),
    Signature("http_phpmyadmin_scan", "http", @"(GET|POST)\s+/(phpmyadmin|pma|mysql|phpMyAdmin)", 40,
      ["http", "scan", "phpmyadmin"])
  ]

  const SIGNATURES := [SSH_BRUTE_FORCE] + OTHER_SIGNATURES

  /** The shipped configuration, with any IP lists and any pattern and network libraries. */
  ghost predicate Shipped(s: Setup) {
    s.analyzer == ANALYZER && s.signatures == SIGNATURES && s.router.rules == RULES
  }

  function Blacklisted(c: Context): bool { c.remoteIp in c.blacklist || IpInCidrList(c.lib, c.remoteIp, c.blacklist) }

  function Frequent(c: Context, n: int): bool { c.result.isHighFrequency || c.result.frequencyCount >= n }

  /** The rule that decides, spelled out. */
  function Deciding(c: Context): RouteRule {
    if c.result.protocol == "ssh" && Frequent(c, 10) then FREQUENT_SSH
    else if Frequent(c, 15) then FREQUENT
    else if Blacklisted(c) then BLACKLISTED
    else if c.result.protocol == "ssh" && c.result.score >= 30 then MALICIOUS_SSH
    else if c.result.protocol == "telnet" && c.result.score >= 30 then MALICIOUS_TELNET
    else if c.result.protocol == "http" && c.result.score >= 30 then MALICIOUS_HTTP
    else DEFAULT
  }

  lemma TwoConditions(c: Context, a: RouteCondition, b: RouteCondition)
    ensures All(c, [a, b]) == if EvaluateCondition(c, a) == Yes then EvaluateCondition(c, b)
      else EvaluateCondition(c, a)
    ensures All(c, [a]) == EvaluateCondition(c, a)
  {
    assert [a, b][1..] == [b] && [b][1..] == [] && [a][1..] == [];
    assert All(c, [b]) == EvaluateCondition(c, b);
  }

  lemma VerdictsOfSsh(c: Context)
    ensures VerdictOf(c, FREQUENT_SSH) == Holds(c.result.protocol == "ssh" && Frequent(c, 10))
    ensures VerdictOf(c, MALICIOUS_SSH) == Holds(c.result.protocol == "ssh" && c.result.score >= 30)
  {
    TwoConditions(c, FREQUENT_SSH.conditions[0], FREQUENT_SSH.conditions[1]);
    TwoConditions(c, MALICIOUS_SSH.conditions[0], MALICIOUS_SSH.conditions[1]);
  }

  lemma VerdictsOfOthers(c: Context)
    ensures VerdictOf(c, MALICIOUS_TELNET) == Holds(c.result.protocol == "telnet" && c.result.score >= 30)
    ensures VerdictOf(c, MALICIOUS_HTTP) == Holds(c.result.protocol == "http" && c.result.score >= 30)
  {
    TwoConditions(c, MALICIOUS_TELNET.conditions[0], MALICIOUS_TELNET.conditions[1]);
    TwoConditions(c, MALICIOUS_HTTP.conditions[0], MALICIOUS_HTTP.conditions[1]);
  }

  lemma VerdictsOfSingle(c: Context)
    ensures VerdictOf(c, FREQUENT) == Holds(Frequent(c, 15))
    ensures VerdictOf(c, BLACKLISTED) == Holds(Blacklisted(c))
    ensures VerdictOf(c, DEFAULT) == Yes
  {
    TwoConditions(c, FREQUENT.conditions[0], FREQUENT.conditions[0]);
    TwoConditions(c, BLACKLISTED.conditions[0], BLACKLISTED.conditions[0]);
  }

  /** The shipped rules, as the router ranks them: by priority, not in the order they are written. */
  lemma ShippedTable(c: Context)
    ensures Best(c, RULES) == Some(Deciding(c)) && VerdictOf(c, Deciding(c)) == Yes
  {
    hide VerdictOf, Frequent, Blacklisted, Best;
    VerdictsOfSsh(c);
    VerdictsOfOthers(c);
    VerdictsOfSingle(c);
    var rule := Deciding(c);
    var i := if rule == FREQUENT_SSH then 0 else if rule == MALICIOUS_SSH then 1 else if rule == MALICIOUS_TELNET then 2
      else if rule == MALICIOUS_HTTP then 3 else if rule == FREQUENT then 4 else if rule == BLACKLISTED then 5 else 6;
    assert IsBest(c, RULES, i);
    BestIsUnique(c, RULES, i);
  }

  const TO_ENDLESSH := Decided(RouteDecision(RouteToExternal, "endlessh", "高频SSH攻击 -> Endlessh"))
  const TO_TARPIT := Decided(RouteDecision(RouteToTarpit, "tarpit", "高频恶意流量 -> 通用Tarpit"))
  const TO_COWRIE := Decided(RouteDecision(RouteToExternal, "cowrie", "恶意SSH流量 -> Cowrie"))
  const LOGGED := Decided(RouteDecision(LogOnly, "", "默认 -> 仅记录"))

  lemma DecisionsSpelledOut()
    ensures DecisionBy(FREQUENT_SSH) == TO_ENDLESSH && DecisionBy(FREQUENT) == TO_TARPIT
    ensures DecisionBy(MALICIOUS_SSH) == TO_COWRIE && DecisionBy(DEFAULT) == LOGGED
  {}

  /** The endpoints of the enabled external honeypots, and the registered ones. */
  const EXTERNAL := map["cowrie_ssh" := ("127.0.0.1", 2222), "cowrie_telnet" := ("127.0.0.1", 2223),
    "cowrie" := ("127.0.0.1", 2222), "endlessh" := ("127.0.0.1", 2224)]
  const HONEYPOTS := {"tarpit"}

  /** The shipped routing of a connection that is not whitelisted. */
  lemma ShippedOutcome(s: Setup, conns: seq<Connection>, k: nat)
    requires Shipped(s) && k < |conns| && conns[k].ip !in s.router.ipWhitelist
    ensures OutcomeAt(s, conns, k) == DecisionBy(Deciding(ContextAt(s, conns, k)))
  {
    hide AnalysisAt, Deciding, Best, VerdictOf;
    ShippedTable(ContextAt(s, conns, k));
  }

  /** What the shipped analyzer reports: the flag and the count of the window at recording. */
  lemma ShippedAnalysis(s: Setup, conns: seq<Connection>, k: nat)
    requires Shipped(s) && k < |conns|
    ensures var result := AnalysisAt(s, conns, k);
      && result.protocol == DetectProtocol(conns[k].data).Label()
      && result.frequencyCount == SeenAt(s, conns, k)
      && (result.isHighFrequency <==> SeenAt(s, conns, k) >= 10)
  {
    hide SeenAt, ScoredAt, DetectProtocol, Protocol.Label, SIGNATURES;
    hide SignatureScore, SignatureTags, HeuristicScore, HeuristicTags, FT.FrequencyScore;
  }

  /** The shipped levels: each connection of a run is reported by the range of its score. */
  lemma ShippedLevels(s: Setup, conns: seq<Connection>, k: nat)
    requires Shipped(s) && k < |conns|
    ensures var result := AnalysisAt(s, conns, k);
      && (result.threatLevel == "critical" <==> result.score >= 85)
      && (result.threatLevel == "high" <==> 60 <= result.score < 85)
      && (result.threatLevel == "medium" <==> 30 <= result.score < 60)
      && (result.threatLevel == "low" <==> result.score < 30)
  {
    hide AnalysisAt, SeenAt, ScoredAt, DetectProtocol, SIGNATURES, SignatureScore, HeuristicTag, Found, AllPoints;
    ReportsAt(s, conns, k);
  }

  /** Escalation over any run: whatever the payload and the blacklist, a connection that is at least the tenth
      of its IP in its window goes to Endlessh when it speaks SSH and to the tarpit otherwise, and only such
      a connection is routed by the two frequency rules. The tarpit rule names 15, but the flag makes it 10. */
  lemma Escalation(s: Setup, conns: seq<Connection>, k: nat)
    requires Shipped(s) && k < |conns| && conns[k].ip !in s.router.ipWhitelist
    ensures var ssh := SSH_SIGNATURE <= conns[k].data;
      && (ssh ==> (OutcomeAt(s, conns, k) == TO_ENDLESSH <==> SeenAt(s, conns, k) >= 10))
      && (!ssh ==> (OutcomeAt(s, conns, k) == TO_TARPIT <==> SeenAt(s, conns, k) >= 10))
  {
    hide SeenAt, AnalysisAt, OutcomeAt, DetectProtocol, Blacklisted, FromStr;
    ShippedOutcome(s, conns, k);
    ShippedAnalysis(s, conns, k);
    DetectionExact(conns[k].data);
    DecisionsSpelledOut();
    LabelsDiffer(DetectProtocol(conns[k].data));
  }

  /** What a shipped decision leads to. */
  ghost function HandlingAt(s: Setup, conns: seq<Connection>, k: nat): Handling
    requires Shipped(s) && k < |conns| && OutcomeAt(s, conns, k).Decided?
  {
    Dispatch(EXTERNAL, HONEYPOTS, DetectProtocol(conns[k].data).Label(), OutcomeAt(s, conns, k).decision)
  }

  lemma EndpointsSpelledOut(protocol: string)
    ensures Dispatch(EXTERNAL, HONEYPOTS, protocol, DecisionBy(FREQUENT_SSH).decision) == Proxied("127.0.0.1", 2224)
    ensures Dispatch(EXTERNAL, HONEYPOTS, protocol, DecisionBy(FREQUENT).decision) == Served("tarpit")
    ensures Dispatch(EXTERNAL, HONEYPOTS, protocol, DecisionBy(BLACKLISTED).decision) == Proxied("127.0.0.1", 2224)
    ensures Dispatch(EXTERNAL, HONEYPOTS, protocol, DecisionBy(MALICIOUS_SSH).decision) == Proxied("127.0.0.1", 2222)
    ensures Dispatch(EXTERNAL, HONEYPOTS, protocol, DecisionBy(MALICIOUS_TELNET).decision) == Proxied("127.0.0.1", 2222)
    ensures Dispatch(EXTERNAL, HONEYPOTS, protocol, DecisionBy(MALICIOUS_HTTP).decision) == Dropped
    ensures Dispatch(EXTERNAL, HONEYPOTS, protocol, DecisionBy(DEFAULT).decision) == Dropped
  {}

  /** Where a connection of a run ends up as shipped. Below ten connections in the window, Endlessh is left for
      blacklisted IPs, and Cowrie's SSH port gets the connections that open like SSH or like Telnet and score 30:
      the target `cowrie` is that port for Telnet too. Everything else is dropped, HTTP meant for SNARE included,
      since SNARE is not enabled. */
  lemma ShippedHandling(s: Setup, conns: seq<Connection>, k: nat)
    requires Shipped(s) && k < |conns| && conns[k].ip !in s.router.ipWhitelist
    ensures OutcomeAt(s, conns, k).Decided?
    ensures var ssh, telnet := SSH_SIGNATURE <= conns[k].data, TELNET_IAC <= conns[k].data;
      HandlingAt(s, conns, k) ==
        if SeenAt(s, conns, k) >= 10 then (if ssh then Proxied("127.0.0.1", 2224) else Served("tarpit"))
        else if Blacklisted(ContextAt(s, conns, k)) then Proxied("127.0.0.1", 2224)
        else if (ssh || telnet) && AnalysisAt(s, conns, k).score >= 30 then Proxied("127.0.0.1", 2222)
        else Dropped
  {
    hide SeenAt, AnalysisAt, OutcomeAt, DetectProtocol, Blacklisted, FromStr, Dispatch;
    hide FREQUENT_SSH, FREQUENT, BLACKLISTED, MALICIOUS_SSH, MALICIOUS_TELNET, MALICIOUS_HTTP, DEFAULT;
    ShippedOutcome(s, conns, k);
    ShippedAnalysis(s, conns, k);
    DetectionExact(conns[k].data);
    LabelsDiffer(DetectProtocol(conns[k].data));
    EndpointsSpelledOut(DetectProtocol(conns[k].data).Label());
  }

  const TO_SNARE := Decided(RouteDecision(RouteToExternal, "snare", "恶意HTTP流量 -> SNARE"))
  const TELNET_TO_COWRIE := Decided(RouteDecision(RouteToExternal, "cowrie", "恶意Telnet流量 -> Cowrie"))
  const BLACKLISTED_TO_ENDLESSH := Decided(RouteDecision(RouteToExternal, "endlessh", "IP黑名单 -> Endlessh"))

  lemma OtherDecisionsSpelledOut()
    ensures DecisionBy(MALICIOUS_HTTP) == TO_SNARE && DecisionBy(MALICIOUS_TELNET) == TELNET_TO_COWRIE
    ensures DecisionBy(BLACKLISTED) == BLACKLISTED_TO_ENDLESSH
  {}

  /** An IP is blacklisted by an entry that is the IP or a network that contains it. */
  lemma BlacklistedExactly(c: Context)
    ensures Blacklisted(c) <==>
      exists entry :: entry in c.blacklist && (entry == c.remoteIp || c.lib.inNetwork(c.remoteIp, entry) == Some(true))
  {}

  /** The shipped decision on every connection of a run, whitelisted IPs and every kind of payload included. */
  lemma ShippedRouting(s: Setup, conns: seq<Connection>, k: nat)
    requires Shipped(s) && k < |conns|
    ensures var data, score := conns[k].data, AnalysisAt(s, conns, k).score;
      OutcomeAt(s, conns, k) ==
        if conns[k].ip in s.router.ipWhitelist then Decided(RouteDecision(LogOnly, "", "whitelist"))
        else if SeenAt(s, conns, k) >= 10 then (if SSH_SIGNATURE <= data then TO_ENDLESSH else TO_TARPIT)
        else if Blacklisted(ContextAt(s, conns, k)) then BLACKLISTED_TO_ENDLESSH
        else if score < 30 then LOGGED
        else if SSH_SIGNATURE <= data then TO_COWRIE
        else if TELNET_IAC <= data then TELNET_TO_COWRIE
        else if StartsWithMethod(data) then TO_SNARE
        else LOGGED
  {
    hide SeenAt, AnalysisAt, OutcomeAt, DetectProtocol, Blacklisted, FromStr, StartsWithMethod;
    if conns[k].ip in s.router.ipWhitelist {
      RoutingAt(s, conns, k);
    } else {
      ShippedOutcome(s, conns, k);
      ShippedAnalysis(s, conns, k);
      DetectionExact(conns[k].data);
      LabelExact(conns[k].data);
      DecisionsSpelledOut();
      OtherDecisionsSpelledOut();
    }
  }

  /** A payload that scores only as SSH: it opens like SSH, is not large, and at least half of it is printable. */
  ghost predicate PlainSsh(data: Bytes) {
    SSH_SIGNATURE <= data && |data| <= 2048 && 2 * Printable(data) >= |data|
  }

  /** The pattern library finds the SSH prefix where there is one. */
  ghost predicate FindsSsh(search: Search) { forall data: Bytes :: SSH_SIGNATURE <= data ==> search("^SSH-", data) }

  lemma {:induction false} OtherProtocolsScoreNothing(search: Search, sigs: seq<Signature>, data: Bytes)
    requires forall sig :: sig in sigs ==> sig.protocol == "http" || sig.protocol == "telnet"
    ensures SignatureScore(search, sigs, "ssh", data) == 0
  {
    if sigs != [] {
      assert sigs[0] in sigs;
      OtherProtocolsScoreNothing(search, sigs[1..], data);
    }
  }

  lemma OtherSignatures()
    ensures forall sig :: sig in OTHER_SIGNATURES ==> sig.protocol == "http" || sig.protocol == "telnet"
  {
    var sigs := OTHER_SIGNATURES;
    assert sigs[0].protocol == sigs[1].protocol == sigs[2].protocol == sigs[3].protocol == "http";
    assert sigs[4].protocol == sigs[5].protocol == sigs[6].protocol == "http" && sigs[7].protocol == "telnet";
    assert sigs[8].protocol == sigs[9].protocol == sigs[10].protocol == "http" && |sigs| == 11;
  }

  lemma SshSignatureScore(search: Search, data: Bytes)
    requires FindsSsh(search) && SSH_SIGNATURE <= data
    ensures SignatureScore(search, SIGNATURES, "ssh", data) == 20
  {
    hide OTHER_SIGNATURES;
    OtherSignatures();
    OtherProtocolsScoreNothing(search, OTHER_SIGNATURES, data);
    assert SIGNATURES[0] == SSH_BRUTE_FORCE && SIGNATURES[1..] == OTHER_SIGNATURES;
  }

  lemma PlainSshHeuristics(data: Bytes)
    requires PlainSsh(data)
    ensures HeuristicScore(data) == 0
  {
    hide Printable;
    HeuristicLaws(data);
  }

  /** The score of a plain SSH payload below the threshold: 20 for the signature and 4 for each connection. */
  lemma PlainSshScore(search: Search, data: Bytes, seen: nat, scored: nat)
    requires FindsSsh(search) && PlainSsh(data) && scored < 10
    ensures Assess(ANALYZER, search, SIGNATURES, "ssh", data, seen, scored).score == 20 + 4 * scored
  {
    hide SIGNATURES, SignatureScore, SignatureTags, HeuristicScore, HeuristicTags, FT.FrequencyScore;
    SshSignatureScore(search, data);
    PlainSshHeuristics(data);
    FT.PointsExactly(10, scored);
  }

  /** The conditions of the ladder: a plain SSH payload from an IP on neither list. */
  ghost predicate PlainSshAt(s: Setup, conns: seq<Connection>, k: nat)
    requires k < |conns|
  {
    && Shipped(s) && FindsSsh(s.search) && PlainSsh(conns[k].data) && conns[k].recordedAt <= conns[k].scoredAt
    && conns[k].ip !in s.router.ipWhitelist && !Blacklisted(ContextAt(s, conns, k))
  }

  /** The ladder, over any run and however other IPs interleave: a plain SSH connection that is at least the tenth
      in its window goes to Endlessh. Any other goes to Cowrie if the window still holds at least three when it is
      scored, and is only logged otherwise. So while nothing expires between the two clock reads, connections 1-2
      in the window are logged and 3-9 go to Cowrie. */
  lemma Ladder(s: Setup, conns: seq<Connection>, k: nat)
    requires k < |conns| && PlainSshAt(s, conns, k)
    ensures ScoredAt(s, conns, k) <= SeenAt(s, conns, k)
    ensures OutcomeAt(s, conns, k) ==
      if SeenAt(s, conns, k) >= 10 then TO_ENDLESSH else if ScoredAt(s, conns, k) >= 3 then TO_COWRIE else LOGGED
  {
    hide OutcomeAt, DetectProtocol, Blacklisted, FromStr, Printable, Assess, TimesAt, SIGNATURES;
    CountLater(TimesAt(conns, k), conns[k].recordedAt - 60.0, conns[k].scoredAt - 60.0);
    ShippedOutcome(s, conns, k);
    ShippedAnalysis(s, conns, k);
    DetectionExact(conns[k].data);
    DecisionsSpelledOut();
    if SeenAt(s, conns, k) < 10 {
      PlainSshScore(s.search, conns[k].data, SeenAt(s, conns, k), ScoredAt(s, conns, k));
    }
  }

  lemma TimesGrow(conns: seq<Connection>, ip: IP, k: nat)
    requires k < |conns|
    ensures TimesOf(CallsOf(conns[..k]), ip) <= TimesOf(CallsOf(conns[..k + 1]), ip)
  {
    hide TimesOf;
    var calls := CallsOf(conns[..k]);
    assert conns[..k + 1][..k] == conns[..k];
    assert CallsOf(conns[..k + 1]) == calls + [Call(conns[k].ip, conns[k].recordedAt)];
    TimesOfAppend(calls, Call(conns[k].ip, conns[k].recordedAt), ip);
  }

  lemma {:induction false} EarlierTimesFirst(conns: seq<Connection>, ip: IP, j: nat, k: nat)
    requires j <= k < |conns|
    ensures TimesOf(CallsOf(conns[..j + 1]), ip) <= TimesOf(CallsOf(conns[..k + 1]), ip)
    decreases k
  {
    hide *;
    if j < k {
      EarlierTimesFirst(conns, ip, j, k - 1);
      TimesGrow(conns, ip, k);
    }
  }

  /** No entry that is in the window at `before` has left it at `after`. */
  ghost predicate NoneLeft(ts: seq<real>, before: real, after: real) {
    forall i :: 0 <= i < |ts| && ts[i] >= before - 60.0 ==> ts[i] >= after - 60.0
  }

  /** A window that lost nothing and whose history only grew counts no less. */
  lemma {:induction false} CountKept(ts: seq<real>, longer: seq<real>, before: real, after: real)
    requires ts <= longer && NoneLeft(ts, before, after)
    ensures CountSince(ts, before - 60.0) <= CountSince(longer, after - 60.0)
  {
    if ts != [] {
      assert ts[0] >= before - 60.0 ==> ts[0] >= after - 60.0;
      assert forall i :: 0 <= i < |ts[1..]| ==> ts[1..][i] == ts[i + 1];
      CountKept(ts[1..], longer[1..], before, after);
    }
  }

  /** How hard an outcome hits back: logged, lured into Cowrie, trapped in Endlessh. */
  function Rung(outcome: Outcome): int {
    if outcome == TO_ENDLESSH then 2 else if outcome == TO_COWRIE then 1 else 0
  }

  /** The routing of an IP never de-escalates from a plain SSH connection `j` to a later one `k`, as long as nothing
      that was in the window of `j` has left that of `k`: when recorded since recorded, when scored since scored. */
  lemma LadderNeverDescends(s: Setup, conns: seq<Connection>, j: nat, k: nat)
    requires j < k < |conns| && conns[j].ip == conns[k].ip && PlainSshAt(s, conns, j) && PlainSshAt(s, conns, k)
    requires NoneLeft(TimesAt(conns, j), conns[j].recordedAt, conns[k].recordedAt)
    requires NoneLeft(TimesAt(conns, j), conns[j].scoredAt, conns[k].scoredAt)
    ensures Rung(OutcomeAt(s, conns, j)) <= Rung(OutcomeAt(s, conns, k))
  {
    hide OutcomeAt, ContextAt, Blacklisted, PlainSsh, FindsSsh, TimesOf, CallsOf, SIGNATURES, FromStr, NoneLeft;
    EarlierTimesFirst(conns, conns[k].ip, j, k);
    CountKept(TimesAt(conns, j), TimesAt(conns, k), conns[j].recordedAt, conns[k].recordedAt);
    CountKept(TimesAt(conns, j), TimesAt(conns, k), conns[j].scoredAt, conns[k].scoredAt);
    Ladder(s, conns, j);
    Ladder(s, conns, k);
  }

  /** A short SSH greeting. */
  const GREETING: Bytes := SSH_SIGNATURE + [0x32]

  /** One greeting at time 0 and `n` at time 60. */
  function Repeats(ip: IP, n: nat): seq<Connection> {
    if n == 0 then [Connection(ip, 22, GREETING, 0.0, 0.0)]
    else Repeats(ip, n - 1) + [Connection(ip, 22, GREETING, 60.0, 60.0)]
  }

  function SlowBurst(ip: IP): seq<Connection> { Repeats(ip, 8) + [Connection(ip, 22, GREETING, 60.0, 61.0)] }

  lemma {:induction false} RepeatsTimes(ip: IP, n: nat)
    ensures |Repeats(ip, n)| == n + 1
    ensures var ts := TimesOf(CallsOf(Repeats(ip, n)), ip);
      |ts| == n + 1 && ts[0] == 0.0 && forall i :: 0 < i <= n ==> ts[i] == 60.0
  {
    hide TimesOf, CallsOf, TimesAt, GREETING;
    if n == 0 {
      NoTimes(ip);
      TimesOfLast([], Connection(ip, 22, GREETING, 0.0, 0.0));
      TimesOfAppend([], Call(ip, 0.0), ip);
      assert Repeats(ip, 0) == [] + [Connection(ip, 22, GREETING, 0.0, 0.0)];
    } else {
      RepeatsTimes(ip, n - 1);
      TimesOfLast(Repeats(ip, n - 1), Connection(ip, 22, GREETING, 60.0, 60.0));
      TimesOfAppend(CallsOf(Repeats(ip, n - 1)), Call(ip, 60.0), ip);
    }
  }

  lemma NoTimes(ip: IP)
    ensures CallsOf([]) == [] && TimesOf([], ip) == []
  {}

  lemma {:induction false} RepeatsInOrder(ip: IP, n: nat)
    ensures InOrder(Repeats(ip, n)) && Repeats(ip, n)[|Repeats(ip, n)| - 1].scoredAt <= 60.0
  {
    if n > 0 {
      RepeatsInOrder(ip, n - 1);
    }
  }

  /** A flagged connection may score below 80: in this run of ten connections the first leaves the window between
      the two clock reads of the tenth, which is flagged and scores 56. */
  lemma FlaggedBelowEighty(s: Setup, ip: IP)
    requires Shipped(s) && FindsSsh(s.search)
    ensures |SlowBurst(ip)| == 10 && InOrder(SlowBurst(ip))
    ensures var result := AnalysisAt(s, SlowBurst(ip), 9);
      result.isHighFrequency && result.score == 56 && SeenAt(s, SlowBurst(ip), 9) == 10
        && ScoredAt(s, SlowBurst(ip), 9) == 9
  {
    hide Repeats, TimesOf, CallsOf, Assess, SIGNATURES, TimesAt, DetectProtocol, CountSince;
    var last := Connection(ip, 22, GREETING, 60.0, 61.0);
    RepeatsTimes(ip, 8);
    RepeatsInOrder(ip, 8);
    TimesOfLast(Repeats(ip, 8), last);
    TimesOfAppend(CallsOf(Repeats(ip, 8)), Call(ip, 60.0), ip);
    var ts := TimesAt(SlowBurst(ip), 9);
    assert |ts| == 10 && ts[0] == 0.0 && forall i :: 0 < i < 10 ==> ts[i] == 60.0;
    CountBounds(ts, 0.0);
    CountAfterFirst(ts, 1.0);
    ShippedAnalysis(s, SlowBurst(ip), 9);
    DetectionExact(GREETING);
    PlainGreeting();
    PlainSshScore(s.search, GREETING, 10, 9);
  }

  lemma CountAfterFirst(ts: seq<real>, cutoff: real)
    requires ts != [] && ts[0] < cutoff && forall i :: 0 < i < |ts| ==> ts[i] >= cutoff
    ensures CountSince(ts, cutoff) == |ts| - 1
  {
    CountBounds(ts[1..], cutoff);
  }

  lemma PlainGreeting()
    ensures PlainSsh(GREETING)
  {
    var data := GREETING;
    assert data == [0x53, 0x53, 0x48, 0x2D, 0x32];
    assert data[4..] == [0x32] && data[3..] == [0x2D, 0x32];
    assert Printable(data[4..]) == 1;
    assert data[3..][1..] == data[4..] && Printable(data[3..]) == 2;
    assert data[2..][1..] == data[3..] && Printable(data[2..]) == 3;
    assert Printable(data[1..]) >= Printable(data[1..][1..]) && data[1..][1..] == data[2..];
  }
}
