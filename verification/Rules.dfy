/** Routing rules and the evaluation of their conditions (`router/rules.py`). */
module Rules {
  import opened Wrappers

  /** What the analyzer reports about one connection (`analyzer/engine.py`); tags are an unordered collection. */
  datatype AnalysisResult = AnalysisResult(
    protocol: string,
    score: int,
    threatLevel: string,
    tags: set<string>,
    isHighFrequency: bool,
    frequencyCount: nat
  )

  /** The value of a condition, as the configuration allows it. */
  datatype Value = Str(s: string) | Int(i: int) | Float(x: real) | Strs(items: seq<string>)

  datatype RouteCondition = RouteCondition(kind: string, value: Value)

  datatype RouteRule = RouteRule(
    name: string, priority: int, conditions: seq<RouteCondition>, action: string, target: string
  )

  datatype ActionType = RouteToHoneypot | RouteToTarpit | RouteToExternal | Block | LogOnly

  datatype RouteDecision = RouteDecision(action: ActionType, target: string, matchedRule: string)

  /** Unknown action names fall back to logging. */
  function FromStr(value: string): ActionType {
    if value == "route_to_honeypot" then RouteToHoneypot
    else if value == "route_to_tarpit" then RouteToTarpit
    else if value == "route_to_external" then RouteToExternal
    else if value == "block" then Block
    else LogOnly
  }

  /** Python's library functions that the rules call: `int(s)` of a string (`None` when it raises), `str(v)` of
      a value that is not a string, and network membership by `ipaddress` (`None` when it raises `ValueError`). */
  datatype Library = Library(
    parseInt: string -> Option<int>, show: Value -> string, inNetwork: (string, string) -> Option<bool>
  )

  /** Everything a condition is evaluated against. */
  datatype Context = Context(
    lib: Library, result: AnalysisResult, remoteIp: string, localPort: int, blacklist: seq<string>,
    whitelist: seq<string>
  )

  /** A condition holds, does not hold, or raises. */
  datatype Verdict = Yes | No | Raises

  function Holds(b: bool): Verdict { if b then Yes else No }

  /** Python's `int(value)`: truncates floats, parses strings, raises on lists. */
  function ToInt(lib: Library, v: Value): Option<int> {
    match v
    case Int(i) => Some(i)
    case Float(x) => Some(if x >= 0.0 then x.Floor else -((-x).Floor))
    case Str(s) => lib.parseInt(s)
    case Strs(_) => None
  }

  function Show(lib: Library, v: Value): string { if v.Str? then v.s else lib.show(v) }

  function AtLeast(n: int, bound: Option<int>): Verdict { if bound.None? then Raises else Holds(n >= bound.value) }

  predicate IpMatches(lib: Library, ip: string, pattern: string) {
    var inside := lib.inNetwork(ip, pattern);
    if inside.Some? then inside.value else ip == pattern
  }

  predicate IpInCidrList(lib: Library, ip: string, cidrs: seq<string>) {
    exists entry :: entry in cidrs && IpMatches(lib, ip, entry)
  }

  function EvaluateCondition(c: Context, condition: RouteCondition): Verdict {
    var v, result := condition.value, c.result;
    match condition.kind
    case "protocol_match" => Holds(v == Str(result.protocol))
    case "score_threshold" => AtLeast(result.score, ToInt(c.lib, v))
    case "frequency_threshold" =>
      if result.isHighFrequency then Yes else AtLeast(result.frequencyCount, ToInt(c.lib, v))
    case "tag_match" =>
      (match v
       case Strs(items) => Holds(exists tag :: tag in items && tag in result.tags)
       case Str(s) => Holds(s in result.tags)
       case _ => No)
    case "ip_match" =>
      if v == Str("blacklist") then Holds(c.remoteIp in c.blacklist || IpInCidrList(c.lib, c.remoteIp, c.blacklist))
      else if v == Str("whitelist") then Holds(c.remoteIp in c.whitelist)
      else Holds(IpMatches(c.lib, c.remoteIp, Show(c.lib, v)))
    case "port_match" => Holds(Show(c.lib, v) == Show(c.lib, Int(c.localPort)))
    case _ => No
  }

  /** The configured name of an action. */
  function ActionName(action: ActionType): string {
    match action
    case RouteToHoneypot => "route_to_honeypot"
    case RouteToTarpit => "route_to_tarpit"
    case RouteToExternal => "route_to_external"
    case Block => "block"
    case LogOnly => "log_only"
  }

  /** Every action is configured by its name, and any other text means logging. */
  lemma ActionNames(action: ActionType, text: string)
    ensures FromStr(ActionName(action)) == action
    ensures FromStr(text) != LogOnly <==> exists a :: a != LogOnly && ActionName(a) == text
    ensures FromStr(text) != LogOnly ==> ActionName(FromStr(text)) == text
  {
    if FromStr(text) != LogOnly {
      assert ActionName(FromStr(text)) == text;
    }
  }

  /** An IP condition on the blacklist holds for literal entries and for networks that contain the IP; on the whitelist
      for literal entries only; on any other text when that is such a network or, being no network, the IP itself. */
  lemma IpConditions(c: Context, text: string)
    ensures EvaluateCondition(c, RouteCondition("ip_match", Str("blacklist"))) == Yes <==>
      exists entry :: entry in c.blacklist && (entry == c.remoteIp || c.lib.inNetwork(c.remoteIp, entry) == Some(true))
    ensures EvaluateCondition(c, RouteCondition("ip_match", Str("whitelist"))) == Yes <==> c.remoteIp in c.whitelist
    ensures text != "blacklist" && text != "whitelist" ==>
      var inside := c.lib.inNetwork(c.remoteIp, text);
      EvaluateCondition(c, RouteCondition("ip_match", Str(text))) == Yes <==>
        inside == Some(true) || (inside == None && c.remoteIp == text)
  {}

  /** Tag conditions ask for one of the listed tags, port conditions for the port as text. */
  lemma TagAndPortConditions(c: Context, tags: seq<string>, tag: string, port: int, text: string)
    ensures EvaluateCondition(c, RouteCondition("tag_match", Strs(tags))) == Yes <==>
      exists t :: t in tags && t in c.result.tags
    ensures EvaluateCondition(c, RouteCondition("tag_match", Str(tag))) == Yes <==> tag in c.result.tags
    ensures port == c.localPort ==> EvaluateCondition(c, RouteCondition("port_match", Int(port))) == Yes
    ensures EvaluateCondition(c, RouteCondition("port_match", Str(text))) == Yes <==>
      text == c.lib.show(Int(c.localPort))
    ensures EvaluateCondition(c, RouteCondition("protocol_match", Str(text))) == Yes <==> text == c.result.protocol
  {}

  /** Thresholds are inclusive; a float is cut off toward zero before it is compared. */
  lemma ThresholdConditions(c: Context, n: int, x: real)
    ensures EvaluateCondition(c, RouteCondition("score_threshold", Int(n))) == Yes <==> c.result.score >= n
    ensures EvaluateCondition(c, RouteCondition("frequency_threshold", Int(n))) == Yes <==>
      c.result.isHighFrequency || c.result.frequencyCount >= n
    ensures x >= 0.0 ==> (EvaluateCondition(c, RouteCondition("score_threshold", Float(x))) == Yes <==>
      (c.result.score + 1) as real > x)
    ensures x < 0.0 ==> (EvaluateCondition(c, RouteCondition("score_threshold", Float(x))) == Yes <==>
      c.result.score as real >= x)
  {}

  /** A condition of an unknown kind never holds, and no condition raises but for its threshold. */
  lemma UnknownConditions(c: Context, condition: RouteCondition)
    requires condition.kind !in
      ["protocol_match", "score_threshold", "frequency_threshold", "tag_match", "ip_match", "port_match"]
    ensures EvaluateCondition(c, condition) == No
  {}

  /** All conditions of a rule in turn, stopping at the first that does not hold. */
  function All(c: Context, conditions: seq<RouteCondition>): Verdict {
    if conditions == [] then Yes
    else
      var first := EvaluateCondition(c, conditions[0]);
      if first == Yes then All(c, conditions[1..]) else first
  }

  function VerdictOf(c: Context, rule: RouteRule): Verdict { All(c, rule.conditions) }

  /** Condition `i` raises and all before it hold. */
  ghost predicate RaisesAt(c: Context, conditions: seq<RouteCondition>, i: nat) {
    && i < |conditions| && EvaluateCondition(c, conditions[i]) == Raises
    && forall j :: 0 <= j < i ==> EvaluateCondition(c, conditions[j]) == Yes
  }

  /** A rule matches when every condition holds, and raises when a condition does so before any fails. */
  lemma {:induction false} AllMeaning(c: Context, conditions: seq<RouteCondition>)
    ensures All(c, conditions) == Yes <==> forall i :: 0 <= i < |conditions| ==>
      EvaluateCondition(c, conditions[i]) == Yes
    ensures All(c, conditions) == Raises <==> exists i: nat :: RaisesAt(c, conditions, i)
  {
    hide EvaluateCondition;
    if conditions != [] {
      var rest := conditions[1..];
      AllMeaning(c, rest);
      if EvaluateCondition(c, conditions[0]) == Yes {
        if i: nat :| RaisesAt(c, rest, i) {
          assert forall j :: 0 < j <= i ==> conditions[j] == rest[j - 1];
          assert RaisesAt(c, conditions, i + 1);
        }
        if i: nat :| RaisesAt(c, conditions, i) {
          assert i > 0 && forall j :: 0 <= j < i ==> rest[j] == conditions[j + 1];
          assert RaisesAt(c, rest, i - 1);
        }
      } else if EvaluateCondition(c, conditions[0]) == Raises {
        assert RaisesAt(c, conditions, 0);
      }
    }
  }

  /** A condition that compares with a threshold which is no number. */
  predicate Malformed(lib: Library, condition: RouteCondition) {
    condition.kind in ["score_threshold", "frequency_threshold"] && ToInt(lib, condition.value).None?
  }

  /** Every threshold among the conditions of these rules is a number, which can be checked before any traffic. */
  ghost predicate ThresholdsParse(lib: Library, rules: seq<RouteRule>) {
    forall rule, condition :: rule in rules && condition in rule.conditions ==> !Malformed(lib, condition)
  }

  /** Only a malformed threshold raises; the high-frequency flag keeps a frequency threshold from being parsed. */
  lemma RaisesExactly(c: Context, condition: RouteCondition)
    ensures EvaluateCondition(c, condition) == Raises <==>
      Malformed(c.lib, condition) && (condition.kind == "frequency_threshold" ==> !c.result.isHighFrequency)
  {}

  /** With numbers for thresholds no rule raises. */
  lemma WellFormedNeverRaises(c: Context, rules: seq<RouteRule>, rule: RouteRule)
    requires ThresholdsParse(c.lib, rules) && rule in rules
    ensures VerdictOf(c, rule) != Raises
  {
    hide EvaluateCondition, Malformed;
    AllMeaning(c, rule.conditions);
    forall i: nat ensures !RaisesAt(c, rule.conditions, i) {
      if i < |rule.conditions| {
        RaisesExactly(c, rule.conditions[i]);
      }
    }
  }

  /** More evidence about the same connection. */
  ghost predicate MoreEvidence(c: Context, c': Context) {
    && c' == c.(result := c'.result)
    && c'.result.protocol == c.result.protocol
    && c.result.score <= c'.result.score
    && c.result.frequencyCount <= c'.result.frequencyCount
    && (c.result.isHighFrequency ==> c'.result.isHighFrequency)
    && c.result.tags <= c'.result.tags
  }

  lemma ConditionMonotone(c: Context, c': Context, condition: RouteCondition)
    requires MoreEvidence(c, c') && EvaluateCondition(c, condition) == Yes
    ensures EvaluateCondition(c', condition) == Yes
  {}

  /** A rule that matches still matches under more evidence. */
  lemma {:induction false} AllMonotone(c: Context, c': Context, conditions: seq<RouteCondition>)
    requires MoreEvidence(c, c') && All(c, conditions) == Yes
    ensures All(c', conditions) == Yes
  {
    if conditions != [] {
      ConditionMonotone(c, c', conditions[0]);
      AllMonotone(c, c', conditions[1..]);
    }
  }
}
