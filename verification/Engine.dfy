/** Threat analysis of one connection (`analyzer/engine.py`, `analyzer/heuristics.py`, `analyzer/signatures.py`). */
module Engine {
  import opened SlidingLog
  import opened Protocols
  import opened Rules
  import FT = FrequencyTracker

  datatype Signature = Signature(name: string, protocol: string, pattern: string, score: int, tags: seq<string>)

  /** Whether a pattern is found in the decoded payload, ignoring case; an invalid pattern is never found. */
  type Search = (string, Bytes) -> bool

  datatype AnalyzerConfig = AnalyzerConfig(
    enableSignatures: bool, enableFrequency: bool, enableHeuristics: bool,
    windowSeconds: nat, threshold: nat,
    medium: int, high: int, critical: int
  )

  /** The fields of a connection that the analyzer, the router and the gateway update. */
  class Session {
    const remoteHost: IP
    const localPort: int
    var protocol: string
    var initialData: Bytes
    var threatScore: int
    var threatLevel: string
    var routeTarget: string

    constructor (remoteHost: IP, localPort: int)
      ensures this.remoteHost == remoteHost && this.localPort == localPort
    {
      this.remoteHost, this.localPort := remoteHost, localPort;
      protocol, initialData, threatScore, threatLevel, routeTarget := "raw", [], 0, "low", "";
    }
  }

  function Min(a: int, b: int): int { if a <= b then a else b }

  predicate Fires(search: Search, sig: Signature, protocol: string, data: Bytes) {
    (sig.protocol == protocol || sig.protocol == "*") && search(sig.pattern, data)
  }

  function Items(tags: seq<string>): set<string> { set t | t in tags }

  /** The signatures that fire, added up. */
  function SignatureScore(search: Search, sigs: seq<Signature>, protocol: string, data: Bytes): int {
    if sigs == [] then 0
    else
      var first := if Fires(search, sigs[0], protocol, data) then sigs[0].score else 0;
      first + SignatureScore(search, sigs[1..], protocol, data)
  }

  ghost function SignatureTags(search: Search, sigs: seq<Signature>, protocol: string, data: Bytes): set<string> {
    set sig, t | sig in sigs && Fires(search, sig, protocol, data) && t in sig.tags :: t
  }

  function Printable(data: Bytes): nat {
    if data == [] then 0
    else (if 32 <= data[0] <= 126 || data[0] in [9, 10, 13] then 1 else 0) + Printable(data[1..])
  }

  predicate LargePayload(data: Bytes) { |data| > 2048 }

  predicate PortScanProbe(data: Bytes) { |data| == 0 }

  predicate BinaryPayload(data: Bytes) { data != [] && Printable(data) as real / |data| as real < 0.5 }

  function HeuristicScore(data: Bytes): int {
    (if LargePayload(data) then 20 else 0) + (if PortScanProbe(data) then 25 else 0)
    + (if BinaryPayload(data) then 15 else 0)
  }

  function HeuristicTags(data: Bytes): set<string> {
    (if LargePayload(data) then {"large_payload"} else {})
    + (if PortScanProbe(data) then {"port_scan_probe"} else {})
    + (if BinaryPayload(data) then {"binary_payload"} else {})
  }

  function ThreatLevel(config: AnalyzerConfig, score: int): string {
    if score >= config.critical then "critical"
    else if score >= config.high then "high"
    else if score >= config.medium then "medium"
    else "low"
  }

  /** All the points of a connection, without any clamp; `scored` is the window count when the frequency is scored. */
  function RawScore(
    config: AnalyzerConfig, search: Search, sigs: seq<Signature>, protocol: string, data: Bytes, scored: nat
  ): int
    requires config.threshold >= 1
  {
    (if config.enableSignatures then SignatureScore(search, sigs, protocol, data) else 0)
    + (if config.enableFrequency then FT.FrequencyScore(config.threshold, scored) else 0)
    + (if config.enableHeuristics then HeuristicScore(data) else 0)
  }

  ghost predicate NonNegative(sigs: seq<Signature>) { forall sig :: sig in sigs ==> sig.score >= 0 }

  lemma {:induction false} SignatureScoreNonNegative(
    search: Search, sigs: seq<Signature>, protocol: string, data: Bytes
  )
    requires NonNegative(sigs)
    ensures SignatureScore(search, sigs, protocol, data) >= 0
  {
    if sigs != [] {
      SignatureScoreNonNegative(search, sigs[1..], protocol, data);
    }
  }

  lemma {:induction false} SignatureScoreConcat(
    search: Search, a: seq<Signature>, b: seq<Signature>, protocol: string, data: Bytes
  )
    ensures SignatureScore(search, a + b, protocol, data)
      == SignatureScore(search, a, protocol, data) + SignatureScore(search, b, protocol, data)
  {
    if a == [] {
      assert a + b == b;
    } else {
      assert (a + b)[1..] == a[1..] + b;
      SignatureScoreConcat(search, a[1..], b, protocol, data);
    }
  }

  /** A signature applies to its protocol, or to all, and counts when its pattern is found. */
  ghost predicate Found(search: Search, sig: Signature, protocol: string, data: Bytes) {
    sig.protocol in [protocol, "*"] && search(sig.pattern, data)
  }

  /** Each signature adds its score if it counts, and nothing otherwise. */
  lemma SignatureAdds(search: Search, sigs: seq<Signature>, sig: Signature, protocol: string, data: Bytes)
    ensures SignatureScore(search, sigs + [sig], protocol, data)
      == SignatureScore(search, sigs, protocol, data) + if Found(search, sig, protocol, data) then sig.score else 0
  {
    SignatureScoreConcat(search, sigs, [sig], protocol, data);
    assert [sig][1..] == [];
  }

  /** A tag is reported exactly when a signature that counts carries it. */
  lemma SignatureTagsExactly(search: Search, sigs: seq<Signature>, protocol: string, data: Bytes, t: string)
    ensures t in SignatureTags(search, sigs, protocol, data) <==>
      exists sig :: sig in sigs && Found(search, sig, protocol, data) && t in sig.tags
  {
    if sig :| sig in sigs && Found(search, sig, protocol, data) && t in sig.tags {
      assert Fires(search, sig, protocol, data);
    }
    if t in SignatureTags(search, sigs, protocol, data) {
      var sig :| sig in sigs && Fires(search, sig, protocol, data) && t in sig.tags;
      assert Found(search, sig, protocol, data);
    }
  }

  /** Where no pattern is found there are no points. */
  lemma {:induction false} NothingFound(search: Search, sigs: seq<Signature>, protocol: string, data: Bytes)
    requires forall sig :: sig in sigs ==> !Found(search, sig, protocol, data)
    ensures SignatureScore(search, sigs, protocol, data) == 0
  {
    if sigs != [] {
      assert sigs[0] in sigs && !Found(search, sigs[0], protocol, data);
      NothingFound(search, sigs[1..], protocol, data);
    }
  }

  lemma RemoveOne<T>(s: seq<T>, i: nat)
    requires i < |s|
    ensures multiset(s[..i] + s[i + 1..]) == multiset(s) - multiset{s[i]}
  {
    assert s == s[..i] + ([s[i]] + s[i + 1..]);
  }

  /** A permutation holds the first element somewhere, and the rest is a permutation of the others. */
  lemma HeadOfPermutation<T>(s: seq<T>, shuffled: seq<T>) returns (i: nat)
    requires s != [] && multiset(s) == multiset(shuffled)
    ensures i < |shuffled| && shuffled[i] == s[0]
    ensures multiset(s[1..]) == multiset(shuffled[..i] + shuffled[i + 1..])
  {
    assert s[0] in multiset(shuffled);
    i :| 0 <= i < |shuffled| && shuffled[i] == s[0];
    RemoveOne(s, 0);
    RemoveOne(shuffled, i);
    assert s[..0] + s[1..] == s[1..];
  }

  lemma {:induction false} ScoreOfPermutation(
    search: Search, sigs: seq<Signature>, shuffled: seq<Signature>, protocol: string, data: Bytes
  )
    requires multiset(sigs) == multiset(shuffled)
    ensures SignatureScore(search, sigs, protocol, data) == SignatureScore(search, shuffled, protocol, data)
    decreases |sigs|
  {
    hide Fires;
    if sigs == [] {
      assert |multiset(shuffled)| == 0;
    } else {
      var i := HeadOfPermutation(sigs, shuffled);
      var a, b := shuffled[..i], [sigs[0]] + shuffled[i + 1..];
      ScoreOfPermutation(search, sigs[1..], a + shuffled[i + 1..], protocol, data);
      SignatureScoreConcat(search, a, shuffled[i + 1..], protocol, data);
      SignatureScoreConcat(search, a, b, protocol, data);
      assert shuffled == a + b && b[1..] == shuffled[i + 1..];
    }
  }

  /** Score and tags do not depend on the order of the signatures. */
  lemma SignatureOrderIrrelevant(
    search: Search, sigs: seq<Signature>, shuffled: seq<Signature>, protocol: string, data: Bytes
  )
    requires multiset(sigs) == multiset(shuffled)
    ensures SignatureScore(search, sigs, protocol, data) == SignatureScore(search, shuffled, protocol, data)
    ensures SignatureTags(search, sigs, protocol, data) == SignatureTags(search, shuffled, protocol, data)
  {
    hide SignatureScore, Fires;
    ScoreOfPermutation(search, sigs, shuffled, protocol, data);
    assert forall sig :: sig in sigs <==> sig in multiset(sigs);
    assert forall sig :: sig in shuffled <==> sig in multiset(shuffled);
  }

  function Severity(level: string): int {
    if level == "critical" then 3 else if level == "high" then 2 else if level == "medium" then 1 else 0
  }

  /** The threat level never falls as the score rises, whatever the order of the thresholds. */
  lemma ThreatLevelMonotone(config: AnalyzerConfig, low: int, high: int)
    requires low <= high
    ensures Severity(ThreatLevel(config, low)) <= Severity(ThreatLevel(config, high))
  {
    if low >= config.critical {
    } else if low >= config.high {
    }
  }

  function Reached(bound: int, score: int): int { if score >= bound then 1 else 0 }

  /** With thresholds in order, the level says how many of them the score has reached. */
  lemma LevelCountsThresholds(config: AnalyzerConfig, score: int)
    requires config.medium <= config.high <= config.critical
    ensures Severity(ThreatLevel(config, score))
      == Reached(config.medium, score) + Reached(config.high, score) + Reached(config.critical, score)
  {
    if score >= config.critical {
    } else if score >= config.high {
    } else if score >= config.medium {
    }
  }

  /** The level that a score has reached, with thresholds in order. */
  ghost predicate LevelOf(config: AnalyzerConfig, level: string, score: int) {
    && (level == "critical" <==> score >= config.critical)
    && (level == "high" <==> config.high <= score < config.critical)
    && (level == "medium" <==> config.medium <= score < config.high)
    && (level == "low" <==> score < config.medium)
  }

  lemma LevelExactly(config: AnalyzerConfig, score: int)
    requires config.medium <= config.high <= config.critical
    ensures LevelOf(config, ThreatLevel(config, score), score)
  {
    if score >= config.critical {
    } else if score >= config.high {
    } else if score >= config.medium {
    }
  }

  lemma {:induction false} PrintableAtMost(data: Bytes)
    ensures Printable(data) <= |data|
  {
    if data != [] {
      PrintableAtMost(data[1..]);
    }
  }

  lemma HalfRatio(p: nat, n: nat)
    requires 0 < n <= 2 * p
    ensures p as real / n as real >= 0.5
  {
    var q := p as real / n as real;
    assert q * n as real == p as real;
    if q < 0.5 {
      assert q * n as real < 0.5 * n as real;
    }
  }

  lemma AtLeastHalf(q: real, n: real)
    requires q >= 0.5 && n >= 0.0
    ensures q * n >= 0.5 * n
  {}

  lemma BelowHalf(p: nat, n: nat)
    requires 2 * p < n
    ensures p as real / n as real < 0.5
  {
    var q := p as real / n as real;
    assert q * n as real == p as real;
    if q >= 0.5 {
      AtLeastHalf(q, n as real);
    }
  }

  lemma BinaryMeansMostlyUnprintable(data: Bytes)
    ensures BinaryPayload(data) <==> 2 * Printable(data) < |data|
  {
    PrintableAtMost(data);
    hide Printable;
    if 2 * Printable(data) < |data| {
      BelowHalf(Printable(data), |data|);
    } else if data != [] {
      HalfRatio(Printable(data), |data|);
    }
  }

  /** The points a tag stands for. */
  function Points(tag: string): nat {
    if tag == "port_scan_probe" then 25 else if tag == "large_payload" then 20 else 15
  }

  /** The tags account for the points; an empty probe excludes the other two findings, so 35 points are the most,
      and a payload is unremarkable exactly when it has 1 to 2048 bytes of which at least half are printable. */
  lemma HeuristicLaws(data: Bytes)
    ensures HeuristicTags(data) <= {"large_payload", "port_scan_probe", "binary_payload"}
    ensures "port_scan_probe" in HeuristicTags(data) <==> HeuristicTags(data) == {"port_scan_probe"}
    ensures forall tag :: HeuristicTags(data) == {tag} ==> HeuristicScore(data) == Points(tag)
    ensures |HeuristicTags(data)| == 2 <==> HeuristicScore(data) == 35
    ensures 0 <= HeuristicScore(data) <= 35
    ensures HeuristicScore(data) == 0 <==> 0 < |data| <= 2048 && |data| <= 2 * Printable(data)
    ensures HeuristicScore(data) == 35 <==> |data| > 2048 && 2 * Printable(data) < |data|
  {
    BinaryMeansMostlyUnprintable(data);
    hide Printable;
    var tags := HeuristicTags(data);
    if LargePayload(data) && BinaryPayload(data) {
      assert tags == {"large_payload", "binary_payload"};
      assert "large_payload" in tags && "binary_payload" in tags;
    } else if LargePayload(data) {
      assert tags == {"large_payload"} && |tags| == 1;
    } else if BinaryPayload(data) {
      assert tags == {"binary_payload"} && |tags| == 1;
    } else if PortScanProbe(data) {
      assert tags == {"port_scan_probe"} && |tags| == 1;
    } else {
      assert tags == {};
    }
  }

  /** What the analyzer reports when the window held `seen` connections at recording and `scored` at scoring. */
  ghost function Assess(
    config: AnalyzerConfig, search: Search, sigs: seq<Signature>, protocol: string, data: Bytes, seen: nat,
    scored: nat
  ): AnalysisResult
    requires config.threshold >= 1
  {
    var sigScore := if config.enableSignatures then Min(SignatureScore(search, sigs, protocol, data), 100) else 0;
    var freqScore := if config.enableFrequency then FT.FrequencyScore(config.threshold, scored) else 0;
    var heurScore := if config.enableHeuristics then HeuristicScore(data) else 0;
    var score := Min(sigScore + freqScore + heurScore, 100);
    AnalysisResult(
      protocol, score, ThreatLevel(config, score),
      (if config.enableSignatures then SignatureTags(search, sigs, protocol, data) else {})
      + (if config.enableHeuristics then HeuristicTags(data) else {}),
      config.enableFrequency && seen >= config.threshold,
      if config.enableFrequency then seen else 0)
  }

  /** What a heuristic tag says of the payload. */
  ghost predicate HeuristicTag(data: Bytes, t: string) {
    || (t == "large_payload" && |data| > 2048)
    || (t == "port_scan_probe" && |data| == 0)
    || (t == "binary_payload" && 2 * Printable(data) < |data|)
  }

  /** The points of the payload and of the window, from what was found. */
  function AllPoints(config: AnalyzerConfig, sigScore: int, data: Bytes, scored: nat): int
    requires config.threshold >= 1
  {
    (if config.enableSignatures then sigScore else 0)
    + (if !config.enableFrequency then 0
       else if scored < config.threshold then 40 * scored / config.threshold
       else 50 + Min(90, 30 * scored / config.threshold))
    + (if config.enableHeuristics && |data| > 2048 then 20 else 0)
    + (if config.enableHeuristics && |data| == 0 then 25 else 0)
    + (if config.enableHeuristics && 2 * Printable(data) < |data| then 15 else 0)
  }

  /** What a report promises about a connection, item by item. */
  ghost predicate Reports(
    config: AnalyzerConfig, search: Search, sigs: seq<Signature>, protocol: string, data: Bytes, seen: nat,
    scored: nat, result: AnalysisResult
  )
    requires config.threshold >= 1
  {
    && result.protocol == protocol
    && (config.medium <= config.high <= config.critical ==> LevelOf(config, result.threatLevel, result.score))
    && (result.isHighFrequency <==> config.enableFrequency && seen >= config.threshold)
    && (result.frequencyCount == if config.enableFrequency then seen else 0)
    && (NonNegative(sigs) ==>
        result.score == Min(100, AllPoints(config, SignatureScore(search, sigs, protocol, data), data, scored)))
    && (forall t :: t in result.tags <==>
        || (config.enableSignatures && exists sig :: sig in sigs && Found(search, sig, protocol, data) && t in sig.tags)
        || (config.enableHeuristics && HeuristicTag(data, t)))
  }

  lemma HeuristicsExactly(data: Bytes)
    ensures HeuristicScore(data) == (if |data| > 2048 then 20 else 0) + (if |data| == 0 then 25 else 0)
      + (if 2 * Printable(data) < |data| then 15 else 0)
    ensures forall t :: t in HeuristicTags(data) <==> HeuristicTag(data, t)
  {
    BinaryMeansMostlyUnprintable(data);
    hide Printable, BinaryPayload;
  }

  /** Every assessment reports just that. */
  lemma AssessReports(
    config: AnalyzerConfig, search: Search, sigs: seq<Signature>, protocol: string, data: Bytes, seen: nat,
    scored: nat
  )
    requires config.threshold >= 1
    ensures Reports(config, search, sigs, protocol, data, seen, scored,
      Assess(config, search, sigs, protocol, data, seen, scored))
  {
    var result := Assess(config, search, sigs, protocol, data, seen, scored);
    hide SignatureScore, SignatureTags, HeuristicScore, HeuristicTags, FT.FrequencyScore, ThreatLevel, LevelOf;
    hide Printable, HeuristicTag, Found;
    HeuristicsExactly(data);
    FT.PointsExactly(config.threshold, scored);
    if config.medium <= config.high <= config.critical {
      LevelExactly(config, result.score);
    }
    if NonNegative(sigs) {
      ScoreIsCappedSum(config, search, sigs, protocol, data, seen, scored);
    }
    forall t ensures t in SignatureTags(search, sigs, protocol, data) <==>
      exists sig :: sig in sigs && Found(search, sig, protocol, data) && t in sig.tags {
      SignatureTagsExactly(search, sigs, protocol, data, t);
    }
  }

  /** The two nested clamps are one: the score is the sum of all points, capped at 100, and never negative. */
  lemma ScoreIsCappedSum(
    config: AnalyzerConfig, search: Search, sigs: seq<Signature>, protocol: string, data: Bytes, seen: nat,
    scored: nat
  )
    requires config.threshold >= 1 && NonNegative(sigs)
    ensures Assess(config, search, sigs, protocol, data, seen, scored).score
      == Min(RawScore(config, search, sigs, protocol, data, scored), 100)
    ensures 0 <= Assess(config, search, sigs, protocol, data, seen, scored).score <= 100
  {
    SignatureScoreNonNegative(search, sigs, protocol, data);
    FT.FrequencyScoreLaws(config.threshold, scored, scored);
  }

  /** The points of the payload: signatures and heuristics, as far as they are enabled. */
  function PayloadPoints(
    config: AnalyzerConfig, search: Search, sigs: seq<Signature>, protocol: string, data: Bytes
  ): int {
    (if config.enableSignatures then SignatureScore(search, sigs, protocol, data) else 0)
    + (if config.enableHeuristics then HeuristicScore(data) else 0)
  }

  /** A connection scores at least 80 if the window still holds the threshold at the second clock read, as it does
      for a high-frequency connection of which nothing has expired since the first. */
  lemma HighFrequencyScoresHigh(
    config: AnalyzerConfig, search: Search, sigs: seq<Signature>, protocol: string, data: Bytes, seen: nat, scored: nat
  )
    requires config.enableFrequency && NonNegative(sigs) && scored >= config.threshold >= 1
    ensures Assess(config, search, sigs, protocol, data, seen, scored).score >= 80
  {
    ScoreIsCappedSum(config, search, sigs, protocol, data, seen, scored);
    SignatureScoreNonNegative(search, sigs, protocol, data);
    FT.FrequencyScoreLaws(config.threshold, scored, scored);
  }

  /** The exact condition, for every configuration that scores the frequency. The flag reports the first clock read
      and the score the second, so a flagged connection scores below 80 when both parts of it fail. */
  lemma ScoresHighExactly(
    config: AnalyzerConfig, search: Search, sigs: seq<Signature>, protocol: string, data: Bytes, seen: nat, scored: nat
  )
    requires config.enableFrequency && NonNegative(sigs) && config.threshold >= 1
    ensures var result := Assess(config, search, sigs, protocol, data, seen, scored);
      && (result.isHighFrequency <==> seen >= config.threshold)
      && (result.score >= 80 <==>
          || scored >= config.threshold
          || PayloadPoints(config, search, sigs, protocol, data) + 40 * scored / config.threshold >= 80)
  {
    hide SignatureScore, SignatureTags, HeuristicScore, HeuristicTags, FT.FrequencyScore;
    ScoreIsCappedSum(config, search, sigs, protocol, data, seen, scored);
    if scored >= config.threshold {
      HighFrequencyScoresHigh(config, search, sigs, protocol, data, seen, scored);
    } else {
      FT.PointsExactly(config.threshold, scored);
    }
  }

  /** More connections in the window, at either clock read, never lower score or level, and never clear the flag. */
  lemma AssessMonotone(
    config: AnalyzerConfig, search: Search, sigs: seq<Signature>, protocol: string, data: Bytes,
    seen: nat, scored: nat, seen': nat, scored': nat
  )
    requires config.threshold >= 1 && seen <= seen' && scored <= scored'
    ensures
      var few := Assess(config, search, sigs, protocol, data, seen, scored);
      var many := Assess(config, search, sigs, protocol, data, seen', scored');
      && few.protocol == many.protocol && few.tags == many.tags
      && few.score <= many.score && few.frequencyCount <= many.frequencyCount
      && (few.isHighFrequency ==> many.isHighFrequency)
      && Severity(few.threatLevel) <= Severity(many.threatLevel)
  {
    hide SignatureScore, SignatureTags, HeuristicScore, HeuristicTags, FT.FrequencyScore, ThreatLevel, Severity;
    FT.FrequencyScoreLaws(config.threshold, scored, scored');
    var few := Assess(config, search, sigs, protocol, data, seen, scored);
    ThreatLevelMonotone(config, few.score, Assess(config, search, sigs, protocol, data, seen', scored').score);
  }

  class AnalysisEngine {
    const config: AnalyzerConfig
    const search: Search
    const signatures: seq<Signature>
    const tracker: FT.FrequencyTracker

    ghost predicate Valid()
      reads this, tracker
    {
      tracker.Valid() && tracker.window == config.windowSeconds && tracker.threshold == config.threshold
    }

    constructor (config: AnalyzerConfig, search: Search, signatures: seq<Signature>, ghost now: real)
      requires config.windowSeconds >= 1 && config.threshold >= 1
      ensures Valid() && fresh(tracker) && tracker.calls == [] && tracker.clock == now
      ensures this.config == config && this.search == search && this.signatures == signatures
    {
      this.config, this.search, this.signatures := config, search, signatures;
      tracker := new FT.FrequencyTracker(config.windowSeconds, config.threshold, now);
    }

    /** Records the connection and assesses it by counts over the full history at the two clock reads. */
    method Analyze(session: Session, recordedAt: real, scoredAt: real) returns (result: AnalysisResult)
      requires Valid() && tracker.clock <= recordedAt <= scoredAt
      modifies tracker, session`threatScore, session`threatLevel
      ensures Valid() && config.threshold >= 1 && tracker.clock <= scoredAt
      ensures tracker.calls == if config.enableFrequency
        then old(tracker.calls) + [Call(session.remoteHost, recordedAt)] else old(tracker.calls)
      ensures var times := TimesOf(tracker.calls, session.remoteHost);
        result == Assess(config, search, signatures, session.protocol, session.initialData,
                         CountSince(times, recordedAt - config.windowSeconds as real),
                         CountSince(times, scoredAt - config.windowSeconds as real))
      ensures var times := TimesOf(tracker.calls, session.remoteHost);
        Reports(config, search, signatures, session.protocol, session.initialData,
                CountSince(times, recordedAt - config.windowSeconds as real),
                CountSince(times, scoredAt - config.windowSeconds as real), result)
      ensures session.threatScore == result.score && session.threatLevel == result.threatLevel
    {
      hide SignatureScore, SignatureTags, HeuristicScore, HeuristicTags, FT.FrequencyScore, ThreatLevel, Reports;
      hide Valid, TimesOf, CountSince, FT.FrequencyTracker.Valid;
      Unfold();
      tracker.Unfold();
      var sigScore, sigTags := 0, {};
      var frequencyCount, isHighFrequency, freqScore := 0, false, 0;
      var heurScore, heurTags := 0, {};
      if config.enableSignatures {
        sigScore, sigTags := RunSignatures(session.protocol, session.initialData);
      }
      if config.enableFrequency {
        frequencyCount := tracker.Record(session.remoteHost, recordedAt);
        isHighFrequency := frequencyCount >= config.threshold;
        freqScore := tracker.GetFrequencyScore(session.remoteHost, scoredAt);
      }
      if config.enableHeuristics {
        heurScore, heurTags := HeuristicScore(session.initialData), HeuristicTags(session.initialData);
      }
      var score := Min(sigScore + freqScore + heurScore, 100);
      result := AnalysisResult(session.protocol, score, ThreatLevel(config, score), sigTags + heurTags,
        isHighFrequency, frequencyCount);
      session.threatScore, session.threatLevel := result.score, result.threatLevel;
      ghost var times, w := TimesOf(tracker.calls, session.remoteHost), config.windowSeconds as real;
      AssessReports(config, search, signatures, session.protocol, session.initialData,
        CountSince(times, recordedAt - w), CountSince(times, scoredAt - w));
      Unfold();
    }

    /** The invariant, spelled out for proofs that hide everything. */
    lemma Unfold()
      ensures Valid() <==>
        tracker.Valid() && tracker.window == config.windowSeconds && tracker.threshold == config.threshold
    {}

    /** Adds up the signatures of the protocol that are found in the payload. */
    method RunSignatures(protocol: string, data: Bytes) returns (score: int, tags: set<string>)
      ensures score == Min(SignatureScore(search, signatures, protocol, data), 100)
      ensures tags == SignatureTags(search, signatures, protocol, data)
      ensures forall t :: t in tags <==>
        exists sig :: sig in signatures && Found(search, sig, protocol, data) && t in sig.tags
      ensures (forall sig :: sig in signatures ==> !Found(search, sig, protocol, data)) ==> score == 0 && tags == {}
    {
      var total := 0;
      tags := {};
      var i := 0;
      while i < |signatures|
        invariant 0 <= i <= |signatures|
        invariant total + SignatureScore(search, signatures[i..], protocol, data)
          == SignatureScore(search, signatures, protocol, data)
        invariant tags == SignatureTags(search, signatures[..i], protocol, data)
      {
        var sig := signatures[i];
        assert signatures[i..][0] == sig && signatures[i..][1..] == signatures[i + 1..];
        assert signatures[..i + 1] == signatures[..i] + [sig];
        if (sig.protocol == protocol || sig.protocol == "*") && search(sig.pattern, data) {
          total, tags := total + sig.score, tags + Items(sig.tags);
        }
        i := i + 1;
      }
      assert signatures[..|signatures|] == signatures;
      score := Min(total, 100);
      forall t ensures t in tags <==>
        exists sig :: sig in signatures && Found(search, sig, protocol, data) && t in sig.tags {
        SignatureTagsExactly(search, signatures, protocol, data, t);
      }
      if forall sig :: sig in signatures ==> !Found(search, sig, protocol, data) {
        NothingFound(search, signatures, protocol, data);
      }
    }
  }
}
