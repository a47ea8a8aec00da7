/** The per-IP sliding window of `analyzer/frequency.py`. */
module FrequencyTracker {
  import opened Wrappers
  import opened SlidingLog
  import opened Histories
  import opened LogTable
  import opened StableSort

  datatype Question = Record | GetCount | HighFrequency | Score
  datatype Answer = Count(n: nat) | High(yes: bool) | Points(score: int)

  /** The score of a number of connections in the window: at least 80 from the threshold on. */
  function FrequencyScore(threshold: nat, count: nat): int
    requires threshold >= 1
  {
    var ratio := count as real / threshold as real;
    if count >= threshold then (50.0 + (if ratio <= 3.0 then ratio else 3.0) * 30.0).Floor else (ratio * 40.0).Floor
  }

  lemma RatioMonotone(threshold: nat, m: nat, n: nat)
    requires threshold >= 1 && m <= n
    ensures 0.0 <= m as real / threshold as real <= n as real / threshold as real
    ensures m < threshold ==> m as real / threshold as real < 1.0
    ensures m >= threshold ==> m as real / threshold as real >= 1.0
  {}

  /** Below the threshold a score is in 0..39, from it in 80..140; more connections never score less. */
  lemma FrequencyScoreLaws(threshold: nat, m: nat, n: nat)
    requires threshold >= 1 && m <= n
    ensures FrequencyScore(threshold, m) <= FrequencyScore(threshold, n)
    ensures if n < threshold then 0 <= FrequencyScore(threshold, n) <= 39 else 80 <= FrequencyScore(threshold, n) <= 140
  {
    RatioMonotone(threshold, m, n);
    RatioMonotone(threshold, n, n);
  }

  lemma ProductMonotone(a: real, b: real, t: real)
    requires a <= b && t > 0.0
    ensures a * t <= b * t && (a < b ==> a * t < b * t)
  {}

  lemma WholeProduct(m: int, t: nat)
    ensures (m * t) as real == m as real * t as real
  {}

  lemma FloorBetween(x: real, low: real, high: real, w: real)
    requires w > 0.0 && high == low + 1.0 && low.Floor as real == low && low * w <= x * w < high * w
    ensures x.Floor == low.Floor
  {
    if x < low {
      ProductMonotone(x, low, w);
    }
    if high <= x {
      ProductMonotone(high, x, w);
    }
  }

  lemma QuotientBounds(n: nat, t: nat)
    requires t > 0
    ensures n / t * t <= n < (n / t + 1) * t
  {}

  lemma FloorOfQuotient(x: real, t: nat, n: nat)
    requires t > 0 && x * t as real == n as real
    ensures x.Floor == n / t
  {
    QuotientBounds(n, t);
    WholeProduct(n / t, t);
    WholeProduct(n / t + 1, t);
    FloorBetween(x, (n / t) as real, (n / t + 1) as real, t as real);
  }

  /** The score in whole numbers: 40 points by the share of the threshold below it, from it on 50 and 30 more for
      every multiple of the threshold, up to 140. */
  lemma PointsExactly(threshold: nat, n: nat)
    requires threshold >= 1
    ensures FrequencyScore(threshold, n) ==
      if n < threshold then 40 * n / threshold else if 30 * n / threshold <= 90 then 50 + 30 * n / threshold else 140
  {
    var ratio := n as real / threshold as real;
    QuotientOfMultiple(n, threshold, 40);
    QuotientOfMultiple(n, threshold, 30);
    RatioMonotone(threshold, n, n);
  }

  lemma QuotientOfMultiple(n: nat, t: nat, m: nat)
    requires t > 0
    ensures (n as real / t as real * m as real).Floor == m * n / t
  {
    var q := n as real / t as real;
    assert q * t as real == n as real;
    assert q * m as real * t as real == (m * n) as real;
    FloorOfQuotient(q * m as real, t, m * n);
  }

  /** The reference answers: everything is counted over the full history. */
  function Promised(w: real, threshold: nat): Promise<Question, Answer>
    requires threshold >= 1
  {
    Promise(
      (q: Question) => q.Record?,
      (q: Question, ts: seq<real>, now: real) =>
        match q
        case Record => Count(CountSince(ts + [now], now - w))
        case GetCount => Count(CountSince(ts, now - w))
        case HighFrequency => High(CountSince(ts, now - w) >= threshold)
        case Score => Points(FrequencyScore(threshold, CountSince(ts, now - w))))
  }

  /** The connections of an IP in a run, not older than `cutoff`. */
  function Connections(ops: seq<Op<Question>>, ip: IP, cutoff: real): nat {
    if ops == [] then 0
    else
      var here := ops[0].On? && ops[0].kind == Record && ops[0].ip == ip && ops[0].at >= cutoff;
      (if here then 1 else 0) + Connections(ops[1..], ip, cutoff)
  }

  lemma {:induction false} ConnectionsAreRecent(w: real, threshold: nat, ops: seq<Op<Question>>, ip: IP, cutoff: real)
    requires threshold >= 1
    ensures RecentIn(Promised(w, threshold), ops, ip, cutoff) == Connections(ops, ip, cutoff)
  {
    if ops != [] {
      ConnectionsAreRecent(w, threshold, ops[1..], ip, cutoff);
    }
  }

  /** What a new tracker answers in a run, straight from the run: every answer goes by the connections of the same IP
      among the operations before. */
  lemma CountsInRun(w: real, threshold: nat, ops: seq<Op<Question>>, k: nat)
    requires k < |ops| && ops[k].On? && threshold >= 1 && w > 0.0
    ensures var answers, n := Answers(Promised(w, threshold), [], ops), Asked(ops[..k]);
      var m := Connections(ops[..k], ops[k].ip, ops[k].at - w);
      && n < |answers| && answers[n].0 == ops[k].ip
      && (ops[k].kind == Record ==> answers[n].1 == Count(m + 1))
      && (ops[k].kind == GetCount ==> answers[n].1 == Count(m))
      && (ops[k].kind == HighFrequency ==> answers[n].1 == High(m >= threshold))
      && (ops[k].kind == Score ==> answers[n].1 == Points(
            if m < threshold then 40 * m / threshold
            else if 30 * m / threshold <= 90 then 50 + 30 * m / threshold else 140))
  {
    hide Asked, Answers, CallsAfterAll, Connections, RecentIn, TimesOf, CountSince, FrequencyScore;
    var p, ip, at := Promised(w, threshold), ops[k].ip, ops[k].at;
    AnswerAt(p, [], ops, k);
    CountOfRun(p, [], ops[..k], ip, at - w);
    ConnectionsAreRecent(w, threshold, ops[..k], ip, at - w);
    NoCalls(ip);
    CountAppend(TimesOf(CallsAfterAll(p, [], ops[..k]), ip), at, at - w);
    PointsExactly(threshold, Connections(ops[..k], ip, at - w));
  }


  type Ranking = seq<(IP, nat)>

  function CountKey(entry: (IP, nat)): int { entry.1 }

  /** Every IP with its count over the full history, in the order of `keys`. */
  function Census(keys: seq<IP>, calls: seq<Call>, cutoff: real): Ranking {
    if keys == [] then []
    else
      var last := keys[|keys| - 1];
      Census(keys[..|keys| - 1], calls, cutoff) + [(last, CountSince(TimesOf(calls, last), cutoff))]
  }

  /** Python's `s[:n]`. */
  function UpTo(s: Ranking, n: int): Ranking {
    if n >= |s| then s else if n >= 0 then s[..n] else if |s| + n >= 0 then s[..|s| + n] else []
  }

  /** The first `n` of the ranking of these IPs, or all but the last `-n`: each listed once with its exact count, the
      counts falling, and nobody left out who counts more than somebody listed. */
  ghost predicate TopRanking(top: Ranking, keys: seq<IP>, calls: seq<Call>, cutoff: real, n: int) {
    && (if 0 <= n <= |keys| then |top| == n
        else if n > |keys| then |top| == |keys| else |top| == if |keys| + n > 0 then |keys| + n else 0)
    && (forall i :: 0 <= i < |top| ==> top[i].0 in keys && top[i].1 == CountSince(TimesOf(calls, top[i].0), cutoff))
    && (forall i, j :: 0 <= i < j < |top| ==> top[i].1 >= top[j].1 && top[i].0 != top[j].0)
    && (forall ip, j :: ip in keys && 0 <= j < |top| && CountSince(TimesOf(calls, ip), cutoff) > top[j].1 ==>
        exists i :: 0 <= i < j && top[i].0 == ip)
  }

  lemma {:induction false} CensusAt(keys: seq<IP>, calls: seq<Call>, cutoff: real)
    ensures |Census(keys, calls, cutoff)| == |keys|
    ensures forall i :: 0 <= i < |keys| ==>
      Census(keys, calls, cutoff)[i] == (keys[i], CountSince(TimesOf(calls, keys[i]), cutoff))
  {
    if keys != [] {
      CensusAt(keys[..|keys| - 1], calls, cutoff);
    }
  }

  lemma {:induction false} AtMostOnce<T>(s: seq<T>, x: T)
    requires forall i, j :: 0 <= i < j < |s| ==> s[i] != s[j]
    ensures multiset(s)[x] <= 1
  {
    if s != [] {
      assert s == [s[0]] + s[1..];
      assert x == s[0] ==> x !in s[1..];
      AtMostOnce(s[1..], x);
    }
  }

  lemma Twice<T>(s: seq<T>, i: nat, j: nat)
    requires i < j < |s| && s[i] == s[j]
    ensures multiset(s)[s[i]] >= 2
  {
    assert s == s[..j] + ([s[j]] + s[j + 1..]);
    assert s[i] == s[..j][i] && s[i] in s[..j];
  }

  lemma RankingIsTop(keys: seq<IP>, calls: seq<Call>, cutoff: real, ranked: Ranking, n: int)
    requires StableDescending(Census(keys, calls, cutoff), ranked, CountKey)
    requires forall i, j :: 0 <= i < j < |keys| ==> keys[i] != keys[j]
    ensures TopRanking(UpTo(ranked, n), keys, calls, cutoff, n)
  {
    hide *;
    RankedEntries(keys, calls, cutoff, ranked);
    RankedCover(keys, calls, cutoff, ranked);
    PrefixRanks(ranked, keys, calls, cutoff, n);
  }

  lemma RankedCover(keys: seq<IP>, calls: seq<Call>, cutoff: real, ranked: Ranking)
    requires StableDescending(Census(keys, calls, cutoff), ranked, CountKey)
    ensures |ranked| == |keys|
    ensures forall ip, j :: ip in keys && 0 <= j < |ranked| && CountSince(TimesOf(calls, ip), cutoff) > ranked[j].1 ==>
      exists i :: 0 <= i < j && ranked[i].0 == ip
  {
    var census := Census(keys, calls, cutoff);
    CensusAt(keys, calls, cutoff);
    SortedIsPermutation(census, ranked, CountKey);
    assert |ranked| == |multiset(ranked)| && |census| == |multiset(census)|;
    hide Census, TimesOf, CountSince, WithKey;
    forall ip, j | ip in keys && 0 <= j < |ranked| && CountSince(TimesOf(calls, ip), cutoff) > ranked[j].1
      ensures exists i :: 0 <= i < j && ranked[i].0 == ip {
      var k :| 0 <= k < |keys| && keys[k] == ip;
      assert census[k] in multiset(census) && census[k] in ranked;
      var i :| 0 <= i < |ranked| && ranked[i] == census[k];
      assert CountKey(ranked[i]) > CountKey(ranked[j]);
    }
  }

  /** What holds of the whole ranking holds of the part that is asked for. */
  lemma PrefixRanks(ranked: Ranking, keys: seq<IP>, calls: seq<Call>, cutoff: real, n: int)
    requires |ranked| == |keys|
    requires forall i :: 0 <= i < |ranked| ==>
      ranked[i].0 in keys && ranked[i].1 == CountSince(TimesOf(calls, ranked[i].0), cutoff)
    requires forall i, j :: 0 <= i < j < |ranked| ==> ranked[i].1 >= ranked[j].1 && ranked[i].0 != ranked[j].0
    requires forall ip, j :: ip in keys && 0 <= j < |ranked| && CountSince(TimesOf(calls, ip), cutoff) > ranked[j].1 ==>
      exists i :: 0 <= i < j && ranked[i].0 == ip
    ensures TopRanking(UpTo(ranked, n), keys, calls, cutoff, n)
  {
    hide TimesOf, CountSince;
    var top := UpTo(ranked, n);
    assert |top| <= |ranked| && forall i :: 0 <= i < |top| ==> top[i] == ranked[i];
    forall ip, j | ip in keys && 0 <= j < |top| && CountSince(TimesOf(calls, ip), cutoff) > top[j].1
      ensures exists i :: 0 <= i < j && top[i].0 == ip {
      var i :| 0 <= i < j && ranked[i].0 == ip;
      assert top[i].0 == ip;
    }
  }

  /** The ranked entries are those of the census, and no IP is ranked twice. */
  lemma RankedEntries(keys: seq<IP>, calls: seq<Call>, cutoff: real, ranked: Ranking)
    requires StableDescending(Census(keys, calls, cutoff), ranked, CountKey)
    requires forall i, j :: 0 <= i < j < |keys| ==> keys[i] != keys[j]
    ensures forall i :: 0 <= i < |ranked| ==>
      ranked[i].0 in keys && ranked[i].1 == CountSince(TimesOf(calls, ranked[i].0), cutoff)
    ensures forall i, j :: 0 <= i < j < |ranked| ==> ranked[i].1 >= ranked[j].1 && ranked[i].0 != ranked[j].0
  {
    var census := Census(keys, calls, cutoff);
    CensusAt(keys, calls, cutoff);
    SortedIsPermutation(census, ranked, CountKey);
    hide Census, TimesOf, CountSince, WithKey;
    forall i | 0 <= i < |ranked|
      ensures ranked[i].0 in keys && ranked[i].1 == CountSince(TimesOf(calls, ranked[i].0), cutoff) {
      assert ranked[i] in multiset(ranked);
      assert ranked[i] in census;
    }
    forall i, j | 0 <= i < j < |ranked| ensures ranked[i].1 >= ranked[j].1 && ranked[i].0 != ranked[j].0 {
      assert CountKey(ranked[i]) >= CountKey(ranked[j]);
      AtMostOnce(census, ranked[i]);
      if ranked[i] == ranked[j] {
        Twice(ranked, i, j);
      }
    }
  }

  lemma CensusStep(keys: seq<IP>, i: nat, calls: seq<Call>, cutoff: real)
    requires i < |keys|
    ensures Census(keys[..i + 1], calls, cutoff)
      == Census(keys[..i], calls, cutoff) + [(keys[i], CountSince(TimesOf(calls, keys[i]), cutoff))]
  {
    assert keys[..i + 1][..i] == keys[..i];
  }

  lemma WholeCensus(keys: seq<IP>, calls: seq<Call>, cutoff: real)
    ensures Census(keys[..|keys|], calls, cutoff) == Census(keys, calls, cutoff)
  {
    assert keys[..|keys|] == keys;
  }

  lemma EmptyCensus(keys: seq<IP>, calls: seq<Call>, cutoff: real)
    ensures Census(keys[..0], calls, cutoff) == []
  {}

  /** An empty entry of the dictionary says as much as no entry. */
  lemma PutEmptyTracks(t: Table, calls: seq<Call>, cutoff: real, ip: IP)
    requires Tracks(t, calls, cutoff) && ip !in t.logs
    ensures Tracks(t.Put(ip, []), calls, cutoff)
  {
    forall other ensures Slides(t.Put(ip, []).Get(other), TimesOf(calls, other), cutoff) {
      assert Slides(t.Get(other), TimesOf(calls, other), cutoff);
    }
  }

  lemma {:induction false} RecentIsKept(log: Log, now: real, cutoff: real)
    requires cutoff < now
    ensures DropBefore(log + [now], cutoff) != []
  {
    if log != [] && log[0] < cutoff {
      assert (log + [now])[1..] == log[1..] + [now];
      RecentIsKept(log[1..], now, cutoff);
    }
  }

  lemma PutKeys(t: Table, ip: IP, log: Log)
    ensures t.Put(ip, log).logs.Keys == t.logs.Keys + {ip}
  {}

  lemma TrimHas(t: Table, ip: IP, cutoff: real)
    ensures ip in t.Trim(ip, cutoff).logs <==> !t.Stale(ip, cutoff)
    ensures t.Trim(ip, cutoff).logs.Keys == t.logs.Keys - {ip} + (if t.Stale(ip, cutoff) then {} else {ip})
  {}

  /** Recording a call counts it over the longer history, and its log is not deleted. */
  lemma RecordTracks(t: Table, calls: seq<Call>, clock: real, w: real, c: Call)
    requires w > 0.0 && Chronological(calls, clock) && clock <= c.at && Tracks(t, calls, clock - w)
    ensures var t' := t.Put(c.ip, t.Get(c.ip) + [c.at]).Trim(c.ip, c.at - w);
      && Tracks(t', calls + [c], c.at - w) && c.ip in t'.logs
      && |t'.Get(c.ip)| == CountSince(TimesOf(calls + [c], c.ip), c.at - w)
    ensures Chronological(calls + [c], c.at)
  {
    hide Tracks, Chronological, TimesOf, CountSince, DropBefore, Table.Trim;
    var logged := t.Put(c.ip, t.Get(c.ip) + [c.at]);
    ChronologicalAppend(calls, clock, c);
    AppendTracks(t, calls, clock - w, c);
    TrimTracks(logged, calls + [c], c.at, clock - w, c.at - w, c.ip);
    RecentIsKept(t.Get(c.ip), c.at, c.at - w);
    TrimHas(logged, c.ip, c.at - w);
  }

  class FrequencyTracker {
    const window: nat
    const threshold: nat

    var records: Table

    /** Every connection ever recorded, and the last time the clock was read. */
    ghost var calls: seq<Call>
    ghost var clock: real

    ghost predicate Valid()
      reads this
    {
      && window >= 1 && threshold >= 1
      && Chronological(calls, clock)
      && records.Valid()
      && Tracks(records, calls, clock - window as real)
    }

    /** The invariant, spelled out for proofs that hide everything. */
    lemma Unfold()
      ensures Valid() <==>
        && window >= 1 && threshold >= 1
        && Chronological(calls, clock)
        && records.Valid()
        && Tracks(records, calls, clock - window as real)
    {}

    constructor (window: nat, threshold: nat, ghost now: real)
      requires window >= 1 && threshold >= 1
      ensures Valid() && calls == [] && clock == now && this.window == window && this.threshold == threshold
      ensures records == EMPTY_TABLE
    {
      this.window, this.threshold := window, threshold;
      records := EMPTY_TABLE;
      calls, clock := [], now;
    }

    /** Records a connection and counts those in the window, this one included. */
    method Record(ip: IP, now: real) returns (n: nat)
      requires Valid() && clock <= now
      modifies this
      ensures Valid() && calls == old(calls) + [Call(ip, now)] && clock == now
      ensures n == CountSince(TimesOf(calls, ip), now - window as real)
      ensures records.logs.Keys == old(records).logs.Keys + {ip}
    {
      hide *;
      Unfold();
      TrimHas(records.Put(ip, records.Get(ip) + [now]), ip, now - window as real);
      PutKeys(records, ip, records.Get(ip) + [now]);
      RecordTracks(records, calls, clock, window as real, Call(ip, now));
      records.PutValid(ip, records.Get(ip) + [now]);
      records := records.Put(ip, records.Get(ip) + [now]);
      Cleanup(ip, now);
      calls, clock := calls + [Call(ip, now)], now;
      Unfold();
      n := |records.Get(ip)|;
    }

    /** Counts the window over the whole history. Looking up a deleted log puts an empty one back,
        so a query never removes an IP from the dictionary. */
    method GetCount(ip: IP, now: real) returns (n: nat)
      requires Valid() && clock <= now
      modifies this
      ensures Valid() && calls == old(calls) && clock == now
      ensures n == CountSince(TimesOf(calls, ip), now - window as real)
      ensures records.logs.Keys == old(records).logs.Keys
    {
      hide *;
      Unfold();
      ghost var cutoff := now - window as real;
      ChronologicalLater(calls, clock, now);
      TracksLater(records, calls, clock - window as real, cutoff);
      if ip in records.logs {
        TrimTracks(records, calls, clock, clock - window as real, cutoff, ip);
        TrimHas(records, ip, cutoff);
        Cleanup(ip, now);
        if ip !in records.logs {
          PutEmptyTracks(records, calls, cutoff, ip);
          records.PutValid(ip, []);
          GetAbsent(records, ip);
          records := records.Put(ip, []);
        }
        n := |records.Get(ip)|;
      } else {
        AbsentMeansNone(records, calls, clock, clock - window as real, cutoff, ip);
        n := 0;
      }
      clock := now;
      Unfold();
    }

    method IsHighFrequency(ip: IP, now: real) returns (yes: bool)
      requires Valid() && clock <= now
      modifies this
      ensures Valid() && calls == old(calls) && clock == now
      ensures yes <==> CountSince(TimesOf(calls, ip), now - window as real) >= threshold
    {
      var n := GetCount(ip, now);
      yes := n >= threshold;
    }

    method GetFrequencyScore(ip: IP, now: real) returns (score: int)
      requires Valid() && clock <= now
      modifies this
      ensures Valid() && calls == old(calls) && clock == now
      ensures score == FrequencyScore(threshold, CountSince(TimesOf(calls, ip), now - window as real))
    {
      var count := GetCount(ip, now);
      var ratio := count as real / threshold as real;
      if count >= threshold {
        score := (50.0 + (if ratio <= 3.0 then ratio else 3.0) * 30.0).Floor;
      } else {
        score := (ratio * 40.0).Floor;
      }
    }

    /** As written: the iterator raises after the first deletion. Empty logs put back by `GetCount` count as expired. */
    method CleanupAll(now: real) returns (r: SweepResult)
      requires Valid() && clock <= now
      modifies this
      ensures Valid() && calls == old(calls) && clock == now
      ensures records == Sweep(old(records), old(records).order, now - window as real).0
      ensures r.ChangedDuringIteration? <==>
        exists ip :: ip in old(records).logs.Keys && old(records).Stale(ip, now - window as real)
      ensures r.Cleaned? ==> r.removed == 0
      ensures |records.logs| == |old(records).logs| - if r.ChangedDuringIteration? then 1 else 0
    {
      hide *;
      Unfold();
      ghost var cutoff := now - window as real;
      ChronologicalLater(calls, clock, now);
      TracksLater(records, calls, clock - window as real, cutoff);
      SweepWhole(records, cutoff);
      VisitAll(records, cutoff);
      var keys, size := records.order, |records.logs|;
      clock := now;
      r := Cleaned(0);
      var i := 0;
      while i < |keys|
        invariant 0 <= i <= |keys| && r == Cleaned(0) && |records.logs| == size && Visiting(records, keys, i)
        invariant Sweep(records, keys[i..], cutoff) == old(Sweep(records, records.order, now - window as real))
        invariant Tracks(records, calls, cutoff)
        modifies this`records
      {
        VisitNext(records, keys, i, cutoff);
        TrimTracks(records, calls, now, cutoff, cutoff, keys[i]);
        Cleanup(keys[i], now);
        if |records.logs| != size {
          r := ChangedDuringIteration;
          break;
        }
        i := i + 1;
      }
      if r.Cleaned? {
        VisitEnd(records, keys, cutoff);
      }
      Unfold();
    }

    /** Ranks the IPs with a connection in the window by their count over the full history, ties in the order of the
        dictionary; raises exactly when some log has expired. */
    method GetTopIps(n: int, now: real) returns (top: Option<Ranking>)
      requires Valid() && clock <= now
      modifies this
      ensures Valid() && calls == old(calls) && clock == now
      ensures records == Sweep(old(records), old(records).order, now - window as real).0
      ensures top.None? <==> exists ip :: ip in old(records).logs.Keys && old(records).Stale(ip, now - window as real)
      ensures |records.logs| == |old(records).logs| - if top.None? then 1 else 0
      ensures top.Some? ==> exists ranked ::
        && StableDescending(Census(old(records).order, calls, now - window as real), ranked, CountKey)
        && top.value == UpTo(ranked, n)
      ensures top.Some? ==> TopRanking(top.value, old(records).order, calls, now - window as real, n)
      ensures top.Some? ==>
        forall ip :: ip in old(records).order <==> CountSince(TimesOf(calls, ip), now - window as real) > 0
    {
      hide *;
      Unfold();
      ghost var cutoff := now - window as real;
      ChronologicalLater(calls, clock, now);
      TracksLater(records, calls, clock - window as real, cutoff);
      SweepWhole(records, cutoff);
      KeysAreRecent(records, calls, now, cutoff, cutoff);
      records.OrderDistinct();
      ghost var keys := records.order;
      clock := now;
      var raised, counts := CountAll(now);
      Unfold();
      if raised {
        top := None;
      } else {
        SortedStable(counts, CountKey);
        RankingIsTop(keys, calls, cutoff, Sorted(counts, CountKey), n);
        top := Some(UpTo(Sorted(counts, CountKey), n));
      }
    }

    /** The loop of `GetTopIps`. */
    method CountAll(now: real) returns (raised: bool, counts: Ranking)
      requires records.Valid() && Chronological(calls, now) && Tracks(records, calls, now - window as real)
      modifies this`records
      ensures records.Valid() && Tracks(records, calls, now - window as real)
      ensures (records, raised) == Sweep(old(records), old(records).order, now - window as real)
      ensures !raised ==> counts == Census(old(records).order, calls, now - window as real)
    {
      hide *;
      ghost var cutoff := now - window as real;
      var keys, size := records.order, |records.logs|;
      VisitAll(records, cutoff);
      EmptyCensus(keys, calls, cutoff);
      raised, counts := false, [];
      var i := 0;
      while i < |keys|
        invariant 0 <= i <= |keys| && !raised && |records.logs| == size && Visiting(records, keys, i)
        invariant Sweep(records, keys[i..], cutoff) == old(Sweep(records, records.order, now - window as real))
        invariant counts == Census(keys[..i], calls, cutoff) && Tracks(records, calls, cutoff)
      {
        VisitNext(records, keys, i, cutoff);
        TrimTracks(records, calls, now, cutoff, cutoff, keys[i]);
        CensusStep(keys, i, calls, cutoff);
        Cleanup(keys[i], now);
        if keys[i] in records.logs {
          counts := counts + [(keys[i], |records.Get(keys[i])|)];
        }
        if |records.logs| != size {
          raised := true;
          break;
        }
        i := i + 1;
      }
      if !raised {
        VisitEnd(records, keys, cutoff);
        VisitDone(records, keys);
        WholeCensus(keys, calls, cutoff);
      }
    }

    /** Any run of questions, interleaved with sweeps and rankings, is answered from the full history. What a
        ranking itself reports is stated by `GetTopIps`. */
    method Replay(ops: seq<Op<Question>>) returns (out: seq<(IP, Answer)>)
      requires Valid() && FromNowOn(clock, ops)
      modifies this
      ensures Valid()
      ensures out == Answers(Promised(window as real, threshold), old(calls), ops)
    {
      hide *;
      Unfold();
      ghost var p := Promised(window as real, threshold);
      out := [];
      var i := 0;
      StartReplay(p, calls, ops);
      while i < |ops|
        invariant 0 <= i <= |ops| && Valid() && FromNowOn(clock, ops[i..])
        invariant out + Answers(p, calls, ops[i..]) == Answers(p, old(calls), ops)
      {
        ReplayStep(p, calls, ops, i, clock);
        var reply := Perform(ops[i]);
        out := out + reply;
        i := i + 1;
      }
      EndReplay(p, calls, ops);
    }

    method Perform(op: Op<Question>) returns (reply: seq<(IP, Answer)>)
      requires Valid() && clock <= op.at
      modifies this
      ensures Valid() && clock == op.at
      ensures threshold >= 1
      ensures var p := Promised(window as real, threshold);
        reply == Reply(p, old(calls), op) && calls == CallsAfter(p, old(calls), op)
    {
      hide Valid, TimesOf, CountSince, FrequencyScore, Chronological, Tracks;
      Unfold();
      match op {
        case On(Record, ip, at) =>
          TimesOfAppend(calls, Call(ip, at), ip);
          var n := Record(ip, at);
          reply := [(ip, Count(n))];
        case On(GetCount, ip, at) =>
          var n := GetCount(ip, at);
          reply := [(ip, Count(n))];
        case On(HighFrequency, ip, at) =>
          var yes := IsHighFrequency(ip, at);
          reply := [(ip, High(yes))];
        case On(Score, ip, at) =>
          var score := GetFrequencyScore(ip, at);
          reply := [(ip, Points(score))];
        case Housekeeping(first, at) =>
          Maintain(first, at);
          reply := [];
      }
    }

    /** One of the two sweeps. */
    method Maintain(first: bool, now: real)
      requires Valid() && clock <= now
      modifies this
      ensures Valid() && calls == old(calls) && clock == now
    {
      hide *;
      if first {
        var _ := CleanupAll(now);
      } else {
        var _ := GetTopIps(10, now);
      }
    }

    method Cleanup(ip: IP, now: real)
      requires records.Valid()
      modifies this`records
      ensures records.Valid()
      ensures records == old(records).Trim(ip, now - window as real)
    {
      var cutoff := now - window as real;
      records.TrimValid(ip, cutoff);
      var log := records.Get(ip);
      while log != [] && log[0] < cutoff
        invariant DropBefore(log, cutoff) == DropBefore(records.Get(ip), cutoff)
        decreases |log|
      {
        log := log[1..];
      }
      records := if log == [] then records.Delete(ip) else records.Put(ip, log);
    }
  }

  ghost predicate SameSettings(a: FrequencyTracker, b: FrequencyTracker) {
    a.window == b.window && a.threshold == b.threshold
  }

  lemma Settings(a: FrequencyTracker, b: FrequencyTracker)
    requires SameSettings(a, b)
    ensures a.window == b.window && a.threshold == b.threshold
  {}

  /** Non-interference: what one IP is told in an interleaved run with sweeps is what a tracker asked about
      nothing else would tell it, given the same calls of that IP so far. */
  method NonInterference(all: FrequencyTracker, own: FrequencyTracker, ip: IP, ops: seq<Op<Question>>)
    returns (interleaved: seq<(IP, Answer)>, alone: seq<(IP, Answer)>)
    requires all != own && all.Valid() && own.Valid() && SameSettings(all, own)
    requires TimesOf(all.calls, ip) == TimesOf(own.calls, ip)
    requires FromNowOn(all.clock, ops) && FromNowOn(own.clock, ops)
    modifies all, own
    ensures AnswersAbout(interleaved, ip) == alone
  {
    hide *;
    all.Unfold();
    Settings(all, own);
    ghost var p := Promised(all.window as real, all.threshold);
    RestrictFromNowOn(own.clock, ops, ip);
    Histories.NonInterference(p, all.calls, own.calls, ops, ip);
    interleaved := all.Replay(ops);
    alone := own.Replay(Restrict(ops, ip));
  }

  /** Leaving all sweeps out of a run changes no answer, whichever IP it is about. */
  method SweepsUnobservable(swept: FrequencyTracker, plain: FrequencyTracker, ops: seq<Op<Question>>)
    returns (withSweeps: seq<(IP, Answer)>, without: seq<(IP, Answer)>)
    requires swept != plain && swept.Valid() && plain.Valid() && SameSettings(swept, plain)
    requires swept.calls == plain.calls && FromNowOn(swept.clock, ops) && FromNowOn(plain.clock, ops)
    modifies swept, plain
    ensures withSweeps == without
  {
    hide *;
    swept.Unfold();
    Settings(swept, plain);
    ghost var p := Promised(swept.window as real, swept.threshold);
    WithoutSweepsFromNowOn(plain.clock, ops);
    Histories.SweepsUnobservable(p, swept.calls, ops);
    withSweeps := swept.Replay(ops);
    without := plain.Replay(WithoutSweeps(ops));
  }

  /** The sweep and the ranking as written raise in ordinary use: after one connection, exactly when that connection
      has left the window. */
  method FirstSweep(window: nat, threshold: nat, ip: IP, at: real, later: real, n: int)
    returns (r: SweepResult, top: Option<Ranking>)
    requires window >= 1 && threshold >= 1 && at <= later
    ensures r.ChangedDuringIteration? <==> at < later - window as real
    ensures top.None? <==> at < later - window as real
  {
    hide *;
    var swept := RecordOnce(window, threshold, ip, at);
    OnlyExpired(swept.records, ip, at, at - window as real, later - window as real);
    r := swept.CleanupAll(later);
    var ranked := RecordOnce(window, threshold, ip, at);
    OnlyExpired(ranked.records, ip, at, at - window as real, later - window as real);
    top := ranked.GetTopIps(n, later);
  }

  method RecordOnce(window: nat, threshold: nat, ip: IP, at: real) returns (tracker: FrequencyTracker)
    requires window >= 1 && threshold >= 1
    ensures fresh(tracker) && tracker.Valid() && tracker.window == window && tracker.clock == at
    ensures Tracks(tracker.records, [Call(ip, at)], at - window as real) && tracker.records.logs.Keys == {ip}
  {
    hide *;
    tracker := new FrequencyTracker(window, threshold, at);
    NoKeys();
    var _ := tracker.Record(ip, at);
    tracker.Unfold();
    assert tracker.calls == [Call(ip, at)];
  }

  lemma NoKeys()
    ensures EMPTY_TABLE.logs.Keys == {}
  {}

  lemma OnlyExpired(t: Table, ip: IP, at: real, before: real, cutoff: real)
    requires Tracks(t, [Call(ip, at)], before) && before <= at && t.logs.Keys == {ip}
    ensures (exists k :: k in t.logs.Keys && t.Stale(k, cutoff)) <==> at < cutoff
  {
    LoneLog(t, ip, at, before, cutoff);
    assert ip in t.logs.Keys;
  }
}
