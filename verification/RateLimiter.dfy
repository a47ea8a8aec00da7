/** The per-IP token bucket and access log of `router/rate_limiter.py`. */
module RateLimiter {
  import opened Wrappers
  import opened SlidingLog
  import opened TokenBucket
  import opened Histories
  import opened LogTable

  /** The bucket kept for an IP with call times `ts`, or its absence, stands for the exact bucket. */
  ghost predicate BucketTracks(
    c: real, r: real, w: real, level: Option<real>, last: Option<real>, ts: seq<real>, clock: real
  ) {
    && (level.Some? <==> last.Some?)
    && (if level.Some?
        then ts != [] && last.value == ts[|ts| - 1] && level.value == After(c, r, ts, |ts| - 1)
        else ts != [] ==> ts[|ts| - 1] < clock - w)
  }

  /** Every bucket, present or absent, stands for the exact bucket of its IP. */
  ghost predicate AllBuckets(
    c: real, r: real, w: real, buckets: map<IP, real>, lastRefill: map<IP, real>, calls: seq<Call>, clock: real
  ) {
    forall ip :: BucketTracks(c, r, w, Lookup(buckets, ip), Lookup(lastRefill, ip), TimesOf(calls, ip), clock)
  }

  lemma BucketAt(
    c: real, r: real, w: real, buckets: map<IP, real>, lastRefill: map<IP, real>, calls: seq<Call>, clock: real,
    ip: IP
  )
    requires AllBuckets(c, r, w, buckets, lastRefill, calls, clock)
    ensures BucketTracks(c, r, w, Lookup(buckets, ip), Lookup(lastRefill, ip), TimesOf(calls, ip), clock)
  {}

  /** One lazy refill, `elapsed` after the previous one. */
  function Refilled(c: real, r: real, level: real, elapsed: real): real { Min(c, level + Tokens(r, elapsed)) }

  /** Refilling a tracked bucket gives the exact level, even when the bucket had been forgotten. */
  lemma RefillIsLevel(
    c: real, r: real, w: real, buckets: map<IP, real>, lastRefill: map<IP, real>, ip: IP, ts: seq<real>, clock: real,
    now: real
  )
    requires c >= 0.0 && r >= 0.0 && Tokens(r, w) == c && clock <= now && Ordered(ts + [now])
    requires BucketTracks(c, r, w, Lookup(buckets, ip), Lookup(lastRefill, ip), ts, clock)
    ensures Level(c, r, ts + [now], |ts|) == Refilled(c, r, GetOr(buckets, ip, c), now - GetOr(lastRefill, ip, now))
  {
    hide Tokens;
    TokensZero(r);
    if ts == [] {
      assert Refilled(c, r, c, 0.0) == c;
    } else {
      var n := |ts| - 1;
      LevelOfPrefix(c, r, ts, now, n);
      assert After(c, r, ts + [now], n) == After(c, r, ts, n);
      if ip !in buckets {
        IdleBucketIsFull(c, r, w, ts + [now], |ts|);
        assert Refilled(c, r, c, 0.0) == c;
      }
    }
  }

  datatype Question = Allow | HighFrequency | AccessCount
  datatype Answer = Allowed(ok: bool) | High(yes: bool) | Count(n: nat)

  /** The reference answers: admission by the exact bucket, counts over the full history. */
  function Promised(c: real, r: real, w: real, threshold: int): Promise<Question, Answer> {
    Promise(
      (q: Question) => q.Allow?,
      (q: Question, ts: seq<real>, now: real) =>
        match q
        case Allow => Allowed(Admits(c, r, ts + [now], |ts|))
        case HighFrequency => High(CountSince(ts, now - w) >= threshold)
        case AccessCount => Count(CountSince(ts, now - w)))
  }

  /** The requests of an IP in a run, not older than `cutoff`. */
  function Requests(ops: seq<Op<Question>>, ip: IP, cutoff: real): nat {
    if ops == [] then 0
    else
      var here := ops[0].On? && ops[0].kind == Allow && ops[0].ip == ip && ops[0].at >= cutoff;
      (if here then 1 else 0) + Requests(ops[1..], ip, cutoff)
  }

  lemma {:induction false} RequestsAreRecent(
    c: real, r: real, w: real, threshold: int, ops: seq<Op<Question>>, ip: IP, cutoff: real
  )
    ensures RecentIn(Promised(c, r, w, threshold), ops, ip, cutoff) == Requests(ops, ip, cutoff)
  {
    if ops != [] {
      RequestsAreRecent(c, r, w, threshold, ops[1..], ip, cutoff);
    }
  }

  /** What a new limiter answers in a run, straight from the run: counts and flags go by the requests of the same IP
      among the operations before, refused ones included. */
  lemma CountsInRun(c: real, r: real, w: real, threshold: int, ops: seq<Op<Question>>, k: nat)
    requires k < |ops| && ops[k].On?
    ensures var answers, n := Answers(Promised(c, r, w, threshold), [], ops), Asked(ops[..k]);
      var m := Requests(ops[..k], ops[k].ip, ops[k].at - w);
      && n < |answers| && answers[n].0 == ops[k].ip
      && (ops[k].kind == AccessCount ==> answers[n].1 == Count(m))
      && (ops[k].kind == HighFrequency ==> answers[n].1 == High(m >= threshold))
  {
    hide Asked, Answers, CallsAfterAll, Requests, RecentIn, TimesOf, Admits;
    var p := Promised(c, r, w, threshold);
    AnswerAt(p, [], ops, k);
    CountOfRun(p, [], ops[..k], ops[k].ip, ops[k].at - w);
    RequestsAreRecent(c, r, w, threshold, ops[..k], ops[k].ip, ops[k].at - w);
    NoCalls(ops[k].ip);
  }


  ghost predicate NoEmptyLog(t: Table) { forall ip :: ip in t.logs ==> t.logs[ip] != [] }

  lemma BucketsLater(
    c: real, r: real, w: real, buckets: map<IP, real>, lastRefill: map<IP, real>, calls: seq<Call>, clock: real,
    now: real
  )
    requires clock <= now && AllBuckets(c, r, w, buckets, lastRefill, calls, clock)
    ensures AllBuckets(c, r, w, buckets, lastRefill, calls, now)
  {
    forall ip ensures BucketTracks(c, r, w, Lookup(buckets, ip), Lookup(lastRefill, ip), TimesOf(calls, ip), now) {
      assert BucketTracks(c, r, w, Lookup(buckets, ip), Lookup(lastRefill, ip), TimesOf(calls, ip), clock);
    }
  }

  /** Spending a token, or not, for a call at `now` leaves the exact bucket of the longer history. */
  lemma AllowBuckets(
    c: real, r: real, w: real, buckets: map<IP, real>, lastRefill: map<IP, real>, calls: seq<Call>, clock: real,
    call: Call
  )
    requires clock <= call.at && AllBuckets(c, r, w, buckets, lastRefill, calls, clock)
    ensures var ts := TimesOf(calls, call.ip) + [call.at];
      AllBuckets(c, r, w, buckets[call.ip := After(c, r, ts, |ts| - 1)], lastRefill[call.ip := call.at],
        calls + [call], call.at)
  {
    var ts := TimesOf(calls, call.ip) + [call.at];
    var buckets', lastRefill' := buckets[call.ip := After(c, r, ts, |ts| - 1)], lastRefill[call.ip := call.at];
    BucketsLater(c, r, w, buckets, lastRefill, calls, clock, call.at);
    forall ip ensures BucketTracks(c, r, w, Lookup(buckets', ip), Lookup(lastRefill', ip),
      TimesOf(calls + [call], ip), call.at) {
      TimesOfAppend(calls, call, ip);
      assert BucketTracks(c, r, w, Lookup(buckets, ip), Lookup(lastRefill, ip), TimesOf(calls, ip), call.at);
      if ip != call.ip {
        assert TimesOf(calls + [call], ip) == TimesOf(calls, ip);
      }
    }
  }

  lemma PutNotEmpty(t: Table, ip: IP, log: Log)
    requires NoEmptyLog(t) && log != []
    ensures NoEmptyLog(t.Put(ip, log))
  {}

  lemma TrimNotEmpty(t: Table, ip: IP, cutoff: real)
    requires NoEmptyLog(t)
    ensures NoEmptyLog(t.Trim(ip, cutoff))
  {}

  /** Logging a call and popping what expired keeps the log exact. */
  lemma RecordTracks(t: Table, calls: seq<Call>, clock: real, w: real, call: Call)
    requires w > 0.0 && Chronological(calls, clock) && clock <= call.at && Tracks(t, calls, clock - w) && NoEmptyLog(t)
    ensures var t' := t.Put(call.ip, t.Get(call.ip) + [call.at]).Trim(call.ip, call.at - w);
      Tracks(t', calls + [call], call.at - w) && NoEmptyLog(t')
    ensures Chronological(calls + [call], call.at)
  {
    hide *;
    var logged := t.Put(call.ip, t.Get(call.ip) + [call.at]);
    PutNotEmpty(t, call.ip, t.Get(call.ip) + [call.at]);
    ChronologicalAppend(calls, clock, call);
    TrimNotEmpty(logged, call.ip, call.at - w);
    AppendTracks(t, calls, clock - w, call);
    TrimTracks(logged, calls + [call], call.at, clock - w, call.at - w, call.ip);
  }

  /** Counting an IP after popping what expired counts its whole history. */
  lemma CountTracks(t: Table, calls: seq<Call>, clock: real, w: real, ip: IP, now: real)
    requires Chronological(calls, clock) && clock <= now && Tracks(t, calls, clock - w) && NoEmptyLog(t)
    ensures Chronological(calls, now)
    ensures var t' := t.Trim(ip, now - w);
      Tracks(t', calls, now - w) && NoEmptyLog(t') && |t'.Get(ip)| == CountSince(TimesOf(calls, ip), now - w)
  {
    hide *;
    ChronologicalLater(calls, clock, now);
    TrimNotEmpty(t, ip, now - w);
    TrimTracks(t, calls, clock, clock - w, now - w, ip);
  }

  /** Forgetting the bucket of an IP whose log has expired leaves every bucket exact. */
  lemma EvictBuckets(c: real, r: real, w: real, buckets: map<IP, real>, lastRefill: map<IP, real>, gone: set<IP>,
                     t: Table, calls: seq<Call>, clock: real, now: real)
    requires clock <= now && AllBuckets(c, r, w, buckets, lastRefill, calls, clock) && Tracks(t, calls, clock - w)
    requires forall ip :: ip in gone ==> t.Stale(ip, now - w)
    ensures AllBuckets(c, r, w, buckets - gone, lastRefill - gone, calls, now)
  {
    forall ip ensures BucketTracks(c, r, w, Lookup(buckets - gone, ip), Lookup(lastRefill - gone, ip),
      TimesOf(calls, ip), now) {
      var ts := TimesOf(calls, ip);
      assert BucketTracks(c, r, w, Lookup(buckets, ip), Lookup(lastRefill, ip), ts, clock);
      assert Slides(t.Get(ip), ts, clock - w);
      if ip in gone {
        ExpiredIsOld(t.Get(ip), now - w);
        if ts != [] {
          SlidesLast(t.Get(ip), ts, clock - w);
        }
      }
    }
  }

  class RateLimiter {
    const window: nat
    const threshold: int
    const capacity: nat

    var buckets: map<IP, real>
    var violations: Table
    var lastRefill: map<IP, real>

    /** Every admission request ever made, admitted or not, and the last time the clock was read. */
    ghost var calls: seq<Call>
    ghost var clock: real

    ghost predicate Valid()
      reads this
    {
      && window >= 1
      && Chronological(calls, clock)
      && violations.Valid()
      && Tracks(violations, calls, clock - window as real)
      && NoEmptyLog(violations)
      && AllBuckets(capacity as real, Rate(), window as real, buckets, lastRefill, calls, clock)
    }

    /** The invariant, spelled out for proofs that hide everything. */
    lemma Unfold()
      ensures Valid() <==>
        && window >= 1
        && Chronological(calls, clock)
        && violations.Valid()
        && Tracks(violations, calls, clock - window as real)
        && NoEmptyLog(violations)
        && AllBuckets(capacity as real, Rate(), window as real, buckets, lastRefill, calls, clock)
    {}

    /** Tokens per second. */
    function Rate(): (r: real)
      requires window >= 1
      ensures r >= 0.0 && Tokens(r, window as real) == capacity as real
    {
      capacity as real / window as real
    }

    constructor (window: nat, threshold: int, capacity: nat, ghost now: real)
      requires window >= 1
      ensures Valid() && calls == [] && clock == now
      ensures this.window == window && this.threshold == threshold && this.capacity == capacity
    {
      this.window, this.threshold, this.capacity := window, threshold, capacity;
      buckets, violations, lastRefill := map[], EMPTY_TABLE, map[];
      calls, clock := [], now;
    }

    /** Admits a request exactly when the closed form of the bucket does; refused requests are logged too. */
    method Allow(ip: IP, now: real) returns (ok: bool)
      requires Valid() && clock <= now
      modifies this
      ensures Valid() && calls == old(calls) + [Call(ip, now)] && clock == now
      ensures ok <==> var ts := TimesOf(old(calls), ip); Admits(capacity as real, Rate(), ts + [now], |ts|)
      ensures ok <==> var n, ts := |TimesOf(old(calls), ip)|, TimesOf(old(calls), ip) + [now];
        forall i :: 0 <= i <= n ==>
          Admitted(capacity as real, Rate(), ts, i, n) as real + 1.0 <= capacity as real + (now - ts[i]) * Rate()
    {
      hide *;
      Unfold();
      AdmissionCriterion(capacity as real, Rate(), TimesOf(calls, ip) + [now], |TimesOf(calls, ip)|);
      ghost var ts := TimesOf(calls, ip) + [now];
      ghost var spent := After(capacity as real, Rate(), ts, |ts| - 1);
      RefillIsExact(ip, now);
      AllowIsExact(ip, now);
      Refill(ip, now);
      AfterLevel(capacity as real, Rate(), ts, |ts| - 1);
      assert buckets[ip] == Level(capacity as real, Rate(), ts, |ts| - 1);
      if buckets[ip] >= 1.0 {
        buckets := buckets[ip := buckets[ip] - 1.0];
        RecordAccess(ip, now);
        ok := true;
      } else {
        RecordAccess(ip, now);
        ok := false;
      }
      assert buckets == old(buckets)[ip := spent];
      calls, clock := calls + [Call(ip, now)], now;
      Unfold();
    }

    /** The lazily refilled level is the exact one. */
    lemma RefillIsExact(ip: IP, now: real)
      requires Valid() && clock <= now
      ensures var c, ts := capacity as real, TimesOf(calls, ip) + [now];
        Level(c, Rate(), ts, |ts| - 1) == Refilled(c, Rate(), GetOr(buckets, ip, c), now - GetOr(lastRefill, ip, now))
    {
      hide *;
      Unfold();
      var c, w, ts := capacity as real, window as real, TimesOf(calls, ip);
      TimesOrdered(calls, clock, ip);
      BucketAt(c, Rate(), w, buckets, lastRefill, calls, clock, ip);
      OrderedAppend(ts, now);
      RefillIsLevel(c, Rate(), w, buckets, lastRefill, ip, ts, clock, now);
    }

    /** The state that `Allow` is about to reach stands for the history with the new call. */
    lemma AllowIsExact(ip: IP, now: real)
      requires Valid() && clock <= now
      ensures var c, w, ts := capacity as real, window as real, TimesOf(calls, ip) + [now];
        && AllBuckets(c, Rate(), w, buckets[ip := After(c, Rate(), ts, |ts| - 1)], lastRefill[ip := now],
          calls + [Call(ip, now)], now)
        && (var t := violations.Put(ip, violations.Get(ip) + [now]).Trim(ip, now - w);
            Tracks(t, calls + [Call(ip, now)], now - w) && NoEmptyLog(t))
        && Chronological(calls + [Call(ip, now)], now)
    {
      hide *;
      Unfold();
      RecordTracks(violations, calls, clock, window as real, Call(ip, now));
      AllowBuckets(capacity as real, Rate(), window as real, buckets, lastRefill, calls, clock, Call(ip, now));
    }

    method IsHighFrequency(ip: IP, now: real) returns (yes: bool)
      requires Valid() && clock <= now
      modifies this
      ensures Valid() && calls == old(calls) && clock == now
      ensures yes <==> CountSince(TimesOf(calls, ip), now - window as real) >= threshold
    {
      hide *;
      Unfold();
      CountTracks(violations, calls, clock, window as real, ip, now);
      BucketsLater(capacity as real, Rate(), window as real, buckets, lastRefill, calls, clock, now);
      CleanupViolations(ip, now);
      clock := now;
      Unfold();
      yes := |violations.Get(ip)| >= threshold;
    }

    /** Counts the requests inside the window over the whole history, refused ones included. */
    method GetAccessCount(ip: IP, now: real) returns (n: nat)
      requires Valid() && clock <= now
      modifies this
      ensures Valid() && calls == old(calls) && clock == now
      ensures n == CountSince(TimesOf(calls, ip), now - window as real)
    {
      hide *;
      Unfold();
      CountTracks(violations, calls, clock, window as real, ip, now);
      BucketsLater(capacity as real, Rate(), window as real, buckets, lastRefill, calls, clock, now);
      CleanupViolations(ip, now);
      clock := now;
      Unfold();
      n := |violations.Get(ip)|;
    }

    /** As written: the dictionary iterator raises after the first deletion, so a call either removes
        nothing or raises having dropped one expired log. No bucket is ever evicted. */
    method CleanupAll(now: real) returns (r: SweepResult)
      requires Valid() && clock <= now
      modifies this
      ensures Valid() && calls == old(calls) && clock == now
      ensures buckets == old(buckets) && lastRefill == old(lastRefill)
      ensures violations == Sweep(old(violations), old(violations).order, now - window as real).0
      ensures r.ChangedDuringIteration? <==>
        exists ip :: ip in old(violations).logs.Keys && old(violations).Stale(ip, now - window as real)
      ensures r.Cleaned? ==> r.removed == 0
      ensures |violations.logs| == |old(violations).logs| - if r.ChangedDuringIteration? then 1 else 0
    {
      hide *;
      Unfold();
      ghost var cutoff := now - window as real;
      ChronologicalLater(calls, clock, now);
      TracksLater(violations, calls, clock - window as real, cutoff);
      BucketsLater(capacity as real, Rate(), window as real, buckets, lastRefill, calls, clock, now);
      SweepWhole(violations, cutoff);
      VisitAll(violations, cutoff);
      var keys, size := violations.order, |violations.logs|;
      clock := now;
      r := Cleaned(0);
      var i := 0;
      while i < |keys|
        invariant 0 <= i <= |keys| && r == Cleaned(0) && |violations.logs| == size && Visiting(violations, keys, i)
        invariant Sweep(violations, keys[i..], cutoff) == old(Sweep(violations, violations.order, now - window as real))
        invariant Tracks(violations, calls, cutoff) && NoEmptyLog(violations)
        modifies this`violations
      {
        VisitNext(violations, keys, i, cutoff);
        TrimTracks(violations, calls, now, cutoff, cutoff, keys[i]);
        TrimNotEmpty(violations, keys[i], cutoff);
        CleanupViolations(keys[i], now);
        if |violations.logs| != size {
          r := ChangedDuringIteration;
          break;
        }
        i := i + 1;
      }
      if r.Cleaned? {
        VisitEnd(violations, keys, cutoff);
      }
      Unfold();
    }

    /** As intended: the sweep runs over a snapshot of the keys, drops every expired log, and evicts the
        bucket and refill time of its IP. No later answer depends on it: the history is untouched. */
    method CleanupSnapshot(now: real) returns (removed: nat)
      requires Valid() && clock <= now
      modifies this
      ensures Valid() && calls == old(calls) && clock == now
      ensures var gone := old(violations).logs.Keys - violations.logs.Keys;
        && (forall ip :: ip in gone <==>
          ip in old(violations).logs.Keys && old(violations).Stale(ip, now - window as real))
        && buckets == old(buckets) - gone && lastRefill == old(lastRefill) - gone
        && removed == |gone|
    {
      hide *;
      Unfold();
      ghost var cutoff := now - window as real;
      ghost var gone := violations.logs.Keys - TrimAll(violations, violations.order, cutoff).logs.Keys;
      ChronologicalLater(calls, clock, now);
      TrimAllWhole(violations, cutoff);
      EvictBuckets(capacity as real, Rate(), window as real, buckets, lastRefill, gone, violations, calls, clock, now);
      TracksLater(violations, calls, clock - window as real, cutoff);
      var stale := TrimViolations(now);
      removed := |stale|;
      buckets, lastRefill := buckets - stale, lastRefill - stale;
      clock := now;
      Unfold();
    }

    /** The loop of `CleanupSnapshot`, which collects the IPs whose log it dropped. */
    method TrimViolations(now: real) returns (stale: set<IP>)
      requires violations.Valid() && NoEmptyLog(violations)
      requires Chronological(calls, now) && Tracks(violations, calls, now - window as real)
      modifies this`violations
      ensures violations.Valid() && NoEmptyLog(violations) && Tracks(violations, calls, now - window as real)
      ensures violations == TrimAll(old(violations), old(violations).order, now - window as real)
      ensures stale == old(violations).logs.Keys - violations.logs.Keys
    {
      hide *;
      var keys := violations.order;
      ghost var cutoff, all := now - window as real, violations.logs.Keys;
      VisitAll(violations, cutoff);
      stale := {};
      var i := 0;
      while i < |keys|
        invariant 0 <= i <= |keys| && Visiting(violations, keys, i)
        invariant TrimAll(violations, keys[i..], cutoff) == old(TrimAll(violations, violations.order, cutoff))
        invariant stale == all - violations.logs.Keys && violations.logs.Keys <= all
        invariant Tracks(violations, calls, cutoff) && NoEmptyLog(violations)
      {
        VisitNext(violations, keys, i, cutoff);
        GoneNext(all, violations.logs.Keys, keys[i]);
        TrimTracks(violations, calls, now, cutoff, cutoff, keys[i]);
        TrimNotEmpty(violations, keys[i], cutoff);
        CleanupViolations(keys[i], now);
        if keys[i] !in violations.logs {
          stale := stale + {keys[i]};
        }
        i := i + 1;
      }
      VisitEnd(violations, keys, cutoff);
      VisitDone(violations, keys);
    }

    /** Any run of questions, interleaved with sweeps of either kind, is answered from the full history. */
    method Replay(ops: seq<Op<Question>>) returns (out: seq<(IP, Answer)>)
      requires Valid() && FromNowOn(clock, ops)
      modifies this
      ensures Valid()
      ensures out == Answers(Promised(capacity as real, Rate(), window as real, threshold), old(calls), ops)
    {
      hide *;
      Unfold();
      ghost var p := Promised(capacity as real, Rate(), window as real, threshold);
      out := [];
      var i := 0;
      StartReplay(p, calls, ops);
      while i < |ops|
        invariant 0 <= i <= |ops| && Valid() && FromNowOn(clock, ops[i..])
        invariant out + Answers(p, calls, ops[i..]) == Answers(p, old(calls), ops)
      {
        ReplayStep(p, calls, ops, i, clock);
        var reply := Perform(ops[i]);
        out := out + reply;
        i := i + 1;
      }
      EndReplay(p, calls, ops);
    }

    method Perform(op: Op<Question>) returns (reply: seq<(IP, Answer)>)
      requires Valid() && clock <= op.at
      modifies this
      ensures Valid() && clock == op.at
      ensures var p := Promised(capacity as real, Rate(), window as real, threshold);
        reply == Reply(p, old(calls), op) && calls == CallsAfter(p, old(calls), op)
    {
      hide Valid;
      match op {
        case On(Allow, ip, at) =>
          var ok := Allow(ip, at);
          reply := [(ip, Allowed(ok))];
        case On(HighFrequency, ip, at) =>
          var yes := IsHighFrequency(ip, at);
          reply := [(ip, High(yes))];
        case On(AccessCount, ip, at) =>
          var n := GetAccessCount(ip, at);
          reply := [(ip, Count(n))];
        case Housekeeping(first, at) =>
          if first {
            var _ := CleanupAll(at);
          } else {
            var _ := CleanupSnapshot(at);
          }
          reply := [];
      }
    }

    method Refill(ip: IP, now: real)
      requires window >= 1
      modifies this`buckets, this`lastRefill
      ensures lastRefill == old(lastRefill)[ip := now]
      ensures buckets == old(buckets)[ip := Refilled(capacity as real, Rate(),
        GetOr(old(buckets), ip, capacity as real), now - GetOr(old(lastRefill), ip, now))]
    {
      var last := GetOr(lastRefill, ip, now);
      var elapsed := now - last;
      var level := GetOr(buckets, ip, capacity as real);
      assert Refilled(capacity as real, Rate(), level, elapsed) == Min(capacity as real, level + elapsed * Rate());
      buckets := buckets[ip := Min(capacity as real, level + elapsed * Rate())];
      lastRefill := lastRefill[ip := now];
    }

    method RecordAccess(ip: IP, now: real)
      requires violations.Valid()
      modifies this`violations
      ensures violations.Valid()
      ensures violations == old(violations).Put(ip, old(violations).Get(ip) + [now]).Trim(ip, now - window as real)
    {
      violations.PutValid(ip, violations.Get(ip) + [now]);
      violations := violations.Put(ip, violations.Get(ip) + [now]);
      CleanupViolations(ip, now);
    }

    method CleanupViolations(ip: IP, now: real)
      requires violations.Valid()
      modifies this`violations
      ensures violations.Valid()
      ensures violations == old(violations).Trim(ip, now - window as real)
    {
      var cutoff := now - window as real;
      violations.TrimValid(ip, cutoff);
      if ip !in violations.logs {
        violations.DeleteAbsent(ip);
        return;
      }
      var records := violations.logs[ip];
      while records != [] && records[0] < cutoff
        invariant DropBefore(records, cutoff) == DropBefore(violations.logs[ip], cutoff)
        decreases |records|
      {
        records := records[1..];
      }
      violations := if records == [] then violations.Delete(ip) else violations.Put(ip, records);
    }
  }

  /** Two limiters with the same history, of which only one evicts, give the same answers ever after. */
  method EvictionUnobservable(
    a: RateLimiter, b: RateLimiter, now: real, ops: seq<Op<Question>>
  ) returns (evicted: seq<(IP, Answer)>, untouched: seq<(IP, Answer)>)
    requires a != b && a.Valid() && b.Valid() && a.calls == b.calls && a.clock <= now && b.clock <= now
    requires a.window == b.window && a.threshold == b.threshold && a.capacity == b.capacity
    requires FromNowOn(now, ops)
    modifies a, b
    ensures evicted == untouched
  {
    FromEarlier(b.clock, now, ops);
    var _ := a.CleanupSnapshot(now);
    evicted := a.Replay(ops);
    untouched := b.Replay(ops);
  }

  ghost predicate SameSettings(a: RateLimiter, b: RateLimiter) {
    a.window == b.window && a.threshold == b.threshold && a.capacity == b.capacity
  }

  lemma Settings(a: RateLimiter, b: RateLimiter)
    requires SameSettings(a, b) && a.window >= 1
    ensures a.window == b.window && a.threshold == b.threshold && a.capacity == b.capacity && a.Rate() == b.Rate()
  {}

  /** Non-interference: what one IP is told in an interleaved run with sweeps is what a limiter asked about
      nothing else would tell it, given the same calls of that IP so far. */
  method NonInterference(all: RateLimiter, own: RateLimiter, ip: IP, ops: seq<Op<Question>>)
    returns (interleaved: seq<(IP, Answer)>, alone: seq<(IP, Answer)>)
    requires all != own && all.Valid() && own.Valid() && SameSettings(all, own)
    requires TimesOf(all.calls, ip) == TimesOf(own.calls, ip)
    requires FromNowOn(all.clock, ops) && FromNowOn(own.clock, ops)
    modifies all, own
    ensures AnswersAbout(interleaved, ip) == alone
  {
    hide *;
    all.Unfold();
    Settings(all, own);
    ghost var p := Promised(all.capacity as real, all.Rate(), all.window as real, all.threshold);
    RestrictFromNowOn(own.clock, ops, ip);
    Histories.NonInterference(p, all.calls, own.calls, ops, ip);
    interleaved := all.Replay(ops);
    alone := own.Replay(Restrict(ops, ip));
  }

  /** Leaving all sweeps out of a run changes no answer, whichever IP it is about. */
  method SweepsUnobservable(swept: RateLimiter, plain: RateLimiter, ops: seq<Op<Question>>)
    returns (withSweeps: seq<(IP, Answer)>, without: seq<(IP, Answer)>)
    requires swept != plain && swept.Valid() && plain.Valid() && SameSettings(swept, plain)
    requires swept.calls == plain.calls && FromNowOn(swept.clock, ops) && FromNowOn(plain.clock, ops)
    modifies swept, plain
    ensures withSweeps == without
  {
    hide *;
    swept.Unfold();
    Settings(swept, plain);
    ghost var p := Promised(swept.capacity as real, swept.Rate(), swept.window as real, swept.threshold);
    WithoutSweepsFromNowOn(plain.clock, ops);
    Histories.SweepsUnobservable(p, swept.calls, ops);
    withSweeps := swept.Replay(ops);
    without := plain.Replay(WithoutSweeps(ops));
  }

  /** The sweep as written raises in ordinary use: after one request, exactly when that request has left the window. */
  method FirstSweep(window: nat, threshold: int, capacity: nat, ip: IP, at: real, later: real) returns (r: SweepResult)
    requires window >= 1 && at <= later
    ensures r.ChangedDuringIteration? <==> at < later - window as real
  {
    hide *;
    var limiter := new RateLimiter(window, threshold, capacity, at);
    var _ := limiter.Allow(ip, at);
    limiter.Unfold();
    assert limiter.calls == [Call(ip, at)];
    OnlyExpired(limiter.violations, ip, at, at - window as real, later - window as real);
    r := limiter.CleanupAll(later);
  }

  lemma OnlyExpired(t: Table, ip: IP, at: real, before: real, cutoff: real)
    requires Tracks(t, [Call(ip, at)], before) && before <= at && NoEmptyLog(t)
    ensures (exists k :: k in t.logs.Keys && t.Stale(k, cutoff)) <==> at < cutoff
  {
    LoneLog(t, ip, at, before, cutoff);
    forall k | k in t.logs ensures k == ip {
      assert t.Get(k) == t.logs[k];
    }
  }
}
