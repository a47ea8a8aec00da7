/** Whole runs of a tracker that answers questions about IP addresses.

    The reference answers below are computed from the full, never-expiring history of calls: no log, no
    bucket, no eviction. A tracker is correct when its replay of any run gives exactly these answers. */
module Histories {
  import opened SlidingLog

  /** A question of kind `K` about one IP, or one of the two sweeps a tracker has over all its IPs. */
  datatype Op<K> = On(kind: K, ip: IP, at: real) | Housekeeping(first: bool, at: real)

  /** What a tracker promises: which questions are recorded as calls, and the answer to each, given
      the times of the earlier calls of that IP. */
  datatype Promise<!K, !A> = Promise(records: K -> bool, answer: (K, seq<real>, real) -> A)

  /** The clock never runs backwards. */
  ghost predicate FromNowOn<K>(clock: real, ops: seq<Op<K>>)
    decreases |ops|
  {
    ops == [] || (clock <= ops[0].at && FromNowOn(ops[0].at, ops[1..]))
  }

  lemma FromEarlier<K>(before: real, clock: real, ops: seq<Op<K>>)
    requires before <= clock && FromNowOn(clock, ops)
    ensures FromNowOn(before, ops)
  {}

  function CallsAfter<K, A>(p: Promise<K, A>, calls: seq<Call>, op: Op<K>): seq<Call> {
    if op.On? && p.records(op.kind) then calls + [Call(op.ip, op.at)] else calls
  }

  function Reply<K, A>(p: Promise<K, A>, calls: seq<Call>, op: Op<K>): seq<(IP, A)> {
    if op.On? then [(op.ip, p.answer(op.kind, TimesOf(calls, op.ip), op.at))] else []
  }

  function Answers<K, A>(p: Promise<K, A>, calls: seq<Call>, ops: seq<Op<K>>): seq<(IP, A)>
    decreases |ops|
  {
    if ops == [] then []
    else Reply(p, calls, ops[0]) + Answers(p, CallsAfter(p, calls, ops[0]), ops[1..])
  }

  lemma ReplayStep<K, A>(p: Promise<K, A>, calls: seq<Call>, ops: seq<Op<K>>, i: nat, clock: real)
    requires i < |ops| && FromNowOn(clock, ops[i..])
    ensures clock <= ops[i].at && FromNowOn(ops[i].at, ops[i + 1..])
    ensures Answers(p, calls, ops[i..])
      == Reply(p, calls, ops[i]) + Answers(p, CallsAfter(p, calls, ops[i]), ops[i + 1..])
  {
    assert ops[i..][0] == ops[i] && ops[i..][1..] == ops[i + 1..];
  }

  lemma StartReplay<K, A>(p: Promise<K, A>, calls: seq<Call>, ops: seq<Op<K>>)
    ensures ops[0..] == ops && [] + Answers(p, calls, ops) == Answers(p, calls, ops)
  {}

  lemma EndReplay<K, A>(p: Promise<K, A>, calls: seq<Call>, ops: seq<Op<K>>)
    ensures Answers(p, calls, ops[|ops|..]) == []
  {}

  function CallsAfterAll<K, A>(p: Promise<K, A>, calls: seq<Call>, ops: seq<Op<K>>): seq<Call>
    decreases |ops|
  {
    if ops == [] then calls else CallsAfterAll(p, CallsAfter(p, calls, ops[0]), ops[1..])
  }

  /** How many of the operations are questions. */
  function Asked<K>(ops: seq<Op<K>>): nat {
    if ops == [] then 0 else (if ops[0].On? then 1 else 0) + Asked(ops[1..])
  }

  /** A run may be cut anywhere. */
  lemma {:induction false} AnswersConcat<K, A>(p: Promise<K, A>, calls: seq<Call>, a: seq<Op<K>>, b: seq<Op<K>>)
    ensures Answers(p, calls, a + b) == Answers(p, calls, a) + Answers(p, CallsAfterAll(p, calls, a), b)
    ensures CallsAfterAll(p, calls, a + b) == CallsAfterAll(p, CallsAfterAll(p, calls, a), b)
    ensures |Answers(p, calls, a)| == Asked(a)
    decreases |a|
  {
    hide TimesOf, CallsAfter;
    if a == [] {
      assert a + b == b;
    } else {
      assert (a + b)[1..] == a[1..] + b;
      AnswersConcat(p, CallsAfter(p, calls, a[0]), a[1..], b);
    }
  }

  /** The clock after a run. */
  function ClockAfter<K>(clock: real, ops: seq<Op<K>>): real { if ops == [] then clock else ops[|ops| - 1].at }

  lemma {:induction false} FromNowOnConcat<K>(clock: real, a: seq<Op<K>>, b: seq<Op<K>>)
    requires FromNowOn(clock, a + b)
    ensures FromNowOn(clock, a) && FromNowOn(ClockAfter(clock, a), b) && clock <= ClockAfter(clock, a)
    decreases |a|
  {
    if a == [] {
      assert a + b == b;
    } else {
      assert (a + b)[1..] == a[1..] + b;
      FromNowOnConcat(a[0].at, a[1..], b);
    }
  }

  lemma {:induction false} RunChronological<K, A>(p: Promise<K, A>, calls: seq<Call>, clock: real, ops: seq<Op<K>>)
    requires Chronological(calls, clock) && FromNowOn(clock, ops)
    ensures Chronological(CallsAfterAll(p, calls, ops), ClockAfter(clock, ops))
    decreases |ops|
  {
    hide Chronological;
    if ops != [] {
      var op := ops[0];
      ChronologicalLater(calls, clock, op.at);
      if op.On? {
        ChronologicalAppend(calls, clock, Call(op.ip, op.at));
      }
      RunChronological(p, CallsAfter(p, calls, op), op.at, ops[1..]);
    }
  }

  /** A run only adds to the history of an IP, and adds nothing older than its start. */
  lemma {:induction false} RunExtends<K, A>(p: Promise<K, A>, calls: seq<Call>, clock: real, ops: seq<Op<K>>, ip: IP)
    requires FromNowOn(clock, ops)
    ensures var ts, all := TimesOf(calls, ip), TimesOf(CallsAfterAll(p, calls, ops), ip);
      ts <= all && forall i :: |ts| <= i < |all| ==> all[i] >= clock
    decreases |ops|
  {
    hide TimesOf;
    if ops != [] {
      var op := ops[0];
      if op.On? {
        TimesOfAppend(calls, Call(op.ip, op.at), ip);
      }
      RunExtends(p, CallsAfter(p, calls, op), op.at, ops[1..], ip);
    }
  }

  /** The calls of one IP that a run adds, not older than `cutoff`. */
  function RecentIn<K, A>(p: Promise<K, A>, ops: seq<Op<K>>, ip: IP, cutoff: real): nat {
    if ops == [] then 0
    else
      var op := ops[0];
      var here := op.On? && op.ip == ip && p.records(op.kind) && op.at >= cutoff;
      (if here then 1 else 0) + RecentIn(p, ops[1..], ip, cutoff)
  }

  lemma {:induction false} CountAppend(ts: seq<real>, at: real, cutoff: real)
    ensures CountSince(ts + [at], cutoff) == CountSince(ts, cutoff) + if at >= cutoff then 1 else 0
  {
    if ts == [] {
      assert [] + [at] == [at] && [at][1..] == [];
    } else {
      assert (ts + [at])[1..] == ts[1..] + [at];
      CountAppend(ts[1..], at, cutoff);
    }
  }

  /** A window count after a run counts the recent calls among its operations, and those of before. */
  lemma {:induction false} CountOfRun<K, A>(p: Promise<K, A>, calls: seq<Call>, ops: seq<Op<K>>, ip: IP, cutoff: real)
    ensures CountSince(TimesOf(CallsAfterAll(p, calls, ops), ip), cutoff)
      == CountSince(TimesOf(calls, ip), cutoff) + RecentIn(p, ops, ip, cutoff)
    decreases |ops|
  {
    hide TimesOf, CountSince;
    if ops != [] {
      var op := ops[0];
      CountOfRun(p, CallsAfter(p, calls, op), ops[1..], ip, cutoff);
      if op.On? && p.records(op.kind) {
        TimesOfAppend(calls, Call(op.ip, op.at), ip);
        CountAppend(TimesOf(calls, ip), op.at, cutoff);
        assert TimesOf(calls, ip) + [] == TimesOf(calls, ip);
      }
    }
  }

  lemma NoCalls(ip: IP)
    ensures forall cutoff :: CountSince(TimesOf([], ip), cutoff) == 0
  {}

  /** The answer to question `k` of a run is the one that is promised after the operations before it. */
  lemma AnswerAt<K, A>(p: Promise<K, A>, calls: seq<Call>, ops: seq<Op<K>>, k: nat)
    requires k < |ops| && ops[k].On?
    ensures var n, times := Asked(ops[..k]), TimesOf(CallsAfterAll(p, calls, ops[..k]), ops[k].ip);
      && n < |Answers(p, calls, ops)|
      && Answers(p, calls, ops)[n] == (ops[k].ip, p.answer(ops[k].kind, times, ops[k].at))
  {
    hide TimesOf, CallsAfter, Asked;
    assert ops == ops[..k] + ops[k..];
    AnswersConcat(p, calls, ops[..k], ops[k..]);
  }

  function AnswersAbout<A>(answers: seq<(IP, A)>, ip: IP): seq<(IP, A)> {
    if answers == [] then []
    else (if answers[0].0 == ip then [answers[0]] else []) + AnswersAbout(answers[1..], ip)
  }

  /** The run as one IP sees it: without the other IPs and without sweeps. */
  function Restrict<K>(ops: seq<Op<K>>, ip: IP): seq<Op<K>> {
    if ops == [] then []
    else (if ops[0].On? && ops[0].ip == ip then [ops[0]] else []) + Restrict(ops[1..], ip)
  }

  function WithoutSweeps<K>(ops: seq<Op<K>>): seq<Op<K>> {
    if ops == [] then [] else (if ops[0].On? then [ops[0]] else []) + WithoutSweeps(ops[1..])
  }

  lemma AboutFirst<K, A>(p: Promise<K, A>, calls: seq<Call>, ops: seq<Op<K>>, ip: IP)
    requires ops != []
    ensures AnswersAbout(Answers(p, calls, ops), ip)
         == (if ops[0].On? && ops[0].ip == ip then Reply(p, calls, ops[0]) else [])
           + AnswersAbout(Answers(p, CallsAfter(p, calls, ops[0]), ops[1..]), ip)
  {
    hide CallsAfter, TimesOf;
    var rest := Answers(p, CallsAfter(p, calls, ops[0]), ops[1..]);
    if ops[0].On? {
      assert Answers(p, calls, ops)[1..] == rest;
    } else {
      assert Answers(p, calls, ops) == rest;
    }
  }

  lemma OwnCalls<K, A>(p: Promise<K, A>, calls: seq<Call>, own: seq<Call>, op: Op<K>, ip: IP)
    requires TimesOf(calls, ip) == TimesOf(own, ip)
    ensures TimesOf(CallsAfter(p, calls, op), ip)
         == TimesOf(if op.On? && op.ip == ip then CallsAfter(p, own, op) else own, ip)
  {
    hide TimesOf;
    if op.On? {
      TimesOfAppend(calls, Call(op.ip, op.at), ip);
      TimesOfAppend(own, Call(op.ip, op.at), ip);
    }
  }

  /** Non-interference: what one IP is told in an interleaved run is what it would be told alone. */
  lemma {:induction false} NonInterference<K, A>(
    p: Promise<K, A>, calls: seq<Call>, own: seq<Call>, ops: seq<Op<K>>, ip: IP
  )
    requires TimesOf(calls, ip) == TimesOf(own, ip)
    ensures AnswersAbout(Answers(p, calls, ops), ip) == Answers(p, own, Restrict(ops, ip))
    decreases |ops|
  {
    hide TimesOf, AnswersAbout, CallsAfter;
    if ops == [] {
      AboutNothing<A>(ip);
    } else {
      var op := ops[0];
      AboutFirst(p, calls, ops, ip);
      OwnCalls(p, calls, own, op, ip);
      if op.On? && op.ip == ip {
        assert Restrict(ops, ip)[1..] == Restrict(ops[1..], ip);
        NonInterference(p, CallsAfter(p, calls, op), CallsAfter(p, own, op), ops[1..], ip);
      } else {
        assert Restrict(ops, ip) == Restrict(ops[1..], ip);
        NonInterference(p, CallsAfter(p, calls, op), own, ops[1..], ip);
      }
    }
  }

  lemma {:induction false} RestrictFromNowOn<K>(clock: real, ops: seq<Op<K>>, ip: IP)
    requires FromNowOn(clock, ops)
    ensures FromNowOn(clock, Restrict(ops, ip))
    decreases |ops|
  {
    if ops != [] {
      var rest := Restrict(ops[1..], ip);
      RestrictFromNowOn(ops[0].at, ops[1..], ip);
      FromEarlier(clock, ops[0].at, rest);
      assert ([ops[0]] + rest)[1..] == rest && [] + rest == rest;
    }
  }

  lemma {:induction false} WithoutSweepsFromNowOn<K>(clock: real, ops: seq<Op<K>>)
    requires FromNowOn(clock, ops)
    ensures FromNowOn(clock, WithoutSweeps(ops))
    decreases |ops|
  {
    if ops != [] {
      var rest := WithoutSweeps(ops[1..]);
      WithoutSweepsFromNowOn(ops[0].at, ops[1..]);
      FromEarlier(clock, ops[0].at, rest);
      assert ([ops[0]] + rest)[1..] == rest && [] + rest == rest;
    }
  }

  lemma AboutNothing<A>(ip: IP)
    ensures AnswersAbout<A>([], ip) == []
  {}

  /** A run with sweeps is answered like the same run without them. */
  lemma {:induction false} SweepsUnobservable<K, A>(p: Promise<K, A>, calls: seq<Call>, ops: seq<Op<K>>)
    ensures Answers(p, calls, ops) == Answers(p, calls, WithoutSweeps(ops))
    decreases |ops|
  {
    if ops != [] {
      SweepsUnobservable(p, CallsAfter(p, calls, ops[0]), ops[1..]);
      if ops[0].On? {
        assert WithoutSweeps(ops)[1..] == WithoutSweeps(ops[1..]);
      } else {
        assert WithoutSweeps(ops) == WithoutSweeps(ops[1..]);
      }
    }
  }
}
