/** How many requests a limiter admits during any stretch of a run (`router/rate_limiter.py`). */
module Admissions {
  import opened SlidingLog
  import opened TokenBucket
  import opened Histories
  import opened RateLimiter

  /** How many of these answers admit a request of `ip`. */
  function AllowedTo(answers: seq<(IP, Answer)>, ip: IP): nat {
    if answers == [] then 0 else (if answers[0] == (ip, Allowed(true)) then 1 else 0) + AllowedTo(answers[1..], ip)
  }

  /** The answers of a run admit an IP as often as the exact bucket admits the calls that the run adds. */
  lemma {:induction false} AllowedIsAdmitted(
    c: real, r: real, w: real, threshold: int, calls: seq<Call>, clock: real, ops: seq<Op<Question>>, ip: IP
  )
    requires FromNowOn(clock, ops)
    ensures var p := Promised(c, r, w, threshold);
      var ts, all := TimesOf(calls, ip), TimesOf(CallsAfterAll(p, calls, ops), ip);
      ts <= all && AllowedTo(Answers(p, calls, ops), ip) == Admitted(c, r, all, |ts|, |all|)
    decreases |ops|
  {
    hide TimesOf, Admits;
    var p := Promised(c, r, w, threshold);
    RunExtends(p, calls, clock, ops, ip);
    if ops != [] {
      var op, calls' := ops[0], CallsAfter(p, calls, ops[0]);
      var ts, all := TimesOf(calls, ip), TimesOf(CallsAfterAll(p, calls, ops), ip);
      AllowedIsAdmitted(c, r, w, threshold, calls', op.at, ops[1..], ip);
      ReplyCounts(p, calls, ops, ip);
      if op.On? {
        TimesOfAppend(calls, Call(op.ip, op.at), ip);
      }
      if op.On? && op.kind.Allow? && op.ip == ip {
        AdmitsOfPrefix(c, r, ts + [op.at], all, |ts|);
        AdmittedFirst(c, r, all, |ts|, |all|);
      } else {
        assert TimesOf(calls', ip) == ts;
      }
    }
  }

  lemma ReplyCounts(p: Promise<Question, Answer>, calls: seq<Call>, ops: seq<Op<Question>>, ip: IP)
    requires ops != []
    ensures var reply := Reply(p, calls, ops[0]);
      AllowedTo(Answers(p, calls, ops), ip)
      == (if reply != [] && reply[0] == (ip, Allowed(true)) then 1 else 0)
         + AllowedTo(Answers(p, CallsAfter(p, calls, ops[0]), ops[1..]), ip)
  {
    hide TimesOf, CallsAfter;
    var reply, rest := Reply(p, calls, ops[0]), Answers(p, CallsAfter(p, calls, ops[0]), ops[1..]);
    assert Answers(p, calls, ops) == reply + rest;
    assert reply == [] ==> reply + rest == rest;
    assert reply != [] ==> (reply + rest)[1..] == rest;
  }

  /** A run admits an IP at most as often as the capacity plus what its duration refills. */
  lemma RunBound(
    c: real, r: real, w: real, threshold: int, calls: seq<Call>, clock: real, ops: seq<Op<Question>>, ip: IP
  )
    requires c >= 0.0 && r >= 0.0 && Chronological(calls, clock) && ops != [] && FromNowOn(clock, ops)
    ensures var answers := Answers(Promised(c, r, w, threshold), calls, ops);
      AllowedTo(answers, ip) as real <= c + Tokens(r, ops[|ops| - 1].at - ops[0].at)
  {
    hide *;
    var p, first, last := Promised(c, r, w, threshold), ops[0].at, ops[|ops| - 1].at;
    var ts, all := TimesOf(calls, ip), TimesOf(CallsAfterAll(p, calls, ops), ip);
    StartAt(calls, clock, ops);
    RunChronological(p, calls, first, ops);
    RunExtends(p, calls, first, ops, ip);
    TimesOrdered(CallsAfterAll(p, calls, ops), last, ip);
    AllowedIsAdmitted(c, r, w, threshold, calls, first, ops, ip);
    TokensZero(r);
    if |ts| < |all| {
      IntervalBound(c, r, all, |ts|, |all| - 1);
      TokensMonotone(r, all[|all| - 1] - all[|ts|], last - first);
    } else {
      TokensMonotone(r, 0.0, last - first);
      NothingAdmitted(c, r, all);
    }
  }

  lemma StartAt(calls: seq<Call>, clock: real, ops: seq<Op<Question>>)
    requires Chronological(calls, clock) && ops != [] && FromNowOn(clock, ops)
    ensures Chronological(calls, ops[0].at) && FromNowOn(ops[0].at, ops)
    ensures ClockAfter(ops[0].at, ops) == ops[|ops| - 1].at && ops[0].at <= ops[|ops| - 1].at
  {
    ChronologicalLater(calls, clock, ops[0].at);
    assert ops + [] == ops;
    FromNowOnConcat(ops[0].at, ops, []);
  }

  lemma NothingAdmitted(c: real, r: real, ts: seq<real>)
    ensures Admitted(c, r, ts, |ts|, |ts|) == 0
  {}

  /** The answers to the operations `i` to `j` of a run, which has one answer for each question asked. */
  function Stretch(answers: seq<(IP, Answer)>, ops: seq<Op<Question>>, i: nat, j: nat): seq<(IP, Answer)>
    requires i <= j < |ops|
  {
    var from, to := Asked(ops[..i]), Asked(ops[..j + 1]);
    if from <= to <= |answers| then answers[from..to] else answers
  }

  lemma Cut(ops: seq<Op<Question>>, i: nat, j: nat)
    requires i <= j < |ops|
    ensures var a, b, rest := ops[..i], ops[i..j + 1], ops[j + 1..];
      && ops == a + (b + rest) && ops == (a + b) + rest && ops[..j + 1] == a + b
      && b != [] && b[0] == ops[i] && b[|b| - 1] == ops[j]
  {}

  /** Cutting the answers of a run gives the answers of the stretch, asked after what came before. */
  lemma StretchOfRun(p: Promise<Question, Answer>, calls: seq<Call>, ops: seq<Op<Question>>, i: nat, j: nat)
    requires i <= j < |ops|
    ensures Stretch(Answers(p, calls, ops), ops, i, j)
         == Answers(p, CallsAfterAll(p, calls, ops[..i]), ops[i..j + 1])
  {
    hide Answers, CallsAfterAll, Asked;
    var a, b, rest := ops[..i], ops[i..j + 1], ops[j + 1..];
    Cut(ops, i, j);
    AnswersConcat(p, calls, a + b, rest);
    AnswersConcat(p, calls, a, b);
  }

  lemma StretchBound(
    c: real, r: real, w: real, threshold: int, calls: seq<Call>, clock: real, ops: seq<Op<Question>>, ip: IP,
    i: nat, j: nat
  )
    requires c >= 0.0 && r >= 0.0 && Chronological(calls, clock) && FromNowOn(clock, ops) && i <= j < |ops|
    ensures var answers := Answers(Promised(c, r, w, threshold), calls, ops);
      AllowedTo(Stretch(answers, ops, i, j), ip) as real <= c + Tokens(r, ops[j].at - ops[i].at)
  {
    hide *;
    Cut(ops, i, j);
    StretchOfRun(Promised(c, r, w, threshold), calls, ops, i, j);
    PartBound(c, r, w, threshold, calls, clock, ops[..i], ops[i..j + 1], ops[j + 1..], ip);
  }

  lemma PartBound(
    c: real, r: real, w: real, threshold: int, calls: seq<Call>, clock: real,
    a: seq<Op<Question>>, b: seq<Op<Question>>, rest: seq<Op<Question>>, ip: IP
  )
    requires c >= 0.0 && r >= 0.0 && Chronological(calls, clock) && FromNowOn(clock, a + (b + rest)) && b != []
    ensures var p := Promised(c, r, w, threshold);
      AllowedTo(Answers(p, CallsAfterAll(p, calls, a), b), ip) as real <= c + Tokens(r, b[|b| - 1].at - b[0].at)
  {
    hide *;
    var p := Promised(c, r, w, threshold);
    FromNowOnConcat(clock, a, b + rest);
    FromNowOnConcat(ClockAfter(clock, a), b, rest);
    RunChronological(p, calls, clock, a);
    RunBound(c, r, w, threshold, CallsAfterAll(p, calls, a), ClockAfter(clock, a), b, ip);
  }

  /** Whatever a limiter has seen before, and whatever questions and sweeps a run mixes: during no stretch of the run
      is an IP admitted more often than the capacity plus what the stretch refills. */
  method AdmissionsBounded(limiter: RateLimiter, ops: seq<Op<Question>>, ip: IP) returns (answers: seq<(IP, Answer)>)
    requires limiter.Valid() && FromNowOn(limiter.clock, ops)
    modifies limiter
    ensures limiter.Valid() && |answers| == Asked(ops)
    ensures answers == Answers(
      Promised(limiter.capacity as real, limiter.Rate(), limiter.window as real, limiter.threshold),
      old(limiter.calls), ops)
    ensures forall i, j :: 0 <= i <= j < |ops| ==>
      AllowedTo(Stretch(answers, ops, i, j), ip) as real
      <= limiter.capacity as real + Tokens(limiter.Rate(), ops[j].at - ops[i].at)
  {
    hide *;
    limiter.Unfold();
    forall i, j | 0 <= i <= j < |ops|
      ensures AllowedTo(Stretch(Answers(
        Promised(limiter.capacity as real, limiter.Rate(), limiter.window as real, limiter.threshold),
        limiter.calls, ops), ops, i, j), ip) as real
        <= limiter.capacity as real + Tokens(limiter.Rate(), ops[j].at - ops[i].at)
    {
      StretchBound(limiter.capacity as real, limiter.Rate(), limiter.window as real, limiter.threshold,
        limiter.calls, limiter.clock, ops, ip, i, j);
    }
    AnswersConcat(Promised(limiter.capacity as real, limiter.Rate(), limiter.window as real, limiter.threshold),
      limiter.calls, ops, []);
    assert ops + [] == ops;
    answers := limiter.Replay(ops);
    limiter.Unfold();
  }
}
