/** Time-stamped calls per IP address, and the sliding log kept of them. */
module SlidingLog {

  type IP = string

  datatype Call = Call(ip: IP, at: real)

  ghost predicate Ordered(ts: seq<real>) {
    forall i, j :: 0 <= i < j < |ts| ==> ts[i] <= ts[j]
  }

  /** The calls happened in this order, none after `clock`. */
  ghost predicate Chronological(calls: seq<Call>, clock: real) {
    calls == [] || (calls[|calls| - 1].at <= clock && Chronological(calls[..|calls| - 1], calls[|calls| - 1].at))
  }

  lemma ChronologicalLater(calls: seq<Call>, clock: real, now: real)
    requires Chronological(calls, clock) && clock <= now
    ensures Chronological(calls, now)
  {}

  lemma ChronologicalAppend(calls: seq<Call>, clock: real, c: Call)
    requires Chronological(calls, clock) && clock <= c.at
    ensures Chronological(calls + [c], c.at)
  {
    assert (calls + [c])[..|calls|] == calls;
  }

  /** The full, never-expiring history of one IP. */
  function TimesOf(calls: seq<Call>, ip: IP): seq<real> {
    if calls == [] then []
    else
      var last := calls[|calls| - 1];
      TimesOf(calls[..|calls| - 1], ip) + if last.ip == ip then [last.at] else []
  }

  /** How many entries are not older than `cutoff`. */
  function CountSince(ts: seq<real>, cutoff: real): nat {
    if ts == [] then 0 else (if ts[0] >= cutoff then 1 else 0) + CountSince(ts[1..], cutoff)
  }

  /** Pops entries from the front while they are older than `cutoff`. */
  function DropBefore(ts: seq<real>, cutoff: real): seq<real> {
    if ts != [] && ts[0] < cutoff then DropBefore(ts[1..], cutoff) else ts
  }

  /** `kept` is what remains of `full` after some entries older than `cutoff` were popped from the front. */
  ghost predicate Slides(kept: seq<real>, full: seq<real>, cutoff: real) {
    kept == full || (full != [] && full[0] < cutoff && Slides(kept, full[1..], cutoff))
  }

  lemma {:induction false} TimesOfAppend(calls: seq<Call>, c: Call, ip: IP)
    ensures TimesOf(calls + [c], ip) == TimesOf(calls, ip) + if c.ip == ip then [c.at] else []
  {
    assert (calls + [c])[..|calls|] == calls;
  }

  lemma {:induction false} TimesOrdered(calls: seq<Call>, clock: real, ip: IP)
    requires Chronological(calls, clock)
    ensures Ordered(TimesOf(calls, ip))
    ensures forall i :: 0 <= i < |TimesOf(calls, ip)| ==> TimesOf(calls, ip)[i] <= clock
  {
    if calls != [] {
      TimesOrdered(calls[..|calls| - 1], calls[|calls| - 1].at, ip);
    }
  }

  lemma OrderedAppend(ts: seq<real>, now: real)
    requires Ordered(ts) && forall i :: 0 <= i < |ts| ==> ts[i] <= now
    ensures Ordered(ts + [now])
  {}

  lemma {:induction false} CountBounds(ts: seq<real>, cutoff: real)
    ensures CountSince(ts, cutoff) <= |ts|
    ensures (forall i :: 0 <= i < |ts| ==> ts[i] < cutoff) ==> CountSince(ts, cutoff) == 0
    ensures (forall i :: 0 <= i < |ts| ==> ts[i] >= cutoff) ==> CountSince(ts, cutoff) == |ts|
  {
    if ts != [] {
      CountBounds(ts[1..], cutoff);
    }
  }

  /** A later window counts no more of the same history. */
  lemma {:induction false} CountLater(ts: seq<real>, before: real, cutoff: real)
    requires before <= cutoff
    ensures CountSince(ts, cutoff) <= CountSince(ts, before)
  {
    if ts != [] {
      CountLater(ts[1..], before, cutoff);
    }
  }

  lemma {:induction false} SlidesLater(kept: seq<real>, full: seq<real>, before: real, cutoff: real)
    requires Slides(kept, full, before) && before <= cutoff
    ensures Slides(kept, full, cutoff)
  {
    if kept != full {
      SlidesLater(kept, full[1..], before, cutoff);
    }
  }

  lemma {:induction false} SlidesAppend(kept: seq<real>, full: seq<real>, cutoff: real, at: real)
    requires Slides(kept, full, cutoff)
    ensures Slides(kept + [at], full + [at], cutoff)
  {
    if kept != full {
      SlidesAppend(kept, full[1..], cutoff, at);
      assert (full + [at])[1..] == full[1..] + [at];
    }
  }

  /** The last call is still logged, or it is older than `cutoff`. */
  lemma {:induction false} SlidesLast(kept: seq<real>, full: seq<real>, cutoff: real)
    requires Slides(kept, full, cutoff) && full != []
    ensures if kept == [] then full[|full| - 1] < cutoff else kept[|kept| - 1] == full[|full| - 1]
  {
    if kept != full && |full| > 1 {
      SlidesLast(kept, full[1..], cutoff);
    }
  }

  /** Popping from the retained log refines the full history: the retained length is exactly the
      number of entries of the whole history that are inside the window. */
  lemma {:induction false} DropRefinesHistory(kept: seq<real>, full: seq<real>, before: real, cutoff: real)
    requires Ordered(full) && Slides(kept, full, before) && before <= cutoff
    ensures Slides(DropBefore(kept, cutoff), full, cutoff)
    ensures |DropBefore(kept, cutoff)| == CountSince(full, cutoff)
    decreases |full|
  {
    if full == [] {
    } else if full[0] < cutoff {
      var rest := full[1..];
      assert Slides(if kept == full then rest else kept, rest, before);
      DropRefinesHistory(if kept == full then rest else kept, rest, before, cutoff);
    } else {
      assert kept == full;
      CountBounds(full, cutoff);
    }
  }

  lemma {:induction false} ExpiredIsOld(ts: seq<real>, cutoff: real)
    requires DropBefore(ts, cutoff) == []
    ensures forall i :: 0 <= i < |ts| ==> ts[i] < cutoff
  {
    if ts != [] {
      ExpiredIsOld(ts[1..], cutoff);
    }
  }
}
