/** Python dictionaries from IP addresses to access logs, kept in insertion order. */
module LogTable {
  import opened SlidingLog

  type Log = seq<real>

  /** `order` lists the members of `keys`, each once. */
  ghost predicate Listing(order: seq<IP>, keys: set<IP>) {
    if order == [] then keys == {} else order[0] in keys && Listing(order[1..], keys - {order[0]})
  }

  function Without(s: seq<IP>, x: IP): seq<IP> {
    if s == [] then [] else (if s[0] == x then [] else [s[0]]) + Without(s[1..], x)
  }

  lemma {:induction false} ListingMembers(order: seq<IP>, keys: set<IP>)
    requires Listing(order, keys)
    ensures forall k :: k in order <==> k in keys
  {
    if order != [] {
      ListingMembers(order[1..], keys - {order[0]});
      assert order == [order[0]] + order[1..];
    }
  }

  lemma {:induction false} ListingDistinct(order: seq<IP>, keys: set<IP>)
    requires Listing(order, keys)
    ensures forall i, j :: 0 <= i < j < |order| ==> order[i] != order[j]
  {
    if order != [] {
      ListingDistinct(order[1..], keys - {order[0]});
      ListingMembers(order[1..], keys - {order[0]});
      forall j | 0 < j < |order| ensures order[0] != order[j] {
        assert order[j] == order[1..][j - 1] && order[j] in order[1..];
      }
    }
  }

  lemma {:induction false} ListingAppend(order: seq<IP>, keys: set<IP>, k: IP)
    requires Listing(order, keys) && k !in keys
    ensures Listing(order + [k], keys + {k})
  {
    if order != [] {
      ListingAppend(order[1..], keys - {order[0]}, k);
      assert (order + [k])[1..] == order[1..] + [k];
      assert keys + {k} - {order[0]} == keys - {order[0]} + {k};
    }
  }

  lemma {:induction false} ListingWithout(order: seq<IP>, keys: set<IP>, k: IP)
    requires Listing(order, keys)
    ensures Listing(Without(order, k), keys - {k})
  {
    if order != [] {
      ListingWithout(order[1..], keys - {order[0]}, k);
      if order[0] == k {
        assert Without(order, k) == Without(order[1..], k) && keys - {k} - {k} == keys - {k};
      } else {
        assert Without(order, k)[1..] == Without(order[1..], k);
        assert keys - {k} - {order[0]} == keys - {order[0]} - {k};
      }
    }
  }

  lemma {:induction false} WithoutAbsent(order: seq<IP>, keys: set<IP>, k: IP)
    requires Listing(order, keys) && k !in keys
    ensures Without(order, k) == order
  {
    if order != [] {
      WithoutAbsent(order[1..], keys - {order[0]}, k);
    }
  }

  /** `order` lists the keys of `logs` in the order they were inserted. */
  datatype Table = Table(order: seq<IP>, logs: map<IP, Log>) {

    ghost predicate Valid() { Listing(order, logs.Keys) }

    function Get(ip: IP): Log { if ip in logs then logs[ip] else [] }

    function Put(ip: IP, log: Log): Table { Table(if ip in logs then order else order + [ip], logs[ip := log]) }

    function Delete(ip: IP): Table { Table(Without(order, ip), logs - {ip}) }

    /** Pops the expired entries of one log and deletes the log when none is left. */
    function Trim(ip: IP, cutoff: real): Table {
      var kept := DropBefore(Get(ip), cutoff);
      if kept == [] then Delete(ip) else Put(ip, kept)
    }

    /** Whether nothing of a log is inside the window. */
    predicate Stale(ip: IP, cutoff: real) { DropBefore(Get(ip), cutoff) == [] }

    lemma OrderDistinct()
      requires Valid()
      ensures forall i, j :: 0 <= i < j < |order| ==> order[i] != order[j]
    {
      ListingDistinct(order, logs.Keys);
    }

    lemma PutValid(ip: IP, log: Log)
      requires Valid()
      ensures Put(ip, log).Valid()
    {
      if ip in logs {
        assert logs[ip := log].Keys == logs.Keys;
      } else {
        ListingAppend(order, logs.Keys, ip);
        assert logs[ip := log].Keys == logs.Keys + {ip};
      }
    }

    lemma DeleteValid(ip: IP)
      requires Valid()
      ensures Delete(ip).Valid()
    {
      ListingWithout(order, logs.Keys, ip);
      assert (logs - {ip}).Keys == logs.Keys - {ip};
    }

    lemma DeleteAbsent(ip: IP)
      requires Valid() && ip !in logs
      ensures Delete(ip) == this
    {
      WithoutAbsent(order, logs.Keys, ip);
      assert logs - {ip} == logs;
    }

    lemma TrimValid(ip: IP, cutoff: real)
      requires Valid()
      ensures Trim(ip, cutoff).Valid()
    {
      PutValid(ip, DropBefore(Get(ip), cutoff));
      DeleteValid(ip);
    }

    /** Trimming a log deletes it exactly when it has expired, which the size of the dictionary shows. */
    lemma TrimSize(ip: IP, cutoff: real)
      requires ip in logs
      ensures Trim(ip, cutoff).logs.Keys == logs.Keys - (if Stale(ip, cutoff) then {ip} else {})
      ensures |Trim(ip, cutoff).logs| == |logs| - if Stale(ip, cutoff) then 1 else 0
    {
      assert |Trim(ip, cutoff).logs.Keys| == |logs.Keys| - if Stale(ip, cutoff) then 1 else 0;
    }
  }

  lemma GetAbsent(t: Table, ip: IP)
    requires ip !in t.logs
    ensures |t.Get(ip)| == 0 && |t.Put(ip, []).Get(ip)| == 0
    ensures t.Put(ip, []).logs.Keys == t.logs.Keys + {ip}
  {}

  const EMPTY_TABLE := Table([], map[])

  /** How a sweep over a dictionary ended; Python's iterator raises when the size has changed. */
  datatype SweepResult = Cleaned(removed: nat) | ChangedDuringIteration

  /** Every log of the table is what is left of the history of its IP; an IP without a log has no recent history. */
  ghost predicate Tracks(t: Table, calls: seq<Call>, cutoff: real) {
    forall ip :: Slides(t.Get(ip), TimesOf(calls, ip), cutoff)
  }

  /** The window may move on between two operations. */
  lemma TracksLater(t: Table, calls: seq<Call>, before: real, cutoff: real)
    requires Tracks(t, calls, before) && before <= cutoff
    ensures Tracks(t, calls, cutoff)
  {
    forall ip ensures Slides(t.Get(ip), TimesOf(calls, ip), cutoff) {
      SlidesLater(t.Get(ip), TimesOf(calls, ip), before, cutoff);
    }
  }

  /** Trimming one log keeps the table exact, and the log then holds what the history has in the window. */
  lemma TrimTracks(t: Table, calls: seq<Call>, clock: real, before: real, cutoff: real, ip: IP)
    requires Tracks(t, calls, before) && Chronological(calls, clock) && before <= cutoff
    ensures Tracks(t.Trim(ip, cutoff), calls, cutoff)
    ensures |t.Trim(ip, cutoff).Get(ip)| == CountSince(TimesOf(calls, ip), cutoff)
  {
    TracksLater(t, calls, before, cutoff);
    TimesOrdered(calls, clock, ip);
    assert Slides(t.Get(ip), TimesOf(calls, ip), before);
    DropRefinesHistory(t.Get(ip), TimesOf(calls, ip), before, cutoff);
    forall other | other != ip ensures t.Trim(ip, cutoff).Get(other) == t.Get(other) {}
  }

  /** An IP without a log has no call inside the window. */
  lemma AbsentMeansNone(t: Table, calls: seq<Call>, clock: real, before: real, cutoff: real, ip: IP)
    requires Tracks(t, calls, before) && Chronological(calls, clock) && before <= cutoff && ip !in t.logs
    ensures CountSince(TimesOf(calls, ip), cutoff) == 0
  {
    TrimTracks(t, calls, clock, before, cutoff, ip);
  }

  /** While no log has expired, the keys are exactly the IPs with a call inside the window. */
  lemma KeysAreRecent(t: Table, calls: seq<Call>, clock: real, before: real, cutoff: real)
    requires Tracks(t, calls, before) && Chronological(calls, clock) && before <= cutoff && t.Valid()
    ensures (forall ip :: ip in t.order <==> CountSince(TimesOf(calls, ip), cutoff) > 0)
      || exists ip :: ip in t.logs.Keys && t.Stale(ip, cutoff)
  {
    ListingMembers(t.order, t.logs.Keys);
    forall ip | ip in t.logs ==> !t.Stale(ip, cutoff)
      ensures ip in t.logs <==> CountSince(TimesOf(calls, ip), cutoff) > 0 {
      TrimTracks(t, calls, clock, before, cutoff, ip);
    }
  }

  /** Appending the current time to a log records the call. */
  lemma AppendTracks(t: Table, calls: seq<Call>, cutoff: real, c: Call)
    requires Tracks(t, calls, cutoff)
    ensures Tracks(t.Put(c.ip, t.Get(c.ip) + [c.at]), calls + [c], cutoff)
  {
    var t' := t.Put(c.ip, t.Get(c.ip) + [c.at]);
    forall ip ensures Slides(t'.Get(ip), TimesOf(calls + [c], ip), cutoff) {
      TimesOfAppend(calls, c, ip);
      assert Slides(t.Get(ip), TimesOf(calls, ip), cutoff);
      if ip == c.ip {
        SlidesAppend(t.Get(ip), TimesOf(calls, ip), cutoff, c.at);
      } else {
        assert TimesOf(calls + [c], ip) == TimesOf(calls, ip) && t'.Get(ip) == t.Get(ip);
      }
    }
  }

  /** After a single call only the log of its IP can hold anything, and it holds just that call. */
  lemma LoneLog(t: Table, ip: IP, at: real, before: real, cutoff: real)
    requires Tracks(t, [Call(ip, at)], before) && before <= at
    ensures t.Get(ip) == [at] && ip in t.logs && (t.Stale(ip, cutoff) <==> at < cutoff)
    ensures forall other :: other != ip ==> t.Get(other) == []
  {
    assert [Call(ip, at)] == [] + [Call(ip, at)];
    forall k ensures t.Get(k) == if k == ip then [at] else [] {
      TimesOfAppend([], Call(ip, at), k);
      assert TimesOf([Call(ip, at)], k) == if k == ip then [at] else [];
      assert Slides(t.Get(k), TimesOf([Call(ip, at)], k), before);
      assert [at][1..] == [];
    }
    assert DropBefore([at], cutoff) == if at < cutoff then [] else [at];
  }

  /** Visits `keys` in turn, trimming each log, until a deletion makes the dictionary iterator raise. */
  function Sweep(t: Table, keys: seq<IP>, cutoff: real): (Table, bool)
    decreases |keys|
  {
    if keys == [] then (t, false)
    else
      var t' := t.Trim(keys[0], cutoff);
      if |t'.logs| != |t.logs| then (t', true) else Sweep(t', keys[1..], cutoff)
  }

  /** Trims the logs of all `keys`. */
  function TrimAll(t: Table, keys: seq<IP>, cutoff: real): Table
    decreases |keys|
  {
    if keys == [] then t else TrimAll(t.Trim(keys[0], cutoff), keys[1..], cutoff)
  }

  /** A loop over `keys` has reached index `i`, and the logs of the keys from there on are still in the table. */
  ghost predicate Visiting(t: Table, keys: seq<IP>, i: nat) {
    i <= |keys| && t.Valid() && exists pending :: Listing(keys[i..], pending) && pending <= t.logs.Keys
  }

  lemma VisitAll(t: Table, cutoff: real)
    requires t.Valid()
    ensures Visiting(t, t.order, 0)
    ensures Sweep(t, t.order[0..], cutoff) == Sweep(t, t.order, cutoff)
      && TrimAll(t, t.order[0..], cutoff) == TrimAll(t, t.order, cutoff)
  {
    assert t.order[0..] == t.order;
    assert Listing(t.order[0..], t.logs.Keys);
  }

  /** One round of either loop: a sweep stops when the size of the dictionary has changed, a snapshot goes on. */
  lemma VisitNext(t: Table, keys: seq<IP>, i: nat, cutoff: real)
    requires Visiting(t, keys, i) && i < |keys|
    ensures keys[i] in t.logs && t.Valid()
    ensures var t' := t.Trim(keys[i], cutoff);
      && Visiting(t', keys, i + 1)
      && (keys[i] in t'.logs <==> |t'.logs| == |t.logs|)
      && t'.logs.Keys == t.logs.Keys - (if keys[i] in t'.logs then {} else {keys[i]})
      && TrimAll(t, keys[i..], cutoff) == TrimAll(t', keys[i + 1..], cutoff)
      && Sweep(t, keys[i..], cutoff) == if |t'.logs| != |t.logs| then (t', true) else Sweep(t', keys[i + 1..], cutoff)
  {
    hide DropBefore;
    var pending :| Listing(keys[i..], pending) && pending <= t.logs.Keys;
    assert keys[i..][0] == keys[i] && keys[i..][1..] == keys[i + 1..];
    t.TrimSize(keys[i], cutoff);
    t.TrimValid(keys[i], cutoff);
    assert Listing(keys[i + 1..], pending - {keys[i]});
  }

  lemma VisitDone(t: Table, keys: seq<IP>)
    requires Visiting(t, keys, |keys|)
    ensures t.Valid()
  {}

  lemma VisitEnd(t: Table, keys: seq<IP>, cutoff: real)
    ensures TrimAll(t, keys[|keys|..], cutoff) == t && Sweep(t, keys[|keys|..], cutoff) == (t, false)
  {}

  /** Dropping one more key from the smaller of two sets adds it to their difference. */
  lemma GoneNext(all: set<IP>, now: set<IP>, k: IP)
    requires now <= all && k in now
    ensures all - (now - {k}) == (all - now) + {k} && now - {k} <= all
  {}

  /** What sweeping may do to a table: trim logs to what is in the window, delete expired ones. */
  ghost predicate Swept(t: Table, t': Table, cutoff: real) {
    && t'.logs.Keys <= t.logs.Keys
    && forall k :: k in t.logs ==>
      if k in t'.logs then t'.logs[k] == t.logs[k]
        || (!t.Stale(k, cutoff) && t'.logs[k] == DropBefore(t.logs[k], cutoff))
      else t.Stale(k, cutoff)
  }

  lemma {:induction false} DropTwice(log: Log, cutoff: real)
    ensures DropBefore(DropBefore(log, cutoff), cutoff) == DropBefore(log, cutoff)
  {
    if log != [] && log[0] < cutoff {
      DropTwice(log[1..], cutoff);
    }
  }

  lemma SweptTrans(t: Table, k0: IP, t': Table, cutoff: real)
    requires k0 in t.logs && Swept(t.Trim(k0, cutoff), t', cutoff)
    ensures Swept(t, t', cutoff)
  {
    DropTwice(t.logs[k0], cutoff);
    var t1 := t.Trim(k0, cutoff);
    assert forall k :: k in t.logs && k != k0 ==> k in t1.logs && t1.logs[k] == t.logs[k];
  }

  /** A sweep raises exactly when some log has expired, and then it has deleted that one log only. */
  lemma {:induction false} SweepMeaning(t: Table, keys: seq<IP>, visited: set<IP>, cutoff: real)
    requires Listing(keys, visited) && visited <= t.logs.Keys && t.Valid()
    ensures var (t', raised) := Sweep(t, keys, cutoff);
      && Swept(t, t', cutoff) && t'.Valid()
      && (raised <==> exists k :: k in visited && t.Stale(k, cutoff))
      && |t'.logs| == |t.logs| - if raised then 1 else 0
    decreases |keys|
  {
    if keys != [] {
      var k0, t1 := keys[0], t.Trim(keys[0], cutoff);
      t.TrimSize(k0, cutoff);
      t.TrimValid(k0, cutoff);
      if |t1.logs| == |t.logs| {
        assert forall k :: k in visited - {k0} ==> t1.Stale(k, cutoff) == t.Stale(k, cutoff);
        SweepMeaning(t1, keys[1..], visited - {k0}, cutoff);
        SweptTrans(t, k0, Sweep(t, keys, cutoff).0, cutoff);
      } else {
        SweptTrans(t, k0, t1, cutoff);
      }
    }
  }

  /** The same for a sweep over all the keys. */
  lemma SweepWhole(t: Table, cutoff: real)
    requires t.Valid()
    ensures var (t', raised) := Sweep(t, t.order, cutoff);
      && Swept(t, t', cutoff) && t'.Valid()
      && (raised <==> exists k :: k in t.logs.Keys && t.Stale(k, cutoff))
      && |t'.logs| == |t.logs| - if raised then 1 else 0
  {
    SweepMeaning(t, t.order, t.logs.Keys, cutoff);
  }

  /** A whole sweep keeps exactly the logs that have not expired. */
  lemma {:induction false} TrimAllMeaning(t: Table, keys: seq<IP>, visited: set<IP>, cutoff: real)
    requires Listing(keys, visited) && visited <= t.logs.Keys && t.Valid()
    ensures var t' := TrimAll(t, keys, cutoff);
      && Swept(t, t', cutoff) && t'.Valid()
      && forall k :: k in visited ==> (k in t'.logs.Keys <==> !t.Stale(k, cutoff))
    decreases |keys|
  {
    if keys != [] {
      hide DropBefore, Table.Valid;
      var k0, t1 := keys[0], t.Trim(keys[0], cutoff);
      t.TrimSize(k0, cutoff);
      t.TrimValid(k0, cutoff);
      assert forall k :: k in visited - {k0} ==> t1.Get(k) == t.Get(k);
      TrimAllMeaning(t1, keys[1..], visited - {k0}, cutoff);
      SweptTrans(t, k0, TrimAll(t, keys, cutoff), cutoff);
      DropTwice(t.logs[k0], cutoff);
    }
  }

  /** The same for a sweep over all the keys. */
  lemma TrimAllWhole(t: Table, cutoff: real)
    requires t.Valid()
    ensures var t' := TrimAll(t, t.order, cutoff);
      && Swept(t, t', cutoff) && t'.Valid() && t'.logs.Keys <= t.logs.Keys
      && forall k :: k in t.logs.Keys - t'.logs.Keys <==> k in t.logs.Keys && t.Stale(k, cutoff)
  {
    TrimAllMeaning(t, t.order, t.logs.Keys, cutoff);
  }
}
