/** The two concurrent relays of a proxied connection (`gateway/server.py`), one step per await point. */
module Relay {
  import opened Protocols

  const PROXY_BUFFER_SIZE := 65536

  /** A relay loop is about to read, waiting for a written chunk to drain, or finished, as the first of the two or
      not; a chunk that did not drain is written but never counted. */
  datatype Phase = Head | Draining(size: nat) | Ended(uncounted: nat, atEof: bool, first: bool)

  /** One direction: all that its source will ever send, how much of it was read, and what was written. */
  datatype Flow = Flow(source: Bytes, read: nat, phase: Phase)

  datatype Direction = Downstream | Upstream

  datatype Stage = Connecting | SendingInitial | Relaying | Aborted

  /** `down` carries client bytes to the upstream server, `up` carries its answers to the client. */
  datatype Proxy = Proxy(
    initial: Bytes, stage: Stage, down: Flow, up: Flow,
    upstreamWritten: Bytes, clientWritten: Bytes, bytesReceived: nat, bytesSent: nat
  )

  datatype Step =
    | Connect(ok: bool)
    | InitialDrained(ok: bool)
    | Read(direction: Direction, size: nat)
    | Drained(direction: Direction)
    | Eof(direction: Direction)
    | Broken(direction: Direction)

  /** The gateway has read `initial` from the client and counted it; `client` is what the client sends after that. */
  function Begin(initial: Bytes, client: Bytes, server: Bytes): Proxy {
    Proxy(initial, Connecting, Flow(client, 0, Head), Flow(server, 0, Head), [], [], |initial|, 0)
  }

  function FlowOf(p: Proxy, d: Direction): Flow { if d == Downstream then p.down else p.up }

  function Other(d: Direction): Direction { if d == Downstream then Upstream else Downstream }

  /** A relay that ends closes the connection it writes to, which is the one the other relay reads from. */
  predicate SourceClosed(p: Proxy, d: Direction) { FlowOf(p, Other(d)).phase.Ended? }

  /** A read finds end of file when its source has sent everything, or when the other relay has closed that
      connection: what had not arrived by then never will. */
  predicate Enabled(p: Proxy, step: Step) {
    match step
    case Connect(_) => p.stage == Connecting
    case InitialDrained(_) => p.stage == SendingInitial
    case Read(d, size) =>
      && p.stage == Relaying && FlowOf(p, d).phase == Head
      && 0 < size <= PROXY_BUFFER_SIZE && FlowOf(p, d).read + size <= |FlowOf(p, d).source|
    case Drained(d) => p.stage == Relaying && FlowOf(p, d).phase.Draining?
    case Eof(d) =>
      && p.stage == Relaying && FlowOf(p, d).phase == Head
      && (FlowOf(p, d).read == |FlowOf(p, d).source| || SourceClosed(p, d))
    case Broken(d) => p.stage == Relaying && !FlowOf(p, d).phase.Ended?
  }

  function WithFlow(p: Proxy, d: Direction, f: Flow): Proxy { if d == Downstream then p.(down := f) else p.(up := f) }

  function Next(p: Proxy, step: Step): Proxy
    requires Enabled(p, step)
  {
    match step
    case Connect(ok) =>
      if !ok then p.(stage := Aborted)
      else if p.initial == [] then p.(stage := Relaying)
      else p.(stage := SendingInitial, upstreamWritten := p.upstreamWritten + p.initial)
    case InitialDrained(ok) => p.(stage := if ok then Relaying else Aborted)
    case Read(d, size) =>
      var f := FlowOf(p, d);
      var chunk := f.source[f.read..f.read + size];
      var p' := WithFlow(p, d, f.(read := f.read + size, phase := Draining(size)));
      if d == Downstream then p'.(upstreamWritten := p.upstreamWritten + chunk)
        else p'.(clientWritten := p.clientWritten + chunk)
    case Drained(d) =>
      var f := FlowOf(p, d);
      var p' := WithFlow(p, d, f.(phase := Head));
      if d == Downstream then p'.(bytesReceived := p.bytesReceived + f.phase.size)
        else p'.(bytesSent := p.bytesSent + f.phase.size)
    case Eof(d) => WithFlow(p, d, FlowOf(p, d).(phase := Ended(0, true, !SourceClosed(p, d))))
    case Broken(d) => WithFlow(p, d, FlowOf(p, d).(phase := Ended(Uncounted(FlowOf(p, d)), false, !SourceClosed(p, d))))
  }

  /** What is written but not yet counted. */
  function Uncounted(f: Flow): nat {
    match f.phase case Head => 0 case Draining(n) => n case Ended(n, _, _) => n
  }

  predicate Legal(p: Proxy, steps: seq<Step>)
    decreases |steps|
  {
    steps == [] || (Enabled(p, steps[0]) && Legal(Next(p, steps[0]), steps[1..]))
  }

  function Run(p: Proxy, steps: seq<Step>): Proxy
    requires Legal(p, steps)
    decreases |steps|
  {
    if steps == [] then p else Run(Next(p, steps[0]), steps[1..])
  }

  ghost predicate FlowOk(f: Flow) {
    && f.read <= |f.source|
    && Uncounted(f) <= PROXY_BUFFER_SIZE
    && Uncounted(f) <= f.read
    && (f.phase.Ended? && f.phase.atEof ==> Uncounted(f) == 0 && (f.phase.first ==> f.read == |f.source|))
  }

  /** Of the relays that have ended exactly one was the first. */
  ghost predicate OneFirst(p: Proxy) {
    && (p.down.phase.Ended? && p.up.phase.Ended? ==> p.down.phase.first != p.up.phase.first)
    && (p.down.phase.Ended? && !p.up.phase.Ended? ==> p.down.phase.first)
    && (p.up.phase.Ended? && !p.down.phase.Ended? ==> p.up.phase.first)
  }

  /** Transparency and accounting. */
  ghost predicate Transparent(p: Proxy) {
    && FlowOk(p.down) && FlowOk(p.up) && OneFirst(p)
    && (p.stage == Connecting ==> p.upstreamWritten == [] && p.down == Flow(p.down.source, 0, Head))
    && (p.stage == SendingInitial ==> p.upstreamWritten == p.initial && p.down == Flow(p.down.source, 0, Head))
    && (p.stage == Relaying ==> p.upstreamWritten == p.initial + p.down.source[..p.down.read])
    && (p.stage == Aborted ==> p.upstreamWritten <= p.initial && p.down.read == 0)
    && (p.stage != Relaying ==> p.up == Flow(p.up.source, 0, Head))
    && p.clientWritten == p.up.source[..p.up.read]
    && p.bytesReceived + Uncounted(p.down) == |p.initial| + p.down.read
    && p.bytesSent + Uncounted(p.up) == p.up.read
  }

  lemma StartTransparent(p: Proxy, step: Step)
    requires Transparent(p) && Enabled(p, step) && (step.Connect? || step.InitialDrained?)
    ensures Transparent(Next(p, step))
  {
    assert p.initial + p.down.source[..0] == p.initial;
  }

  lemma ReadTransparent(p: Proxy, d: Direction, size: nat)
    requires Transparent(p) && Enabled(p, Read(d, size))
    ensures Transparent(Next(p, Read(d, size)))
  {
    var f := FlowOf(p, d);
    assert f.source[..f.read + size] == f.source[..f.read] + f.source[f.read..f.read + size];
    assert p.initial + f.source[..f.read] + f.source[f.read..f.read + size]
      == p.initial + (f.source[..f.read] + f.source[f.read..f.read + size]);
  }

  lemma OtherTransparent(p: Proxy, step: Step)
    requires Transparent(p) && Enabled(p, step) && (step.Drained? || step.Eof? || step.Broken?)
    ensures Transparent(Next(p, step))
  {}

  lemma NextTransparent(p: Proxy, step: Step)
    requires Transparent(p) && Enabled(p, step)
    ensures Transparent(Next(p, step))
    ensures var p' := Next(p, step);
      p'.initial == p.initial && p'.down.source == p.down.source && p'.up.source == p.up.source
  {
    hide Transparent;
    match step
    case Read(d, size) => ReadTransparent(p, d, size);
    case Connect(_) => StartTransparent(p, step);
    case InitialDrained(_) => StartTransparent(p, step);
    case _ => OtherTransparent(p, step);
  }

  lemma {:induction false} RunTransparent(p: Proxy, steps: seq<Step>)
    requires Transparent(p) && Legal(p, steps)
    ensures var end := Run(p, steps);
      Transparent(end) && end.initial == p.initial && end.down.source == p.down.source && end.up.source == p.up.source
    decreases |steps|
  {
    if steps != [] {
      NextTransparent(p, steps[0]);
      RunTransparent(Next(p, steps[0]), steps[1..]);
    }
  }

  /** Over every interleaving of the two relays: the upstream server has been sent the initial data and then a
      prefix of what the client sends, the client a prefix of what the server sends. A relay that ends at end of
      file while the other is still running has passed on everything. The counters equal the lengths written at
      each loop head and lag by at most one chunk. */
  lemma ProxyTransparency(initial: Bytes, client: Bytes, server: Bytes, steps: seq<Step>)
    requires Legal(Begin(initial, client, server), steps)
    ensures var p := Run(Begin(initial, client, server), steps);
      && OneFirst(p)
      && (p.stage == Relaying ==> initial <= p.upstreamWritten <= initial + client && p.clientWritten <= server)
      && (p.stage == Relaying && p.down.phase.Ended? && p.down.phase.atEof && p.down.phase.first ==>
          p.upstreamWritten == initial + client && p.bytesReceived == |initial| + |client|)
      && (p.stage == Relaying && p.up.phase.Ended? && p.up.phase.atEof && p.up.phase.first ==>
          p.clientWritten == server && p.bytesSent == |server|)
      && (p.stage == Relaying && p.down.phase == Head ==> p.bytesReceived == |p.upstreamWritten|)
      && (p.stage == Relaying && p.up.phase == Head ==> p.bytesSent == |p.clientWritten|)
      && (p.stage == Relaying ==> p.bytesReceived <= |p.upstreamWritten| <= p.bytesReceived + PROXY_BUFFER_SIZE)
      && p.bytesSent <= |p.clientWritten| <= p.bytesSent + PROXY_BUFFER_SIZE
  {
    var start := Begin(initial, client, server);
    RunTransparent(start, steps);
    var p := Run(start, steps);
    assert client[..p.down.read] <= client && server[..p.up.read] <= server;
    assert client[..|client|] == client && server[..|server|] == server;
    if p.stage == Relaying {
      assert (initial + client)[..|initial| + p.down.read] == initial + client[..p.down.read];
    }
  }

  /** If the server is not reached, the proxy ends there and then: nothing is sent to either side. */
  lemma ConnectionRefused(initial: Bytes, client: Bytes, server: Bytes, steps: seq<Step>)
    requires steps != [] && Legal(Begin(initial, client, server), steps)
    ensures steps[0].Connect?
    ensures steps[0] == Connect(false) ==>
      var p := Run(Begin(initial, client, server), steps);
      && |steps| == 1 && p.stage == Aborted && p.upstreamWritten == [] && p.clientWritten == []
      && p.bytesReceived == |initial| && p.bytesSent == 0
  {
    if steps[0] == Connect(false) {
      var refused := Next(Begin(initial, client, server), steps[0]);
      NothingAfterAbort(refused, steps[1..]);
    }
  }

  /** If the connection breaks while the initial data drains, that data is all that was ever written. */
  lemma InitialDataLost(initial: Bytes, client: Bytes, server: Bytes, steps: seq<Step>)
    requires |steps| >= 2 && Legal(Begin(initial, client, server), steps) && steps[1] == InitialDrained(false)
    ensures var p := Run(Begin(initial, client, server), steps);
      && |steps| == 2 && p.stage == Aborted && p.upstreamWritten == initial && p.clientWritten == []
      && p.bytesReceived == |initial| && p.bytesSent == 0
  {
    var sending := Next(Begin(initial, client, server), steps[0]);
    assert Legal(sending, steps[1..]) && steps[1..][0] == steps[1];
    var lost := Next(sending, steps[1]);
    assert Run(Begin(initial, client, server), steps) == Run(sending, steps[1..]) == Run(lost, steps[1..][1..]);
    NothingAfterAbort(lost, steps[1..][1..]);
  }

  lemma NothingAfterAbort(p: Proxy, steps: seq<Step>)
    requires p.stage == Aborted && Legal(p, steps)
    ensures steps == [] && Run(p, steps) == p
  {}

  /** One read passes on up to 64 KiB, and no more. */
  lemma ChunkSize(p: Proxy, d: Direction, size: nat)
    requires p.stage == Relaying && FlowOf(p, d).phase == Head && FlowOf(p, d).read + size <= |FlowOf(p, d).source|
    ensures Enabled(p, Read(d, size)) <==> 0 < size <= 65536
  {}

  lemma {:induction false} RunConcat(p: Proxy, a: seq<Step>, b: seq<Step>)
    requires Legal(p, a) && Legal(Run(p, a), b)
    ensures Legal(p, a + b) && Run(p, a + b) == Run(Run(p, a), b)
    decreases |a|
  {
    hide Enabled, Next;
    if a == [] {
      assert a + b == b;
    } else {
      assert (a + b)[1..] == a[1..] + b;
      RunConcat(Next(p, a[0]), a[1..], b);
    }
  }

  lemma RunOne(p: Proxy, step: Step)
    requires Enabled(p, step)
    ensures Legal(p, [step]) && Run(p, [step]) == Next(p, step)
  {
    assert [step][1..] == [];
  }

  /** The relays start once the server is reached and the initial data has drained. */
  lemma Establish(initial: Bytes, client: Bytes, server: Bytes) returns (steps: seq<Step>)
    ensures Legal(Begin(initial, client, server), steps)
    ensures var p := Run(Begin(initial, client, server), steps);
      p.stage == Relaying && p.down == Flow(client, 0, Head) && p.up == Flow(server, 0, Head)
  {
    var start := Begin(initial, client, server);
    RunOne(start, Connect(true));
    steps := [Connect(true)];
    if initial != [] {
      var sending := Next(start, Connect(true));
      RunOne(sending, InitialDrained(true));
      RunConcat(start, steps, [InitialDrained(true)]);
      steps := steps + [InitialDrained(true)];
    }
  }

  /** A running relay can pass on the next `n` bytes while the other stands still. */
  lemma {:induction false} Pump(p: Proxy, d: Direction, n: nat) returns (steps: seq<Step>)
    requires p.stage == Relaying && FlowOf(p, d).phase == Head && FlowOf(p, d).read + n <= |FlowOf(p, d).source|
    ensures Legal(p, steps) && Run(p, steps).stage == Relaying
    ensures FlowOf(Run(p, steps), d) == FlowOf(p, d).(read := FlowOf(p, d).read + n)
    ensures FlowOf(Run(p, steps), Other(d)) == FlowOf(p, Other(d))
  {
    steps := [];
    if n > 0 {
      steps := Pump(p, d, n - 1);
      var q := Run(p, steps);
      RunOne(q, Read(d, 1));
      RunOne(Next(q, Read(d, 1)), Drained(d));
      RunConcat(q, [Read(d, 1)], [Drained(d)]);
      RunConcat(p, steps, [Read(d, 1)] + [Drained(d)]);
      steps := steps + ([Read(d, 1)] + [Drained(d)]);
    }
  }

  /** A half-close cuts the other direction short: whichever side ends its stream first, the relay of the other
      direction may end at end of file with any part of its stream passed on, and the rest is lost. */
  lemma HalfCloseCutsShort(initial: Bytes, client: Bytes, server: Bytes, first: Direction, n: nat)
    requires n <= if first == Downstream then |server| else |client|
    ensures exists steps ::
      Legal(Begin(initial, client, server), steps)
      && CutShort(Run(Begin(initial, client, server), steps), initial, client, server, first, n)
  {
    hide Legal, Run, Enabled, Next, Transparent;
    var start := Begin(initial, client, server);
    var steps := Establish(initial, client, server);
    var p := Run(start, steps);
    var all := Pump(p, first, |FlowOf(p, first).source|);
    var some := Pump(Run(p, all), Other(first), n);
    RunConcat(p, all, some);
    RunConcat(start, steps, all + some);
    var q := Run(Run(p, all), some);
    BothEnd(q, first);
    RunConcat(start, steps + (all + some), [Eof(first)] + [Eof(Other(first))]);
    var whole := steps + (all + some) + ([Eof(first)] + [Eof(Other(first))]);
    BeginTransparent(initial, client, server);
    RunTransparent(start, whole);
    ReadOffTransparent(Run(start, whole));
    assert client[..|client|] == client && server[..|server|] == server;
    assert CutShort(Run(start, whole), initial, client, server, first, n);
  }

  /** Both relays have ended at end of file, `first` before the other; that direction is complete, and of the other
      only `n` bytes were passed on. */
  ghost predicate CutShort(p: Proxy, initial: Bytes, client: Bytes, server: Bytes, first: Direction, n: nat) {
    && p.stage == Relaying
    && FlowOf(p, first).phase == Ended(0, true, true) && FlowOf(p, Other(first)).phase == Ended(0, true, false)
    && (if first == Downstream
        then n <= |server| && p.upstreamWritten == initial + client && p.clientWritten == server[..n]
        else n <= |client| && p.upstreamWritten == initial + client[..n] && p.clientWritten == server)
  }

  lemma BeginTransparent(initial: Bytes, client: Bytes, server: Bytes)
    ensures Transparent(Begin(initial, client, server))
  {}

  lemma ReadOffTransparent(p: Proxy)
    requires Transparent(p) && p.stage == Relaying
    ensures p.down.read <= |p.down.source| && p.up.read <= |p.up.source|
    ensures p.upstreamWritten == p.initial + p.down.source[..p.down.read] && p.clientWritten == p.up.source[..p.up.read]
  {}

  /** The relay whose source is exhausted ends, and closes the connection that the other reads from. */
  lemma BothEnd(p: Proxy, first: Direction)
    requires p.stage == Relaying && p.down.phase == Head && p.up.phase == Head
    requires FlowOf(p, first).read == |FlowOf(p, first).source|
    ensures Legal(p, [Eof(first)] + [Eof(Other(first))])
    ensures var end := Run(p, [Eof(first)] + [Eof(Other(first))]);
      && end.stage == Relaying
      && FlowOf(end, first) == FlowOf(p, first).(phase := Ended(0, true, true))
      && FlowOf(end, Other(first)) == FlowOf(p, Other(first)).(phase := Ended(0, true, false))
  {
    RunOne(p, Eof(first));
    RunOne(Next(p, Eof(first)), Eof(Other(first)));
    RunConcat(p, [Eof(first)], [Eof(Other(first))]);
  }
}
