/** The bounded event queue and its consumer loops (`aggregator/collector.py`), one step per await point.

    `asyncio` runs one task at a time between awaits, so every segment of code between two awaits is one
    atomic step; any interleaving of publishers, consumer loops and shutdown is a sequence of these steps. */
module Collector {

  /** Where a consumer loop is: about to test its loop condition, waiting for an event, running its consumer
      on one, or finished. */
  datatype Worker<E> = Head | Waiting | Holding(event: E) | Done

  /** `published`, `taken` and `settled` record the run: what was accepted by the queue, which worker took
      what, and what each worker has marked done. */
  datatype State<E> = State(
    capacity: int,
    queue: seq<E>,
    total: nat,
    unfinished: int,
    running: bool,
    workers: seq<Worker<E>>,
    published: seq<E>,
    taken: seq<(nat, E)>,
    settled: seq<seq<E>>
  )

  datatype Step<E> =
    | Publish(event: E)
    | Enter(k: nat)
    | Get(k: nat)
    | Timeout(k: nat)
    | Settle(k: nat, failed: bool)
    | Stop
    | Cancel(k: nat)

  function Start<E>(capacity: int, consumers: nat): State<E> {
    State(capacity, [], 0, 0, true, seq(consumers, _ => Head), [], [], seq(consumers, _ => []))
  }

  /** A positive capacity blocks publishers while the queue is full; otherwise the queue is unbounded. */
  predicate HasRoom<E>(s: State<E>) { s.capacity <= 0 || |s.queue| < s.capacity }

  predicate Enabled<E>(s: State<E>, step: Step<E>) {
    match step
    case Publish(_) => HasRoom(s)
    case Enter(k) => k < |s.workers| && s.workers[k].Head?
    case Get(k) => k < |s.workers| && s.workers[k].Waiting? && s.queue != []
    case Timeout(k) => k < |s.workers| && s.workers[k].Waiting?
    case Settle(k, _) => k < |s.workers| && k < |s.settled| && s.workers[k].Holding?
    case Stop => true
    case Cancel(k) => k < |s.workers| && k < |s.settled| && !s.running
  }

  function Next<E>(s: State<E>, step: Step<E>): State<E>
    requires Enabled(s, step)
  {
    match step
    case Publish(e) =>
      s.(queue := s.queue + [e], total := s.total + 1, unfinished := s.unfinished + 1, published := s.published + [e])
    case Enter(k) =>
      s.(workers := s.workers[k := if s.running || s.queue != [] then Waiting else Done])
    case Get(k) =>
      s.(queue := s.queue[1..], workers := s.workers[k := Holding(s.queue[0])], taken := s.taken + [(k, s.queue[0])])
    case Timeout(k) =>
      s.(workers := s.workers[k := if !s.running && s.queue == [] then Done else Head])
    case Settle(k, _) =>
      SettleAs(s, k, Head)
    case Stop =>
      s.(running := false)
    case Cancel(k) =>
      if s.workers[k].Holding? then SettleAs(s, k, Done) else s.(workers := s.workers[k := Done])
  }

  /** The `finally` of the consumer loop: the event is marked done, whether the consumer succeeded, failed or
      was cancelled. */
  function SettleAs<E>(s: State<E>, k: nat, after: Worker<E>): State<E>
    requires k < |s.workers| && k < |s.settled| && s.workers[k].Holding?
  {
    s.(workers := s.workers[k := after], unfinished := s.unfinished - 1,
      settled := s.settled[k := s.settled[k] + [s.workers[k].event]])
  }

  predicate Legal<E>(s: State<E>, steps: seq<Step<E>>)
    decreases |steps|
  {
    steps == [] || (Enabled(s, steps[0]) && Legal(Next(s, steps[0]), steps[1..]))
  }

  function Run<E>(s: State<E>, steps: seq<Step<E>>): State<E>
    requires Legal(s, steps)
    decreases |steps|
  {
    if steps == [] then s else Run(Next(s, steps[0]), steps[1..])
  }

  function InHand<E>(w: Worker<E>): seq<E> { if w.Holding? then [w.event] else [] }

  /** The events in the hands of consumers. */
  function Held<E>(workers: seq<Worker<E>>): nat {
    if workers == [] then 0 else |InHand(workers[0])| + Held(workers[1..])
  }

  function Lengths<E>(settled: seq<seq<E>>): nat {
    if settled == [] then 0 else |settled[0]| + Lengths(settled[1..])
  }

  function Events<E>(taken: seq<(nat, E)>): seq<E> {
    if taken == [] then [] else Events(taken[..|taken| - 1]) + [taken[|taken| - 1].1]
  }

  /** What worker `k` took, in order. */
  function TakenBy<E>(taken: seq<(nat, E)>, k: nat): seq<E> {
    if taken == [] then []
    else TakenBy(taken[..|taken| - 1], k) + if taken[|taken| - 1].0 == k then [taken[|taken| - 1].1] else []
  }

  /** What holds in every reachable state. */
  ghost predicate Conserved<E>(s: State<E>) {
    && |s.settled| == |s.workers|
    && s.total == |s.published|
    && s.published == Events(s.taken) + s.queue
    && s.unfinished == |s.queue| + Held(s.workers)
    && s.total == |s.queue| + Held(s.workers) + Lengths(s.settled)
    && (s.capacity > 0 ==> |s.queue| <= s.capacity)
    && (forall k :: 0 <= k < |s.workers| ==> TakenBy(s.taken, k) == s.settled[k] + InHand(s.workers[k]))
    && (forall i :: 0 <= i < |s.taken| ==> s.taken[i].0 < |s.workers|)
  }

  lemma {:induction false} HeldUpdate<E>(workers: seq<Worker<E>>, k: nat, w: Worker<E>)
    requires k < |workers|
    ensures Held(workers[k := w]) == Held(workers) - |InHand(workers[k])| + |InHand(w)|
  {
    if k > 0 {
      HeldUpdate(workers[1..], k - 1, w);
      assert workers[k := w][1..] == workers[1..][k - 1 := w];
    } else {
      assert workers[k := w][1..] == workers[1..];
    }
  }

  lemma {:induction false} LengthsUpdate<E>(settled: seq<seq<E>>, k: nat, e: E)
    requires k < |settled|
    ensures Lengths(settled[k := settled[k] + [e]]) == Lengths(settled) + 1
  {
    var after := settled[k := settled[k] + [e]];
    if k > 0 {
      LengthsUpdate(settled[1..], k - 1, e);
      assert after[1..] == settled[1..][k - 1 := settled[k] + [e]];
    } else {
      assert after[1..] == settled[1..];
    }
  }

  lemma TakenAppend<E>(taken: seq<(nat, E)>, k: nat, e: E, j: nat)
    ensures Events(taken + [(k, e)]) == Events(taken) + [e]
    ensures TakenBy(taken + [(k, e)], j) == TakenBy(taken, j) + if j == k then [e] else []
  {
    assert (taken + [(k, e)])[..|taken|] == taken;
  }

  lemma {:induction false} StartConserved<E>(capacity: int, consumers: nat)
    ensures Conserved(Start<E>(capacity, consumers))
  {
    var s := Start<E>(capacity, consumers);
    NothingHeld(s.workers, s.settled);
  }

  lemma {:induction false} NothingHeld<E>(workers: seq<Worker<E>>, settled: seq<seq<E>>)
    requires forall k :: 0 <= k < |workers| ==> workers[k].Head?
    requires forall k :: 0 <= k < |settled| ==> settled[k] == []
    ensures Held(workers) == 0 && Lengths(settled) == 0
    decreases |workers| + |settled|
  {
    if workers != [] {
      NothingHeld(workers[1..], settled);
    } else if settled != [] {
      NothingHeld(workers, settled[1..]);
    }
  }

  /** Every step keeps the bookkeeping exact. */
  lemma StepConserves<E>(s: State<E>, step: Step<E>)
    requires Conserved(s) && Enabled(s, step)
    ensures Conserved(Next(s, step))
  {
    hide Conserved, SettleAs;
    match step
    case Publish(e) => PublishConserves(s, e);
    case Enter(k) => MoveConserves(s, k, Next(s, step).workers[k]);
    case Get(k) => GetConserves(s, k);
    case Timeout(k) => MoveConserves(s, k, Next(s, step).workers[k]);
    case Settle(k, _) => SettleConserves(s, k, Head);
    case Stop => StopConserves(s);
    case Cancel(k) =>
      if s.workers[k].Holding? {
        SettleConserves(s, k, Done);
      } else {
        MoveConserves(s, k, Done);
      }
  }

  lemma PublishConserves<E>(s: State<E>, e: E)
    requires Conserved(s) && HasRoom(s)
    ensures Conserved(Next(s, Publish(e)))
  {
    assert Events(s.taken) + (s.queue + [e]) == Events(s.taken) + s.queue + [e];
  }

  lemma StopConserves<E>(s: State<E>)
    requires Conserved(s)
    ensures Conserved(s.(running := false))
  {}

  lemma MoveConserves<E>(s: State<E>, k: nat, w: Worker<E>)
    requires Conserved(s) && k < |s.workers| && !s.workers[k].Holding? && !w.Holding?
    ensures Conserved(s.(workers := s.workers[k := w]))
  {
    HeldUpdate(s.workers, k, w);
  }

  lemma GetConserves<E>(s: State<E>, k: nat)
    requires Conserved(s) && Enabled(s, Get(k))
    ensures Conserved(Next(s, Get(k)))
  {
    hide Held, Lengths, Events, TakenBy;
    var e, s' := s.queue[0], Next(s, Get(k));
    HeldUpdate(s.workers, k, Holding(e));
    TakenAppend(s.taken, k, e, k);
    assert Events(s.taken) + s.queue == Events(s.taken) + [e] + s.queue[1..];
    forall j | 0 <= j < |s.workers| ensures TakenBy(s'.taken, j) == s.settled[j] + InHand(s'.workers[j]) {
      TakenAppend(s.taken, k, e, j);
    }
  }

  lemma SettleConserves<E>(s: State<E>, k: nat, after: Worker<E>)
    requires Conserved(s) && k < |s.workers| && s.workers[k].Holding? && !after.Holding?
    ensures Conserved(SettleAs(s, k, after))
  {
    HeldUpdate(s.workers, k, after);
    LengthsUpdate(s.settled, k, s.workers[k].event);
  }

  /** Conservation in every interleaving: each accepted event is queued, in one consumer's hands or settled,
      exactly once, and events are taken in the order they were accepted. */
  lemma {:induction false} RunConserves<E>(s: State<E>, steps: seq<Step<E>>)
    requires Conserved(s) && Legal(s, steps)
    ensures Conserved(Run(s, steps))
    decreases |steps|
  {
    if steps != [] {
      StepConserves(s, steps[0]);
      RunConserves(Next(s, steps[0]), steps[1..]);
    }
  }

  /** The events that publishers offered over a run. */
  function Offered<E>(steps: seq<Step<E>>): seq<E> {
    if steps == [] then [] else (if steps[0].Publish? then [steps[0].event] else []) + Offered(steps[1..])
  }

  /** Every event offered is published, once and in order. */
  lemma {:induction false} OfferedIsPublished<E>(s: State<E>, steps: seq<Step<E>>)
    requires Legal(s, steps)
    ensures Run(s, steps).published == s.published + Offered(steps) && Run(s, steps).capacity == s.capacity
    decreases |steps|
  {
    if steps != [] {
      OfferedIsPublished(Next(s, steps[0]), steps[1..]);
    }
  }

  /** After any run a publisher has to wait exactly when the capacity is positive and the queue holds that many
      events, and it can go on as soon as one of them is taken. */
  lemma PublisherWaits<E>(capacity: int, consumers: nat, steps: seq<Step<E>>, e: E, k: nat)
    requires Legal(Start(capacity, consumers), steps)
    ensures var s := Run(Start(capacity, consumers), steps);
      && (!Enabled(s, Publish(e)) <==> capacity > 0 && |s.queue| == capacity)
      && (Enabled(s, Get(k)) ==> Enabled(Next(s, Get(k)), Publish(e)))
  {
    hide Held, Lengths, Events, TakenBy;
    StartConserved<E>(capacity, consumers);
    RunConserves(Start(capacity, consumers), steps);
    OfferedIsPublished(Start(capacity, consumers), steps);
  }

  /** Besides being cancelled, a loop ends exactly when it looks at an empty queue after shutdown began: at the head
      of the loop or after a wait that timed out. It never ends with an event in its hands. */
  lemma LoopEnds<E>(s: State<E>, step: Step<E>, k: nat)
    requires Enabled(s, step) && !step.Cancel? && k < |s.workers| && !s.workers[k].Done?
    ensures Next(s, step).workers[k].Done? <==>
      (step == Enter(k) || step == Timeout(k)) && !s.running && s.queue == []
  {}

  lemma {:induction false} LoneWorker<E>(taken: seq<(nat, E)>)
    requires forall i :: 0 <= i < |taken| ==> taken[i].0 == 0
    ensures TakenBy(taken, 0) == Events(taken)
  {
    if taken != [] {
      LoneWorker(taken[..|taken| - 1]);
    }
  }

  /** With one consumer, what it has settled, holds and has yet to take is everything published, in order. */
  lemma SingleConsumerInOrder<E>(s: State<E>)
    requires Conserved(s) && |s.workers| == 1
    ensures s.published == s.settled[0] + InHand(s.workers[0]) + s.queue
  {
    LoneWorker(s.taken);
  }

  /** The work left: three for each queued event, less the further a worker is through its loop. */
  function Effort<E>(w: Worker<E>): nat { match w case Done => 0 case Waiting => 1 case Head => 2 case Holding(_) => 3 }

  function Efforts<E>(workers: seq<Worker<E>>): nat {
    if workers == [] then 0 else Effort(workers[0]) + Efforts(workers[1..])
  }

  function WorkLeft<E>(s: State<E>): nat { 3 * |s.queue| + Efforts(s.workers) }

  lemma {:induction false} EffortsUpdate<E>(workers: seq<Worker<E>>, k: nat, w: Worker<E>)
    requires k < |workers|
    ensures Efforts(workers[k := w]) == Efforts(workers) - Effort(workers[k]) + Effort(w)
  {
    if k > 0 {
      EffortsUpdate(workers[1..], k - 1, w);
      assert workers[k := w][1..] == workers[1..][k - 1 := w];
    } else {
      assert workers[k := w][1..] == workers[1..];
    }
  }

  /** A step of a consumer loop after shutdown began. A wait only times out while there is nothing to get. */
  predicate Draining<E>(s: State<E>, step: Step<E>) {
    && !s.running
    && Enabled(s, step)
    && (step.Enter? || step.Get? || step.Settle? || (step.Timeout? && s.queue == []))
  }

  /** Each such step makes progress, and while a loop has not finished one of them can be taken, so once
      running is false and nobody publishes every consumer loop ends, within `WorkLeft` steps. */
  lemma DrainingProgress<E>(s: State<E>, step: Step<E>)
    requires Draining(s, step)
    ensures !Next(s, step).running && WorkLeft(Next(s, step)) < WorkLeft(s)
  {
    EffortsUpdate(s.workers, step.k, Next(s, step).workers[step.k]);
  }

  lemma DrainingPossible<E>(s: State<E>, k: nat)
    requires Conserved(s) && !s.running && k < |s.workers| && !s.workers[k].Done?
    ensures exists step :: Draining(s, step)
  {
    match s.workers[k]
    case Head => assert Draining(s, Enter(k));
    case Waiting => assert Draining(s, if s.queue == [] then Timeout(k) else Get(k));
    case Holding(_) => assert Draining(s, Settle(k, false));
  }

  predicate DrainingRun<E>(s: State<E>, steps: seq<Step<E>>)
    decreases |steps|
  {
    steps == [] || (Draining(s, steps[0]) && DrainingRun(Next(s, steps[0]), steps[1..]))
  }

  /** A loop that ends by itself leaves nothing behind. */
  ghost predicate DoneMeansEmpty<E>(s: State<E>) {
    forall k :: 0 <= k < |s.workers| && s.workers[k].Done? ==> s.queue == []
  }

  /** No loop ends before shutdown has begun. */
  ghost predicate Attended<E>(s: State<E>) {
    s.running ==> forall k :: 0 <= k < |s.workers| ==> !s.workers[k].Done?
  }

  lemma {:induction false} RunAttended<E>(s: State<E>, steps: seq<Step<E>>)
    requires Attended(s) && Legal(s, steps)
    ensures Attended(Run(s, steps))
    ensures |Run(s, steps).workers| == |s.workers|
    decreases |steps|
  {
    if steps != [] {
      assert Attended(Next(s, steps[0]));
      RunAttended(Next(s, steps[0]), steps[1..]);
    }
  }

  /** The loops have ended, the queue is empty, and every event ever published has been settled. */
  ghost predicate Drained<E>(s: State<E>) {
    && (forall k :: 0 <= k < |s.workers| ==> s.workers[k].Done?)
    && s.queue == [] && Lengths(s.settled) == s.total && s.unfinished == 0
  }

  /** From a state in which a loop has only ended on an empty queue, every run of the loops is at most `WorkLeft`
      steps long, and when it can go no further everything is drained. */
  lemma {:induction false} DrainingDrains<E>(s: State<E>, steps: seq<Step<E>>)
    requires Conserved(s) && !s.running && DoneMeansEmpty(s) && |s.workers| > 0 && DrainingRun(s, steps)
    ensures Legal(s, steps) && |steps| <= WorkLeft(s)
    ensures var end := Run(s, steps);
      end.published == s.published && ((forall step :: !Draining(end, step)) ==> Drained(end))
    decreases |steps|
  {
    if steps == [] {
      if forall step :: !Draining(s, step) {
        forall k | 0 <= k < |s.workers| ensures s.workers[k].Done? {
          if !s.workers[k].Done? {
            DrainingPossible(s, k);
          }
        }
        assert s.workers[0].Done?;
        AllDone(s.workers);
      }
    } else {
      DrainingProgress(s, steps[0]);
      StepConserves(s, steps[0]);
      DrainingDrains(Next(s, steps[0]), steps[1..]);
    }
  }

  /** The state in which shutdown begins, after any run of publishers and loops. */
  lemma StopReady<E>(capacity: int, consumers: nat, steps: seq<Step<E>>)
    requires Legal(Start(capacity, consumers), steps) && Run(Start(capacity, consumers), steps).running
    ensures var s := Next(Run(Start(capacity, consumers), steps), Stop);
      Conserved(s) && !s.running && DoneMeansEmpty(s) && |s.workers| == consumers
  {
    hide Conserved;
    var start := Start<E>(capacity, consumers);
    StartConserved<E>(capacity, consumers);
    RunConserves(start, steps);
    RunAttended(start, steps);
    StepConserves(Run(start, steps), Stop);
  }

  /** Shutdown after any run: once running is false and nobody publishes, the loops take a bounded number of steps,
      and where they can go no further all of them have ended and every published event is settled. */
  lemma ShutdownDrains<E>(capacity: int, consumers: nat, steps: seq<Step<E>>, draining: seq<Step<E>>)
    requires consumers > 0 && Legal(Start(capacity, consumers), steps) && Run(Start(capacity, consumers), steps).running
    requires DrainingRun(Next(Run(Start(capacity, consumers), steps), Stop), draining)
    ensures var stopped := Next(Run(Start(capacity, consumers), steps), Stop);
      && Legal(stopped, draining) && |draining| <= WorkLeft(stopped)
      && var end := Run(stopped, draining);
        end.published == stopped.published && ((forall step :: !Draining(end, step)) ==> Drained(end))
  {
    hide Conserved, Attended, Drained, DoneMeansEmpty, WorkLeft, Draining, DrainingRun, Legal, Run, Start;
    StopReady(capacity, consumers, steps);
    DrainingDrains(Next(Run(Start(capacity, consumers), steps), Stop), draining);
  }

  lemma {:induction false} AllDone<E>(workers: seq<Worker<E>>)
    requires forall k :: 0 <= k < |workers| ==> workers[k].Done?
    ensures Held(workers) == 0
  {
    if workers != [] {
      AllDone(workers[1..]);
    }
  }
}
