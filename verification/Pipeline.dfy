/** From publishing an event to its line on disk (`app.py`): the collector with its one consumer, which writes
    each event to the JSONL storage. An event stands for its encoded line. */
module Pipeline {
  import opened Collector
  import opened JsonlStorage
  import opened TextLines

  datatype Pipe = Pipe(collector: State<string>, journal: Journal, today: Day)

  /** `Store` is the consumer at work: it writes the event it holds and settles it. Writing never suspends,
      so it is one step; it fails when a due flush cannot open its file. */
  datatype Move = Queue(step: Step<string>) | Store(now: real, day: Day, stamp: real, opens: bool)

  function Begin(capacity: int, now: real): Pipe { Pipe(Start(capacity, 1), Journal([], now, map[]), 0) }

  /** Shutdown cancels the consumer once `join` has returned or timed out. It finds the consumer between two events,
      since writing one never suspends. */
  predicate Allowed(p: Pipe, m: Move) {
    match m
    case Queue(step) =>
      && Enabled(p.collector, step) && !step.Settle?
      && (step.Cancel? ==> !p.collector.workers[step.k].Holding?)
    case Store(_, day, _, _) => Enabled(p.collector, Settle(0, false)) && p.today <= day
  }

  function After(p: Pipe, interval: int, m: Move): Pipe
    requires Allowed(p, m)
  {
    match m
    case Queue(step) => p.(collector := Next(p.collector, step))
    case Store(now, day, stamp, opens) =>
      Pipe(Next(p.collector, Settle(0, !opens)),
        Written(p.journal, p.collector.workers[0].event, now, interval, day, stamp, opens), day)
  }

  predicate LegalMoves(p: Pipe, interval: int, moves: seq<Move>)
    decreases |moves|
  {
    moves == [] || (Allowed(p, moves[0]) && LegalMoves(After(p, interval, moves[0]), interval, moves[1..]))
  }

  function RunMoves(p: Pipe, interval: int, moves: seq<Move>): Pipe
    requires LegalMoves(p, interval, moves)
    decreases |moves|
  {
    if moves == [] then p else RunMoves(After(p, interval, moves[0]), interval, moves[1..])
  }

  /** The storage has been given exactly what its consumer settled, in that order. */
  ghost predicate InStep(p: Pipe) {
    && Conserved(p.collector)
    && |p.collector.workers| == 1
    && Accounts(p.journal, p.collector.settled[0], p.today)
  }

  lemma BeginInStep(capacity: int, now: real)
    ensures InStep(Begin(capacity, now))
  {
    StartConserved<string>(capacity, 1);
  }

  lemma HoldingIsUnfinished(s: State<string>)
    requires Conserved(s) && |s.workers| == 1 && s.unfinished == 0
    ensures !s.workers[0].Holding?
  {}

  lemma MoveInStep(p: Pipe, interval: int, m: Move)
    requires InStep(p) && Allowed(p, m)
    ensures InStep(After(p, interval, m))
  {
    hide Accounts, Written;
    match m
    case Queue(step) =>
      StepConserves(p.collector, step);
    case Store(now, day, stamp, opens) =>
      StepConserves(p.collector, Settle(0, !opens));
      WriteAccounts(p.journal, p.collector.settled[0], p.today, p.collector.workers[0].event, now, interval, day,
        stamp, opens);
  }

  lemma {:induction false} RunInStep(p: Pipe, interval: int, moves: seq<Move>)
    requires InStep(p) && LegalMoves(p, interval, moves)
    ensures InStep(RunMoves(p, interval, moves))
    decreases |moves|
  {
    if moves != [] {
      MoveInStep(p, interval, moves[0]);
      RunInStep(After(p, interval, moves[0]), interval, moves[1..]);
    }
  }

  function OfferedIn(moves: seq<Move>): seq<string> {
    if moves == [] then []
    else (if moves[0].Queue? && moves[0].step.Publish? then [moves[0].step.event] else []) + OfferedIn(moves[1..])
  }

  lemma {:induction false} AllPublished(p: Pipe, interval: int, moves: seq<Move>)
    requires LegalMoves(p, interval, moves)
    ensures RunMoves(p, interval, moves).collector.published == p.collector.published + OfferedIn(moves)
    decreases |moves|
  {
    hide Written;
    if moves != [] {
      AllPublished(After(p, interval, moves[0]), interval, moves[1..]);
    }
  }

  /** In every reachable state the files in date order, then the buffer, then the event in hand, then the queue,
      are exactly the published events in publish order: nothing is lost, repeated or reordered, even when
      flushes fail. */
  lemma NothingLost(capacity: int, start: real, interval: int, moves: seq<Move>)
    requires LegalMoves(Begin(capacity, start), interval, moves)
    ensures var p := RunMoves(Begin(capacity, start), interval, moves);
      && |p.collector.workers| == 1
      && p.collector.published == OfferedIn(moves)
      && p.collector.published
         == OnDisk(p.journal.files, p.today + 1) + p.journal.buffer + InHand(p.collector.workers[0]) + p.collector.queue
  {
    hide Conserved;
    AllPublished(Begin(capacity, start), interval, moves);
    BeginInStep(capacity, start);
    RunInStep(Begin(capacity, start), interval, moves);
    SingleConsumerInOrder(RunMoves(Begin(capacity, start), interval, moves).collector);
  }

  /** Exactly once: when `join` has returned and the final flush succeeds, the files concatenated in date order
      are all the published events in publish order, as lines and, in a new directory, as text. Closing the storage
      changes nothing more. */
  lemma PublishedToDisk(
    capacity: int, start: real, interval: int, moves: seq<Move>, day: Day, stamp: real, closed: real
  )
    requires LegalMoves(Begin(capacity, start), interval, moves)
    requires var p := RunMoves(Begin(capacity, start), interval, moves); p.collector.unfinished == 0 && p.today <= day
    ensures var p := RunMoves(Begin(capacity, start), interval, moves);
      var flushed := Flushed(p.journal, day, stamp, true);
      && OnDisk(flushed.files, day + 1) == p.collector.published
      && |p.collector.published| == p.collector.total
      && (forall texts :: Renders(texts, map[], flushed.files) ==>
        DiskText(texts, day + 1) == Unlines(p.collector.published))
      && Flushed(flushed, day, closed, true) == flushed
  {
    hide Renders, DiskText, Unlines;
    BeginInStep(capacity, start);
    RunInStep(Begin(capacity, start), interval, moves);
    FlushedToDisk(RunMoves(Begin(capacity, start), interval, moves), day, stamp, closed);
  }

  lemma FlushedToDisk(p: Pipe, day: Day, stamp: real, closed: real)
    requires InStep(p) && p.collector.unfinished == 0 && p.today <= day
    ensures var flushed := Flushed(p.journal, day, stamp, true);
      && OnDisk(flushed.files, day + 1) == p.collector.published
      && |p.collector.published| == p.collector.total
      && (forall texts :: Renders(texts, map[], flushed.files) ==>
        DiskText(texts, day + 1) == Unlines(p.collector.published))
      && Flushed(flushed, day, closed, true) == flushed
  {
    hide Renders, DiskText, Unlines;
    SingleConsumerInOrder(p.collector);
    HoldingIsUnfinished(p.collector);
    FlushAccounts(p.journal, p.collector.settled[0], p.today, day, stamp, true);
    var files := Flushed(p.journal, day, stamp, true).files;
    forall texts | Renders(texts, map[], files) ensures DiskText(texts, day + 1) == Unlines(OnDisk(files, day + 1)) {
      DiskTextIsUnlines(texts, files, day + 1);
    }
  }

  /** A store that is due and whose file opens puts on disk everything settled, its own event last. */
  lemma DueStoreReachesDisk(
    capacity: int, start: real, interval: int, moves: seq<Move>, now: real, day: Day, stamp: real
  )
    requires LegalMoves(Begin(capacity, start), interval, moves)
    requires var p := RunMoves(Begin(capacity, start), interval, moves);
      Allowed(p, Store(now, day, stamp, true)) && now - p.journal.lastFlush >= interval as real
    ensures var p := RunMoves(Begin(capacity, start), interval, moves);
      var p' := After(p, interval, Store(now, day, stamp, true));
      && p'.journal.buffer == [] && p'.journal.lastFlush == stamp
      && OnDisk(p'.journal.files, day + 1) == p'.collector.settled[0]
      && p'.collector.settled[0] == p.collector.settled[0] + [p.collector.workers[0].event]
      && OnDisk(p'.journal.files, day + 1) + p'.collector.queue == p'.collector.published
  {
    hide Accounts, Written, OnDisk;
    BeginInStep(capacity, start);
    RunInStep(Begin(capacity, start), interval, moves);
    var p := RunMoves(Begin(capacity, start), interval, moves);
    var m := Store(now, day, stamp, true);
    MoveInStep(p, interval, m);
    DueWriteReachesDisk(p.journal, p.collector.settled[0], p.today, p.collector.workers[0].event, now, interval, day,
      stamp);
    SingleConsumerInOrder(After(p, interval, m).collector);
  }

  /** When the consumer holds no event, as when it has ended by itself or shutdown has cancelled it after `join` timed
      out, the final flush leaves behind exactly what is still queued. So everything published is on disk if and
      only if the queue is empty. */
  lemma LostIsQueued(capacity: int, start: real, interval: int, moves: seq<Move>, day: Day, stamp: real)
    requires LegalMoves(Begin(capacity, start), interval, moves)
    requires var p := RunMoves(Begin(capacity, start), interval, moves);
      p.today <= day && |p.collector.workers| == 1 && !p.collector.workers[0].Holding?
    ensures var p := RunMoves(Begin(capacity, start), interval, moves);
      var disk := OnDisk(Flushed(p.journal, day, stamp, true).files, day + 1);
      && disk + p.collector.queue == p.collector.published
      && (disk == p.collector.published <==> p.collector.queue == [])
  {
    var p := RunMoves(Begin(capacity, start), interval, moves);
    BeginInStep(capacity, start);
    RunInStep(Begin(capacity, start), interval, moves);
    SingleConsumerInOrder(p.collector);
    FlushAccounts(p.journal, p.collector.settled[0], p.today, day, stamp, true);
    var disk := OnDisk(Flushed(p.journal, day, stamp, true).files, day + 1);
    assert |disk + p.collector.queue| == |disk| + |p.collector.queue|;
  }

  /** A shutdown whose `join` times out before the consumer has taken an event loses that event. */
  lemma TimedOutShutdown(capacity: int, start: real, interval: int, e: string, day: Day, stamp: real)
    ensures var moves := [Queue(Publish(e)), Queue(Stop), Queue(Cancel(0))];
      && LegalMoves(Begin(capacity, start), interval, moves)
      && var p := RunMoves(Begin(capacity, start), interval, moves);
        p.collector.published == [e] && OnDisk(Flushed(p.journal, day, stamp, true).files, day + 1) == []
  {
    var moves := [Queue(Publish(e)), Queue(Stop), Queue(Cancel(0))];
    var p0 := Begin(capacity, start);
    var p1 := After(p0, interval, moves[0]);
    var p2 := After(p1, interval, moves[1]);
    assert Allowed(p2, moves[2]);
    var p3 := After(p2, interval, moves[2]);
    assert moves[1..][1..] == moves[2..] && moves[2..][1..] == [];
    assert LegalMoves(p2, interval, moves[2..]) && RunMoves(p2, interval, moves[2..]) == p3;
    assert LegalMoves(p1, interval, moves[1..]) && RunMoves(p1, interval, moves[1..]) == p3;
    LostIsQueued(capacity, start, interval, moves, day, stamp);
  }

  /** The step that a move is for the collector. */
  function StepOf(m: Move): Step<string> {
    match m case Queue(step) => step case Store(_, _, _, opens) => Settle(0, !opens)
  }

  function StepsOf(moves: seq<Move>): seq<Step<string>> {
    if moves == [] then [] else [StepOf(moves[0])] + StepsOf(moves[1..])
  }

  /** The consumer loop at work after shutdown began. */
  predicate Finishing(p: Pipe, m: Move) { Allowed(p, m) && Draining(p.collector, StepOf(m)) }

  predicate FinishingRun(p: Pipe, interval: int, moves: seq<Move>)
    decreases |moves|
  {
    moves == [] || (Finishing(p, moves[0]) && FinishingRun(After(p, interval, moves[0]), interval, moves[1..]))
  }

  lemma {:induction false} FinishingDrains(p: Pipe, interval: int, moves: seq<Move>)
    requires FinishingRun(p, interval, moves)
    ensures LegalMoves(p, interval, moves) && |StepsOf(moves)| == |moves|
    ensures DrainingRun(p.collector, StepsOf(moves)) && Legal(p.collector, StepsOf(moves))
    ensures RunMoves(p, interval, moves).collector == Run(p.collector, StepsOf(moves))
    decreases |moves|
  {
    hide Written;
    if moves != [] {
      var p' := After(p, interval, moves[0]);
      FinishingDrains(p', interval, moves[1..]);
      assert p'.collector == Next(p.collector, StepOf(moves[0]));
      assert StepsOf(moves)[0] == StepOf(moves[0]) && StepsOf(moves)[1..] == StepsOf(moves[1..]);
    }
  }

  /** Whatever step the collector could take, the pipeline has a move for. */
  lemma FinishedMeansStuck(p: Pipe)
    requires |p.collector.workers| == 1 && forall m :: !Finishing(p, m)
    ensures forall step :: !Draining(p.collector, step)
  {
    forall step | Draining(p.collector, step) ensures false {
      if step.Settle? {
        assert Finishing(p, Store(0.0, p.today, 0.0, !step.failed));
      } else {
        assert Finishing(p, Queue(step));
      }
    }
  }

  /** Shutdown after any run: the consumer loop takes a bounded number of steps, and where it can go no further all
      events are settled, so `join` returns and the final flush puts exactly the published events on disk. */
  lemma ShutdownToDisk(
    capacity: int, start: real, interval: int, moves: seq<Move>, finishing: seq<Move>, day: Day, stamp: real,
    closed: real
  )
    requires LegalMoves(Begin(capacity, start), interval, moves)
    requires RunMoves(Begin(capacity, start), interval, moves).collector.running
    requires FinishingRun(After(RunMoves(Begin(capacity, start), interval, moves), interval, Queue(Stop)),
                          interval, finishing)
    ensures var stopped := After(RunMoves(Begin(capacity, start), interval, moves), interval, Queue(Stop));
      && LegalMoves(stopped, interval, finishing) && |finishing| <= WorkLeft(stopped.collector)
      && var p := RunMoves(stopped, interval, finishing);
        (forall m :: !Finishing(p, m)) && p.today <= day ==>
          && Drained(p.collector) && p.collector.published == stopped.collector.published
          && OnDisk(Flushed(p.journal, day, stamp, true).files, day + 1) == stopped.collector.published
  {
    hide InStep, Conserved, DrainingRun, FinishingRun, Legal, LegalMoves, Run, RunMoves, Drained, WorkLeft, OnDisk;
    hide Flushed, Renders;
    hide Finishing, Draining, DoneMeansEmpty, Attended;
    var begun := Begin(capacity, start);
    BeginInStep(capacity, start);
    RunInStep(begun, interval, moves);
    var reached := RunMoves(begun, interval, moves);
    MoveInStep(reached, interval, Queue(Stop));
    var stopped := After(reached, interval, Queue(Stop));
    FinishingDrains(stopped, interval, finishing);
    RunInStep(stopped, interval, finishing);
    var p := RunMoves(stopped, interval, finishing);
    BeginAttended(capacity, start);
    MovesAttended(begun, interval, moves);
    StoppedIsReady(reached, interval);
    DrainingDrains(stopped.collector, StepsOf(finishing));
    LoneConsumer(p);
    if (forall m :: !Finishing(p, m)) && p.today <= day {
      FinishedMeansStuck(p);
      DrainedIsSettled(p.collector);
      FlushedToDisk(p, day, stamp, closed);
    }
  }

  lemma BeginAttended(capacity: int, start: real)
    ensures Attended(Begin(capacity, start).collector)
  {}

  lemma LoneConsumer(p: Pipe)
    requires InStep(p)
    ensures |p.collector.workers| == 1
  {}

  lemma DrainedIsSettled(s: State<string>)
    requires Drained(s)
    ensures s.unfinished == 0
  {}

  lemma {:induction false} MovesAttended(p: Pipe, interval: int, moves: seq<Move>)
    requires Attended(p.collector) && LegalMoves(p, interval, moves)
    ensures Attended(RunMoves(p, interval, moves).collector)
    decreases |moves|
  {
    hide Written;
    if moves != [] {
      var p' := After(p, interval, moves[0]);
      assert p'.collector == Next(p.collector, StepOf(moves[0]));
      assert Attended(p'.collector);
      MovesAttended(p', interval, moves[1..]);
    }
  }

  lemma StoppedIsReady(p: Pipe, interval: int)
    requires InStep(p) && p.collector.running && Attended(p.collector)
    ensures var s := After(p, interval, Queue(Stop)).collector;
      Conserved(s) && !s.running && DoneMeansEmpty(s) && |s.workers| == 1
  {
    StepConserves(p.collector, Stop);
  }
}
