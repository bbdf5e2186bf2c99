/**
 * Producer, ring buffer, loop and engine as one interleaved system. The loop's queue accesses are the protocol's
 * steps; the producer and a thread that requests a stop may move between any two of them.
 */
module Pipeline {
  import opened Model
  import opened Engine
  import opened SpscProtocol

  const BATCH: nat := 64

  /** Where the matching thread is in `run`, with the number of commands consumed by the current batch. */
  datatype Loop =
    | TestStop
    | Polling(consumed: nat)
    | Popping(consumed: nat)
    | Dispatching(consumed: nat, command: Command)
    | Reporting(consumed: nat, report: Report)
    | EndOfBatch(consumed: nat)
    | Stopped

  datatype System = System(
    queue: State<Command>, books: Shelf, loop: Loop,
    log: seq<Report>, processed: nat, idleSpins: nat, stopRequested: bool)

  datatype Move =
    | Produce(step: Step<Command>)
    | RequestStop
    | Test
    | Poll
    | Pop(step: Step<Command>)
    | RunDispatch
    | Report
    | Finish

  ghost predicate Start(y: System, books: Shelf) {
    && Init(y.queue) && y.books == books && y.loop == TestStop
    && y.log == [] && y.processed == 0 && y.idleSpins == 0 && !y.stopRequested
  }

  /** `pop` runs LoadTail (if needed), StartRead, FinishRead and PublishHead, in the order of its program counter. */
  ghost predicate Possible(y: System, m: Move) {
    && y.queue.capacity >= 1
    && match m
       case Produce(step) => IsProducerStep(step) && Enabled(y.queue, step)
       case RequestStop => true
       case Test => y.loop.TestStop?
       case Poll => y.loop.Polling? && Enabled(y.queue, CallConsumer(Request.Pop))
       case Pop(step) =>
         && y.loop.Popping? && Enabled(y.queue, step)
         && (step.LoadTail? || step.StartRead? || step.FinishRead? || step.PublishHead?)
       case RunDispatch => y.loop.Dispatching?
       case Report => y.loop.Reporting?
       case Finish => y.loop.EndOfBatch?
  }

  /** A pop has returned once the consumer is outside the queue again: with a command, or without. */
  ghost function AfterPop(y: System, step: Step<Command>): Loop
    requires y.loop.Popping? && y.queue.capacity >= 1 && Enabled(y.queue, step)
  {
    var consumed := y.loop.consumed;
    if step.PublishHead? && y.queue.consumer.taken.Popped? && y.queue.consumer.taken.cell.Holding? then
      Dispatching(consumed, y.queue.consumer.taken.cell.value)
    else if Apply(y.queue, step).consumer.Idle? then EndOfBatch(consumed)
    else y.loop
  }

  ghost function Do(y: System, m: Move): System
    requires Possible(y, m)
  {
    match m
    case Produce(step) => y.(queue := Apply(y.queue, step))
    case RequestStop => y.(stopRequested := true)
    case Test => y.(loop := if y.stopRequested then Stopped else Polling(0))
    case Poll =>
      if y.loop.consumed < BATCH
      then y.(queue := Apply(y.queue, CallConsumer(Request.Pop)), loop := Popping(y.loop.consumed))
      else y.(loop := EndOfBatch(y.loop.consumed))
    case Pop(step) => y.(queue := Apply(y.queue, step), loop := AfterPop(y, step))
    case RunDispatch =>
      var d := Dispatch(y.books, y.loop.command);
      y.(books := d.books, loop := Reporting(y.loop.consumed, d.report))
    case Report =>
      y.(log := y.log + [y.loop.report], processed := y.processed + 1, loop := Polling(y.loop.consumed + 1))
    case Finish =>
      y.(idleSpins := y.idleSpins + (if y.loop.consumed == 0 then 1 else 0), loop := TestStop)
  }

  // ---------- The invariant ----------

  /** The commands that have left the queue. */
  ghost function Taken(y: System): seq<Command> {
    var q := y.queue;
    if |q.removals| <= |q.pushed| then q.pushed[..|q.removals|] else []
  }

  ghost function InFlight(y: System): nat {
    if y.loop.Dispatching? || y.loop.Reporting? then 1 else 0
  }

  /** The loop only pops, and it is inside the queue exactly while it is popping. */
  ghost predicate Consuming(y: System) {
    && (y.loop.Popping? <==> !y.queue.consumer.Idle?)
    && (y.queue.consumer.ReloadTail? ==> y.queue.consumer.request.Pop?)
    && (y.queue.consumer.StoreHead? ==> y.queue.consumer.taken.Popped?)
    && !y.queue.consumer.StoreCleared?
    && (forall i :: 0 <= i < |y.queue.removals| ==> y.queue.removals[i].Popped?)
  }

  /** Books and log are those of a sequential run over the commands taken; one of them may be under way. */
  ghost predicate Sequential(y: System, books: Shelf) {
    var taken := Taken(y);
    && |taken| == |y.queue.removals| == |y.log| + InFlight(y)
    && y.processed == |y.log|
    && match y.loop
       case Dispatching(_, command) =>
         && command == taken[|taken| - 1]
         && y.books == RunEngine(books, taken[..|taken| - 1])
         && y.log == EngineReports(books, taken[..|taken| - 1])
       case Reporting(_, report) =>
         && y.books == RunEngine(books, taken)
         && y.log + [report] == EngineReports(books, taken)
       case _ =>
         && y.books == RunEngine(books, taken)
         && y.log == EngineReports(books, taken)
  }

  ghost predicate Sane(y: System, books: Shelf) {
    Inv(y.queue) && Consuming(y) && Sequential(y, books)
  }

  lemma StartIsSane(y: System, books: Shelf)
    requires Start(y, books)
    ensures Sane(y, books)
  {
    InitIsInv(y.queue);
  }

  lemma ProduceKeepsSane(y: System, step: Step<Command>, books: Shelf)
    requires Sane(y, books) && Possible(y, Produce(step))
    ensures Sane(Do(y, Produce(step)), books)
  {
    hide RunEngine, EngineReports;
    ProducerStepKeepsInv(y.queue, step);
    assert Taken(Do(y, Produce(step))) == Taken(y);
  }

  lemma PopKeepsConsuming(y: System, step: Step<Command>)
    requires Inv(y.queue) && Consuming(y) && Possible(y, Move.Pop(step))
    ensures Consuming(Do(y, Move.Pop(step)))
  {
    hide Stored, ProducerReady, InOrder, Write;
  }

  lemma PopKeepsSequential(y: System, step: Step<Command>, books: Shelf)
    requires Sane(y, books) && Possible(y, Move.Pop(step))
    ensures Sequential(Do(y, Move.Pop(step)), books)
  {
    hide RunEngine, EngineReports, Stored, ProducerReady, InOrder, Write;
    var after := Do(y, Move.Pop(step));
    if step.PublishHead? {
      assert Taken(after)[..|Taken(y)|] == Taken(y);
    } else {
      assert Taken(after) == Taken(y);
    }
  }

  lemma PopKeepsSane(y: System, step: Step<Command>, books: Shelf)
    requires Sane(y, books) && Possible(y, Move.Pop(step))
    ensures Sane(Do(y, Move.Pop(step)), books)
  {
    hide Inv, Consuming, Sequential, Apply, Enabled, AfterPop;
    ConsumerStepKeepsInv(y.queue, step);
    PopKeepsConsuming(y, step);
    PopKeepsSequential(y, step, books);
  }

  lemma DispatchKeepsSane(y: System, books: Shelf)
    requires Sane(y, books) && Possible(y, RunDispatch)
    ensures Sane(Do(y, RunDispatch), books)
  {
    hide Inv, Dispatch;
    var taken := Taken(y);
    assert Taken(Do(y, RunDispatch)) == taken;
  }

  lemma OtherKeepsSane(y: System, m: Move, books: Shelf)
    requires Sane(y, books) && Possible(y, m)
    requires m.RequestStop? || m.Test? || m.Poll? || m.Report? || m.Finish?
    ensures Sane(Do(y, m), books)
  {
    hide RunEngine, EngineReports, Stored, ProducerReady, Write;
    if m.Poll? {
      ConsumerStepKeepsInv(y.queue, CallConsumer(Request.Pop));
    }
  }

  lemma MoveKeepsSane(y: System, m: Move, books: Shelf)
    requires Sane(y, books) && Possible(y, m)
    ensures Sane(Do(y, m), books)
  {
    hide Sane, Do, Possible;
    match m
    case Produce(step) => ProduceKeepsSane(y, step, books);
    case Pop(step) => PopKeepsSane(y, step, books);
    case RunDispatch => DispatchKeepsSane(y, books);
    case _ => OtherKeepsSane(y, m, books);
  }

  // ---------- Whole runs ----------

  ghost predicate Behaves(y: System, ms: seq<Move>)
    decreases |ms|
  {
    ms == [] || (Possible(y, ms[0]) && Behaves(Do(y, ms[0]), ms[1..]))
  }

  ghost function End(y: System, ms: seq<Move>): System
    requires Behaves(y, ms)
    decreases |ms|
  {
    if ms == [] then y else End(Do(y, ms[0]), ms[1..])
  }

  lemma {:induction false} RunIsSane(y: System, ms: seq<Move>, books: Shelf)
    requires Sane(y, books) && Behaves(y, ms)
    ensures Sane(End(y, ms), books)
    decreases |ms|
  {
    hide Sane, Do, Possible;
    if ms != [] {
      MoveKeepsSane(y, ms[0], books);
      RunIsSane(Do(y, ms[0]), ms[1..], books);
    }
  }

  /**
   * Under every interleaving the commands pushed are those reported, then at most one in flight, then those
   * queued; and the reports, the books and what is in flight are those of a sequential run, whatever the batches.
   */
  lemma PipelineIsSequential(y: System, ms: seq<Move>, books: Shelf)
    requires Start(y, books) && Behaves(y, ms)
    ensures var z := End(y, ms);
      && |z.log| + InFlight(z) == |z.queue.removals| <= |z.queue.pushed|
      && z.processed == |z.log|
      && z.log == EngineReports(books, z.queue.pushed[..|z.log|])
      && match z.loop
         case Dispatching(_, command) =>
           command == z.queue.pushed[|z.log|] && z.books == RunEngine(books, z.queue.pushed[..|z.log|])
         case Reporting(_, report) =>
           && z.log + [report] == EngineReports(books, z.queue.pushed[..|z.log| + 1])
           && z.books == RunEngine(books, z.queue.pushed[..|z.log| + 1])
         case _ => z.books == RunEngine(books, z.queue.pushed[..|z.log|])
  {
    hide RunEngine, EngineReports, Start, Behaves, End, Inv, Consuming;
    StartIsSane(y, books);
    RunIsSane(y, ms, books);
    TakenIsPrefix(End(y, ms), books);
  }

  lemma TakenIsPrefix(z: System, books: Shelf)
    requires Sane(z, books)
    ensures |z.log| + InFlight(z) == |z.queue.removals| <= |z.queue.pushed|
    ensures Taken(z) == z.queue.pushed[..|z.log| + InFlight(z)]
    ensures InFlight(z) == 1 ==> Taken(z)[..|z.log|] == z.queue.pushed[..|z.log|]
    ensures z.log == EngineReports(books, z.queue.pushed[..|z.log|])
  {
    hide RunEngine, EngineReports;
    var taken := Taken(z);
    if z.loop.Reporting? {
      LogOfPrefix(books, taken, z.log, z.loop.report);
    }
    if InFlight(z) == 1 {
      assert taken[..|z.log|] == z.queue.pushed[..|z.log|];
    }
  }

  lemma LogOfPrefix(books: Shelf, cs: seq<Command>, log: seq<Report>, report: Report)
    requires log + [report] == EngineReports(books, cs)
    ensures cs != [] && log == EngineReports(books, cs[..|cs| - 1])
  {
    assert log == (log + [report])[..|log|];
  }

  lemma {:induction false} ReportsOfPrefix(books: Shelf, cs: seq<Command>, k: nat)
    requires k <= |cs|
    ensures |EngineReports(books, cs)| == |cs|
    ensures EngineReports(books, cs)[..k] == EngineReports(books, cs[..k])
  {
    ReportsAnswer(books, cs);
    if k < |cs| {
      ReportsOfPrefix(books, cs[..|cs| - 1], k);
      assert cs[..|cs| - 1][..k] == cs[..k];
    } else {
      assert cs[..k] == cs;
    }
  }

  /** Two runs, however interleaved, stopped or batched, that were fed consistently have consistent logs. */
  lemma LogsAreDeterministic(y: System, ms: seq<Move>, ns: seq<Move>, books: Shelf)
    requires Start(y, books) && Behaves(y, ms) && Behaves(y, ns)
    requires End(y, ms).queue.pushed <= End(y, ns).queue.pushed
    ensures var a, b := End(y, ms).log, End(y, ns).log; if |a| <= |b| then a <= b else b <= a
  {
    hide Start, Behaves, End, EngineReports;
    PipelineIsSequential(y, ms, books);
    PipelineIsSequential(y, ns, books);
    var a, b := End(y, ms), End(y, ns);
    var shorter := if |a.log| <= |b.log| then |a.log| else |b.log|;
    ReportsOfPrefix(books, a.queue.pushed[..|a.log|], shorter);
    ReportsOfPrefix(books, b.queue.pushed[..|b.log|], shorter);
    assert a.queue.pushed[..|a.log|][..shorter] == b.queue.pushed[..|b.log|][..shorter];
  }

  // ---------- The queue inside the system ----------

  /** What the producer thread does in a run. */
  function ProducerPart(ms: seq<Move>): seq<Step<Command>> {
    if ms == [] then []
    else (if ms[0].Produce? then [ms[0].step] else []) + ProducerPart(ms[1..])
  }

  function OnlyProducer(steps: seq<Step<Command>>): seq<Step<Command>> {
    if steps == [] then []
    else (if IsProducerStep(steps[0]) then [steps[0]] else []) + OnlyProducer(steps[1..])
  }

  /** The step of the protocol that a move makes, if it makes one. */
  lemma MoveIsStep(y: System, m: Move) returns (steps: seq<Step<Command>>)
    requires Possible(y, m)
    ensures Legal(y.queue, steps) && After(y.queue, steps) == Do(y, m).queue
    ensures |steps| <= 1 && OnlyProducer(steps) == (if m.Produce? then [m.step] else [])
  {
    hide Apply, Enabled, Dispatch, AfterPop;
    steps := match m
      case Produce(step) => [step]
      case Poll => if y.loop.consumed < BATCH then [CallConsumer(Request.Pop)] else []
      case Pop(step) => [step]
      case _ => [];
  }

  /**
   * In the system the queue runs the protocol: every run is an interleaving of its steps in which the producer makes
   * just those steps that the run has for it. So what holds of all interleavings holds of the queue here.
   */
  lemma {:induction false} QueueRunsProtocol(y: System, ms: seq<Move>) returns (steps: seq<Step<Command>>)
    requires Behaves(y, ms)
    ensures Legal(y.queue, steps) && After(y.queue, steps) == End(y, ms).queue
    ensures OnlyProducer(steps) == ProducerPart(ms)
    decreases |ms|
  {
    hide Apply, Enabled, Possible, Do;
    if ms == [] {
      steps := [];
    } else {
      var first := MoveIsStep(y, ms[0]);
      var rest := QueueRunsProtocol(Do(y, ms[0]), ms[1..]);
      if first == [] {
        steps := rest;
      } else {
        steps := first + rest;
        assert first == [first[0]] && first[1..] == [];
        assert steps[0] == first[0] && steps[1..] == rest;
        assert After(Apply(y.queue, first[0]), first[1..]) == Apply(y.queue, first[0]);
      }
    }
  }

  // ---------- After a stop request ----------

  /** Batches are bounded: a batch that goes on has consumed less than its size. */
  ghost predicate WithinBatch(y: System) {
    match y.loop
    case Polling(consumed) => consumed <= BATCH
    case Popping(consumed) => consumed < BATCH
    case Dispatching(consumed, _) => consumed < BATCH
    case Reporting(consumed, _) => consumed < BATCH
    case _ => true
  }

  /** How many reports the current batch can still add. */
  function LeftInBatch(loop: Loop): nat {
    var consumed := match loop
      case Polling(consumed) => consumed
      case Popping(consumed) => consumed
      case Dispatching(consumed, _) => consumed
      case Reporting(consumed, _) => consumed
      case _ => BATCH;
    if consumed < BATCH then BATCH - consumed else 0
  }

  /** A move of the matching thread itself. */
  predicate IsLoopMove(m: Move) {
    !m.Produce? && !m.RequestStop?
  }

  function LoopMoves(ms: seq<Move>): nat {
    if ms == [] then 0 else (if IsLoopMove(ms[0]) then 1 else 0) + LoopMoves(ms[1..])
  }

  /** How many own moves the loop may still take once a stop is requested: at most seven for each command. */
  function MovesLeft(loop: Loop, consumer: Consumer<Command>): int {
    match loop
    case Stopped => 0
    case TestStop => 1
    case EndOfBatch(_) => 2
    case Polling(_) => 7 * LeftInBatch(loop) + 3
    case Popping(_) => 7 * LeftInBatch(loop) - 2 + ConsumerSteps(consumer)
    case Dispatching(_, _) => 7 * LeftInBatch(loop) - 2
    case Reporting(_, _) => 7 * LeftInBatch(loop) - 3
  }

  lemma MovesLeftIsBounded(y: System)
    requires WithinBatch(y)
    ensures 0 <= MovesLeft(y.loop, y.queue.consumer) <= 7 * BATCH + 3
    ensures MovesLeft(y.loop, y.queue.consumer) == 0 <==> y.loop.Stopped?
  {
  }

  lemma MoveStaysWithinBatch(y: System, m: Move)
    requires WithinBatch(y) && Possible(y, m)
    ensures WithinBatch(Do(y, m))
    ensures y.stopRequested ==> Do(y, m).stopRequested
  {
    hide Apply, Enabled, Dispatch;
  }

  /** Once a stop is requested every own move brings the loop closer to its end. */
  lemma MoveAfterStop(y: System, m: Move)
    requires Inv(y.queue) && Consuming(y) && WithinBatch(y) && y.stopRequested && Possible(y, m)
    ensures var z := Do(y, m);
      && |z.log| + LeftInBatch(z.loop) <= |y.log| + LeftInBatch(y.loop)
      && MovesLeft(z.loop, z.queue.consumer) + (if IsLoopMove(m) then 1 else 0) <= MovesLeft(y.loop, y.queue.consumer)
  {
    hide Inv, Dispatch;
    match m
    case Produce(step) => CallsAreWaitFree(y.queue, step);
    case Pop(step) => CallsAreWaitFree(y.queue, step);
    case _ =>
  }

  /** The loop can always move until it has stopped. */
  lemma LoopCanMove(y: System)
    requires Inv(y.queue) && Consuming(y)
    ensures y.loop.Stopped? || exists m :: IsLoopMove(m) && Possible(y, m)
  {
    if !y.loop.Stopped? {
      var m := match y.loop
        case TestStop => Test
        case Polling(_) => Poll
        case Popping(_) => Move.Pop(NextOfPop(y.queue))
        case Dispatching(_, _) => RunDispatch
        case Reporting(_, _) => Move.Report
        case _ => Finish;
      assert IsLoopMove(m) && Possible(y, m);
    }
  }

  /** The step that a pop under way takes next. */
  function NextOfPop(s: State<Command>): Step<Command> {
    match s.consumer
    case ReloadTail(_) => LoadTail(s.addedSeen)
    case BeginRead => StartRead
    case EndRead(_) => FinishRead
    case _ => PublishHead
  }

  lemma {:induction false} RunStaysWithinBatch(y: System, ms: seq<Move>)
    requires WithinBatch(y) && Behaves(y, ms)
    ensures WithinBatch(End(y, ms))
    decreases |ms|
  {
    hide WithinBatch, Do, Possible;
    if ms != [] {
      MoveStaysWithinBatch(y, ms[0]);
      RunStaysWithinBatch(Do(y, ms[0]), ms[1..]);
    }
  }

  lemma {:induction false} RunAfterStop(y: System, ms: seq<Move>, books: Shelf)
    requires Sane(y, books) && WithinBatch(y) && y.stopRequested && Behaves(y, ms)
    ensures var z := End(y, ms);
      && |z.log| + LeftInBatch(z.loop) <= |y.log| + LeftInBatch(y.loop)
      && MovesLeft(z.loop, z.queue.consumer) + LoopMoves(ms) <= MovesLeft(y.loop, y.queue.consumer)
      && z.stopRequested
    decreases |ms|
  {
    hide Inv, Consuming, Sequential, WithinBatch, Do, Possible, LeftInBatch, MovesLeft, IsLoopMove;
    if ms != [] {
      MoveStaysWithinBatch(y, ms[0]);
      MoveAfterStop(y, ms[0]);
      MoveKeepsSane(y, ms[0], books);
      RunAfterStop(Do(y, ms[0]), ms[1..], books);
    }
  }

  /**
   * A stop request takes effect within the batch: from then on, whatever the producer does, at most what is left of
   * the batch is still reported, never more than one batch, and the loop stops after a bounded number of own moves,
   * one of which is always possible until then.
   */
  lemma StopTakesEffect(y: System, before: seq<Move>, after: seq<Move>, books: Shelf)
    requires Start(y, books) && Behaves(y, before)
    requires End(y, before).stopRequested && Behaves(End(y, before), after)
    ensures var atStop := End(y, before);
      var z := End(atStop, after);
      && |z.log| <= |atStop.log| + LeftInBatch(atStop.loop) <= |atStop.log| + BATCH
      && LoopMoves(after) <= MovesLeft(atStop.loop, atStop.queue.consumer) <= 7 * BATCH + 3
      && (LoopMoves(after) == MovesLeft(atStop.loop, atStop.queue.consumer) ==> z.loop.Stopped?)
      && (z.loop.Stopped? || exists m :: IsLoopMove(m) && Possible(z, m))
  {
    hide Inv, Consuming, Sequential, Do, Possible, MovesLeft, LoopMoves, Behaves, End;
    var atStop := End(y, before);
    StartIsSane(y, books);
    RunIsSane(y, before, books);
    RunStaysWithinBatch(y, before);
    RunAfterStop(atStop, after, books);
    RunIsSane(atStop, after, books);
    RunStaysWithinBatch(atStop, after);
    MovesLeftIsBounded(atStop);
    MovesLeftIsBounded(End(atStop, after));
    LoopCanMove(End(atStop, after));
  }

  // ---------- Until a stop request ----------

  /** Only a stop request sets the flag, and nothing clears it. */
  lemma {:induction false} StopIsRequestedIff(y: System, ms: seq<Move>)
    requires Behaves(y, ms)
    ensures End(y, ms).stopRequested <==> y.stopRequested || RequestStop in ms
    decreases |ms|
  {
    hide Possible;
    if ms != [] {
      StopIsRequestedIff(Do(y, ms[0]), ms[1..]);
      assert ms == [ms[0]] + ms[1..];
    }
  }

  lemma {:induction false} StoppedIsRequested(y: System, ms: seq<Move>)
    requires y.loop.Stopped? ==> y.stopRequested
    requires Behaves(y, ms)
    ensures End(y, ms).loop.Stopped? ==> End(y, ms).stopRequested
    decreases |ms|
  {
    hide Apply, Enabled, Dispatch;
    if ms != [] {
      StoppedIsRequested(Do(y, ms[0]), ms[1..]);
    }
  }

  /**
   * The loop never ends on its own: it has stopped only if a stop was requested, and as long as none was it can move.
   * A stop may be requested at any time.
   */
  lemma LoopGoesOn(y: System, ms: seq<Move>, books: Shelf)
    requires Start(y, books) && Behaves(y, ms)
    ensures var z := End(y, ms);
      && (z.loop.Stopped? ==> RequestStop in ms)
      && (RequestStop !in ms ==> exists m :: IsLoopMove(m) && Possible(z, m))
      && Possible(z, RequestStop)
      && (forall step :: IsProducerStep(step) && Enabled(z.queue, step) ==> Possible(z, Produce(step)))
      && (z.loop.Popping? && z.queue.consumer.ReloadTail? ==> Possible(z, Move.Pop(LoadTail(|z.queue.pushed|))))
  {
    hide Apply, Enabled, Dispatch, Sequential, Do, Behaves, End;
    StartIsSane(y, books);
    RunIsSane(y, ms, books);
    StopIsRequestedIff(y, ms);
    StoppedIsRequested(y, ms);
    LoopCanMove(End(y, ms));
    CallsCanBegin(End(y, ms).queue, Request.Pop);
  }

  // ---------- Progress ----------

  /** How many own moves may pass before the next report, if every pop finds a command. */
  function MovesToReport(loop: Loop, consumer: Consumer<Command>): nat {
    match loop
    case Stopped => 0
    case Reporting(_, _) => 1
    case Dispatching(_, _) => 2
    case Popping(_) => 2 + ConsumerSteps(consumer)
    case Polling(consumed) => if consumed < BATCH then 7 else 10
    case TestStop => 8
    case EndOfBatch(_) => 9
  }

  /** Every load of the tail finds a command that is still queued. */
  ghost predicate AlwaysFed(y: System, ms: seq<Move>)
    requires Behaves(y, ms)
    decreases |ms|
  {
    ms != [] ==>
      && (ms[0].Pop? && ms[0].step.LoadTail? ==> ms[0].step.observed > |y.queue.removals|)
      && AlwaysFed(Do(y, ms[0]), ms[1..])
  }

  /** Each own move reports, or brings the next report closer. */
  lemma MoveTowardsReport(y: System, m: Move)
    requires Inv(y.queue) && Consuming(y) && !y.stopRequested && !y.loop.Stopped?
    requires Possible(y, m) && !m.RequestStop?
    requires m.Pop? && m.step.LoadTail? ==> m.step.observed > |y.queue.removals|
    ensures var z := Do(y, m);
      && !z.loop.Stopped? && !z.stopRequested && |z.log| >= |y.log|
      && (|z.log| == |y.log| ==>
            MovesToReport(z.loop, z.queue.consumer) + (if IsLoopMove(m) then 1 else 0)
              <= MovesToReport(y.loop, y.queue.consumer))
  {
    hide Dispatch, Stored, ProducerReady;
    match m
    case Produce(step) => CallsAreWaitFree(y.queue, step);
    case Pop(step) =>
      CallsAreWaitFree(y.queue, step);
      if step.LoadTail? { ConsumerFailsIff(y.queue, Request.Pop, step.observed); }
    case _ =>
  }

  lemma {:induction false} RunReports(y: System, ms: seq<Move>, books: Shelf)
    requires Sane(y, books) && !y.stopRequested && !y.loop.Stopped? && Behaves(y, ms)
    requires RequestStop !in ms && AlwaysFed(y, ms)
    ensures |End(y, ms).log| >= |y.log|
    ensures LoopMoves(ms) >= MovesToReport(y.loop, y.queue.consumer) ==> |End(y, ms).log| > |y.log|
    decreases |ms|
  {
    hide Inv, Consuming, Sequential, Do, Possible, MovesToReport, IsLoopMove;
    if ms != [] {
      assert ms[0] in ms && ms[0] != RequestStop;
      MoveTowardsReport(y, ms[0]);
      MoveKeepsSane(y, ms[0], books);
      RunReports(Do(y, ms[0]), ms[1..], books);
    } else {
      ReportIsAhead(y);
    }
  }

  lemma ReportIsAhead(y: System)
    requires !y.loop.Stopped?
    ensures 1 <= MovesToReport(y.loop, y.queue.consumer) <= 10
  {
  }

  /**
   * Commands are not left lying: while no stop is requested and every load of the tail finds a command, ten own moves
   * of the loop are enough for another report, whatever the producer does.
   */
  lemma FedLoopReports(y: System, before: seq<Move>, ms: seq<Move>, books: Shelf)
    requires Start(y, books) && Behaves(y, before) && Behaves(End(y, before), ms)
    requires RequestStop !in before && RequestStop !in ms && AlwaysFed(End(y, before), ms)
    requires LoopMoves(ms) >= 10
    ensures |End(End(y, before), ms).log| > |End(y, before).log|
  {
    hide Sane, Do, Possible, MovesToReport, LoopMoves, Behaves, End, AlwaysFed;
    StartIsSane(y, books);
    RunIsSane(y, before, books);
    StopIsRequestedIff(y, before);
    StoppedIsRequested(y, before);
    ReportIsAhead(End(y, before));
    RunReports(End(y, before), ms, books);
  }

  // ---------- Batches ----------

  /** What a batch that began as `z` has come to. */
  ghost predicate InBatch(z: System, y: System) {
    match y.loop
    case Polling(consumed) => |y.log| == |z.log| + consumed && y.idleSpins == z.idleSpins && consumed <= BATCH
    case Popping(consumed) => |y.log| == |z.log| + consumed && y.idleSpins == z.idleSpins && consumed < BATCH
    case Dispatching(consumed, _) => |y.log| == |z.log| + consumed && y.idleSpins == z.idleSpins && consumed < BATCH
    case Reporting(consumed, _) => |y.log| == |z.log| + consumed && y.idleSpins == z.idleSpins && consumed < BATCH
    case EndOfBatch(consumed) =>
      && |y.log| == |z.log| + consumed && y.idleSpins == z.idleSpins && consumed <= BATCH
      && (consumed == BATCH || y.queue.answer == Empty)
    case TestStop => BatchIsOver(z, y)
    case Stopped => false
  }

  /** It ran full or ended on an empty queue, and counts as an idle spin exactly if it reported nothing. */
  ghost predicate BatchIsOver(z: System, y: System) {
    && |z.log| <= |y.log| <= |z.log| + BATCH
    && (|y.log| == |z.log| + BATCH || y.queue.answer == Empty)
    && y.idleSpins == z.idleSpins + if |y.log| == |z.log| then 1 else 0
  }

  lemma MoveInBatch(z: System, y: System, m: Move)
    requires Inv(y.queue) && Consuming(y) && InBatch(z, y) && Possible(y, m) && m != Test
    ensures InBatch(z, Do(y, m))
  {
    hide Dispatch, Stored, ProducerReady;
    if m.Pop? && m.step.LoadTail? {
      ConsumerFailsIff(y.queue, Request.Pop, m.step.observed);
    }
  }

  lemma {:induction false} RunInBatch(z: System, y: System, ms: seq<Move>, books: Shelf)
    requires Sane(y, books) && InBatch(z, y) && Behaves(y, ms) && Test !in ms
    ensures InBatch(z, End(y, ms))
    decreases |ms|
  {
    hide Inv, Consuming, Sequential, InBatch, Do, Possible;
    if ms != [] {
      assert ms[0] in ms && ms[0] != Test;
      MoveInBatch(z, y, ms[0]);
      MoveKeepsSane(y, ms[0], books);
      RunInBatch(z, Do(y, ms[0]), ms[1..], books);
    }
  }

  /**
   * A batch that has begun, by the time the loop tests for a stop again, has reported 64 commands, or as many as there
   * were before a pop found the queue empty.
   */
  lemma BatchRunsFull(y: System, before: seq<Move>, ms: seq<Move>, books: Shelf)
    requires Start(y, books) && Behaves(y, before) && End(y, before).loop == Polling(0)
    requires Behaves(End(y, before), ms) && Test !in ms
    requires End(End(y, before), ms).loop.TestStop?
    ensures var z := End(y, before);
      var t := End(z, ms);
      && |z.log| <= |t.log| <= |z.log| + 64
      && (|t.log| == |z.log| + 64 || t.queue.answer == Empty)
      && t.idleSpins == z.idleSpins + if |t.log| == |z.log| then 1 else 0
  {
    hide Sane, Do, Possible, Behaves, End;
    StartIsSane(y, books);
    RunIsSane(y, before, books);
    RunInBatch(End(y, before), End(y, before), ms, books);
  }
}
