/**
 * The ring buffer as two threads run it: every shared access is a step of its own, the two threads interleave
 * freely, and a load of the other thread's index may return any value between the last one seen and the current.
 */
module SpscProtocol {
  import opened RingIndex

  /** A slot is torn from the moment a write to it begins until that write ends. */
  datatype Cell<T> = Free | Torn | Holding(value: T)

  /** Where the producer is inside `push`. Loads of its own tail and cache happen when the call begins. */
  datatype Producer<T> =
    | Outside
    | ReloadHead(value: T, next: nat)
    | BeginWrite(value: T, next: nat)
    | EndWrite(value: T, next: nat)
    | StoreTail(value: T, next: nat)

  datatype Request = Pop | Peek | Consume

  /** Where the consumer is inside `pop`, `peek`, `consume_one` or `clear`. */
  datatype Consumer<T> =
    | Idle
    | ReloadTail(request: Request)
    | BeginRead
    | EndRead(seen: Cell<T>)
    | StoreHead(taken: Removal<T>)
    | StoreCleared(target: nat, count: nat)

  /** How an element left the queue: read by `pop`, or dropped unread. */
  datatype Removal<T> = Popped(cell: Cell<T>) | Dropped

  /** What the emptiness test of the consumer's current call says, or what `peek` has returned: the slot to look at. */
  datatype Answer = Pending | Empty | Found(slot: nat)

  datatype State<T> = State(
    capacity: nat,
    cells: seq<Cell<T>>,
    head: nat, tail: nat, headCache: nat, tailCache: nat,
    producer: Producer<T>, consumer: Consumer<T>, answer: Answer,
    // Ghost: all elements published, all removals, and how many of each the other thread has observed.
    pushed: seq<T>, removals: seq<Removal<T>>, removedSeen: nat, addedSeen: nat)

  datatype Step<T> =
    | CallPush(value: T)
    | LoadHead(observed: nat)
    | StartWrite
    | FinishWrite
    | PublishTail
    | CallConsumer(request: Request)
    | LoadTail(observed: nat)
    | StartRead
    | FinishRead
    | PublishHead
    | CallClear(observed: nat)
    | PublishCleared

  predicate IsProducerStep<T>(step: Step<T>) {
    step.CallPush? || step.LoadHead? || step.StartWrite? || step.FinishWrite? || step.PublishTail?
  }

  ghost predicate Init<T>(s: State<T>) {
    && IsCapacity(s.capacity)
    && s.cells == seq(s.capacity, _ => Free)
    && s.head == s.tail == s.headCache == s.tailCache == 0
    && s.producer == Outside && s.consumer == Idle && s.answer == Pending
    && s.pushed == [] && s.removals == [] && s.removedSeen == s.addedSeen == 0
  }

  /** Program order of each thread, and the range of values that a load may return. */
  ghost predicate Enabled<T>(s: State<T>, step: Step<T>) {
    match step
    case CallPush(_) => s.producer.Outside?
    case LoadHead(observed) => s.producer.ReloadHead? && s.removedSeen <= observed <= |s.removals|
    case StartWrite => s.producer.BeginWrite?
    case FinishWrite => s.producer.EndWrite?
    case PublishTail => s.producer.StoreTail?
    case CallConsumer(_) => s.consumer.Idle?
    case LoadTail(observed) => s.consumer.ReloadTail? && s.addedSeen <= observed <= |s.pushed|
    case StartRead => s.consumer.BeginRead?
    case FinishRead => s.consumer.EndRead?
    case PublishHead => s.consumer.StoreHead?
    case CallClear(observed) => s.consumer.Idle? && s.addedSeen <= observed <= |s.pushed|
    case PublishCleared => s.consumer.StoreCleared?
  }

  /** After the emptiness test: `pop` reads, `consume_one` moves on, `peek` is done. */
  function Proceed<T>(request: Request): Consumer<T> {
    match request
    case Pop => BeginRead
    case Peek => Idle
    case Consume => StoreHead(Dropped)
  }

  function Read<T>(cells: seq<Cell<T>>, index: nat): Cell<T> {
    if index < |cells| then cells[index] else Torn
  }

  function Write<T>(cells: seq<Cell<T>>, index: nat, cell: Cell<T>): seq<Cell<T>> {
    if index < |cells| then cells[index := cell] else cells
  }

  /** The step, with all decisions taken on masked indices and caches as the source takes them. */
  ghost function Apply<T>(s: State<T>, step: Step<T>): State<T>
    requires s.capacity >= 1 && Enabled(s, step)
  {
    match step
    case CallPush(value) =>
      var next := Increment(s.tail, s.capacity);
      s.(producer := if next == s.headCache then ReloadHead(value, next) else BeginWrite(value, next))
    case LoadHead(observed) =>
      var index := SlotOf(observed, s.capacity);
      s.(headCache := index, removedSeen := observed,
         producer := if s.producer.next == index then Outside else BeginWrite(s.producer.value, s.producer.next))
    case StartWrite =>
      s.(cells := Write(s.cells, s.tail, Torn), producer := EndWrite(s.producer.value, s.producer.next))
    case FinishWrite =>
      s.(cells := Write(s.cells, s.tail, Holding(s.producer.value)),
         producer := StoreTail(s.producer.value, s.producer.next))
    case PublishTail =>
      s.(tail := s.producer.next, producer := Outside, pushed := s.pushed + [s.producer.value])
    case CallConsumer(request) =>
      s.(consumer := if s.head == s.tailCache then ReloadTail(request) else Proceed(request),
         answer := if s.head == s.tailCache then Pending else Found(s.head))
    case LoadTail(observed) =>
      var index := SlotOf(observed, s.capacity);
      s.(tailCache := index, addedSeen := observed,
         consumer := if s.head == index then Idle else Proceed(s.consumer.request),
         answer := if s.head == index then Empty else Found(s.head))
    case StartRead =>
      s.(consumer := EndRead(Read(s.cells, s.head)))
    case FinishRead =>
      // A copy that the producer wrote into meanwhile is torn.
      var seen := if Read(s.cells, s.head) == s.consumer.seen then s.consumer.seen else Torn;
      s.(consumer := StoreHead(Popped(seen)))
    case PublishHead =>
      s.(head := Increment(s.head, s.capacity), consumer := Idle, answer := Pending,
         removals := s.removals + [s.consumer.taken])
    case CallClear(observed) =>
      s.(tailCache := SlotOf(observed, s.capacity), addedSeen := observed, answer := Pending,
         consumer := StoreCleared(SlotOf(observed, s.capacity), observed))
    case PublishCleared =>
      s.(head := s.consumer.target, consumer := Idle, answer := Pending,
         removals := s.removals + Drops(Monus(s.consumer.count, |s.removals|)))
  }

  function Drops<T>(count: nat): seq<Removal<T>> {
    seq(count, _ => Dropped)
  }

  function Monus(a: nat, b: nat): nat {
    if a < b then 0 else a - b
  }

  // ---------- The invariant ----------

  ghost predicate Counted<T>(s: State<T>) {
    var removed, added := |s.removals|, |s.pushed|;
    && IsCapacity(s.capacity) && |s.cells| == s.capacity
    && s.removedSeen <= removed <= s.addedSeen <= added < s.removedSeen + s.capacity
    && s.head == SlotOf(removed, s.capacity) && s.headCache == SlotOf(s.removedSeen, s.capacity)
    && s.tail == SlotOf(added, s.capacity) && s.tailCache == SlotOf(s.addedSeen, s.capacity)
  }

  /** Every element between head and tail sits complete in its slot. */
  ghost predicate Stored<T>(s: State<T>)
    requires Counted(s)
  {
    forall n {:trigger s.pushed[n]} :: |s.removals| <= n < |s.pushed| ==>
      s.cells[SlotOf(n, s.capacity)] == Holding(s.pushed[n])
  }

  /** The producer writes only when it has seen the slot of its write released. */
  ghost predicate ProducerReady<T>(s: State<T>)
    requires Counted(s)
  {
    match s.producer
    case Outside => true
    case ReloadHead(_, next) => next == Increment(s.tail, s.capacity)
    case BeginWrite(_, next) => next == Increment(s.tail, s.capacity) && MayWrite(s)
    case EndWrite(_, next) => next == Increment(s.tail, s.capacity) && MayWrite(s)
    case StoreTail(value, next) =>
      next == Increment(s.tail, s.capacity) && MayWrite(s) && s.cells[s.tail] == Holding(value)
  }

  ghost predicate MayWrite<T>(s: State<T>) {
    |s.pushed| + 1 < s.removedSeen + s.capacity
  }

  /** The consumer reads, and `peek` returns, only what has been seen published. */
  ghost predicate ConsumerReady<T>(s: State<T>)
    requires Counted(s)
  {
    var removed := |s.removals|;
    && (s.answer.Found? ==> s.answer.slot == s.head && removed < s.addedSeen)
    && match s.consumer
       case Idle => true
       case ReloadTail(_) => true
       case BeginRead => removed < s.addedSeen
       case EndRead(seen) => removed < s.addedSeen && seen == Holding(s.pushed[removed])
       case StoreHead(taken) =>
         removed < s.addedSeen && (taken.Popped? ==> taken.cell == Holding(s.pushed[removed]))
       case StoreCleared(target, count) =>
         removed <= count == s.addedSeen && target == SlotOf(count, s.capacity)
  }

  /** The i-th removal, if it was a pop, delivered the i-th element pushed. */
  ghost predicate InOrder<T>(s: State<T>) {
    && |s.removals| <= |s.pushed|
    && forall i :: 0 <= i < |s.removals| && s.removals[i].Popped? ==> s.removals[i].cell == Holding(s.pushed[i])
  }

  ghost predicate Inv<T>(s: State<T>) {
    Counted(s) && Stored(s) && ProducerReady(s) && ConsumerReady(s) && InOrder(s)
  }

  lemma InitIsInv<T>(s: State<T>)
    requires Init(s)
    ensures Inv(s)
  {
  }

  /** The slot of the next write holds no element. */
  lemma TailIsFree<T>(s: State<T>, n: nat)
    requires Counted(s) && |s.removals| <= n < |s.pushed|
    ensures SlotOf(n, s.capacity) != s.tail
  {
    SlotsDiffer(n, |s.pushed|, s.capacity);
  }

  /** The masked comparisons decide fullness and emptiness exactly, relative to what has been observed. */
  lemma MasksDecide<T>(s: State<T>)
    requires Counted(s)
    ensures Increment(s.tail, s.capacity) == s.headCache <==> |s.pushed| + 1 == s.removedSeen + s.capacity
    ensures s.head == s.tailCache <==> |s.removals| == s.addedSeen
    ensures Increment(s.tail, s.capacity) == SlotOf(|s.pushed| + 1, s.capacity)
    ensures Increment(s.head, s.capacity) == SlotOf(|s.removals| + 1, s.capacity)
  {
    IncrementIsNext(|s.pushed|, s.capacity);
    IncrementIsNext(|s.removals|, s.capacity);
    LapOf(|s.pushed| + 1, s.removedSeen, s.capacity);
    SlotsDiffer(|s.removals|, s.addedSeen, s.capacity);
  }

  lemma ProducerStepKeepsInv<T>(s: State<T>, step: Step<T>)
    requires Inv(s) && Enabled(s, step)
    requires IsProducerStep(step)
    ensures Inv(Apply(s, step))
  {
    hide And, Increment, IsCapacity, SlotOf;
    MasksDecide(s);
    match step
    case CallPush(_) =>
    case LoadHead(observed) =>
      LapOf(|s.pushed| + 1, observed, s.capacity);
    case StartWrite =>
      forall n | |s.removals| <= n < |s.pushed| ensures SlotOf(n, s.capacity) != s.tail { TailIsFree(s, n); }
    case FinishWrite =>
      forall n | |s.removals| <= n < |s.pushed| ensures SlotOf(n, s.capacity) != s.tail { TailIsFree(s, n); }
    case PublishTail =>
  }

  lemma ConsumerStepKeepsInv<T>(s: State<T>, step: Step<T>)
    requires Inv(s) && Enabled(s, step)
    requires !IsProducerStep(step)
    ensures Inv(Apply(s, step))
  {
    hide And, Increment, IsCapacity, SlotOf;
    MasksDecide(s);
    match step
    case CallConsumer(_) =>
    case LoadTail(observed) =>
      SlotsDiffer(|s.removals|, observed, s.capacity);
    case StartRead =>
      assert s.cells[s.head] == Holding(s.pushed[|s.removals|]);
    case FinishRead =>
      assert s.cells[s.head] == Holding(s.pushed[|s.removals|]);
    case PublishHead =>
    case CallClear(_) =>
    case PublishCleared =>
  }

  lemma StepKeepsInv<T>(s: State<T>, step: Step<T>)
    requires Inv(s) && Enabled(s, step)
    ensures Inv(Apply(s, step))
  {
    hide Inv, Apply, Enabled;
    if IsProducerStep(step) {
      ProducerStepKeepsInv(s, step);
    } else {
      ConsumerStepKeepsInv(s, step);
    }
  }

  // ---------- Whole runs ----------

  /** An interleaving of steps of the two threads, each enabled where it is taken. */
  ghost predicate Legal<T>(s: State<T>, steps: seq<Step<T>>)
    decreases |steps|
  {
    steps == [] ||
      (s.capacity >= 1 && Enabled(s, steps[0]) && Legal(Apply(s, steps[0]), steps[1..]))
  }

  ghost function After<T>(s: State<T>, steps: seq<Step<T>>): State<T>
    requires Legal(s, steps)
    decreases |steps|
  {
    if steps == [] then s else After(Apply(s, steps[0]), steps[1..])
  }

  lemma {:induction false} RunKeepsInv<T>(s: State<T>, steps: seq<Step<T>>)
    requires Inv(s) && Legal(s, steps)
    ensures Inv(After(s, steps))
    decreases |steps|
  {
    hide Inv, Apply, Enabled;
    if steps != [] {
      StepKeepsInv(s, steps[0]);
      RunKeepsInv(Apply(s, steps[0]), steps[1..]);
    }
  }

  /** Under every interleaving: nothing lost, duplicated, reordered or torn, and never more than fits. */
  lemma QueueIsFifo<T>(s: State<T>, steps: seq<Step<T>>)
    requires Init(s) && Legal(s, steps)
    ensures var t := After(s, steps);
      && |t.removals| <= |t.pushed| < |t.removals| + t.capacity
      && (forall i :: 0 <= i < |t.removals| && t.removals[i].Popped? ==> t.removals[i].cell == Holding(t.pushed[i]))
      && (forall n {:trigger t.pushed[n]} :: |t.removals| <= n < |t.pushed| ==>
            Read(t.cells, SlotOf(n, t.capacity)) == Holding(t.pushed[n]))
  {
    hide Apply, Enabled;
    InitIsInv(s);
    RunKeepsInv(s, steps);
  }

  /** While a write and a read are both under way they concern different slots. */
  lemma NoSharedSlot<T>(s: State<T>)
    requires Inv(s) && s.producer.EndWrite? && s.consumer.EndRead?
    ensures s.tail != s.head
  {
    TailIsFree(s, |s.removals|);
  }

  /** The slot the producer writes has been released by a head store that the producer has observed. */
  lemma WriteFollowsRelease<T>(s: State<T>, n: nat)
    requires Inv(s) && (s.producer.BeginWrite? || s.producer.EndWrite?)
    requires n < |s.pushed| && SlotOf(n, s.capacity) == s.tail
    ensures n < s.removedSeen
  {
    if n >= s.removedSeen {
      SlotsDiffer(n, |s.pushed|, s.capacity);
    }
  }

  /** The element the consumer reads has been published by a tail store that the consumer has observed. */
  lemma ReadFollowsPublication<T>(s: State<T>)
    requires Inv(s) && (s.consumer.BeginRead? || s.consumer.EndRead?)
    ensures |s.removals| < s.addedSeen && s.head == SlotOf(|s.removals|, s.capacity)
    ensures Read(s.cells, s.head) == Holding(s.pushed[|s.removals|])
  {
    assert s.cells[SlotOf(|s.removals|, s.capacity)] == Holding(s.pushed[|s.removals|]);
  }

  // ---------- Progress ----------

  /** How many own steps a call may still take. */
  function ProducerSteps<T>(p: Producer<T>): nat {
    match p
    case Outside => 0
    case StoreTail(_, _) => 1
    case EndWrite(_, _) => 2
    case BeginWrite(_, _) => 3
    case ReloadHead(_, _) => 4
  }

  function ConsumerSteps<T>(c: Consumer<T>): nat {
    match c
    case Idle => 0
    case StoreHead(_) => 1
    case StoreCleared(_, _) => 1
    case EndRead(_) => 2
    case BeginRead => 3
    case ReloadTail(_) => 4
  }

  /**
   * Calls are wait-free: a thread inside a call always has a step, each of its own steps brings the return
   * closer, and the steps of the other thread do not set it back.
   */
  lemma CallsAreWaitFree<T>(s: State<T>, step: Step<T>)
    requires Inv(s) && Enabled(s, step)
    ensures var t := Apply(s, step);
      if IsProducerStep(step) then
        && t.consumer == s.consumer
        && (!step.CallPush? ==> ProducerSteps(t.producer) < ProducerSteps(s.producer))
      else
        && t.producer == s.producer
        && (!s.consumer.Idle? ==> ConsumerSteps(t.consumer) < ConsumerSteps(s.consumer))
    ensures s.producer.Outside? || exists own: Step<T> :: IsProducerStep(own) && !own.CallPush? && Enabled(s, own)
    ensures s.consumer.Idle? || exists own: Step<T> :: !IsProducerStep(own) && Enabled(s, own)
  {
    if !s.producer.Outside? {
      var own := match s.producer
        case ReloadHead(_, _) => LoadHead(s.removedSeen)
        case BeginWrite(_, _) => StartWrite
        case EndWrite(_, _) => FinishWrite
        case _ => PublishTail;
      assert IsProducerStep(own) && !own.CallPush? && Enabled(s, own);
    }
    if !s.consumer.Idle? {
      var own := match s.consumer
        case ReloadTail(_) => LoadTail(s.addedSeen)
        case BeginRead => StartRead
        case EndRead(_) => FinishRead
        case StoreHead(_) => PublishHead
        case _ => PublishCleared;
      assert !IsProducerStep(own) && Enabled(s, own);
    }
  }

  function ProducerStepsIn<T>(steps: seq<Step<T>>): nat {
    if steps == [] then 0 else (if IsProducerStep(steps[0]) then 1 else 0) + ProducerStepsIn(steps[1..])
  }

  /** At some moment of the run the producer is outside `push`. */
  ghost predicate PushReturns<T>(s: State<T>, steps: seq<Step<T>>)
    requires Legal(s, steps)
    decreases |steps|
  {
    s.producer.Outside? || (steps != [] && PushReturns(Apply(s, steps[0]), steps[1..]))
  }

  /** At some moment of the run the consumer is outside its calls. */
  ghost predicate ConsumerReturns<T>(s: State<T>, steps: seq<Step<T>>)
    requires Legal(s, steps)
    decreases |steps|
  {
    s.consumer.Idle? || (steps != [] && ConsumerReturns(Apply(s, steps[0]), steps[1..]))
  }

  /** Over any run: a call under way has returned by its thread's fourth own step, however the other one moves. */
  lemma CallsReturn<T>(s: State<T>, steps: seq<Step<T>>)
    requires Inv(s) && Legal(s, steps)
    ensures ProducerStepsIn(steps) >= 4 ==> PushReturns(s, steps)
    ensures |steps| - ProducerStepsIn(steps) >= 4 ==> ConsumerReturns(s, steps)
  {
    CallsReturnInTime(s, steps);
  }

  lemma {:induction false} CallsReturnInTime<T>(s: State<T>, steps: seq<Step<T>>)
    requires Inv(s) && Legal(s, steps)
    ensures ProducerStepsIn(steps) >= ProducerSteps(s.producer) ==> PushReturns(s, steps)
    ensures |steps| - ProducerStepsIn(steps) >= ConsumerSteps(s.consumer) ==> ConsumerReturns(s, steps)
    decreases |steps|
  {
    hide Inv, Apply;
    if steps != [] {
      CallsAreWaitFree(s, steps[0]);
      StepKeepsInv(s, steps[0]);
      CallsReturnInTime(Apply(s, steps[0]), steps[1..]);
    }
  }

  // ---------- What the calls answer ----------

  /**
   * What `peek` found stays in its slot, and stays the next element to be removed, through any steps of either
   * thread that leave head alone.
   */
  lemma PeekIsStable<T>(s: State<T>, steps: seq<Step<T>>)
    requires Inv(s) && s.answer.Found? && Legal(s, steps)
    requires forall step :: step in steps ==> !step.PublishHead? && !step.PublishCleared?
    ensures |s.removals| < |s.pushed|
    ensures var t := After(s, steps);
      && t.head == s.head == s.answer.slot && t.removals == s.removals
      && Read(t.cells, s.answer.slot) == Holding(s.pushed[|s.removals|])
      && s.pushed <= t.pushed
  {
    HeadStays(s, steps);
    RunKeepsInv(s, steps);
    var t := After(s, steps);
    assert t.cells[SlotOf(|t.removals|, t.capacity)] == Holding(t.pushed[|t.removals|]);
  }

  lemma {:induction false} HeadStays<T>(s: State<T>, steps: seq<Step<T>>)
    requires Legal(s, steps)
    requires forall step :: step in steps ==> !step.PublishHead? && !step.PublishCleared?
    ensures var t := After(s, steps);
      t.head == s.head && t.removals == s.removals && s.pushed <= t.pushed && t.capacity == s.capacity
    decreases |steps|
  {
    if steps != [] {
      assert steps[0] in steps;
      HeadStays(Apply(s, steps[0]), steps[1..]);
    }
  }

  /** A thread outside its calls may begin any call, and a load may always return the current index. */
  lemma CallsCanBegin<T>(s: State<T>, request: Request)
    requires Inv(s)
    ensures s.capacity >= 1
    ensures s.producer.Outside? ==> forall value :: Enabled(s, CallPush(value))
    ensures s.consumer.Idle? ==> Enabled(s, CallConsumer(request)) && Enabled(s, CallClear(|s.pushed|))
    ensures s.producer.ReloadHead? ==> Enabled(s, LoadHead(|s.removals|))
    ensures s.consumer.ReloadTail? ==> Enabled(s, LoadTail(|s.pushed|))
  {
  }

  // ---------- What the calls do ----------

  /** What a completed consumer call took, if it found an element. */
  ghost predicate Took<T>(request: Request, before: seq<Removal<T>>, pushed: seq<T>, after: seq<Removal<T>>)
    requires |before| < |pushed|
  {
    match request
    case Pop => after == before + [Popped(Holding(pushed[|before|]))]
    case Peek => after == before
    case Consume => after == before + [Dropped]
  }

  /** A consumer call that began when `before` had been removed, up to and after its return. */
  ghost predicate Serving<T>(s: State<T>, request: Request, before: seq<Removal<T>>) {
    && |before| <= s.addedSeen <= |s.pushed|
    && (!s.consumer.Idle? ==> s.removals == before)
    && match s.consumer
       case Idle =>
         if |before| == s.addedSeen then s.removals == before && s.answer == Empty
         else
           && Took(request, before, s.pushed, s.removals)
           && (request.Peek? ==> s.answer == Found(s.head))
       case ReloadTail(asked) => asked == request && |before| == s.addedSeen
       case BeginRead => request.Pop? && |before| < s.addedSeen
       case EndRead(_) => request.Pop? && |before| < s.addedSeen
       case StoreHead(taken) =>
         && |before| < s.addedSeen
         && if request.Pop? then taken == Popped(Holding(s.pushed[|before|])) else request.Consume? && taken == Dropped
       case StoreCleared(_, _) => false
  }

  lemma CallServes<T>(s: State<T>, request: Request)
    requires Inv(s) && Enabled(s, CallConsumer(request))
    ensures Serving(Apply(s, CallConsumer(request)), request, s.removals)
    ensures Apply(s, CallConsumer(request)).capacity == s.capacity >= 1
  {
    hide Increment, SlotOf, IsCapacity, And, Stored, ProducerReady, InOrder;
    MasksDecide(s);
  }

  lemma StepServes<T>(s: State<T>, step: Step<T>, request: Request, before: seq<Removal<T>>)
    requires Inv(s) && Serving(s, request, before) && Enabled(s, step)
    requires !step.CallConsumer? && !step.CallClear?
    ensures Serving(Apply(s, step), request, before)
  {
    hide Increment, SlotOf, IsCapacity, And, Stored, ProducerReady, InOrder;
    if step.LoadTail? {
      SlotsDiffer(|s.removals|, step.observed, s.capacity);
    }
    if step.FinishRead? {
      StepKeepsInv(s, step);
    }
  }

  lemma {:induction false} RunServes<T>(s: State<T>, steps: seq<Step<T>>, request: Request, before: seq<Removal<T>>)
    requires Inv(s) && Serving(s, request, before) && Legal(s, steps)
    requires forall step :: step in steps ==> !step.CallConsumer? && !step.CallClear?
    ensures Serving(After(s, steps), request, before)
    decreases |steps|
  {
    hide Inv, Serving, Apply, Enabled;
    if steps != [] {
      StepServes(s, steps[0], request, before);
      StepKeepsInv(s, steps[0]);
      RunServes(Apply(s, steps[0]), steps[1..], request, before);
    }
  }

  /**
   * What one call of the consumer has done when it returns, whatever the producer did meanwhile. If no element was
   * published by the tail it knows, it changed nothing and says so. Otherwise `pop` took the next element and delivers
   * it as it was pushed, `consume_one` dropped it, and `peek` left it where it is and says where that is.
   */
  lemma ConsumerCallDoes<T>(s: State<T>, request: Request, steps: seq<Step<T>>)
    requires Inv(s) && s.consumer.Idle?
    requires Legal(Apply(s, CallConsumer(request)), steps)
    requires forall step :: step in steps ==> !step.CallConsumer? && !step.CallClear?
    requires After(Apply(s, CallConsumer(request)), steps).consumer.Idle?
    ensures var t := After(Apply(s, CallConsumer(request)), steps);
      && |s.removals| <= t.addedSeen <= |t.pushed|
      && if |s.removals| == t.addedSeen then t.removals == s.removals && t.answer == Empty
         else
           match request
           case Pop => t.removals == s.removals + [Popped(Holding(t.pushed[|s.removals|]))]
           case Consume => t.removals == s.removals + [Dropped]
           case Peek => t.removals == s.removals && t.head == s.head && t.answer == Found(s.head)
  {
    hide Inv, Serving, Took, Apply, Enabled, After, Legal;
    CallsCanBegin(s, request);
    var called := Apply(s, CallConsumer(request));
    StepKeepsInv(s, CallConsumer(request));
    CallServes(s, request);
    RunServes(called, steps, request, s.removals);
    RunKeepsInv(called, steps);
    HeadOfRemovals(s, called, steps);
    ServedMeans(After(called, steps), request, s.removals);
  }

  lemma ServedMeans<T>(t: State<T>, request: Request, before: seq<Removal<T>>)
    requires Serving(t, request, before) && t.consumer.Idle?
    ensures |before| <= t.addedSeen <= |t.pushed|
    ensures |before| == t.addedSeen ==> t.removals == before && t.answer == Empty
    ensures |before| != t.addedSeen ==>
      match request
      case Pop => t.removals == before + [Popped(Holding(t.pushed[|before|]))]
      case Consume => t.removals == before + [Dropped]
      case Peek => t.removals == before && t.answer == Found(t.head)
  {
  }

  /** Head is determined by what has been removed. */
  lemma HeadOfRemovals<T>(s: State<T>, called: State<T>, steps: seq<Step<T>>)
    requires Inv(s) && Inv(called) && called.capacity == s.capacity && Legal(called, steps)
    requires Inv(After(called, steps))
    ensures |After(called, steps).removals| == |s.removals| ==> After(called, steps).head == s.head
  {
    CapacityStays(called, steps);
  }

  lemma {:induction false} CapacityStays<T>(s: State<T>, steps: seq<Step<T>>)
    requires Legal(s, steps)
    ensures After(s, steps).capacity == s.capacity
    decreases |steps|
  {
    if steps != [] {
      CapacityStays(Apply(s, steps[0]), steps[1..]);
    }
  }

  /** A push that began when `before` had been pushed, up to and after its return. */
  ghost predicate Pushing<T>(s: State<T>, value: T, before: seq<T>) {
    && (!s.producer.Outside? ==> s.pushed == before && s.producer.value == value)
    && (s.producer.Outside? ==>
          s.pushed == if |before| + 1 == s.removedSeen + s.capacity then before else before + [value])
  }

  lemma PushBegins<T>(s: State<T>, value: T)
    requires Inv(s) && Enabled(s, CallPush(value))
    ensures s.capacity >= 1 && Pushing(Apply(s, CallPush(value)), value, s.pushed)
  {
  }

  lemma StepPushes<T>(s: State<T>, step: Step<T>, value: T, before: seq<T>)
    requires Inv(s) && Pushing(s, value, before) && Enabled(s, step) && !step.CallPush?
    ensures Pushing(Apply(s, step), value, before)
  {
    hide Increment, SlotOf, IsCapacity, And, Stored, ConsumerReady, InOrder;
    MasksDecide(s);
    if step.LoadHead? {
      LapOf(|s.pushed| + 1, step.observed, s.capacity);
    }
  }

  lemma {:induction false} RunPushes<T>(s: State<T>, steps: seq<Step<T>>, value: T, before: seq<T>)
    requires Inv(s) && Pushing(s, value, before) && Legal(s, steps)
    requires forall step :: step in steps ==> !step.CallPush?
    ensures Pushing(After(s, steps), value, before)
    decreases |steps|
  {
    hide Inv, Pushing, Apply, Enabled;
    if steps != [] {
      StepPushes(s, steps[0], value, before);
      StepKeepsInv(s, steps[0]);
      RunPushes(Apply(s, steps[0]), steps[1..], value, before);
    }
  }

  /**
   * What one push has done when it returns, whatever the consumer did meanwhile: appended its value, or nothing at
   * all if by the head it knows all slots but one are taken.
   */
  lemma PushCallDoes<T>(s: State<T>, value: T, steps: seq<Step<T>>)
    requires Inv(s) && s.producer.Outside?
    requires Legal(Apply(s, CallPush(value)), steps)
    requires forall step :: step in steps ==> !step.CallPush?
    requires After(Apply(s, CallPush(value)), steps).producer.Outside?
    ensures var t := After(Apply(s, CallPush(value)), steps);
      t.pushed == if |s.pushed| - t.removedSeen == t.capacity - 1 then s.pushed else s.pushed + [value]
  {
    hide Inv, Apply, Enabled, After, Legal;
    CallsCanBegin(s, Pop);
    PushBegins(s, value);
    StepKeepsInv(s, CallPush(value));
    RunPushes(Apply(s, CallPush(value)), steps, value, s.pushed);
  }

  /** A clear drops what was published at its tail load, and keeps all that is pushed before its head store. */
  lemma ClearDropsWhatItSaw<T>(s: State<T>, observed: nat, steps: seq<Step<T>>)
    requires Inv(s) && Enabled(s, CallClear(observed))
    requires Legal(Apply(s, CallClear(observed)), steps)
    requires forall step :: step in steps ==> IsProducerStep(step)
    ensures var t := After(Apply(s, CallClear(observed)), steps);
      && t.capacity >= 1 && Enabled(t, PublishCleared)
      && var cleared := Apply(t, PublishCleared);
        && |cleared.removals| == observed
        && cleared.removals == s.removals + Drops(Monus(observed, |s.removals|))
        && cleared.pushed == t.pushed
        && Inv(cleared)
  {
    ConsumerStepKeepsInv(s, CallClear(observed));
    var cleared := Apply(s, CallClear(observed));
    RunKeepsInv(cleared, steps);
    ProducerLeavesConsumer(cleared, steps);
    ConsumerStepKeepsInv(After(cleared, steps), PublishCleared);
  }

  lemma {:induction false} ProducerLeavesConsumer<T>(s: State<T>, steps: seq<Step<T>>)
    requires Legal(s, steps) && forall step :: step in steps ==> IsProducerStep(step)
    ensures var t := After(s, steps);
      t.consumer == s.consumer && t.removals == s.removals && t.addedSeen == s.addedSeen && t.capacity == s.capacity
    decreases |steps|
  {
    if steps != [] {
      assert steps[0] in steps && IsProducerStep(steps[0]);
      ProducerLeavesConsumer(Apply(s, steps[0]), steps[1..]);
    }
  }

  /** A push gives up exactly when, by the head it has just loaded, all slots but one are taken. */
  lemma PushFailsIff<T>(s: State<T>, observed: nat)
    requires Inv(s) && Enabled(s, LoadHead(observed))
    ensures Apply(s, LoadHead(observed)).producer.Outside? <==> |s.pushed| - observed == s.capacity - 1
  {
    MasksDecide(s);
    LapOf(|s.pushed| + 1, observed, s.capacity);
  }

  /** Where a call is after it found an element: a peek has returned, the others have not. */
  predicate GoesOn<T>(request: Request, c: Consumer<T>) {
    match request
    case Pop => c.BeginRead?
    case Peek => c.Idle?
    case Consume => c == StoreHead(Dropped)
  }

  /**
   * A consumer call, `peek` included, answers that the queue is empty exactly when nothing was published by the tail
   * it has just loaded, and then ends; otherwise it found the front slot and goes on. It asks for the tail only if
   * nothing is left of what it has seen before.
   */
  lemma ConsumerFailsIff<T>(s: State<T>, request: Request, observed: nat)
    requires Inv(s)
    ensures Enabled(s, CallConsumer(request)) ==>
      var t := Apply(s, CallConsumer(request));
      if |s.removals| == s.addedSeen then t.answer == Pending && t.consumer == ReloadTail(request)
      else t.answer == Found(s.head) && GoesOn(request, t.consumer)
    ensures s.consumer == ReloadTail(request) && Enabled(s, LoadTail(observed)) ==>
      var t := Apply(s, LoadTail(observed));
      if |s.removals| == observed then t.answer == Empty && t.consumer == Idle
      else t.answer == Found(s.head) && GoesOn(request, t.consumer)
  {
    MasksDecide(s);
    if s.consumer == ReloadTail(request) && Enabled(s, LoadTail(observed)) {
      SlotsDiffer(|s.removals|, observed, s.capacity);
    }
  }

  /**
   * What a thread that is neither producer nor consumer learns from `empty()`, which loads head and, later, tail:
   * whether a whole number of laps lies between the two loads. So it may call a queue empty that never
   * was (`EmptyCanMislead`).
   */
  lemma OutsideEmptyIff<T>(atHeadLoad: State<T>, atTailLoad: State<T>)
    requires Inv(atHeadLoad) && Inv(atTailLoad) && atHeadLoad.capacity == atTailLoad.capacity
    requires |atHeadLoad.removals| <= |atTailLoad.pushed|
    ensures atHeadLoad.head == atTailLoad.tail
      <==> (|atTailLoad.pushed| - |atHeadLoad.removals|) % atTailLoad.capacity == 0
  {
    SlotsAgreeIff(|atHeadLoad.removals|, |atTailLoad.pushed|, atTailLoad.capacity);
  }

  /** What it learns from `size()`: the difference of the two loads, whole laps left out. */
  lemma OutsideSizeIsModulo<T>(atHeadLoad: State<T>, atTailLoad: State<T>)
    requires Inv(atHeadLoad) && Inv(atTailLoad) && atHeadLoad.capacity == atTailLoad.capacity
    requires |atHeadLoad.removals| <= |atTailLoad.pushed|
    ensures Distance(atHeadLoad.head, atTailLoad.tail, atTailLoad.capacity)
         == (|atTailLoad.pushed| - |atHeadLoad.removals|) % atTailLoad.capacity
  {
    hide Distance;
    DistanceIsModulo(|atHeadLoad.removals|, |atTailLoad.pushed|, atTailLoad.capacity);
  }

  /**
   * Between its own two loads, the consumer thread meets steps of the producer only. Then `empty()` and `size()` are
   * exact about what its tail load observes; and a load of the current tail observes all that is published.
   */
  lemma ConsumerSeesExactly<T>(s: State<T>, steps: seq<Step<T>>, observed: nat)
    requires Inv(s) && s.consumer.Idle? && Legal(s, steps)
    requires forall step :: step in steps ==> IsProducerStep(step)
    requires After(s, steps).addedSeen <= observed <= |After(s, steps).pushed|
    ensures Shows(s.head, SlotOf(observed, s.capacity), s.capacity, observed - |After(s, steps).removals|)
    ensures SlotOf(|After(s, steps).pushed|, s.capacity) == After(s, steps).tail
  {
    hide Shows, Apply, Enabled;
    RunKeepsInv(s, steps);
    ProducerLeavesConsumer(s, steps);
    ShowsCount(|s.removals|, observed, s.capacity);
  }

  lemma {:induction false} ConsumerLeavesProducer<T>(s: State<T>, steps: seq<Step<T>>)
    requires Legal(s, steps) && forall step :: step in steps ==> !IsProducerStep(step)
    ensures var t := After(s, steps);
      && t.producer == s.producer && t.pushed == s.pushed && t.tail == s.tail
      && t.removedSeen == s.removedSeen && t.capacity == s.capacity
    decreases |steps|
  {
    if steps != [] {
      assert steps[0] in steps && !IsProducerStep(steps[0]);
      ConsumerLeavesProducer(Apply(s, steps[0]), steps[1..]);
    }
  }

  /**
   * The producer thread meets steps of the consumer only. It learns exactly what its head load observes, which may
   * include elements removed meanwhile: what it calls empty is empty, and it never counts too few.
   */
  lemma ProducerSeesExactly<T>(s: State<T>, observed: nat, steps: seq<Step<T>>)
    requires Inv(s) && s.producer.Outside? && Legal(s, steps)
    requires forall step :: step in steps ==> !IsProducerStep(step)
    requires s.removedSeen <= observed <= |s.removals|
    ensures After(s, steps).pushed == s.pushed && |s.removals| <= |After(s, steps).removals| <= |s.pushed|
    ensures Shows(SlotOf(observed, s.capacity), After(s, steps).tail, s.capacity, |s.pushed| - observed)
    ensures SlotOf(|s.removals|, s.capacity) == s.head
  {
    hide Shows, Apply, Enabled;
    RunKeepsInv(s, steps);
    ConsumerLeavesProducer(s, steps);
    RemovalsGrow(s, steps);
    ShowsCount(observed, |s.pushed|, s.capacity);
  }

  lemma {:induction false} RemovalsGrow<T>(s: State<T>, steps: seq<Step<T>>)
    requires Legal(s, steps)
    ensures |s.removals| <= |After(s, steps).removals|
    decreases |steps|
  {
    if steps != [] {
      RemovalsGrow(Apply(s, steps[0]), steps[1..]);
    }
  }

  // ---------- A queue that is called empty and never was ----------

  /** Some element is queued at every moment of the run. */
  ghost predicate Busy<T>(s: State<T>, steps: seq<Step<T>>)
    requires Legal(s, steps)
    decreases |steps|
  {
    |s.removals| < |s.pushed| && (steps != [] ==> Busy(Apply(s, steps[0]), steps[1..]))
  }

  /** The steps lead from one state to the other, through busy states only if `busy`. */
  ghost predicate Leads<T>(s: State<T>, steps: seq<Step<T>>, t: State<T>, busy: bool) {
    Legal(s, steps) && After(s, steps) == t && (busy ==> Busy(s, steps))
  }

  lemma LeadsOn<T>(s: State<T>, step: Step<T>, steps: seq<Step<T>>, t: State<T>, busy: bool)
    requires s.capacity >= 1 && Enabled(s, step) && Leads(Apply(s, step), steps, t, busy)
    requires busy ==> |s.removals| < |s.pushed|
    ensures Leads(s, [step] + steps, t, busy)
  {
    hide Apply, Enabled;
    assert ([step] + steps)[1..] == steps;
  }

  lemma {:induction false} LeadsFurther<T>(s: State<T>, a: seq<Step<T>>, t: State<T>, b: seq<Step<T>>, u: State<T>)
    requires Leads(s, a, t, true) && Leads(t, b, u, true)
    ensures Leads(s, a + b, u, true)
    decreases |a|
  {
    hide Apply, Enabled;
    if a == [] {
      assert a + b == b;
    } else {
      LeadsFurther(Apply(s, a[0]), a[1..], t, b, u);
      assert (a + b)[1..] == a[1..] + b;
    }
  }

  function Push<T>(value: T): seq<Step<T>> {
    [CallPush(value), StartWrite, FinishWrite, PublishTail]
  }

  /** A push that finds room by its cached head. */
  lemma PushLeads<T>(s: State<T>, value: T, busy: bool) returns (t: State<T>)
    requires s.capacity >= 1 && s.producer.Outside? && Increment(s.tail, s.capacity) != s.headCache
    requires busy ==> |s.removals| < |s.pushed|
    requires |s.removals| <= |s.pushed|
    ensures Leads(s, Push(value), t, busy)
    ensures t == s.(tail := Increment(s.tail, s.capacity), cells := t.cells, pushed := s.pushed + [value])
  {
    hide Increment, Leads;
    var a := Apply(s, CallPush(value));
    var b := Apply(a, StartWrite);
    var c := Apply(b, FinishWrite);
    t := Apply(c, PublishTail);
    Arrived(t);
    LeadsOn(c, PublishTail, [], t, busy);
    LeadsOn(b, FinishWrite, [PublishTail] + [], t, busy);
    LeadsOn(a, StartWrite, [FinishWrite] + ([PublishTail] + []), t, busy);
    LeadsOn(s, CallPush(value), [StartWrite] + ([FinishWrite] + ([PublishTail] + [])), t, busy);
    assert Push(value) == [CallPush(value)] + ([StartWrite] + ([FinishWrite] + ([PublishTail] + [])));
  }

  lemma Arrived<T>(t: State<T>)
    requires |t.removals| < |t.pushed|
    ensures Leads(t, [], t, true) && Leads(t, [], t, false)
  {
  }

  /** A push that finds room only after loading the current head. */
  lemma LatePushLeads<T>(s: State<T>, value: T) returns (t: State<T>)
    requires s.capacity >= 1 && s.producer.Outside? && Increment(s.tail, s.capacity) == s.headCache
    requires s.removedSeen <= |s.removals| < |s.pushed|
    requires SlotOf(|s.removals|, s.capacity) != s.headCache
    ensures Leads(s, LatePush(value, |s.removals|), t, true)
    ensures t == s.(tail := Increment(s.tail, s.capacity), cells := t.cells, pushed := s.pushed + [value],
                    headCache := t.headCache, removedSeen := |s.removals|)
  {
    hide Increment, Leads, SlotOf;
    var a := Apply(s, CallPush(value));
    var b := Apply(a, LoadHead(|s.removals|));
    var c := Apply(b, StartWrite);
    var d := Apply(c, FinishWrite);
    t := Apply(d, PublishTail);
    Arrived(t);
    LeadsOn(d, PublishTail, [], t, true);
    LeadsOn(c, FinishWrite, [PublishTail] + [], t, true);
    LeadsOn(b, StartWrite, [FinishWrite] + ([PublishTail] + []), t, true);
    LeadsOn(a, LoadHead(|s.removals|), [StartWrite] + ([FinishWrite] + ([PublishTail] + [])), t, true);
    LeadsOn(s, CallPush(value),
            [LoadHead(|s.removals|)] + ([StartWrite] + ([FinishWrite] + ([PublishTail] + []))), t, true);
    assert LatePush(value, |s.removals|)
        == [CallPush(value)] + ([LoadHead(|s.removals|)] + ([StartWrite] + ([FinishWrite] + ([PublishTail] + []))));
  }

  function LatePush<T>(value: T, observed: nat): seq<Step<T>> {
    [CallPush(value), LoadHead(observed), StartWrite, FinishWrite, PublishTail]
  }

  function Drop<T>(observed: nat): seq<Step<T>> {
    [CallConsumer(Consume), LoadTail(observed), PublishHead]
  }

  /** A consume_one that loads the current tail, with more than one element queued. */
  lemma DropLeads<T>(s: State<T>) returns (t: State<T>)
    requires s.capacity >= 1 && s.consumer.Idle? && s.head == s.tailCache
    requires s.addedSeen <= |s.pushed| && |s.removals| + 1 < |s.pushed|
    requires SlotOf(|s.pushed|, s.capacity) != s.head
    ensures Leads(s, Drop(|s.pushed|), t, true)
    ensures t == s.(head := Increment(s.head, s.capacity), removals := s.removals + [Dropped],
                    tailCache := t.tailCache, addedSeen := |s.pushed|, answer := Pending)
  {
    hide Increment, Leads, SlotOf;
    var a := Apply(s, CallConsumer(Consume));
    var b := Apply(a, LoadTail(|s.pushed|));
    t := Apply(b, PublishHead);
    Arrived(t);
    LeadsOn(b, PublishHead, [], t, true);
    LeadsOn(a, LoadTail(|s.pushed|), [PublishHead] + [], t, true);
    LeadsOn(s, CallConsumer(Consume), [LoadTail(|s.pushed|)] + ([PublishHead] + []), t, true);
    assert Drop<T>(|s.pushed|) == [CallConsumer(Consume)] + ([LoadTail(|s.pushed|)] + ([PublishHead] + []));
  }

  lemma FourSlots()
    ensures IsCapacity(4)
    ensures Increment(0, 4) == 1 && Increment(1, 4) == 2 && Increment(2, 4) == 3 && Increment(3, 4) == 0
  {
    assert And(1, 0) == 0;
    assert And(2, 1) == 0;
    assert IsCapacity(4);
    IncrementIsNext(0, 4);
    IncrementIsNext(1, 4);
    IncrementIsNext(2, 4);
    IncrementIsNext(3, 4);
  }

  /**
   * Four slots. After one push an outsider loads head; two more pushes, one removal and a last push later it loads
   * tail. An element was queued all the time, and yet the two indices are equal.
   */
  lemma EmptyCanMislead<T>(s: State<T>, value: T) returns (before: seq<Step<T>>, between: seq<Step<T>>)
    requires Init(s) && s.capacity == 4
    ensures Legal(s, before) && Legal(After(s, before), between) && Busy(After(s, before), between)
    ensures After(s, before).head == After(After(s, before), between).tail
  {
    hide Increment, Apply, Enabled;
    FourSlots();
    var one := PushLeads(s, value, false);
    var two := PushLeads(one, value, true);
    var three := PushLeads(two, value, true);
    var less := DropLeads(three);
    var last := LatePushLeads(less, value);
    LeadsFurther(three, Drop(3), less, LatePush(value, 1), last);
    LeadsFurther(two, Push(value), three, Drop(3) + LatePush(value, 1), last);
    LeadsFurther(one, Push(value), two, Push(value) + (Drop(3) + LatePush(value, 1)), last);
    before, between := Push(value), Push(value) + (Push(value) + (Drop(3) + LatePush(value, 1)));
  }
}
