/** The life of an order as its events tell it: Ack, partial fills, and at most one end. */
module Lifecycle {
  import opened Model
  import opened Matching
  import opened Books
  import opened Executions
  import opened Ledger

  /** What the events about one order id have told so far. An id that is closed may be used again. */
  datatype Life = Closed | Open(price: int, quantity: int, filled: int) | Broken
  {
    /** Anything but Ack, PartialFill*, and one of Fill and CancelAck, with growing fills, breaks the story. */
    function Next(e: Event): Life {
      match e.kind
      case Ack =>
        if Closed? && e.leaves == e.quantity > 0 then Open(e.price, e.quantity, 0) else Broken
      case PartialFill =>
        if Tells(e) && filled < e.quantity < quantity && e.leaves == quantity - e.quantity
        then this.(filled := e.quantity) else Broken
      case Fill =>
        if Tells(e) && filled < e.quantity == quantity && e.leaves == 0 then Closed else Broken
      case CancelAck =>
        if Tells(e) && e.quantity == quantity && e.leaves == quantity - filled then Closed else Broken
      case _ => if Broken? then Broken else this
    }

    predicate Tells(e: Event) {
      Open? && e.price == price
    }

    function Advance(e: Event, id: nat): Life {
      if e.orderId == id then Next(e) else this
    }
  }

  /** The life of `id` after the events `es`. */
  function Lives(life: Life, es: seq<Event>, id: nat): Life {
    if es == [] then life else Lives(life, es[..|es| - 1], id).Advance(es[|es| - 1], id)
  }

  lemma {:induction false} LivesOfSum(life: Life, a: seq<Event>, b: seq<Event>, id: nat)
    ensures Lives(life, a + b, id) == Lives(Lives(life, a, id), b, id)
  {
    if b == [] {
      assert a + b == a;
    } else {
      LivesOfSum(life, a, b[..|b| - 1], id);
      assert (a + b)[..|a + b| - 1] == a + b[..|b| - 1];
    }
  }

  lemma LivesOfOne(life: Life, e: Event, id: nat)
    ensures Lives(life, [e], id) == life.Advance(e, id)
  {
    assert Lives(life, [e][..0], id) == life;
  }

  lemma LivesOfTwo(life: Life, e: Event, f: Event, id: nat)
    ensures Lives(life, [e, f], id) == life.Advance(e, id).Advance(f, id)
  {
    LivesOfOne(life, e, id);
    assert [e, f][..1] == [e];
  }

  // ---------- What the book knows ----------

  function LifeOfOrder(o: OrderValue): Life {
    Open(o.price, o.quantity, o.quantity - o.leaves)
  }

  /** A resting order is open with what it has filled; every other id is closed. */
  function LifeOf(bag: Bag, id: nat): Life {
    if id in bag then LifeOfOrder(bag[id]) else Closed
  }

  /** The same while `taker` is being matched. */
  function LifeIn(bag: Bag, taker: OrderValue, id: nat): Life {
    if id != taker.orderId then LifeOf(bag, id)
    else if taker.leaves == 0 then Closed
    else LifeOfOrder(taker)
  }

  // ---------- Sweeps ----------

  lemma {:induction false} EventsOfFirst(e: Execution, es: seq<Execution>, sequence: nat)
    ensures Events([e] + es, sequence)
         == [ExecutionEvent(e.taker, sequence + 1), ExecutionEvent(e.maker, sequence + 2)] + Events(es, sequence + 3)
  {
    hide ExecutionEvent;
    if es == [] {
      assert [e] + es == [e];
      assert Events([e][..0], sequence) == [];
    } else {
      EventsOfFirst(e, es[..|es| - 1], sequence);
      assert ([e] + es)[..|es|] == [e] + es[..|es| - 1];
    }
  }

  /** An order that is executed moves on in its life. */
  lemma ExecutionMovesOn(before: OrderValue, quantity: nat, timestamp: nat, sequence: nat)
    requires 0 < quantity <= before.leaves <= before.quantity
    ensures var after := AfterExecution(before, quantity, timestamp);
      LifeOfOrder(before).Next(ExecutionEvent(after, sequence))
        == if after.leaves == 0 then Closed else LifeOfOrder(after)
  {
  }

  /** The two events of an execution tell what it did to the two parties. */
  lemma ExecutionLives(bag: Bag, taker: OrderValue, symbolId: nat, nextOrder: nat, sequence: nat, id: nat)
    requires Sound(bag, symbolId, nextOrder) && taker.orderId !in bag && taker.leaves <= taker.quantity
    requires Matches(bag, taker) != {}
    ensures var first := First(bag, taker);
      var e := Execute(taker, bag[first]);
      LifeIn(bag, taker, id)
        .Advance(ExecutionEvent(e.taker, sequence + 1), id).Advance(ExecutionEvent(e.maker, sequence + 2), id)
        == LifeIn(Settle(bag, first, e.maker), e.taker, id)
  {
    hide ExecutionEvent, Life.Next;
    var first := First(bag, taker);
    var e := Execute(taker, bag[first]);
    ExecutionMovesOn(taker, e.quantity, taker.updatedAt, sequence + 1);
    ExecutionMovesOn(bag[first], e.quantity, taker.updatedAt, sequence + 2);
    ExecutionNames(e.taker, sequence + 1);
    ExecutionNames(e.maker, sequence + 2);
  }

  lemma ExecutionNames(o: OrderValue, sequence: nat)
    ensures ExecutionEvent(o, sequence).orderId == o.orderId
  {
  }

  lemma SettleKeeps(bag: Bag, taker: OrderValue, symbolId: nat, nextOrder: nat)
    requires Sound(bag, symbolId, nextOrder) && taker.orderId !in bag && taker.leaves <= taker.quantity
    requires Matches(bag, taker) != {}
    ensures First(bag, taker) in bag
    ensures var e := Execute(taker, bag[First(bag, taker)]);
      var rest := Settle(bag, First(bag, taker), e.maker);
      && Sound(rest, symbolId, nextOrder) && e.taker.orderId !in rest
      && e.taker.leaves <= e.taker.quantity && e.taker.leaves < taker.leaves
  {
    SettleKeepsSound(bag, taker, symbolId, nextOrder);
  }

  lemma {:induction false} SweepLives(bag: Bag, taker: OrderValue, symbolId: nat, nextOrder: nat,
                                      sequence: nat, id: nat)
    requires Sound(bag, symbolId, nextOrder) && taker.orderId !in bag && taker.leaves <= taker.quantity
    ensures var s := Sweep(bag, taker);
      Lives(LifeIn(bag, taker, id), Events(s.executions, sequence), id) == LifeIn(s.bag, s.taker, id)
    decreases taker.leaves
  {
    hide LifeIn, Sound, Matches, First, Execute, Settle, Life.Advance, ExecutionEvent;
    if Matches(bag, taker) != {} {
      SettleKeeps(bag, taker, symbolId, nextOrder);
      var first := First(bag, taker);
      var e := Execute(taker, bag[first]);
      var rest := Settle(bag, first, e.maker);
      var pair := [ExecutionEvent(e.taker, sequence + 1), ExecutionEvent(e.maker, sequence + 2)];
      ExecutionLives(bag, taker, symbolId, nextOrder, sequence, id);
      SweepLives(rest, e.taker, symbolId, nextOrder, sequence + 3, id);
      EventsOfFirst(e, Sweep(rest, e.taker).executions, sequence);
      LivesOfTwo(LifeIn(bag, taker, id), pair[0], pair[1], id);
      LivesOfSum(LifeIn(bag, taker, id), pair, Events(Sweep(rest, e.taker).executions, sequence + 3), id);
    }
  }

  // ---------- Steps ----------

  /** An accepted market order for more than it crosses: the one way out of the book that no event tells. */
  ghost predicate Discards(b: Book, c: Command, id: nat) {
    && c.NewOrder? && NewOrderFault(b, c.submit).None?
    && c.submit.orderId == id && c.submit.orderType.Market?
    && c.submit.quantity > Crossing(b, c.submit)
  }

  /** Where the events of a command leave the life of `id`: where the book has it, but for a discard. */
  ghost function Told(b: Book, c: Command, id: nat): Life {
    if Discards(b, c, id) then Open(c.submit.price, c.submit.quantity, Crossing(b, c.submit))
    else LifeOf(Step(b, c).book.bag, id)
  }

  lemma AckLives(b: Book, r: NewOrderRequest, id: nat)
    requires NewOrderFault(b, r).None?
    ensures var taker := NewOrderValue(r, b.nextOrder);
      Lives(LifeOf(b.bag, id), [AckEvent(taker, b.nextEvent)], id) == LifeIn(b.bag, taker, id)
  {
    LivesOfOne(LifeOf(b.bag, id), AckEvent(NewOrderValue(r, b.nextOrder), b.nextEvent), id);
  }

  lemma RestLives(b: Book, r: NewOrderRequest, id: nat)
    requires NewOrderFault(b, r).None?
    ensures LifeIn(SweepOf(b, r).bag, SweepOf(b, r).taker, id) == Told(b, NewOrder(r), id)
  {
    hide Sweep, Matches, Leaves, Crossing, Events, Trades;
    CrossingIsMatching(b, r);
    SweepIsMaximal(b.bag, NewOrderValue(r, b.nextOrder));
    SweepShrinks(b.bag, NewOrderValue(r, b.nextOrder));
  }

  lemma AcceptLives(b: Book, r: NewOrderRequest, id: nat)
    requires WellFormed(b) && NewOrderFault(b, r).None?
    ensures Lives(LifeOf(b.bag, id), Accept(b, r).report.events, id) == Told(b, NewOrder(r), id)
  {
    hide Sweep, Events, Trades, Told, LifeIn, Lives, Sound;
    var taker := NewOrderValue(r, b.nextOrder);
    AckLives(b, r, id);
    SweepLives(b.bag, taker, b.symbolId, b.nextOrder, b.nextEvent + 1, id);
    RestLives(b, r, id);
    LivesOfSum(LifeOf(b.bag, id), [AckEvent(taker, b.nextEvent)],
               Events(SweepOf(b, r).executions, b.nextEvent + 1), id);
  }

  lemma CancelLives(b: Book, r: CancelRequest, id: nat)
    requires WellFormed(b)
    ensures Lives(LifeOf(b.bag, id), CancelOrder(b, r).report.events, id) == LifeOf(CancelOrder(b, r).book.bag, id)
  {
    LivesOfOne(LifeOf(b.bag, id), CancelOrder(b, r).report.events[0], id);
  }

  lemma ReplaceLives(b: Book, r: ReplaceRequest, id: nat)
    requires WellFormed(b) && ReplaceFault(b, r).None?
    ensures Lives(LifeOf(b.bag, id), Step(b, Replace(r)).report.events, id) == LifeOf(Step(b, Replace(r)).book.bag, id)
  {
    hide Accept, Sweep, Lives, LifeOf, WellFormed, Matches, Leaves, Crossing;
    var request := SubmitHalf(r, b.bag[r.oldOrderId]);
    var between := AfterCancel(b, r);
    var submitted := Accept(between, request);
    var ack := ReplaceAckEvent(r.oldOrderId, Residual(SweepOf(between, request)),
                               submitted.book.nextEvent, r.timestamp);
    var cancelled := CancelOrder(b, CancelHalf(r)).report.events;
    RestingIsLimit(b, r.oldOrderId);
    StepKeepsWellFormed(b, Cancel(CancelHalf(r)));
    CancelLives(b, CancelHalf(r), id);
    AcceptLives(between, request, id);
    LivesOfOne(LifeOf(between.bag, id), ack, id);
    LivesOfSum(LifeOf(b.bag, id), cancelled, [ack], id);
    LivesOfSum(LifeOf(b.bag, id), cancelled + [ack], submitted.report.events, id);
  }

  lemma RestingIsLimit(b: Book, id: nat)
    requires WellFormed(b) && id in b.bag
    ensures b.bag[id].orderType.Limit?
  {
  }

  /** One command: the events tell every id where the book has it, except for a discarded order, which stays open. */
  lemma StepLives(b: Book, c: Command, id: nat)
    requires WellFormed(b)
    ensures Lives(LifeOf(b.bag, id), Step(b, c).report.events, id) == Told(b, c, id)
    ensures Discards(b, c, id) ==> id !in Step(b, c).book.bag
  {
    hide Accept, Lives, LifeOf, WellFormed, Crossing;
    match c
    case NewOrder(r) =>
      var fault := NewOrderFault(b, r);
      if fault.None? {
        AcceptLives(b, r, id);
        if r.orderType.Market? { DiscardedIsGone(b, r); }
      } else {
        LivesOfOne(LifeOf(b.bag, id), RejectEvent(Reject, r.orderId, b.symbolId, fault, b.nextEvent, r.timestamp), id);
      }
    case Cancel(r) => CancelLives(b, r, id);
    case Replace(r) =>
      var fault := ReplaceFault(b, r);
      if fault.None? {
        ReplaceLives(b, r, id);
      } else {
        LivesOfOne(LifeOf(b.bag, id),
                   RejectEvent(ReplaceReject, r.oldOrderId, b.symbolId, fault, b.nextEvent, r.timestamp), id);
      }
  }

  lemma DiscardedIsGone(b: Book, r: NewOrderRequest)
    requires NewOrderFault(b, r).None? && r.orderType.Market?
    ensures r.orderId !in Accept(b, r).book.bag
  {
    hide Sweep;
    SweepShrinks(b.bag, NewOrderValue(r, b.nextOrder));
  }

  // ---------- Whole runs ----------

  /** The life of `id` over a run, if each discarded order is closed by hand. */
  ghost function RunLife(b: Book, cs: seq<Command>, id: nat): Life {
    if cs == [] then LifeOf(b.bag, id)
    else
      var before, last := cs[..|cs| - 1], cs[|cs| - 1];
      var told := Lives(RunLife(b, before, id), Step(Run(b, before), last).report.events, id);
      if Discards(Run(b, before), last, id) then Closed else told
  }

  /**
   * Over every run each incarnation of each id is told by one Ack, then partial fills that grow, then at most one
   * of Fill and CancelAck, and the book agrees with where the story stands.
   */
  lemma {:induction false} EveryLifeIsTold(symbolId: nat, cs: seq<Command>, id: nat)
    ensures RunLife(EmptyBook(symbolId), cs, id) == LifeOf(Run(EmptyBook(symbolId), cs).bag, id)
  {
    hide Step, Lives, Discards, WellFormed;
    if cs != [] {
      var before := cs[..|cs| - 1];
      EveryLifeIsTold(symbolId, before, id);
      RunIsWellFormed(symbolId, before);
      StepLives(Run(EmptyBook(symbolId), before), cs[|cs| - 1], id);
    }
  }

  /** All events of a history, in the order reported. */
  function AllEvents(rs: seq<Report>): seq<Event> {
    if rs == [] then [] else AllEvents(rs[..|rs| - 1]) + rs[|rs| - 1].events
  }

  /** Did the run discard an order under `id`? */
  ghost predicate RunDiscards(b: Book, cs: seq<Command>, id: nat) {
    cs != [] &&
      (RunDiscards(b, cs[..|cs| - 1], id) || Discards(Run(b, cs[..|cs| - 1]), cs[|cs| - 1], id))
  }

  /** Events that tell a story from its beginning leave an open order as it is or break it. */
  lemma {:induction false} OpenStaysOrBreaks(open: Life, es: seq<Event>, id: nat)
    requires open.Open? && !Lives(Closed, es, id).Broken?
    ensures Lives(open, es, id).Broken? || (Lives(open, es, id) == open && Lives(Closed, es, id).Closed?)
  {
    if es != [] {
      OpenStaysOrBreaks(open, es[..|es| - 1], id);
    }
  }

  lemma {:induction false} BrokenStaysBroken(es: seq<Event>, id: nat)
    ensures Lives(Broken, es, id).Broken?
  {
    if es != [] {
      BrokenStaysBroken(es[..|es| - 1], id);
    }
  }

  /** The events told of `id` over a whole run, with nothing closed by hand. */
  ghost function Story(b: Book, cs: seq<Command>, id: nat): Life {
    Lives(Closed, AllEvents(Reports(b, cs)), id)
  }

  lemma StoryOfLast(b: Book, cs: seq<Command>, id: nat)
    requires cs != []
    ensures var before, last := cs[..|cs| - 1], cs[|cs| - 1];
      Story(b, cs, id) == Lives(Story(b, before, id), Step(Run(b, before), last).report.events, id)
  {
    hide Step, Lives;
    var before, last := cs[..|cs| - 1], cs[|cs| - 1];
    var report := Step(Run(b, before), last).report;
    assert (Reports(b, before) + [report])[..|Reports(b, before)|] == Reports(b, before);
    LivesOfSum(Closed, AllEvents(Reports(b, before)), report.events, id);
  }

  lemma NothingTold(b: Book, id: nat)
    ensures Story(b, [], id) == Closed
  {
  }

  /** A discard cannot be made up for: from then on the story is stuck or broken. */
  lemma StepAfterDiscard(b: Book, c: Command, life: Life, id: nat)
    requires WellFormed(b) && (life.Broken? || (life.Open? && id !in b.bag))
    ensures var after := Lives(life, Step(b, c).report.events, id);
      after.Broken? || (after.Open? && id !in Step(b, c).book.bag)
  {
    hide Step, Lives, Discards, WellFormed;
    StepLives(b, c, id);
    if life.Open? {
      OpenStaysOrBreaks(life, Step(b, c).report.events, id);
    } else {
      BrokenStaysBroken(Step(b, c).report.events, id);
    }
  }

  /** The reported events alone tell where an id stands if and only if no order was discarded under it. */
  lemma EventsTellAllIff(symbolId: nat, cs: seq<Command>, id: nat)
    ensures var b := EmptyBook(symbolId);
      Story(b, cs, id) == LifeOf(Run(b, cs).bag, id) <==> !RunDiscards(b, cs, id)
  {
    RunStory(symbolId, cs, id);
  }

  lemma {:induction false} RunStory(symbolId: nat, cs: seq<Command>, id: nat)
    ensures var b := EmptyBook(symbolId);
      if RunDiscards(b, cs, id)
      then Story(b, cs, id).Broken? || (Story(b, cs, id).Open? && id !in Run(b, cs).bag)
      else Story(b, cs, id) == LifeOf(Run(b, cs).bag, id)
  {
    hide Step, Lives, Story, Discards, WellFormed;
    var b := EmptyBook(symbolId);
    NothingTold(b, id);
    if cs != [] {
      var before := cs[..|cs| - 1];
      RunStory(symbolId, before, id);
      RunIsWellFormed(symbolId, before);
      StoryOfLast(b, cs, id);
      StepLives(Run(b, before), cs[|cs| - 1], id);
      if RunDiscards(b, before, id) {
        StepAfterDiscard(Run(b, before), cs[|cs| - 1], Story(b, before, id), id);
      }
    }
  }

  /** It does happen: a market order that meets an empty book is acknowledged and never heard of again. */
  lemma MarketOrderCanVanish(r: NewOrderRequest)
    requires NewOrderFault(EmptyBook(r.symbolId), r).None? && r.orderType.Market?
    ensures Discards(EmptyBook(r.symbolId), NewOrder(r), r.orderId)
    ensures var o := Submit(EmptyBook(r.symbolId), r);
      o.book.bag == map[] && |o.report.events| == 1 && o.report.events[0].kind.Ack? && o.report.trades == []
  {
    var b := EmptyBook(r.symbolId);
    var taker := NewOrderValue(r, b.nextOrder);
    assert Matches(b.bag, taker) == {} == Reached(b.bag, r);
    assert SweepOf(b, r) == Swept(b.bag, taker, []);
  }
}
