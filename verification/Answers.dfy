/** What every command is answered: which are accepted, what the others are told and why, and at what time. */
module Answers {
  import opened Model
  import opened Matching
  import opened Books
  import opened Executions
  import opened Replacing

  // ---------- Refusals ----------

  /** The kind of event that refuses a command. */
  function RefusalOf(c: Command): EventType {
    match c
    case NewOrder(_) => Reject
    case Cancel(_) => CancelReject
    case Replace(_) => ReplaceReject
  }

  /** The command changes nothing but the event number, and its whole answer is one event that carries the reason. */
  ghost predicate RefusedFor(b: Book, c: Command, reason: RejectReason) {
    && Step(b, c).book == b.(nextEvent := b.nextEvent + 1)
    && Step(b, c).report.trades == []
    && |Step(b, c).report.events| == 1
    && var e := Step(b, c).report.events[0];
      && e.kind == RefusalOf(c) && e.symbolId == b.symbolId && e.orderId == Target(c)
      && e.relatedOrderId == INVALID_ID
      && e.price == e.quantity == e.leaves == 0
      && e.reason == reason && e.sequence == b.nextEvent && e.timestamp == TimeOf(c)
  }

  ghost predicate NoRefusal(b: Book, c: Command) {
    forall e :: e in Step(b, c).report.events ==> !IsRefusal(e)
  }

  /** A submission is refused for the first of these reasons, and accepted if there is none. */
  lemma SubmitAnswer(b: Book, r: NewOrderRequest)
    ensures var refused := (reason: RejectReason) => RefusedFor(b, NewOrder(r), reason);
      if r.symbolId != b.symbolId then refused(UnknownSymbol)
      else if r.orderId == 0 then refused(InvalidRequest)
      else if r.orderId in b.bag then refused(DuplicateOrderId)
      else if r.quantity <= 0 then refused(InvalidQuantity)
      else if r.orderType.Limit? && r.price <= 0 then refused(InvalidPrice)
      else NoRefusal(b, NewOrder(r)) && Step(b, NewOrder(r)).report.events[0].kind.Ack?
  {
    hide Accept, Sweep;
    RefusedOrCarriedOut(b, NewOrder(r));
    if NewOrderFault(b, r).None? { AckComesFirst(b, r); }
  }

  lemma AckComesFirst(b: Book, r: NewOrderRequest)
    requires NewOrderFault(b, r).None?
    ensures Accept(b, r).report.events[0].kind.Ack?
  {
  }

  /** A cancel is refused when the order does not rest; otherwise the order is told off as it was, and is gone. */
  lemma CancelAnswer(b: Book, r: CancelRequest)
    requires WellFormed(b)
    ensures var refused := (reason: RejectReason) => RefusedFor(b, Cancel(r), reason);
      var o := Step(b, Cancel(r));
      if r.symbolId != b.symbolId then refused(UnknownSymbol)
      else if r.orderId !in b.bag then refused(OrderNotFound)
      else
        && o.book == b.(nextEvent := b.nextEvent + 1, bag := o.book.bag)
        && r.orderId !in o.book.bag
        && (forall id :: id in b.bag && id != r.orderId ==> id in o.book.bag && o.book.bag[id] == b.bag[id])
        && o.book.bag.Keys <= b.bag.Keys
        && o.report.trades == [] && |o.report.events| == 1
        && var e := o.report.events[0];
          && e.kind.CancelAck? && e.symbolId == b.symbolId && e.orderId == r.orderId && e.relatedOrderId == INVALID_ID
          && e.price == b.bag[r.orderId].price && e.quantity == b.bag[r.orderId].quantity
          && e.leaves == b.bag[r.orderId].leaves > 0
          && e.reason.None? && e.sequence == b.nextEvent && e.timestamp == r.timestamp
  {
  }

  /** A replace is refused for the first of these reasons, and accepted if there is none. */
  lemma ReplaceAnswer(b: Book, r: ReplaceRequest)
    requires WellFormed(b)
    ensures var refused := (reason: RejectReason) => RefusedFor(b, Replace(r), reason);
      if r.symbolId != b.symbolId then refused(UnknownSymbol)
      else if r.oldOrderId !in b.bag then refused(OrderNotFound)
      else if r.newOrderId == 0 || r.newOrderId in b.bag then refused(DuplicateOrderId)
      else if r.newQuantity <= 0 then refused(InvalidQuantity)
      else if r.newPrice <= 0 then refused(InvalidPrice)
      else NoRefusal(b, Replace(r)) && CancelAckComesFirst(Step(b, Replace(r)).report, r)
  {
    hide Accept, Sweep, Uncrossed;
    RefusedOrCarriedOut(b, Replace(r));
    NeverAlreadyClosed(b, CancelHalf(r), r);
    if ReplaceFault(b, r).None? { ReplaceAckContents(b, r); }
  }

  /** The report of an accepted replace begins with the CancelAck of the old order and the ReplaceAck of the new one. */
  predicate CancelAckComesFirst(report: Report, r: ReplaceRequest) {
    && |report.events| >= 2
    && report.events[0].kind.CancelAck? && report.events[0].orderId == r.oldOrderId
    && report.events[1].kind.ReplaceAck? && report.events[1].orderId == r.newOrderId
  }

  /**
   * Which replaces are accepted: those of an order that could be cancelled by one that could be submitted beside it,
   * as a limit order of either side.
   */
  lemma ReplaceIsAcceptedIff(b: Book, r: ReplaceRequest, side: Side)
    requires WellFormed(b)
    ensures NoRefusal(b, Replace(r)) <==>
      && NoRefusal(b, Cancel(CancelRequest(r.symbolId, r.oldOrderId, r.timestamp)))
      && NoRefusal(b, NewOrder(NewOrderRequest(r.newOrderId, r.symbolId, side, Limit, r.newPrice, r.newQuantity,
                                               r.timestamp)))
    ensures ReplaceFault(b, r).None? <==> NoRefusal(b, Replace(r))
  {
    hide Step, WellFormed;
    var cancel := CancelRequest(r.symbolId, r.oldOrderId, r.timestamp);
    var submit := NewOrderRequest(r.newOrderId, r.symbolId, side, Limit, r.newPrice, r.newQuantity, r.timestamp);
    NeverAlreadyClosed(b, cancel, r);
    NoRefusalIff(b, Replace(r));
    NoRefusalIff(b, Cancel(cancel));
    NoRefusalIff(b, NewOrder(submit));
  }

  lemma NoRefusalIff(b: Book, c: Command)
    ensures NoRefusal(b, c) <==> !Refused(b, c)
  {
    hide Step;
    RefusedOrCarriedOut(b, c);
    if Refused(b, c) {
      assert Step(b, c).report.events[0] in Step(b, c).report.events;
    }
  }

  // ---------- Times and symbols ----------

  function TimeOf(c: Command): nat {
    match c
    case NewOrder(r) => r.timestamp
    case Cancel(r) => r.timestamp
    case Replace(r) => r.timestamp
  }

  /** Every event and every trade names this symbol and time; only a ReplaceAck names a second order. */
  predicate Stamped(report: Report, symbolId: nat, timestamp: nat) {
    && (forall e :: e in report.events ==>
          && e.symbolId == symbolId && e.timestamp == timestamp
          && (e.relatedOrderId != INVALID_ID ==> e.kind.ReplaceAck?)
          && (e.reason.None? <==> !IsRefusal(e)))
    && (forall t :: t in report.trades ==> t.symbolId == symbolId && t.timestamp == timestamp)
  }

  /** Both parties of the execution have this symbol, and were last updated at this time. */
  predicate DoneAt(e: Execution, symbolId: nat, timestamp: nat) {
    && e.taker.symbolId == e.maker.symbolId == symbolId
    && e.taker.updatedAt == e.maker.updatedAt == timestamp
  }

  lemma {:induction false} SweepIsDoneAt(bag: Bag, taker: OrderValue)
    ensures forall e :: e in Sweep(bag, taker).executions ==> DoneAt(e, taker.symbolId, taker.updatedAt)
    decreases taker.leaves
  {
    if Matches(bag, taker) != {} {
      var id := First(bag, taker);
      var e := Execute(taker, bag[id]);
      assert id in Matches(bag, taker);
      SweepIsDoneAt(Settle(bag, id, e.maker), e.taker);
    }
  }

  lemma {:induction false} ExecutionsAreStamped(es: seq<Execution>, tradeId: nat, sequence: nat,
                                                symbolId: nat, timestamp: nat)
    requires forall e :: e in es ==> DoneAt(e, symbolId, timestamp)
    ensures Stamped(Report(Events(es, sequence), Trades(es, tradeId, sequence)), symbolId, timestamp)
  {
    if es != [] {
      assert es[|es| - 1] in es;
      ExecutionsAreStamped(es[..|es| - 1], tradeId, sequence, symbolId, timestamp);
    }
  }

  lemma AcceptIsStamped(b: Book, r: NewOrderRequest)
    requires NewOrderFault(b, r).None?
    ensures Stamped(Accept(b, r).report, b.symbolId, r.timestamp)
  {
    hide Sweep, Events, Trades;
    var es := SweepOf(b, r).executions;
    SweepIsDoneAt(b.bag, NewOrderValue(r, b.nextOrder));
    ExecutionsAreStamped(es, b.nextTrade, b.nextEvent + 1, b.symbolId, r.timestamp);
  }

  /** Whatever a command reports, about its own order or another, is about its symbol and at its time. */
  lemma ReportIsStamped(b: Book, c: Command)
    requires WellFormed(b)
    ensures Stamped(Step(b, c).report, b.symbolId, TimeOf(c))
    ensures c.Symbol() == b.symbolId || Refused(b, c)
  {
    hide Accept, Sweep, Uncrossed;
    match c
    case NewOrder(r) =>
      if NewOrderFault(b, r).None? { AcceptIsStamped(b, r); }
    case Cancel(r) =>
    case Replace(r) =>
      if ReplaceFault(b, r).None? { ReplaceIsStamped(b, r); }
  }

  lemma ReplaceIsStamped(b: Book, r: ReplaceRequest)
    requires WellFormed(b) && ReplaceFault(b, r).None?
    ensures Stamped(Step(b, Replace(r)).report, b.symbolId, r.timestamp)
  {
    hide Accept, Sweep, Uncrossed;
    var request := SubmitHalf(r, b.bag[r.oldOrderId]);
    var between := AfterCancel(b, r);
    AcceptIsStamped(between, request);
    SweepShrinks(between.bag, NewOrderValue(request, between.nextOrder));
  }

  // ---------- The orders that rest ----------

  /** A submission that rests is the order asked for, under the next sequence; nothing else joins the book. */
  lemma RestingIsAsRequested(b: Book, r: NewOrderRequest)
    requires NewOrderFault(b, r).None?
    ensures var bag := Accept(b, r).book.bag;
      && bag.Keys <= b.bag.Keys + {r.orderId}
      && (r.orderId in bag ==>
        var o := bag[r.orderId];
          && o.orderId == r.orderId && o.symbolId == r.symbolId && o.side == r.side && o.orderType == r.orderType
          && o.price == r.price && o.quantity == r.quantity && o.sequence == b.nextOrder
          && o.createdAt == o.updatedAt == r.timestamp)
  {
    hide Sweep;
    SweepShrinks(b.bag, NewOrderValue(r, b.nextOrder));
    TakerKeepsTime(b.bag, NewOrderValue(r, b.nextOrder));
  }

  lemma {:induction false} TakerKeepsTime(bag: Bag, taker: OrderValue)
    ensures Sweep(bag, taker).taker.updatedAt == taker.updatedAt
    ensures forall id :: id in Sweep(bag, taker).bag && id in bag ==>
      Sweep(bag, taker).bag[id] == bag[id] || Sweep(bag, taker).bag[id].updatedAt == taker.updatedAt
    decreases taker.leaves
  {
    if Matches(bag, taker) != {} {
      var id := First(bag, taker);
      var e := Execute(taker, bag[id]);
      TakerKeepsTime(Settle(bag, id, e.maker), e.taker);
      SweepShrinks(Settle(bag, id, e.maker), e.taker);
    }
  }

  /** An order that a command changes, or brings, bears its time. */
  lemma ChangesAreTimed(b: Book, c: Command, id: nat)
    requires id in Step(b, c).book.bag
    ensures var o := Step(b, c).book.bag[id]; (id in b.bag && o == b.bag[id]) || o.updatedAt == TimeOf(c)
  {
    hide Accept;
    match c
    case NewOrder(r) =>
      if NewOrderFault(b, r).None? { AcceptIsTimed(b, r, id); }
    case Cancel(r) =>
    case Replace(r) =>
      if ReplaceFault(b, r).None? { AcceptIsTimed(AfterCancel(b, r), SubmitHalf(r, b.bag[r.oldOrderId]), id); }
  }

  lemma AcceptIsTimed(b: Book, r: NewOrderRequest, id: nat)
    requires NewOrderFault(b, r).None? && id in Accept(b, r).book.bag
    ensures var o := Accept(b, r).book.bag[id]; (id in b.bag && o == b.bag[id]) || o.updatedAt == r.timestamp
  {
    hide Sweep;
    SweepShrinks(b.bag, NewOrderValue(r, b.nextOrder));
    TakerKeepsTime(b.bag, NewOrderValue(r, b.nextOrder));
  }
}
