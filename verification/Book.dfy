/** One order book as a value: the three requests as functions from a book to a book and a report. */
module Books {
  import opened Model
  import opened Matching

  datatype Book = Book(symbolId: nat, nextOrder: nat, nextEvent: nat, nextTrade: nat, bag: Bag)

  datatype Outcome = Outcome(book: Book, report: Report)

  function EmptyBook(symbolId: nat): Book {
    Book(symbolId, 1, 1, 1, map[])
  }

  // ---------- Validation ----------

  /** Why a new order is refused; None when it is accepted. */
  function NewOrderFault(b: Book, r: NewOrderRequest): RejectReason {
    if r.symbolId != b.symbolId then UnknownSymbol
    else if r.orderId == INVALID_ID then InvalidRequest
    else if r.orderId in b.bag then DuplicateOrderId
    else if r.quantity <= 0 then InvalidQuantity
    else if r.orderType.Limit? && r.price <= 0 then InvalidPrice
    else RejectReason.None
  }

  function CancelFault(b: Book, r: CancelRequest): RejectReason {
    if r.symbolId != b.symbolId then UnknownSymbol
    else if r.orderId !in b.bag then OrderNotFound
    else if b.bag[r.orderId].IsTerminal() then OrderAlreadyClosed
    else RejectReason.None
  }

  function ReplaceFault(b: Book, r: ReplaceRequest): RejectReason {
    if r.symbolId != b.symbolId then UnknownSymbol
    else if r.oldOrderId !in b.bag then OrderNotFound
    else if b.bag[r.oldOrderId].IsTerminal() then OrderAlreadyClosed
    else if r.newOrderId == INVALID_ID || r.newOrderId in b.bag then DuplicateOrderId
    else if r.newQuantity <= 0 then InvalidQuantity
    else if r.newPrice <= 0 then InvalidPrice
    else RejectReason.None
  }

  // ---------- The three requests ----------

  /** A refused request consumes one event number and changes nothing else. */
  function Refuse(b: Book, kind: EventType, orderId: nat, reason: RejectReason, timestamp: nat): Outcome {
    Outcome(b.(nextEvent := b.nextEvent + 1),
            Report([RejectEvent(kind, orderId, b.symbolId, reason, b.nextEvent, timestamp)], []))
  }

  function NewOrderValue(r: NewOrderRequest, sequence: nat): OrderValue
    requires r.quantity > 0
  {
    OrderValue(r.orderId, r.symbolId, r.side, r.orderType, r.price, r.quantity, r.quantity,
               sequence, r.timestamp, r.timestamp, OrderStatus.New)
  }

  predicate Rests(s: Swept) {
    s.taker.orderType.Limit? && s.taker.leaves > 0
  }

  /** The taker as its sweep leaves it, except that a limit residual is marked resting. */
  function Residual(s: Swept): OrderValue {
    if Rests(s) then s.taker.(status := Resting) else s.taker
  }

  /** A limit residual joins the bag; a market residual is dropped. */
  function RestResidual(s: Swept): Bag {
    if Rests(s) then s.bag[s.taker.orderId := Residual(s)] else s.bag
  }

  /** The sweep of an accepted order through the bag. */
  ghost function SweepOf(b: Book, r: NewOrderRequest): Swept
    requires NewOrderFault(b, r).None?
  {
    Sweep(b.bag, NewOrderValue(r, b.nextOrder))
  }

  ghost function Accept(b: Book, r: NewOrderRequest): Outcome
    requires NewOrderFault(b, r).None?
  {
    var s := SweepOf(b, r);
    var n := |s.executions|;
    Outcome(
      Book(b.symbolId, b.nextOrder + 1, b.nextEvent + 1 + 3 * n, b.nextTrade + n, RestResidual(s)),
      Report([AckEvent(NewOrderValue(r, b.nextOrder), b.nextEvent)] + Events(s.executions, b.nextEvent + 1),
             Trades(s.executions, b.nextTrade, b.nextEvent + 1)))
  }

  ghost function Submit(b: Book, r: NewOrderRequest): Outcome {
    var fault := NewOrderFault(b, r);
    if fault.None? then Accept(b, r) else Refuse(b, Reject, r.orderId, fault, r.timestamp)
  }

  function CancelOrder(b: Book, r: CancelRequest): Outcome {
    var fault := CancelFault(b, r);
    if !fault.None? then Refuse(b, CancelReject, r.orderId, fault, r.timestamp)
    else
      Outcome(b.(nextEvent := b.nextEvent + 1, bag := b.bag - {r.orderId}),
              Report([CancelAckEvent(b.bag[r.orderId], b.nextEvent, r.timestamp)], []))
  }

  function CancelHalf(r: ReplaceRequest): CancelRequest {
    CancelRequest(r.symbolId, r.oldOrderId, r.timestamp)
  }

  /** The new order keeps the side and type of the order it replaces. */
  function SubmitHalf(r: ReplaceRequest, replaced: OrderValue): NewOrderRequest {
    NewOrderRequest(r.newOrderId, r.symbolId, replaced.side, replaced.orderType, r.newPrice, r.newQuantity, r.timestamp)
  }

  /** Once a replace passes validation its submit half is accepted, so it never cancels and then rejects. */
  lemma ReplaceIsAtomic(b: Book, r: ReplaceRequest)
    requires ReplaceFault(b, r).None?
    ensures CancelFault(b, CancelHalf(r)).None?
    ensures NewOrderFault(CancelOrder(b, CancelHalf(r)).book, SubmitHalf(r, b.bag[r.oldOrderId])).None?
  {
  }

  /** The book between the two halves of a replace. */
  function AfterCancel(b: Book, r: ReplaceRequest): (after: Book)
    requires ReplaceFault(b, r).None?
    ensures NewOrderFault(after, SubmitHalf(r, b.bag[r.oldOrderId])).None?
  {
    ReplaceIsAtomic(b, r);
    CancelOrder(b, CancelHalf(r)).book
  }

  /** An accepted order is reported without any Reject event. */
  lemma NoReject(b: Book, r: NewOrderRequest)
    requires NewOrderFault(b, r).None?
    ensures forall e :: e in Submit(b, r).report.events ==> !e.kind.Reject?
  {
    NoRejectAmong(SweepOf(b, r).executions, b.nextEvent + 1);
  }

  lemma {:induction false} NoRejectAmong(es: seq<Execution>, sequence: nat)
    ensures forall e :: e in Events(es, sequence) ==> e.kind.Fill? || e.kind.PartialFill?
  {
    if es != [] {
      NoRejectAmong(es[..|es| - 1], sequence);
    }
  }

  /** Cancel, submit, and one more event number for the ReplaceAck, which is reported between the two. */
  ghost function ReplaceOrder(b: Book, r: ReplaceRequest): Outcome {
    var fault := ReplaceFault(b, r);
    if !fault.None? then Refuse(b, ReplaceReject, r.oldOrderId, fault, r.timestamp)
    else
      var request := SubmitHalf(r, b.bag[r.oldOrderId]);
      var submitted := Accept(AfterCancel(b, r), request);
      var number := submitted.book.nextEvent;
      var ack := ReplaceAckEvent(r.oldOrderId, Residual(SweepOf(AfterCancel(b, r), request)), number, r.timestamp);
      Outcome(submitted.book.(nextEvent := number + 1),
              CancelOrder(b, CancelHalf(r)).report.AddEvent(ack).Append(submitted.report))
  }

  ghost function Step(b: Book, c: Command): Outcome {
    match c
    case NewOrder(r) => Submit(b, r)
    case Cancel(r) => CancelOrder(b, r)
    case Replace(r) => ReplaceOrder(b, r)
  }

  /** The book after a history of commands. */
  ghost function Run(b: Book, cs: seq<Command>): Book {
    if cs == [] then b else Step(Run(b, cs[..|cs| - 1]), cs[|cs| - 1]).book
  }

  /** The reports of a history, one per command. */
  ghost function Reports(b: Book, cs: seq<Command>): seq<Report> {
    if cs == [] then []
    else Reports(b, cs[..|cs| - 1]) + [Step(Run(b, cs[..|cs| - 1]), cs[|cs| - 1]).report]
  }

  lemma RunOfTwo(b: Book, c: Command, d: Command)
    ensures Run(b, [c, d]) == Step(Step(b, c).book, d).book
  {
    assert [c, d][..1] == [c] && [c][..0] == [];
    assert Run(b, []) == b;
    assert Run(b, [c]) == Step(b, c).book;
  }

  // ---------- The invariant of reachable books ----------

  predicate IsResting(o: OrderValue, id: nat, symbolId: nat, nextOrder: nat) {
    && o.orderId == id && id != INVALID_ID
    && o.symbolId == symbolId
    && o.orderType.Limit?
    && o.price > 0
    && 0 < o.leaves <= o.quantity
    && o.sequence < nextOrder
    && (o.status.Resting? || (o.status.PartiallyFilled? && o.leaves < o.quantity))
  }

  predicate Sound(bag: Bag, symbolId: nat, nextOrder: nat) {
    && (forall id :: id in bag ==> IsResting(bag[id], id, symbolId, nextOrder))
    && (forall i, j :: i in bag && j in bag && bag[i].sequence == bag[j].sequence ==> i == j)
  }

  /** No resting buy meets a resting sell. */
  predicate Uncrossed(bag: Bag) {
    forall i, j :: i in bag && j in bag && bag[i].side.Buy? && bag[j].side.Sell? ==> bag[i].price < bag[j].price
  }

  predicate WellFormed(b: Book) {
    Sound(b.bag, b.symbolId, b.nextOrder) && Uncrossed(b.bag)
  }

  /** An order at two moments of its life: only its leaves, status and update time may differ. */
  predicate SameOrder(before: OrderValue, after: OrderValue) {
    after == before.(leaves := after.leaves, status := after.status, updatedAt := after.updatedAt)
    && after.leaves <= before.leaves
  }

  /** The same ids at the same prices, and the same older and younger orders. */
  predicate SamePriority(bag: Bag, other: Bag) {
    && bag.Keys == other.Keys
    && (forall id :: id in bag ==> bag[id].side == other[id].side && bag[id].price == other[id].price)
    && (forall i, j :: i in bag && j in bag ==>
          (bag[i].sequence < bag[j].sequence <==> other[i].sequence < other[j].sequence))
  }

  /** The order of a side that no other order of that side is ahead of. */
  ghost predicate IsTop(bag: Bag, side: Side, id: nat) {
    && id in bag && bag[id].side == side
    && forall other :: other in bag && bag[other].side == side ==> !Ahead(bag[other], bag[id])
  }

  /** The match loops look at one order only: if it does not match, none does. */
  lemma TopDecides(bag: Bag, taker: OrderValue, id: nat, symbolId: nat, nextOrder: nat)
    requires Sound(bag, symbolId, nextOrder)
    requires taker.symbolId == symbolId && taker.leaves > 0
    requires IsTop(bag, taker.side.Opposite(), id)
    ensures CanMatch(taker, bag[id]) ==> Matches(bag, taker) != {} && First(bag, taker) == id
    ensures !CanMatch(taker, bag[id]) ==> Matches(bag, taker) == {}
  {
    if CanMatch(taker, bag[id]) {
      assert id in Matches(bag, taker);
      var first := First(bag, taker);
      assert !Ahead(bag[id], bag[first]) && !Ahead(bag[first], bag[id]);
    } else {
      forall other | other in bag ensures !CanMatch(taker, bag[other]) {
      }
    }
  }

  lemma {:induction false} SweepKeepsSound(bag: Bag, taker: OrderValue, symbolId: nat, nextOrder: nat)
    requires Sound(bag, symbolId, nextOrder)
    ensures Sound(Sweep(bag, taker).bag, symbolId, nextOrder)
    decreases taker.leaves
  {
    if Matches(bag, taker) != {} {
      var id := First(bag, taker);
      var e := Execute(taker, bag[id]);
      SweepKeepsSound(Settle(bag, id, e.maker), e.taker, symbolId, nextOrder);
    }
  }

  /** A sweep adds no order, keeps the identity of those it leaves, and ends with nothing left to match. */
  lemma {:induction false} SweepShrinks(bag: Bag, taker: OrderValue)
    ensures var s := Sweep(bag, taker);
      && s.bag.Keys <= bag.Keys
      && (forall id :: id in s.bag ==> SameOrder(bag[id], s.bag[id]))
      && SameOrder(taker, s.taker)
      && Matches(s.bag, s.taker) == {}
    decreases taker.leaves
  {
    if Matches(bag, taker) != {} {
      var id := First(bag, taker);
      var e := Execute(taker, bag[id]);
      SweepShrinks(Settle(bag, id, e.maker), e.taker);
    }
  }

  /** A residual that nothing matches does not cross the book it joins. */
  lemma RestingStaysUncrossed(bag: Bag, taker: OrderValue, symbolId: nat, nextOrder: nat)
    requires Sound(bag, symbolId, nextOrder) && Uncrossed(bag)
    requires taker.symbolId == symbolId && taker.orderType.Limit? && taker.leaves > 0
    requires Matches(bag, taker) == {}
    ensures Uncrossed(bag[taker.orderId := taker.(status := Resting)])
  {
    forall id | id in bag ensures !CanMatch(taker, bag[id]) {
      assert id !in Matches(bag, taker);
    }
  }

  lemma SweepKeepsUncrossed(bag: Bag, taker: OrderValue)
    requires Uncrossed(bag)
    ensures Uncrossed(Sweep(bag, taker).bag)
  {
    SweepShrinks(bag, taker);
  }

  lemma RestingStaysSound(bag: Bag, taker: OrderValue, symbolId: nat, nextOrder: nat)
    requires Sound(bag, symbolId, nextOrder) && taker.orderId !in bag
    requires IsResting(taker.(status := Resting), taker.orderId, symbolId, nextOrder + 1)
    requires taker.sequence == nextOrder
    ensures Sound(bag[taker.orderId := taker.(status := Resting)], symbolId, nextOrder + 1)
  {
  }

  lemma SoundGrows(bag: Bag, symbolId: nat, nextOrder: nat)
    requires Sound(bag, symbolId, nextOrder)
    ensures Sound(bag, symbolId, nextOrder + 1)
  {
  }

  lemma AcceptKeepsWellFormed(b: Book, r: NewOrderRequest)
    requires WellFormed(b) && NewOrderFault(b, r).None?
    ensures WellFormed(Accept(b, r).book)
  {
    hide Sound, Uncrossed, Sweep, Matches;
    var taker := NewOrderValue(r, b.nextOrder);
    var s := Sweep(b.bag, taker);
    SweepKeepsSound(b.bag, taker, b.symbolId, b.nextOrder);
    SweepKeepsUncrossed(b.bag, taker);
    SweepShrinks(b.bag, taker);
    if Rests(s) {
      RestingStaysUncrossed(s.bag, s.taker, b.symbolId, b.nextOrder);
      RestingStaysSound(s.bag, s.taker, b.symbolId, b.nextOrder);
    } else {
      SoundGrows(s.bag, b.symbolId, b.nextOrder);
    }
  }

  /** Every request keeps the invariant, the uncrossed book included. */
  lemma StepKeepsWellFormed(b: Book, c: Command)
    requires WellFormed(b)
    ensures WellFormed(Step(b, c).book)
  {
    match c
    case NewOrder(r) =>
      if NewOrderFault(b, r).None? { AcceptKeepsWellFormed(b, r); }
    case Cancel(r) =>
    case Replace(r) =>
      if ReplaceFault(b, r).None? {
        assert WellFormed(AfterCancel(b, r));
        AcceptKeepsWellFormed(AfterCancel(b, r), SubmitHalf(r, b.bag[r.oldOrderId]));
      }
  }

  lemma StepKeepsSymbol(b: Book, c: Command)
    ensures Step(b, c).book.symbolId == b.symbolId
  {
  }

  lemma {:induction false} RunIsWellFormed(symbolId: nat, cs: seq<Command>)
    ensures WellFormed(Run(EmptyBook(symbolId), cs))
  {
    if cs != [] {
      RunIsWellFormed(symbolId, cs[..|cs| - 1]);
      StepKeepsWellFormed(Run(EmptyBook(symbolId), cs[..|cs| - 1]), cs[|cs| - 1]);
    }
  }

  /** Does the command address the order `id`, or try to reuse its id? */
  predicate Names(c: Command, id: nat) {
    match c
    case NewOrder(r) => r.orderId == id
    case Cancel(r) => r.orderId == id
    case Replace(r) => r.oldOrderId == id || r.newOrderId == id
  }

  // ---------- Refusals ----------

  predicate IsRefusal(e: Event) {
    e.kind.Reject? || e.kind.CancelReject? || e.kind.ReplaceReject?
  }

  predicate Refused(b: Book, c: Command) {
    match c
    case NewOrder(r) => !NewOrderFault(b, r).None?
    case Cancel(r) => !CancelFault(b, r).None?
    case Replace(r) => !ReplaceFault(b, r).None?
  }

  /** The order a command is about, as its reject event names it. */
  function Target(c: Command): nat {
    match c
    case NewOrder(r) => r.orderId
    case Cancel(r) => r.orderId
    case Replace(r) => r.oldOrderId
  }

  /** Commands are all or nothing: one reject event and no change but its number, or no reject event at all. */
  lemma RefusedOrCarriedOut(b: Book, c: Command)
    ensures Refused(b, c) ==>
      && Step(b, c).book == b.(nextEvent := b.nextEvent + 1)
      && |Step(b, c).report.events| == 1 && IsRefusal(Step(b, c).report.events[0])
      && Step(b, c).report.events[0].orderId == Target(c) && !Step(b, c).report.events[0].reason.None?
      && Step(b, c).report.trades == []
    ensures !Refused(b, c) ==> forall e :: e in Step(b, c).report.events ==> !IsRefusal(e)
  {
    hide Accept;
    match c
    case NewOrder(r) =>
      if !Refused(b, c) { NothingRefused(b, r); }
    case Cancel(r) =>
    case Replace(r) =>
      if !Refused(b, c) { NothingRefused(AfterCancel(b, r), SubmitHalf(r, b.bag[r.oldOrderId])); }
  }

  lemma NothingRefused(b: Book, r: NewOrderRequest)
    requires NewOrderFault(b, r).None?
    ensures forall e :: e in Accept(b, r).report.events ==> !IsRefusal(e)
  {
    NoRejectAmong(SweepOf(b, r).executions, b.nextEvent + 1);
  }
}
