/** A resting order that is never executed does not influence anything; cancelling it leaves no trace. */
module Invisible {
  import opened Model
  import opened Matching
  import opened Books
  import opened Symmetry
  import opened Priority
  import opened Executions

  function Without(b: Book, id: nat): Book {
    b.(bag := b.bag - {id})
  }

  /** The order is there, with the quantity it had before. */
  predicate Kept(before: Bag, after: Bag, id: nat) {
    id in before && id in after && after[id].leaves == before[id].leaves
  }

  lemma OtherFirst(bag: Bag, taker: OrderValue, id: nat)
    requires DistinctSequences(bag) && id in bag
    requires Matches(bag, taker) != {} && First(bag, taker) != id
    ensures Matches(bag - {id}, taker) == Matches(bag, taker) - {id}
    ensures Matches(bag - {id}, taker) != {}
    ensures First(bag - {id}, taker) == First(bag, taker)
  {
    var a := First(bag, taker);
    assert a in Matches(bag - {id}, taker);
    var b := First(bag - {id}, taker);
    assert b in Matches(bag, taker);
    assert !Ahead(bag[a], bag[b]) && !Ahead(bag[b], bag[a]);
  }

  /** The order that a sweep selects does not keep its quantity. */
  lemma FirstIsNotKept(bag: Bag, taker: OrderValue, id: nat)
    requires Matches(bag, taker) != {}
    requires Kept(bag, Sweep(bag, taker).bag, id)
    ensures First(bag, taker) != id
    ensures id in Settle(bag, First(bag, taker), Execute(taker, bag[First(bag, taker)]).maker)
  {
    var first := First(bag, taker);
    var e := Execute(taker, bag[first]);
    SweepShrinks(Settle(bag, first, e.maker), e.taker);
  }

  lemma SettleElsewhere(bag: Bag, taker: OrderValue, id: nat)
    requires DistinctSequences(bag) && Matches(bag, taker) != {}
    requires id in bag && First(bag, taker) != id
    ensures var first := First(bag, taker);
      var e := Execute(taker, bag[first]);
      var rest := Settle(bag, first, e.maker);
      && first in bag
      && id in rest && rest[id] == bag[id] && DistinctSequences(rest)
      && Settle(bag - {id}, first, e.maker) == rest - {id}
      && e.taker.leaves < taker.leaves
  {
    var first := First(bag, taker);
    SettleImage(bag, taker, first, Delay(0, 0, 0));
    assert first in Matches(bag, taker);
  }

  lemma NothingWithout(bag: Bag, taker: OrderValue, id: nat)
    requires Matches(bag, taker) == {}
    ensures Matches(bag - {id}, taker) == {}
  {
    assert forall other :: other in Matches(bag - {id}, taker) ==> other in Matches(bag, taker);
  }

  /** A sweep that keeps an order runs as it would without it. */
  lemma {:induction false} SweepWithout(bag: Bag, taker: OrderValue, id: nat)
    requires DistinctSequences(bag) && Kept(bag, Sweep(bag, taker).bag, id)
    ensures var s := Sweep(bag, taker);
      && Sweep(bag - {id}, taker) == s.(bag := s.bag - {id})
      && s.bag[id] == bag[id]
    decreases taker.leaves
  {
    hide Matches, First, Execute, Settle, DistinctSequences;
    if Matches(bag, taker) == {} {
      NothingWithout(bag, taker, id);
    } else {
      FirstIsNotKept(bag, taker, id);
      SettleElsewhere(bag, taker, id);
      OtherFirst(bag, taker, id);
      var first := First(bag, taker);
      var e := Execute(taker, bag[first]);
      SweepWithout(Settle(bag, first, e.maker), e.taker, id);
    }
  }

  lemma AcceptWithout(b: Book, r: NewOrderRequest, id: nat)
    requires WellFormed(b) && NewOrderFault(b, r).None? && r.orderId != id
    requires Kept(b.bag, Accept(b, r).book.bag, id)
    ensures NewOrderFault(Without(b, id), r).None?
    ensures Accept(Without(b, id), r) == Outcome(Without(Accept(b, r).book, id), Accept(b, r).report)
    ensures Residual(SweepOf(Without(b, id), r)) == Residual(SweepOf(b, r))
    ensures Accept(b, r).book.bag[id] == b.bag[id]
  {
    hide Sweep, Events, Trades;
    var taker := NewOrderValue(r, b.nextOrder);
    SweepShrinks(b.bag, taker);
    SweepWithout(b.bag, taker, id);
    var s := SweepOf(b, r);
    assert RestResidual(s.(bag := s.bag - {id})) == RestResidual(s) - {id};
  }

  lemma CancelWithout(b: Book, r: CancelRequest, id: nat)
    requires r.orderId != id
    ensures CancelOrder(Without(b, id), r) == Outcome(Without(CancelOrder(b, r).book, id), CancelOrder(b, r).report)
  {
    assert b.bag - {id} - {r.orderId} == b.bag - {r.orderId} - {id};
  }

  lemma ReplaceWithout(b: Book, r: ReplaceRequest, id: nat)
    requires WellFormed(b) && ReplaceFault(b, r).None? && r.oldOrderId != id && r.newOrderId != id
    requires Kept(b.bag, ReplaceOrder(b, r).book.bag, id)
    ensures ReplaceOrder(Without(b, id), r)
         == Outcome(Without(ReplaceOrder(b, r).book, id), ReplaceOrder(b, r).report)
    ensures ReplaceOrder(b, r).book.bag[id] == b.bag[id]
  {
    hide Accept, Sweep, WellFormed;
    StepKeepsWellFormed(b, Cancel(CancelHalf(r)));
    assert b.bag - {id} - {r.oldOrderId} == b.bag - {r.oldOrderId} - {id};
    assert AfterCancel(Without(b, id), r) == Without(AfterCancel(b, r), id);
    AcceptWithout(AfterCancel(b, r), SubmitHalf(r, b.bag[r.oldOrderId]), id);
  }

  /** A step that neither names nor executes an order does the same without it, and reports the same. */
  lemma StepWithout(b: Book, c: Command, id: nat)
    requires WellFormed(b) && !Names(c, id)
    requires Kept(b.bag, Step(b, c).book.bag, id)
    ensures Step(Without(b, id), c) == Outcome(Without(Step(b, c).book, id), Step(b, c).report)
    ensures Step(b, c).book.bag[id] == b.bag[id]
  {
    hide Accept, Sweep, WellFormed;
    match c
    case NewOrder(r) =>
      if NewOrderFault(b, r).None? { AcceptWithout(b, r, id); }
    case Cancel(r) => CancelWithout(b, r, id);
    case Replace(r) =>
      if ReplaceFault(b, r).None? { ReplaceWithout(b, r, id); }
  }

  /** Over any run that does not name it: an order that ends as it began was invisible all along. */
  lemma {:induction false} RunWithout(b: Book, cs: seq<Command>, id: nat)
    requires WellFormed(b)
    requires forall c :: c in cs ==> !Names(c, id)
    requires Kept(b.bag, Run(b, cs).bag, id)
    ensures WellFormed(Run(b, cs))
    ensures Run(Without(b, id), cs) == Without(Run(b, cs), id)
    ensures Reports(Without(b, id), cs) == Reports(b, cs)
    ensures Run(b, cs).bag[id] == b.bag[id]
  {
    if cs != [] {
      var before, last := cs[..|cs| - 1], cs[|cs| - 1];
      StepKeeps(Run(b, before), last, id);
      RunKeeps(b, before, id);
      RunWithout(b, before, id);
      StepKeepsWellFormed(Run(b, before), last);
      StepWithout(Run(b, before), last, id);
    }
  }

  /**
   * Round trip: a limit order that crosses nothing, left alone by the commands that follow, can be cancelled
   * without a trace. Compare with the run in which it was never submitted: the book holds the same orders in the
   * same priority, and every report in between is the same, the numbers of later orders and events being one on.
   */
  lemma SubmitThenCancel(b: Book, r: NewOrderRequest, cs: seq<Command>, timestamp: nat)
    requires WellFormed(b) && NewOrderFault(b, r).None? && r.orderType.Limit?
    requires Matches(b.bag, NewOrderValue(r, b.nextOrder)) == {}
    requires forall c :: c in cs ==> !Names(c, r.orderId)
    requires Kept(Submit(b, r).book.bag, Run(Submit(b, r).book, cs).bag, r.orderId)
    ensures var submitted := Submit(b, r).book;
      var cancelled := CancelOrder(Run(submitted, cs), CancelRequest(b.symbolId, r.orderId, timestamp));
      var later := Delay(b.nextOrder, 1, 1);
      && cancelled.report.events[0].kind.CancelAck?
      && cancelled.book.bag == later.MapBag(Run(b, cs).bag)
      && SamePriority(Run(b, cs).bag, cancelled.book.bag)
      && Reports(submitted, cs) == later.MapReports(Reports(b, cs))
  {
    hide Step, Accept, CancelOrder, Run, Reports, WellFormed, SamePriority, Names, Matches;
    hide Lens.MapBag, Lens.MapReports;
    var submitted := Submit(b, r).book;
    SubmittedAside(b, r);
    AcceptKeepsWellFormed(b, r);
    RunWithout(submitted, cs, r.orderId);
    DelayedRun(b, cs, 1, 1);
    DelayKeepsPriority(Run(b, cs).bag, Delay(b.nextOrder, 1, 1));
    RunSymbol(submitted, cs);
    CancelRemoves(Run(submitted, cs), CancelRequest(b.symbolId, r.orderId, timestamp));
  }

  /**
   * May the command execute `o`? A new order may if it reaches it, a replace if the order it replaces, at its new
   * price, does. This can be looked up before the command is given.
   */
  predicate MayTouch(b: Book, c: Command, o: OrderValue) {
    match c
    case NewOrder(r) => Reaches(r.side, r.orderType, r.price, o)
    case Cancel(_) => false
    case Replace(r) =>
      r.oldOrderId in b.bag && Reaches(b.bag[r.oldOrderId].side, b.bag[r.oldOrderId].orderType, r.newPrice, o)
  }

  /** No command of the history may execute `o`. */
  ghost predicate AllMiss(b: Book, cs: seq<Command>, o: OrderValue) {
    cs == [] || (AllMiss(b, cs[..|cs| - 1], o) && !MayTouch(Run(b, cs[..|cs| - 1]), cs[|cs| - 1], o))
  }

  /** What the taker does not reach, its sweep does not touch. */
  lemma {:induction false} SweepMisses(bag: Bag, taker: OrderValue, id: nat)
    requires id in bag && !Reaches(taker.side, taker.orderType, taker.price, bag[id])
    ensures id in Sweep(bag, taker).bag && Sweep(bag, taker).bag[id] == bag[id]
    decreases taker.leaves
  {
    if Matches(bag, taker) != {} {
      var first := First(bag, taker);
      var e := Execute(taker, bag[first]);
      assert first in Matches(bag, taker) && first != id;
      SweepMisses(Settle(bag, first, e.maker), e.taker, id);
    }
  }

  lemma AcceptMisses(b: Book, r: NewOrderRequest, id: nat)
    requires NewOrderFault(b, r).None? && r.orderId != id
    requires id in b.bag && !Reaches(r.side, r.orderType, r.price, b.bag[id])
    ensures id in Accept(b, r).book.bag && Accept(b, r).book.bag[id] == b.bag[id]
  {
    hide Sweep;
    SweepShrinks(b.bag, NewOrderValue(r, b.nextOrder));
    SweepMisses(b.bag, NewOrderValue(r, b.nextOrder), id);
  }

  lemma StepMisses(b: Book, c: Command, id: nat)
    requires id in b.bag && !Names(c, id) && !MayTouch(b, c, b.bag[id])
    ensures id in Step(b, c).book.bag && Step(b, c).book.bag[id] == b.bag[id]
  {
    hide Accept, Reaches;
    match c
    case NewOrder(r) =>
      if NewOrderFault(b, r).None? { AcceptMisses(b, r, id); }
    case Cancel(r) =>
    case Replace(r) =>
      if ReplaceFault(b, r).None? { AcceptMisses(AfterCancel(b, r), SubmitHalf(r, b.bag[r.oldOrderId]), id); }
  }

  lemma {:induction false} RunMisses(b: Book, cs: seq<Command>, id: nat)
    requires id in b.bag && AllMiss(b, cs, b.bag[id])
    requires forall c :: c in cs ==> !Names(c, id)
    ensures id in Run(b, cs).bag && Run(b, cs).bag[id] == b.bag[id]
  {
    hide Step, MayTouch;
    if cs != [] {
      RunMisses(b, cs[..|cs| - 1], id);
      StepMisses(Run(b, cs[..|cs| - 1]), cs[|cs| - 1], id);
    }
  }

  /**
   * The round trip under a condition that can be checked before each command: whatever order it submits, or puts in
   * place of another, is on the same side, or its limit does not reach the order's price.
   */
  lemma SubmitMissCancel(b: Book, r: NewOrderRequest, cs: seq<Command>, timestamp: nat)
    requires WellFormed(b) && NewOrderFault(b, r).None? && r.orderType.Limit?
    requires Crossing(b, r) == 0
    requires forall c :: c in cs ==> !Names(c, r.orderId)
    requires AllMiss(Submit(b, r).book, cs, NewOrderValue(r, b.nextOrder))
    ensures var submitted := Submit(b, r).book;
      var cancelled := CancelOrder(Run(submitted, cs), CancelRequest(b.symbolId, r.orderId, timestamp));
      var later := Delay(b.nextOrder, 1, 1);
      && cancelled.report.events[0].kind.CancelAck?
      && cancelled.book.bag == later.MapBag(Run(b, cs).bag)
      && SamePriority(Run(b, cs).bag, cancelled.book.bag)
      && Reports(submitted, cs) == later.MapReports(Reports(b, cs))
  {
    hide Step, CancelOrder, Run, Reports, WellFormed, SamePriority, Names, Matches, MayTouch;
    hide Lens.MapBag, Lens.MapReports, Accept, Crossing;
    CrossingIff(b, r);
    SubmittedAside(b, r);
    SamePlaceMisses(Submit(b, r).book, cs, NewOrderValue(r, b.nextOrder), r.orderId);
    RunMisses(Submit(b, r).book, cs, r.orderId);
    SubmitThenCancel(b, r, cs, timestamp);
  }

  /** Side and price decide. */
  lemma {:induction false} SamePlaceMisses(b: Book, cs: seq<Command>, o: OrderValue, id: nat)
    requires id in b.bag && b.bag[id].side == o.side && b.bag[id].price == o.price
    requires AllMiss(b, cs, o)
    ensures AllMiss(b, cs, b.bag[id])
  {
    hide Run;
    if cs != [] {
      SamePlaceMisses(b, cs[..|cs| - 1], o, id);
    }
  }

  lemma CancelRemoves(b: Book, r: CancelRequest)
    requires WellFormed(b) && r.symbolId == b.symbolId && r.orderId in b.bag
    ensures CancelOrder(b, r).report.events[0].kind.CancelAck?
    ensures CancelOrder(b, r).book.bag == b.bag - {r.orderId}
  {
  }

  /** A submission that matches nothing leaves the book as it was, but for the new order and the numbers it used. */
  lemma SubmittedAside(b: Book, r: NewOrderRequest)
    requires NewOrderFault(b, r).None? && r.orderType.Limit?
    requires Matches(b.bag, NewOrderValue(r, b.nextOrder)) == {}
    ensures r.orderId in Submit(b, r).book.bag
    ensures Without(Submit(b, r).book, r.orderId) == b.(nextOrder := b.nextOrder + 1, nextEvent := b.nextEvent + 1)
    ensures Submit(b, r).book.symbolId == b.symbolId
    ensures Submit(b, r).book.bag[r.orderId] == NewOrderValue(r, b.nextOrder).(status := Resting)
  {
    var submitted := Submit(b, r).book;
    assert submitted.bag == b.bag[r.orderId := NewOrderValue(r, b.nextOrder).(status := Resting)];
    assert submitted.bag - {r.orderId} == b.bag;
  }

  lemma {:induction false} RunSymbol(b: Book, cs: seq<Command>)
    ensures Run(b, cs).symbolId == b.symbolId
  {
    if cs != [] {
      RunSymbol(b, cs[..|cs| - 1]);
      StepKeepsSymbol(Run(b, cs[..|cs| - 1]), cs[|cs| - 1]);
    }
  }
}
