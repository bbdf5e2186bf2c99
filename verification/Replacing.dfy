/** Replace against the two requests it is made of, and the read of its replacement. */
module Replacing {
  import opened Model
  import opened Matching
  import opened Books
  import opened Executions

  /** In a reachable book no cancel or replace meets a closed order. */
  lemma NeverAlreadyClosed(b: Book, c: CancelRequest, r: ReplaceRequest)
    requires WellFormed(b)
    ensures !CancelFault(b, c).OrderAlreadyClosed? && !ReplaceFault(b, r).OrderAlreadyClosed?
  {
  }

  /** The order that a replace puts in: on the side of the order it replaces, at the new price and quantity. */
  function Replacement(b: Book, r: ReplaceRequest): NewOrderRequest
    requires r.oldOrderId in b.bag
  {
    NewOrderRequest(r.newOrderId, r.symbolId, b.bag[r.oldOrderId].side, Limit, r.newPrice, r.newQuantity, r.timestamp)
  }

  /** The book and the reports of an accepted replace, in terms of the two commands run one after the other. */
  lemma ReplaceIsCancelThenSubmit(b: Book, r: ReplaceRequest)
    requires WellFormed(b) && ReplaceFault(b, r).None?
    ensures var halves := [Cancel(CancelRequest(r.symbolId, r.oldOrderId, r.timestamp)), NewOrder(Replacement(b, r))];
      var o := Step(b, Replace(r));
      var reports := Reports(b, halves);
      && o.book == Run(b, halves).(nextEvent := Run(b, halves).nextEvent + 1)
      && |reports| == 2
      && o.report.trades == reports[0].trades + reports[1].trades
      && |o.report.events| > 1 && o.report.events[1].kind.ReplaceAck?
      && o.report.events[1].sequence == Run(b, halves).nextEvent
      && o.report.events[..1] + o.report.events[2..] == reports[0].events + reports[1].events
  {
    hide Accept;
    var request := SubmitHalf(r, b.bag[r.oldOrderId]);
    var first, second := Cancel(CancelHalf(r)), NewOrder(request);
    assert [first, second][..1] == [first];
    assert Run(b, [first]) == AfterCancel(b, r) by {
      assert [first][..0] == [];
      assert Run(b, []) == b;
    }
    assert Reports(b, [first]) == [CancelOrder(b, CancelHalf(r)).report] by {
      assert [first][..0] == [];
      assert Run(b, []) == b;
    }
  }

  /** Does the book still own the replacement when the ReplaceAck is built from it? */
  ghost predicate Owned(b: Book, r: ReplaceRequest)
    requires ReplaceFault(b, r).None?
  {
    r.newOrderId in Accept(AfterCancel(b, r), SubmitHalf(r, b.bag[r.oldOrderId])).book.bag
  }

  /**
   * The ReplaceAck names both orders. While the replacement is owned the ack is a true copy of it, and open is what
   * its own trades left. Otherwise the order was filled and erased, and only what it held when it was filled is known.
   */
  lemma ReplaceAckContents(b: Book, r: ReplaceRequest)
    requires WellFormed(b) && ReplaceFault(b, r).None?
    ensures var o := Step(b, Replace(r));
      && |o.report.events| > 1
      && var e := o.report.events[1];
        && e.kind.ReplaceAck? && e.orderId == r.newOrderId && e.relatedOrderId == r.oldOrderId
        && e.price == r.newPrice && e.quantity == r.newQuantity
        && e.leaves == r.newQuantity - TradedQuantity(o.report.trades)
        && if Owned(b, r)
           then r.newOrderId in o.book.bag && e.leaves == o.book.bag[r.newOrderId].leaves > 0
           else r.newOrderId !in o.book.bag && e.leaves == 0
  {
    hide Sweep, Events, Trades, Quantity, TradedQuantity;
    var request := SubmitHalf(r, b.bag[r.oldOrderId]);
    var between := AfterCancel(b, r);
    SweepShrinks(between.bag, NewOrderValue(request, b.nextOrder));
    SweepIsMaximal(between.bag, NewOrderValue(request, b.nextOrder));
    TradedIsQuantity(SweepOf(between, request).executions, between.nextTrade, between.nextEvent + 1);
    assert Step(b, Replace(r)).report.trades == Accept(between, request).report.trades;
  }

  /**
   * The replacement is still owned by the book when ReplaceAck is built from it exactly when the new quantity
   * exceeds what it crosses. Otherwise submission has already erased the order that the source then reads.
   */
  lemma ReplacementIsOwnedIff(b: Book, r: ReplaceRequest)
    requires WellFormed(b) && ReplaceFault(b, r).None?
    ensures Owned(b, r) <==> r.newQuantity > Crossing(b, Replacement(b, r))
  {
    hide Accept, Leaves, WellFormed;
    var request := SubmitHalf(r, b.bag[r.oldOrderId]);
    var between := AfterCancel(b, r);
    StepKeepsWellFormed(b, Cancel(CancelHalf(r)));
    assert request == Replacement(b, r) by {
      RestingIsLimit(b, r.oldOrderId);
    }
    assert Reached(between.bag, request) == Reached(b.bag, request) by {
      assert r.oldOrderId !in Reached(b.bag, request);
    }
    LeavesAgree(b.bag, between.bag, Reached(b.bag, request));
    RestingHidesPartialFills(between, request);
  }

  lemma RestingIsLimit(b: Book, id: nat)
    requires WellFormed(b) && id in b.bag
    ensures b.bag[id].orderType.Limit?
  {
  }

  // ---------- A reachable book in which the replacement is lost ----------

  const SELL := NewOrderRequest(1, 1, Sell, Limit, 10, 5, 0)
  const BUY := NewOrderRequest(2, 1, Buy, Limit, 9, 5, 0)
  const RAISE := ReplaceRequest(1, 2, 3, 10, 5, 0)

  /** A sell of 5 at 10 and a buy of 5 at 9 rest; replacing the buy by one at 10 fills and erases it at once. */
  lemma ReplacementCanBeLost()
    ensures var b := Run(EmptyBook(1), [NewOrder(SELL), NewOrder(BUY)]);
      WellFormed(b) && ReplaceFault(b, RAISE).None? && !Owned(b, RAISE)
  {
    hide WellFormed, Accept, Sweep, Run, Owned;
    var empty := EmptyBook(1);
    NothingMatches(empty, SELL);
    var one := Submit(empty, SELL).book;
    NothingMatches(one, BUY);
    var two := Submit(one, BUY).book;
    RunOfTwo(empty, NewOrder(SELL), NewOrder(BUY));
    RunIsWellFormed(1, [NewOrder(SELL), NewOrder(BUY)]);
    assert Reached(two.bag, Replacement(two, RAISE)) == {1};
    LeavesOfOne(two.bag, {1}, 1);
    ReplacementIsOwnedIff(two, RAISE);
  }
}
