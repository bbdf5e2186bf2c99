/** What a run may do to orders that it does not name: execute them in priority, and mark those it executes. */
module Priority {
  import opened Model
  import opened Matching
  import opened Books
  import opened Executions

  // ---------- Orders that a run does not name ----------

  lemma AcceptKeeps(b: Book, r: NewOrderRequest, id: nat)
    requires NewOrderFault(b, r).None? && r.orderId != id && id in Accept(b, r).book.bag
    ensures id in b.bag && SameOrder(b.bag[id], Accept(b, r).book.bag[id])
  {
    hide Sweep;
    SweepShrinks(b.bag, NewOrderValue(r, b.nextOrder));
  }

  /** A command that does not name an order neither brings it back nor gives it quantity. */
  lemma StepKeeps(b: Book, c: Command, id: nat)
    requires !Names(c, id) && id in Step(b, c).book.bag
    ensures id in b.bag && SameOrder(b.bag[id], Step(b, c).book.bag[id])
  {
    hide Accept;
    match c
    case NewOrder(r) =>
      if NewOrderFault(b, r).None? { AcceptKeeps(b, r, id); }
    case Cancel(r) =>
    case Replace(r) =>
      if ReplaceFault(b, r).None? { AcceptKeeps(AfterCancel(b, r), SubmitHalf(r, b.bag[r.oldOrderId]), id); }
  }

  lemma {:induction false} RunKeeps(b: Book, cs: seq<Command>, id: nat)
    requires forall c :: c in cs ==> !Names(c, id)
    requires id in Run(b, cs).bag
    ensures id in b.bag && SameOrder(b.bag[id], Run(b, cs).bag[id])
  {
    if cs != [] {
      StepKeeps(Run(b, cs[..|cs| - 1]), cs[|cs| - 1], id);
      RunKeeps(b, cs[..|cs| - 1], id);
    }
  }

  // ---------- What the mark of a resting order tells ----------

  /** The order is as it was, or it was executed, has less left and is marked partially filled. */
  predicate SameOrExecuted(before: OrderValue, after: OrderValue) {
    after == before || (after.status.PartiallyFilled? && after.leaves < before.leaves)
  }

  lemma {:induction false} SweepMarks(bag: Bag, taker: OrderValue, id: nat)
    requires id in Sweep(bag, taker).bag
    ensures id in bag && SameOrExecuted(bag[id], Sweep(bag, taker).bag[id])
    decreases taker.leaves
  {
    if Matches(bag, taker) != {} {
      var first := First(bag, taker);
      var e := Execute(taker, bag[first]);
      SweepMarks(Settle(bag, first, e.maker), e.taker, id);
    }
  }

  lemma AcceptMarks(b: Book, r: NewOrderRequest, id: nat)
    requires NewOrderFault(b, r).None? && r.orderId != id && id in Accept(b, r).book.bag
    ensures id in b.bag && SameOrExecuted(b.bag[id], Accept(b, r).book.bag[id])
  {
    hide Sweep;
    SweepShrinks(b.bag, NewOrderValue(r, b.nextOrder));
    SweepMarks(b.bag, NewOrderValue(r, b.nextOrder), id);
  }

  lemma StepMarks(b: Book, c: Command, id: nat)
    requires !Names(c, id) && id in Step(b, c).book.bag
    ensures id in b.bag && SameOrExecuted(b.bag[id], Step(b, c).book.bag[id])
  {
    hide Accept;
    match c
    case NewOrder(r) =>
      if NewOrderFault(b, r).None? { AcceptMarks(b, r, id); }
    case Cancel(r) =>
    case Replace(r) =>
      if ReplaceFault(b, r).None? { AcceptMarks(AfterCancel(b, r), SubmitHalf(r, b.bag[r.oldOrderId]), id); }
  }

  lemma {:induction false} RunMarks(b: Book, cs: seq<Command>, id: nat)
    requires forall c :: c in cs ==> !Names(c, id)
    requires id in Run(b, cs).bag
    ensures id in b.bag && SameOrExecuted(b.bag[id], Run(b, cs).bag[id])
  {
    hide Step;
    if cs != [] {
      StepMarks(Run(b, cs[..|cs| - 1]), cs[|cs| - 1], id);
      RunMarks(b, cs[..|cs| - 1], id);
    }
  }

  /**
   * What the mark tells from then on, over any run that does not name the order: it stays Resting exactly as long as
   * nothing more of the order is executed, and then the whole order is unchanged; any execution marks it.
   */
  lemma MarkTellsLaterFills(b: Book, cs: seq<Command>, id: nat)
    requires forall c :: c in cs ==> !Names(c, id)
    requires id in b.bag && b.bag[id].status.Resting? && id in Run(b, cs).bag
    ensures var before, after := b.bag[id], Run(b, cs).bag[id];
      && (after.status.Resting? <==> after.leaves == before.leaves)
      && (after.leaves == before.leaves <==> after == before)
      && (after.status.PartiallyFilled? <==> after.leaves < before.leaves)
  {
    RunMarks(b, cs, id);
  }

  const OFFER := NewOrderRequest(1, 1, Sell, Limit, 10, 3, 0)
  const BID := NewOrderRequest(2, 1, Buy, Limit, 10, 5, 0)

  /** A sell of 3 at 10 and then a buy of 5 at 10: the buy rests, marked Resting, with 2 of 5 open. */
  lemma MarkCanHideAFill()
    ensures var bag := Run(EmptyBook(1), [NewOrder(OFFER), NewOrder(BID)]).bag;
      RestsPartlyFilled(bag, 2) && bag[2].quantity == 5 && bag[2].leaves == 2
  {
    hide Accept, Sweep, Run;
    var empty := EmptyBook(1);
    NothingMatches(empty, OFFER);
    var one := Submit(empty, OFFER).book;
    RunOfTwo(empty, NewOrder(OFFER), NewOrder(BID));
    assert Reached(one.bag, BID) == {1};
    LeavesOfOne(one.bag, {1}, 1);
    RestingHidesPartialFills(one, BID);
    AcceptKeepsQuantity(one, BID);
  }

  lemma AcceptKeepsQuantity(b: Book, r: NewOrderRequest)
    requires NewOrderFault(b, r).None? && r.orderId in Accept(b, r).book.bag
    ensures Accept(b, r).book.bag[r.orderId].quantity == r.quantity
  {
    hide Sweep;
    SweepShrinks(b.bag, NewOrderValue(r, b.nextOrder));
  }

  // ---------- Priority over whole runs ----------

  /** `a` and `z` rest on one side, and `a` has priority. */
  predicate RestsAhead(bag: Bag, a: nat, z: nat) {
    a in bag && z in bag && bag[a].side == bag[z].side && Ahead(bag[a], bag[z])
  }

  /** Where both match, `z` is not the first. */
  lemma NotBeforeBetter(bag: Bag, taker: OrderValue, symbolId: nat, nextOrder: nat, a: nat, z: nat)
    requires Sound(bag, symbolId, nextOrder) && RestsAhead(bag, a, z)
    requires Matches(bag, taker) != {}
    ensures First(bag, taker) != z
  {
    assert z in Matches(bag, taker) ==> a in Matches(bag, taker);
  }

  lemma {:induction false} SweepSpares(bag: Bag, taker: OrderValue, symbolId: nat, nextOrder: nat, a: nat, z: nat)
    requires Sound(bag, symbolId, nextOrder) && RestsAhead(bag, a, z)
    requires a in Sweep(bag, taker).bag
    ensures z in Sweep(bag, taker).bag && Sweep(bag, taker).bag[z] == bag[z]
    decreases taker.leaves
  {
    hide Sound, First;
    if Matches(bag, taker) != {} {
      var first := First(bag, taker);
      var e := Execute(taker, bag[first]);
      NotBeforeBetter(bag, taker, symbolId, nextOrder, a, z);
      SettleKeepsSound(bag, taker, symbolId, nextOrder);
      SweepShrinks(Settle(bag, first, e.maker), e.taker);
      SweepSpares(Settle(bag, first, e.maker), e.taker, symbolId, nextOrder, a, z);
    }
  }

  lemma AcceptSpares(b: Book, r: NewOrderRequest, a: nat, z: nat)
    requires WellFormed(b) && NewOrderFault(b, r).None? && r.orderId != a && r.orderId != z
    requires RestsAhead(b.bag, a, z) && a in Accept(b, r).book.bag
    ensures z in Accept(b, r).book.bag && Accept(b, r).book.bag[z] == b.bag[z]
  {
    hide Sweep, Sound;
    SweepShrinks(b.bag, NewOrderValue(r, b.nextOrder));
    SweepSpares(b.bag, NewOrderValue(r, b.nextOrder), b.symbolId, b.nextOrder, a, z);
  }

  lemma StepSpares(b: Book, c: Command, a: nat, z: nat)
    requires WellFormed(b) && !Names(c, a) && !Names(c, z)
    requires RestsAhead(b.bag, a, z) && a in Step(b, c).book.bag
    ensures z in Step(b, c).book.bag && Step(b, c).book.bag[z] == b.bag[z]
  {
    hide Accept, WellFormed;
    match c
    case NewOrder(r) =>
      if NewOrderFault(b, r).None? { AcceptSpares(b, r, a, z); }
    case Cancel(r) =>
    case Replace(r) =>
      if ReplaceFault(b, r).None? {
        StepKeepsWellFormed(b, Cancel(CancelHalf(r)));
        AcceptSpares(AfterCancel(b, r), SubmitHalf(r, b.bag[r.oldOrderId]), a, z);
      }
  }

  lemma {:induction false} RunKeepsWellFormed(b: Book, cs: seq<Command>)
    requires WellFormed(b)
    ensures WellFormed(Run(b, cs))
  {
    hide Step, WellFormed;
    if cs != [] {
      RunKeepsWellFormed(b, cs[..|cs| - 1]);
      StepKeepsWellFormed(Run(b, cs[..|cs| - 1]), cs[|cs| - 1]);
    }
  }

  /**
   * Price-time priority over whole runs: while an order with priority rests, whatever was submitted, cancelled or
   * replaced around the two, the orders of its side behind it are exactly as they were.
   */
  lemma {:induction false} RunSpares(b: Book, cs: seq<Command>, a: nat, z: nat)
    requires WellFormed(b) && RestsAhead(b.bag, a, z)
    requires forall c :: c in cs ==> !Names(c, a) && !Names(c, z)
    requires a in Run(b, cs).bag
    ensures z in Run(b, cs).bag && Run(b, cs).bag[z] == b.bag[z]
  {
    hide Step, WellFormed;
    if cs != [] {
      var before, last := cs[..|cs| - 1], cs[|cs| - 1];
      StepKeeps(Run(b, before), last, a);
      RunKeeps(b, before, a);
      RunSpares(b, before, a, z);
      RunKeepsWellFormed(b, before);
      StepSpares(Run(b, before), last, a, z);
    }
  }
}
