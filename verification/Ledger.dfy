/** Whole-run accounts: where every accepted quantity goes, and what becomes of every accepted order. */
module Ledger {
  import opened Model
  import opened Matching
  import opened Books
  import opened Executions

  // ---------- Quantity ----------

  /** Whose quantity is followed: one order incarnation, by its sequence, or one side of the book. */
  datatype Account = OfOrder(sequence: nat) | OfSide(side: Side)
  {
    predicate Owns(o: OrderValue) {
      match this
      case OfOrder(n) => o.sequence == n
      case OfSide(s) => o.side == s
    }

    function Share(o: OrderValue, quantity: nat): nat {
      if Owns(o) then quantity else 0
    }

    function Holdings(bag: Bag): set<nat> {
      set id | id in bag && Owns(bag[id])
    }

    /** The open quantity that rests in the bag. */
    ghost function Resting(bag: Bag): nat {
      Leaves(bag, Holdings(bag))
    }

    /** The quantity executed, on either side of an execution. */
    function Traded(es: seq<Execution>): nat {
      if es == [] then 0
      else Share(es[0].taker, es[0].quantity) + Share(es[0].maker, es[0].quantity) + Traded(es[1..])
    }
  }

  /** What one or more commands did to an account. */
  datatype Flow = Flow(accepted: nat, traded: nat, cancelled: nat, discarded: nat)
  {
    function Plus(other: Flow): Flow {
      Flow(accepted + other.accepted, traded + other.traded,
           cancelled + other.cancelled, discarded + other.discarded)
    }
  }

  const NO_FLOW := Flow(0, 0, 0, 0)

  ghost function AcceptFlow(a: Account, b: Book, r: NewOrderRequest): Flow
    requires NewOrderFault(b, r).None?
  {
    var s := SweepOf(b, r);
    Flow(a.Share(NewOrderValue(r, b.nextOrder), r.quantity),
         a.Traded(s.executions),
         0,
         if Rests(s) then 0 else a.Share(s.taker, s.taker.leaves))
  }

  function CancelFlow(a: Account, b: Book, r: CancelRequest): Flow {
    if CancelFault(b, r).None? then Flow(0, 0, a.Share(b.bag[r.orderId], b.bag[r.orderId].leaves), 0)
    else NO_FLOW
  }

  ghost function StepFlow(a: Account, b: Book, c: Command): Flow {
    match c
    case NewOrder(r) => if NewOrderFault(b, r).None? then AcceptFlow(a, b, r) else NO_FLOW
    case Cancel(r) => CancelFlow(a, b, r)
    case Replace(r) =>
      if ReplaceFault(b, r).None? then
        CancelFlow(a, b, CancelHalf(r)).Plus(
          AcceptFlow(a, AfterCancel(b, r), SubmitHalf(r, b.bag[r.oldOrderId])))
      else NO_FLOW
  }

  ghost function RunFlow(a: Account, b: Book, cs: seq<Command>): Flow {
    if cs == [] then NO_FLOW
    else RunFlow(a, b, cs[..|cs| - 1]).Plus(StepFlow(a, Run(b, cs[..|cs| - 1]), cs[|cs| - 1]))
  }

  lemma RestingWithout(a: Account, bag: Bag, id: nat)
    requires id in bag
    ensures a.Resting(bag) == a.Resting(bag - {id}) + a.Share(bag[id], bag[id].leaves)
  {
    var ids := a.Holdings(bag);
    assert a.Holdings(bag - {id}) == ids - {id};
    LeavesAgree(bag, bag - {id}, ids - {id});
    if id in ids {
      LeavesOfOne(bag, ids, id);
    } else {
      assert ids - {id} == ids;
    }
  }

  lemma RestingWith(a: Account, bag: Bag, id: nat, o: OrderValue)
    requires id !in bag
    ensures a.Resting(bag[id := o]) == a.Resting(bag) + a.Share(o, o.leaves)
  {
    RestingWithout(a, bag[id := o], id);
    assert bag[id := o] - {id} == bag;
  }

  /** An execution takes its quantity out of its maker. */
  lemma RestingAfterExecution(a: Account, bag: Bag, taker: OrderValue, id: nat)
    requires id in bag
    ensures var e := Execute(taker, bag[id]);
      a.Resting(bag) == a.Resting(Settle(bag, id, e.maker)) + a.Share(e.maker, e.quantity)
  {
    var e := Execute(taker, bag[id]);
    RestingWithout(a, bag, id);
    if e.maker.leaves > 0 {
      RestingWith(a, bag - {id}, id, e.maker);
      assert (bag - {id})[id := e.maker] == bag[id := e.maker];
    }
  }

  lemma {:induction false} SweepConserves(a: Account, bag: Bag, taker: OrderValue)
    ensures var s := Sweep(bag, taker);
      a.Resting(bag) + a.Share(taker, taker.leaves)
        == a.Traded(s.executions) + a.Resting(s.bag) + a.Share(s.taker, s.taker.leaves)
    decreases taker.leaves
  {
    if Matches(bag, taker) != {} {
      var id := First(bag, taker);
      var e := Execute(taker, bag[id]);
      var rest := Sweep(Settle(bag, id, e.maker), e.taker);
      SweepConserves(a, Settle(bag, id, e.maker), e.taker);
      RestingAfterExecution(a, bag, taker, id);
      assert ([e] + rest.executions)[1..] == rest.executions;
    }
  }

  lemma AcceptConserves(a: Account, b: Book, r: NewOrderRequest)
    requires WellFormed(b) && NewOrderFault(b, r).None?
    ensures var f := AcceptFlow(a, b, r);
      a.Resting(b.bag) + f.accepted == f.traded + f.discarded + a.Resting(Accept(b, r).book.bag)
  {
    var taker := NewOrderValue(r, b.nextOrder);
    var s := SweepOf(b, r);
    SweepConserves(a, b.bag, taker);
    SweepShrinks(b.bag, taker);
    if Rests(s) {
      RestingWith(a, s.bag, s.taker.orderId, Residual(s));
    }
  }

  /**
   * What is discarded: of a market order, exactly what it asks for beyond all that it crosses; of a limit order,
   * nothing.
   */
  lemma DiscardedIsExcess(a: Account, b: Book, r: NewOrderRequest)
    requires NewOrderFault(b, r).None?
    ensures var crossing := Crossing(b, r);
      var excess := if r.orderType.Market? && r.quantity > crossing then r.quantity - crossing else 0;
      AcceptFlow(a, b, r).discarded == a.Share(NewOrderValue(r, b.nextOrder), excess)
  {
    hide Sweep, Matches, Leaves, Crossing;
    CrossingIsMatching(b, r);
    SweepIsMaximal(b.bag, NewOrderValue(r, b.nextOrder));
    SweepShrinks(b.bag, NewOrderValue(r, b.nextOrder));
  }

  lemma StepConserves(a: Account, b: Book, c: Command)
    requires WellFormed(b)
    ensures var f := StepFlow(a, b, c);
      a.Resting(b.bag) + f.accepted == f.traded + f.cancelled + f.discarded + a.Resting(Step(b, c).book.bag)
  {
    match c
    case NewOrder(r) =>
      if NewOrderFault(b, r).None? { AcceptConserves(a, b, r); }
    case Cancel(r) =>
      if CancelFault(b, r).None? { RestingWithout(a, b.bag, r.orderId); }
    case Replace(r) =>
      if ReplaceFault(b, r).None? {
        ReplaceIsAtomic(b, r);
        RestingWithout(a, b.bag, r.oldOrderId);
        StepKeepsWellFormed(b, Cancel(CancelHalf(r)));
        AcceptConserves(a, AfterCancel(b, r), SubmitHalf(r, b.bag[r.oldOrderId]));
      }
  }

  /** Over a whole run, per order and per side: accepted = traded + cancelled + discarded + still resting. */
  lemma {:induction false} QuantityIsConserved(a: Account, symbolId: nat, cs: seq<Command>)
    ensures var f := RunFlow(a, EmptyBook(symbolId), cs);
      f.accepted == f.traded + f.cancelled + f.discarded + a.Resting(Run(EmptyBook(symbolId), cs).bag)
  {
    if cs != [] {
      var before := cs[..|cs| - 1];
      QuantityIsConserved(a, symbolId, before);
      RunIsWellFormed(symbolId, before);
      StepConserves(a, Run(EmptyBook(symbolId), before), cs[|cs| - 1]);
    }
  }

  /** A step accepts at most one order, under the next free sequence. */
  lemma AcceptedSequence(b: Book, c: Command, n: nat)
    ensures StepFlow(OfOrder(n), b, c).accepted > 0 ==> n == b.nextOrder && Step(b, c).book.nextOrder == n + 1
    ensures Step(b, c).book.nextOrder >= b.nextOrder
  {
    hide Sweep;
  }

  lemma {:induction false} LaterSequencesAreUnused(b: Book, cs: seq<Command>, n: nat)
    requires n >= Run(b, cs).nextOrder
    ensures RunFlow(OfOrder(n), b, cs).accepted == 0
  {
    hide Step, StepFlow;
    if cs != [] {
      AcceptedSequence(Run(b, cs[..|cs| - 1]), cs[|cs| - 1], n);
      LaterSequencesAreUnused(b, cs[..|cs| - 1], n);
    }
  }

  /** The sequence identifies one incarnation: no run accepts two orders under the same one, whatever their ids. */
  lemma SequenceIsAcceptedOnce(b: Book, cs: seq<Command>, c: Command, n: nat)
    requires StepFlow(OfOrder(n), Run(b, cs), c).accepted > 0
    ensures RunFlow(OfOrder(n), b, cs).accepted == 0
  {
    AcceptedSequence(Run(b, cs), c, n);
    LaterSequencesAreUnused(b, cs, n);
  }
}
