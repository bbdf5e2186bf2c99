/** Whole-run identities over the reported events themselves. */
module Tallies {
  import opened Model
  import opened Matching
  import opened Books
  import opened Executions
  import opened Ledger

  // ---------- Adding up reports ----------

  function One(e: Event): int { 1 }

  function EventQuantity(e: Event): int { e.quantity }

  function EventLeaves(e: Event): int { e.leaves }

  /** The total weight of the events of one kind. */
  function Total(events: seq<Event>, kind: EventType, weight: Event -> int): int {
    if events == [] then 0
    else
      Total(events[..|events| - 1], kind, weight)
      + if events[|events| - 1].kind == kind then weight(events[|events| - 1]) else 0
  }

  lemma {:induction false} TotalOfSum(a: seq<Event>, b: seq<Event>, kind: EventType, weight: Event -> int)
    ensures Total(a + b, kind, weight) == Total(a, kind, weight) + Total(b, kind, weight)
  {
    if b == [] {
      assert a + b == a;
    } else {
      TotalOfSum(a, b[..|b| - 1], kind, weight);
      assert (a + b)[..|a + b| - 1] == a + b[..|b| - 1];
    }
  }

  lemma TotalOfOne(e: Event, kind: EventType, weight: Event -> int)
    ensures Total([e], kind, weight) == if e.kind == kind then weight(e) else 0
  {
    assert Total([e], kind, weight) == Total([], kind, weight) + if e.kind == kind then weight(e) else 0;
  }

  lemma {:induction false} TradedOfSum(a: seq<Trade>, b: seq<Trade>)
    ensures TradedQuantity(a + b) == TradedQuantity(a) + TradedQuantity(b)
  {
    if b == [] {
      assert a + b == a;
    } else {
      TradedOfSum(a, b[..|b| - 1]);
      assert (a + b)[..|a + b| - 1] == a + b[..|b| - 1];
    }
  }

  /** The two parties of an execution that it fills. */
  function Filled(e: Execution): nat {
    (if e.taker.leaves == 0 then 1 else 0) + (if e.maker.leaves == 0 then 1 else 0)
  }

  function FilledIn(es: seq<Execution>): nat {
    if es == [] then 0 else FilledIn(es[..|es| - 1]) + Filled(es[|es| - 1])
  }

  lemma {:induction false} FilledInCons(e: Execution, es: seq<Execution>)
    ensures FilledIn([e] + es) == Filled(e) + FilledIn(es)
  {
    if es == [] {
      assert [e] + es == [e];
      assert FilledIn([e]) == FilledIn([]) + Filled(e);
    } else {
      FilledInCons(e, es[..|es| - 1]);
      assert ([e] + es)[..|es|] == [e] + es[..|es| - 1];
    }
  }

  /** The events of a sweep: two per execution, a Fill for each party filled, nothing else. */
  lemma {:induction false} SweepEvents(es: seq<Execution>, sequence: nat)
    ensures Total(Events(es, sequence), Fill, One) == FilledIn(es)
    ensures Total(Events(es, sequence), PartialFill, One) == 2 * |es| - FilledIn(es)
    ensures forall kind: EventType, weight :: !kind.Fill? && !kind.PartialFill? ==>
      Total(Events(es, sequence), kind, weight) == 0
  {
    if es != [] {
      var k := |es| - 1;
      SweepEvents(es[..k], sequence);
      var taker := ExecutionEvent(es[k].taker, sequence + 3 * k + 1);
      var maker := ExecutionEvent(es[k].maker, sequence + 3 * k + 2);
      forall kind, weight
        ensures Total(Events(es, sequence), kind, weight) == Total(Events(es[..k], sequence), kind, weight)
          + (if taker.kind == kind then weight(taker) else 0) + (if maker.kind == kind then weight(maker) else 0)
      {
        TotalOfSum(Events(es[..k], sequence), [taker, maker], kind, weight);
        TotalOfSum([taker], [maker], kind, weight);
        assert [taker] + [maker] == [taker, maker];
        TotalOfOne(taker, kind, weight);
        TotalOfOne(maker, kind, weight);
      }
    }
  }

  /** Fills account for the makers that leave the bag, and for a taker that is filled. */
  lemma {:induction false} SweepFills(bag: Bag, taker: OrderValue)
    ensures var s := Sweep(bag, taker);
      && FilledIn(s.executions) + |s.bag| == |bag| + (if taker.leaves > 0 && s.taker.leaves == 0 then 1 else 0)
      && FilledIn(s.executions) >= |s.executions|
    decreases taker.leaves
  {
    if Matches(bag, taker) != {} {
      var id := First(bag, taker);
      var e := Execute(taker, bag[id]);
      var rest := Sweep(Settle(bag, id, e.maker), e.taker);
      SweepFills(Settle(bag, id, e.maker), e.taker);
      FilledInCons(e, rest.executions);
      assert |bag - {id}| == |bag| - 1;
      assert |bag[id := e.maker]| == |bag| by {
        assert bag[id := e.maker].Keys == bag.Keys;
      }
    }
  }

  // ---------- One step ----------

  /** Event counts, reported quantities and silent discards, of one or more commands. */
  datatype Tally = Tally(
    acks: int, fills: int, partialFills: int, cancelAcks: int, discards: nat, trades: nat,
    acked: int, cancelled: int, traded: int)
  {
    function Plus(other: Tally): Tally {
      Tally(acks + other.acks, fills + other.fills, partialFills + other.partialFills,
            cancelAcks + other.cancelAcks, discards + other.discards, trades + other.trades,
            acked + other.acked, cancelled + other.cancelled, traded + other.traded)
    }
  }

  const NOTHING := Tally(0, 0, 0, 0, 0, 0, 0, 0, 0)

  function TallyOf(r: Report, discards: nat): Tally {
    Tally(Total(r.events, Ack, One), Total(r.events, Fill, One), Total(r.events, PartialFill, One),
          Total(r.events, CancelAck, One), discards, |r.trades|,
          Total(r.events, Ack, EventQuantity), Total(r.events, CancelAck, EventLeaves), TradedQuantity(r.trades))
  }

  lemma TallyOfAppend(a: Report, b: Report, m: nat, n: nat)
    ensures TallyOf(a.Append(b), m + n) == TallyOf(a, m).Plus(TallyOf(b, n))
  {
    forall kind, weight
      ensures Total(a.events + b.events, kind, weight) == Total(a.events, kind, weight) + Total(b.events, kind, weight)
    {
      TotalOfSum(a.events, b.events, kind, weight);
    }
    TradedOfSum(a.trades, b.trades);
  }

  lemma TallyOfEvent(e: Event)
    ensures TallyOf(Report([e], []), 0) == Tally(
      if e.kind.Ack? then 1 else 0, if e.kind.Fill? then 1 else 0, if e.kind.PartialFill? then 1 else 0,
      if e.kind.CancelAck? then 1 else 0, 0, 0,
      if e.kind.Ack? then e.quantity else 0, if e.kind.CancelAck? then e.leaves else 0, 0)
  {
    forall kind, weight ensures Total([e], kind, weight) == if e.kind == kind then weight(e) else 0 {
      TotalOfOne(e, kind, weight);
    }
  }

  /** A market order that its sweep does not fill leaves no resting order and no further event. */
  ghost function AcceptDiscards(b: Book, r: NewOrderRequest): nat
    requires NewOrderFault(b, r).None?
  {
    if SweepOf(b, r).taker.leaves > 0 && !Rests(SweepOf(b, r)) then 1 else 0
  }

  /** An accepted order vanishes without a further event exactly if it is a market order for more than it crosses. */
  lemma DiscardsIff(b: Book, r: NewOrderRequest)
    requires NewOrderFault(b, r).None?
    ensures AcceptDiscards(b, r) == 1 <==> r.orderType.Market? && r.quantity > Crossing(b, r)
  {
    hide Sweep, Matches, Leaves, Crossing;
    CrossingIsMatching(b, r);
    SweepIsMaximal(b.bag, NewOrderValue(r, b.nextOrder));
    SweepShrinks(b.bag, NewOrderValue(r, b.nextOrder));
  }

  ghost function StepDiscards(b: Book, c: Command): nat {
    if c.NewOrder? && NewOrderFault(b, c.submit).None? then AcceptDiscards(b, c.submit) else 0
  }

  ghost function StepTally(b: Book, c: Command): Tally {
    TallyOf(Step(b, c).report, StepDiscards(b, c))
  }

  ghost predicate Balanced(before: Bag, t: Tally, after: Bag) {
    && |before| + t.acks == t.fills + t.cancelAcks + t.discards + |after|
    && t.fills + t.partialFills == 2 * t.trades
    && t.trades <= t.fills
  }

  lemma SweepTally(es: seq<Execution>, tradeId: nat, sequence: nat, discards: nat)
    ensures TallyOf(Report(Events(es, sequence), Trades(es, tradeId, sequence)), discards)
      == Tally(0, FilledIn(es), 2 * |es| - FilledIn(es), 0, discards, |es|, 0, 0, Quantity(es))
  {
    hide Total, Events, Trades, FilledIn, Quantity, TradedQuantity;
    SweepEvents(es, sequence);
    TradesAt(es, tradeId, sequence, 0);
    TradedIsQuantity(es, tradeId, sequence);
  }

  /** What the report of an accepted order adds up to. */
  lemma AcceptTally(b: Book, r: NewOrderRequest)
    requires NewOrderFault(b, r).None?
    ensures var es := SweepOf(b, r).executions;
      TallyOf(Accept(b, r).report, AcceptDiscards(b, r))
        == Tally(1, FilledIn(es), 2 * |es| - FilledIn(es), 0, AcceptDiscards(b, r), |es|, r.quantity, 0, Quantity(es))
  {
    hide TallyOf, Events, Trades, FilledIn, Quantity, Sweep, AcceptDiscards;
    var es := SweepOf(b, r).executions;
    var e := AckEvent(NewOrderValue(r, b.nextOrder), b.nextEvent);
    var rest := Report(Events(es, b.nextEvent + 1), Trades(es, b.nextTrade, b.nextEvent + 1));
    TallyOfEvent(e);
    SweepTally(es, b.nextTrade, b.nextEvent + 1, AcceptDiscards(b, r));
    TallyOfAppend(Report([e], []), rest, 0, AcceptDiscards(b, r));
    assert Report([e], []).Append(rest) == Accept(b, r).report;
  }

  lemma AcceptBalances(b: Book, r: NewOrderRequest)
    requires NewOrderFault(b, r).None?
    ensures Balanced(b.bag, TallyOf(Accept(b, r).report, AcceptDiscards(b, r)), Accept(b, r).book.bag)
  {
    hide TallyOf, Sweep, FilledIn, Quantity;
    var taker := NewOrderValue(r, b.nextOrder);
    var s := SweepOf(b, r);
    AcceptTally(b, r);
    SweepFills(b.bag, taker);
    SweepShrinks(b.bag, taker);
    if Rests(s) {
      assert |RestResidual(s)| == |s.bag| + 1;
    }
  }

  lemma CancelTally(b: Book, r: CancelRequest)
    ensures var t := TallyOf(CancelOrder(b, r).report, 0);
      && Balanced(b.bag, t, CancelOrder(b, r).book.bag)
      && t == (if CancelFault(b, r).None? then NOTHING.(cancelAcks := 1, cancelled := b.bag[r.orderId].leaves)
               else NOTHING)
  {
    hide TallyOf;
    if CancelFault(b, r).None? {
      TallyOfEvent(CancelAckEvent(b.bag[r.orderId], b.nextEvent, r.timestamp));
      assert |b.bag - {r.orderId}| == |b.bag| - 1;
    } else {
      TallyOfEvent(RejectEvent(CancelReject, r.orderId, b.symbolId, CancelFault(b, r), b.nextEvent, r.timestamp));
    }
  }

  /** A replace reports its cancel, an event of no account, and its submission. */
  lemma ReplaceTally(b: Book, r: ReplaceRequest)
    requires WellFormed(b) && ReplaceFault(b, r).None?
    ensures var request := SubmitHalf(r, b.bag[r.oldOrderId]);
      && AcceptDiscards(AfterCancel(b, r), request) == 0
      && StepTally(b, Replace(r)) == TallyOf(CancelOrder(b, CancelHalf(r)).report, 0)
                                     .Plus(TallyOf(Accept(AfterCancel(b, r), request).report, 0))
  {
    hide TallyOf, Accept, Sweep;
    var cancelled := CancelOrder(b, CancelHalf(r)).report;
    var request := SubmitHalf(r, b.bag[r.oldOrderId]);
    var submitted := Accept(AfterCancel(b, r), request);
    var ack := ReplaceAckEvent(r.oldOrderId, Residual(SweepOf(AfterCancel(b, r), request)),
                               submitted.book.nextEvent, r.timestamp);
    SweepShrinks(AfterCancel(b, r).bag, NewOrderValue(request, b.nextOrder));
    TallyOfEvent(ack);
    TallyOfAppend(cancelled, Report([ack], []), 0, 0);
    TallyOfAppend(cancelled.Append(Report([ack], [])), submitted.report, 0, 0);
    assert cancelled.AddEvent(ack) == cancelled.Append(Report([ack], []));
  }

  lemma StepBalances(b: Book, c: Command)
    requires WellFormed(b)
    ensures Balanced(b.bag, StepTally(b, c), Step(b, c).book.bag)
  {
    hide TallyOf, Accept, AcceptDiscards, WellFormed;
    match c
    case NewOrder(r) =>
      var fault := NewOrderFault(b, r);
      if fault.None? {
        AcceptBalances(b, r);
      } else {
        TallyOfEvent(RejectEvent(Reject, r.orderId, b.symbolId, fault, b.nextEvent, r.timestamp));
      }
    case Cancel(r) => CancelTally(b, r);
    case Replace(r) =>
      var fault := ReplaceFault(b, r);
      if fault.None? {
        ReplaceTally(b, r);
        CancelTally(b, CancelHalf(r));
        AcceptBalances(AfterCancel(b, r), SubmitHalf(r, b.bag[r.oldOrderId]));
      } else {
        TallyOfEvent(RejectEvent(ReplaceReject, r.oldOrderId, b.symbolId, fault, b.nextEvent, r.timestamp));
      }
  }

  // ---------- Whole runs ----------

  ghost function RunTally(b: Book, cs: seq<Command>): Tally {
    if cs == [] then NOTHING
    else RunTally(b, cs[..|cs| - 1]).Plus(StepTally(Run(b, cs[..|cs| - 1]), cs[|cs| - 1]))
  }

  /** Every accepted order is filled, cancelled, discarded or still resting, and trades are bounded by orders. */
  lemma {:induction false} OrdersAreConserved(symbolId: nat, cs: seq<Command>)
    ensures var t := RunTally(EmptyBook(symbolId), cs);
      var resting := |Run(EmptyBook(symbolId), cs).bag|;
      && t.acks == t.fills + t.cancelAcks + t.discards + resting
      && t.fills + t.partialFills == 2 * t.trades
      && t.trades <= t.acks - resting - t.cancelAcks
  {
    RunBalances(symbolId, cs);
  }

  lemma {:induction false} RunBalances(symbolId: nat, cs: seq<Command>)
    ensures Balanced(map[], RunTally(EmptyBook(symbolId), cs), Run(EmptyBook(symbolId), cs).bag)
  {
    hide StepTally, Step, WellFormed;
    if cs != [] {
      var before := cs[..|cs| - 1];
      RunBalances(symbolId, before);
      RunIsWellFormed(symbolId, before);
      StepBalances(Run(EmptyBook(symbolId), before), cs[|cs| - 1]);
    }
  }

  lemma StepCountsAcks(b: Book, c: Command)
    requires WellFormed(b)
    ensures Step(b, c).book.nextOrder == b.nextOrder + StepTally(b, c).acks
  {
    hide TallyOf, Sweep, Events, Trades, FilledIn, Quantity, AcceptDiscards, WellFormed;
    match c
    case NewOrder(r) =>
      var fault := NewOrderFault(b, r);
      if fault.None? {
        AcceptTally(b, r);
      } else {
        TallyOfEvent(RejectEvent(Reject, r.orderId, b.symbolId, fault, b.nextEvent, r.timestamp));
      }
    case Cancel(r) => CancelTally(b, r);
    case Replace(r) =>
      var fault := ReplaceFault(b, r);
      if fault.None? {
        ReplaceTally(b, r);
        CancelTally(b, CancelHalf(r));
        AcceptTally(AfterCancel(b, r), SubmitHalf(r, b.bag[r.oldOrderId]));
      } else {
        TallyOfEvent(RejectEvent(ReplaceReject, r.oldOrderId, b.symbolId, fault, b.nextEvent, r.timestamp));
      }
  }

  /** Order sequences count the orders acknowledged, from 1 on. */
  lemma {:induction false} SequencesCountAcks(symbolId: nat, cs: seq<Command>)
    ensures Run(EmptyBook(symbolId), cs).nextOrder == 1 + RunTally(EmptyBook(symbolId), cs).acks
  {
    hide StepTally, Step, WellFormed;
    if cs != [] {
      SequencesCountAcks(symbolId, cs[..|cs| - 1]);
      RunIsWellFormed(symbolId, cs[..|cs| - 1]);
      StepCountsAcks(Run(EmptyBook(symbolId), cs[..|cs| - 1]), cs[|cs| - 1]);
    }
  }

  // ---------- The reports carry the quantity accounts ----------

  /** Each execution has one party on either side. */
  lemma {:induction false} SideTraded(side: Side, bag: Bag, taker: OrderValue)
    ensures OfSide(side).Traded(Sweep(bag, taker).executions) == Quantity(Sweep(bag, taker).executions)
    decreases taker.leaves
  {
    if Matches(bag, taker) != {} {
      var id := First(bag, taker);
      var e := Execute(taker, bag[id]);
      var rest := Sweep(Settle(bag, id, e.maker), e.taker);
      SideTraded(side, Settle(bag, id, e.maker), e.taker);
      assert ([e] + rest.executions)[1..] == rest.executions;
    }
  }

  /** The quantities reported by a tally are those of the two sides' flows. */
  predicate Carries(t: Tally, buys: Flow, sells: Flow) {
    && t.acked == buys.accepted + sells.accepted
    && t.cancelled == buys.cancelled + sells.cancelled
    && t.traded == buys.traded == sells.traded
  }

  lemma AcceptCarries(b: Book, r: NewOrderRequest)
    requires NewOrderFault(b, r).None?
    ensures Carries(TallyOf(Accept(b, r).report, AcceptDiscards(b, r)),
                    AcceptFlow(OfSide(Buy), b, r), AcceptFlow(OfSide(Sell), b, r))
  {
    hide TallyOf, Accept, Sweep;
    AcceptTally(b, r);
    SideTraded(Buy, b.bag, NewOrderValue(r, b.nextOrder));
    SideTraded(Sell, b.bag, NewOrderValue(r, b.nextOrder));
  }

  lemma StepCarries(b: Book, c: Command)
    requires WellFormed(b)
    ensures Carries(StepTally(b, c), StepFlow(OfSide(Buy), b, c), StepFlow(OfSide(Sell), b, c))
  {
    hide TallyOf, Accept, AcceptDiscards, AcceptFlow, WellFormed;
    match c
    case NewOrder(r) =>
      var fault := NewOrderFault(b, r);
      if fault.None? {
        AcceptCarries(b, r);
      } else {
        TallyOfEvent(RejectEvent(Reject, r.orderId, b.symbolId, fault, b.nextEvent, r.timestamp));
      }
    case Cancel(r) => CancelTally(b, r);
    case Replace(r) =>
      var fault := ReplaceFault(b, r);
      if fault.None? {
        ReplaceTally(b, r);
        CancelTally(b, CancelHalf(r));
        AcceptCarries(AfterCancel(b, r), SubmitHalf(r, b.bag[r.oldOrderId]));
      } else {
        TallyOfEvent(RejectEvent(ReplaceReject, r.oldOrderId, b.symbolId, fault, b.nextEvent, r.timestamp));
      }
  }

  /** Buyers and sellers trade the same quantity, which is what the reported trades add up to. */
  lemma {:induction false} RunCarries(symbolId: nat, cs: seq<Command>)
    ensures var b := EmptyBook(symbolId);
      Carries(RunTally(b, cs), RunFlow(OfSide(Buy), b, cs), RunFlow(OfSide(Sell), b, cs))
  {
    hide StepTally, Step, StepFlow, WellFormed;
    if cs != [] {
      var before := cs[..|cs| - 1];
      RunCarries(symbolId, before);
      RunIsWellFormed(symbolId, before);
      StepCarries(Run(EmptyBook(symbolId), before), cs[|cs| - 1]);
    }
  }
}
