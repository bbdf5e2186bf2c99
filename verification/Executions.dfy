/** What one sweep trades: in which order, with whom, and how much. */
module Executions {
  import opened Model
  import opened Matching
  import opened Books

  // ---------- Order of execution ----------

  /** Every maker is a resting order that the taker could match when it arrived, less what they executed. */
  lemma {:induction false} MakersMatch(bag: Bag, taker: OrderValue, symbolId: nat, nextOrder: nat, k: nat)
    requires Sound(bag, symbolId, nextOrder)
    requires k < |Sweep(bag, taker).executions|
    ensures var e := Sweep(bag, taker).executions[k];
      && e.maker.orderId in Matches(bag, taker)
      && SameOrder(bag[e.maker.orderId], e.maker)
      && bag[e.maker.orderId].leaves == e.maker.leaves + e.quantity
    decreases k
  {
    var id := First(bag, taker);
    var e := Execute(taker, bag[id]);
    var rest := Settle(bag, id, e.maker);
    if k > 0 {
      SettleKeepsSound(bag, taker, symbolId, nextOrder);
      MakersMatch(rest, e.taker, symbolId, nextOrder, k - 1);
    }
  }

  lemma SettleKeepsSound(bag: Bag, taker: OrderValue, symbolId: nat, nextOrder: nat)
    requires Sound(bag, symbolId, nextOrder) && Matches(bag, taker) != {}
    ensures var id := First(bag, taker);
      Sound(Settle(bag, id, Execute(taker, bag[id]).maker), symbolId, nextOrder)
  {
  }

  /** Where a sweep goes on, its last maker is gone and every other order is as it was. */
  lemma GoesOn(bag: Bag, taker: OrderValue)
    requires Matches(bag, taker) != {}
    ensures var id := First(bag, taker);
      var e := Execute(taker, bag[id]);
      e.taker.leaves > 0 ==>
        && e.maker.leaves == 0
        && Settle(bag, id, e.maker) == bag - {id}
        && Matches(bag - {id}, e.taker) == Matches(bag, taker) - {id}
    ensures var e := Execute(taker, bag[First(bag, taker)]);
      e.taker.leaves == 0 ==> Sweep(Settle(bag, First(bag, taker), e.maker), e.taker).executions == []
  {
  }

  /** Every other matching order is strictly behind the first one. */
  lemma OthersAreBehind(bag: Bag, taker: OrderValue, symbolId: nat, nextOrder: nat, id: nat)
    requires Sound(bag, symbolId, nextOrder)
    requires id in Matches(bag, taker) && id != First(bag, taker)
    ensures Ahead(bag[First(bag, taker)], bag[id])
  {
    assert !Ahead(bag[id], bag[First(bag, taker)]);
  }

  /** Price-time priority: each maker is strictly ahead of the makers that follow it. */
  lemma {:induction false} MakersInPriority(bag: Bag, taker: OrderValue, symbolId: nat, nextOrder: nat, i: nat, j: nat)
    requires Sound(bag, symbolId, nextOrder)
    requires i < j < |Sweep(bag, taker).executions|
    ensures var es := Sweep(bag, taker).executions; Ahead(es[i].maker, es[j].maker)
    decreases i
  {
    hide Sound, First, CanMatch;
    var id := First(bag, taker);
    var e := Execute(taker, bag[id]);
    GoesOn(bag, taker);
    SettleKeepsSound(bag, taker, symbolId, nextOrder);
    if i > 0 {
      MakersInPriority(bag - {id}, e.taker, symbolId, nextOrder, i - 1, j - 1);
    } else {
      MakersMatch(bag - {id}, e.taker, symbolId, nextOrder, j - 1);
      OthersAreBehind(bag, taker, symbolId, nextOrder, Sweep(bag, taker).executions[j].maker.orderId);
    }
  }

  lemma MakerIsFirst(bag: Bag, taker: OrderValue, symbolId: nat, nextOrder: nat)
    requires Sound(bag, symbolId, nextOrder) && Matches(bag, taker) != {}
    ensures Execute(taker, bag[First(bag, taker)]).maker.orderId == First(bag, taker)
  {
  }

  /** An execution that fills the resting order `id`. */
  predicate FilledAs(e: Execution, id: nat) {
    e.maker.orderId == id && e.maker.leaves == 0
  }

  /** Nobody is skipped: whoever was ahead of a maker has been filled before it. */
  lemma {:induction false} NobodyIsSkipped(bag: Bag, taker: OrderValue, symbolId: nat, nextOrder: nat, k: nat, id: nat)
    requires Sound(bag, symbolId, nextOrder)
    requires k < |Sweep(bag, taker).executions|
    requires id in Matches(bag, taker) && Ahead(bag[id], Sweep(bag, taker).executions[k].maker)
    ensures exists i :: 0 <= i < k && FilledAs(Sweep(bag, taker).executions[i], id)
    decreases k
  {
    hide Sound;
    var first := First(bag, taker);
    var e := Execute(taker, bag[first]);
    GoesOn(bag, taker);
    SettleKeepsSound(bag, taker, symbolId, nextOrder);
    MakerIsFirst(bag, taker, symbolId, nextOrder);
    if k > 0 {
      if id == first {
        assert Sweep(bag, taker).executions[0] == e;
      } else {
        NobodyIsSkipped(bag - {first}, e.taker, symbolId, nextOrder, k - 1, id);
        var i :| 0 <= i < k - 1 && FilledAs(Sweep(bag - {first}, e.taker).executions[i], id);
        assert Sweep(bag, taker).executions[i + 1] == Sweep(bag - {first}, e.taker).executions[i];
      }
    }
  }

  /** Every execution but the last one fills its maker; the last one fills its maker or the taker. */
  lemma {:induction false} MakersAreExhausted(bag: Bag, taker: OrderValue, k: nat)
    requires k < |Sweep(bag, taker).executions|
    ensures var es := Sweep(bag, taker).executions;
      && es[k].quantity > 0
      && (k < |es| - 1 ==> es[k].maker.leaves == 0 && es[k].taker.leaves > 0)
      && (es[k].maker.leaves == 0 || es[k].taker.leaves == 0)
    decreases k
  {
    var id := First(bag, taker);
    var e := Execute(taker, bag[id]);
    GoesOn(bag, taker);
    if k > 0 {
      MakersAreExhausted(bag - {id}, e.taker, k - 1);
    }
  }

  // ---------- Volume ----------

  /** The total leaves of some orders of the bag. */
  ghost function Leaves(bag: Bag, ids: set<nat>): nat
    requires ids <= bag.Keys
  {
    if ids == {} then 0
    else
      var id :| id in ids;
      bag[id].leaves + Leaves(bag, ids - {id})
  }

  lemma {:induction false} LeavesOfOne(bag: Bag, ids: set<nat>, id: nat)
    requires ids <= bag.Keys && id in ids
    ensures Leaves(bag, ids) == bag[id].leaves + Leaves(bag, ids - {id})
    decreases ids
  {
    var other :| other in ids && Leaves(bag, ids) == bag[other].leaves + Leaves(bag, ids - {other});
    if other != id {
      LeavesOfOne(bag, ids - {other}, id);
      LeavesOfOne(bag, ids - {id}, other);
      assert ids - {other} - {id} == ids - {id} - {other};
    }
  }

  lemma {:induction false} LeavesAgree(bag: Bag, other: Bag, ids: set<nat>)
    requires ids <= bag.Keys && ids <= other.Keys
    requires forall id :: id in ids ==> bag[id].leaves == other[id].leaves
    ensures Leaves(bag, ids) == Leaves(other, ids)
    decreases ids
  {
    if ids != {} {
      var id :| id in ids;
      LeavesOfOne(bag, ids, id);
      LeavesOfOne(other, ids, id);
      LeavesAgree(bag, other, ids - {id});
    }
  }

  /** Does an order on `side` at this price, limit or market, reach the resting order `o`? */
  predicate Reaches(side: Side, orderType: OrderType, price: int, o: OrderValue) {
    side != o.side && (orderType.Market? || if side.Buy? then price >= o.price else price <= o.price)
  }

  /** The resting orders that a request reaches. */
  function Reached(bag: Bag, r: NewOrderRequest): set<nat> {
    set id | id in bag && bag[id].symbolId == r.symbolId && Reaches(r.side, r.orderType, r.price, bag[id])
  }

  /** What an accepted order could trade when it arrives: all that is open in the orders it reaches. */
  ghost function Crossing(b: Book, r: NewOrderRequest): nat {
    Leaves(b.bag, Reached(b.bag, r))
  }

  /** Orders with nothing left do not count. */
  lemma {:induction false} LeavesIgnoreEmpty(bag: Bag, ids: set<nat>, some: set<nat>)
    requires some <= ids <= bag.Keys
    requires forall id :: id in ids && id !in some ==> bag[id].leaves == 0
    ensures Leaves(bag, ids) == Leaves(bag, some)
    decreases ids
  {
    if id :| id in ids && id !in some {
      LeavesOfOne(bag, ids, id);
      LeavesIgnoreEmpty(bag, ids - {id}, some);
    } else {
      assert ids == some;
    }
  }

  /** The taker matches what its request reaches. */
  lemma CrossingIsMatching(b: Book, r: NewOrderRequest)
    requires NewOrderFault(b, r).None?
    ensures Crossing(b, r) == Leaves(b.bag, Matches(b.bag, NewOrderValue(r, b.nextOrder)))
  {
    hide Leaves;
    LeavesIgnoreEmpty(b.bag, Reached(b.bag, r), Matches(b.bag, NewOrderValue(r, b.nextOrder)));
  }

  function Quantity(es: seq<Execution>): nat {
    if es == [] then 0 else es[0].quantity + Quantity(es[1..])
  }

  /** Maximal matching: a sweep trades all it wants or all that matches, whichever is less. */
  lemma {:induction false} SweepIsMaximal(bag: Bag, taker: OrderValue)
    ensures Quantity(Sweep(bag, taker).executions) == Min(taker.leaves, Leaves(bag, Matches(bag, taker)))
    ensures Sweep(bag, taker).taker.leaves == taker.leaves - Quantity(Sweep(bag, taker).executions)
    decreases taker.leaves
  {
    if Matches(bag, taker) != {} {
      var id := First(bag, taker);
      var e := Execute(taker, bag[id]);
      var rest := Sweep(Settle(bag, id, e.maker), e.taker);
      SweepIsMaximal(Settle(bag, id, e.maker), e.taker);
      GoesOn(bag, taker);
      LeavesOfOne(bag, Matches(bag, taker), id);
      assert Sweep(bag, taker).executions[1..] == rest.executions;
      if e.taker.leaves > 0 {
        LeavesAgree(bag, bag - {id}, Matches(bag, taker) - {id});
      }
    }
  }

  // ---------- The trades of a report ----------

  lemma {:induction false} TradesAt(es: seq<Execution>, tradeId: nat, sequence: nat, k: nat)
    ensures |Trades(es, tradeId, sequence)| == |es|
    ensures k < |es| ==> Trades(es, tradeId, sequence)[k] == TradeOf(es[k], tradeId + k, sequence + 3 * k)
  {
    if es != [] {
      TradesAt(es[..|es| - 1], tradeId, sequence, k);
    }
  }

  function TradedQuantity(ts: seq<Trade>): int {
    if ts == [] then 0 else TradedQuantity(ts[..|ts| - 1]) + ts[|ts| - 1].quantity
  }

  lemma {:induction false} QuantityOfLast(es: seq<Execution>)
    requires es != []
    ensures Quantity(es) == Quantity(es[..|es| - 1]) + es[|es| - 1].quantity
  {
    if |es| > 1 {
      QuantityOfLast(es[1..]);
      assert es[1..][..|es| - 2] == es[..|es| - 1][1..];
    }
  }

  lemma {:induction false} TradedIsQuantity(es: seq<Execution>, tradeId: nat, sequence: nat)
    ensures TradedQuantity(Trades(es, tradeId, sequence)) == Quantity(es)
  {
    if es != [] {
      TradedIsQuantity(es[..|es| - 1], tradeId, sequence);
      QuantityOfLast(es);
    }
  }

  /** The quantity traded by an accepted order: all it asked for, or all that it could cross. */
  lemma SubmitIsMaximal(b: Book, r: NewOrderRequest)
    requires NewOrderFault(b, r).None?
    ensures TradedQuantity(Submit(b, r).report.trades) == Min(r.quantity, Crossing(b, r))
  {
    CrossingIsMatching(b, r);
    SweepIsMaximal(b.bag, NewOrderValue(r, b.nextOrder));
    TradedIsQuantity(SweepOf(b, r).executions, b.nextTrade, b.nextEvent + 1);
  }

  /** The orders on the other side: at the limit or better for a limit order, all of them for a market order. */
  function Opposing(bag: Bag, r: NewOrderRequest): set<nat> {
    set id | id in bag && bag[id].side == r.side.Opposite()
      && (r.orderType.Limit? ==> if r.side.Buy? then bag[id].price <= r.price else bag[id].price >= r.price)
  }

  /** In a reachable book, by sides and prices alone: a submission trades all it asks for, or all that opposes it. */
  lemma SubmitTakesAllOpposing(b: Book, r: NewOrderRequest)
    requires WellFormed(b) && NewOrderFault(b, r).None?
    ensures TradedQuantity(Submit(b, r).report.trades) == Min(r.quantity, Leaves(b.bag, Opposing(b.bag, r)))
  {
    hide Submit, Leaves, Uncrossed;
    assert Opposing(b.bag, r) == Reached(b.bag, r);
    SubmitIsMaximal(b, r);
  }

  /** A market order leaves orders on the other side only when it was filled completely. */
  lemma MarketTakesAll(b: Book, r: NewOrderRequest, id: nat)
    requires WellFormed(b) && NewOrderFault(b, r).None? && r.orderType.Market?
    requires id in Accept(b, r).book.bag && Accept(b, r).book.bag[id].side == r.side.Opposite()
    ensures TradedQuantity(Submit(b, r).report.trades) == r.quantity
  {
    hide Sweep, Events, Trades, Quantity, TradedQuantity, WellFormed, Matches;
    MarketIsFilled(b, r, id);
    SweepIsMaximal(b.bag, NewOrderValue(r, b.nextOrder));
    TradedIsQuantity(SweepOf(b, r).executions, b.nextTrade, b.nextEvent + 1);
    assert Submit(b, r).report.trades == Trades(SweepOf(b, r).executions, b.nextTrade, b.nextEvent + 1);
  }

  lemma MarketIsFilled(b: Book, r: NewOrderRequest, id: nat)
    requires WellFormed(b) && NewOrderFault(b, r).None? && r.orderType.Market?
    requires id in Accept(b, r).book.bag && Accept(b, r).book.bag[id].side == r.side.Opposite()
    ensures SweepOf(b, r).taker.leaves == 0
  {
    hide Sweep, Events, Trades, Uncrossed, Matches;
    AcceptKeepsWellFormed(b, r);
    SweepShrinks(b.bag, NewOrderValue(r, b.nextOrder));
    var s := SweepOf(b, r);
    NothingMatchesIff(s.bag, s.taker);
    assert IsResting(s.bag[id], id, b.symbolId, b.nextOrder + 1);
    assert !CanMatch(s.taker, s.bag[id]);
  }

  lemma NothingMatchesIff(bag: Bag, taker: OrderValue)
    ensures Matches(bag, taker) == {} <==> forall id :: id in bag ==> !CanMatch(taker, bag[id])
  {
    assert forall id :: id in bag && CanMatch(taker, bag[id]) ==> id in Matches(bag, taker);
  }

  /** The resting party of a trade. */
  function MakerOf(side: Side, t: Trade): nat {
    if side.Buy? then t.sellOrderId else t.buyOrderId
  }

  /** Trade prices only get worse for the taker, and never pass its limit; at one price the older order trades first. */
  lemma SubmitTradesInPriceOrder(b: Book, r: NewOrderRequest, i: nat, j: nat)
    requires WellFormed(b) && NewOrderFault(b, r).None?
    requires i <= j < |Submit(b, r).report.trades|
    ensures var ts := Submit(b, r).report.trades;
      && (if r.side.Buy? then ts[i].price <= ts[j].price else ts[i].price >= ts[j].price)
      && (r.orderType.Limit? ==> if r.side.Buy? then ts[j].price <= r.price else ts[j].price >= r.price)
      && MakerOf(r.side, ts[i]) in b.bag && MakerOf(r.side, ts[j]) in b.bag
      && (i < j && ts[i].price == ts[j].price ==>
            b.bag[MakerOf(r.side, ts[i])].sequence < b.bag[MakerOf(r.side, ts[j])].sequence)
  {
    hide Sweep, Events, Trades, First, Sound, Uncrossed;
    var taker := NewOrderValue(r, b.nextOrder);
    var es := SweepOf(b, r).executions;
    TradesAt(es, b.nextTrade, b.nextEvent + 1, i);
    TradesAt(es, b.nextTrade, b.nextEvent + 1, j);
    MakersMatch(b.bag, taker, b.symbolId, b.nextOrder, i);
    MakersMatch(b.bag, taker, b.symbolId, b.nextOrder, j);
    TakerStays(b.bag, taker, i);
    TakerStays(b.bag, taker, j);
    if i < j {
      MakersInPriority(b.bag, taker, b.symbolId, b.nextOrder, i, j);
    }
  }

  /** A trade names the buyer as buyer, the resting order's price as price, and carries the taker's time. */
  lemma TradeParties(b: Book, r: NewOrderRequest, k: nat)
    requires WellFormed(b) && NewOrderFault(b, r).None?
    requires k < |Submit(b, r).report.trades|
    ensures var t := Submit(b, r).report.trades[k];
      var (taker, maker) := if r.side.Buy? then (t.buyOrderId, t.sellOrderId) else (t.sellOrderId, t.buyOrderId);
      && taker == r.orderId
      && maker in b.bag && b.bag[maker].side == r.side.Opposite()
      && t.price == b.bag[maker].price
      && 0 < t.quantity <= b.bag[maker].leaves
      && t.symbolId == b.symbolId && t.timestamp == r.timestamp
  {
    hide Sweep, Events, Trades, First, Sound, Uncrossed;
    var taker := NewOrderValue(r, b.nextOrder);
    TradesAt(SweepOf(b, r).executions, b.nextTrade, b.nextEvent + 1, k);
    MakersMatch(b.bag, taker, b.symbolId, b.nextOrder, k);
    MakersAreExhausted(b.bag, taker, k);
    TakerStays(b.bag, taker, k);
  }

  /** The taker of every execution is the incoming order, at its own time. */
  lemma {:induction false} TakerStays(bag: Bag, taker: OrderValue, k: nat)
    requires k < |Sweep(bag, taker).executions|
    ensures var e := Sweep(bag, taker).executions[k];
      && SameOrder(taker, e.taker) && e.taker.updatedAt == taker.updatedAt
    decreases k
  {
    var id := First(bag, taker);
    var e := Execute(taker, bag[id]);
    GoesOn(bag, taker);
    if k > 0 {
      TakerStays(bag - {id}, e.taker, k - 1);
    }
  }

  /** Two events per execution, taker first: cumulative fill and leaves add up to the order, Fill means no leaves. */
  lemma {:induction false} ExecutionEventsAt(es: seq<Execution>, sequence: nat, k: nat)
    requires k < |es| && es[k].taker.leaves <= es[k].taker.quantity && es[k].maker.leaves <= es[k].maker.quantity
    ensures |Events(es, sequence)| == 2 * |es|
    ensures Tells(Events(es, sequence)[2 * k], es[k].taker) && Tells(Events(es, sequence)[2 * k + 1], es[k].maker)
  {
    EventsLength(es[..|es| - 1], sequence);
    if k < |es| - 1 {
      ExecutionEventsAt(es[..|es| - 1], sequence, k);
    }
  }

  lemma {:induction false} EventsLength(es: seq<Execution>, sequence: nat)
    ensures |Events(es, sequence)| == 2 * |es|
  {
    if es != [] {
      EventsLength(es[..|es| - 1], sequence);
    }
  }

  /** An event that reports the state of an order after an execution. */
  predicate Tells(e: Event, o: OrderValue) {
    && e.orderId == o.orderId && e.symbolId == o.symbolId
    && e.price == o.price && e.timestamp == o.updatedAt
    && e.leaves == o.leaves && e.quantity + e.leaves == o.quantity
    && (e.kind.Fill? <==> o.leaves == 0) && (e.kind.PartialFill? <==> o.leaves > 0)
  }

  /** A submission rests exactly when it is a limit order for more than it crosses. */
  lemma RestsIff(b: Book, r: NewOrderRequest)
    requires NewOrderFault(b, r).None?
    ensures Rests(SweepOf(b, r)) <==> r.orderType.Limit? && r.quantity > Crossing(b, r)
    ensures Rests(SweepOf(b, r)) ==> Residual(SweepOf(b, r)).leaves == r.quantity - Crossing(b, r)
  {
    hide Sweep, Matches, Leaves, Crossing;
    CrossingIsMatching(b, r);
    SweepIsMaximal(b.bag, NewOrderValue(r, b.nextOrder));
    SweepShrinks(b.bag, NewOrderValue(r, b.nextOrder));
  }

  /** Something crosses exactly when something matches. */
  lemma CrossingIff(b: Book, r: NewOrderRequest)
    requires NewOrderFault(b, r).None?
    ensures Crossing(b, r) > 0 <==> Matches(b.bag, NewOrderValue(r, b.nextOrder)) != {}
  {
    hide Crossing;
    CrossingIsMatching(b, r);
    var taker := NewOrderValue(r, b.nextOrder);
    if id :| id in Matches(b.bag, taker) {
      LeavesOfOne(b.bag, Matches(b.bag, taker), id);
    }
  }

  /** In the book, with this id, marked Resting, and yet not as it came. */
  predicate RestsPartlyFilled(bag: Bag, id: nat) {
    id in bag && bag[id].status.Resting? && bag[id].leaves < bag[id].quantity
  }

  /**
   * Whoever rests after submission is marked Resting, even if part of it was executed on entry: the mark says nothing
   * about fills. It hides one exactly for a limit order that crosses something, and less than it asks for.
   */
  lemma RestingHidesPartialFills(b: Book, r: NewOrderRequest)
    requires NewOrderFault(b, r).None?
    ensures var bag := Accept(b, r).book.bag;
      && (r.orderId in bag <==> r.orderType.Limit? && Crossing(b, r) < r.quantity)
      && (r.orderId in bag ==> bag[r.orderId].status.Resting? && bag[r.orderId].leaves == r.quantity - Crossing(b, r))
      && (RestsPartlyFilled(bag, r.orderId) <==> r.orderType.Limit? && 0 < Crossing(b, r) < r.quantity)
    ensures Crossing(b, r) > 0 <==> Matches(b.bag, NewOrderValue(r, b.nextOrder)) != {}
  {
    hide Sweep, Matches, Crossing;
    CrossingIff(b, r);
    RestsIff(b, r);
    SweepShrinks(b.bag, NewOrderValue(r, b.nextOrder));
  }

  /** A limit order that matches nothing joins the book as it is. */
  lemma NothingMatches(b: Book, r: NewOrderRequest)
    requires NewOrderFault(b, r).None? && r.orderType.Limit?
    requires forall id :: id in b.bag ==> !CanMatch(NewOrderValue(r, b.nextOrder), b.bag[id])
    ensures Submit(b, r).book.bag == b.bag[r.orderId := NewOrderValue(r, b.nextOrder).(status := Resting)]
    ensures Submit(b, r).book.symbolId == b.symbolId && Submit(b, r).book.nextOrder == b.nextOrder + 1
  {
    var taker := NewOrderValue(r, b.nextOrder);
    assert Matches(b.bag, taker) == {};
    assert SweepOf(b, r) == Swept(b.bag, taker, []);
  }
}
