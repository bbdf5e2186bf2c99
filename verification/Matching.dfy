/** Price-time matching over an unordered bag of resting orders: what the match loops must compute. */
module Matching {
  import opened Model

  /** The resting orders of one book, by order id. */
  type Bag = map<nat, OrderValue>

  /** May `taker` trade with the resting order `maker`? */
  predicate CanMatch(taker: OrderValue, maker: OrderValue) {
    && taker.symbolId == maker.symbolId
    && taker.side != maker.side
    && taker.leaves != 0
    && maker.leaves != 0
    && (taker.orderType.Market?
        || if taker.side.Buy? then taker.price >= maker.price else taker.price <= maker.price)
  }

  /** Priority between two resting orders of one side: better price, then earlier sequence. */
  predicate Ahead(a: OrderValue, b: OrderValue) {
    if a.price == b.price then a.sequence < b.sequence
    else if a.side.Buy? then a.price > b.price else a.price < b.price
  }

  function Matches(bag: Bag, taker: OrderValue): set<nat> {
    set id | id in bag && CanMatch(taker, bag[id])
  }

  /** No order of `ids` is ahead of `id`. */
  ghost predicate IsFirst(bag: Bag, ids: set<nat>, id: nat)
    requires ids <= bag.Keys
  {
    id in ids && forall other :: other in ids ==> !Ahead(bag[other], bag[id])
  }

  lemma {:induction false} FirstExists(bag: Bag, ids: set<nat>)
    requires ids != {} && ids <= bag.Keys
    requires forall i, j :: i in ids && j in ids ==> bag[i].side == bag[j].side
    ensures exists id :: IsFirst(bag, ids, id)
    decreases ids
  {
    var x :| x in ids;
    var rest := ids - {x};
    if rest == {} {
      assert ids == {x};
      assert IsFirst(bag, ids, x);
    } else {
      FirstExists(bag, rest);
      var y :| IsFirst(bag, rest, y);
      assert ids == rest + {x};
      assert IsFirst(bag, ids, if Ahead(bag[x], bag[y]) then x else y);
    }
  }

  /** The matching order with the highest priority. */
  ghost function First(bag: Bag, taker: OrderValue): (id: nat)
    requires Matches(bag, taker) != {}
    ensures IsFirst(bag, Matches(bag, taker), id)
  {
    FirstExists(bag, Matches(bag, taker));
    var id :| IsFirst(bag, Matches(bag, taker), id);
    id
  }

  function Min(a: nat, b: nat): nat {
    if a < b then a else b
  }

  /** What an execution of `quantity` at time `timestamp` makes of either party. */
  function AfterExecution(o: OrderValue, quantity: nat, timestamp: nat): OrderValue
    requires quantity <= o.leaves
  {
    o.(leaves := o.leaves - quantity,
       status := if o.leaves == quantity then Filled else PartiallyFilled,
       updatedAt := timestamp)
  }

  /** One execution: both parties as they are after it, and the quantity that changed hands. */
  datatype Execution = Execution(taker: OrderValue, maker: OrderValue, quantity: nat)

  function Execute(taker: OrderValue, maker: OrderValue): Execution {
    var quantity := Min(taker.leaves, maker.leaves);
    Execution(AfterExecution(taker, quantity, taker.updatedAt),
              AfterExecution(maker, quantity, taker.updatedAt),
              quantity)
  }

  /** A maker that is filled leaves the bag, any other stays with what is left of it. */
  function Settle(bag: Bag, id: nat, maker: OrderValue): Bag {
    if maker.leaves == 0 then bag - {id} else bag[id := maker]
  }

  datatype Swept = Swept(bag: Bag, taker: OrderValue, executions: seq<Execution>)

  /** Execute against the first matching order until nothing matches. */
  ghost function Sweep(bag: Bag, taker: OrderValue): Swept
    decreases taker.leaves
  {
    if Matches(bag, taker) == {} then Swept(bag, taker, [])
    else
      var id := First(bag, taker);
      var e := Execute(taker, bag[id]);
      var rest := Sweep(Settle(bag, id, e.maker), e.taker);
      Swept(rest.bag, rest.taker, [e] + rest.executions)
  }

  // ---------- The report of a sweep ----------

  function TradeOf(e: Execution, tradeId: nat, sequence: nat): Trade {
    var (buyer, seller) :=
      if e.taker.side.Buy? then (e.taker.orderId, e.maker.orderId)
      else (e.maker.orderId, e.taker.orderId);
    Trade(tradeId, e.taker.symbolId, buyer, seller, e.maker.price, e.quantity, sequence, e.taker.updatedAt)
  }

  /** Three numbers per execution, in the order trade, taker event, maker event. */
  function Events(es: seq<Execution>, sequence: nat): seq<Event> {
    if es == [] then []
    else
      var k := |es| - 1;
      Events(es[..k], sequence)
      + [ExecutionEvent(es[k].taker, sequence + 3 * k + 1), ExecutionEvent(es[k].maker, sequence + 3 * k + 2)]
  }

  function Trades(es: seq<Execution>, tradeId: nat, sequence: nat): seq<Trade> {
    if es == [] then []
    else
      var k := |es| - 1;
      Trades(es[..k], tradeId, sequence) + [TradeOf(es[k], tradeId + k, sequence + 3 * k)]
  }

  // ---------- A sweep in progress ----------

  /** The sweep that continues as `rest` after the executions `done`. */
  function Continued(done: seq<Execution>, rest: Swept): Swept {
    Swept(rest.bag, rest.taker, done + rest.executions)
  }

  lemma SweepStarts(bag: Bag, taker: OrderValue, tradeId: nat, sequence: nat)
    ensures Continued([], Sweep(bag, taker)) == Sweep(bag, taker)
    ensures Report(Events([], sequence), Trades([], tradeId, sequence)) == EMPTY_REPORT
  {
  }

  lemma SweepStops(bag: Bag, taker: OrderValue, done: seq<Execution>)
    requires Matches(bag, taker) == {}
    ensures Continued(done, Sweep(bag, taker)) == Swept(bag, taker, done)
  {
  }

  lemma SweepAdvances(bag: Bag, taker: OrderValue, done: seq<Execution>)
    requires Matches(bag, taker) != {}
    ensures var id := First(bag, taker);
      var e := Execute(taker, bag[id]);
      Continued(done, Sweep(bag, taker)) == Continued(done + [e], Sweep(Settle(bag, id, e.maker), e.taker))
  {
    var id := First(bag, taker);
    var e := Execute(taker, bag[id]);
    var rest := Sweep(Settle(bag, id, e.maker), e.taker);
    assert done + ([e] + rest.executions) == (done + [e]) + rest.executions;
  }

  lemma ReportAdvances(done: seq<Execution>, e: Execution, tradeId: nat, sequence: nat)
    ensures Events(done + [e], sequence) == Events(done, sequence)
      + [ExecutionEvent(e.taker, sequence + 3 * |done| + 1), ExecutionEvent(e.maker, sequence + 3 * |done| + 2)]
    ensures Trades(done + [e], tradeId, sequence)
      == Trades(done, tradeId, sequence) + [TradeOf(e, tradeId + |done|, sequence + 3 * |done|)]
  {
    assert (done + [e])[..|done|] == done;
  }
}
