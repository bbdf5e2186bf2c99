/** Heap orders and the intrusive FIFO queue of one price, threaded through the orders themselves. */
module PriceLevels {
  import opened Model

  class Order {
    const orderId: nat
    const symbolId: nat
    const side: Side
    const orderType: OrderType
    const price: int
    const quantity: nat
    const sequence: nat
    const createdAt: nat
    var leaves: nat
    var updatedAt: nat
    var status: OrderStatus
    var prevInLevel: Order?
    var nextInLevel: Order?

    constructor FromRequest(r: NewOrderRequest, sequence: nat)
      requires r.quantity >= 0
      ensures Value() == OrderValue(r.orderId, r.symbolId, r.side, r.orderType, r.price, r.quantity, r.quantity,
                                    sequence, r.timestamp, r.timestamp, OrderStatus.New)
      ensures prevInLevel == null && nextInLevel == null
    {
      this.orderId, this.symbolId := r.orderId, r.symbolId;
      this.side, this.orderType, this.price := r.side, r.orderType, r.price;
      this.quantity, this.leaves := r.quantity, r.quantity;
      this.sequence := sequence;
      this.createdAt, this.updatedAt := r.timestamp, r.timestamp;
      this.status := OrderStatus.New;
      this.prevInLevel, this.nextInLevel := null, null;
    }

    /** The order without its links. */
    function Value(): OrderValue
      reads this`leaves, this`updatedAt, this`status
    {
      OrderValue(orderId, symbolId, side, orderType, price, quantity, leaves, sequence, createdAt, updatedAt, status)
    }
  }

  /** Where an order queues: the price levels of one side, by price. */
  datatype Key = Key(side: Side, price: int)

  function KeyOf(o: Order): Key {
    Key(o.side, o.price)
  }

  /** The neighbours of position `i` of a queue. */
  ghost function Before(queue: seq<Order>, i: nat): Order?
    requires i < |queue|
  {
    if i == 0 then null else queue[i - 1]
  }

  ghost function After(queue: seq<Order>, i: nat): Order?
    requires i < |queue|
  {
    if i == |queue| - 1 then null else queue[i + 1]
  }

  /** `rank` gives the position of every order of `queue`; hence no order is queued twice. */
  ghost predicate Ranks(rank: map<Order, nat>, queue: seq<Order>) {
    && (forall i :: 0 <= i < |queue| ==> queue[i] in rank && rank[queue[i]] == i)
    && (forall o {:trigger rank[o]} :: o in rank ==> rank[o] < |queue| && queue[rank[o]] == o)
  }

  ghost function Without(queue: seq<Order>, i: nat): seq<Order>
    requires i < |queue|
  {
    queue[..i] + queue[i + 1..]
  }

  ghost function RankWithout(rank: map<Order, nat>, i: nat): map<Order, nat> {
    map o | o in rank && rank[o] != i :: if rank[o] < i then rank[o] else rank[o] - 1
  }

  lemma WithoutRanks(rank: map<Order, nat>, queue: seq<Order>, i: nat)
    requires Ranks(rank, queue) && i < |queue|
    ensures Ranks(RankWithout(rank, i), Without(queue, i))
    ensures RankWithout(rank, i).Keys == rank.Keys - {queue[i]}
  {
    var rest := Without(queue, i);
    assert forall k :: 0 <= k < |rest| ==> rest[k] == queue[if k < i then k else k + 1];
  }

  /** Removing position `i` joins its two neighbours and leaves those of every other order alone. */
  lemma WithoutNeighbours(rank: map<Order, nat>, queue: seq<Order>, i: nat, o: Order)
    requires Ranks(rank, queue) && i < |queue| && o in rank && rank[o] != i
    ensures RankWithout(rank, i)[o] < |Without(queue, i)|
    ensures Before(Without(queue, i), RankWithout(rank, i)[o])
         == Before(queue, if rank[o] == i + 1 then i else rank[o])
    ensures After(Without(queue, i), RankWithout(rank, i)[o])
         == After(queue, if rank[o] + 1 == i then i else rank[o])
  {
  }

  /** Appending an order makes it the one after the last and leaves all other neighbours alone. */
  lemma WithNeighbours(rank: map<Order, nat>, queue: seq<Order>, o: Order)
    requires Ranks(rank, queue) && o !in rank
    ensures Ranks(rank[o := |queue|], queue + [o])
    ensures forall p {:trigger rank[p]} :: p in rank ==>
      && Before(queue + [o], rank[p]) == Before(queue, rank[p])
      && After(queue + [o], rank[p]) == if rank[p] == |queue| - 1 then o else After(queue, rank[p])
    ensures Before(queue + [o], |queue|) == if queue == [] then null else queue[|queue| - 1]
    ensures After(queue + [o], |queue|) == null
  {
  }

  class PriceLevel {
    /** The side of the book that holds this level. */
    ghost const side: Side
    const price: int
    var head: Order?
    var tail: Order?
    var size: nat
    /** The queue from head to tail. */
    ghost var contents: seq<Order>

    /** The position of every queued order, so that no order is queued twice. */
    ghost var rank: map<Order, nat>

    /** The links and both ends spell out `queue`. */
    ghost predicate Linked(queue: seq<Order>, position: map<Order, nat>)
      requires Ranks(position, queue)
      reads this`head, this`tail, position.Keys`prevInLevel, position.Keys`nextInLevel
    {
      && (forall o {:trigger o.prevInLevel} :: o in position ==> o.prevInLevel == Before(queue, position[o]))
      && (forall o {:trigger o.nextInLevel} :: o in position ==> o.nextInLevel == After(queue, position[o]))
      && head == (if queue == [] then null else queue[0])
      && tail == (if queue == [] then null else queue[|queue| - 1])
    }

    /** Links, ends and size agree with `contents`. */
    ghost predicate Valid()
      reads this, rank.Keys`prevInLevel, rank.Keys`nextInLevel
    {
      && Ranks(rank, contents)
      && Linked(contents, rank)
      && size == |contents|
    }

    /** A valid level at `key` whose queue is `queue`. */
    ghost predicate Holds(key: Key, queue: seq<Order>)
      reads this, rank.Keys`prevInLevel, rank.Keys`nextInLevel
    {
      && Valid()
      && Key(side, price) == key
      && contents == queue
      && forall o :: o in rank ==> KeyOf(o) == key
    }

    lemma HeadOfQueue(key: Key, queue: seq<Order>)
      requires Holds(key, queue)
      ensures head == if queue == [] then null else queue[0]
    {
    }

    lemma PositionOf(key: Key, queue: seq<Order>, o: Order)
      requires Holds(key, queue) && o in queue
      ensures o in rank && rank[o] < |queue| && queue[rank[o]] == o
    {
    }

    /** Levels of different keys share neither themselves nor their orders. */
    lemma Apart(key: Key, other: PriceLevel, otherKey: Key, o: Order)
      requires Holds(key, contents) && other.Holds(otherKey, other.contents) && key != otherKey && KeyOf(o) == key
      ensures this != other && o !in other.rank && rank.Keys !! other.rank.Keys
    {
    }

    constructor (price: int, ghost side: Side)
      ensures Holds(Key(side, price), []) && rank == map[]
    {
      this.price := price;
      this.side := side;
      head, tail, size := null, null, 0;
      contents, rank := [], map[];
    }

    predicate Empty()
      reads this`head
    {
      head == null
    }

    method PushBack(order: Order)
      requires Valid() && order !in rank
      modifies this, order`prevInLevel, order`nextInLevel, rank.Keys`nextInLevel
      ensures Valid()
      ensures contents == old(contents) + [order]
      ensures rank == old(rank)[order := |old(contents)|]
      ensures old(Holds(KeyOf(order), contents)) ==> Holds(KeyOf(order), contents)
    {
      hide Before, After;
      WithNeighbours(rank, contents, order);
      order.prevInLevel := null;
      order.nextInLevel := null;
      contents, rank := contents + [order], rank[order := |contents|];
      if tail == null {
        head, tail, size := order, order, 1;
        return;
      }
      order.prevInLevel := tail;
      tail.nextInLevel := order;
      tail := order;
      size := size + 1;
    }

    /** Make `next` follow `previous`, or head the level when nothing precedes it. */
    method LinkForward(previous: Order?, next: Order?)
      modifies `head, (if previous == null then {} else {previous})`nextInLevel
      ensures if previous == null then head == next else previous.nextInLevel == next && head == old(head)
    {
      if previous != null {
        previous.nextInLevel := next;
      } else {
        head := next;
      }
    }

    /** Make `previous` precede `next`, or close the level when nothing follows it. */
    method LinkBackward(previous: Order?, next: Order?)
      modifies `tail, (if next == null then {} else {next})`prevInLevel
      ensures if next == null then tail == previous else next.prevInLevel == previous && tail == old(tail)
    {
      if next != null {
        next.prevInLevel := previous;
      } else {
        tail := previous;
      }
    }

    /** Every order but the one at `i`, and both ends, have the links they need once `i` is gone. */
    ghost predicate Skips(queue: seq<Order>, position: map<Order, nat>, i: nat)
      requires Ranks(position, queue) && i < |queue|
      reads this`head, this`tail, position.Keys`prevInLevel, position.Keys`nextInLevel
    {
      && (forall o {:trigger o.prevInLevel} :: o in position && position[o] != i ==>
            o.prevInLevel == Before(queue, if position[o] == i + 1 then i else position[o]))
      && (forall o {:trigger o.nextInLevel} :: o in position && position[o] != i ==>
            o.nextInLevel == After(queue, if position[o] + 1 == i then i else position[o]))
      && head == (if i == 0 then After(queue, 0) else queue[0])
      && tail == (if i == |queue| - 1 then Before(queue, i) else queue[|queue| - 1])
    }

    lemma SkipsIsLinked(queue: seq<Order>, position: map<Order, nat>, i: nat)
      requires Ranks(position, queue) && i < |queue|
      requires Skips(queue, position, i)
      ensures Ranks(RankWithout(position, i), Without(queue, i))
      ensures Linked(Without(queue, i), RankWithout(position, i))
    {
      WithoutRanks(position, queue, i);
      forall o {:trigger o.prevInLevel} {:trigger o.nextInLevel} | o in RankWithout(position, i)
        ensures o.prevInLevel == Before(Without(queue, i), RankWithout(position, i)[o])
        ensures o.nextInLevel == After(Without(queue, i), RankWithout(position, i)[o])
      {
        WithoutNeighbours(position, queue, i, o);
      }
    }

    /** Take an order out of the chain: its neighbours, or the ends of the level, skip it. */
    method Bypass(order: Order)
      requires Valid() && order in rank
      modifies `head, `tail, rank.Keys`prevInLevel, rank.Keys`nextInLevel
      ensures Skips(contents, rank, rank[order])
      ensures order.prevInLevel == null && order.nextInLevel == null
    {
      LinkForward(order.prevInLevel, order.nextInLevel);
      LinkBackward(order.prevInLevel, order.nextInLevel);
      order.prevInLevel := null;
      order.nextInLevel := null;
    }

    /** Unlink an order of this level. */
    method Erase(order: Order)
      requires Valid() && order in rank
      modifies this, rank.Keys`prevInLevel, rank.Keys`nextInLevel
      ensures Valid()
      ensures contents == Without(old(contents), old(rank)[order])
      ensures rank == RankWithout(old(rank), old(rank)[order]) && rank.Keys == old(rank).Keys - {order}
      ensures old(Holds(KeyOf(order), contents)) ==> Holds(KeyOf(order), contents)
      ensures order.prevInLevel == null && order.nextInLevel == null
    {
      ghost var queue, position, i := contents, rank, rank[order];
      Bypass(order);
      SkipsIsLinked(queue, position, i);
      if size > 0 {
        size := size - 1;
      }
      if size == 0 {
        head := null;
        tail := null;
      }
      contents, rank := Without(queue, i), RankWithout(position, i);
    }

    method PopFront()
      requires Valid()
      modifies this, rank.Keys`prevInLevel, rank.Keys`nextInLevel
      ensures Valid()
      ensures contents == if old(contents) == [] then [] else old(contents)[1..]
      ensures old(head) != null ==> old(head).prevInLevel == null && old(head).nextInLevel == null
    {
      if head == null {
        return;
      }
      Erase(head);
    }

    method Clear()
      requires Valid()
      modifies this, rank.Keys`prevInLevel, rank.Keys`nextInLevel
      ensures Valid() && contents == []
      ensures forall o :: o in old(contents) ==> o.prevInLevel == null && o.nextInLevel == null
    {
      ghost var queue, position := contents, rank;
      var cursor := head;
      ghost var i := 0;
      while cursor != null
        invariant i <= |queue|
        invariant cursor == if i == |queue| then null else queue[i]
        invariant forall o {:trigger o.prevInLevel} :: o in position && position[o] < i ==> o.prevInLevel == null
        invariant forall o {:trigger o.nextInLevel} :: o in position && position[o] < i ==> o.nextInLevel == null
        invariant forall o {:trigger o.nextInLevel} :: o in position && position[o] >= i ==>
          o.nextInLevel == After(queue, position[o])
        decreases |queue| - i
      {
        var next := cursor.nextInLevel;
        cursor.prevInLevel := null;
        cursor.nextInLevel := null;
        cursor := next;
        i := i + 1;
      }
      head, tail, size := null, null, 0;
      contents, rank := [], map[];
    }

    method Contains(order: Order?) returns (found: bool)
      requires Valid()
      ensures found <==> order != null && order in contents
    {
      var cursor := head;
      ghost var i := 0;
      while cursor != null
        invariant i <= |contents|
        invariant cursor == if i == |contents| then null else contents[i]
        invariant order == null || order !in contents[..i]
        decreases |contents| - i
      {
        if cursor == order {
          return true;
        }
        cursor := cursor.nextInLevel;
        i := i + 1;
      }
      return false;
    }
  }

  // ---------- The first level of a price map ----------

  predicate IsLowest(prices: set<int>, p: int) {
    p in prices && forall q :: q in prices ==> p <= q
  }

  predicate IsHighest(prices: set<int>, p: int) {
    p in prices && forall q :: q in prices ==> q <= p
  }

  lemma {:induction false} ExtremesExist(prices: set<int>)
    requires prices != {}
    ensures exists p :: IsLowest(prices, p)
    ensures exists p :: IsHighest(prices, p)
  {
    if forall x :: x !in prices {
      assert false;
    }
    var x :| x in prices;
    var rest := prices - {x};
    assert prices == rest + {x};
    if rest == {} {
      assert IsLowest(prices, x) && IsHighest(prices, x);
    } else {
      ExtremesExist(rest);
      var low :| IsLowest(rest, low);
      var high :| IsHighest(rest, high);
      assert IsLowest(prices, if x < low then x else low);
      assert IsHighest(prices, if x > high then x else high);
    }
  }
}
