/** The order book of the source: heap orders, intrusive levels, an ownership map and a lookup index. */
module OrderBooks {
  import opened Model
  import opened Matching
  import opened Books
  import opened PriceLevels

  datatype OrderHandle = OrderHandle(side: Side, price: int, order: Order)

  /** The queues of a book, oldest order first, by side and price. */
  type Queues = map<Key, seq<Order>>

  /** A queue holds linked orders of its own key, in strictly increasing sequence. */
  ghost predicate QueueAt(queue: seq<Order>, key: Key, linked: map<nat, Order>) {
    && (forall i :: 0 <= i < |queue| ==>
          KeyOf(queue[i]) == key && queue[i].orderId in linked && linked[queue[i].orderId] == queue[i])
    && (forall i, j :: 0 <= i < j < |queue| ==> queue[i].sequence < queue[j].sequence)
  }

  /** The queues hold exactly the linked orders. */
  ghost predicate Arranged(queues: Queues, linked: map<nat, Order>) {
    && (forall key :: key in queues ==> QueueAt(queues[key], key, linked))
    && (forall id :: id in linked ==>
          linked[id].orderId == id && KeyOf(linked[id]) in queues && linked[id] in queues[KeyOf(linked[id])])
  }

  /** An empty queue is dropped. */
  function Prune(queues: Queues, key: Key): Queues {
    if key in queues && queues[key] == [] then queues - {key} else queues
  }

  lemma RemovalKeepsQueue(queue: seq<Order>, linked: map<nat, Order>, o: Order, i: nat)
    requires QueueAt(queue, KeyOf(o), linked) && i < |queue| && queue[i] == o
    ensures QueueAt(Without(queue, i), KeyOf(o), linked - {o.orderId})
    ensures forall p :: p in queue && p != o ==> p in Without(queue, i)
  {
    var rest := Without(queue, i);
    assert forall k :: 0 <= k < |rest| ==> rest[k] == queue[if k < i then k else k + 1];
    forall p | p in queue && p != o ensures p in rest {
      var k :| 0 <= k < |queue| && queue[k] == p;
      assert p == rest[if k < i then k else k - 1];
    }
  }

  lemma RemovalKeepsArranged(queues: Queues, linked: map<nat, Order>, o: Order, i: nat)
    requires Arranged(queues, linked)
    requires o.orderId in linked && linked[o.orderId] == o
    requires i < |queues[KeyOf(o)]| && queues[KeyOf(o)][i] == o
    ensures Arranged(Prune(queues[KeyOf(o) := Without(queues[KeyOf(o)], i)], KeyOf(o)), linked - {o.orderId})
  {
    hide Without;
    RemovalKeepsQueue(queues[KeyOf(o)], linked, o, i);
  }

  /** The queues after an order has joined the end of its own. */
  function Joined(queues: Queues, o: Order): Queues {
    queues[KeyOf(o) := (if KeyOf(o) in queues then queues[KeyOf(o)] else []) + [o]]
  }

  /** A newcomer that is younger than every linked order joins the end of its queue. */
  lemma ArrivalKeepsArranged(queues: Queues, linked: map<nat, Order>, o: Order)
    requires Arranged(queues, linked)
    requires o.orderId !in linked
    requires forall id :: id in linked ==> linked[id].sequence < o.sequence
    ensures Arranged(Joined(queues, o), linked[o.orderId := o])
  {
    hide KeyOf, QueueAt;
    var queue := if KeyOf(o) in queues then queues[KeyOf(o)] else [];
    forall key | key in queues ensures QueueAt(queues[key], key, linked[o.orderId := o]) {
      ArrivalKeepsQueue(queues[key], key, linked, o);
    }
    ArrivalJoinsQueue(queue, linked, o);
    assert o in queue + [o];
  }

  lemma ArrivalKeepsQueue(queue: seq<Order>, key: Key, linked: map<nat, Order>, o: Order)
    requires QueueAt(queue, key, linked) && o.orderId !in linked
    ensures QueueAt(queue, key, linked[o.orderId := o])
  {
  }

  lemma ArrivalJoinsQueue(queue: seq<Order>, linked: map<nat, Order>, o: Order)
    requires queue == [] || QueueAt(queue, KeyOf(o), linked)
    requires o.orderId !in linked
    requires forall id :: id in linked ==> linked[id].sequence < o.sequence
    ensures QueueAt(queue + [o], KeyOf(o), linked[o.orderId := o])
  {
  }

  /** The two price maps hold exactly `levels`. */
  ghost predicate Splits(bids: map<int, PriceLevel>, asks: map<int, PriceLevel>, levels: map<Key, PriceLevel>) {
    && (forall p :: p in bids <==> Key(Buy, p) in levels)
    && (forall p :: p in asks <==> Key(Sell, p) in levels)
    && (forall p :: p in bids ==> bids[p] == levels[Key(Buy, p)])
    && (forall p :: p in asks ==> asks[p] == levels[Key(Sell, p)])
  }

  lemma SplitsUpdate(bids: map<int, PriceLevel>, asks: map<int, PriceLevel>, levels: map<Key, PriceLevel>,
                     price: int, level: PriceLevel)
    requires Splits(bids, asks, levels)
    ensures Splits(bids[price := level], asks, levels[Key(Buy, price) := level])
    ensures Splits(bids, asks[price := level], levels[Key(Sell, price) := level])
  {
  }

  lemma SplitsRemoval(bids: map<int, PriceLevel>, asks: map<int, PriceLevel>, levels: map<Key, PriceLevel>,
                      price: int)
    requires Splits(bids, asks, levels)
    ensures Splits(bids - {price}, asks, levels - {Key(Buy, price)})
    ensures Splits(bids, asks - {price}, levels - {Key(Sell, price)})
  {
  }

  /** The lookup index names each linked order with its side and price. */
  ghost predicate Indexes(index: map<nat, OrderHandle>, linked: map<nat, Order>) {
    && index.Keys == linked.Keys
    && forall id :: id in linked ==> index[id] == OrderHandle(linked[id].side, linked[id].price, linked[id])
  }

  lemma RemovalKeepsIndexes(index: map<nat, OrderHandle>, linked: map<nat, Order>, id: nat)
    requires Indexes(index, linked)
    ensures Indexes(index - {id}, linked - {id})
  {
  }

  lemma FrontIsLinked(queues: Queues, linked: map<nat, Order>, key: Key)
    requires Arranged(queues, linked) && key in queues && queues[key] != []
    ensures var front := queues[key][0];
      front.orderId in linked && linked[front.orderId] == front && KeyOf(front) == key
  {
    assert QueueAt(queues[key], key, linked);
  }

  /** The head of the best queue of a side has priority over every linked order of that side. */
  lemma FrontHasPriority(queues: Queues, linked: map<nat, Order>, key: Key, id: nat)
    requires Arranged(queues, linked) && key in queues && queues[key] != []
    requires forall other :: other in queues && other.side == key.side ==>
      if key.side.Buy? then other.price <= key.price else key.price <= other.price
    requires id in linked && linked[id].side == key.side
    ensures var front := queues[key][0];
      if linked[id].price == key.price then front.sequence <= linked[id].sequence
      else if key.side.Buy? then linked[id].price < key.price else key.price < linked[id].price
  {
    var o := linked[id];
    assert KeyOf(o) in queues;
    var i :| 0 <= i < |queues[KeyOf(o)]| && queues[KeyOf(o)][i] == o;
    assert QueueAt(queues[key], key, linked);
  }

  // ---------- The bag determines the queues ----------

  function Ids(queue: seq<Order>): seq<nat> {
    seq(|queue|, i requires 0 <= i < |queue| => queue[i].orderId)
  }

  /** Ids of the bag in increasing sequence of their orders. */
  ghost predicate InSequence(ids: seq<nat>, bag: Bag) {
    && (forall i :: 0 <= i < |ids| ==> ids[i] in bag)
    && (forall i, j :: 0 <= i < j < |ids| ==> bag[ids[i]].sequence < bag[ids[j]].sequence)
  }

  function AllButLast(ids: seq<nat>): seq<nat>
    requires ids != []
  {
    ids[..|ids| - 1]
  }

  /** The last elements agree, and so do the elements before them. */
  lemma LastIsYoungest(a: seq<nat>, b: seq<nat>, bag: Bag)
    requires InSequence(a, bag) && InSequence(b, bag) && a != [] && b != []
    requires forall id :: id in a <==> id in b
    ensures a[|a| - 1] == b[|b| - 1]
    ensures forall id :: id in AllButLast(a) ==> id in AllButLast(b)
  {
    var last := a[|a| - 1];
    assert last in b && b[|b| - 1] in a;
    forall id | id in AllButLast(a) ensures id in AllButLast(b) {
      assert id in b && id != last;
    }
  }

  lemma {:induction false} InSequenceIsUnique(a: seq<nat>, b: seq<nat>, bag: Bag)
    requires InSequence(a, bag) && InSequence(b, bag)
    requires forall id :: id in a <==> id in b
    ensures a == b
  {
    assert |a| > 0 ==> a[0] in b;
    assert |b| > 0 ==> b[0] in a;
    if a != [] && b != [] {
      LastIsYoungest(a, b, bag);
      LastIsYoungest(b, a, bag);
      InSequenceIsUnique(AllButLast(a), AllButLast(b), bag);
      assert a == AllButLast(a) + [a[|a| - 1]] && b == AllButLast(b) + [b[|b| - 1]];
    }
  }

  /** The bag tells side, price and sequence of each order. */
  ghost predicate Describes(bag: Bag, linked: map<nat, Order>) {
    && bag.Keys == linked.Keys
    && forall id :: id in linked ==>
      && bag[id].side == linked[id].side && bag[id].price == linked[id].price
      && bag[id].sequence == linked[id].sequence
  }

  function KeyIn(bag: Bag, id: nat): Key
    requires id in bag
  {
    Key(bag[id].side, bag[id].price)
  }

  /** A queue lists the orders that the bag has under its key, oldest first. */
  lemma QueueLists(queues: Queues, linked: map<nat, Order>, bag: Bag, key: Key)
    requires Arranged(queues, linked) && Describes(bag, linked) && key in queues
    ensures InSequence(Ids(queues[key]), bag)
    ensures forall id :: id in Ids(queues[key]) <==> id in bag && KeyIn(bag, id) == key
  {
    var queue := queues[key];
    assert QueueAt(queue, key, linked);
    forall id | id in bag && KeyIn(bag, id) == key ensures id in Ids(queue) {
      var i :| 0 <= i < |queue| && queue[i] == linked[id];
      assert Ids(queue)[i] == id;
    }
  }

  /** Bags of the same priority have the same queues. */
  lemma SameQueue(queues: Queues, linked: map<nat, Order>, bag: Bag,
                  others: Queues, twins: map<nat, Order>, other: Bag, key: Key)
    requires Arranged(queues, linked) && Describes(bag, linked)
    requires Arranged(others, twins) && Describes(other, twins)
    requires SamePriority(bag, other) && key in queues && queues[key] != []
    ensures key in others && Ids(queues[key]) == Ids(others[key])
  {
    hide QueueAt;
    QueueLists(queues, linked, bag, key);
    var id := Ids(queues[key])[0];
    assert id in Ids(queues[key]) && KeyOf(twins[id]) == key;
    QueueLists(others, twins, other, key);
    InSequenceIsUnique(Ids(queues[key]), Ids(others[key]), bag);
  }

  class OrderBook {
    const symbolId: nat
    var nextOrderSequence: nat
    var nextEventSequence: nat
    var nextTradeId: nat
    var bids: map<int, PriceLevel>
    var asks: map<int, PriceLevel>
    var orders: map<nat, Order>
    var index: map<nat, OrderHandle>

    /** All levels, their contents, and the orders queued in them by id. */
    ghost var levels: map<Key, PriceLevel>
    ghost var queues: Queues
    ghost var linked: map<nat, Order>
    /** The values of the linked orders: the abstract bag. */
    ghost var bag: Bag
    /** Every level and order object the book has created, and its whole footprint. */
    ghost var shelves: set<PriceLevel>
    ghost var nodes: set<Order>
    ghost var repr: set<object>

    function LevelsOf(side: Side): map<int, PriceLevel>
      reads this`bids, this`asks
    {
      if side.Buy? then bids else asks
    }

    /** Each level is in good order and holds the queue of its key. */
    ghost predicate Held()
      reads this`levels, this`queues, this`shelves, this`nodes
      reads shelves, nodes`prevInLevel, nodes`nextInLevel
    {
      && levels.Keys == queues.Keys
      && forall key :: key in levels ==>
        levels[key] in shelves && levels[key].rank.Keys <= nodes && levels[key].Holds(key, queues[key])
    }

    ghost predicate Structured()
      reads this`bids, this`asks, this`levels, this`queues, this`linked, this`shelves, this`nodes
      reads shelves, nodes`prevInLevel, nodes`nextInLevel
    {
      && Splits(bids, asks, levels)
      && Held()
      && Arranged(queues, linked)
      && forall key :: key in queues ==> queues[key] != []
    }

    /** `bag` holds the values of the linked orders. */
    ghost predicate Values(bag: Bag, linked: map<nat, Order>)
      reads this`nodes, nodes`leaves, nodes`updatedAt, nodes`status
    {
      && bag.Keys == linked.Keys
      && forall id :: id in linked ==>
        linked[id] in nodes && linked[id].orderId == id && linked[id].Value() == bag[id]
    }

    lemma RemovalKeepsValues(bag: Bag, linked: map<nat, Order>, id: nat)
      requires Values(bag, linked)
      ensures Values(bag - {id}, linked - {id})
    {
    }

    ghost function View(): Book
      reads this
    {
      Book(symbolId, nextOrderSequence, nextEventSequence, nextTradeId, bag)
    }

    /** The links, the index and the bag agree, and all objects are accounted for. */
    ghost predicate Coherent()
      reads this`repr, this`bids, this`asks, this`index, this`bag
      reads this`levels, this`queues, this`linked, this`shelves, this`nodes
      reads shelves, nodes
    {
      && this in repr && shelves <= repr && nodes <= repr
      && Structured() && Indexes(index, linked) && Values(bag, linked)
    }

    /** All four structures agree; the orders owned are those linked. */
    ghost predicate Valid()
      reads this, repr
    {
      && this in repr && shelves <= repr && nodes <= repr
      && Coherent()
      && orders == linked
      && WellFormed(View())
    }

    /** Between operations but for `incoming`, which is owned and not queued while it is matched. */
    ghost predicate Ready(incoming: Order)
      reads this, shelves, nodes
    {
      && Coherent()
      && incoming in nodes && incoming.symbolId == symbolId
      && incoming.orderId !in linked && orders == linked[incoming.orderId := incoming]
    }

    constructor (symbolId: nat)
      ensures Valid() && fresh(repr) && this in repr
      ensures this.symbolId == symbolId && View() == EmptyBook(symbolId)
    {
      this.symbolId := symbolId;
      nextOrderSequence, nextEventSequence, nextTradeId := 1, 1, 1;
      bids, asks, orders, index := map[], map[], map[], map[];
      levels, queues, linked, bag := map[], map[], map[], map[];
      shelves, nodes, repr := {}, {}, {this};
    }

    // ---------- Observers ----------

    predicate HasOrder(orderId: nat)
      reads this`index
    {
      orderId in index
    }

    // ---------- Levels ----------

    /** Account for a level that is dropped. */
    ghost method Unshelve(key: Key)
      requires Held() && key in levels
      modifies `levels, `queues
      ensures Held()
      ensures levels == old(levels) - {key} && queues == old(queues) - {key}
    {
      hide PriceLevel.Holds;
      levels, queues := levels - {key}, queues - {key};
    }

    /** Forget an emptied level. */
    method DropLevel(side: Side, price: int)
      requires Splits(bids, asks, levels) && Held() && Key(side, price) in levels
      modifies `bids, `asks, `levels, `queues
      ensures Splits(bids, asks, levels) && Held()
      ensures queues == old(queues) - {Key(side, price)}
    {
      hide PriceLevel.Holds, Splits, Held;
      SplitsRemoval(bids, asks, levels, price);
      Unshelve(Key(side, price));
      if side.Buy? {
        bids := bids - {price};
      } else {
        asks := asks - {price};
      }
    }

    method CleanupEmptyPriceLevel(side: Side, price: int)
      requires Splits(bids, asks, levels) && Held()
      modifies `bids, `asks, `levels, `queues
      ensures Splits(bids, asks, levels) && Held()
      ensures queues == Prune(old(queues), Key(side, price))
    {
      if price in LevelsOf(side) && LevelsOf(side)[price].Empty() {
        levels[Key(side, price)].HeadOfQueue(Key(side, price), queues[Key(side, price)]);
        DropLevel(side, price);
      } else if Key(side, price) in levels {
        levels[Key(side, price)].HeadOfQueue(Key(side, price), queues[Key(side, price)]);
      }
    }

    lemma OtherLevels(order: Order)
      requires Held() && KeyOf(order) in levels
      ensures forall key :: key in levels && key != KeyOf(order) ==>
        && levels[key] != levels[KeyOf(order)]
        && order !in levels[key].rank
        && levels[KeyOf(order)].rank.Keys !! levels[key].rank.Keys
      ensures levels[KeyOf(order)].Holds(KeyOf(order), queues[KeyOf(order)])
      ensures levels[KeyOf(order)].Valid()
      ensures levels[KeyOf(order)].contents == queues[KeyOf(order)]
    {
      forall key | key in levels && key != KeyOf(order)
        ensures levels[key] != levels[KeyOf(order)]
        ensures order !in levels[key].rank
        ensures levels[KeyOf(order)].rank.Keys !! levels[key].rank.Keys
      {
        levels[KeyOf(order)].Apart(KeyOf(order), levels[key], key, order);
      }
    }

    /** As `Held`, while the level at `changed` is ahead of its queue. */
    ghost predicate HeldBut(changed: Key)
      reads this`levels, this`queues, this`shelves, this`nodes
      reads shelves, nodes`prevInLevel, nodes`nextInLevel
    {
      && levels.Keys == queues.Keys && changed in levels
      && forall key :: key in levels ==>
        && levels[key] in shelves && levels[key].rank.Keys <= nodes
        && levels[key].Holds(key, if key == changed then levels[key].contents else queues[key])
    }

    /** Let the queue of a level catch up with it. */
    ghost method Requeue(key: Key)
      requires HeldBut(key)
      modifies `queues
      ensures Held()
      ensures queues == old(queues)[key := levels[key].contents]
    {
      hide PriceLevel.Valid, PriceLevel.Holds;
      queues := queues[key := levels[key].contents];
    }

    /** Unlink a queued order from its level. */
    method Detach(level: PriceLevel, order: Order)
      requires Held()
      requires KeyOf(order) in levels && levels[KeyOf(order)] == level && order in level.rank
      modifies `queues, level, level.rank.Keys`prevInLevel, level.rank.Keys`nextInLevel
      ensures Held()
      ensures queues == old(queues)[KeyOf(order) := Without(old(queues)[KeyOf(order)], old(level.rank)[order])]
    {
      hide PriceLevel.Valid, PriceLevel.Holds, Without, RankWithout;
      OtherLevels(order);
      level.Erase(order);
      Requeue(KeyOf(order));
    }

    /** Queue an order at the end of its level. */
    method Attach(level: PriceLevel, order: Order)
      requires Held()
      requires KeyOf(order) in levels && levels[KeyOf(order)] == level && order !in level.rank && order in nodes
      modifies `queues, level, level.rank.Keys`nextInLevel, order`prevInLevel, order`nextInLevel
      ensures Held()
      ensures queues == old(queues)[KeyOf(order) := old(queues)[KeyOf(order)] + [order]]
    {
      hide PriceLevel.Valid, PriceLevel.Holds;
      OtherLevels(order);
      level.PushBack(order);
      Requeue(KeyOf(order));
    }

    /** Where a linked order is to be found. */
    lemma Locate(order: Order)
      requires Structured()
      requires order.orderId in linked && linked[order.orderId] == order
      ensures KeyOf(order) in levels && order.price in LevelsOf(order.side)
      ensures LevelsOf(order.side)[order.price] == levels[KeyOf(order)]
      ensures levels[KeyOf(order)] in shelves
      ensures order in levels[KeyOf(order)].rank
      ensures levels[KeyOf(order)].rank.Keys <= nodes
      ensures var i := levels[KeyOf(order)].rank[order];
        KeyOf(order) in queues && i < |queues[KeyOf(order)]| && queues[KeyOf(order)][i] == order
    {
      hide PriceLevel.Holds;
      levels[KeyOf(order)].PositionOf(KeyOf(order), queues[KeyOf(order)], order);
    }

    ghost predicate ArrangedWithout(order: Order, queues: Queues)
      reads this`linked
    {
      && Arranged(Prune(queues, KeyOf(order)), linked - {order.orderId})
      && forall key :: key in Prune(queues, KeyOf(order)) ==> queues[key] != []
    }

    lemma LocateRest(order: Order)
      requires Structured()
      requires order.orderId in linked && linked[order.orderId] == order
      requires KeyOf(order) in levels && order in levels[KeyOf(order)].rank
      requires var i := levels[KeyOf(order)].rank[order];
        KeyOf(order) in queues && i < |queues[KeyOf(order)]| && queues[KeyOf(order)][i] == order
      ensures ArrangedWithout(order,
        queues[KeyOf(order) := Without(queues[KeyOf(order)], levels[KeyOf(order)].rank[order])])
    {
      hide Held, Splits, Arranged, Without;
      RemovalKeepsArranged(queues, linked, order, levels[KeyOf(order)].rank[order]);
    }

    /** Take a linked order out of its queue; its level may be left empty. */
    method Unhook(order: Order)
      requires Structured()
      requires order.orderId in linked && linked[order.orderId] == order
      modifies `queues, shelves, nodes`prevInLevel, nodes`nextInLevel
      ensures Splits(bids, asks, levels) && Held()
      ensures ArrangedWithout(order, queues)
    {
      hide Held, Splits, Without, Arranged, Prune;
      Locate(order);
      LocateRest(order);
      Detach(LevelsOf(order.side)[order.price], order);
    }

    method RemoveRestingOrder(order: Order)
      requires Structured()
      requires order.orderId in linked && linked[order.orderId] == order
      modifies `bids, `asks, `levels, `queues, `linked, shelves, nodes`prevInLevel, nodes`nextInLevel
      ensures Structured()
      ensures linked == old(linked) - {order.orderId}
    {
      hide Arranged, Held, Splits;
      Unhook(order);
      linked := linked - {order.orderId};
      CleanupEmptyPriceLevel(order.side, order.price);
    }

    /** Account for a new, empty level. */
    ghost method Shelve(level: PriceLevel, key: Key)
      requires Held() && key !in levels
      requires level.Holds(key, []) && level.rank == map[]
      modifies `levels, `queues, `shelves
      ensures Held()
      ensures levels == old(levels)[key := level] && queues == old(queues)[key := []]
      ensures shelves == old(shelves) + {level}
    {
      hide PriceLevel.Holds;
      levels, queues, shelves := levels[key := level], queues[key := []], shelves + {level};
    }

    method AddLevel(level: PriceLevel, side: Side, price: int)
      requires Splits(bids, asks, levels) && Held() && Key(side, price) !in levels
      requires level.Holds(Key(side, price), []) && level.rank == map[]
      modifies `bids, `asks, `levels, `queues, `shelves
      ensures Splits(bids, asks, levels) && Held()
      ensures levels == old(levels)[Key(side, price) := level]
      ensures queues == old(queues)[Key(side, price) := []]
      ensures shelves == old(shelves) + {level}
    {
      hide PriceLevel.Holds, Splits, Held;
      SplitsUpdate(bids, asks, levels, price, level);
      Shelve(level, Key(side, price));
      if side.Buy? {
        bids := bids[price := level];
      } else {
        asks := asks[price := level];
      }
    }

    method GetOrCreateLevel(side: Side, price: int) returns (level: PriceLevel)
      requires Splits(bids, asks, levels) && Held()
      modifies `bids, `asks, `levels, `queues, `shelves
      ensures Splits(bids, asks, levels) && Held()
      ensures Key(side, price) in levels && levels[Key(side, price)] == level
      ensures level in shelves && level.rank.Keys <= nodes
      ensures queues == if Key(side, price) in old(queues) then old(queues) else old(queues)[Key(side, price) := []]
      ensures shelves == old(shelves) + {level}
      ensures Key(side, price) in old(levels) ==> level == old(levels)[Key(side, price)] && level in old(shelves)
      ensures Key(side, price) !in old(levels) ==> fresh(level) && level.rank == map[]
    {
      if price in LevelsOf(side) {
        level := LevelsOf(side)[price];
      } else {
        level := new PriceLevel(price, side);
        AddLevel(level, side, price);
      }
    }

    /** An order that is not linked is queued nowhere. */
    lemma NotQueued(order: Order)
      requires Structured() && order.orderId !in linked
      ensures KeyOf(order) in levels ==> order !in levels[KeyOf(order)].rank
    {
    }

    /** Queue a new order at the end of its level, creating the level if needed. */
    method Hook(order: Order)
      requires Splits(bids, asks, levels) && Held() && order in nodes
      requires KeyOf(order) in levels ==> order !in levels[KeyOf(order)].rank
      modifies `bids, `asks, `levels, `queues, `shelves, shelves, nodes`prevInLevel, nodes`nextInLevel
      ensures Splits(bids, asks, levels) && Held()
      ensures queues == Joined(old(queues), order)
      ensures old(shelves) <= shelves && fresh(shelves - old(shelves))
    {
      hide Held, Splits;
      var level := GetOrCreateLevel(order.side, order.price);
      Attach(level, order);
    }

    /** Queue a new order and enter it in the index. */
    method AddRestingOrder(order: Order)
      requires Structured() && Indexes(index, linked) && order in nodes
      requires order.orderId !in linked
      requires forall id :: id in linked ==> linked[id].sequence < order.sequence
      modifies `bids, `asks, `levels, `queues, `linked, `index, `shelves
      modifies shelves, nodes`prevInLevel, nodes`nextInLevel
      ensures Structured() && Indexes(index, linked)
      ensures linked == old(linked)[order.orderId := order]
      ensures old(shelves) <= shelves && fresh(shelves - old(shelves))
    {
      hide Arranged, Held, Splits;
      NotQueued(order);
      ArrivalKeepsArranged(queues, linked, order);
      Hook(order);
      index := index[order.orderId := OrderHandle(order.side, order.price, order)];
      linked := linked[order.orderId := order];
    }

    // ---------- Executions ----------

    method NextEventSequence() returns (number: nat)
      modifies `nextEventSequence
      ensures number == old(nextEventSequence) && nextEventSequence == number + 1
    {
      number := nextEventSequence;
      nextEventSequence := nextEventSequence + 1;
    }

    method MakeTrade(incoming: Order, resting: Order, quantity: nat, price: int, timestamp: nat) returns (t: Trade)
      modifies `nextTradeId, `nextEventSequence
      ensures nextTradeId == old(nextTradeId) + 1 && nextEventSequence == old(nextEventSequence) + 1
      ensures t == Trade(old(nextTradeId), symbolId,
                         (if incoming.side.Buy? then incoming else resting).orderId,
                         (if incoming.side.Buy? then resting else incoming).orderId,
                         price, quantity, old(nextEventSequence), timestamp)
    {
      var tradeId := nextTradeId;
      nextTradeId := nextTradeId + 1;
      var sequence := NextEventSequence();
      if incoming.side.Buy? {
        t := Trade(tradeId, symbolId, incoming.orderId, resting.orderId, price, quantity, sequence, timestamp);
      } else {
        t := Trade(tradeId, symbolId, resting.orderId, incoming.orderId, price, quantity, sequence, timestamp);
      }
    }

    /** Mark a party of an execution filled or partially filled, and report which. */
    method ReportExecution(order: Order, timestamp: nat) returns (e: Event)
      modifies `nextEventSequence, order`status, order`updatedAt
      ensures order.Value() == old(order.Value()).(
        status := if order.leaves == 0 then Filled else PartiallyFilled, updatedAt := timestamp)
      ensures e == ExecutionEvent(order.Value(), old(nextEventSequence))
      ensures nextEventSequence == old(nextEventSequence) + 1
    {
      if order.leaves == 0 {
        order.status, order.updatedAt := Filled, timestamp;
      } else {
        order.status, order.updatedAt := PartiallyFilled, timestamp;
      }
      var sequence := NextEventSequence();
      e := ExecutionEvent(order.Value(), sequence);
    }

    /** Trade, decrement both leaves, mark and report both parties. */
    method RecordExecution(incoming: Order, resting: Order, report: Report) returns (extended: Report)
      requires incoming != resting && incoming.symbolId == symbolId
      modifies `nextTradeId, `nextEventSequence
      modifies incoming`leaves, incoming`status, incoming`updatedAt, resting`leaves, resting`status, resting`updatedAt
      ensures var e := Execute(old(incoming.Value()), old(resting.Value()));
        && incoming.Value() == e.taker && resting.Value() == e.maker
        && extended == report.AddTrade(TradeOf(e, old(nextTradeId), old(nextEventSequence)))
                             .AddEvent(ExecutionEvent(e.taker, old(nextEventSequence) + 1))
                             .AddEvent(ExecutionEvent(e.maker, old(nextEventSequence) + 2))
      ensures nextTradeId == old(nextTradeId) + 1 && nextEventSequence == old(nextEventSequence) + 3
    {
      var timestamp := incoming.updatedAt;
      var quantity := Min(incoming.leaves, resting.leaves);
      var trade := MakeTrade(incoming, resting, quantity, resting.price, timestamp);
      incoming.leaves := incoming.leaves - quantity;
      resting.leaves := resting.leaves - quantity;
      var takerEvent := ReportExecution(incoming, timestamp);
      var makerEvent := ReportExecution(resting, timestamp);
      extended := report.AddTrade(trade).AddEvent(takerEvent).AddEvent(makerEvent);
    }

    /** Drop an order from the index and from the ownership map. */
    method Forget(orderId: nat)
      modifies `index, `orders, `bag
      ensures index == old(index) - {orderId}
      ensures orders == old(orders) - {orderId}
      ensures bag == old(bag) - {orderId}
    {
      index := index - {orderId};
      orders := orders - {orderId};
      bag := bag - {orderId};
    }

    /** Ready but for an order that is in no level any more, yet still indexed and owned. */
    ghost predicate Retiring(incoming: Order, id: nat)
      reads this, shelves, nodes
    {
      && this in repr && shelves <= repr && nodes <= repr
      && Structured() && Indexes(index - {id}, linked) && Values(bag - {id}, linked)
      && incoming in nodes && incoming.symbolId == symbolId
      && incoming.orderId !in linked && orders - {id} == linked[incoming.orderId := incoming]
    }

    method UnlinkFilled(incoming: Order, resting: Order)
      requires Ready(incoming)
      requires resting.orderId in linked && linked[resting.orderId] == resting
      modifies `bids, `asks, `levels, `queues, `linked
      modifies shelves, nodes`prevInLevel, nodes`nextInLevel
      ensures Retiring(incoming, resting.orderId)
    {
      hide Structured, Indexes, Values;
      RemovalKeepsIndexes(index, linked, resting.orderId);
      RemovalKeepsValues(bag, linked, resting.orderId);
      RemoveRestingOrder(resting);
    }

    /** A filled resting order leaves its level, the index and the ownership map. */
    method RetireFilled(incoming: Order, resting: Order)
      requires Ready(incoming)
      requires resting.orderId in linked && linked[resting.orderId] == resting
      modifies `bids, `asks, `levels, `queues, `linked, `bag, `index, `orders
      modifies shelves, nodes`prevInLevel, nodes`nextInLevel
      ensures Ready(incoming)
      ensures bag == old(bag) - {resting.orderId}
    {
      hide Structured, Indexes, Values;
      UnlinkFilled(incoming, resting);
      Forget(resting.orderId);
    }

    /** Let the bag catch up with an order that was executed. */
    ghost method Revalue(order: Order, value: OrderValue)
      requires Values(bag[order.orderId := value], linked)
      modifies `bag
      ensures Values(bag, linked) && bag == old(bag)[order.orderId := value]
    {
      hide Values;
      bag := bag[order.orderId := value];
    }

    /** An execution, with the bag kept up to date. */
    method ExecuteAgainst(incoming: Order, resting: Order, report: Report) returns (extended: Report)
      requires Values(bag, linked) && incoming.orderId !in linked && incoming.symbolId == symbolId
      requires resting.orderId in linked && linked[resting.orderId] == resting
      modifies `nextTradeId, `nextEventSequence, `bag
      modifies incoming`leaves, incoming`status, incoming`updatedAt, resting`leaves, resting`status, resting`updatedAt
      ensures Values(bag, linked)
      ensures var e := Execute(old(incoming.Value()), old(bag)[resting.orderId]);
        && incoming.Value() == e.taker && resting.Value() == e.maker
        && bag == old(bag)[resting.orderId := e.maker]
        && extended == report.AddTrade(TradeOf(e, old(nextTradeId), old(nextEventSequence)))
                             .AddEvent(ExecutionEvent(e.taker, old(nextEventSequence) + 1))
                             .AddEvent(ExecutionEvent(e.maker, old(nextEventSequence) + 2))
      ensures nextTradeId == old(nextTradeId) + 1 && nextEventSequence == old(nextEventSequence) + 3
    {
      hide Execute, TradeOf, ExecutionEvent;
      ghost var e := Execute(incoming.Value(), resting.Value());
      extended := RecordExecution(incoming, resting, report);
      Revalue(resting, e.maker);
    }

    lemma ValueOf(orderId: nat)
      requires Values(bag, linked) && orderId in linked
      ensures linked[orderId] in nodes && linked[orderId].Value() == bag[orderId]
    {
    }

    /** One round of the match loops, against the resting order they selected. */
    method MatchAgainst(incoming: Order, resting: Order, report: Report) returns (extended: Report)
      requires Ready(incoming)
      requires resting.orderId in linked && linked[resting.orderId] == resting
      modifies `bids, `asks, `levels, `queues, `linked, `bag, `index, `orders, `nextTradeId, `nextEventSequence
      modifies shelves, nodes
      ensures Ready(incoming)
      ensures var e := Execute(old(incoming.Value()), old(bag)[resting.orderId]);
        && bag == Settle(old(bag), resting.orderId, e.maker)
        && incoming.Value() == e.taker
        && extended == report.AddTrade(TradeOf(e, old(nextTradeId), old(nextEventSequence)))
                             .AddEvent(ExecutionEvent(e.taker, old(nextEventSequence) + 1))
                             .AddEvent(ExecutionEvent(e.maker, old(nextEventSequence) + 2))
      ensures nextTradeId == old(nextTradeId) + 1 && nextEventSequence == old(nextEventSequence) + 3
    {
      hide Structured, Indexes, Values, Execute, TradeOf, ExecutionEvent;
      ValueOf(resting.orderId);
      extended := ExecuteAgainst(incoming, resting, report);
      if resting.leaves == 0 {
        RetireFilled(incoming, resting);
      }
    }

    // ---------- The match loops ----------

    /** A level of `side` at the best price of that side. */
    ghost predicate IsBest(side: Side, price: int)
      reads this`bids, this`asks
    {
      if side.Buy? then IsHighest(bids.Keys, price) else IsLowest(asks.Keys, price)
    }

    /** The front of the best level is the top of its side of the bag. */
    lemma FrontIsTop(side: Side, price: int)
      requires Structured() && Values(bag, linked) && IsBest(side, price)
      ensures LevelsOf(side)[price].head != null
      ensures var front := LevelsOf(side)[price].head;
        front.orderId in linked && linked[front.orderId] == front && IsTop(bag, side, front.orderId)
    {
      hide PriceLevel.Holds, QueueAt;
      var key := Key(side, price);
      levels[key].HeadOfQueue(key, queues[key]);
      FrontIsLinked(queues, linked, key);
      forall id | id in bag && bag[id].side == side ensures !Ahead(bag[id], bag[queues[key][0].orderId]) {
        FrontHasPriority(queues, linked, key, id);
      }
    }

    lemma NoLevels(side: Side)
      requires Structured() && Values(bag, linked) && LevelsOf(side) == map[]
      ensures forall id :: id in bag ==> bag[id].side != side
    {
      forall id | id in bag ensures bag[id].side != side {
        assert KeyOf(linked[id]) in levels;
      }
    }

    /** The first price of the map of a side: the highest bid or the lowest ask. */
    method BestPrice(side: Side) returns (price: int)
      requires LevelsOf(side) != map[]
      ensures IsBest(side, price)
    {
      var prices := LevelsOf(side).Keys;
      ExtremesExist(prices);
      if side.Buy? {
        price :| price in prices && IsHighest(prices, price);
      } else {
        price :| price in prices && IsLowest(prices, price);
      }
    }

    /** With the taker filled or the opposite side gone, nothing matches. */
    lemma NothingLeft(incoming: Order)
      requires Ready(incoming)
      requires incoming.leaves == 0 || LevelsOf(incoming.side.Opposite()) == map[]
      ensures Matches(bag, incoming.Value()) == {}
    {
      hide Structured;
      if LevelsOf(incoming.side.Opposite()) == map[] {
        NoLevels(incoming.side.Opposite());
      }
    }

    /** A sweep that began in state `start` with counters `tradeId` and `sequence`, after `done`. */
    ghost predicate Progress(incoming: Order, start: Swept, tradeId: nat, sequence: nat,
                             done: seq<Execution>, report: Report)
      reads this, shelves, nodes
    {
      && Ready(incoming)
      && Sound(bag, symbolId, nextOrderSequence)
      && start == Continued(done, Sweep(bag, incoming.Value()))
      && report == Report(Events(done, sequence), Trades(done, tradeId, sequence))
      && nextEventSequence == sequence + 3 * |done|
      && nextTradeId == tradeId + |done|
    }

    /** What the top of the opposite side decides about the sweep. */
    lemma TopOfSweep(incoming: Order, price: int)
      requires Ready(incoming) && Sound(bag, symbolId, nextOrderSequence) && incoming.leaves > 0
      requires IsBest(incoming.side.Opposite(), price)
      ensures LevelsOf(incoming.side.Opposite())[price].head != null
      ensures var resting := LevelsOf(incoming.side.Opposite())[price].head;
        && resting.orderId in linked && linked[resting.orderId] == resting && resting in nodes
        && resting.orderId in bag && resting.Value() == bag[resting.orderId]
        && if CanMatch(incoming.Value(), resting.Value())
           then Matches(bag, incoming.Value()) != {} && First(bag, incoming.Value()) == resting.orderId
           else Matches(bag, incoming.Value()) == {}
    {
      hide Structured, Values, Sound, Indexes;
      FrontIsTop(incoming.side.Opposite(), price);
      var resting := LevelsOf(incoming.side.Opposite())[price].head;
      ValueOf(resting.orderId);
      TopDecides(bag, incoming.Value(), resting.orderId, symbolId, nextOrderSequence);
    }

    /** One more execution of a sweep in progress. */
    method MatchRound(incoming: Order, resting: Order, report: Report,
                      ghost start: Swept, ghost tradeId: nat, ghost sequence: nat, ghost done: seq<Execution>)
      returns (extended: Report, ghost e: Execution)
      requires Progress(incoming, start, tradeId, sequence, done, report)
      requires resting.orderId in linked && linked[resting.orderId] == resting && resting.orderId in bag
      requires CanMatch(incoming.Value(), bag[resting.orderId])
      requires Matches(bag, incoming.Value()) != {} && First(bag, incoming.Value()) == resting.orderId
      modifies `bids, `asks, `levels, `queues, `linked, `bag, `index, `orders, `nextTradeId, `nextEventSequence
      modifies shelves, nodes
      ensures Progress(incoming, start, tradeId, sequence, done + [e], extended)
      ensures incoming.leaves < old(incoming.leaves)
    {
      hide Ready, Sweep, Events, Trades, TradeOf, ExecutionEvent, Matches, First;
      e := Execute(incoming.Value(), bag[resting.orderId]);
      SweepAdvances(bag, incoming.Value(), done);
      ReportAdvances(done, e, tradeId, sequence);
      extended := MatchAgainst(incoming, resting, report);
    }

    /** The state and report after sweeping `taker` through `before`. */
    ghost predicate Sweeps(before: Bag, taker: OrderValue, incoming: Order, report: Report,
                           tradeId: nat, sequence: nat)
      reads this`bag, this`nextTradeId, this`nextEventSequence
      reads incoming`leaves, incoming`updatedAt, incoming`status
    {
      var s := Sweep(before, taker);
      && bag == s.bag && incoming.Value() == s.taker
      && report == Report(Events(s.executions, sequence), Trades(s.executions, tradeId, sequence))
      && nextEventSequence == sequence + 3 * |s.executions|
      && nextTradeId == tradeId + |s.executions|
    }

    /** Consume the asks from the lowest price on; the oldest order of a level first. */
    method MatchBuyOrder(incoming: Order) returns (report: Report)
      requires Ready(incoming) && Sound(bag, symbolId, nextOrderSequence) && incoming.side.Buy?
      modifies `bids, `asks, `levels, `queues, `linked, `bag, `index, `orders, `nextTradeId, `nextEventSequence
      modifies shelves, nodes
      ensures Ready(incoming) && Sound(bag, symbolId, nextOrderSequence)
      ensures Sweeps(old(bag), old(incoming.Value()), incoming, report, old(nextTradeId), old(nextEventSequence))
    {
      hide Ready, Sound, Sweep, Events, Trades, Matches, First;
      report := EMPTY_REPORT;
      ghost var start := Sweep(bag, incoming.Value());
      ghost var tradeId, sequence := nextTradeId, nextEventSequence;
      ghost var done: seq<Execution> := [];
      SweepStarts(bag, incoming.Value(), tradeId, sequence);
      while incoming.leaves > 0 && asks != map[]
        invariant Progress(incoming, start, tradeId, sequence, done, report)
        decreases incoming.leaves
      {
        var price := BestPrice(Sell);
        var resting := asks[price].head;
        TopOfSweep(incoming, price);
        if resting == null {
          // An empty level at the front of the map: never the case.
          assert false;
        }
        if !CanMatch(incoming.Value(), resting.Value()) {
          break;
        }
        ghost var e;
        report, e := MatchRound(incoming, resting, report, start, tradeId, sequence, done);
        done := done + [e];
      }
      if incoming.leaves == 0 || asks == map[] {
        NothingLeft(incoming);
      }
      SweepStops(bag, incoming.Value(), done);
    }

    /** Consume the bids from the highest price on; the oldest order of a level first. */
    method MatchSellOrder(incoming: Order) returns (report: Report)
      requires Ready(incoming) && Sound(bag, symbolId, nextOrderSequence) && incoming.side.Sell?
      modifies `bids, `asks, `levels, `queues, `linked, `bag, `index, `orders, `nextTradeId, `nextEventSequence
      modifies shelves, nodes
      ensures Ready(incoming) && Sound(bag, symbolId, nextOrderSequence)
      ensures Sweeps(old(bag), old(incoming.Value()), incoming, report, old(nextTradeId), old(nextEventSequence))
    {
      hide Ready, Sound, Sweep, Events, Trades, Matches, First;
      report := EMPTY_REPORT;
      ghost var start := Sweep(bag, incoming.Value());
      ghost var tradeId, sequence := nextTradeId, nextEventSequence;
      ghost var done: seq<Execution> := [];
      SweepStarts(bag, incoming.Value(), tradeId, sequence);
      while incoming.leaves > 0 && bids != map[]
        invariant Progress(incoming, start, tradeId, sequence, done, report)
        decreases incoming.leaves
      {
        var price := BestPrice(Buy);
        var resting := bids[price].head;
        TopOfSweep(incoming, price);
        if resting == null {
          // An empty level at the front of the map: never the case.
          assert false;
        }
        if !CanMatch(incoming.Value(), resting.Value()) {
          break;
        }
        ghost var e;
        report, e := MatchRound(incoming, resting, report, start, tradeId, sequence, done);
        done := done + [e];
      }
      if incoming.leaves == 0 || bids == map[] {
        NothingLeft(incoming);
      }
      SweepStops(bag, incoming.Value(), done);
    }

    // ---------- Submission ----------

    /** Account for a new order object. */
    method Register(order: Order)
      requires Structured() && Values(bag, linked)
      modifies `nodes, `repr
      ensures Structured() && Values(bag, linked)
      ensures nodes == old(nodes) + {order} && repr == old(repr) + {order}
    {
      hide PriceLevel.Holds, Arranged, Splits;
      nodes, repr := nodes + {order}, repr + {order};
    }

    /** Allocate the order of an accepted request, number it and take ownership of it. */
    method StoreOrder(r: NewOrderRequest) returns (incoming: Order)
      requires Valid() && NewOrderFault(View(), r).None?
      modifies `nextOrderSequence, `orders, `nodes, `repr
      ensures Ready(incoming)
      ensures fresh(incoming) && incoming.Value() == NewOrderValue(r, old(nextOrderSequence))
      ensures nextOrderSequence == old(nextOrderSequence) + 1
      ensures nodes == old(nodes) + {incoming} && repr == old(repr) + {incoming}
    {
      hide Structured, Indexes;
      if r.orderId in orders {
        // The id is taken: try_emplace would fail here. Validation has excluded it.
        assert false;
      }
      incoming := new Order.FromRequest(r, nextOrderSequence);
      nextOrderSequence := nextOrderSequence + 1;
      orders := orders[r.orderId := incoming];
      Register(incoming);
    }

    /** Mark a newly queued order as resting. */
    method MarkResting(order: Order)
      requires Values(bag, linked) && order.orderId !in linked && order in nodes
      modifies order`status
      ensures Values(bag, linked)
      ensures Values(bag[order.orderId := order.Value()], linked[order.orderId := order])
      ensures order.Value() == old(order.Value()).(status := Resting)
    {
      order.status := Resting;
    }

    /** Account for a newly queued order and for the level it may have brought. */
    ghost method Adopt(order: Order)
      requires this in repr && nodes <= repr && Structured() && Indexes(index, linked)
      requires Values(bag[order.orderId := order.Value()], linked)
      modifies `bag, `repr
      ensures Coherent() && repr == old(repr) + shelves
      ensures bag == old(bag)[order.orderId := order.Value()]
    {
      hide Structured, Indexes, Values;
      bag, repr := bag[order.orderId := order.Value()], repr + shelves;
    }

    /** What is left of a limit order rests at the end of its level. */
    method Rest(incoming: Order)
      requires Ready(incoming)
      requires forall id :: id in linked ==> linked[id].sequence < incoming.sequence
      modifies `bids, `asks, `levels, `queues, `linked, `bag, `index, `shelves, `repr
      modifies shelves, nodes
      ensures Coherent() && orders == linked && Owns(incoming)
      ensures incoming.Value() == old(incoming.Value()).(status := Resting)
      ensures bag == old(bag)[incoming.orderId := incoming.Value()]
      ensures old(repr) <= repr && fresh(repr - old(repr)) && nodes == old(nodes)
      ensures old(shelves) <= shelves && fresh(shelves - old(shelves))
    {
      hide Structured, Indexes, Values;
      MarkResting(incoming);
      AddRestingOrder(incoming);
      Adopt(incoming);
    }

    method EraseOrder(incoming: Order)
      requires Ready(incoming)
      modifies `orders
      ensures Coherent() && orders == linked && !Owns(incoming)
    {
      hide Structured, Indexes, Values;
      orders := orders - {incoming.orderId};
    }

    lemma LinkedAreOlder(sequence: nat)
      requires Values(bag, linked) && Sound(bag, symbolId, sequence)
      ensures forall id :: id in linked ==> linked[id].sequence < sequence
    {
      forall id | id in linked ensures linked[id].sequence < sequence {
        assert bag[id].sequence < sequence;
      }
    }

    /** Match an incoming order against the opposite side. */
    method MatchIncoming(incoming: Order) returns (report: Report)
      requires Ready(incoming) && Sound(bag, symbolId, incoming.sequence) && incoming.sequence < nextOrderSequence
      modifies `bids, `asks, `levels, `queues, `linked, `bag, `index, `orders, `nextTradeId, `nextEventSequence
      modifies shelves, nodes
      ensures Ready(incoming)
      ensures forall id :: id in linked ==> linked[id].sequence < incoming.sequence
      ensures Sweeps(old(bag), old(incoming.Value()), incoming, report, old(nextTradeId), old(nextEventSequence))
    {
      hide Structured, Indexes, Sweep;
      ghost var taker, before := incoming.Value(), bag;
      if incoming.side.Buy? {
        report := MatchBuyOrder(incoming);
      } else {
        report := MatchSellOrder(incoming);
      }
      SweepKeepsSound(before, taker, symbolId, incoming.sequence);
      LinkedAreOlder(incoming.sequence);
    }

    /** The book still holds this very order: reading it is safe. */
    ghost predicate Owns(order: Order)
      reads this`orders
    {
      order.orderId in orders && orders[order.orderId] == order
    }

    /** The book after the residual of `s` has been dealt with. */
    ghost predicate Submitted(s: Swept, incoming: Order, report: Report, tradeId: nat, sequence: nat)
      reads this, shelves, nodes, incoming
    {
      && Coherent() && orders == linked
      && bag == RestResidual(s) && incoming.Value() == Residual(s) && (Owns(incoming) <==> Rests(s))
      && report == Report(Events(s.executions, sequence), Trades(s.executions, tradeId, sequence))
      && nextEventSequence == sequence + 3 * |s.executions|
      && nextTradeId == tradeId + |s.executions|
    }

    method SubmitLimitOrder(incoming: Order) returns (report: Report)
      requires Ready(incoming) && Sound(bag, symbolId, incoming.sequence) && incoming.sequence < nextOrderSequence
      requires incoming.orderType.Limit?
      modifies this, shelves, nodes
      ensures Submitted(Sweep(old(bag), old(incoming.Value())), incoming, report,
                        old(nextTradeId), old(nextEventSequence))
      ensures nextOrderSequence == old(nextOrderSequence)
      ensures old(repr) <= repr && fresh(repr - old(repr))
    {
      hide Ready, Coherent, Sweep, Sound, Events, Trades;
      report := MatchIncoming(incoming);
      if incoming.leaves > 0 {
        Rest(incoming);
      } else {
        EraseOrder(incoming);
      }
    }

    /** A market order never rests: whatever is left of it is discarded. */
    method SubmitMarketOrder(incoming: Order) returns (report: Report)
      requires Ready(incoming) && Sound(bag, symbolId, incoming.sequence) && incoming.sequence < nextOrderSequence
      requires incoming.orderType.Market?
      modifies this, shelves, nodes
      ensures Submitted(Sweep(old(bag), old(incoming.Value())), incoming, report,
                        old(nextTradeId), old(nextEventSequence))
      ensures nextOrderSequence == old(nextOrderSequence) && repr == old(repr)
    {
      hide Ready, Structured, Indexes, Values, Sweep, Sound;
      report := MatchIncoming(incoming);
      EraseOrder(incoming);
    }

    method SubmitByType(incoming: Order) returns (report: Report)
      requires Ready(incoming) && Sound(bag, symbolId, incoming.sequence) && incoming.sequence < nextOrderSequence
      modifies this, shelves, nodes
      ensures Submitted(Sweep(old(bag), old(incoming.Value())), incoming, report,
                        old(nextTradeId), old(nextEventSequence))
      ensures nextOrderSequence == old(nextOrderSequence)
      ensures old(repr) <= repr && fresh(repr - old(repr))
    {
      hide Ready, Sound, Sweep, Submitted;
      if incoming.orderType.Limit? {
        report := SubmitLimitOrder(incoming);
      } else {
        report := SubmitMarketOrder(incoming);
      }
    }

    /** Store, acknowledge, match and rest or discard an order that passed validation. */
    method AcceptOrder(r: NewOrderRequest) returns (report: Report, incoming: Order)
      requires Valid() && NewOrderFault(View(), r).None?
      modifies repr
      ensures Valid() && old(repr) <= repr && fresh(repr - old(repr))
      ensures Outcome(View(), report) == Accept(old(View()), r)
      ensures incoming.Value() == Residual(SweepOf(old(View()), r))
      ensures Owns(incoming) <==> Rests(SweepOf(old(View()), r))
    {
      hide Coherent, WellFormed, Valid, Sweep, Sound, Events, Trades;
      SoundAtEntry();
      AcceptKeepsWellFormed(View(), r);
      incoming := StoreOrder(r);
      var sequence := NextEventSequence();
      report := EMPTY_REPORT.AddEvent(AckEvent(incoming.Value(), sequence));
      var executions := SubmitByType(incoming);
      report := report.Append(executions);
      CoherentIsValid();
    }

    lemma CoherentIsValid()
      requires Coherent() && orders == linked && WellFormed(View())
      ensures Valid()
    {
    }

    lemma SoundAtEntry()
      requires Valid()
      ensures Sound(bag, symbolId, nextOrderSequence) && WellFormed(View())
      ensures this in repr && nodes <= repr && shelves <= repr
    {
    }

    method Refuse(kind: EventType, orderId: nat, reason: RejectReason, timestamp: nat) returns (report: Report)
      requires Valid()
      modifies `nextEventSequence
      ensures Valid()
      ensures Outcome(View(), report) == Books.Refuse(old(View()), kind, orderId, reason, timestamp)
    {
      hide Structured, Indexes, Values, Sound, Uncrossed;
      var sequence := NextEventSequence();
      report := EMPTY_REPORT.AddEvent(RejectEvent(kind, orderId, symbolId, reason, sequence, timestamp));
    }

    method ValidateNewOrder(r: NewOrderRequest) returns (reason: RejectReason)
      requires Valid()
      ensures reason == NewOrderFault(View(), r)
    {
      hide Structured, Sound, Uncrossed;
      if r.symbolId != symbolId {
        return UnknownSymbol;
      }
      if r.orderId == INVALID_ID {
        return InvalidRequest;
      }
      if HasOrder(r.orderId) {
        return DuplicateOrderId;
      }
      if r.quantity <= 0 {
        return InvalidQuantity;
      }
      if r.orderType.Limit? && r.price <= 0 {
        return InvalidPrice;
      }
      return RejectReason.None;
    }

    method SubmitNewOrderInternal(r: NewOrderRequest) returns (report: Report, created: Order?)
      requires Valid()
      modifies repr
      ensures Valid() && old(repr) <= repr && fresh(repr - old(repr))
      ensures Outcome(View(), report) == Submit(old(View()), r)
      ensures created == null <==> !NewOrderFault(old(View()), r).None?
      ensures created != null ==>
        var s := SweepOf(old(View()), r); created.Value() == Residual(s) && (Owns(created) <==> Rests(s))
    {
      hide Coherent, WellFormed, Accept, Books.Refuse;
      var reason := ValidateNewOrder(r);
      if reason != RejectReason.None {
        report := Refuse(Reject, r.orderId, reason, r.timestamp);
        return report, null;
      }
      report, created := AcceptOrder(r);
    }

    method SubmitOrder(r: NewOrderRequest) returns (report: Report)
      requires Valid()
      modifies repr
      ensures Valid() && old(repr) <= repr && fresh(repr - old(repr))
      ensures Outcome(View(), report) == Submit(old(View()), r)
    {
      var created;
      report, created := SubmitNewOrderInternal(r);
    }

    // ---------- Cancel and replace ----------

    method ValidateCancel(r: CancelRequest) returns (reason: RejectReason)
      requires Valid()
      ensures reason == CancelFault(View(), r)
    {
      hide Structured, Sound, Uncrossed;
      if r.symbolId != symbolId {
        return UnknownSymbol;
      }
      if r.orderId !in index {
        return OrderNotFound;
      }
      if index[r.orderId].order.Value().IsTerminal() {
        return OrderAlreadyClosed;
      }
      return RejectReason.None;
    }

    /** Mark an order that is no longer queued as cancelled, and acknowledge that. */
    method ReportCancel(order: Order, timestamp: nat) returns (e: Event)
      requires Values(bag - {order.orderId}, linked) && order.orderId !in linked
      modifies `nextEventSequence, order`status, order`updatedAt
      ensures Values(bag - {order.orderId}, linked)
      ensures e == CancelAckEvent(old(order.Value()), old(nextEventSequence), timestamp)
      ensures nextEventSequence == old(nextEventSequence) + 1
    {
      order.status, order.updatedAt := Cancelled, timestamp;
      var sequence := NextEventSequence();
      e := CancelAckEvent(order.Value(), sequence, timestamp);
    }

    /** Report an order that is no longer queued as cancelled, then forget it. */
    method Close(order: Order, timestamp: nat) returns (e: Event)
      requires Values(bag - {order.orderId}, linked) && order.orderId !in linked
      modifies `nextEventSequence, `index, `orders, `bag, order`status, order`updatedAt
      ensures Values(bag, linked)
      ensures bag == old(bag) - {order.orderId}
      ensures index == old(index) - {order.orderId} && orders == old(orders) - {order.orderId}
      ensures e == CancelAckEvent(old(order.Value()), old(nextEventSequence), timestamp)
      ensures nextEventSequence == old(nextEventSequence) + 1
    {
      hide Values, CancelAckEvent;
      e := ReportCancel(order, timestamp);
      Forget(order.orderId);
    }

    /** Unlink, mark, report and forget a resting order. */
    method CancelResting(order: Order, timestamp: nat) returns (e: Event)
      requires Valid() && order.orderId in linked && linked[order.orderId] == order
      modifies repr
      ensures Coherent() && orders == linked && repr == old(repr)
      ensures bag == old(bag) - {order.orderId}
      ensures e == CancelAckEvent(old(bag)[order.orderId], old(nextEventSequence), timestamp)
      ensures nextEventSequence == old(nextEventSequence) + 1
      ensures nextOrderSequence == old(nextOrderSequence) && nextTradeId == old(nextTradeId)
    {
      hide Structured, Indexes, Values, WellFormed, CancelAckEvent, View;
      ValueOf(order.orderId);
      RemovalKeepsIndexes(index, linked, order.orderId);
      RemovalKeepsValues(bag, linked, order.orderId);
      RemoveRestingOrder(order);
      e := Close(order, timestamp);
    }

    method CancelOrder(r: CancelRequest) returns (report: Report)
      requires Valid()
      modifies repr
      ensures Valid() && repr == old(repr)
      ensures Outcome(View(), report) == Books.CancelOrder(old(View()), r)
    {
      hide Structured, Values, Books.Refuse, Sound, Uncrossed;
      StepKeepsWellFormed(View(), Cancel(r));
      var reason := ValidateCancel(r);
      if reason != RejectReason.None {
        report := Refuse(CancelReject, r.orderId, reason, r.timestamp);
        return;
      }
      IndexedOrder(r.orderId);
      var order := index[r.orderId].order;
      var e := CancelResting(order, r.timestamp);
      report := EMPTY_REPORT.AddEvent(e);
    }

    lemma IndexedOrder(orderId: nat)
      requires Indexes(index, linked) && Values(bag, linked) && orderId in bag
      ensures orderId in index && orderId in linked && index[orderId].order == linked[orderId]
      ensures linked[orderId].orderId == orderId && linked[orderId] in nodes
      ensures linked[orderId].Value() == bag[orderId]
    {
    }

    method ValidateReplace(r: ReplaceRequest) returns (reason: RejectReason)
      requires Valid()
      ensures reason == ReplaceFault(View(), r)
    {
      hide Structured, Sound, Uncrossed;
      if r.symbolId != symbolId {
        return UnknownSymbol;
      }
      if r.oldOrderId !in index {
        return OrderNotFound;
      }
      if index[r.oldOrderId].order.Value().IsTerminal() {
        return OrderAlreadyClosed;
      }
      if r.newOrderId == INVALID_ID || HasOrder(r.newOrderId) {
        return DuplicateOrderId;
      }
      if r.newQuantity <= 0 {
        return InvalidQuantity;
      }
      if r.newPrice <= 0 {
        return InvalidPrice;
      }
      return RejectReason.None;
    }

    /** Does a report contain a Reject event? */
    static method FindReject(events: seq<Event>) returns (rejected: bool)
      ensures rejected <==> exists e :: e in events && e.kind.Reject?
    {
      rejected := false;
      for i := 0 to |events|
        invariant !rejected
        invariant forall e :: e in events[..i] ==> !e.kind.Reject?
      {
        if events[i].kind.Reject? {
          return true;
        }
        assert events[..i + 1] == events[..i] + [events[i]];
      }
      assert events[..|events|] == events;
    }

    /** Cancel, submit, acknowledge. The branch for a submission rejected after the cancel is dead. */
    method ReplaceOrder(r: ReplaceRequest) returns (report: Report)
      requires Valid()
      modifies repr
      ensures Valid() && old(repr) <= repr && fresh(repr - old(repr))
      ensures Outcome(View(), report) == Books.ReplaceOrder(old(View()), r)
    {
      hide Coherent, Accept, Sweep, Books.Refuse, Sound, Uncrossed;
      ghost var before := View();
      var reason := ValidateReplace(r);
      if reason != RejectReason.None {
        report := Refuse(ReplaceReject, r.oldOrderId, reason, r.timestamp);
        return;
      }
      ReplaceIsAtomic(before, r);
      ReplacedOrder(r.oldOrderId);
      var oldOrder := index[r.oldOrderId].order;
      var request := SubmitHalf(r, oldOrder.Value());
      report := CancelOrder(CancelHalf(r));
      var submitted, newOrder := SubmitNewOrderInternal(request);
      var rejected := FindReject(submitted.events);
      if rejected || newOrder == null {
        NoReject(Books.CancelOrder(before, CancelHalf(r)).book, request);
        assert false;
      }
      var sequence := NextEventSequence();
      report := report.AddEvent(ReplaceAckEvent(r.oldOrderId, newOrder.Value(), sequence, r.timestamp));
      report := report.Append(submitted);
    }

    lemma ReplacedOrder(orderId: nat)
      requires Valid() && orderId in bag
      ensures orderId in index && index[orderId].order.Value() == bag[orderId]
    {
    }

    // ---------- Observers of the whole book ----------

    /** Levels exist exactly at the prices of resting orders. */
    lemma LevelsAreQuotes(side: Side, price: int)
      requires Valid()
      ensures price in LevelsOf(side) <==> exists id :: id in bag && bag[id].side == side && bag[id].price == price
    {
      hide PriceLevel.Holds, QueueAt, WellFormed;
      var key := Key(side, price);
      if price in LevelsOf(side) {
        FrontIsLinked(queues, linked, key);
        assert bag[queues[key][0].orderId].side == side;
      }
      if id :| id in bag && bag[id].side == side && bag[id].price == price {
        assert KeyOf(linked[id]) == key;
      }
    }

    /** An uncrossed book, at every moment between two operations. */
    lemma BestBidIsBelowBestAsk(bid: int, ask: int)
      requires Valid() && IsBest(Buy, bid) && IsBest(Sell, ask)
      ensures bid < ask
    {
      hide Structured, Indexes, Values, Sound;
      LevelsAreQuotes(Buy, bid);
      LevelsAreQuotes(Sell, ask);
    }

    lemma QuoteIsBest(side: Side, price: int)
      requires Valid() && IsBest(side, price)
      ensures exists id :: id in bag && bag[id].side == side && bag[id].price == price
      ensures forall id :: id in bag && bag[id].side == side ==>
        if side.Buy? then bag[id].price <= price else price <= bag[id].price
    {
      hide Structured, Indexes, Values, WellFormed;
      LevelsAreQuotes(side, price);
      forall id | id in bag && bag[id].side == side
        ensures if side.Buy? then bag[id].price <= price else price <= bag[id].price
      {
        LevelsAreQuotes(side, bag[id].price);
      }
    }

    /** The highest resting buy price, if any buy order rests. */
    method BestBid() returns (quoted: bool, price: int)
      requires Valid()
      ensures quoted <==> exists id :: id in bag && bag[id].side.Buy?
      ensures quoted ==> exists id :: id in bag && bag[id].side.Buy? && bag[id].price == price
      ensures quoted ==> forall id :: id in bag && bag[id].side.Buy? ==> bag[id].price <= price
    {
      hide Structured, Indexes, Values, Sound, Uncrossed;
      if bids == map[] {
        NoLevels(Buy);
        return false, INVALID_PRICE;
      }
      price := BestPrice(Buy);
      quoted := true;
      QuoteIsBest(Buy, price);
    }

    /** The lowest resting sell price, if any sell order rests. */
    method BestAsk() returns (quoted: bool, price: int)
      requires Valid()
      ensures quoted <==> exists id :: id in bag && bag[id].side.Sell?
      ensures quoted ==> exists id :: id in bag && bag[id].side.Sell? && bag[id].price == price
      ensures quoted ==> forall id :: id in bag && bag[id].side.Sell? ==> price <= bag[id].price
    {
      hide Structured, Indexes, Values, Sound, Uncrossed;
      if asks == map[] {
        NoLevels(Sell);
        return false, INVALID_PRICE;
      }
      price := BestPrice(Sell);
      quoted := true;
      QuoteIsBest(Sell, price);
    }

    /**
     * Two books whose orders have the same priority, such as equal bags, have the same levels, in the same FIFO
     * order, and own and index the same ids.
     */
    lemma SamePrioritySameLevels(other: OrderBook)
      requires Valid() && other.Valid() && SamePriority(bag, other.bag)
      ensures queues.Keys == other.queues.Keys
      ensures forall key :: key in queues ==> Ids(queues[key]) == Ids(other.queues[key])
      ensures forall key :: key in queues ==>
        && key in levels && levels[key].contents == queues[key]
        && key in other.levels && other.levels[key].contents == other.queues[key]
      ensures orders.Keys == other.orders.Keys && index.Keys == other.index.Keys
    {
      hide WellFormed, Arranged, PriceLevel.Valid, SamePriority;
      ValuesDescribe();
      other.ValuesDescribe();
      PrioritySwaps(bag, other.bag);
      forall key | key in queues ensures key in other.queues && Ids(queues[key]) == Ids(other.queues[key]) {
        SameQueue(queues, linked, bag, other.queues, other.linked, other.bag, key);
      }
      forall key | key in other.queues ensures key in queues {
        SameQueue(other.queues, other.linked, other.bag, queues, linked, bag, key);
      }
    }

    lemma ValuesDescribe()
      requires Values(bag, linked)
      ensures Describes(bag, linked)
    {
      forall id | id in linked
        ensures bag[id].side == linked[id].side && bag[id].price == linked[id].price
        ensures bag[id].sequence == linked[id].sequence
      {
        assert linked[id].Value() == bag[id];
      }
    }

    static lemma PrioritySwaps(a: Bag, b: Bag)
      requires SamePriority(a, b)
      ensures SamePriority(b, a) && a.Keys == b.Keys
    {
    }
  }
}
