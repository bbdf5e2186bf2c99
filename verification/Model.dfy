/** The value types of the engine: enumerations, requests, orders, events, trades and reports. */
module Model {

  datatype Side = Buy | Sell
  {
    function Opposite(): Side {
      if Buy? then Sell else Buy
    }
  }

  datatype OrderType = Limit | Market

  datatype OrderStatus = New | Resting | PartiallyFilled | Filled | Cancelled | Rejected

  datatype EventType =
    | Ack | Reject | PartialFill | Fill | CancelAck | CancelReject | ReplaceAck | ReplaceReject

  datatype RejectReason =
    | None | DuplicateOrderId | UnknownSymbol | InvalidPrice | InvalidQuantity
    | OrderNotFound | OrderAlreadyClosed | InvalidRequest

  /** Identifier 0 and price 0 are the sentinels of the source. */
  const INVALID_ID: nat := 0
  const INVALID_PRICE: int := 0

  datatype NewOrderRequest = NewOrderRequest(
    orderId: nat, symbolId: nat, side: Side, orderType: OrderType,
    price: int, quantity: int, timestamp: nat)

  datatype CancelRequest = CancelRequest(symbolId: nat, orderId: nat, timestamp: nat)

  datatype ReplaceRequest = ReplaceRequest(
    symbolId: nat, oldOrderId: nat, newOrderId: nat,
    newPrice: int, newQuantity: int, timestamp: nat)

  /** The transport message: one of the three requests. */
  datatype Command =
    | NewOrder(submit: NewOrderRequest)
    | Cancel(cancel: CancelRequest)
    | Replace(replace: ReplaceRequest)
  {
    function Symbol(): nat {
      match this
      case NewOrder(r) => r.symbolId
      case Cancel(r) => r.symbolId
      case Replace(r) => r.symbolId
    }
  }

  /** A command whose fields all have their initial values. */
  const BLANK_COMMAND := NewOrder(NewOrderRequest(INVALID_ID, INVALID_ID, Buy, Limit, INVALID_PRICE, 0, 0))

  /** The business fields of an order; the level links live in the heap object only. */
  datatype OrderValue = OrderValue(
    orderId: nat, symbolId: nat, side: Side, orderType: OrderType, price: int,
    quantity: nat, leaves: nat, sequence: nat,
    createdAt: nat, updatedAt: nat, status: OrderStatus)
  {
    predicate IsTerminal() {
      status.Filled? || status.Cancelled? || status.Rejected?
    }
  }

  datatype Event = Event(
    kind: EventType, symbolId: nat, orderId: nat, relatedOrderId: nat,
    price: int, quantity: int, leaves: int,
    reason: RejectReason, sequence: nat, timestamp: nat)

  datatype Trade = Trade(
    tradeId: nat, symbolId: nat, buyOrderId: nat, sellOrderId: nat,
    price: int, quantity: int, sequence: nat, timestamp: nat)

  datatype Report = Report(events: seq<Event>, trades: seq<Trade>)
  {
    function AddEvent(e: Event): Report {
      Report(events + [e], trades)
    }

    function AddTrade(t: Trade): Report {
      Report(events, trades + [t])
    }

    function Append(other: Report): Report {
      Report(events + other.events, trades + other.trades)
    }
  }

  const EMPTY_REPORT := Report([], [])

  /** An event about an order that the book accepted. */
  function OrderEvent(kind: EventType, o: OrderValue, quantity: int, leaves: int,
                      sequence: nat, timestamp: nat): Event {
    Event(kind, o.symbolId, o.orderId, INVALID_ID, o.price, quantity, leaves, RejectReason.None,
          sequence, timestamp)
  }

  function AckEvent(o: OrderValue, sequence: nat): Event {
    OrderEvent(Ack, o, o.quantity, o.leaves, sequence, o.updatedAt)
  }

  /** A Fill when nothing is left, otherwise a PartialFill that carries the filled quantity. */
  function ExecutionEvent(o: OrderValue, sequence: nat): Event {
    if o.leaves == 0 then OrderEvent(Fill, o, o.quantity, 0, sequence, o.updatedAt)
    else OrderEvent(PartialFill, o, o.quantity - o.leaves, o.leaves, sequence, o.updatedAt)
  }

  function CancelAckEvent(o: OrderValue, sequence: nat, timestamp: nat): Event {
    OrderEvent(CancelAck, o, o.quantity, o.leaves, sequence, timestamp)
  }

  function ReplaceAckEvent(oldOrderId: nat, o: OrderValue, sequence: nat, timestamp: nat): Event {
    OrderEvent(ReplaceAck, o, o.quantity, o.leaves, sequence, timestamp).(relatedOrderId := oldOrderId)
  }

  /** A reject-style event: it names the order of the request and leaves price and quantities at 0. */
  function RejectEvent(kind: EventType, orderId: nat, symbolId: nat, reason: RejectReason,
                       sequence: nat, timestamp: nat): Event {
    Event(kind, symbolId, orderId, INVALID_ID, INVALID_PRICE, 0, 0, reason, sequence, timestamp)
  }
}
