/** The value types every part of the engine shares: events, orders, trades, errors. */
module Types {

  const MAX_INT64 := 0x7FFF_FFFF_FFFF_FFFF
  const MIN_INT64 := -0x8000_0000_0000_0000
  const TWO_64 := 0x1_0000_0000_0000_0000

  // Every value stored in a variable, field or constructor argument of one of these types
  // carries the proof obligation that it fits. The quantities of orders, trades and statistics
  // are plain integers: the methods compute them in variables of these types, and the invariant
  // of the book bounds them.
  type int64 = x: int | -0x8000_0000_0000_0000 <= x <= 0x7FFF_FFFF_FFFF_FFFF
  type uint64 = x: int | 0 <= x < 0x1_0000_0000_0000_0000

  type OrderId = uint64
  type Price = int64
  type Quantity = int64

  datatype Side = Bid | Ask
  {
    function Opposite(): Side {
      if this == Bid then Ask else Bid
    }
  }

  datatype EventType = Add | Cancel | Modify
  datatype OrderType = Limit | Market
  datatype TimeInForce = GoodTilCancel | ImmediateOrCancel | FillOrKill

  datatype Event = Event(
    kind: EventType, id: OrderId, side: Side, price: Price, qty: Quantity,
    orderType: OrderType, timeInForce: TimeInForce, postOnly: bool,
    newPrice: Price, newQty: Quantity, lineNumber: uint64)

  datatype Order = Order(id: OrderId, side: Side, price: Price, qty: int)

  datatype Trade = Trade(resting: OrderId, incoming: OrderId, price: Price, qty: int, aggressor: Side)

  datatype BookError =
    | NoError
    | DuplicateOrderId
    | UnknownOrderId
    | InvalidPrice
    | InvalidQuantity
    | QuantityOverflow
    | CapacityExceeded
    | PriceOutOfRange
    | InsufficientLiquidity
    | WouldTakeLiquidity

  datatype Stats = Stats(
    addRequests: nat, cancelRequests: nat, modifyRequests: nat, rejectedRequests: nat, trades: nat, tradedQty: int)

  const NO_STATS := Stats(0, 0, 0, 0, 0, 0)

  function Min(a: int, b: int): int {
    if a <= b then a else b
  }

  /** The source's quantity_add_would_overflow. */
  predicate AddWouldOverflow(left: int, right: int) {
    right > 0 && left > MAX_INT64 - right
  }
}
