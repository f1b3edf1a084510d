/** What the ladder backend computes, stated on the reference's states and with its guards. */
module LadderSpec {
  import opened Types
  import opened Reference
  import opened Invariants
  import opened Laws
  import opened Bitmap
  import opened RungRecount

  function LadderPriceError(minPrice: Price, maxPrice: Price, price: Price): BookError {
    if minPrice <= price <= maxPrice then NoError
    else if price > 0 then PriceOutOfRange
    else InvalidPrice
  }

  /** The price an add is matched at: a market order takes the whole ladder. */
  function LadderLimit(minPrice: Price, maxPrice: Price, e: Event): Price {
    if e.orderType == Limit then e.price else if e.side == Bid then maxPrice else minPrice
  }

  /**
   The ladder's verdict on an event. It differs from the reference's in three numbers only: the
   price check, `level` (the total the price slot caches, whichever side holds it) and `crossing`
   (what the bitmap scan adds up).
   */
  function LadderError(st: State, minPrice: Price, maxPrice: Price, e: Event, level: int, crossing: int): BookError {
    match e.kind
    case Add => AddGuard(st, e, LadderPriceError(minPrice, maxPrice, e.price), level, crossing)
    case Cancel => if Contains(st, e.id) then NoError else UnknownOrderId
    case Modify => ModifyGuard(st, e, LadderPriceError(minPrice, maxPrice, e.newPrice), level, crossing)
  }

  /** The side an event's order matches from, its limit and its quantity. */
  function EventSide(st: State, e: Event): Side {
    if e.kind == Add then e.side else SideOf(st, e.id)
  }

  function EventQty(e: Event): Quantity {
    if e.kind == Add then e.qty else e.newQty
  }

  function EventLimit(minPrice: Price, maxPrice: Price, e: Event): Price {
    if e.kind == Add then LadderLimit(minPrice, maxPrice, e) else e.newPrice
  }

  /** The part of a price level that is the order's own. */
  function OwnAt(st: State, id: OrderId, price: Price): int {
    var q := st.Orders(SideOf(st, id));
    LevelQty(q, price) - LevelQty(Without(q, id), price)
  }

  /** An admitted event whose true fills or remainder would not fit in 64 bits. */
  predicate Overflows(st: State, minPrice: Price, maxPrice: Price, e: Event) {
    var side, price, qty := EventSide(st, e), EventLimit(minPrice, maxPrice, e), EventQty(e);
    var crossing := CrossingOf(st, side, price, qty);
    match e.kind
    case Cancel => false
    case Add =>
      || AddWouldOverflow(st.stats.tradedQty, crossing)
      || (CanRest(e) && AddWouldOverflow(LevelQty(st.Orders(side), price), qty - crossing))
    case Modify =>
      || AddWouldOverflow(st.stats.tradedQty, crossing)
      || AddWouldOverflow(LevelQty(Without(st.Orders(side), e.id), price), qty - crossing)
  }

  // ---- The ladder's own step

  function RungCount(minPrice: Price, maxPrice: Price): nat {
    if minPrice <= maxPrice then maxPrice - minPrice + 1 else 0
  }

  /** What the sell scan adds up before it is capped at the incoming quantity. */
  function Recounted(st: State, minPrice: Price, maxPrice: Price, price: int): int {
    var count := RungCount(minPrice, maxPrice);
    BlockRecount(Rungs(st.bids, minPrice, count), minPrice, price, Words(Words(count)))
  }

  /** What max_crossing_qty returns: right for a buy, the capped recount for a sell. */
  function Counted(st: State, minPrice: Price, maxPrice: Price, side: Side, price: Price, qty: Quantity): int {
    if side == Bid then CrossingOf(st, Bid, price, qty) else Min(qty, Recounted(st, minPrice, maxPrice, price))
  }

  /** The total cached at a price slot, whichever side holds it. */
  function SlotSeen(st: State, minPrice: Price, maxPrice: Price, price: Price): int {
    if minPrice <= price <= maxPrice then LevelQty(st.bids, price) + LevelQty(st.asks, price) else 0
  }

  /** What the overflow test of an event sees: the slot's total, less a modified order's own part. */
  function LevelSeen(st: State, minPrice: Price, maxPrice: Price, e: Event): int {
    match e.kind
    case Add => SlotSeen(st, minPrice, maxPrice, e.price)
    case Cancel => 0
    case Modify => SlotSeen(st, minPrice, maxPrice, e.newPrice) - OwnAt(st, e.id, e.newPrice)
  }

  function LadderVerdict(st: State, minPrice: Price, maxPrice: Price, e: Event): BookError {
    var counted := Counted(st, minPrice, maxPrice, EventSide(st, e), EventLimit(minPrice, maxPrice, e), EventQty(e));
    LadderError(st, minPrice, maxPrice, e, LevelSeen(st, minPrice, maxPrice, e), counted)
  }

  function LadderStep(st: State, minPrice: Price, maxPrice: Price, e: Event): Outcome {
    StepWith(st, e, LadderVerdict(st, minPrice, maxPrice, e))
  }

  /** An event the ladder accepts although its true fills or remainder do not fit in 64 bits. */
  predicate Unsafe(st: State, minPrice: Price, maxPrice: Price, e: Event) {
    LadderVerdict(st, minPrice, maxPrice, e) == NoError && Overflows(st, minPrice, maxPrice, e)
  }

  /** A sound book whose orders all lie on the ladder. */
  ghost predicate OnRungs(st: State, minPrice: Price, maxPrice: Price) {
    Inv(st) && minPrice <= maxPrice && PricesWithin(st, minPrice, maxPrice)
  }

  /** What the ladder sees of a book does not depend on its counters. */
  lemma {:induction false} CountsAside(st: State, st': State, minPrice: Price, maxPrice: Price, side: Side,
                                       price: Price,
                                       qty: Quantity)
    requires st.bids == st'.bids && st.asks == st'.asks
    ensures Counted(st, minPrice, maxPrice, side, price, qty) == Counted(st', minPrice, maxPrice, side, price, qty)
    ensures SlotSeen(st, minPrice, maxPrice, price) == SlotSeen(st', minPrice, maxPrice, price)
    ensures forall id :: OwnAt(st, id, price) == OwnAt(st', id, price) && SideOf(st, id) == SideOf(st', id)
  {
    hide BlockRecount, Rungs, HasId, Without, LevelQty;
  }

  lemma {:induction false} SameLimit(q: seq<Order>, id: OrderId, side: Side, a: int, b: int, qty: int)
    requires forall i :: 0 <= i < |q| ==> (Crosses(side, a, q[i].price) <==> Crosses(side, b, q[i].price))
    ensures Match(q, id, side, a, qty) == Match(q, id, side, b, qty)
    ensures Crossing(q, side, a, qty) == Crossing(q, side, b, qty)
    decreases |q|
  {
    if q != [] {
      assert forall i :: 0 <= i < |q[1..]| ==> q[1..][i] == q[i + 1];
      SameLimit(q[1..], id, side, a, b, qty - q[0].qty);
      SameLimit(q[1..], id, side, a, b, qty - Min(qty, q[0].qty));
    }
  }

  /** A market order's limit at the end of the ladder takes every resting order. */
  lemma {:induction false} LadderLimitTakesAll(st: State, minPrice: Price, maxPrice: Price, e: Event)
    requires OnRungs(st, minPrice, maxPrice) && e.kind == Add
    ensures var q, price := st.Orders(e.side.Opposite()), LadderLimit(minPrice, maxPrice, e);
            && CrossingOf(st, e.side, price, e.qty) == CrossingOf(st, e.side, LimitOf(e), e.qty)
            && Match(q, e.id, e.side, price, e.qty) == Match(q, e.id, e.side, LimitOf(e), e.qty)
  {
    hide Inv, Match, Crossing;
    var q := st.Orders(e.side.Opposite());
    SameLimit(q, e.id, e.side, LadderLimit(minPrice, maxPrice, e), LimitOf(e), e.qty);
  }
}
