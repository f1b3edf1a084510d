/**
 The reference engine: two order sequences, linear search, no cached totals.

 Bids are kept by descending price and asks by ascending price; orders of one price stay
 in arrival order. Each backend is proved to compute exactly `Step`.
 */
module Reference {
  import opened Types

  datatype State = State(bids: seq<Order>, asks: seq<Order>, stats: Stats)
  {
    function Orders(side: Side): seq<Order> {
      if side == Bid then bids else asks
    }

    function WithOrders(side: Side, q: seq<Order>): State {
      if side == Bid then this.(bids := q) else this.(asks := q)
    }
  }

  const EMPTY := State([], [], NO_STATS)

  datatype Outcome = Outcome(state: State, error: BookError, trades: seq<Trade>)

  // ---- Order sequences

  predicate Crosses(incomingSide: Side, incomingPrice: int, restingPrice: int) {
    if incomingSide == Bid then incomingPrice >= restingPrice else incomingPrice <= restingPrice
  }

  /** Price `p` comes strictly before price `r` in the queue of `side`. */
  predicate Better(side: Side, p: int, r: int) {
    if side == Bid then p > r else p < r
  }

  predicate HasId(q: seq<Order>, id: OrderId) {
    exists i :: 0 <= i < |q| && q[i].id == id
  }

  predicate Contains(st: State, id: OrderId) {
    HasId(st.bids, id) || HasId(st.asks, id)
  }

  function SumQty(q: seq<Order>): int {
    if q == [] then 0 else q[0].qty + SumQty(q[1..])
  }

  function TradedQty(ts: seq<Trade>): int {
    if ts == [] then 0 else ts[0].qty + TradedQty(ts[1..])
  }

  /** Quantity resting at one price. */
  function LevelQty(q: seq<Order>, price: int): int {
    if q == [] then 0
    else (if q[0].price == price then q[0].qty else 0) + LevelQty(q[1..], price)
  }

  /** `q` without the first order that has this id. */
  function Without(q: seq<Order>, id: OrderId): seq<Order> {
    if q == [] then []
    else if q[0].id == id then q[1..]
    else [q[0]] + Without(q[1..], id)
  }

  /** `q` with `o` placed after every order whose price is at least as good. */
  function Insert(q: seq<Order>, o: Order): seq<Order> {
    if q == [] || Better(o.side, o.price, q[0].price) then [o] + q
    else [q[0]] + Insert(q[1..], o)
  }

  // ---- Matching

  datatype Matched = Matched(rest: seq<Order>, trades: seq<Trade>, remaining: int)

  /** What an incoming order does to the opposite queue `q`. */
  function Match(q: seq<Order>, id: OrderId, side: Side, price: int, qty: int): Matched
    decreases |q|
  {
    if qty <= 0 || q == [] || !Crosses(side, price, q[0].price) then
      Matched(q, [], qty)
    else if qty < q[0].qty then
      Matched([q[0].(qty := q[0].qty - qty)] + q[1..], [Trade(q[0].id, id, q[0].price, qty, side)], 0)
    else
      var m := Match(q[1..], id, side, price, qty - q[0].qty);
      Matched(m.rest, [Trade(q[0].id, id, q[0].price, q[0].qty, side)] + m.trades, m.remaining)
  }

  /** The dry run: how much of `qty` the opposite queue `q` would fill. */
  function Crossing(q: seq<Order>, side: Side, price: int, qty: int): int
    decreases |q|
  {
    if qty <= 0 || q == [] || !Crosses(side, price, q[0].price) then 0
    else
      var fill := Min(qty, q[0].qty);
      fill + Crossing(q[1..], side, price, qty - fill)
  }

  // ---- Add

  /** The event behind the plain add_order: a limit good-til-cancel order. */
  function LimitAdd(id: OrderId, side: Side, price: Price, qty: Quantity): (e: Event)
    ensures e.kind == Add && e.orderType == Limit && e.timeInForce == GoodTilCancel && !e.postOnly
    ensures e.id == id && e.side == side && e.price == price && e.qty == qty
  {
    Event(Add, id, side, price, qty, Limit, GoodTilCancel, false, 0, 0, 0)
  }

  /** The price an add is matched at: market orders take any price. */
  function LimitOf(e: Event): Price {
    if e.orderType == Limit then e.price
    else if e.side == Bid then MAX_INT64
    else MIN_INT64
  }

  /** Only a limit good-til-cancel add may leave a remainder in the book. */
  predicate CanRest(e: Event) {
    e.orderType == Limit && e.timeInForce == GoodTilCancel
  }

  function PriceError(price: Price): BookError {
    if price > 0 then NoError else InvalidPrice
  }

  /**
   The checks before an add touches the book, in the engine's order. `priceError` is the
   verdict on a limit price, `level` the quantity found at that price, `crossing` the dry run.
   */
  function AddGuard(st: State, e: Event, priceError: BookError, level: int, crossing: int): BookError {
    if e.orderType == Market && e.postOnly then WouldTakeLiquidity
    else if e.orderType == Limit && priceError != NoError then priceError
    else if e.qty <= 0 then InvalidQuantity
    else if Contains(st, e.id) then DuplicateOrderId
    else if e.orderType == Limit && e.timeInForce == FillOrKill && crossing < e.qty then InsufficientLiquidity
    else if e.postOnly && crossing != 0 then WouldTakeLiquidity
    else if (CanRest(e) && AddWouldOverflow(level, e.qty - crossing))
            || AddWouldOverflow(st.stats.tradedQty, crossing) then QuantityOverflow
    else NoError
  }

  function StatsAfter(stats: Stats, trades: seq<Trade>): Stats {
    stats.(trades := stats.trades + |trades|, tradedQty := stats.tradedQty + TradedQty(trades))
  }

  /** Match an admitted order against the opposite side and rest what may rest. */
  function Execute(st: State, id: OrderId, side: Side, price: Price, qty: int, rests: bool): Outcome {
    var opposite := side.Opposite();
    var m := Match(st.Orders(opposite), id, side, price, qty);
    var matched := st.WithOrders(opposite, m.rest).(stats := StatsAfter(st.stats, m.trades));
    var final :=
      if rests && m.remaining > 0 then
        matched.WithOrders(side, Insert(matched.Orders(side), Order(id, side, price, m.remaining)))
      else matched;
    Outcome(final, NoError, m.trades)
  }

  function CountAdd(st: State): State {
    st.(stats := st.stats.(addRequests := st.stats.addRequests + 1))
  }

  function CountReject(st: State): State {
    st.(stats := st.stats.(rejectedRequests := st.stats.rejectedRequests + 1))
  }

  function Reject(st: State, error: BookError): Outcome {
    Outcome(CountReject(st), error, [])
  }

  function CrossingOf(st: State, side: Side, price: Price, qty: int): int {
    Crossing(st.Orders(side.Opposite()), side, price, qty)
  }

  function AddError(st: State, e: Event): BookError {
    AddGuard(st, e, PriceError(e.price), LevelQty(st.Orders(e.side), LimitOf(e)),
             CrossingOf(st, e.side, LimitOf(e), e.qty))
  }

  function AddWith(st: State, e: Event, error: BookError): Outcome {
    if error != NoError then Reject(CountAdd(st), error)
    else Execute(CountAdd(st), e.id, e.side, LimitOf(e), e.qty, CanRest(e))
  }

  // ---- Cancel and modify

  /** The side an order rests on; bids are searched first. */
  function SideOf(st: State, id: OrderId): Side {
    if HasId(st.bids, id) then Bid else Ask
  }

  function Removed(st: State, id: OrderId): State {
    var side := SideOf(st, id);
    st.WithOrders(side, Without(st.Orders(side), id))
  }

  function CountCancel(st: State): State {
    st.(stats := st.stats.(cancelRequests := st.stats.cancelRequests + 1))
  }

  function CancelStep(st: State, id: OrderId): Outcome {
    if !Contains(st, id) then Reject(CountCancel(st), UnknownOrderId)
    else Outcome(Removed(CountCancel(st), id), NoError, [])
  }

  function ModifyGuard(st: State, e: Event, priceError: BookError, level: int, crossing: int): BookError {
    if !Contains(st, e.id) then UnknownOrderId
    else if priceError != NoError then priceError
    else if e.newQty <= 0 then InvalidQuantity
    else if AddWouldOverflow(level, e.newQty - crossing)
            || AddWouldOverflow(st.stats.tradedQty, crossing) then QuantityOverflow
    else NoError
  }

  function ModifyError(st: State, e: Event): BookError {
    var side := SideOf(st, e.id);
    ModifyGuard(st, e, PriceError(e.newPrice),
                LevelQty(Without(st.Orders(side), e.id), e.newPrice),
                CrossingOf(st, side, e.newPrice, e.newQty))
  }

  function CountModify(st: State): State {
    st.(stats := st.stats.(modifyRequests := st.stats.modifyRequests + 1))
  }

  /** Cancel-replace: the old queue position is given up. */
  function ModifyWith(st: State, e: Event, error: BookError): Outcome {
    if error != NoError then Reject(CountModify(st), error)
    else Execute(Removed(CountModify(st), e.id), e.id, SideOf(st, e.id), e.newPrice, e.newQty, true)
  }

  // ---- Events

  function Step(st: State, e: Event): Outcome {
    match e.kind
    case Add => AddWith(st, e, AddError(st, e))
    case Cancel => CancelStep(st, e.id)
    case Modify => ModifyWith(st, e, ModifyError(st, e))
  }

  /** The checks of an add may be made once the request is counted. */
  lemma {:induction false} AddEnds(st: State, e: Event)
    requires e.kind == Add
    ensures var counted := CountAdd(st);
            Step(st, e)
              == if AddError(counted, e) != NoError then Outcome(CountReject(counted), AddError(counted, e), [])
                 else Execute(counted, e.id, e.side, LimitOf(e), e.qty, CanRest(e))
  {
    hide Execute, Crossing, LevelQty;
  }

  /** So may the checks of a modify. */
  lemma {:induction false} ModifyEnds(st: State, e: Event)
    requires e.kind == Modify
    ensures var counted := CountModify(st); var side := SideOf(counted, e.id);
            Step(st, e)
              == if ModifyError(counted, e) != NoError
                 then Outcome(CountReject(counted), ModifyError(counted, e), [])
                 else Execute(Removed(counted, e.id), e.id, side, e.newPrice, e.newQty, true)
  {
    hide Execute, Crossing, LevelQty;
  }

  /** The verdict of the engine's checks on an event. */
  function ReferenceError(st: State, e: Event): BookError {
    match e.kind
    case Add => AddError(st, e)
    case Cancel => if Contains(st, e.id) then NoError else UnknownOrderId
    case Modify => ModifyError(st, e)
  }

  /** The step a book takes when its checks come to `error`; a cancel checks for itself. */
  function StepWith(st: State, e: Event, error: BookError): Outcome {
    match e.kind
    case Add => AddWith(st, e, error)
    case Cancel => CancelStep(st, e.id)
    case Modify => ModifyWith(st, e, error)
  }

  /** The state after a whole history. */
  function Run(es: seq<Event>): State {
    if es == [] then EMPTY else Step(Run(es[..|es| - 1]), es[|es| - 1]).state
  }

  /** All trades of a history, in order. */
  function RunTrades(es: seq<Event>): seq<Trade> {
    if es == [] then []
    else RunTrades(es[..|es| - 1]) + Step(Run(es[..|es| - 1]), es[|es| - 1]).trades
  }
}
