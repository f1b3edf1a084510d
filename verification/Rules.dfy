/**
 The engine's rules in the terms of an event's own fields and of the orders at rest: which error each
 refusal returns and what an accepted event does. The steps are made of other functions; these laws
 do not name them.
 */
module Rules {
  import opened Types
  import opened Reference
  import opened Matching
  import opened Invariants
  import opened OrderIndex
  import opened Laws

  // ---- What a reader of the book sees

  ghost predicate RestsOn(q: seq<Order>, id: OrderId) {
    exists o :: o in q && o.id == id
  }

  ghost predicate AtRest(st: State, id: OrderId) {
    RestsOn(st.bids, id) || RestsOn(st.asks, id)
  }

  /** Everything on the other side priced at `limit` or better, wherever it stands in the queue. */
  function Within(q: seq<Order>, side: Side, limit: int): int {
    if q == [] then 0
    else
      (if (side == Bid && q[0].price <= limit) || (side == Ask && q[0].price >= limit) then q[0].qty else 0)
      + Within(q[1..], side, limit)
  }

  /** What the other side holds for an add: all of it for a market order. */
  function OnOffer(st: State, e: Event): int {
    var q := if e.side == Bid then st.asks else st.bids;
    if e.orderType == Market then SumQty(q) else Within(q, e.side, e.price)
  }

  /** Everything at one price. */
  function QtyAt(st: State, side: Side, price: int): int {
    LevelQty(if side == Bid then st.bids else st.asks, price)
  }

  /** `rest` is `q` with `o` cut out of its place. */
  ghost predicate CutOut(rest: seq<Order>, q: seq<Order>, o: Order) {
    exists k :: 0 <= k < |q| && q[k] == o && rest == q[..k] + q[k + 1..]
  }

  /** `after` is `q` with `o` behind every order priced as well or better and ahead of every worse one. */
  ghost predicate JoinsLast(after: seq<Order>, q: seq<Order>, o: Order) {
    exists k :: 0 <= k <= |q| && after == q[..k] + [o] + q[k..]
      && (forall i :: 0 <= i < k ==> if o.side == Bid then q[i].price >= o.price else q[i].price <= o.price)
      && (forall i :: k <= i < |q| ==> if o.side == Bid then q[i].price < o.price else q[i].price > o.price)
  }

  /**
   The trades run down the queue `q`, each with the next order at that order's price and all but the
   last for its whole quantity; `after` is what they leave of it.
   */
  ghost predicate FillsInOrder(q: seq<Order>, after: seq<Order>, id: OrderId, side: Side, trades: seq<Trade>) {
    var n := |trades|;
    && n <= |q|
    && (forall i :: 0 <= i < n ==>
          && trades[i].resting == q[i].id && trades[i].incoming == id && trades[i].aggressor == side
          && trades[i].price == q[i].price && 0 < trades[i].qty <= q[i].qty
          && (i < n - 1 ==> trades[i].qty == q[i].qty))
    && after == (if n > 0 && trades[n - 1].qty < q[n - 1].qty
                 then [q[n - 1].(qty := q[n - 1].qty - trades[n - 1].qty)] + q[n..]
                 else q[n..])
  }

  /** No trade is worse than the limit. */
  ghost predicate WithinLimit(side: Side, limit: int, trades: seq<Trade>) {
    forall i :: 0 <= i < |trades| ==>
      if side == Bid then trades[i].price <= limit else trades[i].price >= limit
  }

  lemma {:induction false} RestsIffHasId(q: seq<Order>, id: OrderId)
    ensures RestsOn(q, id) <==> HasId(q, id)
  {
    if HasId(q, id) {
      var i :| 0 <= i < |q| && q[i].id == id;
      assert q[i] in q;
    }
  }

  lemma {:induction false} AtRestIffContains(st: State, id: OrderId)
    ensures AtRest(st, id) <==> Contains(st, id)
  {
    hide RestsOn, HasId;
    RestsIffHasId(st.bids, id);
    RestsIffHasId(st.asks, id);
  }

  /** In a sorted queue the orders within the limit come first, so the depth counts them all. */
  lemma {:induction false} WithinIsDepth(q: seq<Order>, side: Side, limit: int)
    requires Sorted(side.Opposite(), q)
    ensures Within(q, side, limit) == Depth(q, side, limit)
  {
    if q != [] {
      assert forall i :: 0 <= i < |q[1..]| ==> q[1..][i] == q[i + 1];
      if Crosses(side, limit, q[0].price) {
        WithinIsDepth(q[1..], side, limit);
      } else {
        forall i | 0 <= i < |q| ensures !Crosses(side, limit, q[i].price) {
          assert i > 0 ==> !Better(side.Opposite(), q[i].price, q[0].price);
        }
        NoneWithin(q, side, limit);
      }
    }
  }

  lemma {:induction false} NoneWithin(q: seq<Order>, side: Side, limit: int)
    requires forall i :: 0 <= i < |q| ==> !Crosses(side, limit, q[i].price)
    ensures Within(q, side, limit) == 0
  {
    if q != [] {
      assert forall i :: 0 <= i < |q[1..]| ==> q[1..][i] == q[i + 1];
      NoneWithin(q[1..], side, limit);
    }
  }

  /** The dry run counts what is on offer, capped at the quantity. */
  lemma {:induction false} CrossingIsOffer(st: State, side: Side, limit: Price, qty: int)
    requires Inv(st) && qty >= 0
    ensures var within := Within(st.Orders(side.Opposite()), side, limit);
            CrossingOf(st, side, limit, qty) == Min(qty, within) && within >= 0
  {
    hide Inv, Crossing, Within, Depth, Sorted;
    InvFacts(st, side);
    SortedSide(st, side.Opposite());
    CrossingIsCappedDepth(st.Orders(side.Opposite()), side, limit, qty);
    WithinIsDepth(st.Orders(side.Opposite()), side, limit);
  }

  lemma {:induction false} AddCrossingIsOffer(st: State, e: Event)
    requires Inv(st) && e.qty >= 0
    ensures CrossingOf(st, e.side, LimitOf(e), e.qty) == Min(e.qty, OnOffer(st, e)) && OnOffer(st, e) >= 0
  {
    hide Inv, Crossing, Within, Depth, SumQty;
    CrossingIsOffer(st, e.side, LimitOf(e), e.qty);
    if e.orderType == Market {
      InvFacts(st, e.side);
      CrossingIsCappedDepth(st.Orders(e.side.Opposite()), e.side, LimitOf(e), e.qty);
      DepthOfAll(st.Orders(e.side.Opposite()), e.side, LimitOf(e));
    }
  }

  // ---- Which error an event gets

  /**
   The verdict on an add, error by error: each one exactly when its own fault is there and no fault that
   is looked for earlier is. `priceError` is the fault of a limit price, `crossing` the quantity the
   checks take to be on offer and `level` the quantity they take to rest at the limit.
   */
  ghost predicate AddVerdict(st: State, e: Event, priceError: BookError, crossing: int, level: int, error: BookError) {
    var limit, gtc := e.orderType == Limit, e.timeInForce == GoodTilCancel;
    var priced := !(limit && priceError != NoError) && !(!limit && e.postOnly);
    var fit := priced && e.qty > 0 && !AtRest(st, e.id);
    var short := limit && e.timeInForce == FillOrKill && crossing < e.qty;
    var takes := e.postOnly && crossing > 0;
    var tooMuch := || st.stats.tradedQty + crossing > MAX_INT64
                   || (limit && gtc && e.qty > crossing && level + (e.qty - crossing) > MAX_INT64);
    && (limit && priceError != NoError ==> error == priceError)
    && (error == InvalidPrice || error == PriceOutOfRange ==> limit && error == priceError)
    && (error == InvalidQuantity <==> priced && e.qty <= 0)
    && (error == DuplicateOrderId <==> priced && e.qty > 0 && AtRest(st, e.id))
    && (error == InsufficientLiquidity <==> fit && short)
    && (error == WouldTakeLiquidity <==> (!limit && e.postOnly) || (fit && !short && takes))
    && (error == QuantityOverflow <==> fit && !short && !takes && tooMuch)
    && (error == NoError <==> fit && !short && !takes && !tooMuch)
  }

  /** The verdict on a modify; `level` leaves out the order's own part. */
  ghost predicate ModifyVerdict(st: State, e: Event, priceError: BookError, crossing: int, level: int,
                                error: BookError) {
    var known := AtRest(st, e.id);
    var tooMuch := || st.stats.tradedQty + crossing > MAX_INT64
                   || (e.newQty > crossing && level + (e.newQty - crossing) > MAX_INT64);
    && (error == UnknownOrderId <==> !known)
    && (known && priceError != NoError ==> error == priceError)
    && (error == InvalidPrice || error == PriceOutOfRange ==> error == priceError)
    && (error == InvalidQuantity <==> known && priceError == NoError && e.newQty <= 0)
    && (error == QuantityOverflow <==> known && priceError == NoError && e.newQty > 0 && tooMuch)
    && (error == NoError <==> known && priceError == NoError && e.newQty > 0 && !tooMuch)
  }

  predicate IsPriceError(error: BookError) {
    error == NoError || error == InvalidPrice || error == PriceOutOfRange
  }

  lemma {:induction false} AddGuardVerdict(st: State, e: Event, priceError: BookError, level: int, crossing: int)
    requires Inv(st) && IsPriceError(priceError) && (e.qty > 0 ==> 0 <= crossing <= e.qty)
    ensures AddVerdict(st, e, priceError, crossing, level, AddGuard(st, e, priceError, level, crossing))
  {
    hide Inv, AtRest, Contains;
    InvFacts(st, Bid);
    AtRestIffContains(st, e.id);
  }

  lemma {:induction false} ModifyGuardVerdict(st: State, e: Event, priceError: BookError, level: int, crossing: int)
    requires Inv(st) && IsPriceError(priceError) && (e.newQty > 0 ==> 0 <= crossing <= e.newQty)
    ensures ModifyVerdict(st, e, priceError, crossing, level, ModifyGuard(st, e, priceError, level, crossing))
  {
    hide Inv, AtRest, Contains;
    InvFacts(st, Bid);
    AtRestIffContains(st, e.id);
  }

  /** Every add gets the error its fields and the book call for, and no other. */
  lemma {:induction false} AddsAreJudged(st: State, e: Event)
    requires Inv(st) && e.kind == Add
    ensures var priceError := if e.price > 0 then NoError else InvalidPrice;
            AddVerdict(st, e, priceError, Min(e.qty, OnOffer(st, e)),
                       if e.orderType == Limit then QtyAt(st, e.side, e.price) else 0, Step(st, e).error)
  {
    hide Inv, AddVerdict, Crossing, LevelQty, AddGuard, OnOffer;
    StepFollowsVerdict(st, e);
    var crossing := CrossingOf(st, e.side, LimitOf(e), e.qty);
    if e.qty > 0 {
      AddCrossingIsOffer(st, e);
    }
    AddGuardVerdict(st, e, PriceError(e.price), LevelQty(st.Orders(e.side), LimitOf(e)), crossing);
    VerdictSameNumbers(st, e, PriceError(e.price), crossing, LevelQty(st.Orders(e.side), LimitOf(e)),
                       Min(e.qty, OnOffer(st, e)), if e.orderType == Limit then QtyAt(st, e.side, e.price) else 0,
                       Step(st, e).error);
  }

  /** The verdict looks at the crossing of a positive quantity only, and at the level of a well-priced limit only. */
  lemma {:induction false} VerdictSameNumbers(st: State, e: Event, priceError: BookError, crossing: int, level: int,
                                              crossing': int, level': int, error: BookError)
    requires AddVerdict(st, e, priceError, crossing, level, error)
    requires e.qty > 0 ==> crossing == crossing'
    requires e.orderType == Limit && priceError == NoError ==> level == level'
    ensures AddVerdict(st, e, priceError, crossing', level', error)
  {
    hide AtRest;
  }

  // ---- What an accepted event does

  lemma {:induction false} MatchFills(q: seq<Order>, id: OrderId, side: Side, price: int, qty: int)
    requires Positive(q)
    ensures var m := Match(q, id, side, price, qty);
            FillsInOrder(q, m.rest, id, side, m.trades) && WithinLimit(side, price, m.trades)
    decreases |q|
  {
    hide FillsInOrder, WithinLimit;
    if qty > 0 && q != [] && Crosses(side, price, q[0].price) && qty >= q[0].qty {
      MatchFills(q[1..], id, side, price, qty - q[0].qty);
      var m := Match(q[1..], id, side, price, qty - q[0].qty);
      FillsOneMore(q, m.rest, side, price, m.trades, Trade(q[0].id, id, q[0].price, q[0].qty, side));
    } else {
      LastFill(q, id, side, price, qty);
    }
  }

  lemma {:induction false} LastFill(q: seq<Order>, id: OrderId, side: Side, price: int, qty: int)
    requires Positive(q) && (qty > 0 && q != [] && Crosses(side, price, q[0].price) ==> qty < q[0].qty)
    ensures var m := Match(q, id, side, price, qty);
            FillsInOrder(q, m.rest, id, side, m.trades) && WithinLimit(side, price, m.trades)
  {
  }

  lemma {:induction false} FillsOneMore(q: seq<Order>, after: seq<Order>, side: Side, price: int, trades: seq<Trade>,
                                        t: Trade)
    requires q != [] && q[0].qty > 0 && Crosses(side, price, q[0].price)
    requires FillsInOrder(q[1..], after, t.incoming, side, trades) && WithinLimit(side, price, trades)
    requires t == Trade(q[0].id, t.incoming, q[0].price, q[0].qty, side)
    ensures FillsInOrder(q, after, t.incoming, side, [t] + trades) && WithinLimit(side, price, [t] + trades)
  {
    var all, n := [t] + trades, |trades|;
    forall i | 0 < i < |all| ensures all[i] == trades[i - 1] && q[i] == q[1..][i - 1] {
    }
    assert q[1..][n..] == q[n + 1..];
  }

  /** What an accepted add leaves: trades, other side and own side, by the event's own fields. */
  ghost predicate AddDone(st: State, e: Event, r: Outcome) {
    var q, q' := if e.side == Bid then st.asks else st.bids, if e.side == Bid then r.state.asks else r.state.bids;
    var own, own' := if e.side == Bid then st.bids else st.asks, if e.side == Bid then r.state.bids else r.state.asks;
    var left := e.qty - TradedQty(r.trades);
    && TradedQty(r.trades) == Min(e.qty, OnOffer(st, e))
    && FillsInOrder(q, q', e.id, e.side, r.trades)
    && (e.orderType == Limit ==> WithinLimit(e.side, e.price, r.trades))
    && if e.orderType == Limit && e.timeInForce == GoodTilCancel && left > 0
       then JoinsLast(own', own, Order(e.id, e.side, e.price, left))
       else own' == own && !AtRest(r.state, e.id)
  }

  lemma {:induction false} InsertJoinsLast(q: seq<Order>, o: Order)
    requires Sorted(o.side, q)
    ensures JoinsLast(Insert(q, o), q, o)
  {
    hide Insert, InsertAt;
    InsertSplits(q, o);
    var k := InsertAt(q, o);
    assert Insert(q, o) == q[..k] + [o] + q[k..];
    forall i | k <= i < |q| ensures Better(o.side, o.price, q[i].price) {
      assert i > k ==> !Better(o.side, q[i].price, q[k].price);
    }
  }

  /** Consuming a queue from its front brings no id into it. */
  lemma {:induction false} FillsBringNothing(q: seq<Order>, after: seq<Order>, id: OrderId, side: Side,
                                             trades: seq<Trade>, x: OrderId)
    requires FillsInOrder(q, after, id, side, trades) && !RestsOn(q, x)
    ensures !RestsOn(after, x)
  {
    forall o | o in after ensures o.id != x {
      var n := |trades|;
      var j :| 0 <= j < |after| && after[j] == o;
      var k := if |after| == |q[n..]| then j + n else j + n - 1;
      assert q[k] in q && q[k].id == o.id;
    }
  }

  /** An add that was let through, whatever let it through. */
  lemma {:induction false} AddsAreDone(st: State, e: Event)
    requires Inv(st) && e.kind == Add && e.qty > 0 && !Contains(st, e.id)
    ensures AddDone(st, e, StepWith(st, e, NoError))
  {
    hide Inv, Match, Insert, Crossing, FillsInOrder, JoinsLast, WithinLimit, OnOffer, RestsOn, HasId, Sorted, TradedQty;
    var q := st.Orders(e.side.Opposite());
    var m := Match(q, e.id, e.side, LimitOf(e), e.qty);
    InvFacts(st, e.side);
    AddCrossingIsOffer(st, e);
    CrossingIsExact(q, e.id, e.side, LimitOf(e), e.qty);
    MatchFills(q, e.id, e.side, LimitOf(e), e.qty);
    AtRestIffContains(st, e.id);
    FillsBringNothing(q, m.rest, e.id, e.side, m.trades, e.id);
    SortedSide(st, e.side);
    InsertJoinsLast(st.Orders(e.side), Order(e.id, e.side, e.price, m.remaining));
  }

  /** What an accepted modify of the resting order `o` leaves, by the event's own fields. */
  ghost predicate ModifyDone(st: State, e: Event, o: Order, r: Outcome) {
    var bid := o in st.bids;
    var side := if bid then Bid else Ask;
    var q, q' := if bid then st.asks else st.bids, if bid then r.state.asks else r.state.bids;
    var own, own' := if bid then st.bids else st.asks, if bid then r.state.bids else r.state.asks;
    var left := e.newQty - TradedQty(r.trades);
    && TradedQty(r.trades) == Min(e.newQty, Within(q, side, e.newPrice))
    && FillsInOrder(q, q', e.id, side, r.trades) && WithinLimit(side, e.newPrice, r.trades)
    && exists rest ::
         && CutOut(rest, own, o)
         && if left > 0 then JoinsLast(own', rest, Order(e.id, side, e.newPrice, left)) else own' == rest
  }

  /** What an accepted cancel of the resting order `o` leaves. */
  ghost predicate CancelDone(st: State, o: Order, r: Outcome) {
    && r.trades == []
    && if o in st.bids then CutOut(r.state.bids, st.bids, o) && r.state.asks == st.asks
       else CutOut(r.state.asks, st.asks, o) && r.state.bids == st.bids
  }

  /** In a sound book the order with an id is one order, on the side the engine looks for it. */
  lemma {:induction false} FoundAt(st: State, o: Order)
    requires Inv(st) && (o in st.bids || o in st.asks)
    ensures Contains(st, o.id) && SideOf(st, o.id) == (if o in st.bids then Bid else Ask)
    ensures CutOut(Without(st.Orders(SideOf(st, o.id)), o.id), st.Orders(SideOf(st, o.id)), o)
  {
    hide Inv, Without, IndexOfId;
    InvFacts(st, Bid);
    var side := if o in st.bids then Bid else Ask;
    var q := st.Orders(side);
    var k :| 0 <= k < |q| && q[k] == o;
    OnlyWithId(q, o.id, k);
    WithoutSplits(q, o.id);
  }

  lemma {:induction false} ModifiesAreDone(st: State, e: Event, o: Order)
    requires Inv(st) && e.kind == Modify && e.newQty > 0 && o.id == e.id && (o in st.bids || o in st.asks)
    ensures ModifyDone(st, e, o, StepWith(st, e, NoError))
  {
    hide Inv, Match, Insert, Crossing, FillsInOrder, JoinsLast, WithinLimit, CutOut, HasId, Sorted, TradedQty, Within,
      Without;
    FoundAt(st, o);
    var side := SideOf(st, e.id);
    var q := st.Orders(side.Opposite());
    var m := Match(q, e.id, side, e.newPrice, e.newQty);
    InvFacts(st, side);
    CrossingIsOffer(st, side, e.newPrice, e.newQty);
    CrossingIsExact(q, e.id, side, e.newPrice, e.newQty);
    MatchFills(q, e.id, side, e.newPrice, e.newQty);
    RemovedKeepsInv(st, e.id);
    SortedSide(Removed(st, e.id), side);
    InsertJoinsLast(Without(st.Orders(side), e.id), Order(e.id, side, e.newPrice, m.remaining));
  }

  lemma {:induction false} CancelsAreDone(st: State, e: Event)
    requires Inv(st) && e.kind == Cancel
    ensures AtRest(st, e.id) ==> !AtRest(Step(st, e).state, e.id)
    ensures forall o :: (o in st.bids || o in st.asks) && o.id == e.id ==> CancelDone(st, o, Step(st, e))
  {
    hide Inv, Without, CutOut, HasId, RestsOn, Contains;
    InvIgnoresCounts(st, CountCancel(st));
    AtRestIffContains(st, e.id);
    if Contains(st, e.id) {
      RemovedKeepsInv(CountCancel(st), e.id);
      AtRestIffContains(Removed(CountCancel(st), e.id), e.id);
    }
    forall o | (o in st.bids || o in st.asks) && o.id == e.id ensures CancelDone(st, o, Step(st, e)) {
      FoundAt(st, o);
    }
  }

  // ---- Every event

  /** The verdict on a modify of the resting order `o`, whose own part does not count at its price. */
  ghost predicate ModifyJudged(st: State, e: Event, o: Order, error: BookError) {
    var side := if o in st.bids then Bid else Ask;
    var q := if o in st.bids then st.asks else st.bids;
    ModifyVerdict(st, e, if e.newPrice > 0 then NoError else InvalidPrice,
                  Min(e.newQty, Within(q, side, e.newPrice)),
                  QtyAt(st, side, e.newPrice) - (if o.price == e.newPrice then o.qty else 0), error)
  }

  /** What the engine answers to an event. */
  ghost predicate Judged(st: State, e: Event, error: BookError) {
    match e.kind
    case Add =>
      AddVerdict(st, e, if e.price > 0 then NoError else InvalidPrice, Min(e.qty, OnOffer(st, e)),
                 if e.orderType == Limit then QtyAt(st, e.side, e.price) else 0, error)
    case Cancel => error == if AtRest(st, e.id) then NoError else UnknownOrderId
    case Modify =>
      && (!AtRest(st, e.id) ==> error == UnknownOrderId)
      && forall o :: (o in st.bids || o in st.asks) && o.id == e.id ==> ModifyJudged(st, e, o, error)
  }

  /** What an accepted event does to the book, and what it trades. */
  ghost predicate Done(st: State, e: Event, r: Outcome) {
    match e.kind
    case Add => AddDone(st, e, r)
    case Cancel =>
      && !AtRest(r.state, e.id)
      && forall o :: (o in st.bids || o in st.asks) && o.id == e.id ==> CancelDone(st, o, r)
    case Modify =>
      forall o :: (o in st.bids || o in st.asks) && o.id == e.id ==> ModifyDone(st, e, o, r)
  }

  lemma {:induction false} ModifyIsJudged(st: State, e: Event, o: Order)
    requires Inv(st) && e.kind == Modify && o.id == e.id && (o in st.bids || o in st.asks)
    ensures ModifyJudged(st, e, o, Step(st, e).error)
  {
    hide Inv, ModifyVerdict, LevelQty, Without, CutOut, Within, HasId, IndexOfId, Crossing, ModifyGuard;
    FoundAt(st, o);
    StepFollowsVerdict(st, e);
    var side := SideOf(st, e.id);
    var q := st.Orders(side);
    var level, crossing := LevelQty(Without(q, e.id), e.newPrice), CrossingOf(st, side, e.newPrice, e.newQty);
    if e.newQty > 0 {
      CrossingIsOffer(st, side, e.newPrice, e.newQty);
    }
    LevelWithoutOrder(st, side, o, e.newPrice);
    ModifyGuardVerdict(st, e, PriceError(e.newPrice), level, crossing);
    ModifySameNumbers(st, e, PriceError(e.newPrice), crossing, level,
                      Min(e.newQty, Within(st.Orders(side.Opposite()), side, e.newPrice)), level, Step(st, e).error);
  }

  lemma {:induction false} ModifySameNumbers(st: State, e: Event, priceError: BookError, crossing: int, level: int,
                                             crossing': int, level': int, error: BookError)
    requires ModifyVerdict(st, e, priceError, crossing, level, error)
    requires (e.newQty > 0 ==> crossing == crossing') && (priceError == NoError ==> level == level')
    ensures ModifyVerdict(st, e, priceError, crossing', level', error)
  {
    hide AtRest;
  }

  lemma {:induction false} LevelWithoutOrder(st: State, side: Side, o: Order, price: Price)
    requires Inv(st) && o in st.Orders(side)
    ensures LevelQty(Without(st.Orders(side), o.id), price)
            == LevelQty(st.Orders(side), price) - (if o.price == price then o.qty else 0)
  {
    hide Inv, Without, IndexOfId, LevelQty;
    var q := st.Orders(side);
    var k :| 0 <= k < |q| && q[k] == o;
    InvFacts(st, side);
    OnlyWithId(q, o.id, k);
    LevelQtyWithout(q, o.id, price);
  }

  /** Every event gets the error that its fields and the book call for, and no other. */
  lemma {:induction false} EventsAreJudged(st: State, e: Event)
    requires Inv(st)
    ensures Judged(st, e, Step(st, e).error)
  {
    hide Inv, AddVerdict, ModifyJudged, AtRest, AddError, ModifyError, OnOffer, Contains;
    AtRestIffContains(st, e.id);
    StepFollowsVerdict(st, e);
    match e.kind {
      case Add => AddsAreJudged(st, e);
      case Cancel =>
      case Modify =>
        if !AtRest(st, e.id) {
          ModifyUnknown(st, e);
        }
        forall o | (o in st.bids || o in st.asks) && o.id == e.id ensures ModifyJudged(st, e, o, Step(st, e).error) {
          ModifyIsJudged(st, e, o);
        }
    }
  }

  lemma {:induction false} ModifyUnknown(st: State, e: Event)
    requires e.kind == Modify && !Contains(st, e.id)
    ensures ModifyError(st, e) == UnknownOrderId
  {
  }

  /** Whatever checks let an event through, as long as they are sensible, it does what its fields say. */
  lemma {:induction false} EventsAreDone(st: State, e: Event, error: BookError)
    requires Inv(st) && Sensible(st, e, error) && StepWith(st, e, error).error == NoError
    ensures Done(st, e, StepWith(st, e, error))
  {
    hide Inv, AddDone, CancelDone, ModifyDone, AtRest, Contains, Removed;
    match e.kind {
      case Add =>
        OutcomeCarriesVerdict(st, e, error);
        AddsAreDone(st, e);
      case Cancel =>
        AtRestIffContains(st, e.id);
        CancelsAreDone(st, e);
      case Modify =>
        OutcomeCarriesVerdict(st, e, error);
        forall o | (o in st.bids || o in st.asks) && o.id == e.id ensures ModifyDone(st, e, o, StepWith(st, e, error)) {
          ModifiesAreDone(st, e, o);
        }
    }
  }

  lemma {:induction false} AcceptedEventsAreDone(st: State, e: Event)
    requires Inv(st) && Step(st, e).error == NoError
    ensures Done(st, e, Step(st, e))
  {
    hide Inv, Step, StepWith, Done, ReferenceError, Sensible;
    StepFollowsVerdict(st, e);
    ReferenceIsSensible(st, e);
    EventsAreDone(st, e, ReferenceError(st, e));
  }

  /** A limit good-til-cancel remainder, post-only or not, rests behind its price; nothing else rests. */
  lemma {:induction false} RestsOnlyIf(st: State, e: Event, r: Outcome)
    requires e.kind == Add && AddDone(st, e, r)
    ensures var left := e.qty - TradedQty(r.trades);
            if e.orderType == Limit && e.timeInForce == GoodTilCancel && left > 0
            then LastAtItsPrice(r.state.Orders(e.side), Order(e.id, e.side, e.price, left))
            else !AtRest(r.state, e.id) && r.state.Orders(e.side) == st.Orders(e.side)
  {
    hide FillsInOrder, OnOffer, WithinLimit, AtRest, TradedQty, LastAtItsPrice, JoinsLast;
    var left := e.qty - TradedQty(r.trades);
    if e.orderType == Limit && e.timeInForce == GoodTilCancel && left > 0 {
      JoinedIsLast(r.state.Orders(e.side), st.Orders(e.side), Order(e.id, e.side, e.price, left));
    }
  }

  lemma {:induction false} JoinedIsLast(after: seq<Order>, q: seq<Order>, o: Order)
    requires JoinsLast(after, q, o)
    ensures LastAtItsPrice(after, o)
  {
    var k :| 0 <= k <= |q| && after == q[..k] + [o] + q[k..]
      && (forall i :: 0 <= i < k ==> if o.side == Bid then q[i].price >= o.price else q[i].price <= o.price)
      && (forall i :: k <= i < |q| ==> if o.side == Bid then q[i].price < o.price else q[i].price > o.price);
    PlacedLast(after, q, o, k);
  }

  lemma {:induction false} PlacedLast(after: seq<Order>, q: seq<Order>, o: Order, k: nat)
    requires k <= |q| && after == q[..k] + [o] + q[k..]
    requires forall i :: 0 <= i < k ==> !Better(o.side, o.price, q[i].price)
    requires forall i :: k <= i < |q| ==> Better(o.side, o.price, q[i].price)
    ensures LastAtItsPrice(after, o)
  {
    assert after[k] == o;
    forall i | k < i < |after| ensures Better(o.side, o.price, after[i].price) {
      assert after[i] == q[i - 1];
    }
  }
}
