/** The matching loop over levels that store their orders, shared by two backends. */
module Filling {
  import opened Types
  import opened Reference
  import opened Matching
  import opened Invariants
  import opened PriceMap
  import opened Levels
  import opened OrderIndex

  /**
   Mid-match: `level` is being consumed and `tail` is the rest of its side. `q0` and `qty0` are
   the queue and quantity the match began with, `done` its trades so far.
   */
  ghost predicate FillCore(q0: seq<Order>, id: OrderId, side: Side, price: int, qty0: int,
                           level: OrderLevel, tail: seq<Order>, qty: int, done: seq<Trade>) {
    && 0 <= qty <= qty0
    && StoreOk(side.Opposite(), level.price, level.store) && level.totalQty == SumQty(level.store)
    && Progress(q0, id, side, price, qty0, level.store + tail, qty, done)
    && TradedQty(done) >= 0
  }

  /** The same, with the id index following the orders of both sides; `own` is the other side. */
  ghost predicate FillState(q0: seq<Order>, id: OrderId, side: Side, price: int, qty0: int,
                            level: OrderLevel, tail: seq<Order>, own: seq<Order>, index: Index,
                            qty: int, done: seq<Trade>) {
    && FillCore(q0, id, side, price, qty0, level, tail, qty, done)
    && AllDistinct(level.store + tail, own) && IndexOk(index, level.store + tail, own)
  }

  function LevelAfter(level: OrderLevel, fill: int): OrderLevel
    requires level.store != [] && MIN_INT64 <= level.totalQty - fill <= MAX_INT64
  {
    Level(level.price, level.totalQty - fill, Shrunk(level.store, fill))
  }

  function IndexAfter(index: Index, o: Order, fill: int): Index {
    if o.qty == fill then index - {o.id} else index
  }

  lemma {:induction false} ShrunkStore(side: Side, price: Price, store: seq<Order>, tail: seq<Order>, fill: int)
    requires store != [] && StoreOk(side, price, store) && 0 < fill <= store[0].qty
    ensures Shrunk(store + tail, fill) == Shrunk(store, fill) + tail
    ensures StoreOk(side, price, Shrunk(store, fill))
    ensures SumQty(Shrunk(store, fill)) == SumQty(store) - fill >= 0
  {
    ShrunkSum(store, fill);
    SumQtyPositive(Shrunk(store, fill));
    ShrunkAppend(store, tail, fill);
  }

  lemma {:induction false} ShrunkAppend(store: seq<Order>, tail: seq<Order>, fill: int)
    requires store != []
    ensures Shrunk(store + tail, fill) == Shrunk(store, fill) + tail
  {
    var head := if store[0].qty == fill then [] else [store[0].(qty := store[0].qty - fill)];
    TailAppend(store, tail);
    Assoc(head, store[1..], tail);
  }

  lemma {:induction false} TailAppend<T>(a: seq<T>, b: seq<T>)
    requires a != []
    ensures (a + b)[1..] == a[1..] + b && (a + b)[0] == a[0]
  {
  }

  lemma {:induction false} ShrunkSum(store: seq<Order>, fill: int)
    requires store != [] && Positive(store) && 0 < fill <= store[0].qty
    ensures SumQty(Shrunk(store, fill)) == SumQty(store) - fill
    ensures Positive(Shrunk(store, fill))
  {
    if store[0].qty == fill {
      assert Shrunk(store, fill) == store[1..];
    } else {
      assert Shrunk(store, fill)[1..] == store[1..];
    }
  }

  /** One fill, taken by the loop's assignments, leads from one such state to the next. */
  lemma {:induction false} FillCoreTurn(q0: seq<Order>, id: OrderId, side: Side, price: int, qty0: int,
                     level: OrderLevel, tail: seq<Order>, qty: int, done: seq<Trade>)
    requires FillCore(q0, id, side, price, qty0, level, tail, qty, done)
    requires qty > 0 && level.store != [] && Crosses(side, price, level.price)
    requires Positive(q0) && Positive(tail)
    ensures var resting := level.store[0];
            var fill := Min(qty, resting.qty);
            var done' := done + [FillOf(resting, id, side, fill)];
            && 0 < fill <= resting.qty && 0 <= level.totalQty - fill && resting.price == level.price
            && FillCore(q0, id, side, price, qty0, LevelAfter(level, fill), tail, qty - fill, done')
            && 0 <= TradedQty(done') == TradedQty(done) + fill <= Crossing(q0, side, price, qty0)
  {
    var fill := Min(qty, level.store[0].qty);
    var q := level.store + tail;
    var q' := Shrunk(q, fill);
    var more := [FillOf(level.store[0], id, side, fill)];
    ShrunkStore(side.Opposite(), level.price, level.store, tail, fill);
    MatchHead(q, id, side, price, qty);
    ProgressTrans(q0, id, side, price, qty0, q, qty, done, q', qty - fill, more);
    ProgressBound(q0, id, side, price, qty0, q', qty - fill, done + more);
    TradedQtyAppend(done, more);
    assert TradedQty(more) == fill + TradedQty(more[1..]);
  }

  lemma {:induction false} FillTurn(q0: seq<Order>, id: OrderId, side: Side, price: int, qty0: int,
                 level: OrderLevel, tail: seq<Order>, own: seq<Order>, index: Index,
                 qty: int, done: seq<Trade>)
    requires FillState(q0, id, side, price, qty0, level, tail, own, index, qty, done)
    requires qty > 0 && level.store != [] && Crosses(side, price, level.price)
    requires Positive(q0) && Positive(tail)
    ensures var resting := level.store[0];
            var fill := Min(qty, resting.qty);
            var done' := done + [FillOf(resting, id, side, fill)];
            && 0 < fill <= resting.qty && 0 <= level.totalQty - fill
            && FillState(q0, id, side, price, qty0, LevelAfter(level, fill), tail, own,
                         IndexAfter(index, resting, fill), qty - fill, done')
            && 0 <= TradedQty(done') == TradedQty(done) + fill <= Crossing(q0, side, price, qty0)
  {
    hide Progress, IndexOk, AllDistinct, Crossing, Match;
    var fill := Min(qty, level.store[0].qty);
    FillCoreTurn(q0, id, side, price, qty0, level, tail, qty, done);
    ShrunkStore(side.Opposite(), level.price, level.store, tail, fill);
    IndexAfterFill(index, level.store + tail, own, fill);
    ShrunkKeepsDistinct(level.store + tail, own, fill);
  }

  // ---- The outer loop over levels

  /** Between levels: `levels` is what is left of the opposite side. */
  ghost predicate SweepCore(q0: seq<Order>, id: OrderId, side: Side, price: int, qty0: int,
                            levels: seq<OrderLevel>, qty: int, done: seq<Trade>) {
    && 0 <= qty <= qty0
    && LevelsOk(side.Opposite(), levels)
    && Progress(q0, id, side, price, qty0, Flatten(levels), qty, done)
    && TradedQty(done) >= 0
  }

  ghost predicate SweepState(q0: seq<Order>, id: OrderId, side: Side, price: int, qty0: int,
                             levels: seq<OrderLevel>, own: seq<Order>, index: Index,
                             qty: int, done: seq<Trade>) {
    && SweepCore(q0, id, side, price, qty0, levels, qty, done)
    && AllDistinct(Flatten(levels), own) && IndexOk(index, Flatten(levels), own)
  }

  lemma {:induction false} SweepStarts(levels: seq<OrderLevel>, id: OrderId, side: Side, price: int, qty: int)
    requires LevelsOk(side.Opposite(), levels) && qty >= 0
    ensures SweepCore(Flatten(levels), id, side, price, qty, levels, qty, [])
    ensures Positive(Flatten(levels))
  {
    FlatPositive(side.Opposite(), levels);
    assert forall ts: seq<Trade> :: [] + ts == ts;
  }

  lemma {:induction false} SweepEnters(q0: seq<Order>, id: OrderId, side: Side, price: int, qty0: int,
                    levels: seq<OrderLevel>, qty: int, done: seq<Trade>)
    requires SweepCore(q0, id, side, price, qty0, levels, qty, done) && levels != []
    ensures FillCore(q0, id, side, price, qty0, levels[0], Flatten(levels[1..]), qty, done)
    ensures Positive(Flatten(levels[1..])) && Flatten(levels) == levels[0].store + Flatten(levels[1..])
    ensures levels[0].store != []
  {
    assert LevelOk(side.Opposite(), levels[0]);
    FlatPositive(side.Opposite(), levels[1..]);
  }

  function PutBack(levels: seq<OrderLevel>, level: OrderLevel): seq<OrderLevel>
    requires levels != []
  {
    if level.store == [] then levels[1..] else levels[0 := level]
  }

  lemma {:induction false} SweepLeaves(q0: seq<Order>, id: OrderId, side: Side, price: int, qty0: int,
                    levels: seq<OrderLevel>, level: OrderLevel, qty: int, done: seq<Trade>)
    requires LevelsOk(side.Opposite(), levels) && levels != [] && level.price == levels[0].price
    requires FillCore(q0, id, side, price, qty0, level, Flatten(levels[1..]), qty, done)
    ensures SweepCore(q0, id, side, price, qty0, PutBack(levels, level), qty, done)
    ensures LevelsOk(side.Opposite(), PutBack(levels, level))
    ensures Flatten(PutBack(levels, level)) == level.store + Flatten(levels[1..])
  {
    hide Progress;
    var tail := Flatten(levels[1..]);
    if level.store == [] {
      assert level.store + tail == tail;
    } else {
      var levels' := levels[0 := level];
      assert levels'[1..] == levels[1..];
      assert Flatten(levels') == level.store + tail;
      ReplaceKeepsLevels(side.Opposite(), levels, 0, level);
    }
  }

  lemma {:induction false} SweepEnds(q0: seq<Order>, id: OrderId, side: Side, price: int, qty0: int,
                  levels: seq<OrderLevel>, qty: int, done: seq<Trade>)
    requires SweepCore(q0, id, side, price, qty0, levels, qty, done)
    requires qty == 0 || levels == [] || !Crosses(side, price, levels[0].price)
    ensures Match(q0, id, side, price, qty0) == Matched(Flatten(levels), done, qty)
    ensures LevelsOk(side.Opposite(), levels)
  {
    if levels != [] {
      assert LevelOk(side.Opposite(), levels[0]);
      assert Flatten(levels)[0] == levels[0].store[0];
    }
    assert done + [] == done;
  }

  // ---- Finding an indexed order

  /** The location leads to the level that stores the order, on the side it rests on. */
  lemma {:induction false} FindIndexed(st: State, index: Index, bids: seq<OrderLevel>, asks: seq<OrderLevel>,
                                       id: OrderId)
    requires Inv(st) && LevelsOk(Bid, bids) && LevelsOk(Ask, asks)
    requires st.bids == Flatten(bids) && st.asks == Flatten(asks)
    requires IndexOk(index, st.bids, st.asks) && id in index
    ensures index[id].side == SideOf(st, id) && HasId(st.Orders(index[id].side), id)
    ensures var ls := if index[id].side == Bid then bids else asks;
            var k := LowerBound(index[id].side, ls, index[id].price);
            && k < |ls| && ls[k].price == index[id].price
            && var j := IndexOfId(ls[k].store, id);
            j < |ls[k].store| && ls[k].store[j].id == id
  {
    var side := index[id].side;
    assert HasId(st.bids, id) ==> side == Bid;
    assert HasId(st.asks, id) ==> side == Ask;
    StoredAt(side, if side == Bid then bids else asks, index, id);
  }

  lemma {:induction false} StoredAt(side: Side, ls: seq<OrderLevel>, index: Index, id: OrderId)
    requires LevelsOk(side, ls) && Located(index, Flatten(ls)) && HasId(Flatten(ls), id)
    ensures id in index
    ensures var k := LowerBound(side, ls, index[id].price);
            && k < |ls| && ls[k].price == index[id].price
            && var j := IndexOfId(ls[k].store, id);
            j < |ls[k].store| && ls[k].store[j].id == id
  {
    var i :| 0 <= i < |Flatten(ls)| && Flatten(ls)[i].id == id;
    var k, j := Locate(ls, i);
    assert LevelOk(side, ls[k]);
    OnlyOnePrice(side, ls, k);
    assert HasId(ls[k].store, id);
    WithoutSplits(ls[k].store, id);
  }

  /** The order a location leads to, read out of its level. */
  function OrderAt(ls: seq<OrderLevel>, side: Side, price: Price, id: OrderId): Order
    requires var k := LowerBound(side, ls, price);
             k < |ls| && IndexOfId(ls[k].store, id) < |ls[k].store|
  {
    var store := ls[LowerBound(side, ls, price)].store;
    store[IndexOfId(store, id)]
  }

  /** Taking the order's own quantity off its level is scanning that level without the order. */
  lemma {:induction false} LevelWithoutOwn(side: Side, ls: seq<OrderLevel>, id: OrderId, at: Price, price: Price)
    requires LevelsOk(side, ls) && DistinctIds(Flatten(ls))
    requires var k := LowerBound(side, ls, at);
             && k < |ls| && ls[k].price == at
             && var j := IndexOfId(ls[k].store, id);
             j < |ls[k].store| && ls[k].store[j].id == id
    ensures LevelQty(Without(Flatten(ls), id), price)
              == TotalAt(side, ls, price) - if price == at then OrderAt(ls, side, at, id).qty else 0
  {
    var k := LowerBound(side, ls, at);
    var j := IndexOfId(ls[k].store, id);
    var q := Flatten(ls);
    assert LevelOk(side, ls[k]);
    var i := InFlat(ls, k, j);
    assert HasId(q, id);
    WithoutSplits(q, id);
    assert IndexOfId(q, id) == i;
    FlatPositive(side, ls);
    LevelQtyWithout(q, id, price);
    TotalIsLevelQty(side, ls, price);
  }
}
