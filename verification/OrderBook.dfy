/** The baseline backend: ordered maps of price levels, cached totals and an id index. */
module Baseline {
  import opened Types
  import opened Reference
  import opened Matching
  import opened Invariants
  import opened PriceMap
  import opened Levels
  import opened OrderIndex
  import opened Filling

  class OrderBook {
    var bids: seq<OrderLevel>
    var asks: seq<OrderLevel>
    var index: Index
    var stats: Stats

    ghost function Book(): State
      reads this
    {
      State(Flatten(bids), Flatten(asks), stats)
    }

    ghost predicate Valid()
      reads this
    {
      && LevelsOk(Bid, bids) && LevelsOk(Ask, asks)
      && Inv(Book())
      && IndexOk(index, Flatten(bids), Flatten(asks))
    }

    constructor ()
      ensures Valid() && Book() == EMPTY
    {
      bids, asks, index, stats := [], [], map[], NO_STATS;
    }

    function LevelsOf(side: Side): seq<OrderLevel>
      reads this
    {
      if side == Bid then bids else asks
    }

    method SetLevels(side: Side, ls: seq<OrderLevel>)
      modifies `bids, `asks
      ensures LevelsOf(side) == ls && LevelsOf(side.Opposite()) == old(LevelsOf(side.Opposite()))
    {
      if side == Bid {
        bids := ls;
      } else {
        asks := ls;
      }
    }

    /** The inner loop of a match: trade against the orders of one level, oldest first. */
    method FillLevel(level: OrderLevel, id: OrderId, side: Side, price: Price, qty: Quantity, trades: seq<Trade>,
                     ghost q0: seq<Order>, ghost qty0: int, ghost stats0: Stats, ghost trades0: seq<Trade>,
                     ghost done: seq<Trade>, ghost tail: seq<Order>, ghost own: seq<Order>)
      returns (level': OrderLevel, remaining: Quantity, trades': seq<Trade>, ghost done': seq<Trade>)
      requires FillState(q0, id, side, price, qty0, level, tail, own, index, qty, done) && qty >= 0
      requires Positive(q0) && Positive(tail) && Crosses(side, price, level.price)
      requires 0 <= stats0.tradedQty && stats0.tradedQty + Crossing(q0, side, price, qty0) <= MAX_INT64
      requires trades == trades0 + done && stats == StatsAfter(stats0, done)
      modifies `index, `stats
      ensures FillState(q0, id, side, price, qty0, level', tail, own, index, remaining, done')
      ensures trades' == trades0 + done' && stats == StatsAfter(stats0, done')
      ensures level'.price == level.price && 0 <= remaining && (remaining == 0 || level'.store == [])
    {
      hide FillState;
      level', remaining, trades', done' := level, qty, trades, done;
      while remaining > 0 && level'.store != []
        invariant 0 <= remaining
        invariant FillState(q0, id, side, price, qty0, level', tail, own, index, remaining, done')
        invariant level'.price == level.price
        invariant trades' == trades0 + done' && stats == StatsAfter(stats0, done')
        decreases remaining
      {
        FillTurn(q0, id, side, price, qty0, level', tail, own, index, remaining, done');
        var resting := level'.store[0];
        var fill: Quantity := Min(remaining, resting.qty);
        trades' := trades' + [Trade(resting.id, id, resting.price, fill, side)];
        var tradedQty: Quantity := stats.tradedQty + fill;
        stats := stats.(trades := stats.trades + 1, tradedQty := tradedQty);
        done' := done' + [FillOf(resting, id, side, fill)];

        remaining := remaining - fill;
        if resting.qty == fill {
          index := index - {resting.id};
        }
        level' := LevelAfter(level', fill);
      }
    }

    method MatchIncoming(id: OrderId, side: Side, price: Price, qty: Quantity, trades: seq<Trade>)
      returns (remaining: Quantity, trades': seq<Trade>)
      requires Valid() && qty >= 0
      requires stats.tradedQty + CrossingOf(Book(), side, price, qty) <= MAX_INT64
      modifies this
      ensures Valid() && Book() == Execute(old(Book()), id, side, price, qty, false).state
      ensures var m := Match(old(Book()).Orders(side.Opposite()), id, side, price, qty);
              remaining == m.remaining && trades' == trades + m.trades
    {
      hide FillCore, SweepCore, Inv, Match, Flatten, AllDistinct, IndexOk;
      ghost var before := Book();
      var levels := LevelsOf(side.Opposite());
      ghost var own := Flatten(LevelsOf(side));
      ghost var q0, stats0, done := Flatten(levels), stats, [];
      remaining, trades' := qty, trades;
      InvFacts(before, side);
      IndexSides(index, Flatten(bids), Flatten(asks));
      SweepStarts(levels, id, side, price, qty);
      var i := 0;
      while remaining > 0 && i < |levels| && Crosses(side, price, levels[i].price)
        invariant 0 <= i && 0 <= remaining && (remaining > 0 ==> i == 0)
        invariant LevelsOk(side.Opposite(), levels)
        invariant SweepState(q0, id, side, price, qty, levels, own, index, remaining, done)
        invariant trades' == trades + done && stats == StatsAfter(stats0, done)
        invariant bids == old(bids) && asks == old(asks)
        decreases |levels| - i
      {
        SweepEnters(q0, id, side, price, qty, levels, remaining, done);
        var level: OrderLevel;
        level, remaining, trades', done :=
          FillLevel(levels[i], id, side, price, remaining, trades', q0, qty, stats0, trades, done,
                    Flatten(levels[1..]), own);
        SweepLeaves(q0, id, side, price, qty, levels, level, remaining, done);
        if level.store == [] {
          assert Erase(levels, i) == levels[1..];
          levels := Erase(levels, i);
        } else {
          levels := levels[i := level];
          i := i + 1;
        }
      }
      SweepEnds(q0, id, side, price, qty, levels, remaining, done);
      SetLevels(side.Opposite(), levels);
      IndexSides(index, Flatten(levels), own);
      MatchKeepsInv(before, id, side, price, qty);
    }

    method AddRestingOrder(id: OrderId, side: Side, price: Price, qty: Quantity)
      requires Valid() && !Contains(Book(), id) && qty > 0
      requires LevelQty(Book().Orders(side), price) + qty <= MAX_INT64
      requires var q := Book().Orders(side.Opposite()); q == [] || !Crosses(side, price, q[0].price)
      modifies this
      ensures Valid()
      ensures Book() == old(Book()).WithOrders(side, Insert(old(Book()).Orders(side), Order(id, side, price, qty)))
    {
      hide Inv, Insert, Flatten, LevelsOk, IndexOk, LevelQty;
      ghost var before := Book();
      var o := Order(id, side, price, qty);
      var ls := LevelsOf(side);
      TotalIsLevelQty(side, ls, price);
      PutIsInsert(side, ls, o);
      RestKeepsInv(before, o);
      ghost var other := Flatten(LevelsOf(side.Opposite()));
      IndexSides(index, Flatten(bids), Flatten(asks));
      IndexAfterInsert(index, Flatten(ls), other, o);

      var level := LevelFor(side, ls, price);
      var totalQty: Quantity := level.totalQty + qty;
      SetLevels(side, Put(side, ls, Level(price, totalQty, level.store + [o])));
      index := index[id := Location(side, price)];
      IndexSides(index, Insert(Flatten(ls), o), other);
    }

    method RemoveOrder(id: OrderId, location: Location)
      requires Valid() && id in index && index[id] == location
      modifies this
      ensures Valid() && Book() == Removed(old(Book()), id)
      ensures location.side == SideOf(old(Book()), id)
    {
      hide Inv, Without, Flatten, LevelsOk, IndexOk, IndexOfId;
      ghost var before := Book();
      FindIndexed(before, index, bids, asks, id);
      RemovedKeepsInv(before, id);
      InvFacts(before, location.side);
      ghost var other := Flatten(LevelsOf(location.side.Opposite()));
      IndexSides(index, Flatten(bids), Flatten(asks));

      var ls := LevelsOf(location.side);
      var k := LowerBound(location.side, ls, location.price);
      var j := IndexOfId(ls[k].store, id);
      DropIsWithout(location.side, ls, k, j);
      IndexAfterRemoval(index, Flatten(ls), other, id);
      SetLevels(location.side, DropAt(ls, k, j));
      index := index - {id};
      IndexSides(index, Without(Flatten(ls), id), other);
    }

    /** The cached totals stand in for the reference's scans. */
    lemma {:induction false} TotalsAnswerScans(side: Side, price: Price, qty: int)
      requires Valid() && qty >= 0
      ensures TotalsOk(LevelsOf(side.Opposite()))
      ensures LevelCrossing(LevelsOf(side.Opposite()), side, price, qty) == CrossingOf(Book(), side, price, qty)
      ensures TotalAt(side, LevelsOf(side), price) == LevelQty(Book().Orders(side), price)
      ensures 0 <= CrossingOf(Book(), side, price, qty) <= qty
    {
      LevelCrossingIsCrossing(LevelsOf(side.Opposite()), side, price, qty);
      LevelCrossingBounds(LevelsOf(side.Opposite()), side, price, qty);
      TotalIsLevelQty(side, LevelsOf(side), price);
    }

    /** The common end of an accepted add or modify. */
    method MatchAndRest(id: OrderId, side: Side, price: Price, qty: Quantity, rests: bool, trades: seq<Trade>)
      returns (trades': seq<Trade>)
      requires Valid() && !Contains(Book(), id) && qty > 0
      requires !AddWouldOverflow(stats.tradedQty, CrossingOf(Book(), side, price, qty))
      requires rests ==>
                 !AddWouldOverflow(LevelQty(Book().Orders(side), price), qty - CrossingOf(Book(), side, price, qty))
      modifies this
      ensures Valid()
      ensures var expected := Execute(old(Book()), id, side, price, qty, rests);
              Book() == expected.state && NoError == expected.error && trades' == trades + expected.trades
    {
      hide Inv, Flatten, LevelsOk, IndexOk, Crossing, LevelQty, Match, Insert, HasId;
      ghost var before := Book();
      InvFacts(before, side);
      var remaining;
      remaining, trades' := MatchIncoming(id, side, price, qty, trades);
      if remaining > 0 && rests {
        RestReady(before, id, side, price, qty);
        AddRestingOrder(id, side, price, remaining);
      }
    }

    method AddOrderWithPolicy(e: Event, trades: seq<Trade>) returns (error: BookError, trades': seq<Trade>)
      requires Valid() && e.kind == Add
      modifies this
      ensures Valid()
      ensures var expected := Step(old(Book()), e);
              Book() == expected.state && error == expected.error && trades' == trades + expected.trades
      ensures error != NoError ==> bids == old(bids) && asks == old(asks) && index == old(index)
    {
      hide Inv, Flatten, LevelsOk, IndexOk, Crossing, LevelQty, Match, LevelCrossing, Insert, HasId;
      hide TotalsOk, Positive, AllDistinct, Execute, LowerBound, SumQty, TradedQty, Step, CountReject, CrossingOf;
      trades' := trades;
      AddEnds(Book(), e);
      stats := stats.(addRequests := stats.addRequests + 1);
      ghost var counted := Book();
      InvIgnoresCounts(old(Book()), counted);
      InvFacts(counted, e.side);
      IndexKnows(index, counted.bids, counted.asks, e.id);
      var isMarket := e.orderType == Market;
      if (!isMarket && e.price <= 0) || (isMarket && e.postOnly) {
        RejectRequest();
        return if isMarket && e.postOnly then WouldTakeLiquidity else InvalidPrice, trades;
      }
      if e.qty <= 0 {
        RejectRequest();
        return InvalidQuantity, trades;
      }
      if e.id in index {
        RejectRequest();
        return DuplicateOrderId, trades;
      }
      var price: Price := if !isMarket then e.price else if e.side == Bid then MAX_INT64 else MIN_INT64;
      var timeInForce := if isMarket then ImmediateOrCancel else e.timeInForce;
      TotalsAnswerScans(e.side, price, e.qty);
      var crossingQty := MaxCrossingQty(LevelsOf(e.side.Opposite()), e.side, price, e.qty);
      var restingQty := e.qty - crossingQty;
      var canRest := !isMarket && timeInForce == GoodTilCancel;
      if timeInForce == FillOrKill && crossingQty < e.qty {
        RejectRequest();
        return InsufficientLiquidity, trades;
      }
      if e.postOnly && crossingQty != 0 {
        RejectRequest();
        return WouldTakeLiquidity, trades;
      }
      var levelOverflow := canRest && HasPrice(e.side, LevelsOf(e.side), price)
                           && AddWouldOverflow(TotalAt(e.side, LevelsOf(e.side), price), restingQty);
      if levelOverflow || AddWouldOverflow(stats.tradedQty, crossingQty) {
        RejectRequest();
        return QuantityOverflow, trades;
      }
      trades' := MatchAndRest(e.id, e.side, price, e.qty, timeInForce == GoodTilCancel && !isMarket, trades);
      error := NoError;
    }

    method RejectRequest()
      modifies `stats
      ensures Book() == CountReject(old(Book()))
      ensures old(Valid()) ==> Valid()
    {
      stats := stats.(rejectedRequests := stats.rejectedRequests + 1);
    }

    method AddOrder(id: OrderId, side: Side, price: Price, qty: Quantity, trades: seq<Trade>)
      returns (error: BookError, trades': seq<Trade>)
      requires Valid()
      modifies this
      ensures Valid()
      ensures var expected := Step(old(Book()), LimitAdd(id, side, price, qty));
              Book() == expected.state && error == expected.error && trades' == trades + expected.trades
      ensures error != NoError ==> bids == old(bids) && asks == old(asks) && index == old(index)
    {
      error, trades' := AddOrderWithPolicy(LimitAdd(id, side, price, qty), trades);
    }

    method CancelOrder(id: OrderId) returns (error: BookError)
      requires Valid()
      modifies this
      ensures Valid()
      ensures var expected := CancelStep(old(Book()), id);
              Book() == expected.state && error == expected.error && expected.trades == []
      ensures error != NoError ==> bids == old(bids) && asks == old(asks) && index == old(index)
    {
      hide Inv, Flatten, LevelsOk, IndexOk, HasId, Without;
      stats := stats.(cancelRequests := stats.cancelRequests + 1);
      InvIgnoresCounts(old(Book()), Book());
      IndexKnows(index, Book().bids, Book().asks, id);
      if id !in index {
        RejectRequest();
        return UnknownOrderId;
      }
      RemoveOrder(id, index[id]);
      error := NoError;
    }

    /** What a modify reads before it decides, all of it equal to the reference's scans. */
    lemma {:induction false} ModifyReads(id: OrderId, newPrice: Price, newQty: Quantity)
      requires Valid() && id in index && newQty >= 0
      ensures index[id].side == SideOf(Book(), id) && Contains(Book(), id)
      ensures var side := index[id].side;
              var ls := LevelsOf(side);
              var k := LowerBound(side, ls, index[id].price);
              && k < |ls| && IndexOfId(ls[k].store, id) < |ls[k].store|
              && var own := if index[id].price == newPrice then OrderAt(ls, side, newPrice, id).qty else 0;
              && own >= 0
              && LevelQty(Without(Book().Orders(side), id), newPrice) == TotalAt(side, ls, newPrice) - own >= 0
    {
      FindIndexed(Book(), index, bids, asks, id);
      var side := index[id].side;
      LevelWithoutOwn(side, LevelsOf(side), id, index[id].price, newPrice);
      RemovedKeepsInv(Book(), id);
      LevelQtyBounds(Without(Book().Orders(side), id), newPrice);
      assert LevelOk(side, LevelsOf(side)[LowerBound(side, LevelsOf(side), index[id].price)]);
    }

    method ModifyOrder(e: Event, trades: seq<Trade>) returns (error: BookError, trades': seq<Trade>)
      requires Valid() && e.kind == Modify
      modifies this
      ensures Valid()
      ensures var expected := Step(old(Book()), e);
              Book() == expected.state && error == expected.error && trades' == trades + expected.trades
      ensures error != NoError ==> bids == old(bids) && asks == old(asks) && index == old(index)
    {
      hide Inv, Flatten, LevelsOk, IndexOk, Crossing, LevelQty, Match, LevelCrossing, Insert, HasId, Without,
        TotalsOk, Positive, AllDistinct, Execute, LowerBound, IndexOfId, Step, CountReject, SideOf;
      ModifyEnds(Book(), e);
      stats := stats.(modifyRequests := stats.modifyRequests + 1);
      ghost var counted := Book();
      InvIgnoresCounts(old(Book()), counted);
      IndexKnows(index, counted.bids, counted.asks, e.id);
      if e.id !in index {
        RejectRequest();
        return UnknownOrderId, trades;
      }
      if e.newPrice <= 0 {
        RejectRequest();
        return InvalidPrice, trades;
      }
      if e.newQty <= 0 {
        RejectRequest();
        return InvalidQuantity, trades;
      }
      ModifyReads(e.id, e.newPrice, e.newQty);
      var location := index[e.id];
      var side := location.side;
      var existingLevelQty: Quantity := 0;
      if HasPrice(side, LevelsOf(side), e.newPrice) {
        existingLevelQty := TotalAt(side, LevelsOf(side), e.newPrice);
        if location.price == e.newPrice {
          existingLevelQty := existingLevelQty - OrderAt(LevelsOf(side), side, e.newPrice, e.id).qty;
        }
      }
      TotalsAnswerScans(side, e.newPrice, e.newQty);
      var crossingQty := MaxCrossingQty(LevelsOf(side.Opposite()), side, e.newPrice, e.newQty);
      var restingQty := e.newQty - crossingQty;
      if AddWouldOverflow(existingLevelQty, restingQty) || AddWouldOverflow(stats.tradedQty, crossingQty) {
        RejectRequest();
        return QuantityOverflow, trades;
      }
      RemoveOrder(e.id, location);
      RemovedKeepsInv(counted, e.id);
      trades' := MatchAndRest(e.id, side, e.newPrice, e.newQty, true, trades);
      error := NoError;
    }

    method Process(e: Event, trades: seq<Trade>) returns (error: BookError, trades': seq<Trade>)
      requires Valid()
      modifies this
      ensures Valid()
      ensures var expected := Step(old(Book()), e);
              Book() == expected.state && error == expected.error && trades' == trades + expected.trades
      ensures error != NoError ==> bids == old(bids) && asks == old(asks) && index == old(index)
    {
      hide Inv, Flatten, LevelsOk, IndexOk, AddWith, ModifyWith, AddError, ModifyError, CancelStep;
      match e.kind {
        case Add => error, trades' := AddOrderWithPolicy(e, trades);
        case Cancel =>
          error := CancelOrder(e.id);
          trades' := trades;
        case Modify => error, trades' := ModifyOrder(e, trades);
      }
    }

    function LiveOrderCount(): (n: nat)
      requires Valid()
      reads this
      ensures n == |Book().bids| + |Book().asks|
    {
      hide LevelsOk;
      InvFacts(Book(), Bid);
      IndexCounts(index, Flatten(bids), Flatten(asks));
      |index|
    }

    /** Walks the levels best price first and each level oldest first. */
    method Orders(side: Side) returns (snapshots: seq<Order>)
      requires Valid()
      ensures snapshots == Book().Orders(side)
    {
      var ls := LevelsOf(side);
      snapshots := [];
      for i := 0 to |ls|
        invariant snapshots == Flatten(ls[..i])
      {
        FlattenAppend(ls[..i], [ls[i]]);
        assert ls[..i + 1] == ls[..i] + [ls[i]];
        FlattenMid(ls[..i], ls[i], []);
        snapshots := snapshots + ls[i].store;
      }
      assert ls[..|ls|] == ls;
    }
  }
}
