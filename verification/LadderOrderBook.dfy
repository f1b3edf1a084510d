/** One turn of the ladder's matching loop. */
module LadderFilling {
  import opened Types
  import opened Reference
  import opened Matching
  import opened Invariants
  import opened PriceMap
  import opened Levels
  import opened OrderIndex
  import opened Filling
  import opened Bits
  import opened Bitmap
  import opened LadderLevels

  ghost predicate IsBest(ls: seq<OrderLevel>, side: Side, i: nat) {
    && i < |ls| && Held(ls[i], side)
    && forall j :: 0 <= j < |ls| && Held(ls[j], side) ==> (if side == Ask then i <= j else j <= i)
  }

  /** Writing back a level after its orders were consumed from the front. */
  lemma {:induction false} WriteBack(ls: seq<OrderLevel>, minPrice: Price, side: Side, i: nat, l: OrderLevel)
    requires LadderOk(ls, minPrice) && IsBest(ls, side, i)
    requires l.price == ls[i].price && StoreOk(side, l.price, l.store) && l.totalQty == SumQty(l.store)
    ensures LadderOk(ls[i := l], minPrice)
    ensures Walk(ls, side) != [] && Walk(ls, side)[0] == ls[i]
    ensures Walk(ls[i := l], side) == PutBack(Walk(ls, side), l)
    ensures Walk(ls[i := l], side.Opposite()) == Walk(ls, side.Opposite())
    ensures HeldSet(ls[i := l], side) == if l.store == [] then HeldSet(ls, side) - {i} else HeldSet(ls, side)
    ensures HeldSet(ls[i := l], side.Opposite()) == HeldSet(ls, side.Opposite())
  {
    hide Walk, Behind;
    WalkBest(ls, side, i);
    WalkUntouched(ls, side.Opposite(), i, l);
    var rest := Behind(ls, side, i);
    assert ([ls[i]] + rest)[1..] == rest;
    assert ([ls[i]] + rest)[0 := l] == [l] + rest;
    if l.store == [] {
      assert Here(l, side) + rest == rest;
    } else {
      assert Held(l, side) && Here(l, side) == [l];
      assert Walk(ls[i := l], side) == [l] + rest;
    }
  }

  lemma {:induction false} NoneHeld(ls: seq<OrderLevel>, side: Side)
    requires HeldSet(ls, side) == {}
    ensures Walk(ls, side) == []
  {
    forall i | 0 <= i < |ls| ensures !Held(ls[i], side) {
      assert i !in HeldSet(ls, side);
    }
    WalkNone(ls, side);
  }

  lemma {:induction false} BestOfSet(ls: seq<OrderLevel>, side: Side, i: nat)
    requires i in HeldSet(ls, side)
    requires forall j :: j in HeldSet(ls, side) ==> (if side == Ask then i <= j else j <= i)
    ensures IsBest(ls, side, i)
  {
    forall j | 0 <= j < |ls| && Held(ls[j], side) ensures if side == Ask then i <= j else j <= i {
      assert j in HeldSet(ls, side);
    }
  }
}

/** The ladder backend: one array of price levels shared by both sides, found through bitmaps. */
module Ladder {
  import opened Types
  import opened Reference
  import opened Matching
  import opened Invariants
  import opened PriceMap
  import opened Levels
  import opened OrderIndex
  import opened Filling
  import opened Bits
  import opened Bitmap
  import opened LadderLevels
  import opened LadderScan
  import opened LadderFilling
  import opened RungRecount
  import opened LadderRecount
  import opened LadderSpec

  datatype Option<T> = None | Some(value: T)

  class LadderOrderBook {
    const minPrice: Price
    const maxPrice: Price
    var levels: seq<OrderLevel>
    var bidOccupied: seq<Word>
    var askOccupied: seq<Word>
    var bidWordOccupied: seq<Word>
    var askWordOccupied: seq<Word>
    var index: Index
    var stats: Stats

    ghost function Book(): State
      reads this
    {
      State(Flatten(Walk(levels, Bid)), Flatten(Walk(levels, Ask)), stats)
    }

    ghost predicate Shaped()
      reads `levels, `bidOccupied, `askOccupied, `bidWordOccupied, `askWordOccupied
    {
      && 0 <= minPrice <= maxPrice && |levels| == maxPrice - minPrice + 1
      && LadderOk(levels, minPrice)
      && Marks(bidOccupied, bidWordOccupied, |levels|, HeldSet(levels, Bid))
      && Marks(askOccupied, askWordOccupied, |levels|, HeldSet(levels, Ask))
    }

    ghost predicate Valid()
      reads this
    {
      && Shaped()
      && Inv(Book())
      && IndexOk(index, Book().bids, Book().asks)
    }

    constructor (minPrice: Price, maxPrice: Price)
      requires 0 <= minPrice <= maxPrice && maxPrice - minPrice < MAX_INT64
      ensures Valid() && Book() == EMPTY && this.minPrice == minPrice && this.maxPrice == maxPrice
    {
      hide Walk, Flatten, LadderOk, HeldSet, Marks, Inv, IndexOk, Words, BlankLevels, BlankWords;
      this.minPrice, this.maxPrice := minPrice, maxPrice;
      var count := maxPrice - minPrice + 1;
      levels := BlankLevels(minPrice, count);
      var words := Words(count);
      bidOccupied, askOccupied := BlankWords(words), BlankWords(words);
      bidWordOccupied, askWordOccupied := BlankWords(Words(words)), BlankWords(Words(words));
      index, stats := map[], NO_STATS;
      new;
      BlankLadder(minPrice, count);
      NoOrders();
    }

    /** A range that is negative or upside down is refused. */
    static method Create(minPrice: Price, maxPrice: Price) returns (book: LadderOrderBook?)
      requires 0 <= minPrice <= maxPrice ==> maxPrice - minPrice < MAX_INT64
      ensures book == null <==> minPrice < 0 || maxPrice < minPrice
      ensures book != null ==> fresh(book) && book.Valid() && book.Book() == EMPTY
                               && book.minPrice == minPrice && book.maxPrice == maxPrice
    {
      if minPrice < 0 || maxPrice < minPrice {
        return null;
      }
      book := new LadderOrderBook(minPrice, maxPrice);
    }

    function IndexFor(price: Price): nat
      requires minPrice <= price
    {
      price - minPrice
    }

    method SetOccupied(side: Side, i: nat, ghost held: set<nat>)
      requires i < |levels|
      requires side == Bid ==> Marks(bidOccupied, bidWordOccupied, |levels|, held)
      requires side == Ask ==> Marks(askOccupied, askWordOccupied, |levels|, held)
      modifies `bidOccupied, `askOccupied, `bidWordOccupied, `askWordOccupied
      ensures side == Bid ==> Marks(bidOccupied, bidWordOccupied, |levels|, held + {i})
                              && askOccupied == old(askOccupied) && askWordOccupied == old(askWordOccupied)
      ensures side == Ask ==> Marks(askOccupied, askWordOccupied, |levels|, held + {i})
                              && bidOccupied == old(bidOccupied) && bidWordOccupied == old(bidWordOccupied)
    {
      hide Marks, BitAt, SetAt;
      if side == Bid {
        MarkAdds(bidOccupied, bidWordOccupied, |levels|, held, i);
        if !BitAt(bidOccupied, i) {
          bidWordOccupied := SetAt(bidWordOccupied, i / 64);
        }
        bidOccupied := SetAt(bidOccupied, i);
      } else {
        MarkAdds(askOccupied, askWordOccupied, |levels|, held, i);
        if !BitAt(askOccupied, i) {
          askWordOccupied := SetAt(askWordOccupied, i / 64);
        }
        askOccupied := SetAt(askOccupied, i);
      }
    }

    method ClearOccupied(side: Side, i: nat, ghost held: set<nat>)
      requires i in held
      requires side == Bid ==> Marks(bidOccupied, bidWordOccupied, |levels|, held)
      requires side == Ask ==> Marks(askOccupied, askWordOccupied, |levels|, held)
      modifies `bidOccupied, `askOccupied, `bidWordOccupied, `askWordOccupied
      ensures side == Bid ==> Marks(bidOccupied, bidWordOccupied, |levels|, held - {i})
                              && askOccupied == old(askOccupied) && askWordOccupied == old(askWordOccupied)
      ensures side == Ask ==> Marks(askOccupied, askWordOccupied, |levels|, held - {i})
                              && bidOccupied == old(bidOccupied) && bidWordOccupied == old(bidWordOccupied)
    {
      hide Marks;
      if side == Bid {
        MarkRemoves(bidOccupied, bidWordOccupied, |levels|, held, i);
        bidOccupied := ClearAt(bidOccupied, i);
        if bidOccupied[i / 64] == 0 {
          bidWordOccupied := ClearAt(bidWordOccupied, i / 64);
        }
      } else {
        MarkRemoves(askOccupied, askWordOccupied, |levels|, held, i);
        askOccupied := ClearAt(askOccupied, i);
        if askOccupied[i / 64] == 0 {
          askWordOccupied := ClearAt(askWordOccupied, i / 64);
        }
      }
    }

    /** The best occupied index of a side: the lowest ask or the highest bid. */
    method BestIndex(side: Side) returns (best: Option<nat>)
      requires Shaped()
      ensures best == None <==> HeldSet(levels, side) == {}
      ensures best.Some? ==> IsBest(levels, side, best.value)
    {
      var occupied := if side == Bid then bidOccupied else askOccupied;
      var words := if side == Bid then bidWordOccupied else askWordOccupied;
      ghost var held := HeldSet(levels, side);
      hide Marks, Bit, Lowest, Highest, LadderOk;
      if side == Ask {
        var word := 0;
        while word < |words|
          invariant 0 <= word <= |words| && forall w :: 0 <= w < word ==> words[w] == 0
        {
          if words[word] != 0 {
            LowestUnderIsLeast(occupied, words, |levels|, held, word);
            var occupiedWord := word * 64 + Lowest(words[word]);
            var i := occupiedWord * 64 + Lowest(occupied[occupiedWord]);
            forall j | j in held ensures i <= j {
              ZeroSummary(occupied, words, |levels|, held, j);
            }
            BestOfSet(levels, side, i);
            return Some(i);
          }
          word := word + 1;
        }
        EmptySummary(occupied, words, |levels|, held);
        return None;
      }
      var word := |words|;
      while word > 0
        invariant 0 <= word <= |words| && forall w :: word <= w < |words| ==> words[w] == 0
      {
        if words[word - 1] != 0 {
          HighestUnderIsGreatest(occupied, words, |levels|, held, word - 1);
          var occupiedWord := (word - 1) * 64 + Highest(words[word - 1]);
          var i := occupiedWord * 64 + Highest(occupied[occupiedWord]);
          forall j | j in held ensures j <= i {
            ZeroSummary(occupied, words, |levels|, held, j);
          }
          BestOfSet(levels, side, i);
          return Some(i);
        }
        word := word - 1;
      }
      EmptySummary(occupied, words, |levels|, held);
      best := None;
    }

    /** The inner loop of a match: trade against the orders of one level, oldest first. */
    method FillLevel(level: OrderLevel, id: OrderId, side: Side, price: Price, qty: Quantity, trades: seq<Trade>,
                     ghost q0: seq<Order>, ghost qty0: int, ghost stats0: Stats, ghost trades0: seq<Trade>,
                     ghost done: seq<Trade>, ghost tail: seq<Order>, ghost own: seq<Order>)
      returns (level': OrderLevel, remaining: Quantity, trades': seq<Trade>, ghost done': seq<Trade>)
      requires FillState(q0, id, side, price, qty0, level, tail, own, index, qty, done) && qty >= 0
      requires Positive(q0) && Positive(tail) && Crosses(side, price, level.price)
      requires 0 <= stats0.tradedQty && stats0.tradedQty + Crossing(q0, side, price, qty0) <= MAX_INT64
      requires trades == trades0 + done && stats == StatsAfter(stats0, done)
      modifies `index, `stats
      ensures FillState(q0, id, side, price, qty0, level', tail, own, index, remaining, done')
      ensures trades' == trades0 + done' && stats == StatsAfter(stats0, done')
      ensures level'.price == level.price && 0 <= remaining && (remaining == 0 || level'.store == [])
    {
      hide FillState;
      level', remaining, trades', done' := level, qty, trades, done;
      while remaining > 0 && level'.store != []
        invariant 0 <= remaining
        invariant FillState(q0, id, side, price, qty0, level', tail, own, index, remaining, done')
        invariant level'.price == level.price
        invariant trades' == trades0 + done' && stats == StatsAfter(stats0, done')
        decreases remaining
      {
        FillTurn(q0, id, side, price, qty0, level', tail, own, index, remaining, done');
        var resting := level'.store[0];
        var fill: Quantity := Min(remaining, resting.qty);
        trades' := trades' + [Trade(resting.id, id, resting.price, fill, side)];
        var tradedQty: Quantity := stats.tradedQty + fill;
        stats := stats.(trades := stats.trades + 1, tradedQty := tradedQty);
        done' := done' + [FillOf(resting, id, side, fill)];

        remaining := remaining - fill;
        if resting.qty == fill {
          index := index - {resting.id};
        }
        level' := LevelAfter(level', fill);
      }
    }

    method MatchIncoming(id: OrderId, side: Side, price: Price, qty: Quantity, trades: seq<Trade>)
      returns (remaining: Quantity, trades': seq<Trade>)
      requires Valid() && qty >= 0
      requires stats.tradedQty + CrossingOf(Book(), side, price, qty) <= MAX_INT64
      modifies this
      ensures Valid() && Book() == Execute(old(Book()), id, side, price, qty, false).state
      ensures var m := Match(old(Book()).Orders(side.Opposite()), id, side, price, qty);
              remaining == m.remaining && trades' == trades + m.trades
    {
      hide FillCore, SweepCore, Inv, Match, Flatten, AllDistinct, IndexOk, Walk, LadderOk, Marks, IsBest;
      hide HeldSet, PutBack;
      var resting := side.Opposite();
      ghost var before := Book();
      ghost var ownWalk, ownSet := Walk(levels, side), HeldSet(levels, side);
      ghost var own := Flatten(ownWalk);
      ghost var q0, stats0, done := Flatten(Walk(levels, resting)), stats, [];
      remaining, trades' := qty, trades;
      InvFacts(before, side);
      IndexSides(index, before.bids, before.asks);
      LadderWalk(levels, minPrice, resting);
      SweepStarts(Walk(levels, resting), id, side, price, qty);
      while remaining > 0
        invariant 0 <= remaining && Shaped()
        invariant Walk(levels, side) == ownWalk && HeldSet(levels, side) == ownSet
        invariant LevelsOk(resting, Walk(levels, resting))
        invariant SweepState(q0, id, side, price, qty, Walk(levels, resting), own, index, remaining, done)
        invariant trades' == trades + done && stats == StatsAfter(stats0, done)
        decreases |Walk(levels, resting)|, remaining
      {
        var best := BestIndex(resting);
        if best == None {
          NoneHeld(levels, resting);
          break;
        }
        var i := best.value;
        BestLeads(levels, minPrice, resting, i);
        if !Crosses(side, price, levels[i].price) {
          break;
        }
        ghost var walk := Walk(levels, resting);
        ghost var held := HeldSet(levels, resting);
        SweepEnters(q0, id, side, price, qty, walk, remaining, done);
        var level: OrderLevel;
        level, remaining, trades', done :=
          FillLevel(levels[i], id, side, price, remaining, trades', q0, qty, stats0, trades, done,
                    Flatten(walk[1..]), own);
        SweepLeaves(q0, id, side, price, qty, walk, level, remaining, done);
        FillLeaves(q0, id, side, price, qty, level, Flatten(walk[1..]), own, index, remaining, done);
        WriteBack(levels, minPrice, resting, i, level);
        PutBackShorter(walk, level);
        levels := levels[i := level];
        if level.store == [] {
          ClearOccupied(resting, i, held);
        }
      }
      SweepEnds(q0, id, side, price, qty, Walk(levels, resting), remaining, done);
      IndexSides(index, Flatten(Walk(levels, resting)), own);
      MatchKeepsInv(before, id, side, price, qty);
    }

    predicate InRange(price: Price) {
      minPrice <= price <= maxPrice
    }

    method AddRestingOrder(id: OrderId, side: Side, price: Price, qty: Quantity)
      requires Valid() && !Contains(Book(), id) && qty > 0 && InRange(price)
      requires LevelQty(Book().Orders(side), price) + qty <= MAX_INT64
      requires var q := Book().Orders(side.Opposite()); q == [] || !Crosses(side, price, q[0].price)
      modifies this
      ensures Valid()
      ensures Book() == old(Book()).WithOrders(side, Insert(old(Book()).Orders(side), Order(id, side, price, qty)))
    {
      hide Inv, Insert, Flatten, LevelsOk, IndexOk, LevelQty, Walk, LadderOk, Marks, HeldSet, HasId;
      ghost var before := Book();
      ghost var held := HeldSet(levels, side);
      var o := Order(id, side, price, qty);
      var i := IndexFor(price);
      ghost var l := RestFacts(o);
      IndexSides(index, before.bids, before.asks);
      IndexAfterInsert(index, before.Orders(side), before.Orders(side.Opposite()), o);

      var totalQty: Quantity := levels[i].totalQty + qty;
      levels := levels[i := Level(price, totalQty, levels[i].store + [o])];
      assert levels[i] == l;
      index := index[id := Location(side, price)];
      SetOccupied(side, i, held);
      IndexSides(index, Insert(before.Orders(side), o), before.Orders(side.Opposite()));
    }

    /** The slot an order comes to rest in has its price and room for its quantity. */
    lemma {:induction false} RestRoom(o: Order)
      requires Valid() && 0 < o.qty && InRange(o.price)
      requires LevelQty(Book().Orders(o.side), o.price) + o.qty <= MAX_INT64
      requires !Held(levels[IndexFor(o.price)], o.side.Opposite())
      ensures var l := levels[IndexFor(o.price)];
              && l.price == o.price && 0 <= l.totalQty && l.totalQty + o.qty <= MAX_INT64
              && StoreOk(o.side, l.price, l.store) && l.totalQty == SumQty(l.store)
              && l.totalQty == TotalAt(o.side, Walk(levels, o.side), o.price)
    {
      hide Inv, Insert, Flatten, IndexOk, LevelQty, Walk, Marks, LevelsOk;
      var i := IndexFor(o.price);
      LadderWalk(levels, minPrice, o.side);
      TotalIsLevelQty(o.side, Walk(levels, o.side), o.price);
      WalkFinds(levels, minPrice, o.side, i);
      RungTotal(levels, minPrice, i);
    }

    /** Resting an order on its slot is inserting it; `l` is the slot's level with the order appended. */
    lemma {:induction false} RestFacts(o: Order) returns (l: OrderLevel)
      requires Valid() && !Contains(Book(), o.id) && 0 < o.qty && InRange(o.price)
      requires LevelQty(Book().Orders(o.side), o.price) + o.qty <= MAX_INT64
      requires var q := Book().Orders(o.side.Opposite()); q == [] || !Crosses(o.side, o.price, q[0].price)
      ensures var i := IndexFor(o.price); var own, opposite := o.side, o.side.Opposite();
              && l.price == o.price == levels[i].price && l.store == levels[i].store + [o]
              && 0 <= levels[i].totalQty && l.totalQty == levels[i].totalQty + o.qty
              && var levels' := levels[i := l];
              && LadderOk(levels', minPrice)
              && Flatten(Walk(levels', own)) == Insert(Book().Orders(own), o)
              && Flatten(Walk(levels', opposite)) == Book().Orders(opposite)
              && HeldSet(levels', own) == HeldSet(levels, own) + {i}
              && HeldSet(levels', opposite) == HeldSet(levels, opposite)
      ensures Inv(Book().WithOrders(o.side, Insert(Book().Orders(o.side), o)))
    {
      hide Inv, Insert, Flatten, IndexOk, LevelQty, Walk, Marks, HasId, LevelsOk, StoreOk, LadderOk, Crosses;
      var i := IndexFor(o.price);
      var walk := Walk(levels, o.side);
      SlotNotOpposite(Book(), o);
      RestRoom(o);
      LadderWalk(levels, minPrice, o.side);
      LadderWalk(levels, minPrice, o.side.Opposite());
      WalkFinds(levels, minPrice, o.side, i);
      PutIsInsert(o.side, walk, o);
      AppendedOk(o.side, levels[i], o);
      l := Appended(levels[i], o);
      assert Held(l, o.side);
      WriteKeepsLadder(levels, minPrice, o.side, i, l);
      WalkPut(levels, minPrice, o.side, i, l);
      WalkUntouched(levels, o.side.Opposite(), i, l);
      RestKeepsInv(Book(), o);
    }

    /** In an uncrossed book the slot an order comes to rest in is empty or already on its side. */
    lemma {:induction false} SlotNotOpposite(st: State, o: Order)
      requires Valid() && st == Book() && InRange(o.price)
      requires var q := st.Orders(o.side.Opposite()); q == [] || !Crosses(o.side, o.price, q[0].price)
      ensures !Held(levels[IndexFor(o.price)], o.side.Opposite())
    {
      hide Inv, Flatten, IndexOk, Walk, Marks;
      var i := IndexFor(o.price);
      var opposite := o.side.Opposite();
      NoneCross(st, o.side, o.price);
      if Held(levels[i], opposite) {
        WalkFinds(levels, minPrice, opposite, i);
        WalkAround(levels, opposite, i);
        var walk := Walk(levels, opposite);
        var n := |Before(levels, opposite, i)|;
        assert walk[n] == levels[i];
        var k := InFlat(walk, n, 0);
      }
    }

    method RemoveOrder(id: OrderId, location: Location)
      requires Valid() && id in index && index[id] == location
      modifies this
      ensures Valid() && Book() == Removed(old(Book()), id)
      ensures location.side == SideOf(old(Book()), id)
    {
      hide Inv, Flatten, LevelsOk, IndexOk, Walk, LadderOk, Marks, HeldSet, HasId, Without, IndexOfId;
      ghost var before := Book();
      var side := location.side;
      ghost var held := HeldSet(levels, side);
      RemoveFacts(id);
      IndexSides(index, before.bids, before.asks);
      InvFacts(before, side);
      IndexAfterRemoval(index, before.Orders(side), before.Orders(side.Opposite()), id);

      var i := IndexFor(location.price);
      var level := levels[i];
      var j := IndexOfId(level.store, id);
      var totalQty: Quantity := level.totalQty - level.store[j].qty;
      var store := level.store[..j] + level.store[j + 1..];
      levels := levels[i := Level(level.price, totalQty, store)];
      if store == [] {
        ClearOccupied(side, i, held);
      }
      index := index - {id};
      IndexSides(index, Without(before.Orders(side), id), before.Orders(side.Opposite()));
    }

    lemma {:induction false} RemoveFacts(id: OrderId)
      requires Valid() && id in index
      ensures var side := index[id].side;
              && side == SideOf(Book(), id) && HasId(Book().Orders(side), id) && InRange(index[id].price)
              && var i := IndexFor(index[id].price); var level := levels[i]; var j := IndexOfId(level.store, id);
              && Held(level, side) && j < |level.store| && level.store[j].id == id && i in HeldSet(levels, side)
              && 0 <= level.store[j].qty && 0 <= level.totalQty - level.store[j].qty <= MAX_INT64
              && var store := level.store[..j] + level.store[j + 1..];
              && var levels' := levels[i := Level(level.price, level.totalQty - level.store[j].qty, store)];
              && LadderOk(levels', minPrice)
              && Flatten(Walk(levels', side)) == Without(Book().Orders(side), id)
              && Flatten(Walk(levels', side.Opposite())) == Book().Orders(side.Opposite())
              && HeldSet(levels', side) == (if store == [] then HeldSet(levels, side) - {i} else HeldSet(levels, side))
              && HeldSet(levels', side.Opposite()) == HeldSet(levels, side.Opposite())
      ensures Inv(Removed(Book(), id))
    {
      hide Inv, Flatten, IndexOk, Walk, Marks, LevelsOk, HasId, Without, IndexOfId, LowerBound, SideOf, HeldSet, RungOk;
      LadderWalk(levels, minPrice, Bid);
      LadderWalk(levels, minPrice, Ask);
      FindIndexed(Book(), index, Walk(levels, Bid), Walk(levels, Ask), id);
      RemovedKeepsInv(Book(), id);
      var side := index[id].side;
      var n := LowerBound(side, Walk(levels, side), index[id].price);
      var i := WalkSource(levels, side, n);
      DistinctSide(Book(), side);
      RungLosesOrder(levels, minPrice, side, i, IndexOfId(levels[i].store, id));
    }

    method MaxCrossingQty(side: Side, price: Price, qty: Quantity) returns (crossing: Quantity)
      requires Valid() && qty >= 0
      ensures crossing == Counted(Book(), minPrice, maxPrice, side, price, qty) && 0 <= crossing <= qty
    {
      hide Walk, Flatten, Marks, LadderOk, Recount, LevelsOk, TopExists, BlockRecount, Rungs, Inv, IndexOk, BidTotals;
      if side == Bid {
        LadderWalk(levels, minPrice, Ask);
        crossing := ScanAsks(levels, minPrice, askOccupied, askWordOccupied, price, qty);
        LevelCrossingIsCrossing(Walk(levels, Ask), Bid, price, qty);
        LevelCrossingBounds(Walk(levels, Ask), Bid, price, qty);
      } else {
        TopsExist(levels, bidOccupied, bidWordOccupied);
        crossing := ScanBids(levels, minPrice, bidOccupied, bidWordOccupied, price, qty);
        RecountBounds(levels, minPrice, bidOccupied, bidWordOccupied, price, |bidWordOccupied|);
        RecountIsBlocks(levels, minPrice, bidOccupied, bidWordOccupied, price, |bidWordOccupied|);
        BidTotalsAreRungs(levels, minPrice);
        SummaryLength(bidOccupied, bidWordOccupied, |levels|, HeldSet(levels, Bid));
      }
    }

    /** The total cached at a price slot, whichever side holds it. */
    function SlotTotal(price: Price): Quantity
      requires |levels| == maxPrice - minPrice + 1
      reads `levels
    {
      if InRange(price) then levels[IndexFor(price)].totalQty else 0
    }

    lemma {:induction false} SlotIsSeen(price: Price)
      requires Valid()
      ensures |levels| == maxPrice - minPrice + 1 && SlotTotal(price) == SlotSeen(Book(), minPrice, maxPrice, price)
    {
      hide Inv, Flatten, Marks, IndexOk, Walk, LevelQty, LevelsOk;
      if InRange(price) {
        var i := IndexFor(price);
        LadderWalk(levels, minPrice, Bid);
        LadderWalk(levels, minPrice, Ask);
        WalkFinds(levels, minPrice, Bid, i);
        WalkFinds(levels, minPrice, Ask, i);
        TotalIsLevelQty(Bid, Walk(levels, Bid), price);
        TotalIsLevelQty(Ask, Walk(levels, Ask), price);
        assert RungOk(levels[i]);
      }
    }

    /** The common end of an accepted add or modify. */
    method MatchAndRest(id: OrderId, side: Side, price: Price, qty: Quantity, rests: bool, trades: seq<Trade>)
      returns (trades': seq<Trade>)
      requires Valid() && !Contains(Book(), id) && qty > 0 && InRange(price)
      requires !AddWouldOverflow(stats.tradedQty, CrossingOf(Book(), side, price, qty))
      requires rests ==>
                 !AddWouldOverflow(LevelQty(Book().Orders(side), price), qty - CrossingOf(Book(), side, price, qty))
      modifies this
      ensures Valid()
      ensures var expected := Execute(old(Book()), id, side, price, qty, rests);
              Book() == expected.state && NoError == expected.error && trades' == trades + expected.trades
    {
      hide Inv, Flatten, Shaped, IndexOk, Crossing, LevelQty, Match, Insert, HasId, Walk;
      ghost var before := Book();
      InvFacts(before, side);
      var remaining;
      remaining, trades' := MatchIncoming(id, side, price, qty, trades);
      if remaining > 0 && rests {
        RestReady(before, id, side, price, qty);
        AddRestingOrder(id, side, price, remaining);
      }
    }

    method RejectRequest()
      requires Valid()
      modifies `stats
      ensures Valid() && Book() == CountReject(old(Book()))
    {
      hide Shaped, Flatten, Walk;
      stats := stats.(rejectedRequests := stats.rejectedRequests + 1);
    }

    method CountAddRequest()
      requires Valid()
      modifies `stats
      ensures Valid() && Book() == CountAdd(old(Book()))
    {
      hide Shaped, Flatten, Walk;
      stats := stats.(addRequests := stats.addRequests + 1);
    }

    method CountCancelRequest()
      requires Valid()
      modifies `stats
      ensures Valid() && Book() == CountCancel(old(Book()))
    {
      hide Shaped, Flatten, Walk;
      stats := stats.(cancelRequests := stats.cancelRequests + 1);
    }

    method CountModifyRequest()
      requires Valid()
      modifies `stats
      ensures Valid() && Book() == CountModify(old(Book()))
    {
      hide Shaped, Flatten, Walk;
      stats := stats.(modifyRequests := stats.modifyRequests + 1);
    }

    lemma {:induction false} IndexAnswers(id: OrderId)
      requires Valid()
      ensures id in index <==> Contains(Book(), id)
      ensures Book().stats == stats && Inv(Book()) && 0 <= stats.tradedQty <= MAX_INT64 && Shaped()
    {
      hide Shaped, Flatten, Walk, HasId;
      IndexKnows(index, Book().bids, Book().asks, id);
      InvFacts(Book(), Bid);
    }

    lemma {:induction false} SideOnRungs(side: Side)
      requires Valid()
      ensures var q := Book().Orders(side); forall i :: 0 <= i < |q| ==> minPrice <= q[i].price <= maxPrice
    {
      hide Inv, Marks, IndexOk;
      var q := Book().Orders(side);
      OnLadder(levels, minPrice, side);
      assert q == Flatten(Walk(levels, side));
      assert forall i :: 0 <= i < |q| ==> minPrice <= q[i].price < minPrice + |levels|;
    }

    /** Every resting price lies on the ladder. */
    lemma {:induction false} BookOnRungs()
      requires Valid()
      ensures OnRungs(Book(), minPrice, maxPrice)
    {
      hide Valid, Book, Shaped, Inv;
      SideOnRungs(Bid);
      SideOnRungs(Ask);
      RangeOk();
      IndexAnswers(0);
      assert Book().Orders(Bid) == Book().bids && Book().Orders(Ask) == Book().asks;
    }

    method AddOrderWithPolicy(e: Event, trades: seq<Trade>) returns (error: BookError, trades': seq<Trade>)
      requires Valid() && e.kind == Add
      requires !Unsafe(Book(), minPrice, maxPrice, e)
      modifies this
      ensures Valid()
      ensures var expected := LadderStep(old(Book()), minPrice, maxPrice, e);
              Book() == expected.state && error == expected.error && trades' == trades + expected.trades
      ensures error != NoError ==>
                && levels == old(levels) && index == old(index) && bidOccupied == old(bidOccupied)
                && askOccupied == old(askOccupied) && bidWordOccupied == old(bidWordOccupied)
                && askWordOccupied == old(askWordOccupied)
    {
      hide Valid, Book, Shaped, Inv, Crossing, LevelQty, HasId, Recounted, Match, Insert, SlotSeen, OnRungs;
      trades' := trades;
      ghost var before := Book();
      IndexAnswers(e.id);
      RangeOk();
      CountAddRequest();
      IndexAnswers(e.id);
      var isMarket := e.orderType == Market;
      if (!isMarket && !InRange(e.price)) || (isMarket && e.postOnly) {
        RejectRequest();
        error := if isMarket && e.postOnly then WouldTakeLiquidity
                 else if e.price > 0 then PriceOutOfRange else InvalidPrice;
        return;
      }
      if e.qty <= 0 {
        RejectRequest();
        return InvalidQuantity, trades;
      }
      if e.id in index {
        RejectRequest();
        return DuplicateOrderId, trades;
      }
      RangeOk();
      var price := if !isMarket then e.price else if e.side == Bid then maxPrice else minPrice;
      var timeInForce := if isMarket then ImmediateOrCancel else e.timeInForce;
      CountsAside(before, Book(), minPrice, maxPrice, e.side, price, e.qty);
      var crossingQty := MaxCrossingQty(e.side, price, e.qty);
      var restingQty := e.qty - crossingQty;
      var canRest := !isMarket && timeInForce == GoodTilCancel;
      if timeInForce == FillOrKill && crossingQty < e.qty {
        RejectRequest();
        return InsufficientLiquidity, trades;
      }
      if e.postOnly && crossingQty != 0 {
        RejectRequest();
        return WouldTakeLiquidity, trades;
      }
      SlotIsSeen(price);
      var levelOverflow := canRest && AddWouldOverflow(SlotTotal(price), restingQty);
      if levelOverflow || AddWouldOverflow(stats.tradedQty, crossingQty) {
        RejectRequest();
        return QuantityOverflow, trades;
      }
      BookOnRungs();
      LadderLimitTakesAll(Book(), minPrice, maxPrice, e);
      trades' := MatchAndRest(e.id, e.side, price, e.qty, canRest, trades);
      error := NoError;
    }

    lemma {:induction false} RangeOk()
      requires Valid()
      ensures 0 <= minPrice <= maxPrice && |levels| == maxPrice - minPrice + 1
    {
    }

    method AddOrder(id: OrderId, side: Side, price: Price, qty: Quantity, trades: seq<Trade>)
      returns (error: BookError, trades': seq<Trade>)
      requires Valid()
      requires !Unsafe(Book(), minPrice, maxPrice, LimitAdd(id, side, price, qty))
      modifies this
      ensures Valid()
      ensures var expected := LadderStep(old(Book()), minPrice, maxPrice, LimitAdd(id, side, price, qty));
              Book() == expected.state && error == expected.error && trades' == trades + expected.trades
      ensures error != NoError ==>
                && levels == old(levels) && index == old(index) && bidOccupied == old(bidOccupied)
                && askOccupied == old(askOccupied) && bidWordOccupied == old(bidWordOccupied)
                && askWordOccupied == old(askWordOccupied)
    {
      error, trades' := AddOrderWithPolicy(LimitAdd(id, side, price, qty), trades);
    }

    method CancelOrder(id: OrderId) returns (error: BookError)
      requires Valid()
      modifies this
      ensures Valid()
      ensures var expected := CancelStep(old(Book()), id);
              Book() == expected.state && error == expected.error && expected.trades == []
      ensures error != NoError ==>
                && levels == old(levels) && index == old(index) && bidOccupied == old(bidOccupied)
                && askOccupied == old(askOccupied) && bidWordOccupied == old(bidWordOccupied)
                && askWordOccupied == old(askWordOccupied)
    {
      hide Valid, Book, HasId, Without, Shaped;
      CountCancelRequest();
      IndexAnswers(id);
      if id !in index {
        RejectRequest();
        return UnknownOrderId;
      }
      RemoveOrder(id, index[id]);
      error := NoError;
    }

    /** The part of a price level that is an order's own is the order itself, when it rests there. */
    /** The order found at an indexed location is the one at some place `k` of its side. */
    lemma {:induction false} IndexedAt(id: OrderId) returns (k: nat)
      requires Valid() && id in index
      ensures var location := index[id];
              && location.side == SideOf(Book(), id) && InRange(location.price)
              && var store := levels[IndexFor(location.price)].store;
              && var j := IndexOfId(store, id); var q := Book().Orders(location.side);
              && j < |store| && k < |q| && q[k] == store[j] && q[k].id == id && q[k].price == location.price
    {
      RemoveFacts(id);
      hide Inv, Flatten, IndexOk, Walk, Marks, Without, LevelQty, HeldSet, IndexOfId, LevelsOk,
        LevelFor, HasPrice, TotalAt, LowerBound, HasId, SideOf, Before, Behind;
      var location := index[id];
      var side := location.side;
      var i := IndexFor(location.price);
      WalkFinds(levels, minPrice, side, i);
      WalkAround(levels, side, i);
      assert Walk(levels, side)[|Before(levels, side, i)|] == levels[i];
      k := InFlat(Walk(levels, side), |Before(levels, side, i)|, IndexOfId(levels[i].store, id));
      assert RungOk(levels[i]);
    }

    lemma {:induction false} OwnIsStored(id: OrderId, newPrice: Price)
      requires Valid() && id in index
      ensures var location := index[id];
              && location.side == SideOf(Book(), id) && InRange(location.price)
              && var store := levels[IndexFor(location.price)].store;
              && var j := IndexOfId(store, id);
              && j < |store|
              && OwnAt(Book(), id, newPrice) == (if location.price == newPrice then store[j].qty else 0)
    {
      var k := IndexedAt(id);
      hide Flatten, IndexOk, Walk, LadderOk, HeldSet, IndexOfId, Without, LevelQty, SideOf;
      QtyLost(Book(), index[id].side, k, newPrice);
    }

    /** What a modify reads of the order it replaces. */
    lemma {:induction false} ModifyReads(id: OrderId, newPrice: Price)
      requires Valid() && id in index && InRange(newPrice)
      ensures var location := index[id];
              && location.side == SideOf(Book(), id) && InRange(location.price)
              && var store := levels[IndexFor(location.price)].store;
              && var j := IndexOfId(store, id);
              && j < |store|
              && OwnAt(Book(), id, newPrice) == (if location.price == newPrice then store[j].qty else 0)
              && 0 <= SlotTotal(newPrice) - OwnAt(Book(), id, newPrice) <= MAX_INT64
    {
      hide Inv, Flatten, IndexOk, Walk, Marks, Without, LevelQty, HeldSet, IndexOfId, OwnAt;
      RemoveFacts(id);
      OwnIsStored(id, newPrice);
      RungTotal(levels, minPrice, IndexFor(newPrice));
    }

    method ModifyOrder(e: Event, trades: seq<Trade>) returns (error: BookError, trades': seq<Trade>)
      requires Valid() && e.kind == Modify
      requires !Unsafe(Book(), minPrice, maxPrice, e)
      modifies this
      ensures Valid()
      ensures var expected := LadderStep(old(Book()), minPrice, maxPrice, e);
              Book() == expected.state && error == expected.error && trades' == trades + expected.trades
      ensures error != NoError ==>
                && levels == old(levels) && index == old(index) && bidOccupied == old(bidOccupied)
                && askOccupied == old(askOccupied) && bidWordOccupied == old(bidWordOccupied)
                && askWordOccupied == old(askWordOccupied)
    {
      hide Valid, Book, Shaped, Inv, Crossing, LevelQty, HasId, Recounted, Match, Insert, SlotSeen, OnRungs;
      hide Without, IndexOfId;
      trades' := trades;
      ghost var before := Book();
      IndexAnswers(e.id);
      RangeOk();
      CountModifyRequest();
      ghost var counted := Book();
      IndexAnswers(e.id);
      if e.id !in index {
        RejectRequest();
        return UnknownOrderId, trades;
      }
      if !InRange(e.newPrice) {
        RejectRequest();
        error := if e.newPrice > 0 then PriceOutOfRange else InvalidPrice;
        return;
      }
      if e.newQty <= 0 {
        RejectRequest();
        return InvalidQuantity, trades;
      }
      ModifyReads(e.id, e.newPrice);
      SlotIsSeen(e.newPrice);
      var location := index[e.id];
      var side := location.side;
      CountsAside(before, counted, minPrice, maxPrice, side, e.newPrice, e.newQty);
      var existingLevelQty: Quantity := SlotTotal(e.newPrice);
      if location.price == e.newPrice {
        var store := levels[IndexFor(location.price)].store;
        existingLevelQty := existingLevelQty - store[IndexOfId(store, e.id)].qty;
      }
      var crossingQty := MaxCrossingQty(side, e.newPrice, e.newQty);
      var restingQty := e.newQty - crossingQty;
      if AddWouldOverflow(existingLevelQty, restingQty) || AddWouldOverflow(stats.tradedQty, crossingQty) {
        RejectRequest();
        return QuantityOverflow, trades;
      }
      RemoveOrder(e.id, location);
      RemovedKeepsInv(counted, e.id);
      IndexAnswers(e.id);
      trades' := MatchAndRest(e.id, side, e.newPrice, e.newQty, true, trades);
      error := NoError;
    }

    method Process(e: Event, trades: seq<Trade>) returns (error: BookError, trades': seq<Trade>)
      requires Valid()
      requires !Unsafe(Book(), minPrice, maxPrice, e)
      modifies this
      ensures Valid()
      ensures var expected := LadderStep(old(Book()), minPrice, maxPrice, e);
              Book() == expected.state && error == expected.error && trades' == trades + expected.trades
      ensures error != NoError ==>
                && levels == old(levels) && index == old(index) && bidOccupied == old(bidOccupied)
                && askOccupied == old(askOccupied) && bidWordOccupied == old(bidWordOccupied)
                && askWordOccupied == old(askWordOccupied)
    {
      hide Book, Shaped, AddWith, ModifyWith, CancelStep, Inv, Recounted;
      match e.kind {
        case Add => error, trades' := AddOrderWithPolicy(e, trades);
        case Cancel =>
          error := CancelOrder(e.id);
          trades' := trades;
        case Modify => error, trades' := ModifyOrder(e, trades);
      }
    }

    function LiveOrderCount(): (n: nat)
      requires Valid()
      reads this
      ensures n == |Book().bids| + |Book().asks|
    {
      InvFacts(Book(), Bid);
      IndexCounts(index, Book().bids, Book().asks);
      |index|
    }

    /** Reads the levels off the bitmap, best price first, and each level oldest first. */
    method Orders(side: Side) returns (snapshots: seq<Order>)
      requires Valid()
      ensures snapshots == Book().Orders(side)
    {
      hide Inv, Marks, IndexOk, Walk, LadderOk;
      var visited;
      if side == Ask {
        visited := ListAsks(levels, askOccupied, askWordOccupied);
      } else {
        visited := ListBids(levels, bidOccupied, bidWordOccupied);
      }
      snapshots := [];
      for i := 0 to |visited|
        invariant snapshots == Flatten(visited[..i])
      {
        assert visited[..i + 1] == visited[..i] + [visited[i]];
        FlattenAppend(visited[..i], [visited[i]]);
        FlattenMid(visited[..i], visited[i], []);
        snapshots := snapshots + visited[i].store;
      }
      assert visited[..|visited|] == visited;
    }
  }

  /** Taking one order out of its rung. */
  lemma {:induction false} RungLosesOrder(ls: seq<OrderLevel>, minPrice: Price, side: Side, i: nat, j: nat)
    requires LadderOk(ls, minPrice) && i < |ls| && Held(ls[i], side) && j < |ls[i].store|
    requires DistinctIds(Flatten(Walk(ls, side)))
    ensures 0 <= ls[i].store[j].qty && 0 <= ls[i].totalQty - ls[i].store[j].qty <= MAX_INT64 && i in HeldSet(ls, side)
    ensures var store := ls[i].store[..j] + ls[i].store[j + 1..];
            var ls' := ls[i := Level(ls[i].price, ls[i].totalQty - ls[i].store[j].qty, store)];
            && LadderOk(ls', minPrice)
            && Flatten(Walk(ls', side)) == Without(Flatten(Walk(ls, side)), ls[i].store[j].id)
            && Walk(ls', side.Opposite()) == Walk(ls, side.Opposite())
            && HeldSet(ls', side) == (if store == [] then HeldSet(ls, side) - {i} else HeldSet(ls, side))
            && HeldSet(ls', side.Opposite()) == HeldSet(ls, side.Opposite())
  {
    hide Flatten, Walk, LevelsOk, Without, DropAt, LowerBound, SumQty, Before, DistinctIds;
    var level := ls[i];
    var walk := Walk(ls, side);
    LadderWalk(ls, minPrice, side);
    assert RungOk(level) && StoreOk(side, level.price, level.store);
    SumQtyDrop(level.store, j);
    WalkDrop(ls, minPrice, side, i, j);
    DropIsWithout(side, walk, |Before(ls, side, i)|, j);
    var l := Level(level.price, level.totalQty - level.store[j].qty, level.store[..j] + level.store[j + 1..]);
    WalkUntouched(ls, side.Opposite(), i, l);
    assert l.store != [] ==> l.store[0] in level.store;
  }

  lemma {:induction false} OnLadder(ls: seq<OrderLevel>, minPrice: Price, side: Side)
    requires LadderOk(ls, minPrice)
    ensures var q := Flatten(Walk(ls, side));
            forall i :: 0 <= i < |q| ==> minPrice <= q[i].price < minPrice + |ls|
  {
    var q := Flatten(Walk(ls, side));
    forall i | 0 <= i < |q| ensures minPrice <= q[i].price < minPrice + |ls| {
      var k, j := Locate(Walk(ls, side), i);
      var n := WalkSource(ls, side, k);
      assert RungOk(ls[n]);
    }
  }

  lemma {:induction false} SummaryLength(occupied: seq<Word>, summary: seq<Word>, count: nat, held: set<nat>)
    requires Marks(occupied, summary, count, held)
    ensures |summary| == Words(Words(count))
  {
  }

  lemma {:induction false} NoneCross(st: State, side: Side, price: int)
    requires Inv(st)
    requires var q := st.Orders(side.Opposite()); q == [] || !Crosses(side, price, q[0].price)
    ensures var q := st.Orders(side.Opposite()); forall k :: 0 <= k < |q| ==> !Crosses(side, price, q[k].price)
  {
    var q := st.Orders(side.Opposite());
    forall k | 0 <= k < |q| ensures !Crosses(side, price, q[k].price) {
      assert k > 0 ==> !Better(side.Opposite(), q[k].price, q[0].price);
    }
  }

  /** Taking out the order at position `k` takes its quantity off its own price and no other. */
  lemma {:induction false} QtyLost(st: State, side: Side, k: nat, price: Price)
    requires Inv(st) && k < |st.Orders(side)|
    ensures var q := st.Orders(side);
            LevelQty(q, price) - LevelQty(Without(q, q[k].id), price)
            == if q[k].price == price then q[k].qty else 0
  {
    hide Inv, Without, LevelQty;
    var q := st.Orders(side);
    InvFacts(st, side);
    DistinctSide(st, side);
    OnlyWithId(q, q[k].id, k);
    LevelQtyWithout(q, q[k].id, price);
  }

  lemma {:induction false} BestLeads(ls: seq<OrderLevel>, minPrice: Price, side: Side, i: nat)
    requires LadderOk(ls, minPrice) && IsBest(ls, side, i)
    ensures i < |ls| && Walk(ls, side) != [] && Walk(ls, side)[0] == ls[i] && i in HeldSet(ls, side)
  {
    WalkBest(ls, side, i);
  }

  lemma {:induction false} FillLeaves(q0: seq<Order>, id: OrderId, side: Side, price: int, qty0: int,
                   level: OrderLevel, tail: seq<Order>, own: seq<Order>, index: Index, qty: int, done: seq<Trade>)
    requires FillState(q0, id, side, price, qty0, level, tail, own, index, qty, done)
    ensures StoreOk(side.Opposite(), level.price, level.store) && level.totalQty == SumQty(level.store)
  {
  }

  lemma {:induction false} PutBackShorter(walk: seq<OrderLevel>, level: OrderLevel)
    requires walk != []
    ensures |PutBack(walk, level)| == if level.store == [] then |walk| - 1 else |walk|
  {
  }

  lemma {:induction false} EmptySummary(occupied: seq<Word>, summary: seq<Word>, count: nat, held: set<nat>)
    requires Marks(occupied, summary, count, held) && forall w :: 0 <= w < |summary| ==> summary[w] == 0
    ensures held == {}
  {
    hide Bit;
    forall j | j in held ensures false {
      ZeroSummary(occupied, summary, count, held, j);
    }
  }

  function BlankLevels(minPrice: Price, count: nat): seq<OrderLevel>
    requires minPrice + count <= MAX_INT64 + 1
  {
    seq(count, i requires 0 <= i < count => Level(minPrice + i, 0, []))
  }

  function BlankWords(n: nat): seq<Word> {
    seq(n, _ => 0)
  }

  lemma {:induction false} BlankLadder(minPrice: Price, count: nat)
    requires minPrice + count <= MAX_INT64 + 1
    ensures var ls := BlankLevels(minPrice, count);
            && |ls| == count && LadderOk(ls, minPrice)
            && (forall side :: Walk(ls, side) == [] && HeldSet(ls, side) == {})
            && Marks(BlankWords(Words(count)), BlankWords(Words(Words(count))), count, {})
  {
    var ls := BlankLevels(minPrice, count);
    WalkNone(ls, Bid);
    WalkNone(ls, Ask);
    assert HeldSet(ls, Bid) == {} && HeldSet(ls, Ask) == {};
    BlankMarks(BlankWords(Words(count)), BlankWords(Words(Words(count))), count);
  }

  lemma {:induction false} LadderWalk(ls: seq<OrderLevel>, minPrice: Price, side: Side)
    requires LadderOk(ls, minPrice)
    ensures LevelsOk(side, Walk(ls, side))
  {
    WalkOk(ls, side, minPrice);
  }

  lemma {:induction false} BlankMarks(occupied: seq<Word>, summary: seq<Word>, count: nat)
    requires |occupied| == Words(count) && |summary| == Words(|occupied|)
    requires forall i :: 0 <= i < |occupied| ==> occupied[i] == 0
    requires forall i :: 0 <= i < |summary| ==> summary[i] == 0
    ensures Marks(occupied, summary, count, {})
  {
    hide Bit;
    forall i: nat ensures !BitAt(occupied, i) && !BitAt(summary, i) {
      ZeroIff(0);
    }
  }

  lemma {:induction false} NoOrders()
    ensures Flatten([]) == [] && Inv(EMPTY) && IndexOk(map[], [], [])
  {
  }
}
