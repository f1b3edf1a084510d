/** How the ordered maps of a pooled book mirror the chains of its pool. */
module PoolLevels {
  import opened Types
  import opened Reference
  import opened Matching
  import opened Invariants
  import opened PriceMap
  import opened Levels
  import opened OrderIndex
  import opened PoolShape

  /** Each level's head, tail and count describe the chain of its price; every chain has a level. */
  ghost predicate Mirrors(side: Side, levels: seq<PoolLevel>, p: Pool) {
    && (forall i :: 0 <= i < |levels| ==>
          && Location(side, levels[i].price) in p.chains
          && FifoOk(levels[i].store, p.chains[Location(side, levels[i].price)]))
    && (forall at :: at in p.chains && at.side == side ==> HasPrice(side, levels, at.price))
  }

  function LevelView(side: Side, l: PoolLevel, p: Pool): OrderLevel {
    Level(l.price, l.totalQty, Queue(p, Location(side, l.price)))
  }

  /** The levels with their orders read out of the pool. */
  function LevelViews(side: Side, levels: seq<PoolLevel>, p: Pool): seq<OrderLevel> {
    seq(|levels|, i requires 0 <= i < |levels| => LevelView(side, levels[i], p))
  }

  /** Nothing but the queue at `at` differs. */
  ghost predicate SameElsewhere(p: Pool, p': Pool, at: Location) {
    && |p'.slots| == |p.slots|
    && forall x :: x != at ==>
         && (x in p'.chains <==> x in p.chains)
         && ChainAt(p'.chains, x) == ChainAt(p.chains, x) && Queue(p', x) == Queue(p, x)
  }

  lemma {:induction false} SameTwice(p: Pool, p': Pool, p'': Pool, at: Location)
    requires SameElsewhere(p, p', at) && SameElsewhere(p', p'', at)
    ensures SameElsewhere(p, p'', at)
  {
  }

  lemma {:induction false} ViewsElsewhere(side: Side, levels: seq<PoolLevel>, p: Pool, p': Pool, at: Location)
    requires SameElsewhere(p, p', at)
    requires forall i :: 0 <= i < |levels| ==> Location(side, levels[i].price) != at
    ensures LevelViews(side, levels, p') == LevelViews(side, levels, p)
  {
    hide Queue;
  }

  lemma {:induction false} MirrorsElsewhere(side: Side, levels: seq<PoolLevel>, p: Pool, p': Pool, at: Location)
    requires SameElsewhere(p, p', at) && Mirrors(side, levels, p) && at.side != side
    ensures Mirrors(side, levels, p') && LevelViews(side, levels, p') == LevelViews(side, levels, p)
  {
    hide Queue, FifoOk;
    ViewsElsewhere(side, levels, p, p', at);
    forall i | 0 <= i < |levels|
      ensures Location(side, levels[i].price) in p'.chains
      ensures p'.chains[Location(side, levels[i].price)] == p.chains[Location(side, levels[i].price)]
    {
      var x := Location(side, levels[i].price);
      assert ChainAt(p'.chains, x) == ChainAt(p.chains, x);
    }
  }

  lemma {:induction false} LowerBoundSame<S, T>(side: Side, a: seq<Level<S>>, b: seq<Level<T>>, price: Price)
    requires |a| == |b| && forall i :: 0 <= i < |a| ==> a[i].price == b[i].price
    ensures LowerBound(side, a, price) == LowerBound(side, b, price)
  {
    if a != [] {
      LowerBoundSame(side, a[1..], b[1..], price);
    }
  }

  /** Lookups read the same off the pooled levels and off their views. */
  lemma {:induction false} ViewsAgree(side: Side, levels: seq<PoolLevel>, p: Pool, price: Price)
    ensures LowerBound(side, LevelViews(side, levels, p), price) == LowerBound(side, levels, price)
    ensures HasPrice(side, LevelViews(side, levels, p), price) <==> HasPrice(side, levels, price)
    ensures TotalAt(side, LevelViews(side, levels, p), price) == TotalAt(side, levels, price)
    ensures SortedLevels(side, LevelViews(side, levels, p)) <==> SortedLevels(side, levels)
  {
    hide Queue, LowerBound;
    var views := LevelViews(side, levels, p);
    forall i | 0 <= i < |levels| ensures views[i].price == levels[i].price {
    }
    LowerBoundSame(side, views, levels, price);
  }

  // ---- The index and the flat book

  lemma {:induction false} LiveIsFlat(side: Side, levels: seq<PoolLevel>, p: Pool, id: OrderId)
    requires ShapeOk(p) && Mirrors(side, levels, p) && id in p.index
    requires p.index[id] < |p.slots| && p.slots[p.index[id]].side == side
    ensures HasId(Flatten(LevelViews(side, levels, p)), id)
  {
    hide FreeOk, ChainsOk, FifoOk;
    var s := p.index[id];
    var at := Place(p.slots[s]);
    assert s in ChainAt(p.chains, at);
    var k :| 0 <= k < |ChainAt(p.chains, at)| && ChainAt(p.chains, at)[k] == s;
    var views := LevelViews(side, levels, p);
    var n := LowerBound(side, levels, at.price);
    assert HasPrice(side, levels, at.price);
    assert views[n].store[k].id == id;
    var i := InFlat(views, n, k);
  }

  lemma {:induction false} FlatIsLive(side: Side, levels: seq<PoolLevel>, p: Pool, id: OrderId)
    requires ShapeOk(p) && Mirrors(side, levels, p) && HasId(Flatten(LevelViews(side, levels, p)), id)
    ensures id in p.index && p.index[id] < |p.slots| && Place(p.slots[p.index[id]]).side == side
  {
    hide FreeOk, FifoOk, Covered, Linked;
    var views := LevelViews(side, levels, p);
    var i :| 0 <= i < |Flatten(views)| && Flatten(views)[i].id == id;
    var n, k := Locate(views, i);
    var at := Location(side, levels[n].price);
    assert ChainOk(p.slots, at, p.chains[at]);
    assert LiveAt(p.slots[p.chains[at][k]], at);
  }

  lemma {:induction false} IndexIsBook(bids: seq<PoolLevel>, asks: seq<PoolLevel>, p: Pool, id: OrderId)
    requires ShapeOk(p) && Mirrors(Bid, bids, p) && Mirrors(Ask, asks, p)
    ensures id in p.index <==>
              HasId(Flatten(LevelViews(Bid, bids, p)), id) || HasId(Flatten(LevelViews(Ask, asks, p)), id)
    ensures id in p.index ==> 0 < p.index[id] < |p.slots| && p.slots[p.index[id]].live
                              && p.slots[p.index[id]].id == id
    ensures HasId(Flatten(LevelViews(Bid, bids, p)), id) ==> p.slots[p.index[id]].side == Bid
    ensures HasId(Flatten(LevelViews(Ask, asks, p)), id) ==> p.slots[p.index[id]].side == Ask
  {
    hide Flatten, LevelViews, HasId, Mirrors, FreeOk, ChainsOk, Covered;
    if id in p.index {
      if p.slots[p.index[id]].side == Bid {
        LiveIsFlat(Bid, bids, p, id);
      } else {
        LiveIsFlat(Ask, asks, p, id);
      }
    }
    if HasId(Flatten(LevelViews(Bid, bids, p)), id) {
      FlatIsLive(Bid, bids, p, id);
    }
    if HasId(Flatten(LevelViews(Ask, asks, p)), id) {
      FlatIsLive(Ask, asks, p, id);
    }
  }

  /** As many slots are in use as orders rest. */
  lemma {:induction false} UsedSlots(bids: seq<PoolLevel>, asks: seq<PoolLevel>, p: Pool)
    requires ShapeOk(p) && Mirrors(Bid, bids, p) && Mirrors(Ask, asks, p)
    requires AllDistinct(Flatten(LevelViews(Bid, bids, p)), Flatten(LevelViews(Ask, asks, p)))
    ensures |p.index| == |Flatten(LevelViews(Bid, bids, p))| + |Flatten(LevelViews(Ask, asks, p))|
    ensures |p.free| + |p.index| == Capacity(p.slots)
  {
    hide ShapeOk, Mirrors, Flatten, LevelViews, AllDistinct, HasId;
    assert |p.free| + |p.index| == Capacity(p.slots) by {
      ShapeCounts(p);
    }
    forall id ensures id in p.index.Keys <==>
      HasId(Flatten(LevelViews(Bid, bids, p)), id) || HasId(Flatten(LevelViews(Ask, asks, p)), id) {
      IndexIsBook(bids, asks, p, id);
    }
    IdsCount(p.index.Keys, Flatten(LevelViews(Bid, bids, p)), Flatten(LevelViews(Ask, asks, p)));
  }

  lemma {:induction false} ShapeCounts(p: Pool)
    requires ShapeOk(p)
    ensures |p.free| + |p.index| == Capacity(p.slots)
    ensures p.freeHead == INVALID_SLOT <==> p.free == []
  {
  }

  // ---- The three pool operations change one queue

  lemma {:induction false} DropSame(p: Pool, at: Location, k: nat)
    requires ShapeOk(p) && k < |ChainAt(p.chains, at)|
    requires var s := ChainAt(p.chains, at)[k];
             s < |p.slots| && p.slots[s].prev < |p.slots| && p.slots[s].next < |p.slots|
    ensures SameElsewhere(p, Drop(p, at, k), at)
    ensures Queue(Drop(p, at, k), at) == Queue(p, at)[..k] + Queue(p, at)[k + 1..]
    ensures ChainAt(Drop(p, at, k).chains, at) == Cut(ChainAt(p.chains, at), k)
    ensures at in Drop(p, at, k).chains <==> Cut(ChainAt(p.chains, at), k) != []
  {
    hide ChainsOk, CutSlots, Queue, Cut, FreeOk, Covered, IndexBijective;
    DropQueues(p, at, k);
    DropSlots(p, at, k);
  }

  lemma {:induction false} GrowSame(p: Pool, at: Location, id: OrderId, qty: Quantity)
    requires ShapeOk(p) && p.free != []
    requires 0 < p.freeHead < |p.slots| && LastOf(ChainAt(p.chains, at)) < |p.slots|
    ensures SameElsewhere(p, Grow(p, at, id, qty), at)
    ensures Queue(Grow(p, at, id, qty), at) == Queue(p, at) + [Order(id, at.side, at.price, qty)]
  {
    hide ChainsOk, ChainOk, Append, Queue, LastOf, FreeOk, Covered, IndexBijective;
    GrowSafe(p, at);
    GrowQueues(p, at, id, qty);
    AppendLength(p.slots[p.freeHead := Fresh(id, at, qty)], p.freeHead, LastOf(ChainAt(p.chains, at)));
  }

  lemma {:induction false} ReduceSame(p: Pool, at: Location, qty: Quantity)
    requires ShapeOk(p) && ChainAt(p.chains, at) != []
    ensures ChainAt(p.chains, at)[0] < |p.slots|
    ensures SameElsewhere(p, Reduce(p, at, qty), at)
    ensures Queue(p, at) != []
    ensures Queue(Reduce(p, at, qty), at) == [Queue(p, at)[0].(qty := qty)] + Queue(p, at)[1..]
  {
    hide ChainsOk, Queue, FreeOk, Covered, IndexBijective;
    ReduceQueues(p, at, qty);
  }

  /** What unlinking order `k` of level `n` does to the ordered map. */
  function DroppedLevels(levels: seq<PoolLevel>, n: nat, o: OrderSlot): seq<PoolLevel>
    requires n < |levels| && levels[n].store.count > 0
    requires MIN_INT64 <= levels[n].totalQty - o.qty <= MAX_INT64
  {
    var l := Level(levels[n].price, levels[n].totalQty - o.qty, UnlinkFifo(levels[n].store, o));
    if l.store.count == 0 then Erase(levels, n) else levels[n := l]
  }

  lemma {:induction false} DropMirrors(side: Side, levels: seq<PoolLevel>, p: Pool, n: nat, k: nat)
    requires ShapeOk(p) && Mirrors(side, levels, p) && SortedLevels(side, levels) && n < |levels|
    requires k < |ChainAt(p.chains, Location(side, levels[n].price))|
    requires var s := ChainAt(p.chains, Location(side, levels[n].price))[k];
             && s < |p.slots| && p.slots[s].prev < |p.slots| && p.slots[s].next < |p.slots|
             && MIN_INT64 <= levels[n].totalQty - p.slots[s].qty <= MAX_INT64
    ensures levels[n].store.count > 0
    ensures var at := Location(side, levels[n].price);
            Mirrors(side, DroppedLevels(levels, n, p.slots[p.chains[at][k]]), Drop(p, at, k))
  {
    hide ChainsOk, CutSlots, Queue, FreeOk, Covered, IndexBijective, Cut, Drop, LowerBound;
    var at := Location(side, levels[n].price);
    var chain := p.chains[at];
    var p' := Drop(p, at, k);
    var levels' := DroppedLevels(levels, n, p.slots[chain[k]]);
    DropSame(p, at, k);
    CutFifoAt(p, at, k, levels[n].store);
    forall i | 0 <= i < |levels'|
      ensures Location(side, levels'[i].price) in p'.chains
      ensures FifoOk(levels'[i].store, p'.chains[Location(side, levels'[i].price)])
    {
      var x := Location(side, levels'[i].price);
      var j := if |levels'| == |levels| || i < n then i else i + 1;
      assert levels'[i].price == levels[j].price;
      if x != at {
        assert ChainAt(p'.chains, x) == ChainAt(p.chains, x);
        assert levels'[i] == levels[j];
      }
    }
    forall x | x in p'.chains && x.side == side ensures HasPrice(side, levels', x.price) {
      KeepsPrice(side, levels, levels', n, x.price);
    }
  }

  lemma {:induction false} CutFifoAt(p: Pool, at: Location, k: nat, fifo: Fifo)
    requires ShapeOk(p) && at in p.chains && k < |p.chains[at]| && FifoOk(fifo, p.chains[at])
    ensures p.chains[at][k] < |p.slots| && fifo.count > 0
    ensures FifoOk(UnlinkFifo(fifo, p.slots[p.chains[at][k]]), Cut(p.chains[at], k))
  {
    hide FreeOk, Covered, IndexBijective, FifoOk, Cut;
    assert fifo.count == |p.chains[at]| by {
      FifoCounts(fifo, p.chains[at]);
    }
    CutFifo(p.slots, at, p.chains[at], k, fifo);
  }

  lemma {:induction false} FifoCounts(fifo: Fifo, chain: Chain)
    requires FifoOk(fifo, chain)
    ensures fifo.count == |chain|
  {
  }

  /** A price still has its level after another level, or only this level's content, changed. */
  lemma {:induction false} KeepsPrice<T>(side: Side, levels: seq<Level<T>>, levels': seq<Level<T>>, n: nat,
                                        price: Price)
    requires SortedLevels(side, levels) && n < |levels| && HasPrice(side, levels, price)
    requires if |levels'| < |levels| then levels' == Erase(levels, n) && price != levels[n].price
             else |levels'| == |levels| && forall i :: 0 <= i < |levels| ==> levels'[i].price == levels[i].price
    ensures HasPrice(side, levels', price)
  {
    var b := LowerBound(side, levels, price);
    var b' := if |levels'| < |levels| && n < b then b - 1 else b;
    assert levels'[b'].price == price;
    assert SortedLevels(side, levels');
    OnlyOnePrice(side, levels', b');
  }

  /** Unlinking in the pool is, seen through the views, taking the order out of its level. */
  lemma {:induction false} DropViews(side: Side, levels: seq<PoolLevel>, p: Pool, n: nat, k: nat)
    requires ShapeOk(p) && Mirrors(side, levels, p) && SortedLevels(side, levels) && n < |levels|
    requires k < |ChainAt(p.chains, Location(side, levels[n].price))|
    requires var s := ChainAt(p.chains, Location(side, levels[n].price))[k];
             && s < |p.slots| && p.slots[s].prev < |p.slots| && p.slots[s].next < |p.slots|
             && MIN_INT64 <= levels[n].totalQty - p.slots[s].qty <= MAX_INT64
    ensures levels[n].store.count > 0
    ensures var views := LevelViews(side, levels, p);
            var o := p.slots[p.chains[Location(side, levels[n].price)][k]];
            && k < |views[n].store| && views[n].store[k] == Order(o.id, o.side, o.price, o.qty)
            && LevelViews(side, DroppedLevels(levels, n, o), Drop(p, Location(side, levels[n].price), k))
               == DropAt(views, n, k)
  {
    hide ChainsOk, CutSlots, FreeOk, Covered, IndexBijective, Drop, LowerBound, HasPrice, UnlinkFifo;
    var at := Location(side, levels[n].price);
    var chain := p.chains[at];
    var o := p.slots[chain[k]];
    var p' := Drop(p, at, k);
    assert levels[n].store.count > 0 by {
      FifoCounts(levels[n].store, chain);
    }
    var views := LevelViews(side, levels, p);
    assert views[n].store[k] == Order(o.id, o.side, o.price, o.qty);
    DropSame(p, at, k);
    CutFifoAt(p, at, k, levels[n].store);
    hide Cut, Queue, FifoOk, Mirrors;
    var levels' := DroppedLevels(levels, n, o);
    var store := views[n].store[..k] + views[n].store[k + 1..];
    assert Queue(p', at) == store;
    assert levels[n].store.count - 1 == 0 <==> store == [] by {
      QueueLength(p, at, levels[n].store);
    }
    ViewsElsewhere(side, levels[..n], p, p', at);
    ViewsElsewhere(side, levels[n + 1..], p, p', at);
    DroppedPiecewise(side, levels, p, p', n, k, o);
  }

  lemma {:induction false} QueueLength(p: Pool, at: Location, fifo: Fifo)
    requires FifoOk(fifo, ChainAt(p.chains, at))
    ensures |Queue(p, at)| == fifo.count
  {
  }

  lemma {:induction false} DroppedPiecewise(side: Side, levels: seq<PoolLevel>, p: Pool, p': Pool, n: nat, k: nat,
                                        o: OrderSlot)
    requires n < |levels| && levels[n].store.count > 0
    requires MIN_INT64 <= levels[n].totalQty - o.qty <= MAX_INT64
    requires var views := LevelViews(side, levels, p);
             && k < |views[n].store| && views[n].store[k].qty == o.qty
             && var store := views[n].store[..k] + views[n].store[k + 1..];
             && Queue(p', Location(side, levels[n].price)) == store
             && (levels[n].store.count - 1 == 0 <==> store == [])
    requires LevelViews(side, levels[..n], p') == LevelViews(side, levels[..n], p)
    requires LevelViews(side, levels[n + 1..], p') == LevelViews(side, levels[n + 1..], p)
    ensures LevelViews(side, DroppedLevels(levels, n, o), p') == DropAt(LevelViews(side, levels, p), n, k)
  {
    hide Queue;
    var views := LevelViews(side, levels, p);
    forall i | 0 <= i < n ensures LevelView(side, levels[i], p') == views[i] {
      assert LevelViews(side, levels[..n], p')[i] == LevelViews(side, levels[..n], p)[i];
    }
    forall i | n < i < |levels| ensures LevelView(side, levels[i], p') == views[i] {
      assert LevelViews(side, levels[n + 1..], p')[i - n - 1] == LevelViews(side, levels[n + 1..], p)[i - n - 1];
    }
  }

  // ---- Resting

  function PoolLevelFor(side: Side, levels: seq<PoolLevel>, price: Price): PoolLevel {
    if HasPrice(side, levels, price) then levels[LowerBound(side, levels, price)]
    else Level(price, 0, Fifo(INVALID_SLOT, INVALID_SLOT, 0))
  }

  function GrownLevels(side: Side, levels: seq<PoolLevel>, price: Price, qty: Quantity, s: SlotIndex): seq<PoolLevel>
    requires MIN_INT64 <= PoolLevelFor(side, levels, price).totalQty + qty <= MAX_INT64
  {
    var l := PoolLevelFor(side, levels, price);
    Put(side, levels, Level(price, l.totalQty + qty, AppendFifo(l.store, s)))
  }

  lemma {:induction false} LevelFifo(side: Side, levels: seq<PoolLevel>, p: Pool, price: Price)
    requires Mirrors(side, levels, p)
    ensures FifoOk(PoolLevelFor(side, levels, price).store, ChainAt(p.chains, Location(side, price)))
  {
    hide FifoOk;
    if !HasPrice(side, levels, price) {
      assert Location(side, price) !in p.chains;
      EmptyFifo();
    }
  }

  lemma {:induction false} EmptyFifo()
    ensures FifoOk(Fifo(INVALID_SLOT, INVALID_SLOT, 0), [])
  {
  }

  lemma {:induction false} GrowMirrors(side: Side, levels: seq<PoolLevel>, p: Pool, id: OrderId, price: Price,
                                       qty: Quantity)
    requires ShapeOk(p) && p.free != [] && Mirrors(side, levels, p) && SortedLevels(side, levels)
    requires MIN_INT64 <= PoolLevelFor(side, levels, price).totalQty + qty <= MAX_INT64
    requires 0 < p.freeHead < |p.slots| && LastOf(ChainAt(p.chains, Location(side, price))) < |p.slots|
    ensures Mirrors(side, GrownLevels(side, levels, price, qty, p.freeHead), Grow(p, Location(side, price), id, qty))
  {
    hide Append, Queue, LastOf, ChainsOk, FreeOk, Covered, IndexBijective, FifoOk, AppendFifo, ChainOk;
    var at := Location(side, price);
    var p' := Grow(p, at, id, qty);
    var levels' := GrownLevels(side, levels, price, qty, p.freeHead);
    var k := LowerBound(side, levels, price);
    GrowSame(p, at, id, qty);
    LevelFifo(side, levels, p, price);
    GrowSafe(p, at);
    GrowFifo(PoolLevelFor(side, levels, price).store, ChainAt(p.chains, at), p.freeHead);
    forall i | 0 <= i < |levels'|
      ensures Location(side, levels'[i].price) in p'.chains
      ensures FifoOk(levels'[i].store, p'.chains[Location(side, levels'[i].price)])
    {
      var x := Location(side, levels'[i].price);
      if x != at {
        var j := PutOther(side, levels, levels'[k], i);
        assert ChainAt(p'.chains, x) == ChainAt(p.chains, x);
      }
    }
    PutKeepsSorted(side, levels, levels'[k]);
    forall x | x in p'.chains && x.side == side ensures HasPrice(side, levels', x.price) {
      PutKeepsPrice(side, levels, levels'[k], x.price);
    }
  }

  /** A level that was not put was there before. */
  lemma {:induction false} PutOther<T>(side: Side, levels: seq<Level<T>>, l: Level<T>, i: nat) returns (j: nat)
    requires SortedLevels(side, levels)
    requires i < |Put(side, levels, l)| && Put(side, levels, l)[i].price != l.price
    ensures j < |levels| && levels[j] == Put(side, levels, l)[i]
  {
    j := if |Put(side, levels, l)| == |levels| || i < LowerBound(side, levels, l.price) then i else i - 1;
  }

  lemma {:induction false} PutKeepsPrice<T>(side: Side, levels: seq<Level<T>>, l: Level<T>, price: Price)
    requires SortedLevels(side, levels) && (price == l.price || HasPrice(side, levels, price))
    ensures HasPrice(side, Put(side, levels, l), price)
  {
    var levels' := Put(side, levels, l);
    PutKeepsSorted(side, levels, l);
    var k := LowerBound(side, levels, l.price);
    var b := LowerBound(side, levels, price);
    var i := if price == l.price then k else if |levels'| > |levels| && k <= b then b + 1 else b;
    assert levels'[i].price == price;
    OnlyOnePrice(side, levels', i);
  }

  /** Resting in the pool is, seen through the views, appending to the order's level. */
  lemma {:induction false} GrowViews(side: Side, levels: seq<PoolLevel>, p: Pool, id: OrderId, price: Price,
                                     qty: Quantity)
    requires ShapeOk(p) && p.free != [] && Mirrors(side, levels, p) && SortedLevels(side, levels)
    requires MIN_INT64 <= PoolLevelFor(side, levels, price).totalQty + qty <= MAX_INT64
    requires 0 < p.freeHead < |p.slots| && LastOf(ChainAt(p.chains, Location(side, price))) < |p.slots|
    ensures var views := LevelViews(side, levels, p);
            && LevelFor(side, views, price).totalQty == PoolLevelFor(side, levels, price).totalQty
            && LevelViews(side, GrownLevels(side, levels, price, qty, p.freeHead),
                          Grow(p, Location(side, price), id, qty))
               == Put(side, views, Appended(LevelFor(side, views, price), Order(id, side, price, qty)))
  {
    hide Append, LastOf, ChainsOk, FreeOk, Covered, IndexBijective, FifoOk, AppendFifo, ChainOk, Grow, LowerBound;
    var at := Location(side, price);
    var p' := Grow(p, at, id, qty);
    var views := LevelViews(side, levels, p);
    ViewsAgree(side, levels, p, price);
    GrowSame(p, at, id, qty);
    var k := LowerBound(side, levels, price);
    if !HasPrice(side, levels, price) {
      assert at !in p.chains;
      EmptyView(p.slots);
    }
    assert LevelFor(side, views, price).store == Queue(p, at);
    hide Queue;
    forall i | 0 <= i < |levels| && levels[i].price != price ensures LevelView(side, levels[i], p') == views[i] {
    }
    var l := PoolLevelFor(side, levels, price);
    PutViews(side, levels, Level(price, l.totalQty + qty, AppendFifo(l.store, p.freeHead)), p, p');
  }

  lemma {:induction false} PutViews(side: Side, levels: seq<PoolLevel>, l: PoolLevel, p: Pool, p': Pool)
    requires SortedLevels(side, levels)
    requires forall i :: 0 <= i < |levels| && levels[i].price != l.price ==>
               LevelView(side, levels[i], p') == LevelViews(side, levels, p)[i]
    ensures LevelViews(side, Put(side, levels, l), p') == Put(side, LevelViews(side, levels, p), LevelView(side, l, p'))
  {
    ViewsAgree(side, levels, p, l.price);
    hide Queue, LowerBound;
    var k := LowerBound(side, levels, l.price);
    if HasPrice(side, levels, l.price) {
      forall i | 0 <= i < |levels| && i != k ensures levels[i].price != l.price {
        assert Better(side, levels[if i < k then i else k].price, levels[if i < k then k else i].price);
      }
    } else {
      forall i | 0 <= i < |levels| ensures levels[i].price != l.price {
        NoPrice(side, levels, l.price, i);
      }
    }
  }

  lemma {:induction false} NoPrice<T>(side: Side, levels: seq<Level<T>>, price: Price, i: nat)
    requires SortedLevels(side, levels) && !HasPrice(side, levels, price) && i < |levels|
    ensures levels[i].price != price
  {
    if levels[i].price == price {
      OnlyOnePrice(side, levels, i);
    }
  }
}
