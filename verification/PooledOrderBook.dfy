/** The pooled backend: orders in numbered slots, levels as intrusive FIFO lists. */
module PoolFilling {
  import opened Types
  import opened Reference
  import opened Matching
  import opened Invariants
  import opened PriceMap
  import opened Levels
  import opened OrderIndex
  import opened Filling
  import opened PoolShape
  import opened PoolLevels

  /** The pool after the head at `at` has traded `fill`: reduced, or unlinked and released. */
  function TurnPool(p: Pool, at: Location, fill: Quantity): Pool
    requires ChainAt(p.chains, at) != []
    requires var s := ChainAt(p.chains, at)[0];
             && s < |p.slots| && p.slots[s].prev < |p.slots| && p.slots[s].next < |p.slots|
             && MIN_INT64 <= p.slots[s].qty - fill <= MAX_INT64
  {
    var o := p.slots[ChainAt(p.chains, at)[0]];
    var p' := Reduce(p, at, o.qty - fill);
    if o.qty == fill then Drop(p', at, 0) else p'
  }

  function TurnLevel(level: PoolLevel, o: OrderSlot, fill: Quantity): PoolLevel
    requires level.store.count > 0 && MIN_INT64 <= level.totalQty - fill <= MAX_INT64
  {
    Level(level.price, level.totalQty - fill, if o.qty == fill then UnlinkFifo(level.store, o) else level.store)
  }

  lemma {:induction false} HeadFacts(p: Pool, at: Location, fifo: Fifo)
    requires ShapeOk(p) && FifoOk(fifo, ChainAt(p.chains, at))
    ensures fifo.head == INVALID_SLOT <==> ChainAt(p.chains, at) == []
    ensures fifo.head == INVALID_SLOT <==> Queue(p, at) == []
    ensures fifo.count == |ChainAt(p.chains, at)| == |Queue(p, at)|
    ensures fifo.head != INVALID_SLOT ==>
              && fifo.head == ChainAt(p.chains, at)[0] < |p.slots|
              && p.slots[fifo.head].prev == INVALID_SLOT && p.slots[fifo.head].next < |p.slots|
              && LiveAt(p.slots[fifo.head], at)
              && Queue(p, at)[0] == OrderIn(p.slots, fifo.head)
    ensures fifo.head != INVALID_SLOT ==>
              (fifo.tail == fifo.head <==> p.slots[fifo.head].next == INVALID_SLOT)
  {
    hide FreeOk, Covered, IndexBijective;
    if fifo.head != INVALID_SLOT {
      DropSafe(p, at, 0);
      LinksAt(p.slots, at, p.chains[at], 0);
    }
  }

  lemma {:induction false} TurnKeepsPool(p: Pool, at: Location, fifo: Fifo, fill: Quantity)
    requires ShapeOk(p) && FifoOk(fifo, ChainAt(p.chains, at)) && fifo.head != INVALID_SLOT
    requires fifo.head < |p.slots| && 0 < fill <= p.slots[fifo.head].qty
    ensures ChainAt(p.chains, at) != [] && fifo.head == ChainAt(p.chains, at)[0] && fifo.count > 0
    ensures p.slots[fifo.head].prev < |p.slots| && p.slots[fifo.head].next < |p.slots|
    ensures var o := p.slots[fifo.head]; var p' := TurnPool(p, at, fill);
            && ShapeOk(p') && SameElsewhere(p, p', at)
            && Queue(p', at) == Shrunk(Queue(p, at), fill)
            && FifoOk(if o.qty == fill then UnlinkFifo(fifo, o) else fifo, ChainAt(p'.chains, at))
  {
    hide ShapeOk, FifoOk, ChainAt, Queue, Drop, SameElsewhere, Cut;
    HeadFacts(p, at, fifo);
    var o := p.slots[fifo.head];
    var p1 := Reduce(p, at, o.qty - fill);
    ReduceKeepsShape(p, at, o.qty - fill);
    ReduceSame(p, at, o.qty - fill);
    if o.qty == fill {
      DropKeepsShape(p1, at, 0);
      DropSame(p1, at, 0);
      SameTwice(p, p1, Drop(p1, at, 0), at);
      TurnFifo(p1, at, fifo);
      assert Queue(p1, at)[..0] + Queue(p1, at)[1..] == Queue(p1, at)[1..] == [] + Queue(p, at)[1..];
    }
  }

  /** The pool after a turn, as the loop writes it: a head that is used up leaves without a call to unlink. */
  lemma {:induction false} TurnWrites(p: Pool, at: Location, fill: Quantity)
    requires ChainAt(p.chains, at) != []
    requires ChainAt(p.chains, at)[0] < |p.slots| && 0 < fill <= p.slots[ChainAt(p.chains, at)[0]].qty
    requires p.slots[ChainAt(p.chains, at)[0]].prev == INVALID_SLOT
    requires p.slots[ChainAt(p.chains, at)[0]].next < |p.slots|
    ensures var s := ChainAt(p.chains, at)[0]; var o := p.slots[s];
            var slots1 := p.slots[s := o.(qty := o.qty - fill)];
            var slots2 := if o.next == INVALID_SLOT then slots1
                          else slots1[o.next := slots1[o.next].(prev := INVALID_SLOT)];
            && at in p.chains
            && TurnPool(p, at, fill)
               == if o.qty != fill then p.(slots := slots1)
                  else Pool(Release(slots2, s, p.freeHead), s, [s] + p.free,
                            WithChain(p.chains, at, Cut(p.chains[at], 0)), p.index - {o.id})
  {
    hide Cut, WithChain;
  }

  lemma {:induction false} TurnFifo(p: Pool, at: Location, fifo: Fifo)
    requires ShapeOk(p) && FifoOk(fifo, ChainAt(p.chains, at)) && fifo.head != INVALID_SLOT
    ensures ChainAt(p.chains, at) != [] && fifo.head == ChainAt(p.chains, at)[0] < |p.slots| && fifo.count > 0
    ensures FifoOk(UnlinkFifo(fifo, p.slots[fifo.head]), Cut(ChainAt(p.chains, at), 0))
  {
    hide ShapeOk, Queue, Cut;
    HeadFacts(p, at, fifo);
    CutFifoAt(p, at, 0, fifo);
  }

  /** One turn of the matching loop over a level's slots. */
  lemma {:induction false} PoolTurn(q0: seq<Order>, id: OrderId, side: Side, price: int, qty0: int,
                 level: PoolLevel, p: Pool, tail: seq<Order>, qty: int, done: seq<Trade>)
    requires var at := Location(side.Opposite(), level.price);
             && ShapeOk(p) && FifoOk(level.store, ChainAt(p.chains, at))
             && FillCore(q0, id, side, price, qty0, LevelView(side.Opposite(), level, p), tail, qty, done)
    requires Positive(q0) && Positive(tail) && Crosses(side, price, level.price)
    requires 0 < qty <= MAX_INT64 && level.store.head != INVALID_SLOT
    ensures var at := Location(side.Opposite(), level.price);
            && ChainAt(p.chains, at) != [] && level.store.head == ChainAt(p.chains, at)[0] < |p.slots|
            && level.store.count > 0
            && var o := p.slots[level.store.head];
            && o.prev == INVALID_SLOT && o.next < |p.slots| && o.price == level.price
            && (level.store.tail == level.store.head <==> o.next == INVALID_SLOT)
            && var fill := Min(qty, o.qty);
            && 0 < fill <= o.qty && 0 <= level.totalQty - fill <= MAX_INT64
            && var done' := done + [Trade(o.id, id, o.price, fill, side)];
            && var level' := TurnLevel(level, o, fill); var p' := TurnPool(p, at, fill);
            && ShapeOk(p') && SameElsewhere(p, p', at) && FifoOk(level'.store, ChainAt(p'.chains, at))
            && FillCore(q0, id, side, price, qty0, LevelView(side.Opposite(), level', p'), tail, qty - fill, done')
            && 0 <= TradedQty(done') == TradedQty(done) + fill <= Crossing(q0, side, price, qty0)
  {
    hide ShapeOk, FillCore, FifoOk, ChainAt, Queue, SameElsewhere, TurnPool, Crossing, TradedQty, UnlinkFifo;
    var at := Location(side.Opposite(), level.price);
    HeadFacts(p, at, level.store);
    FillCoreTurn(q0, id, side, price, qty0, LevelView(side.Opposite(), level, p), tail, qty, done);
    TurnKeepsPool(p, at, level.store, Min(qty, p.slots[level.store.head].qty));
  }

  // ---- The outer loop over levels

  /** Between levels of a match; `p0` is the pool the match began with, `own` the side it leaves alone. */
  ghost predicate PoolSweep(q0: seq<Order>, id: OrderId, side: Side, price: int, qty0: int,
                            levels: seq<PoolLevel>, own: seq<PoolLevel>, p: Pool, p0: Pool,
                            qty: int, done: seq<Trade>) {
    && ShapeOk(p) && |p.slots| == |p0.slots|
    && Mirrors(side.Opposite(), levels, p) && Mirrors(side, own, p)
    && LevelViews(side, own, p) == LevelViews(side, own, p0)
    && SweepCore(q0, id, side, price, qty0, LevelViews(side.Opposite(), levels, p), qty, done)
  }

  lemma {:induction false} PoolSweepEnters(q0: seq<Order>, id: OrderId, side: Side, price: int, qty0: int,
                        levels: seq<PoolLevel>, own: seq<PoolLevel>, p: Pool, p0: Pool,
                        qty: int, done: seq<Trade>)
    requires PoolSweep(q0, id, side, price, qty0, levels, own, p, p0, qty, done) && levels != []
    ensures var opposite := side.Opposite();
            var tail := Flatten(LevelViews(opposite, levels[1..], p));
            && ShapeOk(p)
            && FifoOk(levels[0].store, ChainAt(p.chains, Location(opposite, levels[0].price)))
            && FillCore(q0, id, side, price, qty0, LevelView(opposite, levels[0], p), tail, qty, done)
            && Positive(tail)
            && SortedLevels(opposite, levels)
  {
    hide ShapeOk, Queue, SweepCore, FillCore, Flatten, FifoOk, Positive;
    var opposite := side.Opposite();
    var views := LevelViews(opposite, levels, p);
    SweepEnters(q0, id, side, price, qty0, views, qty, done);
    assert views[1..] == LevelViews(opposite, levels[1..], p);
    assert LevelsOk(opposite, views) by {
      SweepLevels(q0, id, side, price, qty0, views, qty, done);
    }
    ViewsAgree(opposite, levels, p, 0);
  }

  lemma {:induction false} SweepLevels(q0: seq<Order>, id: OrderId, side: Side, price: int, qty0: int,
                    levels: seq<OrderLevel>, qty: int, done: seq<Trade>)
    requires SweepCore(q0, id, side, price, qty0, levels, qty, done)
    ensures LevelsOk(side.Opposite(), levels)
  {
  }

  function PutBackPool(levels: seq<PoolLevel>, level: PoolLevel): seq<PoolLevel>
    requires levels != []
  {
    if level.store.count == 0 then levels[1..] else levels[0 := level]
  }

  lemma {:induction false} PutBackMirrors(side: Side, levels: seq<PoolLevel>, level: PoolLevel, p: Pool, p': Pool)
    requires ShapeOk(p') && Mirrors(side, levels, p) && SortedLevels(side, levels)
    requires levels != [] && level.price == levels[0].price
    requires var at := Location(side, level.price);
             SameElsewhere(p, p', at) && FifoOk(level.store, ChainAt(p'.chains, at))
    ensures Mirrors(side, PutBackPool(levels, level), p')
  {
    hide FreeOk, Covered, IndexBijective, Queue, LowerBound, ChainOk;
    var at := Location(side, level.price);
    var levels' := PutBackPool(levels, level);
    forall i | 0 <= i < |levels'|
      ensures Location(side, levels'[i].price) in p'.chains
      ensures FifoOk(levels'[i].store, p'.chains[Location(side, levels'[i].price)])
    {
      var x := Location(side, levels'[i].price);
      if x != at {
        var j := if |levels'| == |levels| then i else i + 1;
        assert levels'[i] == levels[j];
        assert ChainAt(p'.chains, x) == ChainAt(p.chains, x);
      }
    }
    forall x | x in p'.chains && x.side == side ensures HasPrice(side, levels', x.price) {
      assert x == at ==> p'.chains[x] != [];
      assert x == at ==> HasPrice(side, levels, x.price) by {
        OnlyOnePrice(side, levels, 0);
      }
      KeepsPrice(side, levels, levels', 0, x.price);
    }
  }

  lemma {:induction false} PoolSweepLeaves(q0: seq<Order>, id: OrderId, side: Side, price: int, qty0: int,
                        levels: seq<PoolLevel>, own: seq<PoolLevel>, p: Pool, p0: Pool, p': Pool, level: PoolLevel,
                        qty: int, done: seq<Trade>, qty': int, done': seq<Trade>)
    requires PoolSweep(q0, id, side, price, qty0, levels, own, p, p0, qty, done) && levels != []
    requires var at := Location(side.Opposite(), level.price);
             && ShapeOk(p') && SameElsewhere(p, p', at) && FifoOk(level.store, ChainAt(p'.chains, at))
    requires level.price == levels[0].price
    requires FillCore(q0, id, side, price, qty0, LevelView(side.Opposite(), level, p'),
                      Flatten(LevelViews(side.Opposite(), levels[1..], p)), qty', done')
    ensures PoolSweep(q0, id, side, price, qty0, PutBackPool(levels, level), own, p', p0, qty', done')
  {
    hide ShapeOk, Queue, SweepCore, FillCore, Flatten, FifoOk, Mirrors, SameElsewhere;
    var opposite := side.Opposite();
    var at := Location(opposite, level.price);
    var views := LevelViews(opposite, levels, p);
    PoolSweepEnters(q0, id, side, price, qty0, levels, own, p, p0, qty, done);
    SweepLevels(q0, id, side, price, qty0, views, qty, done);
    PutBackMirrors(opposite, levels, level, p, p');
    MirrorsElsewhere(side, own, p, p', at);
    ViewsElsewhere(opposite, levels[1..], p, p', at);
    assert views[1..] == LevelViews(opposite, levels[1..], p);
    SweepLeaves(q0, id, side, price, qty0, views, LevelView(opposite, level, p'), qty', done');
    SameLength(p, p', at);
    QueueLength(p', at, level.store);
    PutBackViews(opposite, levels, level, p, p');
  }

  lemma {:induction false} SameLength(p: Pool, p': Pool, at: Location)
    requires SameElsewhere(p, p', at)
    ensures |p'.slots| == |p.slots|
  {
  }

  lemma {:induction false} PutBackViews(side: Side, levels: seq<PoolLevel>, level: PoolLevel, p: Pool, p': Pool)
    requires levels != []
    requires LevelViews(side, levels[1..], p') == LevelViews(side, levels[1..], p)
    requires |Queue(p', Location(side, level.price))| == level.store.count
    ensures LevelViews(side, PutBackPool(levels, level), p')
              == PutBack(LevelViews(side, levels, p), LevelView(side, level, p'))
  {
    hide Queue;
    var views := LevelViews(side, levels, p);
    assert views[1..] == LevelViews(side, levels[1..], p);
    if level.store.count != 0 {
      forall i | 0 < i < |levels| ensures LevelView(side, levels[i], p') == views[i] {
        assert LevelViews(side, levels[1..], p')[i - 1] == LevelViews(side, levels[1..], p)[i - 1];
      }
    }
  }
}

/** What the pooled backend computes: the reference step, unless a resting order finds no slot. */
module PooledSpec {
  import opened Types
  import opened Reference

  /** An add that would rest without crossing anything while every slot is in use. */
  predicate OutOfSlots(st: State, capacity: nat, e: Event) {
    && e.kind == Add && AddError(st, e) == NoError && CanRest(e)
    && CrossingOf(st, e.side, LimitOf(e), e.qty) == 0
    && |st.bids| + |st.asks| >= capacity
  }

  function PooledStep(st: State, capacity: nat, e: Event): Outcome {
    if OutOfSlots(st, capacity, e) then Reject(CountAdd(st), CapacityExceeded) else Step(st, e)
  }

  /** The three ways an add can end, decided on the book whose request counter has been raised. */
  lemma {:induction false} PooledAddEnds(st: State, capacity: nat, e: Event)
    requires e.kind == Add
    ensures var counted := CountAdd(st);
            PooledStep(st, capacity, e)
              == if OutOfSlots(counted, capacity, e) then Outcome(CountReject(counted), CapacityExceeded, [])
                 else if AddError(counted, e) != NoError then Outcome(CountReject(counted), AddError(counted, e), [])
                 else Execute(counted, e.id, e.side, LimitOf(e), e.qty, CanRest(e))
  {
    hide Execute, Crossing, LevelQty;
    AddEnds(st, e);
  }
}

module Pooled {
  import opened Types
  import opened Reference
  import opened Matching
  import opened Invariants
  import opened PriceMap
  import opened Levels
  import opened OrderIndex
  import opened Filling
  import opened PoolShape
  import opened PoolLevels
  import opened PoolFilling
  import opened PooledSpec

  class PooledOrderBook {
    var bids: seq<PoolLevel>
    var asks: seq<PoolLevel>
    var slots: Slots
    var freeHead: SlotIndex
    var index: SlotMap
    var stats: Stats
    // The free list and the chain of each price level, as sequences of slots.
    ghost var free: Chain
    ghost var chains: Chains

    ghost function P(): Pool
      reads this
    {
      Pool(slots, freeHead, free, chains, index)
    }

    ghost function Views(side: Side): seq<OrderLevel>
      reads this
    {
      LevelViews(side, LevelsOf(side), P())
    }

    ghost function Book(): State
      reads this
    {
      State(Flatten(Views(Bid)), Flatten(Views(Ask)), stats)
    }

    ghost predicate Valid()
      reads this
    {
      && ShapeOk(P())
      && Mirrors(Bid, bids, P()) && Mirrors(Ask, asks, P())
      && LevelsOk(Bid, Views(Bid)) && LevelsOk(Ask, Views(Ask))
      && Inv(Book())
    }

    function LevelsOf(side: Side): seq<PoolLevel>
      reads this
    {
      if side == Bid then bids else asks
    }

    method SetLevels(side: Side, ls: seq<PoolLevel>)
      modifies `bids, `asks
      ensures LevelsOf(side) == ls && LevelsOf(side.Opposite()) == old(LevelsOf(side.Opposite()))
    {
      if side == Bid {
        bids := ls;
      } else {
        asks := ls;
      }
    }

    constructor ()
      ensures Valid() && Book() == EMPTY && Capacity(slots) == 0
    {
      bids, asks, slots, freeHead, index, stats := [], [], [], INVALID_SLOT, map[], NO_STATS;
      free, chains := [], map[];
    }

    /** Takes the head of the free list, or reports that it is empty. */
    method AllocateSlot() returns (slot: SlotIndex)
      requires ShapeOk(P())
      modifies `slots, `freeHead, `free
      ensures old(free) == [] <==> slot == INVALID_SLOT
      ensures slot == INVALID_SLOT ==> unchanged(this)
      ensures slot != INVALID_SLOT ==>
                && slot == old(freeHead) < |old(slots)| && old(free) != []
                && freeHead == old(slots)[slot].freeNext && free == old(free)[1..]
                && slots == old(slots)[slot := BLANK.(live := true)]
    {
      hide ShapeOk, ChainOk, ChainAt, LastOf;
      ShapeCounts(P());
      if freeHead == INVALID_SLOT {
        return INVALID_SLOT;
      }
      GrowSafe(P(), Location(Bid, 0));
      slot := freeHead;
      freeHead := slots[slot].freeNext;
      slots := slots[slot := BLANK];
      slots := slots[slot := slots[slot].(live := true)];
      free := free[1..];
    }

    method ReleaseSlot(slot: SlotIndex)
      requires slot < |slots|
      modifies `slots, `freeHead, `free
      ensures slots == Release(old(slots), slot, old(freeHead)) && freeHead == slot
      ensures free == [slot] + old(free)
    {
      slots := slots[slot := BLANK];
      slots := slots[slot := slots[slot].(freeNext := freeHead)];
      freeHead := slot;
      free := [slot] + free;
    }

    method AppendSlot(level: PoolLevel, slot: SlotIndex) returns (level': PoolLevel)
      requires slot < |slots| && level.store.tail < |slots| && level.store.tail != slot
      requires MIN_INT64 <= level.totalQty + slots[slot].qty <= MAX_INT64
      modifies `slots
      ensures slots == Append(old(slots), slot, level.store.tail)
      ensures level' == Level(level.price, level.totalQty + old(slots)[slot].qty, AppendFifo(level.store, slot))
    {
      slots := slots[slot := slots[slot].(prev := level.store.tail, next := INVALID_SLOT)];
      var head := level.store.head;
      if level.store.tail != INVALID_SLOT {
        slots := slots[level.store.tail := slots[level.store.tail].(next := slot)];
      } else {
        head := slot;
      }
      var totalQty: Quantity := level.totalQty + slots[slot].qty;
      level' := Level(level.price, totalQty, Fifo(head, slot, level.store.count + 1));
    }

    method UnlinkSlot(level: PoolLevel, slot: SlotIndex) returns (level': PoolLevel)
      requires slot < |slots| && slots[slot].prev < |slots| && slots[slot].next < |slots|
      requires slots[slot].prev != slot && slots[slot].next != slot
      requires level.store.count > 0
      requires MIN_INT64 <= level.totalQty - slots[slot].qty <= MAX_INT64
      modifies `slots
      ensures slots == Unlink(old(slots), slot) && |slots| == old(|slots|)
      ensures level' == Level(level.price, level.totalQty - old(slots)[slot].qty,
                              UnlinkFifo(level.store, old(slots)[slot]))
    {
      var order := slots[slot];
      var head, tail := level.store.head, level.store.tail;
      if order.prev != INVALID_SLOT {
        slots := slots[order.prev := slots[order.prev].(next := order.next)];
      } else {
        head := order.next;
      }
      if order.next != INVALID_SLOT {
        slots := slots[order.next := slots[order.next].(prev := order.prev)];
      } else {
        tail := order.prev;
      }
      var totalQty: Quantity := level.totalQty - order.qty;
      level' := Level(level.price, totalQty, Fifo(head, tail, level.store.count - 1));
    }

    /**
     Sizes the pool and forgets every order. A capacity whose slots, slot 0 included, cannot all be
     counted in 32 bits is refused before anything changes.
     */
    method ReserveOrders(capacity: nat) returns (ok: bool)
      modifies this
      ensures ok <==> capacity + 1 <= 0xFFFF_FFFF
      ensures ok ==> Valid() && Book() == EMPTY && Capacity(slots) == capacity && |slots| == capacity + 1
      ensures !ok ==> unchanged(this)
    {
      hide Valid, Book, ShapeOk;
      if capacity > MAX_CAPACITY {
        return false;
      }
      slots := BlankSlots(capacity);
      freeHead := if capacity == 0 then INVALID_SLOT else 1;
      index, bids, asks, stats := map[], [], [], NO_STATS;
      free, chains := seq(capacity, j requires 0 <= j < capacity => (j + 1) as SlotIndex), map[];
      FreshPool(P(), capacity);
      ResetIsEmpty();
      ok := true;
    }

    lemma {:induction false} ResetIsEmpty()
      requires ShapeOk(P()) && chains == map[] && bids == [] && asks == [] && stats == NO_STATS
      ensures Valid() && Book() == EMPTY
    {
      hide ShapeOk;
    }

    /** Slots 1 to `capacity`, each free and pointing to the next. */
    static method BlankSlots(capacity: nat) returns (blank: Slots)
      requires capacity <= MAX_CAPACITY
      ensures |blank| == capacity + 1
      ensures forall j :: 1 <= j <= capacity ==>
                blank[j] == BLANK.(freeNext := if j == capacity then INVALID_SLOT else j + 1)
    {
      blank := seq(capacity + 1, _ => BLANK);
      for i := 1 to capacity + 1
        invariant |blank| == capacity + 1
        invariant forall j :: 1 <= j < i ==>
                    blank[j] == BLANK.(freeNext := if j == capacity then INVALID_SLOT else j + 1)
        invariant forall j :: i <= j <= capacity ==> blank[j] == BLANK
      {
        blank := blank[i := blank[i].(freeNext := if i == capacity then INVALID_SLOT else i + 1)];
      }
    }

    /** The slot is taken from the free list, so this is called only when that is not empty. */
    method AddRestingOrder(id: OrderId, side: Side, price: Price, qty: Quantity)
      requires Valid() && !Contains(Book(), id) && qty > 0 && free != []
      requires LevelQty(Book().Orders(side), price) + qty <= MAX_INT64
      requires var q := Book().Orders(side.Opposite()); q == [] || !Crosses(side, price, q[0].price)
      modifies this
      ensures Valid() && |slots| == old(|slots|)
      ensures Book() == old(Book()).WithOrders(side, Insert(old(Book()).Orders(side), Order(id, side, price, qty)))
    {
      hide Inv, Insert, Flatten, LevelsOk, LevelQty, ShapeOk, Mirrors, LevelViews, Queue, Append, AppendFifo;
      hide HasId, LowerBound, ChainAt, LastOf, Put, HasPrice, Crosses;
      ghost var before, p0 := Book(), P();
      var at := Location(side, price);
      var o := Order(id, side, price, qty);
      var ls := LevelsOf(side);
      RestFacts(id, side, price, qty);

      var slot := AllocateSlot();
      if slot == INVALID_SLOT {
        assert false;
      }
      slots := slots[slot := slots[slot].(id := id, side := side, price := price, qty := qty)];
      assert slots == p0.slots[slot := Fresh(id, at, qty)];
      var level := PoolLevelFor(side, ls, price);
      level := AppendSlot(level, slot);
      SetLevels(side, Put(side, ls, level));
      index := index[id := slot];
      chains := chains[at := ChainAt(chains, at) + [slot]];
      assert P() == Grow(p0, at, id, qty);
      assert Views(side.Opposite()) == old(Views(side.Opposite()));
    }

    lemma {:induction false} RestFacts(id: OrderId, side: Side, price: Price, qty: Quantity)
      requires Valid() && !Contains(Book(), id) && qty > 0 && free != []
      requires LevelQty(Book().Orders(side), price) + qty <= MAX_INT64
      requires var q := Book().Orders(side.Opposite()); q == [] || !Crosses(side, price, q[0].price)
      ensures id !in index && ShapeOk(P()) && 0 < freeHead < |slots|
      ensures var level := PoolLevelFor(side, LevelsOf(side), price);
              && level.store.tail == LastOf(ChainAt(chains, Location(side, price))) < |slots|
              && level.store.tail != freeHead
              && level.price == price && 0 <= level.totalQty && level.totalQty + qty <= MAX_INT64
              && var p' := Grow(P(), Location(side, price), id, qty);
              && ShapeOk(p') && |p'.slots| == |slots|
              && var ls' := GrownLevels(side, LevelsOf(side), price, qty, freeHead);
              && Mirrors(side, ls', p') && LevelsOk(side, LevelViews(side, ls', p'))
              && Flatten(LevelViews(side, ls', p')) == Insert(Book().Orders(side), Order(id, side, price, qty))
              && Mirrors(side.Opposite(), LevelsOf(side.Opposite()), p')
              && LevelViews(side.Opposite(), LevelsOf(side.Opposite()), p') == Views(side.Opposite())
      ensures Inv(Book().WithOrders(side, Insert(Book().Orders(side), Order(id, side, price, qty))))
    {
      hide Inv, Insert, Flatten, LevelsOk, LevelQty, ShapeOk, Mirrors, LevelViews, Queue, Append, HasId, LowerBound,
        SameElsewhere, FifoOk;
      var o := Order(id, side, price, qty);
      var at := Location(side, price);
      var ls := LevelsOf(side);
      IndexIsBook(bids, asks, P(), id);
      GrowKeepsShape(P(), at, id, qty);
      GrowSafe(P(), at);
      LevelFifo(side, ls, P(), price);
      TailOfFifo(PoolLevelFor(side, ls, price).store, ChainAt(chains, at));
      TotalIsLevelQty(side, Views(side), price);
      ViewsAgree(side, ls, P(), price);
      SortedViews(side, Views(side));
      PutIsInsert(side, Views(side), o);
      GrowSame(P(), at, id, qty);
      SameLength(P(), Grow(P(), at, id, qty), at);
      NewLevelTotal(side, ls, Views(side), price);
      GrowMirrors(side, ls, P(), id, price, qty);
      GrowViews(side, ls, P(), id, price, qty);
      MirrorsElsewhere(side.Opposite(), LevelsOf(side.Opposite()), P(), Grow(P(), at, id, qty), at);
      RestKeepsInv(Book(), o);
    }

    /** Everything `RemoveOrder` relies on; `n` is the order's level and `k` its place in the chain. */
    lemma {:induction false} RemoveFacts(id: OrderId) returns (n: nat, k: nat)
      requires Valid() && id in index
      ensures var slot := index[id];
              && 0 < slot < |slots| && slots[slot].id == id && slots[slot].side == SideOf(Book(), id)
              && slots[slot].prev < |slots| && slots[slot].next < |slots|
              && slots[slot].prev != slot && slots[slot].next != slot
              && var side := slots[slot].side; var ls := LevelsOf(side); var at := Place(slots[slot]);
              && n == LowerBound(side, ls, at.price) < |ls| && ls[n].price == at.price
              && k < |ChainAt(chains, at)| && at in chains && chains[at][k] == slot
              && ls[n].store.count > 0 && 0 <= ls[n].totalQty - slots[slot].qty <= MAX_INT64
              && var ls' := DroppedLevels(ls, n, slots[slot]); var p' := Drop(P(), at, k);
              && ShapeOk(p') && Mirrors(side, ls', p') && |p'.slots| == |slots| && |p'.free| == |free| + 1
              && LevelsOk(side, LevelViews(side, ls', p'))
              && Flatten(LevelViews(side, ls', p')) == Without(Book().Orders(side), id)
              && Mirrors(side.Opposite(), LevelsOf(side.Opposite()), p')
              && LevelViews(side.Opposite(), LevelsOf(side.Opposite()), p') == Views(side.Opposite())
      ensures Inv(Removed(Book(), id))
    {
      n, k := SlotPlace(id);
      hide Inv, Flatten, LevelsOk, ShapeOk, Mirrors, LevelViews, Queue, HasId, LowerBound, Without, Drop, DroppedLevels,
        SameElsewhere, AllDistinct, LiveAt, SideOf;
      var slot := index[id];
      var side := slots[slot].side;
      IndexIsBook(bids, asks, P(), id);
      RemovedKeepsInv(Book(), id);
      DistinctSide(Book(), side);
      DroppedSide(side, LevelsOf(side), P(), n, k);
      DropSame(P(), Place(slots[slot]), k);
      var at := Place(slots[slot]);
      MirrorsElsewhere(side.Opposite(), LevelsOf(side.Opposite()), P(), Drop(P(), at, k), at);
    }

    lemma {:induction false} SlotPlace(id: OrderId) returns (n: nat, k: nat)
      requires Valid() && id in index
      ensures var slot := index[id];
              && 0 < slot < |slots| && slots[slot].id == id
              && var side := slots[slot].side; var ls := LevelsOf(side); var at := Place(slots[slot]);
              && n == LowerBound(side, ls, at.price) < |ls| && ls[n].price == at.price
              && k < |ChainAt(chains, at)| && at in chains && chains[at][k] == slot
              && slots[slot].prev != slot && slots[slot].next != slot
    {
      hide Inv, Flatten, LevelsOk, LevelViews, FreeOk, FifoOk, LowerBound;
      var slot := index[id];
      var at := Place(slots[slot]);
      assert slot in ChainAt(chains, at);
      k :| 0 <= k < |ChainAt(chains, at)| && ChainAt(chains, at)[k] == slot;
      n := LowerBound(at.side, LevelsOf(at.side), at.price);
      LinksAt(slots, at, chains[at], k);
      CutNeighbours(slots, at, chains[at], k);
    }

    method RemoveOrder(id: OrderId, slot: SlotIndex)
      requires Valid() && id in index && index[id] == slot
      modifies this
      ensures Valid() && Book() == Removed(old(Book()), id)
      ensures |slots| == old(|slots|) && |free| == old(|free|) + 1
    {
      hide Inv, Flatten, LevelsOk, ShapeOk, Mirrors, LevelViews, Queue, HasId, LowerBound, Without, Unlink;
      hide UnlinkFifo, Cut,
        SideOf;
      ghost var p0 := P();
      ghost var n, k := RemoveFacts(id);
      var side, price := slots[slot].side, slots[slot].price;
      var ls := LevelsOf(side);
      var i := LowerBound(side, ls, price);
      ghost var at := Location(side, price);

      var level := UnlinkSlot(ls[i], slot);
      if level.store.count == 0 {
        SetLevels(side, Erase(ls, i));
      } else {
        SetLevels(side, ls[i := level]);
      }
      index := index - {id};
      ReleaseSlot(slot);
      chains := WithChain(chains, at, Cut(chains[at], k));
      assert P() == Drop(p0, at, k);
      assert LevelsOf(side) == DroppedLevels(ls, i, p0.slots[slot]);
    }

    /** The inner loop of a match: consume one level from its head slot. */
    method FillLevel(level: PoolLevel, id: OrderId, side: Side, price: Price, qty: Quantity, trades: seq<Trade>,
                     ghost q0: seq<Order>, ghost qty0: int, ghost stats0: Stats, ghost trades0: seq<Trade>,
                     ghost done: seq<Trade>, ghost tail: seq<Order>)
      returns (level': PoolLevel, remaining: Quantity, trades': seq<Trade>, ghost done': seq<Trade>)
      requires ShapeOk(P()) && FifoOk(level.store, ChainAt(chains, Location(side.Opposite(), level.price)))
      requires FillCore(q0, id, side, price, qty0, LevelView(side.Opposite(), level, P()), tail, qty, done) && qty >= 0
      requires Positive(q0) && Positive(tail) && Crosses(side, price, level.price)
      requires 0 <= stats0.tradedQty && stats0.tradedQty + Crossing(q0, side, price, qty0) <= MAX_INT64
      requires trades == trades0 + done && stats == StatsAfter(stats0, done)
      modifies `slots, `freeHead, `free, `chains, `index, `stats
      ensures ShapeOk(P()) && FifoOk(level'.store, ChainAt(chains, Location(side.Opposite(), level.price)))
      ensures SameElsewhere(old(P()), P(), Location(side.Opposite(), level.price))
      ensures FillCore(q0, id, side, price, qty0, LevelView(side.Opposite(), level', P()), tail, remaining, done')
      ensures trades' == trades0 + done' && stats == StatsAfter(stats0, done')
      ensures level'.price == level.price && 0 <= remaining && (remaining == 0 || level'.store.count == 0)
    {
      hide ShapeOk, FifoOk, FillCore, SameElsewhere, Queue, Cut, TurnPool, WithChain, TradedQty, Crossing, Release,
        Positive, LevelView, OrderIn, LiveAt;
      ghost var p0 := P();
      ghost var at := Location(side.Opposite(), level.price);
      level', remaining, trades', done' := level, qty, trades, done;
      SameReflexive(p0, at);
      while remaining > 0 && level'.store.head != INVALID_SLOT
        invariant 0 <= remaining && level'.price == level.price
        invariant ShapeOk(P()) && FifoOk(level'.store, ChainAt(chains, at)) && SameElsewhere(p0, P(), at)
        invariant FillCore(q0, id, side, price, qty0, LevelView(side.Opposite(), level', P()), tail, remaining, done')
        invariant trades' == trades0 + done' && stats == StatsAfter(stats0, done')
        decreases remaining
      {
        ghost var p := P();
        PoolTurn(q0, id, side, price, qty0, level', p, tail, remaining, done');
        TurnWrites(p, at, Min(remaining, p.slots[level'.store.head].qty));
        var slot := level'.store.head;
        var resting := slots[slot];
        var fill: Quantity := Min(remaining, resting.qty);
        SameTwice(p0, p, TurnPool(p, at, fill), at);

        trades' := trades' + [Trade(resting.id, id, resting.price, fill, side)];
        var tradedQty: Quantity := stats.tradedQty + fill;
        stats := stats.(trades := stats.trades + 1, tradedQty := tradedQty);
        done' := done' + [Trade(resting.id, id, resting.price, fill, side)];
        remaining := remaining - fill;
        slots := slots[slot := resting.(qty := resting.qty - fill)];
        var totalQty: Quantity := level'.totalQty - fill;
        if resting.qty == fill {
          index := index - {resting.id};
          var next := resting.next;
          if next != INVALID_SLOT {
            slots := slots[next := slots[next].(prev := INVALID_SLOT)];
          }
          var tailSlot := if level'.store.tail == slot then INVALID_SLOT else level'.store.tail;
          level' := Level(level'.price, totalQty, Fifo(next, tailSlot, level'.store.count - 1));
          ReleaseSlot(slot);
          chains := WithChain(chains, at, Cut(chains[at], 0));
        } else {
          level' := level'.(totalQty := totalQty);
        }
        assert P() == TurnPool(p, at, fill);
      }
      HeadFacts(P(), at, level'.store);
    }

    method MatchIncoming(id: OrderId, side: Side, price: Price, qty: Quantity, trades: seq<Trade>)
      returns (remaining: Quantity, trades': seq<Trade>)
      requires Valid() && qty >= 0
      requires stats.tradedQty + CrossingOf(Book(), side, price, qty) <= MAX_INT64
      modifies this
      ensures Valid() && Book() == Execute(old(Book()), id, side, price, qty, false).state
      ensures |slots| == old(|slots|)
      ensures var m := Match(old(Book()).Orders(side.Opposite()), id, side, price, qty);
              remaining == m.remaining && trades' == trades + m.trades
    {
      hide ShapeOk, Mirrors, FillCore, SweepCore, Inv, Match, Flatten, LevelViews, FifoOk, SameElsewhere;
      hide LevelsOk, LowerBound;
      ghost var before, p0 := Book(), P();
      var levels := LevelsOf(side.Opposite());
      ghost var own := LevelsOf(side);
      ghost var q0, stats0, done := Flatten(Views(side.Opposite())), stats, [];
      remaining, trades' := qty, trades;
      InvFacts(before, side);
      SweepStarts(Views(side.Opposite()), id, side, price, qty);
      var i := 0;
      while remaining > 0 && i < |levels| && Crosses(side, price, levels[i].price)
        invariant 0 <= i && 0 <= remaining && (remaining > 0 ==> i == 0)
        invariant PoolSweep(q0, id, side, price, qty, levels, own, P(), p0, remaining, done)
        invariant trades' == trades + done && stats == StatsAfter(stats0, done)
        invariant bids == old(bids) && asks == old(asks)
        decreases |levels| - i
      {
        ghost var p := P();
        ghost var qty', done' := remaining, done;
        PoolSweepEnters(q0, id, side, price, qty, levels, own, p, p0, remaining, done);
        var level: PoolLevel;
        level, remaining, trades', done :=
          FillLevel(levels[i], id, side, price, remaining, trades', q0, qty, stats0, trades, done,
                    Flatten(LevelViews(side.Opposite(), levels[1..], p)));
        PoolSweepLeaves(q0, id, side, price, qty, levels, own, p, p0, P(), level, qty', done', remaining, done);
        if level.store.count == 0 {
          assert Erase(levels, i) == levels[1..];
          levels := Erase(levels, i);
        } else {
          levels := levels[i := level];
          i := i + 1;
        }
      }
      PoolSweepEnds(q0, id, side, price, qty, levels, own, P(), p0, remaining, done);
      SetLevels(side.Opposite(), levels);
      MatchKeepsInv(before, id, side, price, qty);
    }

    /** The cached totals stand in for the reference's scans. */
    lemma {:induction false} TotalsAnswerScans(side: Side, price: Price, qty: int)
      requires Valid() && qty >= 0
      ensures TotalsOk(LevelsOf(side.Opposite()))
      ensures LevelCrossing(LevelsOf(side.Opposite()), side, price, qty) == CrossingOf(Book(), side, price, qty)
      ensures TotalAt(side, LevelsOf(side), price) == LevelQty(Book().Orders(side), price)
      ensures !HasPrice(side, LevelsOf(side), price) ==> LevelQty(Book().Orders(side), price) == 0
      ensures 0 <= CrossingOf(Book(), side, price, qty) <= qty
    {
      hide ShapeOk, Mirrors, Inv, Flatten, LevelsOk, Queue, LowerBound;
      LevelCrossingIsCrossing(Views(side.Opposite()), side, price, qty);
      LevelCrossingBounds(Views(side.Opposite()), side, price, qty);
      ViewsSame(side.Opposite(), LevelsOf(side.Opposite()), P());
      LevelCrossingSame(LevelsOf(side.Opposite()), Views(side.Opposite()), side, price, qty);
      TotalIsLevelQty(side, Views(side), price);
      ViewsAgree(side, LevelsOf(side), P(), price);
    }

    /** The free list is empty exactly when as many orders rest as there are slots. */
    lemma {:induction false} FreeSlots()
      requires Valid()
      ensures |free| == Capacity(slots) - |Book().bids| - |Book().asks|
      ensures freeHead == INVALID_SLOT <==> free == []
      ensures |index| == |Book().bids| + |Book().asks|
    {
      hide ShapeOk, Mirrors, Inv, Flatten, LevelsOk, LevelViews, AllDistinct;
      InvFacts(Book(), Bid);
      UsedSlots(bids, asks, P());
      ShapeCounts(P());
    }

    /** An empty free list is refilled by any match that leaves a remainder after crossing something. */
    lemma {:induction false} SlotAfterMatch(before: State, freeBefore: nat, id: OrderId, side: Side, price: Price,
                                        qty: Quantity)
      requires Valid() && Inv(before) && qty > 0
      requires freeBefore == Capacity(slots) - |before.bids| - |before.asks|
      requires Book() == Execute(before, id, side, price, qty, false).state
      requires Match(before.Orders(side.Opposite()), id, side, price, qty).remaining > 0
      requires freeBefore > 0 || CrossingOf(before, side, price, qty) != 0
      ensures free != []
    {
      hide Valid, Book, Inv, Match, Crossing, Execute, CrossingOf;
      FreeSlots();
      MatchMakesRoom(before, id, side, price, qty);
    }

    /** The common end of an accepted add or modify. */
    method MatchAndRest(id: OrderId, side: Side, price: Price, qty: Quantity, rests: bool, trades: seq<Trade>)
      returns (trades': seq<Trade>)
      requires Valid() && !Contains(Book(), id) && qty > 0
      requires !AddWouldOverflow(stats.tradedQty, CrossingOf(Book(), side, price, qty))
      requires rests ==>
                 !AddWouldOverflow(LevelQty(Book().Orders(side), price), qty - CrossingOf(Book(), side, price, qty))
      requires rests ==> free != [] || CrossingOf(Book(), side, price, qty) != 0
      modifies this
      ensures Valid() && |slots| == old(|slots|)
      ensures var expected := Execute(old(Book()), id, side, price, qty, rests);
              Book() == expected.state && NoError == expected.error && trades' == trades + expected.trades
    {
      hide Inv, Flatten, LevelsOk, ShapeOk, Mirrors, LevelViews, Crossing, LevelQty, Match, Insert, HasId;
      ghost var before := Book();
      InvFacts(before, side);
      FreeSlots();
      ghost var freeBefore := |free|;
      var remaining;
      remaining, trades' := MatchIncoming(id, side, price, qty, trades);
      if remaining > 0 && rests {
        RestReady(before, id, side, price, qty);
        SlotAfterMatch(before, freeBefore, id, side, price, qty);
        AddRestingOrder(id, side, price, remaining);
      }
    }

    method RejectRequest()
      modifies `stats
      ensures Book() == CountReject(old(Book()))
      ensures old(Valid()) ==> Valid()
    {
      hide ShapeOk, Mirrors, LevelViews, Flatten, LevelsOk;
      stats := stats.(rejectedRequests := stats.rejectedRequests + 1);
    }

    method CountAddRequest()
      requires Valid()
      modifies `stats
      ensures Valid() && Book() == CountAdd(old(Book()))
    {
      hide ShapeOk, Mirrors, LevelViews, Flatten, LevelsOk;
      stats := stats.(addRequests := stats.addRequests + 1);
    }

    lemma {:induction false} IndexAnswers(id: OrderId)
      requires Valid()
      ensures id in index <==> Contains(Book(), id)
      ensures Book().stats == stats && Inv(Book()) && 0 <= stats.tradedQty <= MAX_INT64
    {
      hide ShapeOk, Mirrors, LevelViews, Flatten, LevelsOk, HasId;
      IndexIsBook(bids, asks, P(), id);
      InvFacts(Book(), Bid);
    }

    method AddOrderWithPolicy(e: Event, trades: seq<Trade>) returns (error: BookError, trades': seq<Trade>)
      requires Valid() && e.kind == Add
      modifies this
      ensures Valid() && |slots| == old(|slots|)
      ensures var expected := PooledStep(old(Book()), Capacity(slots), e);
              Book() == expected.state && error == expected.error && trades' == trades + expected.trades
      ensures error != NoError ==>
                && bids == old(bids) && asks == old(asks) && slots == old(slots) && freeHead == old(freeHead)
                && index == old(index)
    {
      hide Valid, Book, Inv, Crossing, LevelQty, LevelCrossing, Execute, HasId, TotalsOk, LowerBound, HasPrice, TotalAt,
        PooledStep, CountAdd, CountReject, CrossingOf, LevelsOf;
      trades' := trades;
      PooledAddEnds(Book(), Capacity(slots), e);
      CountAddRequest();
      IndexAnswers(e.id);
      var isMarket := e.orderType == Market;
      if (!isMarket && e.price <= 0) || (isMarket && e.postOnly) {
        RejectRequest();
        return if isMarket && e.postOnly then WouldTakeLiquidity else InvalidPrice, trades;
      }
      if e.qty <= 0 {
        RejectRequest();
        return InvalidQuantity, trades;
      }
      if e.id in index {
        RejectRequest();
        return DuplicateOrderId, trades;
      }
      var price: Price := if !isMarket then e.price else if e.side == Bid then MAX_INT64 else MIN_INT64;
      var timeInForce := if isMarket then ImmediateOrCancel else e.timeInForce;
      TotalsAnswerScans(e.side, price, e.qty);
      var crossingQty := MaxCrossingQty(LevelsOf(e.side.Opposite()), e.side, price, e.qty);
      var restingQty := e.qty - crossingQty;
      var canRest := !isMarket && timeInForce == GoodTilCancel;
      if timeInForce == FillOrKill && crossingQty < e.qty {
        RejectRequest();
        return InsufficientLiquidity, trades;
      }
      if e.postOnly && crossingQty != 0 {
        RejectRequest();
        return WouldTakeLiquidity, trades;
      }
      var levelOverflow := canRest && HasPrice(e.side, LevelsOf(e.side), price)
                           && AddWouldOverflow(TotalAt(e.side, LevelsOf(e.side), price), restingQty);
      if levelOverflow || AddWouldOverflow(stats.tradedQty, crossingQty) {
        RejectRequest();
        return QuantityOverflow, trades;
      }
      FreeSlots();
      if canRest && restingQty > 0 && freeHead == INVALID_SLOT && crossingQty == 0 {
        RejectRequest();
        return CapacityExceeded, trades;
      }
      trades' := MatchAndRest(e.id, e.side, price, e.qty, timeInForce == GoodTilCancel && !isMarket, trades);
      error := NoError;
    }

    method AddOrder(id: OrderId, side: Side, price: Price, qty: Quantity, trades: seq<Trade>)
      returns (error: BookError, trades': seq<Trade>)
      requires Valid()
      modifies this
      ensures Valid() && |slots| == old(|slots|)
      ensures var expected := PooledStep(old(Book()), Capacity(slots), LimitAdd(id, side, price, qty));
              Book() == expected.state && error == expected.error && trades' == trades + expected.trades
      ensures error != NoError ==>
                && bids == old(bids) && asks == old(asks) && slots == old(slots) && freeHead == old(freeHead)
                && index == old(index)
    {
      hide Valid, Book, PooledStep;
      error, trades' := AddOrderWithPolicy(LimitAdd(id, side, price, qty), trades);
    }

    method CancelOrder(id: OrderId) returns (error: BookError)
      requires Valid()
      modifies this
      ensures Valid() && |slots| == old(|slots|)
      ensures var expected := CancelStep(old(Book()), id);
              Book() == expected.state && error == expected.error && expected.trades == []
      ensures error != NoError ==>
                && bids == old(bids) && asks == old(asks) && slots == old(slots) && freeHead == old(freeHead)
                && index == old(index)
    {
      hide Valid, Book, HasId, Without;
      CountCancelRequest();
      IndexAnswers(id);
      if id !in index {
        RejectRequest();
        return UnknownOrderId;
      }
      RemoveOrder(id, index[id]);
      error := NoError;
    }

    method CountCancelRequest()
      requires Valid()
      modifies `stats
      ensures Valid() && Book() == CountCancel(old(Book()))
    {
      hide ShapeOk, Mirrors, LevelViews, Flatten, LevelsOk;
      stats := stats.(cancelRequests := stats.cancelRequests + 1);
    }

    method CountModifyRequest()
      requires Valid()
      modifies `stats
      ensures Valid() && Book() == CountModify(old(Book()))
    {
      hide ShapeOk, Mirrors, LevelViews, Flatten, LevelsOk;
      stats := stats.(modifyRequests := stats.modifyRequests + 1);
    }

    /** The slot an indexed id points at holds the order at some place `i` of its side. */
    lemma {:induction false} CurrentAt(id: OrderId) returns (i: nat)
      requires Valid() && id in index
      ensures index[id] < |slots| && slots[index[id]].side == SideOf(Book(), id)
      ensures var q := Book().Orders(slots[index[id]].side);
              i < |q| && q[i] == OrderIn(slots, index[id]) && q[i].id == id
    {
      var n, k := RemoveFacts(id);
      hide ShapeOk, Mirrors, Flatten, LevelsOk, LowerBound, Inv, Drop, DroppedLevels, SideOf, Without, HasId;
      assert Views(slots[index[id]].side)[n].store[k] == OrderIn(slots, index[id]);
      i := InFlat(Views(slots[index[id]].side), n, k);
    }

    /** What a modify reads before it decides, all of it equal to the reference's scans. */
    lemma {:induction false} ModifyReads(id: OrderId, newPrice: Price, newQty: Quantity)
      requires Valid() && id in index
      ensures index[id] < |slots|
      ensures var current := slots[index[id]];
              && current.side == SideOf(Book(), id) && current.qty >= 0
              && LevelQty(Without(Book().Orders(current.side), id), newPrice)
                 == TotalAt(current.side, LevelsOf(current.side), newPrice)
                    - (if current.price == newPrice then current.qty else 0) >= 0
    {
      var i := CurrentAt(id);
      hide ShapeOk, Mirrors, Flatten, LevelsOk, LowerBound, Inv, LevelViews, SideOf, Without, HasId, LevelQty,
        IndexOfId, HasPrice, TotalAt;
      var side := slots[index[id]].side;
      var q := Book().Orders(side);
      InvFacts(Book(), side);
      DistinctSide(Book(), side);
      OnlyWithId(q, id, i);
      LevelQtyWithout(q, id, newPrice);
      TotalIsLevelQty(side, Views(side), newPrice);
      ViewsAgree(side, LevelsOf(side), P(), newPrice);
      RemovedKeepsInv(Book(), id);
      InvFacts(Removed(Book(), id), side);
      LevelQtyBounds(Without(q, id), newPrice);
    }

    method ModifyOrder(e: Event, trades: seq<Trade>) returns (error: BookError, trades': seq<Trade>)
      requires Valid() && e.kind == Modify
      modifies this
      ensures Valid() && |slots| == old(|slots|)
      ensures var expected := Step(old(Book()), e);
              Book() == expected.state && error == expected.error && trades' == trades + expected.trades
      ensures error != NoError ==>
                && bids == old(bids) && asks == old(asks) && slots == old(slots) && freeHead == old(freeHead)
                && index == old(index)
    {
      hide Valid, Book, Inv, Crossing, LevelQty, LevelCrossing, Execute, HasId, TotalsOk, LowerBound, Without,
        Step, CountModify, CountReject, SideOf;
      ModifyEnds(Book(), e);
      CountModifyRequest();
      ghost var counted := Book();
      IndexAnswers(e.id);
      if e.id !in index {
        RejectRequest();
        return UnknownOrderId, trades;
      }
      if e.newPrice <= 0 {
        RejectRequest();
        return InvalidPrice, trades;
      }
      if e.newQty <= 0 {
        RejectRequest();
        return InvalidQuantity, trades;
      }
      ModifyReads(e.id, e.newPrice, e.newQty);
      var current := slots[index[e.id]];
      var side := current.side;
      var existingLevelQty: Quantity := 0;
      if HasPrice(side, LevelsOf(side), e.newPrice) {
        existingLevelQty := TotalAt(side, LevelsOf(side), e.newPrice);
        if current.price == e.newPrice {
          existingLevelQty := existingLevelQty - current.qty;
        }
      }
      TotalsAnswerScans(side, e.newPrice, e.newQty);
      var crossingQty := MaxCrossingQty(LevelsOf(side.Opposite()), side, e.newPrice, e.newQty);
      var restingQty := e.newQty - crossingQty;
      if AddWouldOverflow(existingLevelQty, restingQty) || AddWouldOverflow(stats.tradedQty, crossingQty) {
        RejectRequest();
        return QuantityOverflow, trades;
      }
      RemoveOrder(e.id, index[e.id]);
      RemovedKeepsInv(counted, e.id);
      IndexAnswers(e.id);
      trades' := MatchAndRest(e.id, side, e.newPrice, e.newQty, true, trades);
      error := NoError;
    }

    method Process(e: Event, trades: seq<Trade>) returns (error: BookError, trades': seq<Trade>)
      requires Valid()
      modifies this
      ensures Valid() && |slots| == old(|slots|)
      ensures var expected := PooledStep(old(Book()), Capacity(slots), e);
              Book() == expected.state && error == expected.error && trades' == trades + expected.trades
      ensures error != NoError ==>
                && bids == old(bids) && asks == old(asks) && slots == old(slots) && freeHead == old(freeHead)
                && index == old(index)
    {
      hide Valid, Book, AddWith, ModifyWith, AddError, ModifyError, CancelStep, CrossingOf;
      match e.kind {
        case Add => error, trades' := AddOrderWithPolicy(e, trades);
        case Cancel =>
          error := CancelOrder(e.id);
          trades' := trades;
        case Modify => error, trades' := ModifyOrder(e, trades);
      }
    }

    function LiveOrderCount(): (n: nat)
      requires Valid()
      reads this
      ensures n == |Book().bids| + |Book().asks|
    {
      hide ShapeOk, Mirrors, Inv, Flatten, LevelsOk, LevelViews;
      FreeSlots();
      |index|
    }

    /** Walks the levels best price first and each chain along its `next` links. */
    method Orders(side: Side) returns (snapshots: seq<Order>)
      requires Valid()
      ensures snapshots == Book().Orders(side)
    {
      hide Inv, Flatten, ShapeOk, LevelsOk, Mirrors;
      var ls := LevelsOf(side);
      ghost var views := Views(side);
      snapshots := [];
      assert Flatten([]) == [] by {
        FlattenEmpty();
      }
      for i := 0 to |ls|
        invariant snapshots == Flatten(views[..i])
      {
        var q := LevelOrders(side, i);
        assert views[..i + 1] == views[..i] + [views[i]] + [];
        FlattenMid(views[..i], views[i], []);
        FlattenEmpty();
        snapshots := snapshots + q;
      }
      assert views[..|ls|] == views;
    }

    lemma {:induction false} LevelChain(side: Side, i: nat)
      requires Valid() && i < |LevelsOf(side)|
      ensures var level := LevelsOf(side)[i]; var at := Location(side, level.price);
              && at in chains && ChainOk(slots, at, chains[at])
              && level.store.head == (if chains[at] == [] then INVALID_SLOT else chains[at][0])
              && Views(side)[i].store == View(slots, chains[at])
    {
      hide Inv, Flatten, LevelsOk, FreeOk, Covered, IndexBijective, ChainOk, View, LowerBound;
      var at := Location(side, LevelsOf(side)[i].price);
      assert chains[at] == ChainAt(chains, at);
    }

    lemma {:induction false} SlotInView(at: Location, chain: Chain, k: nat)
      requires ChainOk(slots, at, chain) && k < |chain|
      ensures 0 < chain[k] < |slots| && slots[chain[k]].side == at.side && slots[chain[k]].price == at.price
      ensures View(slots, chain)[k] == OrderIn(slots, chain[k])
    {
      hide Linked;
    }

    method LevelOrders(side: Side, i: nat) returns (q: seq<Order>)
      requires Valid() && i < |LevelsOf(side)|
      ensures q == Views(side)[i].store
    {
      hide Valid, Views, ChainOk, View;
      LevelChain(side, i);
      var level := LevelsOf(side)[i];
      ghost var at := Location(side, level.price);
      ghost var chain := chains[at];
      ghost var view := View(slots, chain);
      assert |view| == |chain| by {
        ViewLength(slots, chain);
      }
      var slot := level.store.head;
      q := [];
      ghost var k := 0;
      while slot != INVALID_SLOT
        invariant 0 <= k <= |chain| && q == view[..k]
        invariant slot == if k == |chain| then INVALID_SLOT else chain[k]
        decreases |chain| - k
      {
        LinksAt(slots, at, chain, k);
        SlotInView(at, chain, k);
        var order := slots[slot];
        q := q + [Order(order.id, order.side, level.price, order.qty)];
        slot := order.next;
        k := k + 1;
      }
      if k < |chain| {
        SlotInView(at, chain, k);
      }
      assert view[..|chain|] == view;
    }
  }

  lemma {:induction false} ViewLength(slots: Slots, chain: Chain)
    ensures |View(slots, chain)| == |chain|
  {
  }

  lemma {:induction false} FlattenEmpty()
    ensures Flatten([]) == []
  {
  }

  lemma {:induction false} ViewsSame(side: Side, levels: seq<PoolLevel>, p: Pool)
    ensures |LevelViews(side, levels, p)| == |levels|
    ensures forall i :: 0 <= i < |levels| ==>
              && LevelViews(side, levels, p)[i].price == levels[i].price
              && LevelViews(side, levels, p)[i].totalQty == levels[i].totalQty
    ensures TotalsOk(levels) <==> TotalsOk(LevelViews(side, levels, p))
  {
  }

  lemma {:induction false} SameReflexive(p: Pool, at: Location)
    ensures SameElsewhere(p, p, at)
  {
  }

  lemma {:induction false} PoolSweepEnds(q0: seq<Order>, id: OrderId, side: Side, price: int, qty0: int,
                      levels: seq<PoolLevel>, own: seq<PoolLevel>, p: Pool, p0: Pool, qty: int, done: seq<Trade>)
    requires PoolSweep(q0, id, side, price, qty0, levels, own, p, p0, qty, done)
    requires qty == 0 || levels == [] || !Crosses(side, price, levels[0].price)
    ensures var views := LevelViews(side.Opposite(), levels, p);
            Match(q0, id, side, price, qty0) == Matched(Flatten(views), done, qty) && LevelsOk(side.Opposite(), views)
  {
    hide ShapeOk, SweepCore, Flatten, Match, Queue, Mirrors;
    SweepEnds(q0, id, side, price, qty0, LevelViews(side.Opposite(), levels, p), qty, done);
  }

  lemma {:induction false} DropRoom(p: Pool, at: Location, k: nat)
    requires ShapeOk(p) && k < |ChainAt(p.chains, at)|
    ensures at in p.chains && p.chains[at][k] < |p.slots|
  {
    DropSafe(p, at, k);
  }

  lemma {:induction false} DropFits(side: Side, levels: seq<PoolLevel>, p: Pool, n: nat, k: nat)
    requires ShapeOk(p) && n < |levels| && LevelsOk(side, LevelViews(side, levels, p))
    requires k < |ChainAt(p.chains, Location(side, levels[n].price))|
    ensures var s := ChainAt(p.chains, Location(side, levels[n].price))[k];
            s < |p.slots| && 0 <= levels[n].totalQty - p.slots[s].qty <= MAX_INT64
  {
    hide ShapeOk, Flatten, SortedLevels;
    var at := Location(side, levels[n].price);
    DropRoom(p, at, k);
    var views := LevelViews(side, levels, p);
    assert LevelOk(side, views[n]);
    assert views[n].store[k] == OrderIn(p.slots, p.chains[at][k]);
    SumQtyDrop(views[n].store, k);
  }

  /** Dropping a slot from the pool and its level's list is removing its order from that side. */
  lemma {:induction false} DroppedSide(side: Side, ls: seq<PoolLevel>, p: Pool, n: nat, k: nat)
    requires ShapeOk(p) && Mirrors(side, ls, p) && LevelsOk(side, LevelViews(side, ls, p))
    requires DistinctIds(Flatten(LevelViews(side, ls, p)))
    requires n < |ls| && k < |ChainAt(p.chains, Location(side, ls[n].price))|
    ensures var at := Location(side, ls[n].price);
            && at in p.chains && p.chains[at][k] < |p.slots|
            && var o := p.slots[p.chains[at][k]];
            && o.prev < |p.slots| && o.next < |p.slots|
            && ls[n].store.count > 0 && 0 <= ls[n].totalQty - o.qty <= MAX_INT64
            && var ls' := DroppedLevels(ls, n, o); var p' := Drop(p, at, k);
            && ShapeOk(p') && |p'.slots| == |p.slots| && |p'.free| == |p.free| + 1
            && Mirrors(side, ls', p') && LevelsOk(side, LevelViews(side, ls', p'))
            && Flatten(LevelViews(side, ls', p')) == Without(Flatten(LevelViews(side, ls, p)), o.id)
  {
    hide Flatten, LevelsOk, ShapeOk, Mirrors, LevelViews, Queue, Without, Drop, DroppedLevels, SameElsewhere, DropAt,
      LiveAt, DistinctIds;
    var at := Location(side, ls[n].price);
    var views := LevelViews(side, ls, p);
    ViewsSame(side, ls, p);
    SortedViews(side, views);
    DropKeepsShape(p, at, k);
    DropRoom(p, at, k);
    DropSame(p, at, k);
    SameLength(p, Drop(p, at, k), at);
    DropFits(side, ls, p, n, k);
    DropMirrors(side, ls, p, n, k);
    DropViews(side, ls, p, n, k);
    DropIsWithout(side, views, n, k);
  }

  /** A match that leaves a remainder adds no order to the book and takes one out if anything crossed. */
  lemma {:induction false} MatchMakesRoom(st: State, id: OrderId, side: Side, price: Price, qty: int)
    requires Inv(st) && qty > 0 && Match(st.Orders(side.Opposite()), id, side, price, qty).remaining > 0
    ensures var after := Execute(st, id, side, price, qty, false).state;
            |after.bids| + |after.asks|
              <= |st.bids| + |st.asks| - if CrossingOf(st, side, price, qty) != 0 then 1 else 0
  {
    hide Inv, Match, Crossing;
    InvFacts(st, side);
    var q := st.Orders(side.Opposite());
    MatchLeavesTail(q, id, side, price, qty);
    if CrossingOf(st, side, price, qty) != 0 {
      RemainderFreesAnOrder(q, id, side, price, qty);
    }
  }

  lemma {:induction false} TailOfFifo(fifo: Fifo, chain: Chain)
    requires FifoOk(fifo, chain)
    ensures fifo.tail == LastOf(chain) && fifo.head == (if chain == [] then INVALID_SLOT else chain[0])
    ensures chain != [] ==> LastOf(chain) in chain
  {
  }

  lemma {:induction false} SortedViews(side: Side, ls: seq<OrderLevel>)
    requires LevelsOk(side, ls)
    ensures SortedLevels(side, ls)
  {
  }

  lemma {:induction false} NewLevelTotal(side: Side, ls: seq<PoolLevel>, views: seq<OrderLevel>, price: Price)
    requires TotalAt(side, ls, price) == TotalAt(side, views, price)
    ensures PoolLevelFor(side, ls, price).totalQty == TotalAt(side, views, price)
    ensures PoolLevelFor(side, ls, price).price == price
  {
  }

  lemma {:induction false} FreshFree(slots: Slots, freeHead: SlotIndex, free: Chain)
    requires |slots| == |free| + 1 <= MAX_CAPACITY + 1
    requires forall j :: 1 <= j <= |free| ==>
               slots[j] == BLANK.(freeNext := if j == |free| then INVALID_SLOT else j + 1)
    requires freeHead == if free == [] then INVALID_SLOT else 1
    requires forall j :: 0 <= j < |free| ==> free[j] == j + 1
    ensures FreeOk(slots, freeHead, free)
  {
    forall k | 0 <= k < |free| ensures slots[free[k]].freeNext == (if k + 1 == |free| then INVALID_SLOT else k + 2) {
      assert slots[k + 1].freeNext == if k + 1 == |free| then INVALID_SLOT else k + 2;
    }
  }

  lemma {:induction false} FreshPool(p: Pool, capacity: nat)
    requires capacity <= MAX_CAPACITY && |p.slots| == capacity + 1
    requires forall j :: 1 <= j <= capacity ==>
               p.slots[j] == BLANK.(freeNext := if j == capacity then INVALID_SLOT else j + 1)
    requires p.freeHead == if capacity == 0 then INVALID_SLOT else 1
    requires |p.free| == capacity && forall j :: 0 <= j < capacity ==> p.free[j] == j + 1
    requires p.chains == map[] && p.index == map[]
    ensures ShapeOk(p)
  {
    hide FreeOk;
    FreshFree(p.slots, p.freeHead, p.free);
    forall s: SlotIndex | 0 < s < |p.slots| ensures s in p.free {
      assert p.free[s - 1] == s;
    }
  }
}
