/**
 The pooled store: orders live in numbered slots, chained into one FIFO per price level;
 unused slots are chained into a free list. Slot 0 is "no slot".
 */
module PoolShape {
  import opened Types
  import opened Reference
  import opened PriceMap
  import opened OrderIndex

  type SlotIndex = x: int | 0 <= x < 0x1_0000_0000
  const INVALID_SLOT: SlotIndex := 0
  const MAX_CAPACITY := 0xFFFF_FFFE

  datatype OrderSlot = OrderSlot(
    id: OrderId, side: Side, price: Price, qty: Quantity,
    prev: SlotIndex, next: SlotIndex, freeNext: SlotIndex, live: bool)

  const BLANK := OrderSlot(0, Bid, 0, 0, INVALID_SLOT, INVALID_SLOT, INVALID_SLOT, false)

  datatype Fifo = Fifo(head: SlotIndex, tail: SlotIndex, count: nat)

  type PoolLevel = Level<Fifo>
  type Slots = seq<OrderSlot>
  type Chain = seq<SlotIndex>
  type Chains = map<Location, Chain>
  type SlotMap = map<OrderId, SlotIndex>

  // ---- What the source's slot operations assign

  function Unlink(slots: Slots, s: SlotIndex): Slots
    requires s < |slots| && slots[s].prev < |slots| && slots[s].next < |slots|
  {
    var p, n := slots[s].prev, slots[s].next;
    var slots1 := if p != INVALID_SLOT then slots[p := slots[p].(next := n)] else slots;
    if n != INVALID_SLOT then slots1[n := slots1[n].(prev := p)] else slots1
  }

  function UnlinkFifo(fifo: Fifo, o: OrderSlot): Fifo
    requires fifo.count > 0
  {
    Fifo(if o.prev != INVALID_SLOT then fifo.head else o.next,
         if o.next != INVALID_SLOT then fifo.tail else o.prev,
         fifo.count - 1)
  }

  function Release(slots: Slots, s: SlotIndex, freeHead: SlotIndex): Slots
    requires s < |slots|
  {
    slots[s := BLANK.(freeNext := freeHead)]
  }

  function Append(slots: Slots, s: SlotIndex, tail: SlotIndex): Slots
    requires s < |slots| && tail < |slots|
  {
    var slots1 := slots[s := slots[s].(prev := tail, next := INVALID_SLOT)];
    if tail != INVALID_SLOT then slots1[tail := slots1[tail].(next := s)] else slots1
  }

  function AppendFifo(fifo: Fifo, s: SlotIndex): Fifo {
    Fifo(if fifo.tail != INVALID_SLOT then fifo.head else s, s, fifo.count + 1)
  }

  // ---- Well-formed chains

  ghost predicate LiveAt(o: OrderSlot, at: Location) {
    o.live && o.side == at.side && o.price == at.price
  }

  ghost predicate NoRepeats(chain: Chain) {
    forall j, k :: 0 <= j < k < |chain| ==> chain[j] != chain[k]
  }

  /** Slots that are all live at one price, in range, without repetition. */
  ghost predicate Members(slots: Slots, at: Location, chain: Chain) {
    && (forall k :: 0 <= k < |chain| ==> 0 < chain[k] < |slots| && LiveAt(slots[chain[k]], at))
    && NoRepeats(chain)
  }

  /** `prev` and `next` mirror each other along the chain and stop at its ends. */
  ghost predicate Linked(slots: Slots, chain: Chain)
    requires forall k :: 0 <= k < |chain| ==> chain[k] < |slots|
  {
    && (forall j, k :: 0 <= j && k == j + 1 && k < |chain| ==>
          slots[chain[j]].next == chain[k] && slots[chain[k]].prev == chain[j])
    && (chain != [] ==> slots[chain[0]].prev == INVALID_SLOT && slots[chain[|chain| - 1]].next == INVALID_SLOT)
  }

  ghost predicate ChainOk(slots: Slots, at: Location, chain: Chain) {
    Members(slots, at, chain) && Linked(slots, chain)
  }

  ghost predicate FifoOk(fifo: Fifo, chain: Chain) {
    && fifo.count == |chain|
    && fifo.head == (if chain == [] then INVALID_SLOT else chain[0])
    && fifo.tail == (if chain == [] then INVALID_SLOT else chain[|chain| - 1])
  }

  ghost predicate FreeOk(slots: Slots, freeHead: SlotIndex, free: Chain) {
    && freeHead == (if free == [] then INVALID_SLOT else free[0])
    && (forall k :: 0 <= k < |free| ==> 0 < free[k] < |slots| && !slots[free[k]].live)
    && NoRepeats(free)
    && (forall j, k :: 0 <= j && k == j + 1 && k < |free| ==> slots[free[j]].freeNext == free[k])
    && (free != [] ==> slots[free[|free| - 1]].freeNext == INVALID_SLOT)
  }

  // ---- The orders a chain holds

  function OrderIn(slots: Slots, s: SlotIndex): Order {
    if s < |slots| then Order(slots[s].id, slots[s].side, slots[s].price, slots[s].qty)
    else Order(0, Bid, 0, 0)
  }

  function View(slots: Slots, chain: Chain): seq<Order> {
    seq(|chain|, k requires 0 <= k < |chain| => OrderIn(slots, chain[k]))
  }

  function ChainAt(chains: Chains, at: Location): Chain {
    if at in chains then chains[at] else []
  }

  // ---- One chain

  function Cut(chain: Chain, k: nat): Chain
    requires k < |chain|
  {
    chain[..k] + chain[k + 1..]
  }

  function PrevOf(chain: Chain, k: nat): SlotIndex
    requires k < |chain|
  {
    if k == 0 then INVALID_SLOT else chain[k - 1]
  }

  function NextOf(chain: Chain, k: nat): SlotIndex
    requires k < |chain|
  {
    if k + 1 == |chain| then INVALID_SLOT else chain[k + 1]
  }

  lemma {:induction false} LinksAt(slots: Slots, at: Location, chain: Chain, k: nat)
    requires ChainOk(slots, at, chain) && k < |chain|
    ensures slots[chain[k]].prev == PrevOf(chain, k) && slots[chain[k]].next == NextOf(chain, k)
  {
  }

  lemma {:induction false} LinksMakeChain(slots: Slots, at: Location, chain: Chain)
    requires Members(slots, at, chain)
    requires forall k :: 0 <= k < |chain| ==>
               slots[chain[k]].prev == PrevOf(chain, k) && slots[chain[k]].next == NextOf(chain, k)
    ensures ChainOk(slots, at, chain)
  {
    hide LiveAt, NoRepeats;
  }

  function CutSlots(slots: Slots, s: SlotIndex, freeHead: SlotIndex): Slots
    requires s < |slots| && slots[s].prev < |slots| && slots[s].next < |slots|
  {
    Release(Unlink(slots, s), s, freeHead)
  }

  /** Which slots unlinking and releasing place `k` of a chain rewrites. */
  lemma {:induction false} CutEffect(slots: Slots, at: Location, chain: Chain, k: nat, freeHead: SlotIndex)
    requires ChainOk(slots, at, chain) && k < |chain|
    ensures slots[chain[k]].prev < |slots| && slots[chain[k]].next < |slots|
    ensures var slots' := CutSlots(slots, chain[k], freeHead);
            && |slots'| == |slots|
            && slots'[chain[k]] == BLANK.(freeNext := freeHead)
            && (k > 0 ==> slots'[chain[k - 1]] == slots[chain[k - 1]].(next := NextOf(chain, k)))
            && (k + 1 < |chain| ==> slots'[chain[k + 1]] == slots[chain[k + 1]].(prev := PrevOf(chain, k)))
            && (forall t :: 0 <= t < |slots| && t != chain[k] && t != PrevOf(chain, k) && t != NextOf(chain, k) ==>
                  slots'[t] == slots[t])
  {
    hide Members;
    CutNeighbours(slots, at, chain, k);
    LinksAt(slots, at, chain, k);
  }

  lemma {:induction false} CutNeighbours(slots: Slots, at: Location, chain: Chain, k: nat)
    requires Members(slots, at, chain) && k < |chain|
    ensures 0 < chain[k] < |slots|
    ensures k > 0 ==> 0 < chain[k - 1] < |slots| && chain[k - 1] != chain[k]
    ensures k + 1 < |chain| ==> 0 < chain[k + 1] < |slots| && chain[k + 1] != chain[k]
    ensures k > 0 && k + 1 < |chain| ==> chain[k - 1] != chain[k + 1]
  {
  }

  /** Where the place `i` of a shortened chain was before, and who its neighbours are now. */
  lemma {:induction false} CutPlace(chain: Chain, k: nat, i: nat)
    requires k < |chain| && i < |Cut(chain, k)|
    ensures var c, j := Cut(chain, k), if i < k then i else i + 1;
            && |c| == |chain| - 1 && j < |chain| && c[i] == chain[j]
            && PrevOf(c, i) == (if j == k + 1 then PrevOf(chain, k) else PrevOf(chain, j))
            && NextOf(c, i) == (if j + 1 == k then NextOf(chain, k) else NextOf(chain, j))
  {
  }

  /** What unlinking place `k` does to the slot at another place `j` of the chain. */
  lemma {:induction false} CutOther(slots: Slots, at: Location, chain: Chain, k: nat, freeHead: SlotIndex, j: nat)
    requires ChainOk(slots, at, chain) && k < |chain| && j < |chain| && j != k
    ensures slots[chain[k]].prev < |slots| && slots[chain[k]].next < |slots|
    ensures var slots' := CutSlots(slots, chain[k], freeHead); var o := slots[chain[j]];
            && |slots'| == |slots|
            && slots'[chain[j]] == o.(prev := if j == k + 1 then PrevOf(chain, k) else o.prev,
                                      next := if j + 1 == k then NextOf(chain, k) else o.next)
  {
    CutEffect(slots, at, chain, k, freeHead);
    hide CutSlots, Linked, LiveAt;
  }

  lemma {:induction false} CutMembers(slots: Slots, at: Location, chain: Chain, k: nat, freeHead: SlotIndex)
    requires ChainOk(slots, at, chain) && k < |chain|
    ensures slots[chain[k]].prev < |slots| && slots[chain[k]].next < |slots|
    ensures Members(CutSlots(slots, chain[k], freeHead), at, Cut(chain, k))
    ensures var slots' := CutSlots(slots, chain[k], freeHead);
            && |slots'| == |slots|
            && forall t :: 0 <= t < |slots| && !LiveAt(slots[t], at) ==> slots'[t] == slots[t]
  {
    CutEffect(slots, at, chain, k, freeHead);
    var slots' := CutSlots(slots, chain[k], freeHead);
    hide CutSlots, Linked, PrevOf, NextOf;
    var c := Cut(chain, k);
    forall i | 0 <= i < |c| ensures 0 < c[i] < |slots'| && LiveAt(slots'[c[i]], at) {
      CutPlace(chain, k, i);
      CutOther(slots, at, chain, k, freeHead, if i < k then i else i + 1);
    }
    CutNoRepeats(chain, k);
    CutOutside(slots, at, chain, k, freeHead);
  }

  lemma {:induction false} CutNoRepeats(chain: Chain, k: nat)
    requires NoRepeats(chain) && k < |chain|
    ensures NoRepeats(Cut(chain, k))
  {
    hide PrevOf, NextOf;
    forall i, j | 0 <= i < j < |Cut(chain, k)| ensures Cut(chain, k)[i] != Cut(chain, k)[j] {
      CutPlace(chain, k, i);
      CutPlace(chain, k, j);
    }
  }

  /** Slots that are not live at this price are not rewritten. */
  lemma {:induction false} CutOutside(slots: Slots, at: Location, chain: Chain, k: nat, freeHead: SlotIndex)
    requires ChainOk(slots, at, chain) && k < |chain|
    ensures slots[chain[k]].prev < |slots| && slots[chain[k]].next < |slots|
    ensures var slots' := CutSlots(slots, chain[k], freeHead);
            && |slots'| == |slots|
            && forall t :: 0 <= t < |slots| && !LiveAt(slots[t], at) ==> slots'[t] == slots[t]
  {
    CutEffect(slots, at, chain, k, freeHead);
    hide CutSlots, Linked, LiveAt, NoRepeats;
  }

  lemma {:induction false} CutLink(slots: Slots, at: Location, chain: Chain, k: nat, freeHead: SlotIndex, i: nat)
    requires ChainOk(slots, at, chain) && k < |chain| && i < |Cut(chain, k)|
    ensures slots[chain[k]].prev < |slots| && slots[chain[k]].next < |slots|
    ensures var c := Cut(chain, k);
            var slots' := CutSlots(slots, chain[k], freeHead);
            && c[i] < |slots'|
            && slots'[c[i]].prev == PrevOf(c, i) && slots'[c[i]].next == NextOf(c, i)
  {
    hide CutSlots, Linked, LiveAt, NoRepeats, Cut, PrevOf, NextOf;
    var j := if i < k then i else i + 1;
    CutPlace(chain, k, i);
    CutOther(slots, at, chain, k, freeHead, j);
    LinksAt(slots, at, chain, j);
  }

  /** Unlinking one slot leaves a well-formed chain of the others, in order. */
  lemma {:induction false} CutKeepsChain(slots: Slots, at: Location, chain: Chain, k: nat, freeHead: SlotIndex)
    requires ChainOk(slots, at, chain) && k < |chain|
    ensures slots[chain[k]].prev < |slots| && slots[chain[k]].next < |slots|
    ensures ChainOk(CutSlots(slots, chain[k], freeHead), at, Cut(chain, k))
  {
    hide CutSlots, Cut, LiveAt, Linked, NoRepeats, PrevOf, NextOf;
    CutMembers(slots, at, chain, k, freeHead);
    var slots' := CutSlots(slots, chain[k], freeHead);
    var c := Cut(chain, k);
    forall i | 0 <= i < |c|
      ensures c[i] < |slots'| && slots'[c[i]].prev == PrevOf(c, i) && slots'[c[i]].next == NextOf(c, i)
    {
      CutLink(slots, at, chain, k, freeHead, i);
    }
    LinksMakeChain(slots', at, c);
  }

  lemma {:induction false} CutView(slots: Slots, at: Location, chain: Chain, k: nat, freeHead: SlotIndex)
    requires ChainOk(slots, at, chain) && k < |chain|
    ensures slots[chain[k]].prev < |slots| && slots[chain[k]].next < |slots|
    ensures View(CutSlots(slots, chain[k], freeHead), Cut(chain, k))
              == View(slots, chain)[..k] + View(slots, chain)[k + 1..]
  {
    hide CutSlots, Cut, Members, Linked, PrevOf, NextOf, OrderIn;
    CutMembers(slots, at, chain, k, freeHead);
    assert 0 < chain[k] < |slots| by {
      CutNeighbours(slots, at, chain, k);
    }
    var slots' := CutSlots(slots, chain[k], freeHead);
    var c := Cut(chain, k);
    assert |c| == |chain| - 1 by {
      CutLength(chain, k);
    }
    forall i | 0 <= i < |c| ensures OrderIn(slots', c[i]) == OrderIn(slots, chain[if i < k then i else i + 1]) {
      CutPlace(chain, k, i);
      CutOrder(slots, at, chain, k, freeHead, if i < k then i else i + 1);
    }
  }

  lemma {:induction false} CutLength(chain: Chain, k: nat)
    requires k < |chain|
    ensures |Cut(chain, k)| == |chain| - 1
  {
  }

  lemma {:induction false} CutOrder(slots: Slots, at: Location, chain: Chain, k: nat, freeHead: SlotIndex, j: nat)
    requires ChainOk(slots, at, chain) && k < |chain| && j < |chain| && j != k
    ensures slots[chain[k]].prev < |slots| && slots[chain[k]].next < |slots|
    ensures OrderIn(CutSlots(slots, chain[k], freeHead), chain[j]) == OrderIn(slots, chain[j])
  {
    hide CutSlots, Linked, NoRepeats, LiveAt, PrevOf, NextOf;
    CutOther(slots, at, chain, k, freeHead, j);
  }

  lemma {:induction false} CutFifo(slots: Slots, at: Location, chain: Chain, k: nat, fifo: Fifo)
    requires ChainOk(slots, at, chain) && k < |chain| && FifoOk(fifo, chain)
    ensures FifoOk(UnlinkFifo(fifo, slots[chain[k]]), Cut(chain, k))
  {
    CutNeighbours(slots, at, chain, k);
    LinksAt(slots, at, chain, k);
  }

  function LastOf(chain: Chain): SlotIndex {
    if chain == [] then INVALID_SLOT else chain[|chain| - 1]
  }

  lemma {:induction false} GrowMembers(slots: Slots, at: Location, chain: Chain, s: SlotIndex, o: OrderSlot)
    requires ChainOk(slots, at, chain) && 0 < s < |slots| && !slots[s].live && LiveAt(o, at)
    ensures LastOf(chain) < |slots|
    ensures var slots' := Append(slots[s := o], s, LastOf(chain));
            && Members(slots', at, chain + [s])
            && View(slots', chain + [s]) == View(slots, chain) + [Order(o.id, o.side, o.price, o.qty)]
            && (forall t :: 0 <= t < |slots| && t != s && !LiveAt(slots[t], at) ==> slots'[t] == slots[t])
  {
    hide Linked;
    var c := chain + [s];
    var slots' := Append(slots[s := o], s, LastOf(chain));
    forall k | 0 <= k < |chain| ensures chain[k] != s && c[k] == chain[k] {
    }
  }

  /** What appending writes to the links of the place `k` of the longer chain. */
  lemma {:induction false} GrowLink(slots: Slots, at: Location, chain: Chain, s: SlotIndex, o: OrderSlot, k: nat)
    requires ChainOk(slots, at, chain) && 0 < s < |slots| && !slots[s].live && k <= |chain|
    ensures LastOf(chain) < |slots|
    ensures var slots', c := Append(slots[s := o], s, LastOf(chain)), chain + [s];
            c[k] < |slots'| && slots'[c[k]].prev == PrevOf(c, k) && slots'[c[k]].next == NextOf(c, k)
  {
    if k < |chain| {
      LinksAt(slots, at, chain, k);
      assert chain[k] != s;
    }
    hide Linked;
  }

  /** Appending a fresh slot keeps the chain well formed, the new order last. */
  lemma {:induction false} GrowKeepsChain(slots: Slots, at: Location, chain: Chain, s: SlotIndex, o: OrderSlot)
    requires ChainOk(slots, at, chain) && 0 < s < |slots| && !slots[s].live && LiveAt(o, at)
    ensures LastOf(chain) < |slots|
    ensures ChainOk(Append(slots[s := o], s, LastOf(chain)), at, chain + [s])
  {
    hide LiveAt, Linked, Append, NoRepeats, PrevOf, NextOf, View;
    GrowMembers(slots, at, chain, s, o);
    var c := chain + [s];
    var slots' := Append(slots[s := o], s, LastOf(chain));
    forall k | 0 <= k < |c|
      ensures c[k] < |slots'| && slots'[c[k]].prev == PrevOf(c, k) && slots'[c[k]].next == NextOf(c, k)
    {
      GrowLink(slots, at, chain, s, o, k);
    }
    LinksMakeChain(slots', at, c);
  }

  lemma {:induction false} GrowFifo(fifo: Fifo, chain: Chain, s: SlotIndex)
    requires FifoOk(fifo, chain) && INVALID_SLOT !in chain
    ensures FifoOk(AppendFifo(fifo, s), chain + [s])
  {
  }

  /** Changing the quantity of the head changes nothing else about its chain. */
  lemma {:induction false} ReduceKeepsChain(slots: Slots, at: Location, chain: Chain, qty: Quantity)
    requires ChainOk(slots, at, chain) && chain != []
    ensures var slots' := slots[chain[0] := slots[chain[0]].(qty := qty)];
            && ChainOk(slots', at, chain)
            && View(slots', chain) == [View(slots, chain)[0].(qty := qty)] + View(slots, chain)[1..]
            && (forall t :: 0 <= t < |slots| && !LiveAt(slots[t], at) ==> slots'[t] == slots[t])
  {
  }

  /** A chain whose slots were not touched is the same chain. */
  lemma {:induction false} FrameChain(slots: Slots, slots': Slots, at: Location, chain: Chain)
    requires ChainOk(slots, at, chain) && |slots'| == |slots|
    requires forall t :: 0 <= t < |slots| && LiveAt(slots[t], at) ==> slots'[t] == slots[t]
    ensures ChainOk(slots', at, chain) && View(slots', chain) == View(slots, chain)
  {
  }

  // ---- The whole pool

  datatype Pool = Pool(slots: Slots, freeHead: SlotIndex, free: Chain, chains: Chains, index: SlotMap)

  function Capacity(slots: Slots): nat {
    if slots == [] then 0 else |slots| - 1
  }

  function Place(o: OrderSlot): Location {
    Location(o.side, o.price)
  }

  ghost predicate ChainsOk(p: Pool) {
    forall at :: at in p.chains ==> p.chains[at] != [] && ChainOk(p.slots, at, p.chains[at])
  }

  /** Every slot but 0 is live in the chain of its own level or waits in the free list. */
  ghost predicate Covered(p: Pool) {
    forall s: SlotIndex :: 0 < s < |p.slots| ==>
      if p.slots[s].live then s in ChainAt(p.chains, Place(p.slots[s])) else s in p.free
  }

  /** The id index is a bijection with the live slots. */
  ghost predicate IndexBijective(p: Pool) {
    && (forall id :: id in p.index ==>
          0 < p.index[id] < |p.slots| && p.slots[p.index[id]].live && p.slots[p.index[id]].id == id)
    && (forall s: SlotIndex :: 0 < s < |p.slots| && p.slots[s].live ==>
          p.slots[s].id in p.index && p.index[p.slots[s].id] == s)
  }

  ghost predicate ShapeOk(p: Pool) {
    && |p.slots| <= MAX_CAPACITY + 1
    && FreeOk(p.slots, p.freeHead, p.free)
    && ChainsOk(p) && Covered(p) && IndexBijective(p)
    && |p.free| + |p.index| == Capacity(p.slots)
  }

  /** The queue of orders at one price. */
  function Queue(p: Pool, at: Location): seq<Order> {
    View(p.slots, ChainAt(p.chains, at))
  }

  function WithChain(chains: Chains, at: Location, chain: Chain): Chains {
    if chain == [] then chains - {at} else chains[at := chain]
  }

  // ---- Dropping an order

  function Drop(p: Pool, at: Location, k: nat): Pool
    requires k < |ChainAt(p.chains, at)|
    requires var s := ChainAt(p.chains, at)[k];
             s < |p.slots| && p.slots[s].prev < |p.slots| && p.slots[s].next < |p.slots|
  {
    var s := ChainAt(p.chains, at)[k];
    Pool(CutSlots(p.slots, s, p.freeHead), s, [s] + p.free,
         WithChain(p.chains, at, Cut(p.chains[at], k)), p.index - {p.slots[s].id})
  }

  lemma {:induction false} DropSafe(p: Pool, at: Location, k: nat)
    requires ChainsOk(p) && k < |ChainAt(p.chains, at)|
    ensures var s := ChainAt(p.chains, at)[k];
            && 0 < s < |p.slots| && p.slots[s].prev < |p.slots| && p.slots[s].next < |p.slots|
            && LiveAt(p.slots[s], at)
  {
    var chain := p.chains[at];
    CutNeighbours(p.slots, at, chain, k);
    LinksAt(p.slots, at, chain, k);
  }

  /** If only slots of one level changed, every other level's queue is as it was. */
  lemma {:induction false} QueuesAway(p: Pool, p': Pool, at: Location)
    requires ChainsOk(p) && |p'.slots| == |p.slots|
    requires forall t :: 0 <= t < |p.slots| && p.slots[t].live && !LiveAt(p.slots[t], at) ==> p'.slots[t] == p.slots[t]
    requires forall x :: x != at ==> ChainAt(p'.chains, x) == ChainAt(p.chains, x)
    requires forall x :: x in p'.chains && x != at ==> x in p.chains
    ensures forall x :: x != at ==> Queue(p', x) == Queue(p, x)
    ensures forall x :: x in p'.chains && x != at ==> p'.chains[x] != [] && ChainOk(p'.slots, x, p'.chains[x])
  {
    forall x | x != at
      ensures Queue(p', x) == Queue(p, x)
      ensures x in p'.chains ==> p'.chains[x] != [] && ChainOk(p'.slots, x, p'.chains[x])
    {
      hide View;
      if x in p.chains {
        FrameChain(p.slots, p'.slots, x, p.chains[x]);
      } else {
        EmptyView(p.slots);
        EmptyView(p'.slots);
      }
    }
  }

  lemma {:induction false} EmptyView(slots: Slots)
    ensures View(slots, []) == []
  {
  }

  /** Only the dropped order leaves its queue; every other queue is as it was. */
  lemma {:induction false} DropQueues(p: Pool, at: Location, k: nat)
    requires ChainsOk(p) && k < |ChainAt(p.chains, at)|
    requires var s := ChainAt(p.chains, at)[k];
             s < |p.slots| && p.slots[s].prev < |p.slots| && p.slots[s].next < |p.slots|
    ensures var p' := Drop(p, at, k);
            && ChainsOk(p')
            && Queue(p', at) == Queue(p, at)[..k] + Queue(p, at)[k + 1..]
            && (forall x :: x != at ==> Queue(p', x) == Queue(p, x))
  {
    hide ChainOk, CutSlots, LiveAt, View, Cut;
    var p' := Drop(p, at, k);
    var chain := p.chains[at];
    CutKeepsChain(p.slots, at, chain, k, p.freeHead);
    CutMembers(p.slots, at, chain, k, p.freeHead);
    CutView(p.slots, at, chain, k, p.freeHead);
    EmptyView(p'.slots);
    QueuesAway(p, p', at);
  }

  lemma {:induction false} FreePush(slots: Slots, slots': Slots, freeHead: SlotIndex, free: Chain, s: SlotIndex)
    requires FreeOk(slots, freeHead, free) && 0 < s < |slots| == |slots'| && slots[s].live
    requires slots'[s] == BLANK.(freeNext := freeHead)
    requires forall t :: 0 <= t < |slots| && !slots[t].live ==> slots'[t] == slots[t]
    ensures FreeOk(slots', s, [s] + free)
  {
    var f := [s] + free;
    forall i | 0 <= i < |f| ensures 0 < f[i] < |slots'| && !slots'[f[i]].live && (i > 0 ==> f[i] != s) {
      assert i > 0 ==> f[i] == free[i - 1];
    }
    forall j, k | 0 <= j && k == j + 1 && k < |f| ensures slots'[f[j]].freeNext == f[k] {
      assert f[k] == free[j];
      assert j > 0 ==> f[j] == free[j - 1];
    }
    assert free != [] ==> f[|f| - 1] == free[|free| - 1];
  }

  lemma {:induction false} DropFree(p: Pool, at: Location, k: nat)
    requires ShapeOk(p) && k < |ChainAt(p.chains, at)|
    requires var s := ChainAt(p.chains, at)[k];
             && 0 < s < |p.slots| && p.slots[s].prev < |p.slots| && p.slots[s].next < |p.slots|
             && LiveAt(p.slots[s], at)
    ensures var p' := Drop(p, at, k); FreeOk(p'.slots, p'.freeHead, p'.free)
  {
    hide CutSlots, ChainOk, Covered, IndexBijective, FreeOk, Cut, Members;
    CutMembers(p.slots, at, p.chains[at], k, p.freeHead);
    CutEffect(p.slots, at, p.chains[at], k, p.freeHead);
    FreePush(p.slots, Drop(p, at, k).slots, p.freeHead, p.free, p.chains[at][k]);
  }

  /** What dropping does to a slot, seen from outside the chain. */
  lemma {:induction false} DropSlots(p: Pool, at: Location, k: nat)
    requires ChainsOk(p) && k < |ChainAt(p.chains, at)|
    requires var s := ChainAt(p.chains, at)[k];
             s < |p.slots| && p.slots[s].prev < |p.slots| && p.slots[s].next < |p.slots|
    ensures var p' := Drop(p, at, k); var s := p.chains[at][k];
            && |p'.slots| == |p.slots| && !p'.slots[s].live
            && forall t :: 0 < t < |p.slots| && t != s ==>
                 && p'.slots[t].id == p.slots[t].id && Place(p'.slots[t]) == Place(p.slots[t])
                 && p'.slots[t].live == p.slots[t].live
  {
    hide ChainOk, CutSlots, Cut;
    CutEffect(p.slots, at, p.chains[at], k, p.freeHead);
  }

  lemma {:induction false} InCut(chain: Chain, k: nat, t: SlotIndex)
    requires k < |chain| && t in chain && t != chain[k]
    ensures t in Cut(chain, k)
  {
    var i :| 0 <= i < |chain| && chain[i] == t;
    assert Cut(chain, k)[if i < k then i else i - 1] == t;
  }

  lemma {:induction false} DropCovered(p: Pool, at: Location, k: nat)
    requires ChainsOk(p) && Covered(p) && k < |ChainAt(p.chains, at)|
    requires var s := ChainAt(p.chains, at)[k];
             s < |p.slots| && p.slots[s].prev < |p.slots| && p.slots[s].next < |p.slots|
    ensures Covered(Drop(p, at, k))
  {
    hide CutSlots, ChainsOk, Cut, Unlink, Release, Drop, ChainAt, Place;
    var p' := Drop(p, at, k);
    DropSlots(p, at, k);
    forall t: SlotIndex | 0 < t < |p.slots|
      ensures if p'.slots[t].live then t in ChainAt(p'.chains, Place(p'.slots[t])) else t in p'.free
    {
      DropCovers(p, at, k, t);
    }
  }

  /** A covered slot stays covered: the dropped one is free, the others are where they were. */
  lemma {:induction false} DropCovers(p: Pool, at: Location, k: nat, t: SlotIndex)
    requires ChainsOk(p) && Covered(p) && k < |ChainAt(p.chains, at)| && 0 < t < |p.slots|
    requires var s := ChainAt(p.chains, at)[k];
             s < |p.slots| && p.slots[s].prev < |p.slots| && p.slots[s].next < |p.slots|
    ensures var p' := Drop(p, at, k);
            && |p'.slots| == |p.slots|
            && if p'.slots[t].live then t in ChainAt(p'.chains, Place(p'.slots[t])) else t in p'.free
  {
    hide CutSlots, ChainsOk, Cut, Unlink, Release;
    var p' := Drop(p, at, k);
    DropSlots(p, at, k);
    if p'.slots[t].live && Place(p.slots[t]) == at {
      InCut(p.chains[at], k, t);
    }
  }

  lemma {:induction false} DropIndex(p: Pool, at: Location, k: nat)
    requires ChainsOk(p) && IndexBijective(p) && k < |ChainAt(p.chains, at)|
    requires var s := ChainAt(p.chains, at)[k];
             && 0 < s < |p.slots| && p.slots[s].prev < |p.slots| && p.slots[s].next < |p.slots|
             && LiveAt(p.slots[s], at)
    ensures IndexBijective(Drop(p, at, k))
    ensures |Drop(p, at, k).index| == |p.index| - 1
  {
    hide CutSlots, ChainsOk, Cut;
    DropSlots(p, at, k);
    var id := p.slots[p.chains[at][k]].id;
    assert id in p.index;
    assert (p.index - {id}).Keys == p.index.Keys - {id};
  }

  /** Dropping any live order keeps the pool well formed and frees exactly one slot. */
  lemma {:induction false} DropKeepsShape(p: Pool, at: Location, k: nat)
    requires ShapeOk(p) && k < |ChainAt(p.chains, at)|
    ensures var s := ChainAt(p.chains, at)[k];
            && 0 < s < |p.slots| && p.slots[s].prev < |p.slots| && p.slots[s].next < |p.slots|
            && LiveAt(p.slots[s], at)
    ensures ShapeOk(Drop(p, at, k)) && |Drop(p, at, k).free| == |p.free| + 1
  {
    hide ChainsOk, Covered, IndexBijective, FreeOk, CutSlots, Cut, Queue, LiveAt;
    DropSafe(p, at, k);
    DropQueues(p, at, k);
    DropFree(p, at, k);
    DropCovered(p, at, k);
    DropIndex(p, at, k);
    DropSlots(p, at, k);
  }

  // ---- Resting an order

  function Fresh(id: OrderId, at: Location, qty: Quantity): OrderSlot {
    OrderSlot(id, at.side, at.price, qty, INVALID_SLOT, INVALID_SLOT, INVALID_SLOT, true)
  }

  function Grow(p: Pool, at: Location, id: OrderId, qty: Quantity): Pool
    requires p.free != [] && p.freeHead < |p.slots| && LastOf(ChainAt(p.chains, at)) < |p.slots|
  {
    var s := p.freeHead;
    var chain := ChainAt(p.chains, at);
    Pool(Append(p.slots[s := Fresh(id, at, qty)], s, LastOf(chain)),
         p.slots[s].freeNext, p.free[1..], p.chains[at := chain + [s]], p.index[id := s])
  }

  lemma {:induction false} GrowSafe(p: Pool, at: Location)
    requires ShapeOk(p) && p.free != []
    ensures 0 < p.freeHead < |p.slots| && !p.slots[p.freeHead].live && p.freeHead == p.free[0]
    ensures LastOf(ChainAt(p.chains, at)) < |p.slots|
    ensures ChainOk(p.slots, at, ChainAt(p.chains, at))
    ensures forall t: SlotIndex :: t in ChainAt(p.chains, at) ==> 0 < t < |p.slots| && p.slots[t].live
  {
  }

  lemma {:induction false} GrowQueues(p: Pool, at: Location, id: OrderId, qty: Quantity)
    requires ChainsOk(p) && p.free != [] && 0 < p.freeHead < |p.slots| && !p.slots[p.freeHead].live
    requires LastOf(ChainAt(p.chains, at)) < |p.slots| && ChainOk(p.slots, at, ChainAt(p.chains, at))
    ensures var p' := Grow(p, at, id, qty);
            && ChainsOk(p')
            && Queue(p', at) == Queue(p, at) + [Order(id, at.side, at.price, qty)]
            && (forall x :: x != at ==> Queue(p', x) == Queue(p, x))
  {
    hide ChainOk, Append, View, LastOf;
    var p' := Grow(p, at, id, qty);
    var chain := ChainAt(p.chains, at);
    var o := Fresh(id, at, qty);
    assert LiveAt(o, at);
    GrowKeepsChain(p.slots, at, chain, p.freeHead, o);
    GrowMembers(p.slots, at, chain, p.freeHead, o);
    AppendLength(p.slots[p.freeHead := o], p.freeHead, LastOf(chain));
    QueuesAway(p, p', at);
  }

  lemma {:induction false} AppendLength(slots: Slots, s: SlotIndex, tail: SlotIndex)
    requires s < |slots| && tail < |slots|
    ensures |Append(slots, s, tail)| == |slots|
    ensures forall t :: 0 <= t < |slots| ==>
              && Append(slots, s, tail)[t].id == slots[t].id && Place(Append(slots, s, tail)[t]) == Place(slots[t])
              && Append(slots, s, tail)[t].live == slots[t].live
    ensures forall t :: 0 <= t < |slots| && t != s && t != tail ==> Append(slots, s, tail)[t] == slots[t]
  {
  }

  lemma {:induction false} FreePop(slots: Slots, slots': Slots, freeHead: SlotIndex, free: Chain)
    requires FreeOk(slots, freeHead, free) && free != [] && |slots'| == |slots|
    requires forall t :: 0 < t < |slots| && !slots[t].live && t != free[0] ==> slots'[t] == slots[t]
    ensures free[0] < |slots| && FreeOk(slots', slots[free[0]].freeNext, free[1..])
  {
    var f := free[1..];
    forall i | 0 <= i < |f| ensures f[i] == free[i + 1] && f[i] != free[0] {
    }
  }

  lemma {:induction false} GrowCovered(p: Pool, at: Location, id: OrderId, qty: Quantity)
    requires Covered(p) && p.free != [] && p.freeHead == p.free[0] && p.freeHead < |p.slots|
    requires LastOf(ChainAt(p.chains, at)) < |p.slots|
    ensures Covered(Grow(p, at, id, qty))
  {
    hide Append, LastOf;
    var p' := Grow(p, at, id, qty);
    var chain := ChainAt(p.chains, at);
    AppendLength(p.slots[p.freeHead := Fresh(id, at, qty)], p.freeHead, LastOf(chain));
    forall t: SlotIndex | 0 < t < |p.slots|
      ensures if p'.slots[t].live then t in ChainAt(p'.chains, Place(p'.slots[t])) else t in p'.free
    {
      if t == p.freeHead {
        assert p'.chains[at][|chain|] == t;
      } else if !p.slots[t].live {
        assert t in p.free;
      } else if Place(p.slots[t]) == at {
        assert t in chain;
      } else {
        assert ChainAt(p'.chains, Place(p.slots[t])) == ChainAt(p.chains, Place(p.slots[t]));
      }
    }
  }

  lemma {:induction false} GrowIndex(p: Pool, at: Location, id: OrderId, qty: Quantity)
    requires IndexBijective(p) && p.free != [] && 0 < p.freeHead < |p.slots| && !p.slots[p.freeHead].live
    requires LastOf(ChainAt(p.chains, at)) < |p.slots| && id !in p.index
    ensures IndexBijective(Grow(p, at, id, qty))
  {
    hide Append, LastOf;
    AppendLength(p.slots[p.freeHead := Fresh(id, at, qty)], p.freeHead, LastOf(ChainAt(p.chains, at)));
  }

  /** Resting an order in a free slot keeps the pool well formed. */
  lemma {:induction false} GrowKeepsShape(p: Pool, at: Location, id: OrderId, qty: Quantity)
    requires ShapeOk(p) && p.free != [] && id !in p.index
    ensures 0 < p.freeHead < |p.slots| && LastOf(ChainAt(p.chains, at)) < |p.slots|
    ensures ShapeOk(Grow(p, at, id, qty))
  {
    hide Append, LastOf, ChainsOk, Covered, IndexBijective, FreeOk, ChainOk, Queue;
    GrowSafe(p, at);
    GrowQueues(p, at, id, qty);
    GrowCovered(p, at, id, qty);
    GrowIndex(p, at, id, qty);
    var slots1 := p.slots[p.freeHead := Fresh(id, at, qty)];
    AppendLength(slots1, p.freeHead, LastOf(ChainAt(p.chains, at)));
    LastIsLive(p, at);
    FreePop(p.slots, Grow(p, at, id, qty).slots, p.freeHead, p.free);
  }

  lemma {:induction false} LastIsLive(p: Pool, at: Location)
    requires ShapeOk(p)
    ensures var last := LastOf(ChainAt(p.chains, at)); 0 < last ==> last < |p.slots| && p.slots[last].live
    ensures |p.slots| > 0 ==> p.free != [] ==> 0 !in p.free
  {
  }

  // ---- Reducing the head order

  function Reduce(p: Pool, at: Location, qty: Quantity): Pool
    requires ChainAt(p.chains, at) != [] && ChainAt(p.chains, at)[0] < |p.slots|
  {
    var s := ChainAt(p.chains, at)[0];
    p.(slots := p.slots[s := p.slots[s].(qty := qty)])
  }

  lemma {:induction false} ReduceQueues(p: Pool, at: Location, qty: Quantity)
    requires ChainsOk(p) && ChainAt(p.chains, at) != []
    ensures ChainAt(p.chains, at)[0] < |p.slots|
    ensures var p' := Reduce(p, at, qty);
            && ChainsOk(p')
            && Queue(p, at) != []
            && Queue(p', at) == [Queue(p, at)[0].(qty := qty)] + Queue(p, at)[1..]
            && (forall x :: x != at ==> Queue(p', x) == Queue(p, x))
  {
    hide ChainOk, LiveAt;
    DropSafe(p, at, 0);
    ReduceKeepsChain(p.slots, at, p.chains[at], qty);
    hide View;
    QueuesAway(p, Reduce(p, at, qty), at);
  }

  /** The pools differ at most in the quantities and links of their live slots. */
  ghost predicate SameRoles(p: Pool, p': Pool) {
    && |p'.slots| == |p.slots|
    && p'.freeHead == p.freeHead && p'.free == p.free && p'.chains == p.chains && p'.index == p.index
    && forall t :: 0 <= t < |p.slots| ==>
         && p'.slots[t].id == p.slots[t].id && Place(p'.slots[t]) == Place(p.slots[t])
         && p'.slots[t].live == p.slots[t].live && p'.slots[t].freeNext == p.slots[t].freeNext
  }

  lemma {:induction false} FreeSame(p: Pool, p': Pool)
    requires SameRoles(p, p') && FreeOk(p.slots, p.freeHead, p.free)
    ensures FreeOk(p'.slots, p'.freeHead, p'.free)
  {
    hide NoRepeats;
  }

  lemma {:induction false} CoveredSame(p: Pool, p': Pool)
    requires SameRoles(p, p') && Covered(p)
    ensures Covered(p')
  {
    hide ChainAt;
  }

  lemma {:induction false} IndexSame(p: Pool, p': Pool)
    requires SameRoles(p, p') && IndexBijective(p)
    ensures IndexBijective(p')
  {
  }

  /** A change of one live slot's quantity leaves the free list, the cover and the index alone. */
  lemma {:induction false} ReduceKeepsRest(p: Pool, at: Location, qty: Quantity)
    requires FreeOk(p.slots, p.freeHead, p.free) && Covered(p) && IndexBijective(p)
    requires ChainAt(p.chains, at) != []
    requires var s := ChainAt(p.chains, at)[0]; s < |p.slots| && p.slots[s].live
    ensures var p' := Reduce(p, at, qty);
            FreeOk(p'.slots, p'.freeHead, p'.free) && Covered(p') && IndexBijective(p')
  {
    hide FreeOk, Covered, IndexBijective;
    var p' := Reduce(p, at, qty);
    FreeSame(p, p');
    CoveredSame(p, p');
    IndexSame(p, p');
  }

  lemma {:induction false} ReduceKeepsShape(p: Pool, at: Location, qty: Quantity)
    requires ShapeOk(p) && ChainAt(p.chains, at) != []
    ensures ChainAt(p.chains, at)[0] < |p.slots| && ShapeOk(Reduce(p, at, qty))
  {
    hide ChainsOk, Queue, FreeOk, Covered, IndexBijective;
    DropSafe(p, at, 0);
    ReduceQueues(p, at, qty);
    ReduceKeepsRest(p, at, qty);
  }
}
