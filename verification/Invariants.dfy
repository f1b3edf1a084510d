/** What every reachable book satisfies, and that every step keeps it. */
module Invariants {
  import opened Types
  import opened Reference
  import opened Matching

  ghost predicate Sorted(side: Side, q: seq<Order>) {
    forall i, j :: 0 <= i < j < |q| ==> !Better(side, q[j].price, q[i].price)
  }

  ghost predicate DistinctIds(q: seq<Order>) {
    forall i, j :: 0 <= i < j < |q| ==> q[i].id != q[j].id
  }

  ghost predicate OrdersOk(side: Side, q: seq<Order>) {
    forall i :: 0 <= i < |q| ==> q[i].side == side && 0 < q[i].qty <= MAX_INT64
  }

  ghost predicate LevelsFit(q: seq<Order>) {
    forall p: Price :: LevelQty(q, p) <= MAX_INT64
  }

  ghost predicate SideOk(side: Side, q: seq<Order>) {
    OrdersOk(side, q) && Sorted(side, q) && DistinctIds(q) && LevelsFit(q)
  }

  ghost predicate Uncrossed(bids: seq<Order>, asks: seq<Order>) {
    forall i, j :: 0 <= i < |bids| && 0 <= j < |asks| ==> bids[i].price < asks[j].price
  }

  ghost predicate NoSharedIds(bids: seq<Order>, asks: seq<Order>) {
    forall i, j :: 0 <= i < |bids| && 0 <= j < |asks| ==> bids[i].id != asks[j].id
  }

  ghost predicate Inv(st: State) {
    && SideOk(Bid, st.bids) && SideOk(Ask, st.asks)
    && Uncrossed(st.bids, st.asks) && NoSharedIds(st.bids, st.asks)
    && 0 <= st.stats.tradedQty <= MAX_INT64
  }

  // ---- One side

  /** Every order of `p` is an order of `q` up to its quantity, in the same relative order. */
  ghost predicate Embeds(p: seq<Order>, q: seq<Order>, at: int -> int) {
    && (forall i :: 0 <= i < |p| ==>
          && 0 <= at(i) < |q|
          && p[i].id == q[at(i)].id && p[i].side == q[at(i)].side && p[i].price == q[at(i)].price
          && 0 < p[i].qty <= q[at(i)].qty)
    && (forall i, j :: 0 <= i < j < |p| ==> at(i) < at(j))
  }

  lemma {:induction false} EmbedKeepsSide(side: Side, p: seq<Order>, q: seq<Order>, at: int -> int)
    requires SideOk(side, q) && Embeds(p, q, at)
    requires forall price: Price :: LevelQty(p, price) <= LevelQty(q, price)
    ensures SideOk(side, p)
  {
  }

  lemma {:induction false} EmbedKeepsPair(p: seq<Order>, q: seq<Order>, at: int -> int, other: seq<Order>)
    requires Embeds(p, q, at)
    ensures Uncrossed(q, other) ==> Uncrossed(p, other)
    ensures Uncrossed(other, q) ==> Uncrossed(other, p)
    ensures NoSharedIds(q, other) ==> NoSharedIds(p, other)
    ensures NoSharedIds(other, q) ==> NoSharedIds(other, p)
    ensures forall id :: HasId(p, id) ==> HasId(q, id)
  {
  }

  lemma {:induction false} MatchEmbeds(side: Side, q: seq<Order>, id: OrderId, price: int, qty: int)
    returns (at: int -> int)
    requires SideOk(side, q) && qty >= 0
    ensures Embeds(Match(q, id, side.Opposite(), price, qty).rest, q, at)
    ensures SideOk(side, Match(q, id, side.Opposite(), price, qty).rest)
  {
    var rest := Match(q, id, side.Opposite(), price, qty).rest;
    MatchLeavesTail(q, id, side.Opposite(), price, qty);
    var d := |q| - |rest|;
    at := i => i + d;
    forall i | 0 <= i < |rest|
      ensures rest[i].id == q[at(i)].id && rest[i].side == q[at(i)].side && rest[i].price == q[at(i)].price
      ensures 0 < rest[i].qty <= q[at(i)].qty
    {
      if i > 0 {
        assert rest[i] == rest[1..][i - 1] == q[d..][1..][i - 1];
      }
    }
    forall p: Price ensures LevelQty(rest, p) <= LevelQty(q, p) {
      LevelQtyOfTail(rest, q, p);
    }
    EmbedKeepsSide(side, rest, q, at);
  }

  lemma {:induction false} WithoutEmbeds(side: Side, q: seq<Order>, id: OrderId) returns (at: int -> int)
    requires SideOk(side, q)
    ensures Embeds(Without(q, id), q, at)
    ensures SideOk(side, Without(q, id)) && !HasId(Without(q, id), id)
  {
    at := WithoutMap(q, id);
    forall price: Price ensures LevelQty(Without(q, id), price) <= LevelQty(q, price) {
      LevelQtyWithout(q, id, price);
    }
    EmbedKeepsSide(side, Without(q, id), q, at);
  }

  function Skipping(k: nat): int -> int {
    i => if i < k then i else i + 1
  }

  lemma {:induction false} DropEmbeds(q: seq<Order>, k: nat)
    requires Positive(q) && DistinctIds(q) && k < |q|
    ensures Embeds(q[..k] + q[k + 1..], q, Skipping(k)) && !HasId(q[..k] + q[k + 1..], q[k].id)
  {
    var p, at := q[..k] + q[k + 1..], Skipping(k);
    assert |p| == |q| - 1;
    forall i | 0 <= i < |p| ensures 0 <= at(i) < |q| && at(i) != k && p[i] == q[at(i)] {
    }
    forall i | 0 <= i < |p| ensures p[i].id != q[k].id {
      assert p[i] == q[at(i)];
    }
  }

  lemma {:induction false} SelfEmbeds(q: seq<Order>)
    requires Positive(q)
    ensures Embeds(q, q, i => i)
  {
  }

  lemma {:induction false} WithoutMap(q: seq<Order>, id: OrderId) returns (at: int -> int)
    requires Positive(q) && DistinctIds(q)
    ensures Embeds(Without(q, id), q, at) && !HasId(Without(q, id), id)
  {
    hide Embeds, Positive, DistinctIds, Without, Skipping;
    if HasId(q, id) {
      WithoutSplits(q, id);
      var k := IndexOfId(q, id);
      DropEmbeds(q, k);
      at := Skipping(k);
    } else {
      WithoutMissing(q, id);
      SelfEmbeds(q);
      at := i => i;
    }
  }

  /** Removing one order takes its quantity off its own level and no other. */
  lemma {:induction false} LevelQtyWithout(q: seq<Order>, id: OrderId, price: Price)
    requires Positive(q)
    ensures HasId(q, id) ==> IndexOfId(q, id) < |q|
    ensures LevelQty(Without(q, id), price) == LevelQty(q, price)
              - (if HasId(q, id) && q[IndexOfId(q, id)].price == price then q[IndexOfId(q, id)].qty else 0)
    ensures LevelQty(Without(q, id), price) <= LevelQty(q, price)
  {
    if HasId(q, id) {
      WithoutSplits(q, id);
      var k := IndexOfId(q, id);
      assert q == q[..k] + q[k..] && q[k..][1..] == q[k + 1..] && q[k..][0] == q[k];
      LevelQtyAppend(q[..k], q[k..], price);
      LevelQtyAppend(q[..k], q[k + 1..], price);
    } else {
      WithoutMissing(q, id);
    }
  }

  lemma {:induction false} InsertKeepsOrder(q: seq<Order>, o: Order)
    requires Sorted(o.side, q) && DistinctIds(q) && !HasId(q, o.id)
    ensures Sorted(o.side, Insert(q, o)) && DistinctIds(Insert(q, o))
    ensures forall i :: 0 <= i < |Insert(q, o)| ==> Insert(q, o)[i] == o || Insert(q, o)[i] in q
    ensures |Insert(q, o)| == |q| + 1
  {
    hide Insert, InsertAt, Sorted;
    InsertKeepsSorted(q, o);
    InsertPlaces(q, o);
  }

  lemma {:induction false} InsertKeepsSorted(q: seq<Order>, o: Order)
    requires Sorted(o.side, q)
    ensures Sorted(o.side, Insert(q, o))
  {
    hide Insert, InsertAt;
    InsertSplits(q, o);
    InsertPlaces(q, o);
    var k, r := InsertAt(q, o), Insert(q, o);
    forall i, j | 0 <= i < j < |r| ensures !Better(o.side, r[j].price, r[i].price) {
      if i == k {
        assert !Better(o.side, q[j - 1].price, q[k].price);
      }
    }
  }

  lemma {:induction false} LevelQtyInsert(q: seq<Order>, o: Order, price: Price)
    ensures LevelQty(Insert(q, o), price) == LevelQty(q, price) + if price == o.price then o.qty else 0
  {
    var k := InsertAt(q, o);
    InsertSplits(q, o);
    assert Insert(q, o) == q[..k] + ([o] + q[k..]) && q == q[..k] + q[k..];
    LevelQtyAppend(q[..k], [o] + q[k..], price);
    LevelQtyAppend(q[..k], q[k..], price);
    LevelQtyAppend([o], q[k..], price);
  }

  lemma {:induction false} InsertKeepsSide(q: seq<Order>, o: Order)
    requires SideOk(o.side, q) && !HasId(q, o.id)
    requires 0 < o.qty && LevelQty(q, o.price) + o.qty <= MAX_INT64
    ensures SideOk(o.side, Insert(q, o))
    ensures forall i :: 0 <= i < |Insert(q, o)| ==> Insert(q, o)[i] == o || Insert(q, o)[i] in q
    ensures |Insert(q, o)| == |q| + 1
  {
    InsertKeepsOrder(q, o);
    LevelQtyBounds(q, o.price);
    forall price: Price ensures LevelQty(Insert(q, o), price) <= MAX_INT64 {
      LevelQtyInsert(q, o, price);
    }
  }

  // ---- Steps

  lemma {:induction false} RemovedKeepsInv(st: State, id: OrderId)
    requires Inv(st)
    ensures Inv(Removed(st, id)) && !Contains(Removed(st, id), id)
    ensures Removed(st, id).stats == st.stats
  {
    var side := SideOf(st, id);
    var at := WithoutEmbeds(side, st.Orders(side), id);
    EmbedKeepsPair(Without(st.Orders(side), id), st.Orders(side), at, st.Orders(side.Opposite()));
    assert side == Bid ==> !HasId(st.asks, id);
  }

  lemma {:induction false} MatchKeepsInv(st: State, id: OrderId, side: Side, price: Price, qty: int)
    requires Inv(st) && qty >= 0
    requires st.stats.tradedQty + CrossingOf(st, side, price, qty) <= MAX_INT64
    ensures Inv(Execute(st, id, side, price, qty, false).state)
    ensures !Contains(st, id) ==> !Contains(Execute(st, id, side, price, qty, false).state, id)
  {
    var opposite := side.Opposite();
    var q := st.Orders(opposite);
    var at := MatchEmbeds(opposite, q, id, price, qty);
    EmbedKeepsPair(Match(q, id, side, price, qty).rest, q, at, st.Orders(side));
    CrossingIsExact(q, id, side, price, qty);
  }

  lemma {:induction false} ExecuteKeepsInv(st: State, id: OrderId, side: Side, price: Price, qty: int, rests: bool)
    requires Inv(st) && !Contains(st, id) && 0 < qty <= MAX_INT64
    requires st.stats.tradedQty + CrossingOf(st, side, price, qty) <= MAX_INT64
    requires rests && qty > CrossingOf(st, side, price, qty) ==>
               LevelQty(st.Orders(side), price) + qty - CrossingOf(st, side, price, qty) <= MAX_INT64
    ensures Inv(Execute(st, id, side, price, qty, rests).state)
  {
    MatchKeepsInv(st, id, side, price, qty);
    var matched := Execute(st, id, side, price, qty, false).state;
    var q := st.Orders(side.Opposite());
    var m := Match(q, id, side, price, qty);
    CrossingIsExact(q, id, side, price, qty);
    if rests && m.remaining > 0 {
      RemainderMeansUncrossed(q, id, side, price, qty);
      RestKeepsInv(matched, Order(id, side, price, m.remaining));
    }
  }

  lemma {:induction false} RestKeepsInv(st: State, o: Order)
    requires Inv(st) && !Contains(st, o.id) && 0 < o.qty
    requires LevelQty(st.Orders(o.side), o.price) + o.qty <= MAX_INT64
    requires var q := st.Orders(o.side.Opposite()); q == [] || !Crosses(o.side, o.price, q[0].price)
    ensures Inv(st.WithOrders(o.side, Insert(st.Orders(o.side), o)))
  {
    InsertKeepsSide(st.Orders(o.side), o);
    RestKeepsPair(st, o);
  }

  /** An order that does not cross the best of the other side crosses none of it. */
  lemma {:induction false} ClearOfOpposite(o: Order, q: seq<Order>)
    requires Sorted(o.side.Opposite(), q) && !HasId(q, o.id)
    requires q == [] || !Crosses(o.side, o.price, q[0].price)
    ensures forall j :: 0 <= j < |q| ==> q[j].id != o.id && !Crosses(o.side, o.price, q[j].price)
  {
    forall j | 0 <= j < |q| ensures !Crosses(o.side, o.price, q[j].price) {
      assert j > 0 ==> !Better(o.side.Opposite(), q[j].price, q[0].price);
    }
  }

  lemma {:induction false} JoinKeepsPair(o: Order, own: seq<Order>, q: seq<Order>, joined: seq<Order>)
    requires forall i :: 0 <= i < |joined| ==> joined[i] == o || joined[i] in own
    requires forall j :: 0 <= j < |q| ==> q[j].id != o.id && !Crosses(o.side, o.price, q[j].price)
    ensures o.side == Bid && Uncrossed(own, q) ==> Uncrossed(joined, q)
    ensures o.side == Ask && Uncrossed(q, own) ==> Uncrossed(q, joined)
    ensures NoSharedIds(own, q) ==> NoSharedIds(joined, q)
    ensures NoSharedIds(q, own) ==> NoSharedIds(q, joined)
  {
  }

  lemma {:induction false} RestKeepsPair(st: State, o: Order)
    requires Inv(st) && !Contains(st, o.id)
    requires SideOk(o.side, Insert(st.Orders(o.side), o))
    requires forall i :: 0 <= i < |Insert(st.Orders(o.side), o)| ==>
               Insert(st.Orders(o.side), o)[i] == o || Insert(st.Orders(o.side), o)[i] in st.Orders(o.side)
    requires var q := st.Orders(o.side.Opposite()); q == [] || !Crosses(o.side, o.price, q[0].price)
    ensures Inv(st.WithOrders(o.side, Insert(st.Orders(o.side), o)))
  {
    hide Insert, HasId, Uncrossed, NoSharedIds, OrdersOk, Sorted, DistinctIds, LevelsFit, Crosses;
    var q := st.Orders(o.side.Opposite());
    ClearOfOpposite(o, q);
    JoinKeepsPair(o, st.Orders(o.side), q, Insert(st.Orders(o.side), o));
  }

  /** After a match that leaves a remainder, that remainder may be rested. */
  lemma {:induction false} RestReady(st: State, id: OrderId, side: Side, price: Price, qty: int)
    requires Inv(st) && !Contains(st, id) && 0 < qty <= MAX_INT64
    requires st.stats.tradedQty + CrossingOf(st, side, price, qty) <= MAX_INT64
    requires !AddWouldOverflow(LevelQty(st.Orders(side), price), qty - CrossingOf(st, side, price, qty))
    requires Match(st.Orders(side.Opposite()), id, side, price, qty).remaining > 0
    ensures var remaining := Match(st.Orders(side.Opposite()), id, side, price, qty).remaining;
            var matched := Execute(st, id, side, price, qty, false).state;
            var q := matched.Orders(side.Opposite());
            && !Contains(matched, id)
            && LevelQty(matched.Orders(side), price) + remaining <= MAX_INT64
            && (q == [] || !Crosses(side, price, q[0].price))
            && Execute(st, id, side, price, qty, true).state
               == matched.WithOrders(side, Insert(matched.Orders(side), Order(id, side, price, remaining)))
  {
    MatchKeepsInv(st, id, side, price, qty);
    CrossingIsExact(st.Orders(side.Opposite()), id, side, price, qty);
    RemainderMeansUncrossed(st.Orders(side.Opposite()), id, side, price, qty);
  }

  lemma {:induction false} AddKeepsInv(st: State, e: Event)
    requires Inv(st)
    ensures Inv(AddWith(st, e, AddError(st, e)).state)
  {
    if AddError(st, e) == NoError {
      ExecuteKeepsInv(CountAdd(st), e.id, e.side, LimitOf(e), e.qty, CanRest(e));
    }
  }

  lemma {:induction false} ModifyKeepsInv(st: State, e: Event)
    requires Inv(st)
    ensures Inv(ModifyWith(st, e, ModifyError(st, e)).state)
  {
    if ModifyError(st, e) == NoError {
      RemovedKeepsInv(CountModify(st), e.id);
      ExecuteKeepsInv(Removed(CountModify(st), e.id), e.id, SideOf(st, e.id), e.newPrice, e.newQty, true);
    }
  }

  lemma {:induction false} StepKeepsInv(st: State, e: Event)
    requires Inv(st)
    ensures Inv(Step(st, e).state)
  {
    match e.kind
    case Add => AddKeepsInv(st, e);
    case Cancel => RemovedKeepsInv(CountCancel(st), e.id);
    case Modify => ModifyKeepsInv(st, e);
  }

  /** Every history ends in a sorted, uncrossed book without duplicate ids or overflow. */
  lemma {:induction false} RunKeepsInv(es: seq<Event>)
    ensures Inv(Run(es))
  {
    if es != [] {
      RunKeepsInv(es[..|es| - 1]);
      StepKeepsInv(Run(es[..|es| - 1]), es[|es| - 1]);
    }
  }
}
