/**
 The ordered maps of price levels. A `std::map<Price, PriceLevel>` is the sequence of its
 levels, best price first; `T` is what a level stores besides its price and cached total.
 */
module PriceMap {
  import opened Types
  import opened Reference

  datatype Level<T> = Level(price: Price, totalQty: Quantity, store: T)

  ghost predicate SortedLevels<T>(side: Side, ls: seq<Level<T>>) {
    forall i, j :: 0 <= i < j < |ls| ==> Better(side, ls[i].price, ls[j].price)
  }

  /** Where `price` is, or would be put. */
  function LowerBound<T>(side: Side, ls: seq<Level<T>>, price: Price): (k: nat)
    ensures k <= |ls|
    ensures forall i :: 0 <= i < k ==> Better(side, ls[i].price, price)
    ensures k < |ls| ==> !Better(side, ls[k].price, price)
  {
    if ls == [] || !Better(side, ls[0].price, price) then 0
    else 1 + LowerBound(side, ls[1..], price)
  }

  predicate HasPrice<T>(side: Side, ls: seq<Level<T>>, price: Price) {
    var k := LowerBound(side, ls, price);
    k < |ls| && ls[k].price == price
  }

  /** The cached total at a price; a missing level holds nothing. */
  function TotalAt<T>(side: Side, ls: seq<Level<T>>, price: Price): Quantity {
    if HasPrice(side, ls, price) then ls[LowerBound(side, ls, price)].totalQty else 0
  }

  function Put<T>(side: Side, ls: seq<Level<T>>, level: Level<T>): seq<Level<T>> {
    var k := LowerBound(side, ls, level.price);
    if HasPrice(side, ls, level.price) then ls[k := level] else ls[..k] + [level] + ls[k..]
  }

  function Erase<T>(ls: seq<Level<T>>, k: nat): seq<Level<T>>
    requires k < |ls|
  {
    ls[..k] + ls[k + 1..]
  }

  lemma {:induction false} OnlyOnePrice<T>(side: Side, ls: seq<Level<T>>, k: nat)
    requires SortedLevels(side, ls) && k < |ls|
    ensures LowerBound(side, ls, ls[k].price) == k && HasPrice(side, ls, ls[k].price)
  {
  }

  // ---- The dry run over cached totals

  /** What the levels that cross would fill, level by level. */
  function LevelCrossing<T>(ls: seq<Level<T>>, side: Side, price: int, qty: int): int
    decreases |ls|
  {
    if ls == [] || !Crosses(side, price, ls[0].price) then 0
    else
      var c := Min(qty, ls[0].totalQty);
      c + LevelCrossing(ls[1..], side, price, qty - c)
  }

  ghost predicate TotalsOk<T>(ls: seq<Level<T>>) {
    forall i :: 0 <= i < |ls| ==> ls[i].totalQty >= 0
  }

  lemma {:induction false} LevelCrossingBounds<T>(ls: seq<Level<T>>, side: Side, price: int, qty: int)
    requires TotalsOk(ls) && qty >= 0
    ensures 0 <= LevelCrossing(ls, side, price, qty) <= qty
    decreases |ls|
  {
    if ls != [] {
      LevelCrossingBounds(ls[1..], side, price, qty - Min(qty, ls[0].totalQty));
    }
  }

  /** The loop of max_crossing_qty, which stops at the limit or when nothing is left to fill. */
  method MaxCrossingQty<T>(ls: seq<Level<T>>, side: Side, price: Price, qty: Quantity) returns (crossing: Quantity)
    requires TotalsOk(ls) && qty >= 0
    ensures crossing == LevelCrossing(ls, side, price, qty)
  {
    crossing := 0;
    var i := 0;
    LevelCrossingBounds(ls, side, price, qty);
    while i < |ls|
      invariant 0 <= i <= |ls| && 0 <= crossing <= qty
      invariant crossing + LevelCrossing(ls[i..], side, price, qty - crossing) == LevelCrossing(ls, side, price, qty)
    {
      assert ls[i..][1..] == ls[i + 1..];
      if !Crosses(side, price, ls[i].price) {
        return;
      }
      var remaining := qty - crossing;
      crossing := crossing + Min(remaining, ls[i].totalQty);
      i := i + 1;
      if crossing == qty {
        LevelCrossingBounds(ls[i..], side, price, 0);
        return;
      }
    }
  }

  lemma {:induction false} LevelCrossingSame<S, T>(a: seq<Level<S>>, b: seq<Level<T>>, side: Side, price: int, qty: int)
    requires |a| == |b|
    requires forall i :: 0 <= i < |a| ==> a[i].price == b[i].price && a[i].totalQty == b[i].totalQty
    ensures LevelCrossing(a, side, price, qty) == LevelCrossing(b, side, price, qty)
    decreases |a|
  {
    if a != [] {
      LevelCrossingSame(a[1..], b[1..], side, price, qty - Min(qty, a[0].totalQty));
    }
  }
}

/** Levels that store their orders, and how they relate to the flat order sequence. */
module Levels {
  import opened Types
  import opened Reference
  import opened Matching
  import opened Invariants
  import opened PriceMap

  type OrderLevel = Level<seq<Order>>

  ghost predicate StoreOk(side: Side, price: Price, q: seq<Order>) {
    forall i :: 0 <= i < |q| ==> q[i].side == side && q[i].price == price && q[i].qty > 0
  }

  ghost predicate LevelOk(side: Side, l: OrderLevel) {
    l.store != [] && l.totalQty == SumQty(l.store) && StoreOk(side, l.price, l.store)
  }

  ghost predicate LevelsOk(side: Side, ls: seq<OrderLevel>) {
    && SortedLevels(side, ls)
    && forall i :: 0 <= i < |ls| ==> LevelOk(side, ls[i])
  }

  function Flatten(ls: seq<OrderLevel>): seq<Order> {
    if ls == [] then [] else ls[0].store + Flatten(ls[1..])
  }

  lemma {:induction false} FlattenAppend(a: seq<OrderLevel>, b: seq<OrderLevel>)
    ensures Flatten(a + b) == Flatten(a) + Flatten(b)
  {
    if a == [] {
      assert a + b == b;
    } else {
      assert (a + b)[1..] == a[1..] + b;
      FlattenAppend(a[1..], b);
    }
  }

  lemma {:induction false} Assoc<T>(a: seq<T>, b: seq<T>, c: seq<T>)
    ensures a + (b + c) == (a + b) + c
  {
  }

  lemma {:induction false} SplitAround<T>(s: seq<T>, k: nat)
    requires k < |s|
    ensures s == s[..k] + [s[k]] + s[k + 1..]
    ensures forall x :: s[k := x] == s[..k] + [x] + s[k + 1..]
  {
  }

  lemma {:induction false} FlattenMid(a: seq<OrderLevel>, l: OrderLevel, b: seq<OrderLevel>)
    ensures Flatten(a + [l] + b) == Flatten(a) + l.store + Flatten(b)
  {
    FlattenAppend(a + [l], b);
    FlattenAppend(a, [l]);
    assert Flatten([l]) == l.store + Flatten([l][1..]) == l.store + [] == l.store;
  }

  lemma {:induction false} FlattenSplit(ls: seq<OrderLevel>, k: nat)
    requires k < |ls|
    ensures Flatten(ls) == Flatten(ls[..k]) + ls[k].store + Flatten(ls[k + 1..])
  {
    SplitAround(ls, k);
    FlattenMid(ls[..k], ls[k], ls[k + 1..]);
  }

  /** Which level and place in it the flat order `i` comes from. */
  lemma {:induction false} Locate(ls: seq<OrderLevel>, i: nat) returns (k: nat, j: nat)
    requires i < |Flatten(ls)|
    ensures k < |ls| && j < |ls[k].store| && Flatten(ls)[i] == ls[k].store[j]
  {
    if i < |ls[0].store| {
      k, j := 0, i;
    } else {
      k, j := Locate(ls[1..], i - |ls[0].store|);
      k := k + 1;
    }
  }

  /** Every stored order shows up in the flat sequence. */
  lemma {:induction false} InFlat(ls: seq<OrderLevel>, k: nat, j: nat) returns (i: nat)
    requires k < |ls| && j < |ls[k].store|
    ensures i < |Flatten(ls)| && Flatten(ls)[i] == ls[k].store[j]
  {
    FlattenSplit(ls, k);
    i := |Flatten(ls[..k])| + j;
  }

  lemma {:induction false} FlatPositive(side: Side, ls: seq<OrderLevel>)
    requires LevelsOk(side, ls)
    ensures forall i :: 0 <= i < |Flatten(ls)| ==> Flatten(ls)[i].qty > 0 && Flatten(ls)[i].side == side
    ensures Positive(Flatten(ls))
  {
    forall i | 0 <= i < |Flatten(ls)| ensures Flatten(ls)[i].qty > 0 && Flatten(ls)[i].side == side {
      var k, j := Locate(ls, i);
      assert LevelOk(side, ls[k]);
    }
  }

  // ---- The dry run over cached totals

  lemma {:induction false} CrossingOfLevel(q: seq<Order>, tail: seq<Order>, side: Side, price: int, qty: int)
    requires Positive(q) && qty >= 0
    requires forall i :: 0 <= i < |q| ==> Crosses(side, price, q[i].price)
    ensures var c := Min(qty, SumQty(q));
            Crossing(q + tail, side, price, qty) == c + Crossing(tail, side, price, qty - c)
    decreases |q|
  {
    if q == [] {
      assert q + tail == tail;
    } else {
      SumQtyPositive(q[1..]);
      assert (q + tail)[1..] == q[1..] + tail;
      if qty > 0 {
        CrossingOfLevel(q[1..], tail, side, price, qty - Min(qty, q[0].qty));
      }
    }
  }

  /** Adding a whole level's cached total moves the dry run past that level. */
  lemma {:induction false} CrossingSkipsLevel(side: Side, ls: seq<OrderLevel>, k: nat, price: int, qty: int)
    requires LevelsOk(side.Opposite(), ls) && k < |ls| && qty >= 0
    ensures Crosses(side, price, ls[k].price) ==>
              var c := Min(qty, ls[k].totalQty);
              Crossing(Flatten(ls[k..]), side, price, qty)
                == c + Crossing(Flatten(ls[k + 1..]), side, price, qty - c)
    ensures !Crosses(side, price, ls[k].price) ==> Crossing(Flatten(ls[k..]), side, price, qty) == 0
  {
    assert LevelOk(side.Opposite(), ls[k]);
    assert ls[k..][1..] == ls[k + 1..];
    if Crosses(side, price, ls[k].price) {
      CrossingOfLevel(ls[k].store, Flatten(ls[k + 1..]), side, price, qty);
    }
  }

  /** The dry run over cached totals is the reference's order-by-order scan. */
  lemma {:induction false} LevelCrossingIsCrossing(ls: seq<OrderLevel>, side: Side, price: int, qty: int)
    requires LevelsOk(side.Opposite(), ls) && qty >= 0
    ensures LevelCrossing(ls, side, price, qty) == Crossing(Flatten(ls), side, price, qty)
    ensures TotalsOk(ls)
    decreases |ls|
  {
    if ls != [] {
      CrossingSkipsLevel(side, ls, 0, price, qty);
      assert LevelOk(side.Opposite(), ls[0]) && ls[0..] == ls;
      SumQtyPositive(ls[0].store);
      LevelCrossingIsCrossing(ls[1..], side, price, qty - Min(qty, ls[0].totalQty));
    }
  }

  // ---- Totals

  lemma {:induction false} LevelQtyOfStore(q: seq<Order>, price: int, at: int)
    requires forall i :: 0 <= i < |q| ==> q[i].price == at
    ensures LevelQty(q, price) == if price == at then SumQty(q) else 0
  {
    if q != [] {
      LevelQtyOfStore(q[1..], price, at);
    }
  }

  lemma {:induction false} LevelQtyAbsent(side: Side, ls: seq<OrderLevel>, price: Price)
    requires LevelsOk(side, ls)
    requires forall i :: 0 <= i < |ls| ==> ls[i].price != price
    ensures LevelQty(Flatten(ls), price) == 0
  {
    if ls != [] {
      LevelQtyAbsent(side, ls[1..], price);
      LevelQtyAppend(ls[0].store, Flatten(ls[1..]), price);
      assert LevelOk(side, ls[0]);
      LevelQtyOfStore(ls[0].store, price, ls[0].price);
    }
  }

  lemma {:induction false} LevelQtyAt(side: Side, ls: seq<OrderLevel>, k: nat)
    requires LevelsOk(side, ls) && k < |ls|
    ensures LevelQty(Flatten(ls), ls[k].price) == ls[k].totalQty
  {
    var price := ls[k].price;
    FlattenSplit(ls, k);
    LevelQtyAppend(Flatten(ls[..k]) + ls[k].store, Flatten(ls[k + 1..]), price);
    LevelQtyAppend(Flatten(ls[..k]), ls[k].store, price);
    assert LevelOk(side, ls[k]);
    LevelQtyOfStore(ls[k].store, price, price);
    LevelQtyAbsent(side, ls[..k], price);
    LevelQtyAbsent(side, ls[k + 1..], price);
  }

  /** The cached total answers the reference's scan of one price. */
  lemma {:induction false} TotalIsLevelQty(side: Side, ls: seq<OrderLevel>, price: Price)
    requires LevelsOk(side, ls)
    ensures TotalAt(side, ls, price) == LevelQty(Flatten(ls), price)
  {
    var k := LowerBound(side, ls, price);
    if HasPrice(side, ls, price) {
      LevelQtyAt(side, ls, k);
    } else {
      forall i | 0 <= i < |ls| ensures ls[i].price != price {
        if k < i {
          assert Better(side, ls[k].price, ls[i].price);
        }
      }
      LevelQtyAbsent(side, ls, price);
    }
  }

  // ---- Insertion

  function LevelFor(side: Side, ls: seq<OrderLevel>, price: Price): OrderLevel {
    if HasPrice(side, ls, price) then ls[LowerBound(side, ls, price)] else Level(price, 0, [])
  }

  lemma {:induction false} InsertAfter(a: seq<Order>, b: seq<Order>, o: Order)
    requires forall i :: 0 <= i < |a| ==> !Better(o.side, o.price, a[i].price)
    ensures Insert(a + b, o) == a + Insert(b, o)
  {
    if a == [] {
      assert a + b == b;
    } else {
      assert (a + b)[1..] == a[1..] + b;
      InsertAfter(a[1..], b, o);
    }
  }

  lemma {:induction false} InsertBetween(a: seq<Order>, b: seq<Order>, o: Order)
    requires forall i :: 0 <= i < |a| ==> !Better(o.side, o.price, a[i].price)
    requires b == [] || Better(o.side, o.price, b[0].price)
    ensures Insert(a + b, o) == a + [o] + b
  {
    InsertAfter(a, b, o);
    Assoc(a, [o], b);
  }

  lemma {:induction false} FlatUpTo(side: Side, ls: seq<OrderLevel>, k: nat, price: Price)
    requires LevelsOk(side, ls) && k <= |ls|
    requires forall i :: 0 <= i < k ==> !Better(side, price, ls[i].price)
    ensures forall i :: 0 <= i < |Flatten(ls[..k])| ==> !Better(side, price, Flatten(ls[..k])[i].price)
  {
    forall i | 0 <= i < |Flatten(ls[..k])| ensures !Better(side, price, Flatten(ls[..k])[i].price) {
      var n, j := Locate(ls[..k], i);
      assert LevelOk(side, ls[n]);
    }
  }

  lemma {:induction false} FlatUpToLevel(side: Side, ls: seq<OrderLevel>, k: nat, price: Price)
    requires LevelsOk(side, ls) && k < |ls|
    requires forall i :: 0 <= i <= k ==> !Better(side, price, ls[i].price)
    ensures var q := Flatten(ls[..k]) + ls[k].store;
            forall i :: 0 <= i < |q| ==> !Better(side, price, q[i].price)
  {
    FlatUpTo(side, ls, k, price);
    assert LevelOk(side, ls[k]);
  }

  lemma {:induction false} FlatFrom(side: Side, ls: seq<OrderLevel>, k: nat, price: Price)
    requires LevelsOk(side, ls) && k <= |ls|
    requires k < |ls| ==> Better(side, price, ls[k].price)
    ensures Flatten(ls[k..]) == [] || Better(side, price, Flatten(ls[k..])[0].price)
  {
    if k < |ls| {
      assert LevelOk(side, ls[k]);
      assert Flatten(ls[k..])[0] == ls[k].store[0];
    }
  }

  lemma {:induction false} PutKeepsSorted<T>(side: Side, ls: seq<Level<T>>, level: Level<T>)
    requires SortedLevels(side, ls)
    ensures SortedLevels(side, Put(side, ls, level))
  {
  }

  lemma {:induction false} SumQtySingle(o: Order)
    ensures SumQty([o]) == o.qty
  {
    assert [o][1..] == [];
  }

  function Appended(l: OrderLevel, o: Order): OrderLevel
    requires MIN_INT64 <= l.totalQty + o.qty <= MAX_INT64
  {
    Level(o.price, l.totalQty + o.qty, l.store + [o])
  }

  lemma {:induction false} AppendedOk(side: Side, l: OrderLevel, o: Order)
    requires l.price == o.price && o.side == side && o.qty > 0
    requires StoreOk(side, l.price, l.store) && l.totalQty == SumQty(l.store)
    requires MIN_INT64 <= l.totalQty + o.qty <= MAX_INT64
    ensures LevelOk(side, Appended(l, o))
  {
    SumQtyAppend(l.store, [o]);
    SumQtySingle(o);
  }

  /** Appending at a level is the reference's insertion behind every order at least as good. */
  lemma {:induction false} PutIsInsert(side: Side, ls: seq<OrderLevel>, o: Order)
    requires LevelsOk(side, ls) && o.side == side && o.qty > 0
    requires TotalAt(side, ls, o.price) + o.qty <= MAX_INT64
    ensures 0 <= LevelFor(side, ls, o.price).totalQty
    ensures var ls' := Put(side, ls, Appended(LevelFor(side, ls, o.price), o));
            LevelsOk(side, ls') && Flatten(ls') == Insert(Flatten(ls), o)
  {
    var l := LevelFor(side, ls, o.price);
    if HasPrice(side, ls, o.price) {
      assert LevelOk(side, l);
      SumQtyPositive(l.store);
      PutIntoLevel(side, ls, o);
    } else {
      PutNewLevel(side, ls, o);
    }
    AppendedOk(side, l, o);
    PutKeepsSorted(side, ls, Appended(l, o));
  }

  lemma {:induction false} PutIntoLevel(side: Side, ls: seq<OrderLevel>, o: Order)
    requires LevelsOk(side, ls) && o.side == side && HasPrice(side, ls, o.price)
    requires MIN_INT64 <= TotalAt(side, ls, o.price) + o.qty <= MAX_INT64
    ensures Flatten(Put(side, ls, Appended(LevelFor(side, ls, o.price), o))) == Insert(Flatten(ls), o)
  {
    var k := LowerBound(side, ls, o.price);
    var l := Appended(ls[k], o);
    SplitAround(ls, k);
    FlattenMid(ls[..k], l, ls[k + 1..]);
    FlattenSplit(ls, k);
    FlatUpToLevel(side, ls, k, o.price);
    FlatFrom(side, ls, k + 1, o.price);
    InsertBetween(Flatten(ls[..k]) + ls[k].store, Flatten(ls[k + 1..]), o);
    Assoc(Flatten(ls[..k]), ls[k].store, [o]);
  }

  lemma {:induction false} PutNewLevel(side: Side, ls: seq<OrderLevel>, o: Order)
    requires LevelsOk(side, ls) && o.side == side && !HasPrice(side, ls, o.price)
    requires MIN_INT64 <= o.qty <= MAX_INT64
    ensures Flatten(Put(side, ls, Appended(LevelFor(side, ls, o.price), o))) == Insert(Flatten(ls), o)
  {
    hide Flatten, Insert, LowerBound, LevelsOk;
    var k := LowerBound(side, ls, o.price);
    var l := Appended(Level(o.price, 0, []), o);
    FlatUpTo(side, ls, k, o.price);
    FlatFrom(side, ls, k, o.price);
    InsertBetween(Flatten(ls[..k]), Flatten(ls[k..]), o);
    assert ls == ls[..k] + ls[k..] && l.store == [o];
    FlattenAppend(ls[..k], ls[k..]);
    FlattenMid(ls[..k], l, ls[k..]);
  }

  // ---- Removal

  lemma {:induction false} WithoutAfter(a: seq<Order>, b: seq<Order>, id: OrderId)
    requires !HasId(a, id)
    ensures Without(a + b, id) == a + Without(b, id)
  {
    if a == [] {
      assert a + b == b;
    } else {
      assert a[0].id != id;
      assert forall i :: 0 <= i < |a[1..]| ==> a[1..][i] == a[i + 1];
      assert (a + b)[1..] == a[1..] + b;
      WithoutAfter(a[1..], b, id);
    }
  }

  /** Taking order `j` out of level `k`, dropping the level if that empties it. */
  function DropAt(ls: seq<OrderLevel>, k: nat, j: nat): seq<OrderLevel>
    requires k < |ls| && j < |ls[k].store|
    requires MIN_INT64 <= ls[k].totalQty - ls[k].store[j].qty <= MAX_INT64
  {
    var store := ls[k].store[..j] + ls[k].store[j + 1..];
    if store == [] then Erase(ls, k)
    else ls[k := Level(ls[k].price, ls[k].totalQty - ls[k].store[j].qty, store)]
  }

  lemma {:induction false} SumQtyDrop(q: seq<Order>, j: nat)
    requires j < |q| && Positive(q)
    ensures SumQty(q[..j] + q[j + 1..]) == SumQty(q) - q[j].qty >= 0
  {
    assert q == q[..j] + q[j..] && q[j..][1..] == q[j + 1..] && q[j..][0] == q[j];
    SumQtyAppend(q[..j], q[j..]);
    SumQtyAppend(q[..j], q[j + 1..]);
    SumQtyPositive(q[..j] + q[j + 1..]);
  }

  lemma {:induction false} DropIsWithout(side: Side, ls: seq<OrderLevel>, k: nat, j: nat)
    requires LevelsOk(side, ls) && k < |ls| && j < |ls[k].store|
    requires DistinctIds(Flatten(ls))
    ensures 0 <= ls[k].totalQty - ls[k].store[j].qty <= MAX_INT64
    ensures LevelsOk(side, DropAt(ls, k, j))
    ensures Flatten(DropAt(ls, k, j)) == Without(Flatten(ls), ls[k].store[j].id)
  {
    assert LevelOk(side, ls[k]);
    SumQtyDrop(ls[k].store, j);
    DropFlattens(ls, k, j);
    DropKeepsLevels(side, ls, k, j);
    var before, after := Flatten(ls[..k]), Flatten(ls[k + 1..]);
    var head, o, tail := ls[k].store[..j], ls[k].store[j], ls[k].store[j + 1..];
    FlattenSplit(ls, k);
    StoreSplits(before, ls[k].store, j, after);
    DropFlat(before + head, o, tail + after);
  }

  lemma {:induction false} StoreSplits(a: seq<Order>, store: seq<Order>, j: nat, b: seq<Order>)
    requires j < |store|
    ensures a + store + b == (a + store[..j]) + ([store[j]] + (store[j + 1..] + b))
  {
    var head, o, tail := store[..j], [store[j]], store[j + 1..];
    assert store == head + (o + tail);
    Assoc(a, head, o + tail);
    Assoc(a + head, o + tail, b);
    Assoc(o, tail, b);
  }

  lemma {:induction false} DropKeepsLevels(side: Side, ls: seq<OrderLevel>, k: nat, j: nat)
    requires LevelsOk(side, ls) && k < |ls| && j < |ls[k].store|
    requires 0 <= ls[k].totalQty - ls[k].store[j].qty <= MAX_INT64
    ensures LevelsOk(side, DropAt(ls, k, j))
  {
    assert LevelOk(side, ls[k]);
    SumQtyDrop(ls[k].store, j);
    var store := ls[k].store[..j] + ls[k].store[j + 1..];
    if store == [] {
      EraseKeepsLevels(side, ls, k);
    } else {
      ReplaceKeepsLevels(side, ls, k, Level(ls[k].price, ls[k].totalQty - ls[k].store[j].qty, store));
    }
  }

  lemma {:induction false} EraseKeepsLevels(side: Side, ls: seq<OrderLevel>, k: nat)
    requires LevelsOk(side, ls) && k < |ls|
    ensures LevelsOk(side, Erase(ls, k))
  {
    forall i | 0 <= i < |Erase(ls, k)| ensures LevelOk(side, Erase(ls, k)[i]) {
      assert Erase(ls, k)[i] == if i < k then ls[i] else ls[i + 1];
    }
  }

  lemma {:induction false} ReplaceKeepsLevels(side: Side, ls: seq<OrderLevel>, k: nat, l: OrderLevel)
    requires LevelsOk(side, ls) && k < |ls| && LevelOk(side, l) && l.price == ls[k].price
    ensures LevelsOk(side, ls[k := l])
  {
  }

  lemma {:induction false} DropFlattens(ls: seq<OrderLevel>, k: nat, j: nat)
    requires k < |ls| && j < |ls[k].store|
    requires MIN_INT64 <= ls[k].totalQty - ls[k].store[j].qty <= MAX_INT64
    ensures Flatten(DropAt(ls, k, j))
              == (Flatten(ls[..k]) + ls[k].store[..j]) + (ls[k].store[j + 1..] + Flatten(ls[k + 1..]))
  {
    var head, tail := ls[k].store[..j], ls[k].store[j + 1..];
    var before, after := Flatten(ls[..k]), Flatten(ls[k + 1..]);
    Assoc(before, head, tail);
    Assoc(before + head, tail, after);
    if head + tail == [] {
      assert head == [] && tail == [];
      FlattenAppend(ls[..k], ls[k + 1..]);
    } else {
      var l := Level(ls[k].price, ls[k].totalQty - ls[k].store[j].qty, head + tail);
      SplitAround(ls, k);
      FlattenMid(ls[..k], l, ls[k + 1..]);
    }
  }

  lemma {:induction false} DropFlat(a: seq<Order>, o: Order, b: seq<Order>)
    requires DistinctIds(a + ([o] + b))
    ensures Without(a + ([o] + b), o.id) == a + b
  {
    var q := a + ([o] + b);
    assert q[|a|] == o;
    forall i | 0 <= i < |a| ensures a[i].id != o.id {
      assert q[i] == a[i];
    }
    WithoutAfter(a, [o] + b, o.id);
    assert ([o] + b)[1..] == b;
  }
}
