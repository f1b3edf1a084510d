/**
 The hash index from order id to where the order rests. `q` and `r` are the two sides; a
 location names the side and the price level, and within its level an order is found by its id.
 */
module OrderIndex {
  import opened Types
  import opened Reference
  import opened Matching
  import opened Invariants

  datatype Location = Location(side: Side, price: Price)

  type Index = map<OrderId, Location>

  ghost predicate Located(index: Index, q: seq<Order>) {
    forall i :: 0 <= i < |q| ==> q[i].id in index && index[q[i].id] == Location(q[i].side, q[i].price)
  }

  ghost predicate IndexOk(index: Index, q: seq<Order>, r: seq<Order>) {
    && Located(index, q) && Located(index, r)
    && forall id :: id in index ==> HasId(q, id) || HasId(r, id)
  }

  ghost predicate AllDistinct(q: seq<Order>, r: seq<Order>) {
    DistinctIds(q) && DistinctIds(r) && NoSharedIds(q, r)
  }

  lemma {:induction false} IndexSides(index: Index, q: seq<Order>, r: seq<Order>)
    ensures IndexOk(index, q, r) <==> IndexOk(index, r, q)
  {
  }

  lemma {:induction false} InvIgnoresCounts(a: State, b: State)
    requires a.bids == b.bids && a.asks == b.asks && a.stats.tradedQty == b.stats.tradedQty
    ensures Inv(a) <==> Inv(b)
  {
  }

  lemma {:induction false} InvFacts(st: State, side: Side)
    requires Inv(st)
    ensures AllDistinct(st.Orders(side), st.Orders(side.Opposite()))
    ensures AllDistinct(st.Orders(side.Opposite()), st.Orders(side))
    ensures 0 <= st.stats.tradedQty <= MAX_INT64
    ensures Positive(st.Orders(side)) && Positive(st.Orders(side.Opposite()))
  {
  }

  lemma {:induction false} DistinctSide(st: State, side: Side)
    requires Inv(st)
    ensures DistinctIds(st.Orders(side))
  {
  }

  lemma {:induction false} OnlyWithId(q: seq<Order>, id: OrderId, i: nat)
    requires DistinctIds(q) && i < |q| && q[i].id == id
    ensures HasId(q, id) && IndexOfId(q, id) == i
  {
    WithoutSplits(q, id);
  }

  lemma {:induction false} ShrunkKeepsDistinct(q: seq<Order>, r: seq<Order>, fill: int)
    requires q != [] && AllDistinct(q, r)
    ensures AllDistinct(Shrunk(q, fill), r)
  {
  }

  /** The index after the head of `q` has traded `fill`. */
  lemma {:induction false} IndexAfterFill(index: Index, q: seq<Order>, r: seq<Order>, fill: int)
    requires q != [] && AllDistinct(q, r) && IndexOk(index, q, r)
    ensures IndexOk(if q[0].qty == fill then index - {q[0].id} else index, Shrunk(q, fill), r)
  {
    var q' := Shrunk(q, fill);
    forall id | HasId(q, id) && (id != q[0].id || q[0].qty != fill) ensures HasId(q', id) {
      var i :| 0 <= i < |q| && q[i].id == id;
      assert q'[if q[0].qty == fill then i - 1 else i].id == id;
    }
  }

  lemma {:induction false} DistinctAfterRemoval(q: seq<Order>, r: seq<Order>, id: OrderId)
    requires AllDistinct(q, r) && HasId(q, id)
    ensures AllDistinct(Without(q, id), r) && !HasId(Without(q, id), id) && !HasId(r, id)
  {
    var k := WithoutPositions(q, id);
  }

  lemma {:induction false} IndexAfterRemoval(index: Index, q: seq<Order>, r: seq<Order>, id: OrderId)
    requires AllDistinct(q, r) && IndexOk(index, q, r) && HasId(q, id)
    ensures IndexOk(index - {id}, Without(q, id), r)
  {
    hide Without;
    DistinctAfterRemoval(q, r, id);
    var k := WithoutPositions(q, id);
    forall x | x != id && HasId(q, x) ensures HasId(Without(q, id), x) {
      WithoutHas(q, id, x);
    }
  }

  lemma {:induction false} IndexAfterInsert(index: Index, q: seq<Order>, r: seq<Order>, o: Order)
    requires IndexOk(index, q, r) && !HasId(q, o.id) && !HasId(r, o.id)
    ensures IndexOk(index[o.id := Location(o.side, o.price)], Insert(q, o), r)
  {
    hide Insert, InsertAt;
    InsertPlaces(q, o);
    forall x ensures HasId(Insert(q, o), x) <==> x == o.id || HasId(q, x) {
      InsertHas(q, o, x);
    }
  }

  lemma {:induction false} IndexKnows(index: Index, q: seq<Order>, r: seq<Order>, id: OrderId)
    requires IndexOk(index, q, r)
    ensures id in index <==> HasId(q, id) || HasId(r, id)
  {
  }

  lemma {:induction false} DistinctCount(q: seq<Order>)
    requires DistinctIds(q)
    ensures |set i | 0 <= i < |q| :: q[i].id| == |q|
  {
    if q != [] {
      var last := |q| - 1;
      DistinctCount(q[..last]);
      var ids := set i | 0 <= i < last :: q[..last][i].id;
      assert (set i | 0 <= i < |q| :: q[i].id) == ids + {q[last].id} by {
        assert forall i :: 0 <= i < last ==> q[i].id in ids by {
          assert forall i :: 0 <= i < last ==> q[..last][i] == q[i];
        }
      }
    }
  }

  /** A key set that is exactly the resting ids counts the resting orders. */
  lemma {:induction false} IdsCount(keys: set<OrderId>, q: seq<Order>, r: seq<Order>)
    requires AllDistinct(q, r)
    requires forall id :: id in keys <==> HasId(q, id) || HasId(r, id)
    ensures |keys| == |q| + |r|
  {
    DistinctCount(q);
    DistinctCount(r);
    var a := set i | 0 <= i < |q| :: q[i].id;
    var b := set i | 0 <= i < |r| :: r[i].id;
    assert a !! b;
    assert keys == a + b;
  }

  /** The live-order count read off the index is the number of resting orders. */
  lemma {:induction false} IndexCounts(index: Index, q: seq<Order>, r: seq<Order>)
    requires AllDistinct(q, r) && IndexOk(index, q, r)
    ensures |index| == |q| + |r|
  {
    IdsCount(index.Keys, q, r);
  }
}
