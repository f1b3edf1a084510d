/** Laws of one match: price-time priority, the dry run, conservation. */
module Matching {
  import opened Types
  import opened Reference

  ghost predicate Positive(q: seq<Order>) {
    forall i :: 0 <= i < |q| ==> q[i].qty > 0
  }

  lemma {:induction false} SumQtyAppend(a: seq<Order>, b: seq<Order>)
    ensures SumQty(a + b) == SumQty(a) + SumQty(b)
  {
    if a == [] {
      assert a + b == b;
    } else {
      assert (a + b)[1..] == a[1..] + b;
      SumQtyAppend(a[1..], b);
    }
  }

  lemma {:induction false} SumQtyPositive(q: seq<Order>)
    requires Positive(q)
    ensures SumQty(q) >= |q|
  {
    if q != [] {
      SumQtyPositive(q[1..]);
    }
  }

  lemma {:induction false} TradedQtyAppend(a: seq<Trade>, b: seq<Trade>)
    ensures TradedQty(a + b) == TradedQty(a) + TradedQty(b)
  {
    if a == [] {
      assert a + b == b;
    } else {
      assert (a + b)[1..] == a[1..] + b;
      TradedQtyAppend(a[1..], b);
    }
  }

  // ---- Price-time priority

  function FillOf(o: Order, id: OrderId, side: Side, qty: int): Trade {
    Trade(o.id, id, o.price, qty, side)
  }

  /** The trades that consume every order of `q`, each at its own price. */
  function FullFills(q: seq<Order>, id: OrderId, side: Side): seq<Trade> {
    if q == [] then [] else [FillOf(q[0], id, side, q[0].qty)] + FullFills(q[1..], id, side)
  }

  /**
   The first `k` orders are consumed whole, in queue order, and nothing else happens except,
   possibly, one partial fill of order `k`. The prefix is the longest the limit and the
   quantity allow.
   */
  ghost predicate PriceTimeFill(q: seq<Order>, id: OrderId, side: Side, price: int, qty: int, m: Matched, k: int) {
    && 0 <= k <= |q|
    && (forall i :: 0 <= i < k ==> Crosses(side, price, q[i].price))
    && var left := qty - SumQty(q[..k]);
    left >= 0 &&
    if k < |q| && left > 0 && Crosses(side, price, q[k].price) then
      && left < q[k].qty
      && m == Matched([q[k].(qty := q[k].qty - left)] + q[k + 1..],
                      FullFills(q[..k], id, side) + [FillOf(q[k], id, side, left)], 0)
    else
      m == Matched(q[k..], FullFills(q[..k], id, side), left)
  }

  ghost predicate ByPriority(q: seq<Order>, id: OrderId, side: Side, price: int, qty: int, m: Matched) {
    exists k :: PriceTimeFill(q, id, side, price, qty, m, k)
  }

  /** How many resting orders a match consumes whole. */
  function Consumed(q: seq<Order>, side: Side, price: int, qty: int): nat
    decreases |q|
  {
    if qty <= 0 || q == [] || !Crosses(side, price, q[0].price) || qty < q[0].qty then 0
    else 1 + Consumed(q[1..], side, price, qty - q[0].qty)
  }

  /** Peeling the head order off a queue and a non-empty consumed prefix. */
  lemma {:induction false} PeelPrefix(q: seq<Order>, k: int, id: OrderId, side: Side)
    requires 0 < k <= |q|
    ensures SumQty(q[..k]) == q[0].qty + SumQty(q[1..][..k - 1])
    ensures FullFills(q[..k], id, side) == [FillOf(q[0], id, side, q[0].qty)] + FullFills(q[1..][..k - 1], id, side)
    ensures q[k..] == q[1..][k - 1..]
    ensures k < |q| ==> q[k] == q[1..][k - 1] && q[k + 1..] == q[1..][k..]
  {
    assert q[..k][1..] == q[1..][..k - 1];
  }

  lemma {:induction false} MatchIsPriceTimeFill(q: seq<Order>, id: OrderId, side: Side, price: int, qty: int)
    requires Positive(q) && qty >= 0
    ensures PriceTimeFill(q, id, side, price, qty, Match(q, id, side, price, qty), Consumed(q, side, price, qty))
    decreases |q|
  {
    if Consumed(q, side, price, qty) > 0 {
      hide PriceTimeFill, FillOf;
      var k := Consumed(q[1..], side, price, qty - q[0].qty);
      var m := Match(q[1..], id, side, price, qty - q[0].qty);
      MatchIsPriceTimeFill(q[1..], id, side, price, qty - q[0].qty);
      FillPrepends(q, id, side, price, qty, m, k);
    } else {
      MatchConsumesNone(q, id, side, price, qty);
    }
  }

  lemma {:induction false} MatchConsumesNone(q: seq<Order>, id: OrderId, side: Side, price: int, qty: int)
    requires Positive(q) && qty >= 0 && Consumed(q, side, price, qty) == 0
    ensures PriceTimeFill(q, id, side, price, qty, Match(q, id, side, price, qty), 0)
  {
  }

  lemma {:induction false} FillPrepends(q: seq<Order>, id: OrderId, side: Side, price: int, qty: int, m: Matched,
                                        k: int)
    requires q != [] && Crosses(side, price, q[0].price)
    requires PriceTimeFill(q[1..], id, side, price, qty - q[0].qty, m, k)
    ensures PriceTimeFill(q, id, side, price, qty,
                          m.(trades := [FillOf(q[0], id, side, q[0].qty)] + m.trades), k + 1)
  {
    PeelPrefix(q, k + 1, id, side);
    forall i | 0 <= i < k + 1 ensures Crosses(side, price, q[i].price) {
      if i > 0 {
        assert q[i] == q[1..][i - 1];
      }
    }
    var fill := [FillOf(q[0], id, side, q[0].qty)];
    var full := FullFills(q[1..][..k], id, side);
    var left := qty - SumQty(q[..k + 1]);
    if k + 1 < |q| && left > 0 && Crosses(side, price, q[k + 1].price) {
      var last := [FillOf(q[k + 1], id, side, left)];
      assert fill + (full + last) == (fill + full) + last;
    }
  }

  /** A fill that starts with a whole order is that order's fill, followed by a fill of the others. */
  lemma {:induction false} FillPeels(q: seq<Order>, id: OrderId, side: Side, price: int, qty: int, m: Matched, k: int)
    requires Positive(q) && k > 0 && PriceTimeFill(q, id, side, price, qty, m, k)
    ensures q != [] && Crosses(side, price, q[0].price) && 0 < q[0].qty <= qty
    ensures m.trades != [] && m.trades[0] == FillOf(q[0], id, side, q[0].qty)
    ensures PriceTimeFill(q[1..], id, side, price, qty - q[0].qty, m.(trades := m.trades[1..]), k - 1)
  {
    hide Crosses;
    PeelPrefix(q, k, id, side);
    SumQtyPositive(q[1..][..k - 1]);
    forall i | 0 <= i < k - 1 ensures Crosses(side, price, q[1..][i].price) {
      assert q[1..][i] == q[i + 1];
    }
  }

  lemma {:induction false} NothingConsumed(q: seq<Order>, id: OrderId, side: Side, price: int, qty: int, m: Matched)
    requires Positive(q) && qty >= 0 && PriceTimeFill(q, id, side, price, qty, m, 0)
    ensures m == Match(q, id, side, price, qty)
  {
  }

  /** `PriceTimeFill` leaves no choice: whatever satisfies it is what `Match` returns. */
  lemma {:induction false} PriceTimeFillUnique(q: seq<Order>, id: OrderId, side: Side, price: int, qty: int,
                                        m: Matched, k: int)
    requires Positive(q) && qty >= 0
    requires PriceTimeFill(q, id, side, price, qty, m, k)
    ensures m == Match(q, id, side, price, qty)
    decreases |q|
  {
    assert 0 <= k;
    hide PriceTimeFill, Crosses, FillOf, Match;
    if k == 0 {
      NothingConsumed(q, id, side, price, qty, m);
    } else {
      FillPeels(q, id, side, price, qty, m, k);
      PriceTimeFillUnique(q[1..], id, side, price, qty - q[0].qty, m.(trades := m.trades[1..]), k - 1);
      MatchPeels(q, id, side, price, qty, m);
    }
  }

  lemma {:induction false} MatchPeels(q: seq<Order>, id: OrderId, side: Side, price: int, qty: int, m: Matched)
    requires q != [] && Crosses(side, price, q[0].price) && 0 < q[0].qty <= qty
    requires m.trades != [] && m.trades[0] == FillOf(q[0], id, side, q[0].qty)
    requires m.(trades := m.trades[1..]) == Match(q[1..], id, side, price, qty - q[0].qty)
    ensures m == Match(q, id, side, price, qty)
  {
    assert m.trades == [m.trades[0]] + m.trades[1..];
  }

  /** Price-time priority, both ways: a result is the match exactly when it is such a fill. */
  lemma {:induction false} MatchIffPriceTimeFill(q: seq<Order>, id: OrderId, side: Side, price: int, qty: int,
                                        m: Matched)
    requires Positive(q) && qty >= 0
    ensures m == Match(q, id, side, price, qty) <==> ByPriority(q, id, side, price, qty, m)
  {
    MatchIsPriceTimeFill(q, id, side, price, qty);
    if k :| PriceTimeFill(q, id, side, price, qty, m, k) {
      PriceTimeFillUnique(q, id, side, price, qty, m, k);
    }
  }

  // ---- The dry run

  /** The dry run is exact: what it counts is what the match trades. */
  lemma {:induction false} CrossingIsExact(q: seq<Order>, id: OrderId, side: Side, price: int, qty: int)
    requires Positive(q) && qty >= 0
    ensures var m := Match(q, id, side, price, qty);
            && Crossing(q, side, price, qty) == qty - m.remaining == TradedQty(m.trades)
            && 0 <= m.remaining <= qty
    decreases |q|
  {
    if qty > 0 && q != [] && Crosses(side, price, q[0].price) {
      if qty < q[0].qty {
        assert Crossing(q[1..], side, price, 0) == 0;
      } else {
        CrossingIsExact(q[1..], id, side, price, qty - q[0].qty);
        var m := Match(q, id, side, price, qty);
        assert m.trades[1..] == Match(q[1..], id, side, price, qty - q[0].qty).trades;
      }
    }
  }

  /** Everything that rests at or better than a limit. */
  function Depth(q: seq<Order>, side: Side, price: int): int {
    if q == [] || !Crosses(side, price, q[0].price) then 0 else q[0].qty + Depth(q[1..], side, price)
  }

  /** The dry run is the depth, capped at the incoming quantity. */
  lemma {:induction false} CrossingIsCappedDepth(q: seq<Order>, side: Side, price: int, qty: int)
    requires Positive(q) && qty >= 0
    ensures Crossing(q, side, price, qty) == Min(qty, Depth(q, side, price))
    ensures 0 <= Depth(q, side, price) <= SumQty(q)
    decreases |q|
  {
    if q != [] {
      SumQtyPositive(q[1..]);
      CrossingIsCappedDepth(q[1..], side, price, if qty < q[0].qty then 0 else qty - q[0].qty);
    }
  }

  lemma {:induction false} DepthOfAll(q: seq<Order>, side: Side, price: int)
    requires forall i :: 0 <= i < |q| ==> Crosses(side, price, q[i].price)
    ensures Depth(q, side, price) == SumQty(q)
  {
    if q != [] {
      DepthOfAll(q[1..], side, price);
    }
  }

  /** Leftover quantity means everything that crosses is gone. */
  lemma {:induction false} RemainderMeansUncrossed(q: seq<Order>, id: OrderId, side: Side, price: int, qty: int)
    requires Positive(q)
    requires Match(q, id, side, price, qty).remaining > 0
    ensures var m := Match(q, id, side, price, qty);
            m.rest == [] || !Crosses(side, price, m.rest[0].price)
    decreases |q|
  {
    if qty > 0 && q != [] && Crosses(side, price, q[0].price) {
      RemainderMeansUncrossed(q[1..], id, side, price, qty - q[0].qty);
    }
  }

  // ---- What a match leaves behind

  /** `rest` is a tail of `q` in which only the first order may have shrunk. */
  ghost predicate TailOf(rest: seq<Order>, q: seq<Order>) {
    && |rest| <= |q|
    && var tail := q[|q| - |rest|..];
    && (rest != [] ==> rest[0] == tail[0].(qty := rest[0].qty) && 0 < rest[0].qty <= tail[0].qty)
    && (rest != [] ==> rest[1..] == tail[1..])
  }

  lemma {:induction false} MatchLeavesTail(q: seq<Order>, id: OrderId, side: Side, price: int, qty: int)
    requires Positive(q) && qty >= 0
    ensures TailOf(Match(q, id, side, price, qty).rest, q)
    decreases |q|
  {
    if qty > 0 && q != [] && Crosses(side, price, q[0].price) && q[0].qty <= qty {
      MatchLeavesTail(q[1..], id, side, price, qty - q[0].qty);
      TailOfCons(Match(q[1..], id, side, price, qty - q[0].qty).rest, q);
    } else {
      assert q[0..] == q;
    }
  }

  /** What a match takes off the queue is what it trades. */
  lemma {:induction false} MatchConserves(q: seq<Order>, id: OrderId, side: Side, price: int, qty: int)
    ensures var m := Match(q, id, side, price, qty);
            SumQty(q) == SumQty(m.rest) + TradedQty(m.trades)
    decreases |q|
  {
    if qty > 0 && q != [] && Crosses(side, price, q[0].price) && q[0].qty <= qty {
      MatchConserves(q[1..], id, side, price, qty - q[0].qty);
      var m' := Match(q[1..], id, side, price, qty - q[0].qty);
      assert Match(q, id, side, price, qty).trades[1..] == m'.trades;
    }
  }

  lemma {:induction false} TailOfCons(rest: seq<Order>, q: seq<Order>)
    requires q != []
    ensures TailOf(rest, q[1..]) ==> TailOf(rest, q)
    ensures TailOf(rest, q) && |rest| < |q| ==> TailOf(rest, q[1..])
  {
    var d := |q| - |rest|;
    assert d > 0 ==> q[1..][d - 1..] == q[d..];
  }

  /** Leftover quantity after a real crossing means at least one order was consumed whole. */
  lemma {:induction false} RemainderFreesAnOrder(q: seq<Order>, id: OrderId, side: Side, price: int, qty: int)
    requires Positive(q)
    requires Crossing(q, side, price, qty) != 0
    requires Match(q, id, side, price, qty).remaining > 0
    ensures |Match(q, id, side, price, qty).rest| < |q|
  {
    assert q[0].qty <= qty;
    MatchLeavesTail(q[1..], id, side, price, qty - q[0].qty);
  }

  // ---- Matching as a loop

  /** `q` after its head has traded `fill`: popped when that was all it had. */
  function Shrunk(q: seq<Order>, fill: int): seq<Order>
    requires q != []
  {
    (if q[0].qty == fill then [] else [q[0].(qty := q[0].qty - fill)]) + q[1..]
  }

  /** The trades `done` so far plus the match still to do are the whole match of `q0`. */
  ghost predicate Progress(q0: seq<Order>, id: OrderId, side: Side, price: int, qty0: int,
                           q: seq<Order>, qty: int, done: seq<Trade>) {
    var m := Match(q, id, side, price, qty);
    Match(q0, id, side, price, qty0) == Matched(m.rest, done + m.trades, m.remaining)
  }

  lemma {:induction false} MatchHead(q: seq<Order>, id: OrderId, side: Side, price: int, qty: int)
    requires q != [] && qty > 0 && q[0].qty > 0 && Crosses(side, price, q[0].price)
    ensures var fill := Min(qty, q[0].qty);
            Progress(q, id, side, price, qty, Shrunk(q, fill), qty - fill, [FillOf(q[0], id, side, fill)])
  {
    assert [] + q[1..] == q[1..];
  }

  lemma {:induction false} ProgressTrans(q0: seq<Order>, id: OrderId, side: Side, price: int, qty0: int,
                      q: seq<Order>, qty: int, done: seq<Trade>, q': seq<Order>, qty': int, more: seq<Trade>)
    requires Progress(q0, id, side, price, qty0, q, qty, done)
    requires Progress(q, id, side, price, qty, q', qty', more)
    ensures Progress(q0, id, side, price, qty0, q', qty', done + more)
  {
    var m := Match(q', id, side, price, qty');
    assert done + (more + m.trades) == (done + more) + m.trades;
  }

  /** What is traded on the way never exceeds the dry run. */
  lemma {:induction false} ProgressBound(q0: seq<Order>, id: OrderId, side: Side, price: int, qty0: int,
                      q: seq<Order>, qty: int, done: seq<Trade>)
    requires Progress(q0, id, side, price, qty0, q, qty, done)
    requires Positive(q0) && Positive(q) && qty0 >= 0 && qty >= 0
    ensures TradedQty(done) + Crossing(q, side, price, qty) == Crossing(q0, side, price, qty0)
    ensures Crossing(q, side, price, qty) >= 0
  {
    CrossingIsExact(q0, id, side, price, qty0);
    CrossingIsExact(q, id, side, price, qty);
    TradedQtyAppend(done, Match(q, id, side, price, qty).trades);
  }

  // ---- Inserting and removing

  function InsertAt(q: seq<Order>, o: Order): (k: nat)
    ensures k <= |q|
  {
    if q == [] || Better(o.side, o.price, q[0].price) then 0 else 1 + InsertAt(q[1..], o)
  }

  lemma {:induction false} InsertSplits(q: seq<Order>, o: Order)
    ensures var k := InsertAt(q, o);
            && Insert(q, o) == q[..k] + [o] + q[k..]
            && (forall i :: 0 <= i < k ==> !Better(o.side, o.price, q[i].price))
            && (k < |q| ==> Better(o.side, o.price, q[k].price))
  {
    if q != [] && !Better(o.side, o.price, q[0].price) {
      InsertSplits(q[1..], o);
      var k := InsertAt(q[1..], o);
      assert q[..k + 1] == [q[0]] + q[1..][..k];
      assert forall i :: 0 < i <= k ==> q[i] == q[1..][i - 1];
    }
  }

  /** The same place by place. */
  lemma {:induction false} InsertPlaces(q: seq<Order>, o: Order)
    ensures var k, r := InsertAt(q, o), Insert(q, o);
            && |r| == |q| + 1 && r[k] == o
            && forall i :: 0 <= i < |r| && i != k ==> r[i] == q[if i < k then i else i - 1]
  {
    hide Insert, InsertAt;
    InsertSplits(q, o);
  }

  lemma {:induction false} InsertHas(q: seq<Order>, o: Order, id: OrderId)
    ensures HasId(Insert(q, o), id) <==> id == o.id || HasId(q, id)
  {
    hide Insert, InsertAt;
    InsertPlaces(q, o);
    var k := InsertAt(q, o);
    assert Insert(q, o)[k].id == o.id;
    if HasId(q, id) {
      var i :| 0 <= i < |q| && q[i].id == id;
      assert Insert(q, o)[if i < k then i else i + 1].id == id;
    }
  }

  function IndexOfId(q: seq<Order>, id: OrderId): (k: nat)
    ensures k <= |q|
  {
    if q == [] || q[0].id == id then 0 else 1 + IndexOfId(q[1..], id)
  }

  lemma {:induction false} WithoutSplits(q: seq<Order>, id: OrderId)
    requires HasId(q, id)
    ensures var k := IndexOfId(q, id);
            k < |q| && q[k].id == id && Without(q, id) == q[..k] + q[k + 1..]
  {
    if q[0].id != id {
      HasTail(q, id);
      WithoutSplits(q[1..], id);
      CutBehind(q, IndexOfId(q[1..], id));
    }
  }

  /** Cutting an element out of the tail is cutting it out one place further. */
  lemma {:induction false} CutBehind<T>(q: seq<T>, k: nat)
    requires k + 1 < |q|
    ensures [q[0]] + (q[1..][..k] + q[1..][k + 1..]) == q[..k + 1] + q[k + 2..]
  {
    assert q[1..][k + 1..] == q[k + 2..];
    assert q[..k + 1] == [q[0]] + q[1..][..k];
  }

  lemma {:induction false} HasTail(q: seq<Order>, id: OrderId)
    requires HasId(q, id) && q[0].id != id
    ensures HasId(q[1..], id)
  {
    var i :| 0 <= i < |q| && q[i].id == id;
    assert q[1..][i - 1].id == id;
  }

  lemma {:induction false} WithoutPositions(q: seq<Order>, id: OrderId) returns (k: nat)
    requires HasId(q, id)
    ensures k < |q| && q[k].id == id && |Without(q, id)| == |q| - 1
    ensures forall i :: 0 <= i < |q| - 1 ==> Without(q, id)[i] == q[if i < k then i else i + 1]
  {
    hide Without, IndexOfId, HasId;
    WithoutSplits(q, id);
    k := IndexOfId(q, id);
  }

  lemma {:induction false} WithoutHas(q: seq<Order>, id: OrderId, x: OrderId)
    requires x != id && HasId(q, x)
    ensures HasId(Without(q, id), x)
  {
    hide Without, IndexOfId;
    if HasId(q, id) {
      var k := WithoutPositions(q, id);
      var i :| 0 <= i < |q| && q[i].id == x;
      assert Without(q, id)[if i < k then i else i - 1].id == x;
    } else {
      WithoutMissing(q, id);
    }
  }

  lemma {:induction false} WithoutMissing(q: seq<Order>, id: OrderId)
    requires !HasId(q, id)
    ensures Without(q, id) == q
  {
    if q != [] {
      assert q[0].id != id;
      assert forall i :: 0 <= i < |q[1..]| ==> q[1..][i] == q[i + 1];
      WithoutMissing(q[1..], id);
    }
  }

  lemma {:induction false} LevelQtyAppend(a: seq<Order>, b: seq<Order>, price: int)
    ensures LevelQty(a + b, price) == LevelQty(a, price) + LevelQty(b, price)
  {
    if a == [] {
      assert a + b == b;
    } else {
      assert (a + b)[1..] == a[1..] + b;
      LevelQtyAppend(a[1..], b, price);
    }
  }

  lemma {:induction false} LevelQtyBounds(q: seq<Order>, price: int)
    requires Positive(q)
    ensures 0 <= LevelQty(q, price) <= SumQty(q)
  {
    if q != [] {
      LevelQtyBounds(q[1..], price);
    }
  }

  lemma {:induction false} LevelQtyOfTail(rest: seq<Order>, q: seq<Order>, price: int)
    requires Positive(q) && TailOf(rest, q)
    ensures LevelQty(rest, price) <= LevelQty(q, price)
    decreases |q|
  {
    if |rest| < |q| {
      TailOfCons(rest, q);
      LevelQtyOfTail(rest, q[1..], price);
    } else if q != [] {
      assert rest[1..] == q[1..];
    }
  }
}
