/** The ladder's fixed array of price levels, and the ordered map each side of it stands for. */
module LadderLevels {
  import opened Types
  import opened Reference
  import opened Matching
  import opened Invariants
  import opened PriceMap
  import opened Levels

  predicate Held(l: OrderLevel, side: Side) {
    l.store != [] && l.store[0].side == side
  }

  function Here(l: OrderLevel, side: Side): seq<OrderLevel> {
    if Held(l, side) then [l] else []
  }

  /** The levels one side holds, best price first: ascending for asks, descending for bids. */
  function Walk(ls: seq<OrderLevel>, side: Side): seq<OrderLevel> {
    if ls == [] then []
    else if side == Ask then Here(ls[0], side) + Walk(ls[1..], side)
    else Walk(ls[1..], side) + Here(ls[0], side)
  }

  /** A level belongs to one side at a time. */
  ghost predicate RungOk(l: OrderLevel) {
    l.totalQty == SumQty(l.store) && (l.store != [] ==> StoreOk(l.store[0].side, l.price, l.store))
  }

  ghost predicate LadderOk(ls: seq<OrderLevel>, minPrice: Price) {
    forall i :: 0 <= i < |ls| ==> ls[i].price == minPrice + i && RungOk(ls[i])
  }

  function HeldSet(ls: seq<OrderLevel>, side: Side): set<nat> {
    set i: nat | i < |ls| && Held(ls[i], side)
  }

  // ---- Splitting a walk around one index

  lemma {:induction false} WalkAppend(a: seq<OrderLevel>, b: seq<OrderLevel>, side: Side)
    ensures Walk(a + b, side) == if side == Ask then Walk(a, side) + Walk(b, side) else Walk(b, side) + Walk(a, side)
  {
    if a == [] {
      assert a + b == b;
    } else {
      assert (a + b)[1..] == a[1..] + b;
      WalkAppend(a[1..], b, side);
      if side == Ask {
        Assoc(Here(a[0], side), Walk(a[1..], side), Walk(b, side));
      } else {
        Assoc(Walk(b, side), Walk(a[1..], side), Here(a[0], side));
      }
    }
  }

  /** What comes before index `i` in the walk. */
  function Before(ls: seq<OrderLevel>, side: Side, i: nat): seq<OrderLevel>
    requires i < |ls|
  {
    if side == Ask then Walk(ls[..i], side) else Walk(ls[i + 1..], side)
  }

  function Behind(ls: seq<OrderLevel>, side: Side, i: nat): seq<OrderLevel>
    requires i < |ls|
  {
    if side == Ask then Walk(ls[i + 1..], side) else Walk(ls[..i], side)
  }

  lemma {:induction false} WalkSingle(l: OrderLevel, side: Side)
    ensures Walk([l], side) == Here(l, side)
  {
    assert [l][1..] == [];
  }

  lemma {:induction false} WalkAround(ls: seq<OrderLevel>, side: Side, i: nat)
    requires i < |ls|
    ensures Walk(ls, side) == Before(ls, side, i) + Here(ls[i], side) + Behind(ls, side, i)
  {
    hide Walk, Here;
    SplitAround(ls, i);
    WalkAppend(ls[..i] + [ls[i]], ls[i + 1..], side);
    WalkAppend(ls[..i], [ls[i]], side);
    WalkSingle(ls[i], side);
    Assoc(Walk(ls[i + 1..], side), Here(ls[i], side), Walk(ls[..i], side));
  }

  /** Replacing one level changes the walk in its own place only. */
  lemma {:induction false} WalkReplaced(ls: seq<OrderLevel>, side: Side, i: nat, l: OrderLevel)
    requires i < |ls|
    ensures Walk(ls[i := l], side) == Before(ls, side, i) + Here(l, side) + Behind(ls, side, i)
  {
    hide Walk, Here;
    WalkAround(ls[i := l], side, i);
    assert ls[i := l][..i] == ls[..i] && ls[i := l][i + 1..] == ls[i + 1..];
  }

  lemma {:induction false} WalkSource(ls: seq<OrderLevel>, side: Side, n: nat) returns (i: nat)
    requires n < |Walk(ls, side)|
    ensures i < |ls| && Walk(ls, side)[n] == ls[i] && Held(ls[i], side)
  {
    var here, rest := Here(ls[0], side), Walk(ls[1..], side);
    if side == Ask {
      if n < |here| {
        i := 0;
      } else {
        i := WalkSource(ls[1..], side, n - |here|);
        i := i + 1;
      }
    } else {
      if n < |rest| {
        i := WalkSource(ls[1..], side, n);
        i := i + 1;
      } else {
        i := 0;
      }
    }
  }

  lemma {:induction false} WalkNone(ls: seq<OrderLevel>, side: Side)
    requires forall i :: 0 <= i < |ls| ==> !Held(ls[i], side)
    ensures Walk(ls, side) == []
  {
    if ls != [] {
      WalkNone(ls[1..], side);
    }
  }

  /** Both sides of a ladder are well-formed ordered maps. */
  lemma {:induction false} WalkOk(ls: seq<OrderLevel>, side: Side, minPrice: int)
    requires forall i :: 0 <= i < |ls| ==> ls[i].price == minPrice + i && RungOk(ls[i])
    ensures LevelsOk(side, Walk(ls, side))
    ensures forall n :: 0 <= n < |Walk(ls, side)| ==> minPrice <= Walk(ls, side)[n].price < minPrice + |ls|
  {
    if ls != [] {
      WalkOk(ls[1..], side, minPrice + 1);
      WalkOkStep(ls, side);
    }
  }

  lemma {:induction false} WalkOkStep(ls: seq<OrderLevel>, side: Side)
    requires ls != [] && RungOk(ls[0]) && LevelsOk(side, Walk(ls[1..], side))
    requires forall n :: 0 <= n < |Walk(ls[1..], side)| ==> ls[0].price < Walk(ls[1..], side)[n].price
    ensures LevelsOk(side, Walk(ls, side))
    ensures forall n :: 0 <= n < |Walk(ls, side)| ==>
              Walk(ls, side)[n].price == ls[0].price || Walk(ls, side)[n] in Walk(ls[1..], side)
  {
    var rest := Walk(ls[1..], side);
    assert Held(ls[0], side) ==> LevelOk(side, ls[0]);
    if Held(ls[0], side) {
      assert Walk(ls, side) == if side == Ask then [ls[0]] + rest else rest + [ls[0]];
    } else {
      assert Walk(ls, side) == rest;
    }
  }

  // ---- One price of the walk

  lemma {:induction false} LowerBoundUnique<T>(side: Side, ls: seq<Level<T>>, price: Price, k: nat)
    requires k <= |ls| && forall i :: 0 <= i < k ==> Better(side, ls[i].price, price)
    requires k < |ls| ==> !Better(side, ls[k].price, price)
    ensures LowerBound(side, ls, price) == k
  {
  }

  lemma {:induction false} WalkBounds(ls: seq<OrderLevel>, minPrice: Price, side: Side, i: nat)
    requires LadderOk(ls, minPrice) && i < |ls|
    ensures forall n :: 0 <= n < |Before(ls, side, i)| ==> Better(side, Before(ls, side, i)[n].price, ls[i].price)
    ensures forall n :: 0 <= n < |Behind(ls, side, i)| ==> Better(side, ls[i].price, Behind(ls, side, i)[n].price)
  {
    hide Walk, RungOk;
    forall n | 0 <= n < |Before(ls, side, i)| ensures Better(side, Before(ls, side, i)[n].price, ls[i].price) {
      if side == Ask {
        var j := WalkSource(ls[..i], side, n);
      } else {
        var j := WalkSource(ls[i + 1..], side, n);
      }
    }
    forall n | 0 <= n < |Behind(ls, side, i)| ensures Better(side, ls[i].price, Behind(ls, side, i)[n].price) {
      if side == Ask {
        var j := WalkSource(ls[i + 1..], side, n);
      } else {
        var j := WalkSource(ls[..i], side, n);
      }
    }
  }

  /** Where a price sits in the walk, and whether it is there. */
  lemma {:induction false} WalkFinds(ls: seq<OrderLevel>, minPrice: Price, side: Side, i: nat)
    requires LadderOk(ls, minPrice) && i < |ls|
    ensures LowerBound(side, Walk(ls, side), ls[i].price) == |Before(ls, side, i)|
    ensures HasPrice(side, Walk(ls, side), ls[i].price) <==> Held(ls[i], side)
    ensures LevelFor(side, Walk(ls, side), ls[i].price)
            == if Held(ls[i], side) then ls[i] else Level(ls[i].price, 0, [])
    ensures TotalAt(side, Walk(ls, side), ls[i].price) == if Held(ls[i], side) then ls[i].totalQty else 0
  {
    hide Walk, Before, Behind, LowerBound;
    WalkAround(ls, side, i);
    WalkBounds(ls, minPrice, side, i);
    var k := |Before(ls, side, i)|;
    var walk := Walk(ls, side);
    if Held(ls[i], side) {
      assert walk[k] == ls[i];
    } else {
      assert k < |walk| ==> walk[k] == Behind(ls, side, i)[0];
    }
    LowerBoundUnique(side, walk, ls[i].price, k);
  }

  /** Writing a level its side holds is putting it into that side's map. */
  lemma {:induction false} WriteKeepsLadder(ls: seq<OrderLevel>, minPrice: Price, side: Side, i: nat, l: OrderLevel)
    requires LadderOk(ls, minPrice) && i < |ls| && l.price == ls[i].price
    requires StoreOk(side, l.price, l.store) && l.totalQty == SumQty(l.store)
    ensures LadderOk(ls[i := l], minPrice)
  {
  }

  lemma {:induction false} WalkPut(ls: seq<OrderLevel>, minPrice: Price, side: Side, i: nat, l: OrderLevel)
    requires LadderOk(ls, minPrice) && i < |ls| && l.price == ls[i].price && Held(l, side)
    ensures Walk(ls[i := l], side) == Put(side, Walk(ls, side), l)
  {
    hide Walk, Before, Behind, LowerBound;
    WalkFinds(ls, minPrice, side, i);
    WalkAround(ls, side, i);
    WalkReplaced(ls, side, i, l);
    var a, b := Before(ls, side, i), Behind(ls, side, i);
    if Held(ls[i], side) {
      assert (a + [ls[i]] + b)[|a| := l] == a + [l] + b;
    } else {
      assert (a + [] + b)[..|a|] == a && (a + [] + b)[|a|..] == b;
    }
  }

  /** Taking an order out of a level its side holds. */
  lemma {:induction false} WalkDrop(ls: seq<OrderLevel>, minPrice: Price, side: Side, i: nat, j: nat)
    requires LadderOk(ls, minPrice) && i < |ls| && Held(ls[i], side) && j < |ls[i].store|
    requires MIN_INT64 <= ls[i].totalQty - ls[i].store[j].qty <= MAX_INT64
    ensures var store := ls[i].store[..j] + ls[i].store[j + 1..];
            var l := Level(ls[i].price, ls[i].totalQty - ls[i].store[j].qty, store);
            var n := |Before(ls, side, i)|;
            && n < |Walk(ls, side)| && Walk(ls, side)[n] == ls[i]
            && Walk(ls[i := l], side) == DropAt(Walk(ls, side), n, j)
            && Held(l, side.Opposite()) == false
  {
    hide Walk, Before, Behind, LowerBound;
    var store := ls[i].store[..j] + ls[i].store[j + 1..];
    var l := Level(ls[i].price, ls[i].totalQty - ls[i].store[j].qty, store);
    WalkAround(ls, side, i);
    WalkReplaced(ls, side, i, l);
    var a, b := Before(ls, side, i), Behind(ls, side, i);
    assert StoreOk(side, ls[i].price, ls[i].store);
    if store == [] {
      assert Erase(a + [ls[i]] + b, |a|) == a + b == a + [] + b;
    } else {
      assert store[0] in ls[i].store;
      assert (a + [ls[i]] + b)[|a| := l] == a + [l] + b;
    }
  }

  /** Nothing else about a side changes when it holds neither the old nor the new level. */
  lemma {:induction false} WalkUntouched(ls: seq<OrderLevel>, side: Side, i: nat, l: OrderLevel)
    requires i < |ls| && !Held(ls[i], side) && !Held(l, side)
    ensures Walk(ls[i := l], side) == Walk(ls, side)
  {
    hide Walk;
    WalkAround(ls, side, i);
    WalkReplaced(ls, side, i, l);
  }

  /** The best held index leads the walk. */
  lemma {:induction false} WalkBest(ls: seq<OrderLevel>, side: Side, i: nat)
    requires i < |ls| && Held(ls[i], side)
    requires forall j :: 0 <= j < |ls| && Held(ls[j], side) ==> (if side == Ask then i <= j else j <= i)
    ensures Before(ls, side, i) == []
    ensures Walk(ls, side) == [ls[i]] + Behind(ls, side, i)
    ensures forall l :: Walk(ls[i := l], side) == Here(l, side) + Behind(ls, side, i)
  {
    hide Walk, Here;
    WalkNone(if side == Ask then ls[..i] else ls[i + 1..], side);
    WalkAround(ls, side, i);
    assert Here(ls[i], side) == [ls[i]] by {
      HereHeld(ls[i], side);
    }
    forall l ensures Walk(ls[i := l], side) == Here(l, side) + Behind(ls, side, i) {
      WalkReplaced(ls, side, i, l);
      assert [] + Here(l, side) == Here(l, side);
    }
  }

  lemma {:induction false} HereHeld(l: OrderLevel, side: Side)
    requires Held(l, side)
    ensures Here(l, side) == [l]
  {
  }

  /** A stretch that holds nothing can be skipped. */
  lemma {:induction false} WalkSkips(ls: seq<OrderLevel>, i: nat, j: nat)
    requires i <= j <= |ls| && forall k :: i <= k < j ==> !Held(ls[k], Ask)
    ensures Walk(ls[i..], Ask) == Walk(ls[j..], Ask)
  {
    assert ls[i..] == ls[i..j] + ls[j..];
    WalkAppend(ls[i..j], ls[j..], Ask);
    WalkNone(ls[i..j], Ask);
  }
}
