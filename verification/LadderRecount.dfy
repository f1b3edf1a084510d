/** What the ladder's sell scan adds up, read off the quantities its prices hold instead of the bitmap. */
module RungRecount {
  import opened Types
  import opened Division
  import opened Reference

  /** The quantity of a queue at each of `count` prices from `minPrice` up. */
  function Rungs(q: seq<Order>, minPrice: int, count: nat): (rungs: seq<int>)
    ensures |rungs| == count
  {
    seq(count, i requires 0 <= i < count => LevelQty(q, minPrice + i))
  }

  /** The highest index among the `n` from `lo` on that holds something, or -1. */
  function HighestBid(rungs: seq<int>, lo: nat, n: nat): (r: int)
    ensures r < 0 ==> forall j :: lo <= j < lo + n && j < |rungs| ==> rungs[j] <= 0
    ensures r >= 0 ==>
              && lo <= r < lo + n && r < |rungs| && rungs[r] > 0
              && forall j :: r < j < lo + n && j < |rungs| ==> rungs[j] <= 0
  {
    if n == 0 then -1
    else if lo + n - 1 < |rungs| && rungs[lo + n - 1] > 0 then lo + n - 1
    else HighestBid(rungs, lo, n - 1)
  }

  /** How many of the `n` indices from `lo` on hold something. */
  function BidsIn(rungs: seq<int>, lo: nat, n: nat): nat {
    if n == 0 then 0
    else BidsIn(rungs, lo, n - 1) + if lo + n - 1 < |rungs| && rungs[lo + n - 1] > 0 then 1 else 0
  }

  /** How many of the `n` groups of 64 prices from group `w` on hold something. */
  function BusyWords(rungs: seq<int>, w: nat, n: nat): nat {
    if n == 0 then 0
    else BusyWords(rungs, w, n - 1) + if BidsIn(rungs, (w + n - 1) * 64, 64) > 0 then 1 else 0
  }

  /**
   Blocks of 4096 prices from the top down, as long as a block's best bid crosses: that bid's total,
   once for every bid level among its 64 neighbours and again for every busy group of its block.
   */
  function BlockRecount(rungs: seq<int>, minPrice: int, price: int, blocks: nat): int {
    if blocks == 0 then 0
    else
      var s := blocks - 1;
      var i := HighestBid(rungs, s * 4096, 4096);
      if i < 0 then BlockRecount(rungs, minPrice, price, s)
      else if !Crosses(Ask, price, minPrice + i) then 0
      else
        Times(BusyWords(rungs, s * 64, 64), Times(BidsIn(rungs, i / 64 * 64, 64), rungs[i]))
        + BlockRecount(rungs, minPrice, price, s)
  }

  lemma {:induction false} NoBidsPast(rungs: seq<int>, lo: nat, n: nat)
    requires lo >= |rungs|
    ensures BidsIn(rungs, lo, n) == 0
  {
    if n > 0 {
      NoBidsPast(rungs, lo, n - 1);
    }
  }

  lemma {:induction false} BidCounted(rungs: seq<int>, lo: nat, n: nat, i: nat)
    requires lo <= i < lo + n && i < |rungs| && rungs[i] > 0
    ensures BidsIn(rungs, lo, n) > 0
  {
    if i < lo + n - 1 {
      BidCounted(rungs, lo, n - 1, i);
    }
  }

  lemma {:induction false} WordCounted(rungs: seq<int>, w: nat, n: nat, k: nat)
    requires k < n && BidsIn(rungs, (w + k) * 64, 64) > 0
    ensures BusyWords(rungs, w, n) > 0
  {
    hide BidsIn;
    if k < n - 1 {
      WordCounted(rungs, w, n - 1, k);
    }
  }

  // ---- The recount is non-zero exactly when the best bid crosses

  lemma {:induction false} RecountNotNegative(rungs: seq<int>, minPrice: int, price: int, blocks: nat)
    ensures BlockRecount(rungs, minPrice, price, blocks) >= 0
  {
    hide HighestBid, BidsIn, BusyWords, Times;
    if blocks > 0 {
      var s := blocks - 1;
      var i := HighestBid(rungs, s * 4096, 4096);
      RecountNotNegative(rungs, minPrice, price, s);
      if i >= 0 {
        TimesSign(BidsIn(rungs, i / 64 * 64, 64), rungs[i]);
        TimesSign(BusyWords(rungs, s * 64, 64), Times(BidsIn(rungs, i / 64 * 64, 64), rungs[i]));
      }
    }
  }

  lemma {:induction false} NoBidsNoRecount(rungs: seq<int>, minPrice: int, price: int, blocks: nat)
    requires forall j :: 0 <= j < |rungs| ==> rungs[j] <= 0
    ensures BlockRecount(rungs, minPrice, price, blocks) == 0
  {
    hide HighestBid, BidsIn, BusyWords, Times;
    if blocks > 0 {
      NoBidsNoRecount(rungs, minPrice, price, blocks - 1);
    }
  }

  lemma {:induction false} RecountSign(rungs: seq<int>, minPrice: int, price: int, blocks: nat, top: nat)
    requires top < |rungs| && rungs[top] > 0 && top < blocks * 4096
    requires forall j :: top < j < |rungs| ==> rungs[j] <= 0
    ensures BlockRecount(rungs, minPrice, price, blocks) > 0 <==> Crosses(Ask, price, minPrice + top)
    ensures BlockRecount(rungs, minPrice, price, blocks) >= 0
  {
    hide HighestBid, BidsIn, BusyWords, Times;
    var s := blocks - 1;
    var i := HighestBid(rungs, s * 4096, 4096);
    if top < s * 4096 {
      RecountSign(rungs, minPrice, price, s, top);
    } else {
      assert i == top;
      RecountNotNegative(rungs, minPrice, price, s);
      BidCounted(rungs, top / 64 * 64, 64, top);
      WordCounted(rungs, s * 64, 64, top / 64 - s * 64);
      TimesSign(BidsIn(rungs, top / 64 * 64, 64), rungs[top]);
      TimesSign(BusyWords(rungs, s * 64, 64), Times(BidsIn(rungs, top / 64 * 64, 64), rungs[top]));
    }
  }
}

/** The bit scan for an incoming sell counts exactly that. */
module LadderRecount {
  import opened Types
  import opened Reference
  import opened Matching
  import opened Invariants
  import opened PriceMap
  import opened Levels
  import opened Division
  import opened Bits
  import opened Bitmap
  import opened LadderLevels
  import opened LadderScan
  import opened RungRecount

  /** What bids hold at each price of a ladder. */
  function BidTotals(ls: seq<OrderLevel>): (rungs: seq<int>)
    ensures |rungs| == |ls|
  {
    seq(|ls|, i requires 0 <= i < |ls| => if Held(ls[i], Bid) then ls[i].totalQty else 0)
  }

  lemma {:induction false} BidTotalsSign(ls: seq<OrderLevel>, minPrice: Price, i: nat)
    requires LadderOk(ls, minPrice) && i < |ls|
    ensures BidTotals(ls)[i] > 0 <==> Held(ls[i], Bid)
  {
    assert RungOk(ls[i]);
    if Held(ls[i], Bid) {
      SumQtyPositive(ls[i].store);
    }
  }

  /** They are the quantities of the bid queue at those prices. */
  lemma {:induction false} BidTotalsAreRungs(ls: seq<OrderLevel>, minPrice: Price)
    requires LadderOk(ls, minPrice)
    ensures BidTotals(ls) == Rungs(Flatten(Walk(ls, Bid)), minPrice, |ls|)
  {
    hide Walk, Flatten, LevelQty, LowerBound, LevelsOk;
    WalkOk(ls, Bid, minPrice);
    forall i | 0 <= i < |ls| ensures BidTotals(ls)[i] == LevelQty(Flatten(Walk(ls, Bid)), minPrice + i) {
      WalkFinds(ls, minPrice, Bid, i);
      TotalIsLevelQty(Bid, Walk(ls, Bid), ls[i].price);
    }
  }

  // ---- The bitmap counts these

  lemma {:induction false} CountIsBids(ls: seq<OrderLevel>, minPrice: Price, occupied: seq<Word>, summary: seq<Word>,
                                       w: nat, n: nat)
    requires LadderOk(ls, minPrice) && Marks(occupied, summary, |ls|, HeldSet(ls, Bid)) && w < |occupied| && n <= 64
    ensures CountBelow(occupied[w], n) == BidsIn(BidTotals(ls), w * 64, n)
  {
    hide Bit, Held, BidTotals, LadderOk;
    if n > 0 {
      CountIsBids(ls, minPrice, occupied, summary, w, n - 1);
      var i := w * 64 + n - 1;
      assert i / 64 == w && i % 64 == n - 1;
      assert BitAt(occupied, i) <==> i in HeldSet(ls, Bid);
      if i < |ls| {
        BidTotalsSign(ls, minPrice, i);
      }
    }
  }

  lemma {:induction false} BusyIsNonZero(ls: seq<OrderLevel>, minPrice: Price, occupied: seq<Word>,
                                        summary: seq<Word>, w: nat)
    requires LadderOk(ls, minPrice) && Marks(occupied, summary, |ls|, HeldSet(ls, Bid))
    ensures BidsIn(BidTotals(ls), w * 64, 64) > 0 <==> w < |occupied| && occupied[w] != 0
  {
    hide Bit, BidsIn, CountBelow;
    if w < |occupied| {
      CountIsBids(ls, minPrice, occupied, summary, w, 64);
      PopCountDown(occupied[w]);
    } else {
      NoBidsPast(BidTotals(ls), w * 64, 64);
    }
  }

  lemma {:induction false} CountIsBusy(ls: seq<OrderLevel>, minPrice: Price, occupied: seq<Word>, summary: seq<Word>,
                                       s: nat, n: nat)
    requires LadderOk(ls, minPrice) && Marks(occupied, summary, |ls|, HeldSet(ls, Bid)) && s < |summary| && n <= 64
    ensures CountBelow(summary[s], n) == BusyWords(BidTotals(ls), s * 64, n)
  {
    hide Bit, BidsIn, HeldSet;
    if n > 0 {
      CountIsBusy(ls, minPrice, occupied, summary, s, n - 1);
      var w := s * 64 + n - 1;
      assert w / 64 == s && w % 64 == n - 1;
      BusyIsNonZero(ls, minPrice, occupied, summary, w);
      assert BitAt(summary, w) <==> w < |occupied| && occupied[w] != 0;
    }
  }

  lemma {:induction false} BlockTop(ls: seq<OrderLevel>, minPrice: Price, occupied: seq<Word>, summary: seq<Word>,
                                    s: nat)
    requires LadderOk(ls, minPrice) && Marks(occupied, summary, |ls|, HeldSet(ls, Bid)) && s < |summary|
    ensures summary[s] == 0 ==> HighestBid(BidTotals(ls), s * 4096, 4096) < 0
    ensures summary[s] != 0 && TopExists(ls, occupied, summary, s) ==>
              HighestBid(BidTotals(ls), s * 4096, 4096) == HighestUnder(occupied, summary, s)
  {
    hide Marks, Highest, Held, HighestBid, Bit, LadderOk, BidTotals;
    var held := HeldSet(ls, Bid);
    var r := HighestBid(BidTotals(ls), s * 4096, 4096);
    if r >= 0 {
      BidTotalsSign(ls, minPrice, r);
      ZeroSummary(occupied, summary, |ls|, held, r);
    }
    if summary[s] != 0 && TopExists(ls, occupied, summary, s) {
      HighestUnderIsGreatest(occupied, summary, |ls|, held, s);
      BidTotalsSign(ls, minPrice, HighestUnder(occupied, summary, s));
    }
  }

  /** One summary word adds to the scan what its block adds to the reading of the levels. */
  lemma {:induction false} BlockGain(ls: seq<OrderLevel>, minPrice: Price, occupied: seq<Word>, summary: seq<Word>,
                                     s: nat)
    requires LadderOk(ls, minPrice) && Marks(occupied, summary, |ls|, HeldSet(ls, Bid)) && s < |summary|
    requires summary[s] != 0 && TopExists(ls, occupied, summary, s)
    ensures var i, rungs := HighestUnder(occupied, summary, s), BidTotals(ls);
            && i / 64 < |occupied| && i < |ls| && ls[i].price == minPrice + i
            && Times(PopCount(summary[s]), WordGain(ls, occupied, i))
               == Times(BusyWords(rungs, s * 64, 64), Times(BidsIn(rungs, i / 64 * 64, 64), rungs[i]))
  {
    hide Marks, Highest, HighestUnder, Times, BidsIn, BusyWords, TopExists, CountBelow;
    HighestUnderIsGreatest(occupied, summary, |ls|, HeldSet(ls, Bid), s);
    TopWord(ls, occupied, summary, s);
    CountIsBusy(ls, minPrice, occupied, summary, s, 64);
    CountIsBids(ls, minPrice, occupied, summary, HighestUnder(occupied, summary, s) / 64, 64);
  }

  /** The scan over the bitmap and the reading of the levels add up to the same. */
  lemma {:induction false} RecountIsBlocks(ls: seq<OrderLevel>, minPrice: Price, occupied: seq<Word>,
                                        summary: seq<Word>,
                                           price: int, n: nat)
    requires LadderOk(ls, minPrice) && Marks(occupied, summary, |ls|, HeldSet(ls, Bid)) && n <= |summary|
    requires forall s :: 0 <= s < |summary| && summary[s] != 0 ==> TopExists(ls, occupied, summary, s)
    ensures Recount(ls, occupied, summary, price, n) == BlockRecount(BidTotals(ls), minPrice, price, n)
  {
    hide Marks, Highest, Recount, HighestUnder, HighestBid, Times, BidsIn, BusyWords, TopExists, CountBelow, HeldSet,
      LadderOk, BidTotals, PopCount, WordGain;
    if n == 0 {
      RecountNone(ls, occupied, summary, price);
    } else {
      var s := n - 1;
      RecountIsBlocks(ls, minPrice, occupied, summary, price, s);
      RecountStep(ls, occupied, summary, price, n);
      BlockTop(ls, minPrice, occupied, summary, s);
      if summary[s] != 0 {
        BlockGain(ls, minPrice, occupied, summary, s);
      }
    }
  }
}
