/** The ladder's max_crossing_qty: bit scans over the two-level bitmap of the opposite side. */
module LadderScan {
  import opened Types
  import opened Division
  import opened Reference
  import opened Matching
  import opened PriceMap
  import opened Levels
  import opened Bits
  import opened Bitmap
  import opened LadderLevels

  // ---- Scanning a word upward

  /** `b` holds the bits of `full` that have not been visited yet: those from `r` on. */
  ghost predicate Unvisited(full: Word, b: Word, r: nat) {
    forall k: nat :: Bit(b, k) <==> Bit(full, k) && k >= r
  }

  lemma {:induction false} UnvisitedStep(full: Word, b: Word, r: nat)
    requires Unvisited(full, b, r) && b != 0
    ensures var c := Lowest(b);
            && r <= c < 64 && Bit(full, c) && (forall k :: r <= k < c ==> !Bit(full, k))
            && Unvisited(full, DropLowest(b), c + 1)
  {
    hide Bit, Lowest, DropLowest;
    var c := Lowest(b);
    BitRange(b, c);
    forall k: nat ensures Bit(DropLowest(b), k) <==> Bit(full, k) && k >= c + 1 {
      ClearLowest(b, k);
    }
  }

  lemma {:induction false} UnvisitedEnd(full: Word, r: nat)
    requires Unvisited(full, 0, r)
    ensures forall k :: r <= k ==> !Bit(full, k)
  {
    hide Bit;
    ZeroIff(0);
    forall k | r <= k ensures !Bit(full, k) {
      if k >= 64 && Bit(full, k) {
        BitRange(full, k);
      }
      assert k < 64 ==> !Bit(0, k);
    }
  }

  // ---- The asks from an index on

  function AsksFrom(ls: seq<OrderLevel>, i: nat): seq<OrderLevel> {
    if i <= |ls| then Walk(ls[i..], Ask) else []
  }

  lemma {:induction false} SkipTo(ls: seq<OrderLevel>, i: nat, j: nat)
    requires i <= j && forall k :: i <= k < j && k < |ls| ==> !Held(ls[k], Ask)
    ensures AsksFrom(ls, i) == AsksFrom(ls, j)
  {
    if i <= |ls| {
      WalkSkips(ls, i, if j <= |ls| then j else |ls|);
    }
  }

  lemma {:induction false} AsksAt(ls: seq<OrderLevel>, i: nat)
    requires i < |ls| && Held(ls[i], Ask)
    ensures AsksFrom(ls, i) == [ls[i]] + AsksFrom(ls, i + 1)
    ensures AsksFrom(ls, i) != [] && AsksFrom(ls, i)[0] == ls[i] && AsksFrom(ls, i)[1..] == AsksFrom(ls, i + 1)
  {
    assert ls[i..][0] == ls[i] && ls[i..][1..] == ls[i + 1..];
  }

  /** No held index lies under unmarked bits of a first-level word. */
  lemma {:induction false} NoneInWord(ls: seq<OrderLevel>, side: Side, occupied: seq<Word>, summary: seq<Word>,
                                      w: nat, from: nat, to: nat)
    requires Marks(occupied, summary, |ls|, HeldSet(ls, side)) && w < |occupied| && to <= 64
    requires forall k :: from <= k < to ==> !Bit(occupied[w], k)
    ensures forall i :: w * 64 + from <= i < w * 64 + to && i < |ls| ==> !Held(ls[i], side)
  {
    hide Bit, Held;
    forall i | w * 64 + from <= i < w * 64 + to && i < |ls| ensures !Held(ls[i], side) {
      assert i / 64 == w && i % 64 == i - w * 64;
      assert BitAt(occupied, i) <==> i in HeldSet(ls, side);
    }
  }

  /** No held index lies under unmarked bits of a summary word. */
  lemma {:induction false} NoneInSummary(ls: seq<OrderLevel>, occupied: seq<Word>, summary: seq<Word>, s: nat,
                                        from: nat, to: nat)
    requires Marks(occupied, summary, |ls|, HeldSet(ls, Ask)) && s < |summary| && to <= 64
    requires forall k :: from <= k < to ==> !Bit(summary[s], k)
    ensures forall i :: (s * 64 + from) * 64 <= i < (s * 64 + to) * 64 && i < |ls| ==> !Held(ls[i], Ask)
  {
    hide Bit, Held;
    forall i | (s * 64 + from) * 64 <= i < (s * 64 + to) * 64 && i < |ls| ensures !Held(ls[i], Ask) {
      var w := i / 64;
      assert w / 64 == s && w % 64 == w - s * 64;
      assert BitAt(summary, w) <==> (w < |occupied| && occupied[w] != 0);
      assert BitAt(occupied, i) <==> i in HeldSet(ls, Ask);
      if BitAt(occupied, i) {
        WordOf(occupied, i);
      }
    }
  }

  lemma {:induction false} MarkedWord(occupied: seq<Word>, summary: seq<Word>, count: nat, held: set<nat>, s: nat,
                                      k: nat)
    requires Marks(occupied, summary, count, held) && s < |summary| && k < 64 && Bit(summary[s], k)
    ensures s * 64 + k < |occupied| && occupied[s * 64 + k] != 0
  {
    hide Bit;
    assert BitAt(summary, s * 64 + k);
  }

  lemma {:induction false} MarkedLevel(ls: seq<OrderLevel>, side: Side, occupied: seq<Word>, summary: seq<Word>,
                                       w: nat, k: nat)
    requires Marks(occupied, summary, |ls|, HeldSet(ls, side)) && w < |occupied| && k < 64 && Bit(occupied[w], k)
    ensures w * 64 + k < |ls| && Held(ls[w * 64 + k], side)
  {
    hide Bit;
    assert BitAt(occupied, w * 64 + k);
  }

  lemma {:induction false} RungTotal(ls: seq<OrderLevel>, minPrice: Price, i: nat)
    requires LadderOk(ls, minPrice) && i < |ls|
    ensures ls[i].totalQty >= 0
  {
    assert RungOk(ls[i]);
    if ls[i].store != [] {
      SumQtyPositive(ls[i].store);
    }
  }

  lemma {:induction false} AsksTotals(ls: seq<OrderLevel>, minPrice: Price, i: nat)
    requires LadderOk(ls, minPrice)
    ensures TotalsOk(AsksFrom(ls, i))
  {
    forall n | 0 <= n < |AsksFrom(ls, i)| ensures AsksFrom(ls, i)[n].totalQty >= 0 {
      var j := WalkSource(ls[i..], Ask, n);
      RungTotal(ls, minPrice, i + j);
    }
  }

  /** The scan for an incoming bid visits exactly the occupied asks, cheapest first. */
  method ScanAsks(ls: seq<OrderLevel>, ghost minPrice: Price, occupied: seq<Word>, summary: seq<Word>,
                  price: Price, qty: Quantity)
    returns (crossing: Quantity)
    requires LadderOk(ls, minPrice) && qty >= 0
    requires Marks(occupied, summary, |ls|, HeldSet(ls, Ask))
    ensures crossing == LevelCrossing(Walk(ls, Ask), Bid, price, qty)
  {
    hide Marks, Walk, Held, LevelCrossing, Bit, Lowest, DropLowest, AsksFrom, TotalsOk, LadderOk, PopCount, Unvisited;
    ghost var target := LevelCrossing(Walk(ls, Ask), Bid, price, qty);
    crossing := 0;
    assert AsksFrom(ls, 0) == Walk(ls, Ask) by {
      AllAsks(ls);
    }
    var word := 0;
    while word < |summary|
      invariant 0 <= word <= |summary| && 0 <= crossing <= qty
      invariant crossing + LevelCrossing(AsksFrom(ls, word * 4096), Bid, price, qty - crossing) == target
    {
      var wordBits := summary[word];
      ghost var q := 0;
      StartUnvisited(summary[word]);
      while wordBits != 0
        invariant 0 <= crossing <= qty && 0 <= q <= 64 && Unvisited(summary[word], wordBits, q)
        invariant crossing + LevelCrossing(AsksFrom(ls, (word * 64 + q) * 64), Bid, price, qty - crossing) == target
        decreases PopCount(wordBits)
      {
        UnvisitedStep(summary[word], wordBits, q);
        var c := Lowest(wordBits);
        MarkedWord(occupied, summary, |ls|, HeldSet(ls, Ask), word, c);
        NoneInSummary(ls, occupied, summary, word, q, c);
        SkipTo(ls, (word * 64 + q) * 64, (word * 64 + c) * 64);
        var occupiedWord := word * 64 + c;
        var done;
        crossing, done := ScanAskWord(ls, minPrice, occupied, summary, occupiedWord, price, qty, crossing, target);
        if done {
          return;
        }
        PopCountDown(wordBits);
        wordBits := DropLowest(wordBits);
        q := c + 1;
      }
      UnvisitedEnd(summary[word], q);
      NoneInSummary(ls, occupied, summary, word, q, 64);
      SkipTo(ls, (word * 64 + q) * 64, (word + 1) * 4096);
      word := word + 1;
    }
    PastTheEnd(ls, occupied, summary);
    assert LevelCrossing<seq<Order>>([], Bid, price, qty - crossing) == 0 by {
      NothingCrosses(price, qty - crossing);
    }
  }

  lemma {:induction false} AllAsks(ls: seq<OrderLevel>)
    ensures AsksFrom(ls, 0) == Walk(ls, Ask)
  {
    assert ls[0..] == ls;
  }

  lemma {:induction false} StartUnvisited(full: Word)
    ensures Unvisited(full, full, 0)
  {
  }

  lemma {:induction false} NothingCrosses(price: int, qty: int)
    ensures LevelCrossing<seq<Order>>([], Bid, price, qty) == 0
  {
  }

  lemma {:induction false} PastTheEnd(ls: seq<OrderLevel>, occupied: seq<Word>, summary: seq<Word>)
    requires Marks(occupied, summary, |ls|, HeldSet(ls, Ask))
    ensures AsksFrom(ls, |summary| * 4096) == []
  {
  }

  /** The innermost loop: the levels of one occupied word, lowest bit first. */
  method ScanAskWord(ls: seq<OrderLevel>, ghost minPrice: Price, occupied: seq<Word>, ghost summary: seq<Word>,
                     w: nat, price: Price, qty: Quantity, crossing0: Quantity, ghost target: int)
    returns (crossing: Quantity, done: bool)
    requires LadderOk(ls, minPrice) && Marks(occupied, summary, |ls|, HeldSet(ls, Ask)) && w < |occupied|
    requires 0 <= crossing0 <= qty
    requires crossing0 + LevelCrossing(AsksFrom(ls, w * 64), Bid, price, qty - crossing0) == target
    ensures 0 <= crossing <= qty && (done ==> crossing == target)
    ensures !done ==>
              crossing + LevelCrossing(AsksFrom(ls, (w + 1) * 64), Bid, price, qty - crossing) == target
  {
    hide Marks, Walk, LadderOk, Held, Bit, Lowest, DropLowest, AsksFrom, TotalsOk, PopCount, Unvisited;
    crossing := crossing0;
    var levelBits := occupied[w];
    ghost var r := 0;
    StartUnvisited(occupied[w]);
    while levelBits != 0
      invariant 0 <= crossing <= qty && 0 <= r <= 64 && Unvisited(occupied[w], levelBits, r)
      invariant crossing + LevelCrossing(AsksFrom(ls, w * 64 + r), Bid, price, qty - crossing) == target
      decreases PopCount(levelBits)
    {
      UnvisitedStep(occupied[w], levelBits, r);
      var c := Lowest(levelBits);
      MarkedLevel(ls, Ask, occupied, summary, w, c);
      NoneInWord(ls, Ask, occupied, summary, w, r, c);
      SkipTo(ls, w * 64 + r, w * 64 + c);
      var i := w * 64 + c;
      AsksAt(ls, i);
      RungTotal(ls, minPrice, i);
      if !Crosses(Bid, price, ls[i].price) {
        return crossing, true;
      }
      var remaining := qty - crossing;
      crossing := crossing + Min(remaining, ls[i].totalQty);
      if crossing == qty {
        AsksTotals(ls, minPrice, i + 1);
        LevelCrossingBounds(AsksFrom(ls, i + 1), Bid, price, 0);
        return crossing, true;
      }
      PopCountDown(levelBits);
      levelBits := DropLowest(levelBits);
      r := c + 1;
    }
    UnvisitedEnd(occupied[w], r);
    NoneInWord(ls, Ask, occupied, summary, w, r, 64);
    SkipTo(ls, w * 64 + r, (w + 1) * 64);
    done := false;
  }

  // ---- The scan for an incoming ask, as the source has it

  /** What one pass over a first-level word adds: its best level, once per occupied level. */
  function WordGain(ls: seq<OrderLevel>, occupied: seq<Word>, i: nat): int
    requires i < |ls| && i / 64 < |occupied|
  {
    Times(PopCount(occupied[i / 64]), ls[i].totalQty)
  }

  /**
   What that scan adds up before it is capped at the incoming quantity. Under each summary word
   it meets the same level, the best bid there, once for every occupied level of that bid's
   64-level word and once more for every non-zero word: the loop reads the highest bit but clears
   the lowest, so the highest bit is the last to go.
   */
  function Recount(ls: seq<OrderLevel>, occupied: seq<Word>, summary: seq<Word>, price: int, n: nat): int
    requires n <= |summary|
    requires forall s :: 0 <= s < n && summary[s] != 0 ==> TopExists(ls, occupied, summary, s)
  {
    if n == 0 then 0
    else if summary[n - 1] == 0 then Recount(ls, occupied, summary, price, n - 1)
    else
      assert TopExists(ls, occupied, summary, n - 1);
      var i := HighestUnder(occupied, summary, n - 1);
      TopWord(ls, occupied, summary, n - 1);
      if !Crosses(Ask, price, ls[i].price) then 0
      else
        Times(PopCount(summary[n - 1]), WordGain(ls, occupied, i))
        + Recount(ls, occupied, summary, price, n - 1)
  }

  predicate TopExists(ls: seq<OrderLevel>, occupied: seq<Word>, summary: seq<Word>, s: nat)
    requires s < |summary| && summary[s] != 0
  {
    var w := s * 64 + Highest(summary[s]);
    w < |occupied| && occupied[w] != 0 && HighestUnder(occupied, summary, s) < |ls|
  }

  lemma {:induction false} TopsExist(ls: seq<OrderLevel>, occupied: seq<Word>, summary: seq<Word>)
    requires Marks(occupied, summary, |ls|, HeldSet(ls, Bid))
    ensures forall s :: 0 <= s < |summary| && summary[s] != 0 ==> TopExists(ls, occupied, summary, s)
  {
    hide Bit, Marks, Highest;
    forall s | 0 <= s < |summary| && summary[s] != 0 ensures TopExists(ls, occupied, summary, s) {
      HighestUnderIsGreatest(occupied, summary, |ls|, HeldSet(ls, Bid), s);
    }
  }

  lemma {:induction false} RecountBounds(ls: seq<OrderLevel>, minPrice: Price, occupied: seq<Word>, summary: seq<Word>,
                                         price: int, n: nat)
    requires LadderOk(ls, minPrice) && n <= |summary|
    requires forall s :: 0 <= s < n && summary[s] != 0 ==> TopExists(ls, occupied, summary, s)
    ensures Recount(ls, occupied, summary, price, n) >= 0
  {
    hide Highest, PopCount, LadderOk, HighestUnder, Times;
    if n > 0 {
      RecountBounds(ls, minPrice, occupied, summary, price, n - 1);
      if summary[n - 1] != 0 {
        assert TopExists(ls, occupied, summary, n - 1);
        var i := HighestUnder(occupied, summary, n - 1);
        RungTotal(ls, minPrice, i);
        if Crosses(Ask, price, ls[i].price) {
          TopWord(ls, occupied, summary, n - 1);
          TimesSign(PopCount(occupied[i / 64]), ls[i].totalQty);
          TimesSign(PopCount(summary[n - 1]), WordGain(ls, occupied, i));
        }
      }
    }
  }

  lemma {:induction false} TopWord(ls: seq<OrderLevel>, occupied: seq<Word>, summary: seq<Word>, s: nat)
    requires s < |summary| && summary[s] != 0 && TopExists(ls, occupied, summary, s)
    ensures HighestUnder(occupied, summary, s) / 64 == s * 64 + Highest(summary[s]) < |occupied|
  {
    hide Highest, Bit;
    var w := s * 64 + Highest(summary[s]);
    BitRange(occupied[w], Highest(occupied[w]));
  }

  /** Clearing the lowest bit leaves the highest one in place, unless it was the only one. */
  lemma {:induction false} HighestStays(w: Word)
    requires w != 0 && DropLowest(w) != 0
    ensures Highest(DropLowest(w)) == Highest(w)
  {
    hide Bit, DropLowest, Lowest, Highest;
    var h, h' := Highest(w), Highest(DropLowest(w));
    ClearLowest(w, h');
    ClearLowest(w, h);
  }

  /** Adding one capped step at a time is capping the sum. */
  lemma {:induction false} CapStep(acc: int, t: int, qty: int)
    requires acc >= 0 && t >= 0 && qty >= 0
    ensures var c := Min(qty, acc); c + Min(qty - c, t) == Min(qty, acc + t)
  {
  }

  method ScanBids(ls: seq<OrderLevel>, ghost minPrice: Price, occupied: seq<Word>, summary: seq<Word>,
                  price: Price, qty: Quantity)
    returns (crossing: Quantity)
    requires LadderOk(ls, minPrice) && qty >= 0
    requires forall s :: 0 <= s < |summary| && summary[s] != 0 ==> TopExists(ls, occupied, summary, s)
    ensures crossing == Min(qty, Recount(ls, occupied, summary, price, |summary|))
  {
    hide LadderOk, Recount, PopCount, Highest, HighestUnder, DropLowest, TopExists, Times;
    crossing := 0;
    ghost var acc := 0;
    var word := |summary|;
    RecountBounds(ls, minPrice, occupied, summary, price, word);
    while word > 0
      invariant 0 <= word <= |summary| && acc >= 0 && crossing == Min(qty, acc)
      invariant acc + Recount(ls, occupied, summary, price, word) == Recount(ls, occupied, summary, price, |summary|)
    {
      RecountBounds(ls, minPrice, occupied, summary, price, word - 1);
      RecountStep(ls, occupied, summary, price, word);
      if summary[word - 1] != 0 {
        TopInRange(ls, occupied, summary, word - 1);
        ghost var top := HighestUnder(occupied, summary, word - 1);
        TopWord(ls, occupied, summary, word - 1);
        RungTotal(ls, minPrice, top);
        var done;
        crossing, done := ScanBidSummary(ls, occupied, summary, word - 1, top, price, qty, crossing, acc);
        if done {
          return;
        }
        acc := acc + Times(PopCount(summary[word - 1]), WordGain(ls, occupied, top));
      }
      word := word - 1;
    }
    RecountNone(ls, occupied, summary, price);
  }

  /** The middle loop: the same occupied word, once per non-zero word under summary word `s`. */
  method ScanBidSummary(ls: seq<OrderLevel>, occupied: seq<Word>, summary: seq<Word>, s: nat, ghost top: nat,
                        price: Price, qty: Quantity, crossing0: Quantity, ghost acc0: int)
    returns (crossing: Quantity, done: bool)
    requires s < |summary| && summary[s] != 0
    requires var w := s * 64 + Highest(summary[s]);
             w < |occupied| && occupied[w] != 0 && top == w * 64 + Highest(occupied[w]) < |ls| && top / 64 == w
    requires ls[top].totalQty >= 0 && qty >= 0 && acc0 >= 0 && crossing0 == Min(qty, acc0)
    ensures var gain := Times(PopCount(summary[s]), WordGain(ls, occupied, top));
            && (!Crosses(Ask, price, ls[top].price) ==> done && crossing == crossing0)
            && (Crosses(Ask, price, ls[top].price) ==> gain >= 0 && crossing == Min(qty, acc0 + gain))
            && (Crosses(Ask, price, ls[top].price) && done ==> crossing == qty)
  {
    hide PopCount, Highest, DropLowest, WordGain, Times;
    crossing := crossing0;
    ghost var acc := acc0;
    ghost var n, t := PopCount(summary[s]), WordGain(ls, occupied, top);
    var wordBits := summary[s];
    while wordBits != 0
      invariant wordBits != 0 ==> Highest(wordBits) == Highest(summary[s])
      invariant wordBits != summary[s] ==> Crosses(Ask, price, ls[top].price) && t >= 0
      invariant acc + Times(PopCount(wordBits), t) == acc0 + Times(n, t) && acc >= 0 && crossing == Min(qty, acc)
      decreases PopCount(wordBits)
    {
      PopCountDown(wordBits);
      var occupiedWord := s * 64 + Highest(wordBits);
      TimesDown(PopCount(wordBits), t);
      TimesSign(PopCount(wordBits) - 1, t);
      TimesSign(n, t);
      crossing, done := ScanBidWord(ls, occupied, occupiedWord, top, price, qty, crossing, acc);
      if done {
        return;
      }
      acc := acc + t;
      if DropLowest(wordBits) != 0 {
        HighestStays(wordBits);
      }
      wordBits := DropLowest(wordBits);
    }
    PopCountDown(wordBits);
    TimesSign(0, t);
    TimesSign(n, t);
    done := false;
  }

  lemma {:induction false} RecountNone(ls: seq<OrderLevel>, occupied: seq<Word>, summary: seq<Word>, price: int)
    ensures Recount(ls, occupied, summary, price, 0) == 0
  {
  }

  lemma {:induction false} TopInRange(ls: seq<OrderLevel>, occupied: seq<Word>, summary: seq<Word>, s: nat)
    requires s < |summary| && summary[s] != 0 && TopExists(ls, occupied, summary, s)
    ensures var w := s * 64 + Highest(summary[s]);
            && w < |occupied| && occupied[w] != 0
            && HighestUnder(occupied, summary, s) == w * 64 + Highest(occupied[w]) < |ls|
  {
    hide Highest;
  }

  lemma {:induction false} RecountStep(ls: seq<OrderLevel>, occupied: seq<Word>, summary: seq<Word>, price: int, n: nat)
    requires 0 < n <= |summary|
    requires forall s :: 0 <= s < n && summary[s] != 0 ==> TopExists(ls, occupied, summary, s)
    ensures summary[n - 1] == 0 ==>
              Recount(ls, occupied, summary, price, n) == Recount(ls, occupied, summary, price, n - 1)
    ensures summary[n - 1] != 0 ==>
              && TopExists(ls, occupied, summary, n - 1)
              && var i := HighestUnder(occupied, summary, n - 1);
              && i / 64 < |occupied|
              && Recount(ls, occupied, summary, price, n) ==
                 if !Crosses(Ask, price, ls[i].price) then 0
                 else Times(PopCount(summary[n - 1]), WordGain(ls, occupied, i))
                      + Recount(ls, occupied, summary, price, n - 1)
  {
    hide Highest, PopCount, HighestUnder;
    if summary[n - 1] != 0 {
      assert TopExists(ls, occupied, summary, n - 1);
      TopWord(ls, occupied, summary, n - 1);
    }
  }

  /** The innermost loop of that scan: it meets the word's best bid once per occupied level. */
  method ScanBidWord(ls: seq<OrderLevel>, occupied: seq<Word>, w: nat, ghost top: nat,
                     price: Price, qty: Quantity, crossing0: Quantity, ghost acc0: int)
    returns (crossing: Quantity, done: bool)
    requires w < |occupied| && occupied[w] != 0 && top == w * 64 + Highest(occupied[w]) < |ls| && top / 64 == w
    requires ls[top].totalQty >= 0 && qty >= 0 && acc0 >= 0 && crossing0 == Min(qty, acc0)
    ensures var gain := WordGain(ls, occupied, top);
            && (!Crosses(Ask, price, ls[top].price) ==> done && crossing == crossing0)
            && (Crosses(Ask, price, ls[top].price) ==> gain >= 0 && crossing == Min(qty, acc0 + gain))
            && (Crosses(Ask, price, ls[top].price) && done ==> crossing == qty)
  {
    hide PopCount, Highest, DropLowest, Times;
    crossing := crossing0;
    ghost var acc := acc0;
    ghost var n, t := PopCount(occupied[w]), ls[top].totalQty;
    TimesSign(n, t);
    var levelBits := occupied[w];
    while levelBits != 0
      invariant levelBits != 0 ==> Highest(levelBits) == Highest(occupied[w])
      invariant levelBits != occupied[w] ==> Crosses(Ask, price, ls[top].price)
      invariant acc + Times(PopCount(levelBits), t) == acc0 + Times(n, t) && acc >= 0 && crossing == Min(qty, acc)
      decreases PopCount(levelBits)
    {
      PopCountDown(levelBits);
      var i := w * 64 + Highest(levelBits);
      if !Crosses(Ask, price, ls[i].price) {
        return crossing, true;
      }
      CapStep(acc, t, qty);
      TimesDown(PopCount(levelBits), t);
      TimesSign(PopCount(levelBits) - 1, t);
      var remaining := qty - crossing;
      crossing := crossing + Min(remaining, ls[i].totalQty);
      acc := acc + t;
      if crossing == qty {
        return crossing, true;
      }
      if DropLowest(levelBits) != 0 {
        HighestStays(levelBits);
      }
      levelBits := DropLowest(levelBits);
    }
    PopCountDown(levelBits);
    TimesSign(0, t);
    done := false;
  }

  // ---- Listing a side: these scans clear the bit they read

  /** The levels of the set bits of the asks' bitmap, lowest bit first. */
  method ListAsks(ls: seq<OrderLevel>, occupied: seq<Word>, ghost summary: seq<Word>) returns (visited: seq<OrderLevel>)
    requires Marks(occupied, summary, |ls|, HeldSet(ls, Ask))
    ensures visited == Walk(ls, Ask)
  {
    hide Marks, Walk, Held, Bit, Lowest, DropLowest, AsksFrom, PopCount, Unvisited;
    visited := [];
    AllAsks(ls);
    for word := 0 to |occupied|
      invariant visited + AsksFrom(ls, word * 64) == Walk(ls, Ask)
    {
      var bits := occupied[word];
      ghost var r := 0;
      StartUnvisited(bits);
      while bits != 0
        invariant 0 <= r <= 64 && Unvisited(occupied[word], bits, r)
        invariant visited + AsksFrom(ls, word * 64 + r) == Walk(ls, Ask)
        decreases PopCount(bits)
      {
        UnvisitedStep(occupied[word], bits, r);
        var bit := Lowest(bits);
        MarkedLevel(ls, Ask, occupied, summary, word, bit);
        NoneInWord(ls, Ask, occupied, summary, word, r, bit);
        SkipTo(ls, word * 64 + r, word * 64 + bit);
        var i := word * 64 + bit;
        AsksAt(ls, i);
        Assoc(visited, [ls[i]], AsksFrom(ls, i + 1));
        visited := visited + [ls[i]];
        PopCountDown(bits);
        bits := DropLowest(bits);
        r := bit + 1;
      }
      UnvisitedEnd(occupied[word], r);
      NoneInWord(ls, Ask, occupied, summary, word, r, 64);
      SkipTo(ls, word * 64 + r, (word + 1) * 64);
    }
    EnoughWords(occupied, summary, |ls|, HeldSet(ls, Ask));
    NoAsksPast(ls, |occupied|);
  }

  lemma {:induction false} NoAsksPast(ls: seq<OrderLevel>, words: nat)
    requires words * 64 >= |ls|
    ensures AsksFrom(ls, words * 64) == []
  {
  }

  // ---- The bids below an index

  function BidsBelow(ls: seq<OrderLevel>, i: nat): seq<OrderLevel> {
    if i <= |ls| then Walk(ls[..i], Bid) else Walk(ls, Bid)
  }

  lemma {:induction false} BidSkip(ls: seq<OrderLevel>, j: nat, i: nat)
    requires j <= i && forall k :: j <= k < i && k < |ls| ==> !Held(ls[k], Bid)
    ensures BidsBelow(ls, i) == BidsBelow(ls, j)
  {
    hide Walk, Held;
    var to := if i <= |ls| then i else |ls|;
    if j <= to {
      assert ls[..to] == ls[..j] + ls[j..to];
      WalkAppend(ls[..j], ls[j..to], Bid);
      WalkNone(ls[j..to], Bid);
      assert ls[..|ls|] == ls;
    }
  }

  lemma {:induction false} BidsAt(ls: seq<OrderLevel>, i: nat)
    requires i < |ls| && Held(ls[i], Bid)
    ensures BidsBelow(ls, i + 1) == [ls[i]] + BidsBelow(ls, i)
  {
    hide Walk;
    assert ls[..i + 1] == ls[..i] + [ls[i]];
    WalkAppend(ls[..i], [ls[i]], Bid);
    WalkSingle(ls[i], Bid);
  }

  lemma {:induction false} BidEnds(ls: seq<OrderLevel>, words: nat)
    requires words * 64 >= |ls|
    ensures BidsBelow(ls, words * 64) == Walk(ls, Bid) && BidsBelow(ls, 0) == []
  {
    assert ls[..|ls|] == ls;
  }

  /** `b` holds the bits of `full` below `r`: the ones a downward scan has yet to visit. */
  ghost predicate Below(full: Word, b: Word, r: nat) {
    forall k: nat :: Bit(b, k) <==> Bit(full, k) && k < r
  }

  lemma {:induction false} BelowStep(full: Word, b: Word, r: nat)
    requires Below(full, b, r) && b != 0
    ensures var c := Highest(b);
            && c < r && c < 64 && Bit(full, c) && (forall k :: c < k < r ==> !Bit(full, k))
            && Below(full, AndNot(b, Mask(c)), c)
  {
    hide Bit, Highest, AndNot, Mask;
    var c := Highest(b);
    BitRange(b, c);
    forall k: nat ensures Bit(AndNot(b, Mask(c)), k) <==> Bit(full, k) && k < c {
      ClearBit(b, c, k);
    }
  }

  lemma {:induction false} BelowStart(full: Word)
    ensures Below(full, full, 64)
  {
    forall k: nat ensures Bit(full, k) <==> Bit(full, k) && k < 64 {
      if Bit(full, k) {
        BitRange(full, k);
      }
    }
  }

  lemma {:induction false} BelowEnd(full: Word, r: nat)
    requires Below(full, 0, r)
    ensures forall k :: 0 <= k < r ==> !Bit(full, k)
  {
    hide Bit;
    ZeroIff(0);
    forall k | 0 <= k < r ensures !Bit(full, k) {
      if k >= 64 && Bit(full, k) {
        BitRange(full, k);
      }
      assert k < 64 ==> !Bit(0, k);
    }
  }

  /** The levels of the set bits of the bids' bitmap, highest bit first. */
  method ListBids(ls: seq<OrderLevel>, occupied: seq<Word>, ghost summary: seq<Word>) returns (visited: seq<OrderLevel>)
    requires Marks(occupied, summary, |ls|, HeldSet(ls, Bid))
    ensures visited == Walk(ls, Bid)
  {
    hide Marks, Walk, Held, Bit, Highest, AndNot, Mask, BidsBelow, Below;
    visited := [];
    EnoughWords(occupied, summary, |ls|, HeldSet(ls, Bid));
    BidEnds(ls, |occupied|);
    var word := |occupied|;
    while word > 0
      invariant 0 <= word <= |occupied|
      invariant visited + BidsBelow(ls, word * 64) == Walk(ls, Bid)
    {
      var bits := occupied[word - 1];
      ghost var r := 64;
      BelowStart(bits);
      while bits != 0
        invariant 0 <= r <= 64 && Below(occupied[word - 1], bits, r)
        invariant visited + BidsBelow(ls, (word - 1) * 64 + r) == Walk(ls, Bid)
        decreases r
      {
        BelowStep(occupied[word - 1], bits, r);
        var bit := Highest(bits);
        MarkedLevel(ls, Bid, occupied, summary, word - 1, bit);
        NoneInWord(ls, Bid, occupied, summary, word - 1, bit + 1, r);
        var i := (word - 1) * 64 + bit;
        BidSkip(ls, i + 1, (word - 1) * 64 + r);
        BidsAt(ls, i);
        Assoc(visited, [ls[i]], BidsBelow(ls, i));
        visited := visited + [ls[i]];
        bits := AndNot(bits, Mask(bit));
        r := bit;
      }
      BelowEnd(occupied[word - 1], r);
      NoneInWord(ls, Bid, occupied, summary, word - 1, 0, r);
      BidSkip(ls, (word - 1) * 64, (word - 1) * 64 + r);
      word := word - 1;
    }
  }

  lemma {:induction false} EnoughWords(occupied: seq<Word>, summary: seq<Word>, count: nat, held: set<nat>)
    requires Marks(occupied, summary, count, held)
    ensures |occupied| * 64 >= count
  {
  }
}
