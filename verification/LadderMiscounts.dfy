/** The ladder's sell scan on two adjacent bids: what it miscounts, and what follows. */
module LadderMiscounts {
  import opened Types
  import opened Division
  import opened Reference
  import opened Matching
  import opened Invariants
  import opened OrderIndex
  import opened Bitmap
  import opened RungRecount
  import opened LadderSpec
  import opened Ladder
  import opened LadderLaws

  // ---- The scan of two adjacent bids

  /** Bids at both prices of a ladder of two. */
  ghost predicate TwoBids(st: State, minPrice: Price, maxPrice: Price) {
    && OnRungs(st, minPrice, maxPrice) && maxPrice == minPrice + 1
    && LevelQty(st.bids, minPrice) > 0 && LevelQty(st.bids, maxPrice) > 0
  }

  lemma {:induction false} BidsOnlyBelow(rungs: seq<int>, k: nat, n: nat)
    requires k <= n && forall i :: k <= i < n && i < |rungs| ==> rungs[i] <= 0
    ensures BidsIn(rungs, 0, n) == BidsIn(rungs, 0, k)
  {
    if k < n {
      BidsOnlyBelow(rungs, k, n - 1);
    }
  }

  lemma {:induction false} BusyOnlyBelow(rungs: seq<int>, k: nat, n: nat)
    requires k <= n && forall w :: k <= w < n ==> BidsIn(rungs, w * 64, 64) == 0
    ensures BusyWords(rungs, 0, n) == BusyWords(rungs, 0, k)
  {
    hide BidsIn;
    if k < n {
      BusyOnlyBelow(rungs, k, n - 1);
      assert BidsIn(rungs, (n - 1) * 64, 64) == 0;
    }
  }

  lemma {:induction false} TwoRungs(low: int, high: int)
    requires low > 0 && high > 0
    ensures BidsIn([low, high], 0, 64) == 2 && BusyWords([low, high], 0, 64) == 1
  {
    var rungs := [low, high];
    BidsOnlyBelow(rungs, 2, 64);
    assert BidsIn(rungs, 0, 2) == BidsIn(rungs, 0, 1) + 1 == 2;
    hide BidsIn;
    forall w | 1 <= w < 64 ensures BidsIn(rungs, w * 64, 64) == 0 {
      NoBidsPast(rungs, w * 64, 64);
    }
    BusyOnlyBelow(rungs, 1, 64);
    assert BidsIn(rungs, 0 * 64, 64) > 0;
  }

  /** The recount of two rungs: the higher one twice, the lower one never. */
  lemma {:induction false} TwoRungsRecount(low: int, high: int, minPrice: int)
    requires low > 0 && high > 0
    ensures BlockRecount([low, high], minPrice, minPrice, 1) == 2 * high
  {
    hide BidsIn, BusyWords, HighestBid;
    TwoRungs(low, high);
    var rungs := [low, high];
    assert rungs[1] > 0;
    assert HighestBid(rungs, 0 * 4096, 4096) == 1;
    assert 1 / 64 * 64 == 0;
    assert BlockRecount(rungs, minPrice, minPrice, 0) == 0;
  }

  lemma {:induction false} TwoPricesAddUp(q: seq<Order>, low: int, high: int)
    requires low != high && forall i :: 0 <= i < |q| ==> q[i].price == low || q[i].price == high
    ensures SumQty(q) == LevelQty(q, low) + LevelQty(q, high)
  {
    if q != [] {
      TwoPricesAddUp(q[1..], low, high);
    }
  }

  /** The scan meets the better bid twice and the worse one never. */
  lemma {:induction false} TwoBidsRecount(st: State, minPrice: Price, maxPrice: Price)
    requires TwoBids(st, minPrice, maxPrice)
    ensures Recounted(st, minPrice, maxPrice, minPrice) == 2 * LevelQty(st.bids, maxPrice)
    ensures Depth(st.bids, Ask, minPrice) == LevelQty(st.bids, maxPrice) + LevelQty(st.bids, minPrice)
  {
    hide Inv, BlockRecount, Depth, SumQty, LevelQty;
    var low, high := LevelQty(st.bids, minPrice), LevelQty(st.bids, maxPrice);
    assert Rungs(st.bids, minPrice, 2) == [low, high];
    TwoRungsRecount(low, high, minPrice);
    DepthOfAll(st.bids, Ask, minPrice);
    TwoPricesAddUp(st.bids, minPrice, maxPrice);
  }

  // ---- What follows

  /** A sell fill-or-kill at the lower of the two prices that gets as far as the liquidity check. */
  predicate SellFillOrKillAt(st: State, minPrice: Price, maxPrice: Price, e: Event) {
    LimitFillOrKill(e) && e.side == Ask && e.price == minPrice > 0 && ReachesLiquidity(st, minPrice, maxPrice, e)
  }

  /**
   With `best` at the higher bid and `next` at the lower one the ladder finds liquidity for a
   fill-or-kill up to twice `best`, the reference up to `best + next`.
   */
  lemma {:induction false} FillOrKillLimits(st: State, minPrice: Price, maxPrice: Price, e: Event)
    requires TwoBids(st, minPrice, maxPrice) && SellFillOrKillAt(st, minPrice, maxPrice, e)
    ensures var best, next := LevelQty(st.bids, maxPrice), LevelQty(st.bids, minPrice);
            && (LadderVerdict(st, minPrice, maxPrice, e) == InsufficientLiquidity <==> e.qty > 2 * best)
            && (ReferenceError(st, e) == InsufficientLiquidity <==> e.qty > best + next)
  {
    hide Inv, LevelQty, Crossing, HasId, Recounted, Depth;
    TwoBidsRecount(st, minPrice, maxPrice);
    InvFacts(st, Ask);
    CrossingIsCappedDepth(st.bids, Ask, e.price, e.qty);
  }

  /** Whenever the two bids differ in size, some fill-or-kill is judged wrongly. */
  lemma {:induction false} UnequalBidsMisjudge(st: State, minPrice: Price, maxPrice: Price, id: OrderId)
    returns (e: Event)
    requires TwoBids(st, minPrice, maxPrice) && minPrice > 0 && !Contains(st, id)
    requires var best, next := LevelQty(st.bids, maxPrice), LevelQty(st.bids, minPrice);
             best != next && 2 * best <= MAX_INT64 && best + next <= MAX_INT64
    ensures SellFillOrKillAt(st, minPrice, maxPrice, e)
    ensures LadderVerdict(st, minPrice, maxPrice, e) != ReferenceError(st, e)
  {
    hide Inv, LevelQty, Crossing, HasId, Contains, Depth, LadderVerdict, ReferenceError;
    var best, next := LevelQty(st.bids, maxPrice), LevelQty(st.bids, minPrice);
    var qty := if next < best then 2 * best else best + next;
    e := Event(Add, id, Ask, minPrice, qty, Limit, FillOrKill, false, 0, 0, 0);
    FillOrKillLimits(st, minPrice, maxPrice, e);
  }

  /**
   A plain sell the miscount lets through although its true fills do not fit: the guard tests
   `tradedQty` against twice the better bid, the match then adds both bids.
   */
  lemma {:induction false} SellMayOverflow(st: State, minPrice: Price, maxPrice: Price, e: Event)
    requires TwoBids(st, minPrice, maxPrice) && minPrice > 0 && !Contains(st, e.id)
    requires e == LimitAdd(e.id, Ask, minPrice, e.qty) && e.qty > 0
    requires var best, next := LevelQty(st.bids, maxPrice), LevelQty(st.bids, minPrice);
             && 2 * best <= e.qty && best + next <= e.qty && next + e.qty - 2 * best <= MAX_INT64
             && st.stats.tradedQty + 2 * best <= MAX_INT64 < st.stats.tradedQty + best + next
    ensures Unsafe(st, minPrice, maxPrice, e) && ReferenceError(st, e) == QuantityOverflow
    ensures LadderStep(st, minPrice, maxPrice, e).state.stats.tradedQty
            == st.stats.tradedQty + LevelQty(st.bids, minPrice) + LevelQty(st.bids, maxPrice)
  {
    hide Inv, LevelQty, Crossing, HasId, Depth, Recounted, Execute;
    TwoBidsRecount(st, minPrice, maxPrice);
    SlotHoldsOneSide(st, minPrice);
    InvFacts(st, Ask);
    CrossingIsCappedDepth(st.bids, Ask, e.price, e.qty);
    InvIgnoresCounts(st, CountAdd(st));
    ExecuteTotals(CountAdd(st), e.id, Ask, minPrice, e.qty, true);
  }

  // ---- Runs of the real book that show each case

  /** A bid that meets no ask simply rests. */
  lemma {:induction false} BidRests(st: State, id: OrderId, price: Price, qty: Quantity)
    requires st.asks == [] && !Contains(st, id) && price > 0 && qty > 0 && st.stats.tradedQty <= MAX_INT64
    requires LevelQty(st.bids, price) + qty <= MAX_INT64
    ensures Step(st, LimitAdd(id, Bid, price, qty))
            == Outcome(CountAdd(st).(bids := Insert(st.bids, Order(id, Bid, price, qty))), NoError, [])
  {
    hide HasId, Insert, LevelQty;
  }

  lemma {:induction false} TwoBidQueue(best: Quantity, next: Quantity)
    requires best > 0 && next > 0
    ensures var one := Insert([], Order(1, Bid, 100, best)); var two := Insert(one, Order(2, Bid, 99, next));
            && one == [Order(1, Bid, 100, best)] && two == [Order(1, Bid, 100, best), Order(2, Bid, 99, next)]
            && !HasId([], 1) && !HasId([], 2) && !HasId([], 3) && !HasId(one, 2) && !HasId(two, 3)
            && LevelQty([], 100) == 0
            && LevelQty(one, 99) == 0 && LevelQty(two, 100) == best && LevelQty(two, 99) == next
  {
    var one, two := Insert([], Order(1, Bid, 100, best)), [Order(1, Bid, 100, best), Order(2, Bid, 99, next)];
    assert two[1..] == [Order(2, Bid, 99, next)] && two[1..][1..] == [] && one[1..] == [];
    assert LevelQty(two[1..], 100) == 0 && LevelQty(two[1..], 99) == next;
  }

  /** A buy whose limit is positive and in range: safe, and stepped as the reference steps it. */
  lemma {:induction false} PlainBuy(st: State, minPrice: Price, maxPrice: Price, id: OrderId, price: Price,
                                    qty: Quantity)
    requires OnRungs(st, minPrice, maxPrice) && minPrice <= price <= maxPrice && price > 0
    ensures var e := LimitAdd(id, Bid, price, qty);
            && !Unsafe(st, minPrice, maxPrice, e)
            && LadderStep(st, minPrice, maxPrice, e) == Step(st, e)
  {
    hide OnRungs, Unsafe, LadderStep, Step, OverflowAgrees, LiquidityAgrees;
    var e := LimitAdd(id, Bid, price, qty);
    AgreementIsSafe(st, minPrice, maxPrice, e);
    LadderStepIsReferenceStep(st, minPrice, maxPrice, e);
  }

  /** Rest `best` at 100 and `next` at 99 in a book without orders. */
  method RestTwoBids(b: LadderOrderBook, best: Quantity, next: Quantity)
    requires b.Valid() && b.minPrice == 99 && b.maxPrice == 100 && best > 0 && next > 0
    requires b.Book().bids == [] && b.Book().asks == []
    modifies b
    ensures b.Valid() && TwoBids(b.Book(), 99, 100)
    ensures LevelQty(b.Book().bids, 100) == best && LevelQty(b.Book().bids, 99) == next
    ensures b.Book().bids == [Order(1, Bid, 100, best), Order(2, Bid, 99, next)] && b.Book().asks == []
    ensures b.Book().stats.tradedQty == old(b.Book().stats.tradedQty)
  {
    hide Step, Inv, Insert, LevelQty, HasId, OnRungs, Unsafe, LadderStep;
    hide LadderOrderBook.Shaped, LadderOrderBook.Valid, LadderOrderBook.Book;
    b.IndexAnswers(1);
    TwoBidQueue(best, next);
    BidRests(b.Book(), 1, 100, best);
    b.BookOnRungs();
    PlainBuy(b.Book(), 99, 100, 1, 100, best);
    var error, trades := b.AddOrder(1, Bid, 100, best, []);
    b.IndexAnswers(2);
    BidRests(b.Book(), 2, 99, next);
    b.BookOnRungs();
    PlainBuy(b.Book(), 99, 100, 2, 99, next);
    error, trades := b.AddOrder(2, Bid, 99, next, []);
    b.BookOnRungs();
  }

  /** What a sell at 99 takes from those two bids. */
  lemma {:induction false} SellIntoTwoBids(st: State, qty: Quantity, best: Quantity, next: Quantity)
    requires st.bids == [Order(1, Bid, 100, best), Order(2, Bid, 99, next)] && 0 < best && 0 < next < qty - best
    ensures Match(st.bids, 3, Ask, 99, qty).trades == [Trade(1, 3, 100, best, Ask), Trade(2, 3, 99, next, Ask)]
  {
    assert st.bids[1..] == [Order(2, Bid, 99, next)] && st.bids[1..][1..] == [];
    assert Match(st.bids[1..], 3, Ask, 99, qty - best).trades == [Trade(2, 3, 99, next, Ask)];
  }

  function SellFillOrKill(qty: Quantity): Event {
    Event(Add, 3, Ask, 99, qty, Limit, FillOrKill, false, 0, 0, 0)
  }

  lemma {:induction false} TotalOfTwoBids(best: Quantity, next: Quantity)
    ensures SumQty([Order(1, Bid, 100, best), Order(2, Bid, 99, next)]) == best + next && SumQty([]) == 0
  {
    var q := [Order(1, Bid, 100, best), Order(2, Bid, 99, next)];
    assert q[1..] == [Order(2, Bid, 99, next)] && q[1..][1..] == [];
    assert SumQty(q[1..]) == next;
  }

  /** The verdict and trades of such a fill-or-kill where everything fits. */
  lemma {:induction false} FillOrKillOutcome(st: State, qty: Quantity, best: Quantity, next: Quantity)
    requires TwoBids(st, 99, 100) && st.bids == [Order(1, Bid, 100, best), Order(2, Bid, 99, next)] && st.asks == []
    requires LevelQty(st.bids, 100) == best && LevelQty(st.bids, 99) == next
    requires qty > 0 && best + next + st.stats.tradedQty + qty <= MAX_INT64
    ensures var e := SellFillOrKill(qty); var r := LadderStep(st, 99, 100, e);
            && !Unsafe(st, 99, 100, e)
            && r.error == (if qty <= 2 * best then NoError else InsufficientLiquidity)
            && r.trades == (if qty <= 2 * best then Match(st.bids, 3, Ask, 99, qty).trades else [])
            && (r.error != NoError ==> r.state.bids == st.bids)
  {
    hide LevelQty, Match, Depth, SumQty, Insert, Unsafe, Recounted, Crossing, OnRungs;
    var e := SellFillOrKill(qty);
    TotalOfTwoBids(best, next);
    assert !Contains(st, 3);
    RoomIsEnough(st, 99, 100, e);
    FillOrKillLimits(st, 99, 100, e);
    AcceptsIff(st, 99, 100, e);
    if PassesChecks(st, 99, 100, e) {
      RoomFits(st, 99, 100, e);
    }
  }

  /** Bids 5 at 100 and 3 at 99: a fill-or-kill for 10 at 99 is accepted and fills 8. */
  method FillOrKillFillsPart() returns (b: LadderOrderBook, error: BookError, trades: seq<Trade>)
    ensures b.Valid() && error == NoError
    ensures trades == [Trade(1, 3, 100, 5, Ask), Trade(2, 3, 99, 3, Ask)]
  {
    hide Inv, LevelQty, HasId, Match, OnRungs, LadderStep, Unsafe;
    hide LadderOrderBook.Shaped, LadderOrderBook.Valid, LadderOrderBook.Book;
    b := new LadderOrderBook(99, 100);
    RestTwoBids(b, 5, 3);
    FillOrKillOutcome(b.Book(), 10, 5, 3);
    SellIntoTwoBids(b.Book(), 10, 5, 3);
    error, trades := b.Process(SellFillOrKill(10), []);
  }

  /** Bids 1 at 100 and 100 at 99: a fill-or-kill for 50 at 99 is refused although 101 would cross. */
  method FillOrKillRefusedInDepth() returns (b: LadderOrderBook, error: BookError, trades: seq<Trade>)
    ensures b.Valid() && error == InsufficientLiquidity && trades == []
    ensures Depth(b.Book().bids, Ask, 99) == 101
  {
    hide Inv, LevelQty, HasId, Match, Depth, OnRungs, LadderStep, Unsafe;
    hide LadderOrderBook.Shaped, LadderOrderBook.Valid, LadderOrderBook.Book;
    b := new LadderOrderBook(99, 100);
    RestTwoBids(b, 1, 100);
    FillOrKillOutcome(b.Book(), 50, 1, 100);
    TwoBidsRecount(b.Book(), 99, 100);
    error, trades := b.Process(SellFillOrKill(50), []);
  }

  const NEARLY_ALL: Quantity := MAX_INT64 - 2

  lemma {:induction false} OneTakesAll(qty: Quantity)
    requires qty > 0
    ensures var q, ts := [Order(8, Ask, 100, qty)], [Trade(8, 9, 100, qty, Bid)];
            && Match(q, 9, Bid, 100, qty) == Matched([], ts, 0) && TradedQty(ts) == qty && TradedQty([]) == 0
            && Crossing(q, Bid, 100, qty) == qty && Insert([], q[0]) == q && !HasId(q, 9) && !HasId([], 9)
    ensures Match([], 8, Ask, 100, qty) == Matched([], [], qty) && Crossing([], Ask, 100, qty) == 0
    ensures !HasId([], 8) && LevelQty([], 100) == 0 && SumQty([]) == 0
  {
    var q, ts := [Order(8, Ask, 100, qty)], [Trade(8, 9, 100, qty, Bid)];
    assert q[1..] == [] && ts[1..] == [];
    assert Match([], 9, Bid, 100, 0) == Matched([], [], 0);
  }

  function OneAsk(qty: Quantity): State {
    State([], [Order(8, Ask, 100, qty)], NO_STATS.(addRequests := 1))
  }

  lemma {:induction false} FirstSellRests(qty: Quantity)
    requires qty > 0
    ensures Step(EMPTY, LimitAdd(8, Ask, 100, qty)) == Outcome(OneAsk(qty), NoError, [])
  {
    hide Match, Crossing, Insert, HasId, LevelQty, TradedQty;
    OneTakesAll(qty);
  }

  lemma {:induction false} SecondBuyTrades(qty: Quantity)
    requires qty > 0
    ensures var r := Step(OneAsk(qty), LimitAdd(9, Bid, 100, qty));
            && r.error == NoError && r.state.bids == [] && r.state.asks == [] && r.state.stats.tradedQty == qty
  {
    hide Match, Crossing, Insert, HasId, LevelQty, TradedQty;
    OneTakesAll(qty);
  }

  /** The first sell fits: it is stepped as the reference steps it. */
  lemma {:induction false} FirstSell()
    requires OnRungs(EMPTY, 99, 100)
    ensures var e := LimitAdd(8, Ask, 100, NEARLY_ALL);
            !Unsafe(EMPTY, 99, 100, e) && LadderStep(EMPTY, 99, 100, e) == Step(EMPTY, e)
  {
    hide OnRungs, Unsafe, LadderStep, Step, OverflowAgrees;
    var e := LimitAdd(8, Ask, 100, NEARLY_ALL);
    OneTakesAll(NEARLY_ALL);
    RoomIsEnough(EMPTY, 99, 100, e);
    LadderStepIsReferenceStep(EMPTY, 99, 100, e);
  }

  /** A state the ladder can reach in which the sell it would accept next does not fit. */
  method OverflowIsReachable() returns (b: LadderOrderBook, e: Event)
    ensures b.Valid() && Unsafe(b.Book(), b.minPrice, b.maxPrice, e)
    ensures ReferenceError(b.Book(), e) == QuantityOverflow
    ensures LadderStep(b.Book(), b.minPrice, b.maxPrice, e).state.stats.tradedQty > MAX_INT64
  {
    hide Step, Inv, LevelQty, HasId, OnRungs, LadderStep, Unsafe, ReferenceError;
    hide LadderOrderBook.Shaped, LadderOrderBook.Valid, LadderOrderBook.Book;
    b := new LadderOrderBook(99, 100);
    FirstSellRests(NEARLY_ALL);
    SecondBuyTrades(NEARLY_ALL);
    b.BookOnRungs();
    FirstSell();
    var error, trades := b.AddOrder(8, Ask, 100, NEARLY_ALL, []);
    b.BookOnRungs();
    PlainBuy(b.Book(), 99, 100, 9, 100, NEARLY_ALL);
    error, trades := b.AddOrder(9, Bid, 100, NEARLY_ALL, []);
    RestTwoBids(b, 1, 5);
    TwoBidQueue(1, 5);
    e := LimitAdd(3, Ask, 99, 6);
    SellMayOverflow(b.Book(), 99, 100, e);
  }

  /** A ladder that starts at price 0 rests a bid at price 0, which the reference refuses. */
  method PriceZeroRests() returns (b: LadderOrderBook, error: BookError)
    ensures b.Valid() && b.minPrice == 0 && error == NoError && b.Book().bids == [Order(1, Bid, 0, 5)]
    ensures Step(EMPTY, LimitAdd(1, Bid, 0, 5)).error == InvalidPrice
  {
    hide Inv, OnRungs, Step, LadderStep, Unsafe, LadderOrderBook.Shaped, LadderOrderBook.Valid, LadderOrderBook.Book;
    b := new LadderOrderBook(0, 10);
    b.BookOnRungs();
    AgreementIsSafe(EMPTY, 0, 10, LimitAdd(1, Bid, 0, 5));
    ZeroBid();
    ZeroRefused();
    var trades;
    error, trades := b.AddOrder(1, Bid, 0, 5, []);
  }

  lemma {:induction false} ZeroBid()
    ensures var r := LadderStep(EMPTY, 0, 10, LimitAdd(1, Bid, 0, 5));
            r.error == NoError && r.state.bids == [Order(1, Bid, 0, 5)]
  {
    hide Crossing, LevelQty, HasId, Match, Insert;
    NothingRests();
  }

  lemma {:induction false} NothingRests()
    ensures Crossing([], Bid, 0, 5) == 0 && LevelQty([], 0) == 0 && !HasId([], 1)
    ensures Match([], 1, Bid, 0, 5) == Matched([], [], 5)
    ensures Insert([], Order(1, Bid, 0, 5)) == [Order(1, Bid, 0, 5)]
  {
  }

  lemma {:induction false} ZeroRefused()
    ensures Step(EMPTY, LimitAdd(1, Bid, 0, 5)).error == InvalidPrice
  {
    hide Crossing, LevelQty, HasId, Match, Insert;
  }
}
