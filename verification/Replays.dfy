/** Whole histories: each backend replays them as the reference does. */
module Replays {
  import opened Types
  import opened Reference
  import opened Matching
  import opened Invariants
  import opened OrderIndex
  import opened Laws
  import opened Rules
  import opened PoolShape
  import opened PooledSpec
  import opened LadderSpec
  import opened LadderLaws
  import Baseline
  import Pooled
  import Ladder

  lemma {:induction false} RunNext(es: seq<Event>, k: nat)
    requires k < |es|
    ensures Run(es[..k + 1]) == Step(Run(es[..k]), es[k]).state
    ensures RunTrades(es[..k + 1]) == RunTrades(es[..k]) + Step(Run(es[..k]), es[k]).trades
  {
    assert es[..k + 1][..k] == es[..k];
  }

  // ---- Baseline

  /** The oracle of the partition lab: one baseline book fed a whole sequence. */
  method DirectReplay(es: seq<Event>) returns (book: Baseline.OrderBook, trades: seq<Trade>)
    ensures book.Valid() && book.Book() == Run(es) && trades == RunTrades(es)
  {
    hide Step;
    book := new Baseline.OrderBook();
    trades := [];
    for k := 0 to |es|
      invariant book.Valid() && fresh(book)
      invariant book.Book() == Run(es[..k]) && trades == RunTrades(es[..k])
    {
      RunNext(es, k);
      var error;
      error, trades := book.Process(es[k], trades);
    }
    assert es[..|es|] == es;
  }

  // ---- Pooled

  /** The reference with a bound on its resting orders. */
  function PooledRun(es: seq<Event>, capacity: nat): State {
    if es == [] then EMPTY else PooledStep(PooledRun(es[..|es| - 1], capacity), capacity, es[|es| - 1]).state
  }

  function PooledTrades(es: seq<Event>, capacity: nat): seq<Trade> {
    if es == [] then []
    else
      PooledTrades(es[..|es| - 1], capacity)
      + PooledStep(PooledRun(es[..|es| - 1], capacity), capacity, es[|es| - 1]).trades
  }

  function Live(st: State): nat {
    |st.bids| + |st.asks|
  }

  lemma {:induction false} MatchShortens(q: seq<Order>, id: OrderId, side: Side, price: int, qty: int)
    ensures |Match(q, id, side, price, qty).rest| <= |q|
    decreases |q|
  {
    if q != [] {
      MatchShortens(q[1..], id, side, price, qty - q[0].qty);
    }
  }

  lemma {:induction false} ExecuteAddsOne(st: State, id: OrderId, side: Side, price: Price, qty: int, rests: bool)
    ensures Live(Execute(st, id, side, price, qty, rests).state) <= Live(st) + 1
  {
    hide Match, Insert;
    var q := st.Orders(side.Opposite());
    MatchShortens(q, id, side, price, qty);
    var m := Match(q, id, side, price, qty);
    InsertSplits(st.Orders(side), Order(id, side, price, m.remaining));
  }

  lemma {:induction false} RemovedTakesOne(st: State, id: OrderId)
    ensures Live(Removed(st, id)) == if Contains(st, id) then Live(st) - 1 else Live(st)
  {
    var q := st.Orders(SideOf(st, id));
    if HasId(q, id) {
      WithoutSplits(q, id);
    } else {
      WithoutMissing(q, id);
    }
  }

  /** Only an add can make the book longer, and by one order at most. */
  lemma {:induction false} StepGrows(st: State, e: Event)
    ensures Live(Step(st, e).state) <= Live(st) + if e.kind == Add then 1 else 0
  {
    hide Execute, HasId, Without, Crossing, LevelQty, Removed;
    match e.kind {
      case Add => ExecuteAddsOne(CountAdd(st), e.id, e.side, LimitOf(e), e.qty, CanRest(e));
      case Cancel => RemovedTakesOne(CountCancel(st), e.id);
      case Modify =>
        RemovedTakesOne(CountModify(st), e.id);
        ExecuteAddsOne(Removed(CountModify(st), e.id), e.id, SideOf(st, e.id), e.newPrice, e.newQty, true);
    }
  }

  lemma {:induction false} LiveWithinAdds(es: seq<Event>)
    ensures Live(Run(es)) <= KindCount(es, Add)
  {
    hide Step;
    if es != [] {
      LiveWithinAdds(es[..|es| - 1]);
      StepGrows(Run(es[..|es| - 1]), es[|es| - 1]);
    }
  }

  /** A pool with a slot for every add never runs out, so it replays the history as the reference does. */
  lemma {:induction false} SlotForEveryAdd(es: seq<Event>, capacity: nat)
    requires KindCount(es, Add) <= capacity
    ensures PooledRun(es, capacity) == Run(es) && PooledTrades(es, capacity) == RunTrades(es)
  {
    hide Step, HasId, Crossing, AddError;
    if es != [] {
      var before, e := es[..|es| - 1], es[|es| - 1];
      SlotForEveryAdd(before, capacity);
      LiveWithinAdds(before);
      assert !OutOfSlots(Run(before), capacity, e);
    }
  }

  function PooledLedger(es: seq<Event>, capacity: nat): Ledger {
    if es == [] then NO_LEDGER
    else
      var st, e := PooledRun(es[..|es| - 1], capacity), es[|es| - 1];
      Entered(PooledLedger(es[..|es| - 1], capacity), st, e, PooledStep(st, capacity, e))
  }

  /** The pool's verdict: its capacity rule, or the reference's checks. */
  function PooledError(st: State, capacity: nat, e: Event): BookError {
    if OutOfSlots(st, capacity, e) then CapacityExceeded else ReferenceError(st, e)
  }

  lemma {:induction false} PooledStepIs(st: State, capacity: nat, e: Event)
    ensures PooledStep(st, capacity, e) == StepWith(st, e, PooledError(st, capacity, e))
    ensures Sensible(st, e, PooledError(st, capacity, e))
  {
    hide HasId, Crossing, LevelQty, Without, Match, Insert;
    ReferenceIsSensible(st, e);
    StepFollowsVerdict(st, e);
  }

  /** Over every history of a pool, refusals for capacity included, the book is sound, fits and balances. */
  lemma {:induction false} PooledLedgerBalances(es: seq<Event>, capacity: nat)
    ensures Inv(PooledRun(es, capacity)) && Live(PooledRun(es, capacity)) <= capacity
    ensures Balanced(PooledLedger(es, capacity), PooledRun(es, capacity), PooledTrades(es, capacity))
  {
    hide PooledStep, StepWith, Entered, Balanced, Sensible, PooledError, Inv;
    if es == [] {
      EmptyBalances();
      RunKeepsInv([]);
    } else {
      var before, e := es[..|es| - 1], es[|es| - 1];
      var st := PooledRun(before, capacity);
      PooledLedgerBalances(before, capacity);
      CapacityErrorIff(st, capacity, e);
      PooledStepIs(st, capacity, e);
      StepKeepsBalance(PooledLedger(before, capacity), st, PooledTrades(before, capacity), e,
                       PooledError(st, capacity, e));
    }
  }

  /** The capacity rule as the pool tests it, and what a refusal by it leaves. */
  lemma {:induction false} CapacityTest(st: State, capacity: nat, e: Event)
    ensures PooledStep(st, capacity, e).error == CapacityExceeded <==> OutOfSlots(st, capacity, e)
    ensures var r := PooledStep(st, capacity, e);
            r.error == CapacityExceeded ==> r.trades == [] && r.state == CountReject(CountAdd(st))
    ensures Inv(st) ==> Inv(PooledStep(st, capacity, e).state)
  {
    hide HasId, Crossing, LevelQty, Match, Insert, Without, Inv;
    if Inv(st) {
      InvIgnoresCounts(st, CountReject(CountAdd(st)));
      StepKeepsInv(st, e);
    }
  }

  /** How many orders a book holds after an add that is let through. */
  lemma {:induction false} AddedLive(st: State, e: Event)
    requires Inv(st) && e.kind == Add && e.qty > 0
    ensures var crossing, after := CrossingOf(st, e.side, LimitOf(e), e.qty), AddWith(st, e, NoError).state;
            && (CanRest(e) && crossing == 0 ==> Live(after) == Live(st) + 1)
            && (!CanRest(e) || crossing > 0 ==> Live(after) <= Live(st))
            && 0 <= crossing <= e.qty
  {
    hide Inv, Match, Insert, Crossing;
    InvFacts(st, e.side);
    var q := st.Orders(e.side.Opposite());
    var m := Match(q, e.id, e.side, LimitOf(e), e.qty);
    MatchShortens(q, e.id, e.side, LimitOf(e), e.qty);
    CrossingIsExact(q, e.id, e.side, LimitOf(e), e.qty);
    InsertSplits(st.Orders(e.side), Order(e.id, e.side, LimitOf(e), m.remaining));
    if CrossingOf(st, e.side, LimitOf(e), e.qty) == 0 {
      NoCrossingNoMatch(q, e.id, e.side, LimitOf(e), e.qty);
    } else if m.remaining > 0 {
      RemainderFreesAnOrder(q, e.id, e.side, LimitOf(e), e.qty);
    }
  }

  /**
   A pool refuses for capacity exactly the adds that the reference accepts but that would leave more
   orders than there are slots. To everything else it does what the reference does. So its book fits.
   */
  lemma {:induction false} CapacityErrorIff(st: State, capacity: nat, e: Event)
    requires Inv(st) && Live(st) <= capacity
    ensures var r, s := PooledStep(st, capacity, e), Step(st, e);
            && (r.error == CapacityExceeded <==> e.kind == Add && s.error == NoError && Live(s.state) > capacity)
            && (r.error != CapacityExceeded ==> r == s)
            && (r.error == CapacityExceeded ==>
                  r.trades == [] && r.state.bids == st.bids && r.state.asks == st.asks)
            && Inv(r.state) && Live(r.state) <= capacity
  {
    hide Inv, AddError, ModifyError, CrossingOf, Contains, Removed, Execute;
    CapacityTest(st, capacity, e);
    StepFollowsVerdict(st, e);
    NeverFull(st, e);
    StepGrows(st, e);
    if Step(st, e).error != NoError {
      RejectionIsAtomic(st, e);
    } else if e.kind == Add {
      ReferenceIsSensible(st, e);
      AddedLive(st, e);
    }
  }

  lemma {:induction false} NeverFull(st: State, e: Event)
    ensures Step(st, e).error != CapacityExceeded
  {
    hide HasId, Crossing, LevelQty, Match, Insert, Without;
  }

  method PooledReplay(book: Pooled.PooledOrderBook, es: seq<Event>) returns (trades: seq<Trade>)
    requires book.Valid() && book.Book() == EMPTY
    modifies book
    ensures book.Valid()
    ensures var capacity := Capacity(old(book.slots));
            book.Book() == PooledRun(es, capacity) && trades == PooledTrades(es, capacity)
  {
    hide PooledStep, Pooled.PooledOrderBook.Valid, Pooled.PooledOrderBook.Book;
    ghost var capacity := Capacity(book.slots);
    trades := [];
    for k := 0 to |es|
      invariant book.Valid() && Capacity(book.slots) == capacity
      invariant book.Book() == PooledRun(es[..k], capacity) && trades == PooledTrades(es[..k], capacity)
    {
      assert es[..k + 1][..k] == es[..k];
      var error;
      error, trades := book.Process(es[k], trades);
    }
    assert es[..|es|] == es;
  }

  // ---- Ladder

  /** The quantity an event could bring in. */
  function Offered(e: Event): nat {
    if e.kind == Cancel || EventQty(e) <= 0 then 0 else EventQty(e)
  }

  function TotalOffered(es: seq<Event>): nat {
    if es == [] then 0 else TotalOffered(es[..|es| - 1]) + Offered(es[|es| - 1])
  }

  lemma {:induction false} StepRoom(st: State, e: Event)
    requires Inv(st)
    ensures var after := Step(st, e).state;
            Resting(after) + after.stats.tradedQty <= Resting(st) + st.stats.tradedQty + Offered(e)
  {
    hide Inv, Match, Insert, SumQty, Crossing, LevelQty, HasId, Without, QtyOf, Execute;
    var r := Step(st, e);
    StepBalances(st, e);
    StepTrades(st, e);
    if Withdrawn(st, e, r) < 0 {
      InvFacts(st, SideOf(st, e.id));
      QtyOfPositive(st.Orders(SideOf(st, e.id)), e.id);
    }
  }

  lemma {:induction false} QtyOfPositive(q: seq<Order>, id: OrderId)
    requires Positive(q)
    ensures QtyOf(q, id) >= 0
  {
    if q != [] {
      QtyOfPositive(q[1..], id);
    }
  }

  /** An event trades no more than its own quantity. */
  lemma {:induction false} StepTrades(st: State, e: Event)
    requires Inv(st)
    ensures 0 <= TradedQty(Step(st, e).trades)
    ensures Step(st, e).error == NoError && e.kind == Add ==> TradedQty(Step(st, e).trades) <= e.qty
  {
    hide Inv, Match, Insert, Crossing, LevelQty, HasId, Without, TradedQty;
    match e.kind {
      case Add =>
        InvFacts(st, e.side);
        if e.qty > 0 {
          CrossingIsExact(st.Orders(e.side.Opposite()), e.id, e.side, LimitOf(e), e.qty);
        }
        NoTrades();
      case Cancel =>
        NoTrades();
      case Modify =>
        var removed := Removed(st, e.id);
        RemovedKeepsInv(st, e.id);
        InvFacts(removed, SideOf(st, e.id));
        if e.newQty > 0 {
          CrossingIsExact(removed.Orders(SideOf(st, e.id).Opposite()), e.id, SideOf(st, e.id), e.newPrice, e.newQty);
        }
        NoTrades();
    }
  }

  lemma {:induction false} NoTrades()
    ensures TradedQty([]) == 0
  {
  }

  /** What rests and what has traded never exceed what the history offered. */
  lemma {:induction false} RunRoom(es: seq<Event>)
    ensures Resting(Run(es)) + Run(es).stats.tradedQty <= TotalOffered(es)
  {
    hide Inv, Step;
    if es != [] {
      RunRoom(es[..|es| - 1]);
      RunKeepsInv(es[..|es| - 1]);
      StepRoom(Run(es[..|es| - 1]), es[|es| - 1]);
    }
  }

  /** What a ladder computes over a history, on its own terms. */
  function LadderRun(es: seq<Event>, minPrice: Price, maxPrice: Price): State {
    if es == [] then EMPTY
    else LadderStep(LadderRun(es[..|es| - 1], minPrice, maxPrice), minPrice, maxPrice, es[|es| - 1]).state
  }

  function LadderTrades(es: seq<Event>, minPrice: Price, maxPrice: Price): seq<Trade> {
    if es == [] then []
    else
      LadderTrades(es[..|es| - 1], minPrice, maxPrice)
      + LadderStep(LadderRun(es[..|es| - 1], minPrice, maxPrice), minPrice, maxPrice, es[|es| - 1]).trades
  }

  /** No event of the history is one the ladder accepts although it overflows. */
  predicate LadderSafe(es: seq<Event>, minPrice: Price, maxPrice: Price) {
    es == []
    || (LadderSafe(es[..|es| - 1], minPrice, maxPrice)
        && !Unsafe(LadderRun(es[..|es| - 1], minPrice, maxPrice), minPrice, maxPrice, es[|es| - 1]))
  }

  lemma {:induction false} SafePrefix(es: seq<Event>, minPrice: Price, maxPrice: Price, k: nat)
    requires LadderSafe(es, minPrice, maxPrice) && k < |es|
    ensures !Unsafe(LadderRun(es[..k], minPrice, maxPrice), minPrice, maxPrice, es[k])
  {
    hide Unsafe, LadderRun;
    if k < |es| - 1 {
      SafePrefix(es[..|es| - 1], minPrice, maxPrice, k);
      assert es[..|es| - 1][..k] == es[..k];
    }
  }

  /** A ladder replays every history that does not overflow as its own step says, sell fill-or-kills included. */
  method LadderReplay(book: Ladder.LadderOrderBook, es: seq<Event>) returns (trades: seq<Trade>)
    requires book.Valid() && book.Book() == EMPTY && LadderSafe(es, book.minPrice, book.maxPrice)
    modifies book
    ensures book.Valid() && book.Book() == LadderRun(es, book.minPrice, book.maxPrice)
    ensures trades == LadderTrades(es, book.minPrice, book.maxPrice)
  {
    hide LadderStep, Unsafe, LadderSafe, Ladder.LadderOrderBook.Book;
    hide Ladder.LadderOrderBook.Valid, Ladder.LadderOrderBook.Shaped;
    trades := [];
    for k := 0 to |es|
      invariant book.Valid() && book.Book() == LadderRun(es[..k], book.minPrice, book.maxPrice)
      invariant trades == LadderTrades(es[..k], book.minPrice, book.maxPrice)
    {
      SafePrefix(es, book.minPrice, book.maxPrice, k);
      assert es[..k + 1][..k] == es[..k];
      var error;
      error, trades := book.Process(es[k], trades);
    }
    assert es[..|es|] == es;
  }

  // ---- A ladder history against the reference

  /** Every history without unsafe events ends in a sound book on the ladder. */
  lemma {:induction false} LadderRunKeepsRungs(es: seq<Event>, minPrice: Price, maxPrice: Price)
    requires minPrice <= maxPrice && LadderSafe(es, minPrice, maxPrice)
    ensures OnRungs(LadderRun(es, minPrice, maxPrice), minPrice, maxPrice)
  {
    if es != [] {
      LadderRunKeepsRungs(es[..|es| - 1], minPrice, maxPrice);
      hide OnRungs, LadderStep, Unsafe;
      LadderStepKeepsRungs(LadderRun(es[..|es| - 1], minPrice, maxPrice), minPrice, maxPrice, es[|es| - 1]);
    }
  }

  function LadderLedger(es: seq<Event>, minPrice: Price, maxPrice: Price): Ledger {
    if es == [] then NO_LEDGER
    else
      var st, e := LadderRun(es[..|es| - 1], minPrice, maxPrice), es[|es| - 1];
      Entered(LadderLedger(es[..|es| - 1], minPrice, maxPrice), st, e, LadderStep(st, minPrice, maxPrice, e))
  }

  /** The ledger balances over every such history, whatever the sell scan miscounts. */
  lemma {:induction false} LadderLedgerBalances(es: seq<Event>, minPrice: Price, maxPrice: Price)
    requires minPrice <= maxPrice && LadderSafe(es, minPrice, maxPrice)
    ensures Balanced(LadderLedger(es, minPrice, maxPrice), LadderRun(es, minPrice, maxPrice),
                     LadderTrades(es, minPrice, maxPrice))
  {
    hide LadderVerdict, StepWith, Entered, Balanced, Sensible, Unsafe, OnRungs, Inv;
    if es == [] {
      EmptyBalances();
    } else {
      var before, e := es[..|es| - 1], es[|es| - 1];
      var st := LadderRun(before, minPrice, maxPrice);
      LadderLedgerBalances(before, minPrice, maxPrice);
      LadderRunKeepsRungs(before, minPrice, maxPrice);
      RungsInv(st, minPrice, maxPrice);
      LadderIsSensible(st, minPrice, maxPrice, e);
      StepKeepsBalance(LadderLedger(before, minPrice, maxPrice), st, LadderTrades(before, minPrice, maxPrice), e,
                       LadderVerdict(st, minPrice, maxPrice, e));
    }
  }

  /** At every event of the history the conditions hold under which the ladder steps as the reference. */
  predicate AgreesThroughout(es: seq<Event>, minPrice: Price, maxPrice: Price) {
    es == []
    || (AgreesThroughout(es[..|es| - 1], minPrice, maxPrice)
        && Agrees(Run(es[..|es| - 1]), minPrice, maxPrice, es[|es| - 1]))
  }

  /** Then the history is safe and its run, trades included, is the reference's. */
  lemma {:induction false} LadderRunIsRun(es: seq<Event>, minPrice: Price, maxPrice: Price)
    requires minPrice <= maxPrice && AgreesThroughout(es, minPrice, maxPrice)
    ensures LadderSafe(es, minPrice, maxPrice)
    ensures LadderRun(es, minPrice, maxPrice) == Run(es) && LadderTrades(es, minPrice, maxPrice) == RunTrades(es)
  {
    hide LadderStep, Step, Unsafe, OnRungs, PricesAgree, LiquidityAgrees, OverflowAgrees, BuyEvent;
    if es != [] {
      var before, e := es[..|es| - 1], es[|es| - 1];
      LadderRunIsRun(before, minPrice, maxPrice);
      LadderRunKeepsRungs(before, minPrice, maxPrice);
      LadderStepIsReferenceStep(Run(before), minPrice, maxPrice, e);
      AgreementIsSafe(Run(before), minPrice, maxPrice, e);
    }
  }

  /** A price in range or not positive on a ladder of positive prices, and no sell fill-or-kill. */
  predicate Plain(minPrice: Price, maxPrice: Price, e: Event) {
    match e.kind
    case Add =>
      && (e.orderType == Market || e.price <= 0 || minPrice <= e.price <= maxPrice)
      && !(e.side == Ask && LimitFillOrKill(e))
    case Cancel => true
    case Modify => e.newPrice <= 0 || minPrice <= e.newPrice <= maxPrice
  }

  /**
   In particular on a ladder of positive prices, for every history of such events whose quantities
   add up to at most 2^63 - 1.
   */
  lemma {:induction false} PlainHistoriesAgree(es: seq<Event>, minPrice: Price, maxPrice: Price)
    requires 0 < minPrice <= maxPrice && TotalOffered(es) <= MAX_INT64
    requires forall k :: 0 <= k < |es| ==> Plain(minPrice, maxPrice, es[k])
    ensures AgreesThroughout(es, minPrice, maxPrice)
  {
    hide OnRungs, Run, OverflowAgrees, Unsafe, SumQty, Recounted, Depth, HasId;
    if es != [] {
      var before, e := es[..|es| - 1], es[|es| - 1];
      assert forall k :: 0 <= k < |before| ==> before[k] == es[k];
      PlainHistoriesAgree(before, minPrice, maxPrice);
      LadderRunIsRun(before, minPrice, maxPrice);
      LadderRunKeepsRungs(before, minPrice, maxPrice);
      RunRoom(before);
      assert Plain(minPrice, maxPrice, e);
      if e.kind != Cancel {
        RoomIsEnough(Run(before), minPrice, maxPrice, e);
      }
    }
  }
}
