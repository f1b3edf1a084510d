/** What the engine's rules promise about one event and about a whole history. */
module Laws {
  import opened Types
  import opened Reference
  import opened Matching
  import opened Invariants
  import opened OrderIndex

  ghost function After(st: State, e: Event): State {
    Step(st, e).state
  }

  // ---- Steps under any verdict

  lemma {:induction false} StepFollowsVerdict(st: State, e: Event)
    ensures Step(st, e) == StepWith(st, e, ReferenceError(st, e))
    ensures Step(st, e).error == ReferenceError(st, e)
  {
    hide HasId, Crossing, LevelQty, Match, Insert, Without;
  }

  lemma {:induction false} OutcomeCarriesVerdict(st: State, e: Event, error: BookError)
    requires e.kind != Cancel
    ensures StepWith(st, e, error).error == error
  {
    hide HasId, Match, Insert, Without;
  }

  /**
   What every set of checks must see to: an accepted quantity is positive, an added id is new and a
   modified one rests.
   */
  predicate Sensible(st: State, e: Event, error: BookError) {
    error == NoError ==>
      match e.kind
      case Add => e.qty > 0 && !Contains(st, e.id)
      case Cancel => true
      case Modify => e.newQty > 0 && Contains(st, e.id)
  }

  lemma {:induction false} ReferenceIsSensible(st: State, e: Event)
    ensures Sensible(st, e, ReferenceError(st, e))
  {
    hide HasId, Crossing, LevelQty, Without;
  }

  /** A refused event, whatever the reason, changes the request and rejection counters and nothing else. */
  lemma {:induction false} RefusalIsAtomic(st: State, e: Event, error: BookError)
    requires StepWith(st, e, error).error != NoError
    ensures var r, c := StepWith(st, e, error), st.stats; var s := r.state;
            && s.bids == st.bids && s.asks == st.asks && r.trades == []
            && s.stats.trades == c.trades && s.stats.tradedQty == c.tradedQty
            && s.stats.rejectedRequests == c.rejectedRequests + 1
            && s.stats.addRequests + s.stats.cancelRequests + s.stats.modifyRequests
               == c.addRequests + c.cancelRequests + c.modifyRequests + 1
  {
    hide HasId, Without, Match, Insert;
  }

  lemma {:induction false} RejectionIsAtomic(st: State, e: Event)
    requires Step(st, e).error != NoError
    ensures var s, c := After(st, e), st.stats;
            && s.bids == st.bids && s.asks == st.asks && Step(st, e).trades == []
            && s.stats.trades == c.trades && s.stats.tradedQty == c.tradedQty
            && s.stats.rejectedRequests == c.rejectedRequests + 1
            && s.stats.addRequests + s.stats.cancelRequests + s.stats.modifyRequests
               == c.addRequests + c.cancelRequests + c.modifyRequests + 1
  {
    hide Step, StepWith;
    StepFollowsVerdict(st, e);
    RefusalIsAtomic(st, e, ReferenceError(st, e));
  }

  // ---- Policies

  /** An accepted limit fill-or-kill order trades exactly its quantity; a refused one lacked liquidity. */
  lemma {:induction false} FillOrKillIsAllOrNothing(st: State, e: Event)
    requires Inv(st) && e.kind == Add && e.orderType == Limit && e.timeInForce == FillOrKill
    ensures Step(st, e).error == NoError ==>
              TradedQty(Step(st, e).trades) == e.qty && After(st, e).Orders(e.side) == st.Orders(e.side)
    ensures Step(st, e).error == InsufficientLiquidity ==> CrossingOf(st, e.side, e.price, e.qty) < e.qty
  {
    hide Inv, HasId, Crossing, LevelQty, Match, Insert;
    InvFacts(st, e.side);
    if Step(st, e).error == NoError {
      CrossingIsExact(st.Orders(e.side.Opposite()), e.id, e.side, e.price, e.qty);
    }
  }

  /** A market order is immediate whatever time in force it carries, so it may fill in part. */
  lemma {:induction false} MarketIgnoresTimeInForce(st: State, e: Event, t: TimeInForce)
    requires e.kind == Add && e.orderType == Market
    ensures Step(st, e) == Step(st, e.(timeInForce := t))
  {
    hide HasId, Crossing, LevelQty, Match, Insert;
  }

  lemma {:induction false} MarketTakesWhatThereIs(st: State, e: Event)
    requires Inv(st) && e.kind == Add && e.orderType == Market && Step(st, e).error == NoError
    ensures TradedQty(Step(st, e).trades) == Min(e.qty, SumQty(st.Orders(e.side.Opposite())))
  {
    hide Inv, HasId, Crossing, LevelQty, Match, Insert, Depth, SumQty;
    var q := st.Orders(e.side.Opposite());
    InvFacts(st, e.side);
    CrossingIsExact(q, e.id, e.side, LimitOf(e), e.qty);
    CrossingIsCappedDepth(q, e.side, LimitOf(e), e.qty);
    DepthOfAll(q, e.side, LimitOf(e));
  }

  /** An accepted fill-or-kill add fills whole exactly when it is a limit order or the other side has enough. */
  lemma {:induction false} FillOrKillFillsIff(st: State, e: Event)
    requires Inv(st) && e.kind == Add && e.timeInForce == FillOrKill && Step(st, e).error == NoError
    ensures TradedQty(Step(st, e).trades) == e.qty
            <==> e.orderType == Limit || SumQty(st.Orders(e.side.Opposite())) >= e.qty
  {
    hide Inv, Step, SumQty, TradedQty;
    if e.orderType == Limit {
      FillOrKillIsAllOrNothing(st, e);
    } else {
      MarketTakesWhatThereIs(st, e);
    }
  }

  /** A market fill-or-kill that meets an empty side is accepted and trades nothing. */
  lemma {:induction false} MarketFillOrKillMayTradeNothing(id: OrderId, side: Side, qty: Quantity) returns (e: Event)
    requires qty > 0
    ensures e.kind == Add && e.orderType == Market && e.timeInForce == FillOrKill && e.qty == qty
    ensures Step(EMPTY, e).error == NoError && Step(EMPTY, e).trades == []
  {
    e := Event(Add, id, side, 0, qty, Market, FillOrKill, false, 0, 0, 0);
  }

  /** An add let through when nothing crosses trades nothing. */
  lemma {:induction false} UncrossedTradesNothing(st: State, e: Event)
    requires Inv(st) && e.kind == Add && CrossingOf(st, e.side, LimitOf(e), e.qty) == 0
    ensures var r := AddWith(st, e, NoError);
            r.trades == [] && r.state.Orders(e.side.Opposite()) == st.Orders(e.side.Opposite())
  {
    hide Inv, Insert, Match, Crossing;
    InvFacts(st, e.side);
    NoCrossingNoMatch(st.Orders(e.side.Opposite()), e.id, e.side, LimitOf(e), e.qty);
  }

  lemma {:induction false} PostOnlyNeverTrades(st: State, e: Event)
    requires Inv(st) && e.kind == Add && e.postOnly && Step(st, e).error == NoError
    ensures Step(st, e).trades == [] && After(st, e).Orders(e.side.Opposite()) == st.Orders(e.side.Opposite())
  {
    hide Inv, HasId, Insert, LevelQty, Match, Crossing, AddWith;
    StepFollowsVerdict(st, e);
    UncrossedTradesNothing(st, e);
  }

  lemma {:induction false} NoCrossingNoMatch(q: seq<Order>, id: OrderId, side: Side, price: int, qty: int)
    requires Positive(q) && Crossing(q, side, price, qty) == 0
    ensures Match(q, id, side, price, qty) == Matched(q, [], qty)
  {
    if qty > 0 && q != [] && Crosses(side, price, q[0].price) {
      CrossingIsExact(q[1..], id, side, price, qty - Min(qty, q[0].qty));
    }
  }

  /** An add that may not rest, once let through, leaves its own side alone and its id out of the book. */
  lemma {:induction false} ImmediateLeavesNoOrder(st: State, e: Event)
    requires Inv(st) && e.kind == Add && !CanRest(e) && e.qty >= 0 && !Contains(st, e.id)
    ensures var s := AddWith(st, e, NoError).state;
            !Contains(s, e.id) && s.Orders(e.side) == st.Orders(e.side)
  {
    hide Match, Insert, Crossing;
    var opposite := e.side.Opposite();
    var q := st.Orders(opposite);
    var at := MatchEmbeds(opposite, q, e.id, LimitOf(e), e.qty);
    EmbedKeepsPair(Match(q, e.id, e.side, LimitOf(e), e.qty).rest, q, at, st.Orders(e.side));
  }

  /** Market, immediate-or-cancel and fill-or-kill orders never rest. */
  lemma {:induction false} ImmediateOrdersNeverRest(st: State, e: Event)
    requires Inv(st) && e.kind == Add && (e.orderType == Market || e.timeInForce != GoodTilCancel)
    requires Step(st, e).error == NoError
    ensures !Contains(After(st, e), e.id)
    ensures After(st, e).Orders(e.side) == st.Orders(e.side)
  {
    hide Inv, HasId, Insert, LevelQty, Match, Crossing, AddWith;
    StepFollowsVerdict(st, e);
    ImmediateLeavesNoOrder(st, e);
  }

  /** A remainder rests behind every order at its price and before every worse price. */
  ghost predicate LastAtItsPrice(q: seq<Order>, o: Order) {
    exists k :: 0 <= k < |q| && q[k] == o
      && (forall i :: 0 <= i < k ==> !Better(o.side, o.price, q[i].price))
      && (forall i :: k < i < |q| ==> Better(o.side, o.price, q[i].price))
  }

  lemma {:induction false} InsertedLast(q: seq<Order>, o: Order)
    requires Sorted(o.side, q)
    ensures LastAtItsPrice(Insert(q, o), o)
  {
    InsertSplits(q, o);
    var k := InsertAt(q, o);
    var r := Insert(q, o);
    assert r[k] == o;
    forall i | k < i < |r| ensures Better(o.side, o.price, r[i].price) {
      assert r[i] == q[i - 1];
      assert i - 1 > k ==> !Better(o.side, q[i - 1].price, q[k].price);
    }
  }

  /** An accepted modify gives up its queue position: what is left of it comes last at the new price. */
  lemma {:induction false} ModifyLosesPriority(st: State, e: Event)
    requires Inv(st) && e.kind == Modify && Step(st, e).error == NoError
    ensures var side := SideOf(st, e.id);
            var left := e.newQty - TradedQty(Step(st, e).trades);
            left > 0 ==> LastAtItsPrice(After(st, e).Orders(side), Order(e.id, side, e.newPrice, left))
  {
    hide Inv, HasId, Insert, LevelQty, Match, Without, LastAtItsPrice;
    var side := SideOf(st, e.id);
    InvIgnoresCounts(st, CountModify(st));
    RemovedKeepsInv(CountModify(st), e.id);
    var removed := Removed(CountModify(st), e.id);
    InvFacts(removed, side);
    CrossingIsExact(removed.Orders(side.Opposite()), e.id, side, e.newPrice, e.newQty);
    var left := e.newQty - TradedQty(Step(st, e).trades);
    if left > 0 {
      assert Sorted(side, removed.Orders(side)) by {
        SortedSide(removed, side);
      }
      InsertedLast(removed.Orders(side), Order(e.id, side, e.newPrice, left));
    }
  }

  lemma {:induction false} SortedSide(st: State, side: Side)
    requires Inv(st)
    ensures Sorted(side, st.Orders(side))
  {
  }

  /** The trades of an accepted add are the price-time fill of the opposite queue as it was. */
  lemma {:induction false} AddTradesByPriority(st: State, e: Event)
    requires Inv(st) && e.kind == Add && Step(st, e).error == NoError
    ensures var opposite := e.side.Opposite();
            var trades := Step(st, e).trades;
            ByPriority(st.Orders(opposite), e.id, e.side, LimitOf(e), e.qty,
                       Matched(After(st, e).Orders(opposite), trades, e.qty - TradedQty(trades)))
  {
    hide Inv, HasId, Insert, LevelQty, Match, ByPriority, Crossing;
    var q := st.Orders(e.side.Opposite());
    InvFacts(st, e.side);
    CrossingIsExact(q, e.id, e.side, LimitOf(e), e.qty);
    MatchIffPriceTimeFill(q, e.id, e.side, LimitOf(e), e.qty, Match(q, e.id, e.side, LimitOf(e), e.qty));
  }

  /** So are the trades of an accepted modify; the order it replaces rests on the other side. */
  lemma {:induction false} ModifyTradesByPriority(st: State, e: Event)
    requires Inv(st) && e.kind == Modify && Step(st, e).error == NoError
    ensures var side, trades := SideOf(st, e.id), Step(st, e).trades;
            ByPriority(st.Orders(side.Opposite()), e.id, side, e.newPrice, e.newQty,
                       Matched(After(st, e).Orders(side.Opposite()), trades, e.newQty - TradedQty(trades)))
  {
    hide Inv, HasId, Insert, LevelQty, Match, ByPriority, Crossing, Without;
    var side := SideOf(st, e.id);
    var q := st.Orders(side.Opposite());
    InvFacts(st, side);
    CrossingIsExact(q, e.id, side, e.newPrice, e.newQty);
    MatchIffPriceTimeFill(q, e.id, side, e.newPrice, e.newQty, Match(q, e.id, side, e.newPrice, e.newQty));
  }

  // ---- The quantity ledger

  function Resting(st: State): int {
    SumQty(st.bids) + SumQty(st.asks)
  }

  /** Quantity an event brings in: the size of an accepted add or modify. */
  function Inflow(e: Event, r: Outcome): int {
    if r.error != NoError then 0
    else match e.kind case Add => e.qty case Cancel => 0 case Modify => e.newQty
  }

  /** Quantity of the resting order that an accepted cancel or modify takes out. */
  function Withdrawn(st: State, e: Event, r: Outcome): int {
    if e.kind == Add || r.error != NoError then 0
    else QtyOf(st.Orders(SideOf(st, e.id)), e.id)
  }

  function QtyOf(q: seq<Order>, id: OrderId): int {
    if q == [] then 0 else if q[0].id == id then q[0].qty else QtyOf(q[1..], id)
  }

  /** The untraded part of an accepted order that may not rest. */
  function Dropped(e: Event, r: Outcome): int {
    if e.kind == Add && r.error == NoError && (e.orderType == Market || e.timeInForce != GoodTilCancel)
    then e.qty - TradedQty(r.trades)
    else 0
  }

  lemma {:induction false} SumQtyInsert(q: seq<Order>, o: Order)
    ensures SumQty(Insert(q, o)) == SumQty(q) + o.qty
  {
    if q == [] || Better(o.side, o.price, q[0].price) {
      assert Insert(q, o)[1..] == q;
    } else {
      SumQtyInsert(q[1..], o);
      assert Insert(q, o)[1..] == Insert(q[1..], o);
    }
  }

  lemma {:induction false} SumQtyWithout(q: seq<Order>, id: OrderId)
    ensures SumQty(Without(q, id)) == SumQty(q) - QtyOf(q, id)
  {
    if q != [] && q[0].id != id {
      SumQtyWithout(q[1..], id);
      assert Without(q, id)[1..] == Without(q[1..], id);
    }
  }

  lemma {:induction false} ExecuteBalances(st: State, id: OrderId, side: Side, price: Price, qty: Quantity, rests: bool)
    requires Inv(st) && qty > 0
    ensures var r := Execute(st, id, side, price, qty, rests);
            && Resting(r.state) == Resting(st) - TradedQty(r.trades)
                                   + (if rests then qty - TradedQty(r.trades) else 0)
            && r.state.stats.tradedQty == st.stats.tradedQty + TradedQty(r.trades)
            && r.state.stats.trades == st.stats.trades + |r.trades|
  {
    hide Inv, Match, Insert, SumQty, TradedQty, Crossing;
    var q := st.Orders(side.Opposite());
    InvFacts(st, side);
    var m := Match(q, id, side, price, qty);
    CrossingIsExact(q, id, side, price, qty);
    MatchConserves(q, id, side, price, qty);
    SumQtyInsert(st.Orders(side), Order(id, side, price, m.remaining));
  }

  /** Under any sensible verdict quantity comes in, trades on both sides, rests, or is withdrawn or dropped. */
  lemma {:induction false} StepWithBalances(st: State, e: Event, error: BookError)
    requires Inv(st) && Sensible(st, e, error)
    ensures var r := StepWith(st, e, error);
            && Inflow(e, r) == Resting(r.state) - Resting(st) + 2 * TradedQty(r.trades)
                               + Withdrawn(st, e, r) + Dropped(e, r)
            && r.state.stats.tradedQty == st.stats.tradedQty + TradedQty(r.trades)
            && r.state.stats.trades == st.stats.trades + |r.trades|
  {
    hide Inv, Match, Insert, SumQty, Crossing, HasId, Without, QtyOf, Execute;
    match e.kind {
      case Add =>
        if error == NoError {
          InvIgnoresCounts(st, CountAdd(st));
          ExecuteBalances(CountAdd(st), e.id, e.side, LimitOf(e), e.qty, CanRest(e));
          ExecuteAccepts(CountAdd(st), e.id, e.side, LimitOf(e), e.qty, CanRest(e));
        }
      case Cancel =>
        SumQtyWithout(st.Orders(SideOf(st, e.id)), e.id);
      case Modify =>
        if error == NoError {
          var side := SideOf(st, e.id);
          InvIgnoresCounts(st, CountModify(st));
          RemovedKeepsInv(CountModify(st), e.id);
          SumQtyWithout(st.Orders(side), e.id);
          ExecuteBalances(Removed(CountModify(st), e.id), e.id, side, e.newPrice, e.newQty, true);
          ExecuteAccepts(Removed(CountModify(st), e.id), e.id, side, e.newPrice, e.newQty, true);
        }
    }
  }

  lemma {:induction false} StepBalances(st: State, e: Event)
    requires Inv(st)
    ensures var r := Step(st, e);
            && Inflow(e, r) == Resting(r.state) - Resting(st) + 2 * TradedQty(r.trades)
                               + Withdrawn(st, e, r) + Dropped(e, r)
            && r.state.stats.tradedQty == st.stats.tradedQty + TradedQty(r.trades)
            && r.state.stats.trades == st.stats.trades + |r.trades|
  {
    hide Inv, Step, StepWith, Sensible, Resting, TradedQty, Withdrawn;
    StepFollowsVerdict(st, e);
    ReferenceIsSensible(st, e);
    StepWithBalances(st, e, ReferenceError(st, e));
  }

  lemma {:induction false} ExecuteAccepts(st: State, id: OrderId, side: Side, price: Price, qty: Quantity, rests: bool)
    ensures Execute(st, id, side, price, qty, rests).error == NoError
  {
  }

  datatype Ledger = Ledger(inflow: int, withdrawn: int, dropped: int)

  const NO_LEDGER := Ledger(0, 0, 0)

  /** The ledger after one more event. */
  function Entered(l: Ledger, st: State, e: Event, r: Outcome): Ledger {
    Ledger(l.inflow + Inflow(e, r), l.withdrawn + Withdrawn(st, e, r), l.dropped + Dropped(e, r))
  }

  /** Everything accepted is at rest, traded, withdrawn or dropped, and the trade counters match the trades. */
  predicate Balanced(l: Ledger, st: State, trades: seq<Trade>) {
    && l.inflow == Resting(st) + 2 * st.stats.tradedQty + l.withdrawn + l.dropped
    && st.stats.tradedQty == TradedQty(trades) && st.stats.trades == |trades|
  }

  lemma {:induction false} StepKeepsBalance(l: Ledger, st: State, trades: seq<Trade>, e: Event, error: BookError)
    requires Inv(st) && Sensible(st, e, error) && Balanced(l, st, trades)
    ensures var r := StepWith(st, e, error); Balanced(Entered(l, st, e, r), r.state, trades + r.trades)
  {
    hide Inv, StepWith, Sensible, Resting, TradedQty, Withdrawn, Inflow, Dropped;
    StepWithBalances(st, e, error);
    TradedQtyAppend(trades, StepWith(st, e, error).trades);
  }

  function RunLedger(es: seq<Event>): Ledger {
    if es == [] then NO_LEDGER
    else
      var st, e := Run(es[..|es| - 1]), es[|es| - 1];
      Entered(RunLedger(es[..|es| - 1]), st, e, Step(st, e))
  }

  lemma {:induction false} EmptyBalances()
    ensures Balanced(NO_LEDGER, EMPTY, [])
  {
  }

  /** No quantity appears or vanishes over any history; each trade uses up a unit on both sides. */
  lemma {:induction false} LedgerBalances(es: seq<Event>)
    ensures Balanced(RunLedger(es), Run(es), RunTrades(es))
  {
    hide Inv, Step, StepWith, Entered, Balanced, Sensible;
    if es == [] {
      EmptyBalances();
    } else {
      var before, e := es[..|es| - 1], es[|es| - 1];
      var st := Run(before);
      RunKeepsInv(before);
      LedgerBalances(before);
      StepFollowsVerdict(st, e);
      ReferenceIsSensible(st, e);
      StepKeepsBalance(RunLedger(before), st, RunTrades(before), e, ReferenceError(st, e));
    }
  }

  // ---- Prices

  ghost predicate PricesWithin(st: State, lo: int, hi: int) {
    && (forall i :: 0 <= i < |st.bids| ==> lo <= st.bids[i].price <= hi)
    && (forall i :: 0 <= i < |st.asks| ==> lo <= st.asks[i].price <= hi)
  }

  lemma {:induction false} TailKeepsPrices(rest: seq<Order>, q: seq<Order>, lo: int, hi: int)
    requires TailOf(rest, q) && forall i :: 0 <= i < |q| ==> lo <= q[i].price <= hi
    ensures forall i :: 0 <= i < |rest| ==> lo <= rest[i].price <= hi
  {
    var tail := q[|q| - |rest|..];
    forall i | 0 <= i < |rest| ensures rest[i].price == tail[i].price {
      assert i > 0 ==> rest[i] == rest[1..][i - 1] == tail[1..][i - 1];
    }
  }

  lemma {:induction false} InsertKeepsPrices(q: seq<Order>, o: Order, lo: int, hi: int)
    requires lo <= o.price <= hi && forall i :: 0 <= i < |q| ==> lo <= q[i].price <= hi
    ensures forall i :: 0 <= i < |Insert(q, o)| ==> lo <= Insert(q, o)[i].price <= hi
  {
    hide Insert;
    InsertSplits(q, o);
  }

  lemma {:induction false} ExecuteKeepsPrices(st: State, id: OrderId, side: Side, price: Price, qty: Quantity,
                                              rests: bool, lo: int, hi: int)
    requires Inv(st) && PricesWithin(st, lo, hi) && qty >= 0 && (rests ==> lo <= price <= hi)
    ensures PricesWithin(Execute(st, id, side, price, qty, rests).state, lo, hi)
  {
    hide Inv, Match, Insert, TailOf, Positive, AllDistinct;
    var opposite := side.Opposite();
    InvFacts(st, side);
    var q := st.Orders(opposite);
    var m := Match(q, id, side, price, qty);
    MatchLeavesTail(q, id, side, price, qty);
    TailKeepsPrices(m.rest, q, lo, hi);
    if rests {
      InsertKeepsPrices(st.Orders(side), Order(id, side, price, m.remaining), lo, hi);
    }
  }

  lemma {:induction false} RemovedKeepsPrices(st: State, id: OrderId, lo: int, hi: int)
    requires PricesWithin(st, lo, hi)
    ensures PricesWithin(Removed(st, id), lo, hi)
  {
    var q := st.Orders(SideOf(st, id));
    if HasId(q, id) {
      var k := WithoutPositions(q, id);
    } else {
      WithoutMissing(q, id);
    }
  }

  /** An add or modify keeps the prices of the book in any range that its own resting price is in. */
  lemma {:induction false} AddKeepsPrices(st: State, e: Event, error: BookError, lo: int, hi: int)
    requires Inv(st) && PricesWithin(st, lo, hi)
    requires error == NoError ==> e.qty >= 0 && (CanRest(e) ==> lo <= e.price <= hi)
    ensures PricesWithin(AddWith(st, e, error).state, lo, hi)
  {
    hide Inv, Execute;
    InvIgnoresCounts(st, CountAdd(st));
    if error == NoError {
      ExecuteKeepsPrices(CountAdd(st), e.id, e.side, LimitOf(e), e.qty, CanRest(e), lo, hi);
    }
  }

  lemma {:induction false} ModifyKeepsPrices(st: State, e: Event, error: BookError, lo: int, hi: int)
    requires Inv(st) && PricesWithin(st, lo, hi)
    requires error == NoError ==> e.newQty >= 0 && lo <= e.newPrice <= hi
    ensures PricesWithin(ModifyWith(st, e, error).state, lo, hi)
  {
    hide Inv, Execute, HasId, Without;
    InvIgnoresCounts(st, CountModify(st));
    if error == NoError {
      RemovedKeepsInv(CountModify(st), e.id);
      RemovedKeepsPrices(CountModify(st), e.id, lo, hi);
      ExecuteKeepsPrices(Removed(CountModify(st), e.id), e.id, SideOf(st, e.id), e.newPrice, e.newQty, true, lo, hi);
    }
  }

  /** Every order of a reachable book has a positive price. */
  lemma {:induction false} RunKeepsPrices(es: seq<Event>)
    ensures PricesWithin(Run(es), 1, MAX_INT64)
  {
    if es != [] {
      var st, e := Run(es[..|es| - 1]), es[|es| - 1];
      RunKeepsPrices(es[..|es| - 1]);
      RunKeepsInv(es[..|es| - 1]);
      hide Inv, AddWith, ModifyWith, HasId, Crossing, LevelQty, Run, Without;
      match e.kind {
        case Add => AddKeepsPrices(st, e, AddError(st, e), 1, MAX_INT64);
        case Cancel => RemovedKeepsPrices(CountCancel(st), e.id, 1, MAX_INT64);
        case Modify => ModifyKeepsPrices(st, e, ModifyError(st, e), 1, MAX_INT64);
      }
    }
  }

  // ---- Counters

  function KindCount(es: seq<Event>, kind: EventType): nat {
    if es == [] then 0
    else KindCount(es[..|es| - 1], kind) + if es[|es| - 1].kind == kind then 1 else 0
  }

  /** How many events of a history are refused. */
  function RefusalCount(es: seq<Event>): nat {
    if es == [] then 0
    else RefusalCount(es[..|es| - 1]) + if Step(Run(es[..|es| - 1]), es[|es| - 1]).error != NoError then 1 else 0
  }

  lemma {:induction false} StepWithCounts(st: State, e: Event, error: BookError)
    ensures var r, c := StepWith(st, e, error), st.stats; var s := r.state.stats;
            && s.addRequests == c.addRequests + (if e.kind == Add then 1 else 0)
            && s.cancelRequests == c.cancelRequests + (if e.kind == Cancel then 1 else 0)
            && s.modifyRequests == c.modifyRequests + (if e.kind == Modify then 1 else 0)
            && s.rejectedRequests == c.rejectedRequests + (if r.error != NoError then 1 else 0)
  {
    hide HasId, Without, Match, Insert;
  }

  /** Every request is counted once under its kind, and once more exactly when it is refused. */
  lemma {:induction false} RunCounts(es: seq<Event>)
    ensures var s := Run(es).stats;
            && s.addRequests == KindCount(es, Add) && s.cancelRequests == KindCount(es, Cancel)
            && s.modifyRequests == KindCount(es, Modify) && s.rejectedRequests == RefusalCount(es)
  {
    hide Step, StepWith;
    if es != [] {
      var st, e := Run(es[..|es| - 1]), es[|es| - 1];
      RunCounts(es[..|es| - 1]);
      StepFollowsVerdict(st, e);
      StepWithCounts(st, e, ReferenceError(st, e));
    }
  }
}
