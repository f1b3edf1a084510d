/**
 Where the ladder agrees with the reference, where it does not, and exactly why. Everything is
 stated on books: `OnRungs` holds of the book of every sound ladder.
 */
module LadderLaws {
  import opened Types
  import opened Reference
  import opened Matching
  import opened Invariants
  import opened OrderIndex
  import opened Bitmap
  import opened RungRecount
  import opened LadderSpec
  import opened Laws
  import opened Rules

  // ---- The conditions of agreement

  predicate LimitFillOrKill(e: Event) {
    e.kind == Add && e.orderType == Limit && e.timeInForce == FillOrKill
  }

  /** The range check and the positivity check give the same answer on the event's price. */
  predicate PricesAgree(st: State, minPrice: Price, maxPrice: Price, e: Event) {
    match e.kind
    case Add => e.orderType == Market || (minPrice <= e.price <= maxPrice <==> e.price > 0)
    case Cancel => true
    case Modify => !Contains(st, e.id) || (minPrice <= e.newPrice <= maxPrice <==> e.newPrice > 0)
  }

  /** An add that gets as far as the liquidity check. */
  predicate ReachesLiquidity(st: State, minPrice: Price, maxPrice: Price, e: Event) {
    && e.kind == Add && e.qty > 0 && !Contains(st, e.id)
    && (if e.orderType == Market then !e.postOnly else minPrice <= e.price <= maxPrice)
  }

  /**
   A limit fill-or-kill that gets as far as the liquidity check is judged rightly when its quantity
   does not fall between what the ladder counts and the true depth.
   */
  predicate LiquidityAgrees(st: State, minPrice: Price, maxPrice: Price, e: Event) {
    LimitFillOrKill(e) && ReachesLiquidity(st, minPrice, maxPrice, e) ==>
      var recounted, depth := Recounted(st, minPrice, maxPrice, e.price), Depth(st.bids, Ask, e.price);
      !(recounted < e.qty <= depth) && !(depth < e.qty <= recounted)
  }

  /** What the ladder counts as crossing, and what does cross. */
  function CountedFor(st: State, minPrice: Price, maxPrice: Price, e: Event): int {
    Counted(st, minPrice, maxPrice, EventSide(st, e), EventLimit(minPrice, maxPrice, e), EventQty(e))
  }

  function CrossingFor(st: State, minPrice: Price, maxPrice: Price, e: Event): int {
    CrossingOf(st, EventSide(st, e), EventLimit(minPrice, maxPrice, e), EventQty(e))
  }

  /** What the order's own side holds at the price a remainder would rest at. */
  function OwnLevel(st: State, e: Event): int {
    if e.kind == Add then LevelQty(st.Orders(e.side), e.price)
    else LevelQty(Without(st.Orders(SideOf(st, e.id)), e.id), e.newPrice)
  }

  /** An event every check of the ladder before the overflow check lets through. */
  predicate PassesChecks(st: State, minPrice: Price, maxPrice: Price, e: Event) {
    match e.kind
    case Add =>
      && ReachesLiquidity(st, minPrice, maxPrice, e)
      && (LimitFillOrKill(e) ==> e.qty <= CountedFor(st, minPrice, maxPrice, e))
      && (e.postOnly ==> CountedFor(st, minPrice, maxPrice, e) == 0)
    case Cancel => false
    case Modify => Contains(st, e.id) && minPrice <= e.newPrice <= maxPrice && e.newQty > 0
  }

  /** The overflow check, for a given level total and crossing quantity. */
  predicate TooLarge(st: State, e: Event, level: int, crossing: int) {
    || AddWouldOverflow(st.stats.tradedQty, crossing)
    || ((e.kind == Modify || CanRest(e)) && AddWouldOverflow(level, EventQty(e) - crossing))
  }

  /**
   An event that gets as far as the overflow check is judged alike there on the slot total and the
   counted quantity as on its own side's level and the true crossing quantity.
   */
  predicate OverflowAgrees(st: State, minPrice: Price, maxPrice: Price, e: Event) {
    PassesChecks(st, minPrice, maxPrice, e) ==>
      (TooLarge(st, e, LevelSeen(st, minPrice, maxPrice, e), CountedFor(st, minPrice, maxPrice, e))
       <==> TooLarge(st, e, OwnLevel(st, e), CrossingFor(st, minPrice, maxPrice, e)))
  }

  // ---- Depth

  /** What rests exactly at the limit is part of the depth. */
  lemma {:induction false} DepthCoversLevel(q: seq<Order>, side: Side, price: int)
    requires Positive(q) && Sorted(side.Opposite(), q)
    ensures LevelQty(q, price) <= Depth(q, side, price)
    decreases |q|
  {
    if q != [] {
      if Crosses(side, price, q[0].price) {
        assert Sorted(side.Opposite(), q[1..]);
        DepthCoversLevel(q[1..], side, price);
      } else {
        NothingAt(side, q, price);
      }
    }
  }

  lemma {:induction false} NothingAt(side: Side, q: seq<Order>, price: int)
    requires Sorted(side.Opposite(), q) && q != [] && !Crosses(side, price, q[0].price)
    ensures LevelQty(q, price) == 0
  {
    forall i | 0 <= i < |q| ensures q[i].price != price {
      assert i > 0 ==> !Better(side.Opposite(), q[i].price, q[0].price);
    }
    LevelQtyNone(q, price);
  }

  lemma {:induction false} LevelQtyNone(q: seq<Order>, price: int)
    requires forall i :: 0 <= i < |q| ==> q[i].price != price
    ensures LevelQty(q, price) == 0
  {
    if q != [] {
      LevelQtyNone(q[1..], price);
    }
  }

  lemma {:induction false} LevelQtySome(q: seq<Order>, price: int) returns (i: nat)
    requires LevelQty(q, price) != 0
    ensures i < |q| && q[i].price == price
  {
    if q[0].price == price {
      i := 0;
    } else {
      i := LevelQtySome(q[1..], price);
      i := i + 1;
    }
  }

  /** The true crossing quantity of an event, as the smaller of its quantity and the depth. */
  lemma {:induction false} CrossingForIsCappedDepth(st: State, minPrice: Price, maxPrice: Price, e: Event)
    requires Inv(st) && EventQty(e) >= 0
    ensures var side := EventSide(st, e);
            CrossingFor(st, minPrice, maxPrice, e)
            == Min(EventQty(e), Depth(st.Orders(side.Opposite()), side, EventLimit(minPrice, maxPrice, e)))
    ensures 0 <= CrossingFor(st, minPrice, maxPrice, e) <= EventQty(e)
  {
    hide Inv, Crossing, Depth, SideOf, EventLimit;
    var side := EventSide(st, e);
    InvFacts(st, side);
    CrossingIsCappedDepth(st.Orders(side.Opposite()), side, EventLimit(minPrice, maxPrice, e), EventQty(e));
  }

  // ---- The shared price slot

  /** One side at most rests at any price, so the shared slot never mixes the two. */
  lemma {:induction false} SlotHoldsOneSide(st: State, price: Price)
    requires Inv(st)
    ensures LevelQty(st.bids, price) == 0 || LevelQty(st.asks, price) == 0
    ensures 0 <= LevelQty(st.bids, price) && 0 <= LevelQty(st.asks, price)
  {
    InvFacts(st, Bid);
    hide LevelQty;
    LevelQtyBounds(st.bids, price);
    LevelQtyBounds(st.asks, price);
    if LevelQty(st.bids, price) != 0 && LevelQty(st.asks, price) != 0 {
      var i := LevelQtySome(st.bids, price);
      var j := LevelQtySome(st.asks, price);
      assert false;
    }
  }

  predicate SameOverflow(a: int, b: int, right: int) {
    AddWouldOverflow(a, right) <==> AddWouldOverflow(b, right)
  }

  /**
   For the true crossing quantity the shared total decides as the order's own side would: whatever
   the other side has at this price is already part of what the order crosses.
   */
  lemma {:induction false} SlotDecidesAlike(st: State, minPrice: Price, maxPrice: Price, side: Side, price: Price,
                                            qty: Quantity, own: int)
    requires Inv(st) && minPrice <= price <= maxPrice && qty >= 0
    requires 0 <= own <= LevelQty(st.Orders(side), price)
    ensures var crossing := CrossingOf(st, side, price, qty);
            SameOverflow(SlotSeen(st, minPrice, maxPrice, price) - own, LevelQty(st.Orders(side), price) - own,
                         qty - crossing)
  {
    hide Inv, LevelQty, Crossing, Depth;
    var q := st.Orders(side.Opposite());
    SlotHoldsOneSide(st, price);
    InvFacts(st, side);
    SortedSide(st, side.Opposite());
    CrossingIsCappedDepth(q, side, price, qty);
    DepthCoversLevel(q, side, price);
  }

  lemma {:induction false} OwnAtBounds(st: State, id: OrderId, price: Price)
    requires Inv(st)
    ensures var q := st.Orders(SideOf(st, id));
            && 0 <= OwnAt(st, id, price) <= LevelQty(q, price)
            && LevelQty(q, price) - OwnAt(st, id, price) == LevelQty(Without(q, id), price)
  {
    hide Inv, LevelQty, Without;
    var side := SideOf(st, id);
    InvFacts(st, side);
    RemovedKeepsInv(st, id);
    InvFacts(Removed(st, id), side);
    LevelQtyWithout(st.Orders(side), id, price);
    LevelQtyBounds(Without(st.Orders(side), id), price);
  }

  // ---- The sell scan

  /** The rungs of a bid queue: nothing above its first order, something at it. */
  lemma {:induction false} TopRung(st: State, minPrice: Price, maxPrice: Price)
    requires OnRungs(st, minPrice, maxPrice)
    ensures var rungs := Rungs(st.bids, minPrice, RungCount(minPrice, maxPrice));
            if st.bids == [] then forall j :: 0 <= j < |rungs| ==> rungs[j] == 0
            else
              var top := st.bids[0].price - minPrice;
              && 0 <= top < |rungs| && rungs[top] > 0
              && forall j :: top < j < |rungs| ==> rungs[j] == 0
  {
    var rungs := Rungs(st.bids, minPrice, RungCount(minPrice, maxPrice));
    SortedSide(st, Bid);
    InvFacts(st, Bid);
    if st.bids != [] {
      var top := st.bids[0].price - minPrice;
      LevelQtyBounds(st.bids[1..], st.bids[0].price);
      forall j | top < j < |rungs| ensures rungs[j] == 0 {
        forall i | 0 <= i < |st.bids| ensures st.bids[i].price != minPrice + j {
          assert i > 0 ==> !Better(Bid, st.bids[i].price, st.bids[0].price);
        }
        LevelQtyNone(st.bids, minPrice + j);
      }
    }
  }

  /** Post-only needs no more than this: the recount is non-zero exactly when the best bid crosses. */
  lemma {:induction false} RecountSeesBest(st: State, minPrice: Price, maxPrice: Price, price: Price)
    requires OnRungs(st, minPrice, maxPrice)
    ensures Recounted(st, minPrice, maxPrice, price) >= 0
    ensures Recounted(st, minPrice, maxPrice, price) != 0 <==> st.bids != [] && Crosses(Ask, price, st.bids[0].price)
  {
    hide BlockRecount, LevelQty, Inv, Rungs;
    var count := RungCount(minPrice, maxPrice);
    var rungs := Rungs(st.bids, minPrice, count);
    TopRung(st, minPrice, maxPrice);
    if st.bids == [] {
      NoBidsNoRecount(rungs, minPrice, price, Words(Words(count)));
    } else {
      RecountSign(rungs, minPrice, price, Words(Words(count)), st.bids[0].price - minPrice);
    }
  }

  /** What the ladder counts and what crosses are non-zero together, and both lie within the quantity. */
  lemma {:induction false} CountedSign(st: State, minPrice: Price, maxPrice: Price, side: Side, price: Price,
                                       qty: Quantity)
    requires OnRungs(st, minPrice, maxPrice) && qty > 0
    ensures var counted := Counted(st, minPrice, maxPrice, side, price, qty);
            var crossing := CrossingOf(st, side, price, qty);
            && 0 <= counted <= qty && 0 <= crossing <= qty && (counted != 0 <==> crossing != 0)
  {
    hide Inv, Recounted, Depth, Crossing;
    InvFacts(st, side);
    var q := st.Orders(side.Opposite());
    CrossingIsCappedDepth(q, side, price, qty);
    RecountSeesBest(st, minPrice, maxPrice, price);
    DepthSign(q, side, price);
  }

  lemma {:induction false} DepthSign(q: seq<Order>, side: Side, price: int)
    requires Positive(q)
    ensures Depth(q, side, price) != 0 <==> q != [] && Crosses(side, price, q[0].price)
  {
    if q != [] {
      CrossingIsCappedDepth(q[1..], side, price, 0);
    }
  }

  // ---- Verdicts

  /** The ladder's verdict is success exactly when the early checks and the overflow check pass. */
  lemma {:induction false} AcceptsIff(st: State, minPrice: Price, maxPrice: Price, e: Event)
    requires OnRungs(st, minPrice, maxPrice) && e.kind != Cancel
    ensures LadderVerdict(st, minPrice, maxPrice, e) == NoError <==>
              && PassesChecks(st, minPrice, maxPrice, e)
              && !TooLarge(st, e, LevelSeen(st, minPrice, maxPrice, e), CountedFor(st, minPrice, maxPrice, e))
  {
    hide OnRungs, Counted, LevelSeen, HasId, SideOf;
  }

  /** The limit of a market order makes no difference to what it crosses. */
  lemma {:induction false} CrossingForLimit(st: State, minPrice: Price, maxPrice: Price, e: Event)
    requires OnRungs(st, minPrice, maxPrice) && e.kind == Add
    ensures CrossingFor(st, minPrice, maxPrice, e) == CrossingOf(st, e.side, LimitOf(e), e.qty)
  {
    hide OnRungs, Crossing;
    LadderLimitTakesAll(st, minPrice, maxPrice, e);
  }

  lemma {:induction false} AddVerdicts(st: State, minPrice: Price, maxPrice: Price, e: Event, slot: int, counted: int)
    requires e.kind == Add
    requires var crossing := CrossingOf(st, e.side, LimitOf(e), e.qty);
             e.qty > 0 ==> 0 <= counted <= e.qty && 0 <= crossing <= e.qty && (counted != 0 <==> crossing != 0)
    ensures var crossing, own := CrossingOf(st, e.side, LimitOf(e), e.qty), LevelQty(st.Orders(e.side), e.price);
            var reaches := ReachesLiquidity(st, minPrice, maxPrice, e);
            AddGuard(st, e, LadderPriceError(minPrice, maxPrice, e.price), slot, counted) == AddError(st, e) <==>
              && PricesAgree(st, minPrice, maxPrice, e)
              && (LimitFillOrKill(e) && reaches ==> (e.qty <= counted <==> e.qty <= crossing))
              && (reaches && (LimitFillOrKill(e) ==> e.qty <= counted) && (e.postOnly ==> counted == 0) ==>
                    (TooLarge(st, e, slot, counted) <==> TooLarge(st, e, own, crossing)))
  {
    hide Contains, CrossingOf, LevelQty;
  }

  lemma {:induction false} ModifyVerdicts(st: State, minPrice: Price, maxPrice: Price, e: Event, slot: int,
                                        counted: int)
    requires e.kind == Modify
    ensures var crossing := CrossingOf(st, SideOf(st, e.id), e.newPrice, e.newQty);
            var priceError := LadderPriceError(minPrice, maxPrice, e.newPrice);
            ModifyGuard(st, e, priceError, slot, counted) == ModifyError(st, e) <==>
              && PricesAgree(st, minPrice, maxPrice, e)
              && (PassesChecks(st, minPrice, maxPrice, e) ==>
                    (TooLarge(st, e, slot, counted) <==> TooLarge(st, e, OwnLevel(st, e), crossing)))
  {
    hide Contains, CrossingOf, LevelQty, SideOf, Without;
  }

  /** For a fill-or-kill, comparing with the two capped numbers is comparing with the numbers themselves. */
  lemma {:induction false} LiquidityChecks(st: State, minPrice: Price, maxPrice: Price, e: Event)
    requires OnRungs(st, minPrice, maxPrice) && LimitFillOrKill(e) && e.side == Ask && e.qty > 0
    ensures LiquidityAgrees(st, minPrice, maxPrice, e) <==>
              (ReachesLiquidity(st, minPrice, maxPrice, e) ==>
                 (e.qty <= Counted(st, minPrice, maxPrice, Ask, e.price, e.qty)
                  <==> e.qty <= CrossingOf(st, Ask, e.price, e.qty)))
  {
    hide Inv, Recounted, Depth, Crossing, Contains;
    InvFacts(st, Ask);
    CrossingIsCappedDepth(st.bids, Ask, e.price, e.qty);
  }

  /**
   Any sell, whatever the quantities, gets the reference's verdict exactly when its price is judged
   alike, a limit fill-or-kill does not fall between the recounted and the true depth, and the
   overflow check comes out alike on the numbers the ladder sees.
   */
  lemma {:induction false} SellsAgree(st: State, minPrice: Price, maxPrice: Price, e: Event)
    requires OnRungs(st, minPrice, maxPrice) && e.kind != Cancel && EventSide(st, e) == Ask
    ensures LadderVerdict(st, minPrice, maxPrice, e) == ReferenceError(st, e) <==>
              && PricesAgree(st, minPrice, maxPrice, e) && LiquidityAgrees(st, minPrice, maxPrice, e)
              && OverflowAgrees(st, minPrice, maxPrice, e)
  {
    hide OnRungs, Counted, CrossingOf, LevelQty, Contains, AddGuard, ModifyGuard, AddError, ModifyError, LevelSeen;
    hide Without, SideOf, Recounted, Depth, TooLarge, PricesAgree;
    if e.kind == Add {
      CrossingForLimit(st, minPrice, maxPrice, e);
      if e.qty > 0 {
        CountedSign(st, minPrice, maxPrice, Ask, LadderLimit(minPrice, maxPrice, e), e.qty);
      }
      AddVerdicts(st, minPrice, maxPrice, e, LevelSeen(st, minPrice, maxPrice, e),
                  CountedFor(st, minPrice, maxPrice, e));
      if LimitFillOrKill(e) && e.qty > 0 {
        LiquidityChecks(st, minPrice, maxPrice, e);
      }
    } else {
      ModifyVerdicts(st, minPrice, maxPrice, e, LevelSeen(st, minPrice, maxPrice, e),
                     CountedFor(st, minPrice, maxPrice, e));
    }
  }

  /** Events that match from the bid side, and cancels. */
  predicate BuyEvent(st: State, e: Event) {
    e.kind == Cancel || EventSide(st, e) == Bid
  }

  /** A buy is counted rightly, so its overflow check comes out as on its own side. */
  lemma {:induction false} BuyOverflowAgrees(st: State, minPrice: Price, maxPrice: Price, e: Event)
    requires OnRungs(st, minPrice, maxPrice) && BuyEvent(st, e)
    ensures OverflowAgrees(st, minPrice, maxPrice, e)
  {
    hide Inv, LevelQty, CrossingOf, Contains, Without, SideOf, SlotSeen, SameOverflow;
    if PassesChecks(st, minPrice, maxPrice, e) {
      InvFacts(st, Bid);
      if e.kind == Add && CanRest(e) {
        LevelQtyBounds(st.bids, e.price);
        SlotDecidesAlike(st, minPrice, maxPrice, Bid, e.price, e.qty, 0);
        SameOverflowIs(SlotSeen(st, minPrice, maxPrice, e.price), LevelQty(st.bids, e.price),
                       e.qty - CrossingOf(st, Bid, e.price, e.qty));
      } else if e.kind == Modify {
        OwnAtBounds(st, e.id, e.newPrice);
        SlotDecidesAlike(st, minPrice, maxPrice, Bid, e.newPrice, e.newQty, OwnAt(st, e.id, e.newPrice));
        SameOverflowIs(LevelSeen(st, minPrice, maxPrice, e), OwnLevel(st, e),
                       e.newQty - CrossingOf(st, Bid, e.newPrice, e.newQty));
      }
    }
  }

  lemma {:induction false} SameOverflowIs(a: int, b: int, right: int)
    requires SameOverflow(a, b, right)
    ensures AddWouldOverflow(a, right) <==> AddWouldOverflow(b, right)
  {
  }

  /**
   Every cancel and every buy gets the reference's verdict exactly when its price is judged alike,
   with no bound on the quantities involved.
   */
  lemma {:induction false} BuysAgree(st: State, minPrice: Price, maxPrice: Price, e: Event)
    requires OnRungs(st, minPrice, maxPrice) && BuyEvent(st, e)
    ensures LadderVerdict(st, minPrice, maxPrice, e) == ReferenceError(st, e)
            <==> PricesAgree(st, minPrice, maxPrice, e)
  {
    hide OnRungs, CrossingOf, LevelQty, Contains, AddGuard, ModifyGuard, AddError, ModifyError, LevelSeen;
    hide Without, SideOf, TooLarge, PricesAgree;
    BuyOverflowAgrees(st, minPrice, maxPrice, e);
    match e.kind {
      case Add =>
        CrossingForLimit(st, minPrice, maxPrice, e);
        if e.qty > 0 {
          CountedSign(st, minPrice, maxPrice, Bid, LadderLimit(minPrice, maxPrice, e), e.qty);
        }
        AddVerdicts(st, minPrice, maxPrice, e, LevelSeen(st, minPrice, maxPrice, e),
                    CountedFor(st, minPrice, maxPrice, e));
      case Cancel =>
        CancelsAgree(st, minPrice, maxPrice, e);
      case Modify =>
        ModifyVerdicts(st, minPrice, maxPrice, e, LevelSeen(st, minPrice, maxPrice, e),
                       CountedFor(st, minPrice, maxPrice, e));
    }
  }

  lemma {:induction false} CancelsAgree(st: State, minPrice: Price, maxPrice: Price, e: Event)
    requires e.kind == Cancel
    ensures LadderVerdict(st, minPrice, maxPrice, e) == ReferenceError(st, e) && PricesAgree(st, minPrice, maxPrice, e)
    ensures LadderStep(st, minPrice, maxPrice, e) == Step(st, e) && !Unsafe(st, minPrice, maxPrice, e)
  {
    hide HasId, Without, Counted, SideOf;
  }

  // ---- Safety

  /** `Unsafe` in the terms of the ladder's own checks. */
  lemma {:induction false} UnsafeChecks(st: State, minPrice: Price, maxPrice: Price, e: Event)
    requires OnRungs(st, minPrice, maxPrice)
    ensures Unsafe(st, minPrice, maxPrice, e) <==>
              && PassesChecks(st, minPrice, maxPrice, e)
              && !TooLarge(st, e, LevelSeen(st, minPrice, maxPrice, e), CountedFor(st, minPrice, maxPrice, e))
              && TooLarge(st, e, OwnLevel(st, e), CrossingFor(st, minPrice, maxPrice, e))
  {
    hide OnRungs, LadderVerdict, PassesChecks, LevelSeen, CountedFor, CrossingOf, LevelQty, Without, SideOf;
    if e.kind == Cancel {
      CancelsAgree(st, minPrice, maxPrice, e);
      CancelPassesNone(st, minPrice, maxPrice, e);
    } else {
      AcceptsIff(st, minPrice, maxPrice, e);
      OverflowsIsTooLarge(st, minPrice, maxPrice, e);
    }
  }

  lemma {:induction false} CancelPassesNone(st: State, minPrice: Price, maxPrice: Price, e: Event)
    requires e.kind == Cancel
    ensures !PassesChecks(st, minPrice, maxPrice, e)
  {
  }

  lemma {:induction false} OverflowsIsTooLarge(st: State, minPrice: Price, maxPrice: Price, e: Event)
    requires e.kind != Cancel
    ensures Overflows(st, minPrice, maxPrice, e)
            <==> TooLarge(st, e, OwnLevel(st, e), CrossingFor(st, minPrice, maxPrice, e))
  {
    hide CrossingOf, LevelQty, Without, SideOf;
  }

  /** So where the overflow check agrees nothing is unsafe; cancels and buys never are. */
  lemma {:induction false} AgreementIsSafe(st: State, minPrice: Price, maxPrice: Price, e: Event)
    requires OnRungs(st, minPrice, maxPrice) && (OverflowAgrees(st, minPrice, maxPrice, e) || BuyEvent(st, e))
    ensures !Unsafe(st, minPrice, maxPrice, e)
  {
    hide OnRungs, Unsafe, TooLarge, PassesChecks, LevelSeen, CountedFor, CrossingFor, OwnLevel, BuyEvent;
    UnsafeChecks(st, minPrice, maxPrice, e);
    if BuyEvent(st, e) {
      BuyOverflowAgrees(st, minPrice, maxPrice, e);
    }
  }

  // ---- Whole events

  /** All the conditions on one event: prices for a buy or cancel, prices, liquidity and overflow for a sell. */
  predicate Agrees(st: State, minPrice: Price, maxPrice: Price, e: Event) {
    && PricesAgree(st, minPrice, maxPrice, e)
    && (BuyEvent(st, e)
        || (LiquidityAgrees(st, minPrice, maxPrice, e) && OverflowAgrees(st, minPrice, maxPrice, e)))
  }

  /**
   The ladder against the reference, event by event and with no bound on quantities: the whole
   outcome, error, trades, queues and counters, is the reference's exactly when the price is judged
   alike and, for a sell, the liquidity and overflow checks come out alike.
   */
  lemma {:induction false} LadderStepIsReferenceStep(st: State, minPrice: Price, maxPrice: Price, e: Event)
    requires OnRungs(st, minPrice, maxPrice)
    ensures LadderStep(st, minPrice, maxPrice, e) == Step(st, e) <==> Agrees(st, minPrice, maxPrice, e)
  {
    hide OnRungs, Step, StepWith, LiquidityAgrees, OverflowAgrees, PricesAgree, ReferenceError, LadderVerdict, SideOf;
    StepFollowsVerdict(st, e);
    if BuyEvent(st, e) {
      BuysAgree(st, minPrice, maxPrice, e);
    } else {
      SellsAgree(st, minPrice, maxPrice, e);
    }
    if e.kind == Cancel {
      CancelsAgree(st, minPrice, maxPrice, e);
    } else {
      OutcomeCarriesVerdict(st, e, LadderVerdict(st, minPrice, maxPrice, e));
    }
  }

  // ---- With room for everything

  /** Everything at rest, everything traded and the event together fit in 64 bits. */
  predicate RoomFor(st: State, e: Event) {
    SumQty(st.bids) + SumQty(st.asks) + st.stats.tradedQty + EventQty(e) <= MAX_INT64
  }

  /** With room for everything no sum an overflow check looks at is too large, counted rightly or not. */
  lemma {:induction false} RoomIsEnough(st: State, minPrice: Price, maxPrice: Price, e: Event)
    requires OnRungs(st, minPrice, maxPrice) && RoomFor(st, e)
    ensures OverflowAgrees(st, minPrice, maxPrice, e) && !Unsafe(st, minPrice, maxPrice, e)
  {
    if PassesChecks(st, minPrice, maxPrice, e) {
      RoomFits(st, minPrice, maxPrice, e);
    }
    hide OnRungs, Unsafe, PassesChecks, LevelSeen, CountedFor, CrossingFor, OwnLevel, BuyEvent;
    AgreementIsSafe(st, minPrice, maxPrice, e);
  }

  lemma {:induction false} RoomFits(st: State, minPrice: Price, maxPrice: Price, e: Event)
    requires OnRungs(st, minPrice, maxPrice) && RoomFor(st, e) && PassesChecks(st, minPrice, maxPrice, e)
    ensures !TooLarge(st, e, LevelSeen(st, minPrice, maxPrice, e), CountedFor(st, minPrice, maxPrice, e))
    ensures !TooLarge(st, e, OwnLevel(st, e), CrossingFor(st, minPrice, maxPrice, e))
  {
    hide Inv, LevelQty, SumQty, Without, Counted, CrossingOf, HasId, OnRungs;
    var side, price := EventSide(st, e), if e.kind == Add then e.price else e.newPrice;
    CountedSign(st, minPrice, maxPrice, side, EventLimit(minPrice, maxPrice, e), EventQty(e));
    RungsInv(st, minPrice, maxPrice);
    InvFacts(st, side);
    SumQtyPositive(st.bids);
    SumQtyPositive(st.asks);
    LevelQtyBounds(st.bids, price);
    LevelQtyBounds(st.asks, price);
    OwnAtBounds(st, e.id, price);
  }

  lemma {:induction false} RungsInv(st: State, minPrice: Price, maxPrice: Price)
    requires OnRungs(st, minPrice, maxPrice)
    ensures Inv(st) && minPrice <= maxPrice
  {
  }

  // ---- What every accepted event does

  lemma {:induction false} LadderAddKeepsInv(st: State, minPrice: Price, maxPrice: Price, e: Event)
    requires OnRungs(st, minPrice, maxPrice) && e.kind == Add && !Unsafe(st, minPrice, maxPrice, e)
    requires LadderVerdict(st, minPrice, maxPrice, e) == NoError
    ensures Inv(Execute(CountAdd(st), e.id, e.side, LimitOf(e), e.qty, CanRest(e)).state)
    ensures e.qty > 0 && (CanRest(e) ==> minPrice <= e.price <= maxPrice)
  {
    hide LadderVerdict, Execute, HasId, Inv, PricesWithin, LevelSeen, Counted, LevelQty, Crossing, Unsafe;
    AcceptsIff(st, minPrice, maxPrice, e);
    UnsafeChecks(st, minPrice, maxPrice, e);
    CrossingForLimit(st, minPrice, maxPrice, e);
    CrossingForIsCappedDepth(st, minPrice, maxPrice, e);
    InvFacts(st, e.side);
    InvIgnoresCounts(st, CountAdd(st));
    ExecuteKeepsInv(CountAdd(st), e.id, e.side, LimitOf(e), e.qty, CanRest(e));
  }

  lemma {:induction false} LadderModifyKeepsInv(st: State, minPrice: Price, maxPrice: Price, e: Event)
    requires OnRungs(st, minPrice, maxPrice) && e.kind == Modify && !Unsafe(st, minPrice, maxPrice, e)
    requires LadderVerdict(st, minPrice, maxPrice, e) == NoError
    ensures Inv(Execute(Removed(CountModify(st), e.id), e.id, SideOf(st, e.id), e.newPrice, e.newQty, true).state)
    ensures e.newQty > 0 && minPrice <= e.newPrice <= maxPrice
  {
    hide LadderVerdict, Execute, HasId, Inv, PricesWithin, LevelSeen, Counted, LevelQty, Crossing, Unsafe, Without;
    AcceptsIff(st, minPrice, maxPrice, e);
    UnsafeChecks(st, minPrice, maxPrice, e);
    InvIgnoresCounts(st, CountModify(st));
    RemovedKeepsInv(CountModify(st), e.id);
    ExecuteKeepsInv(Removed(CountModify(st), e.id), e.id, SideOf(st, e.id), e.newPrice, e.newQty, true);
  }

  /** Every event that is not unsafe keeps the invariant and keeps the book on the ladder. */
  lemma {:induction false} LadderStepKeepsRungs(st: State, minPrice: Price, maxPrice: Price, e: Event)
    requires OnRungs(st, minPrice, maxPrice) && !Unsafe(st, minPrice, maxPrice, e)
    ensures OnRungs(LadderStep(st, minPrice, maxPrice, e).state, minPrice, maxPrice)
  {
    var error := LadderVerdict(st, minPrice, maxPrice, e);
    hide LadderVerdict, Execute, PricesWithin, HasId, Without, Inv, Unsafe;
    match e.kind {
      case Add =>
        InvIgnoresCounts(st, CountReject(CountAdd(st)));
        if error == NoError {
          LadderAddKeepsInv(st, minPrice, maxPrice, e);
        }
        AddKeepsPrices(st, e, error, minPrice, maxPrice);
      case Cancel =>
        CountsKeep(st, minPrice, maxPrice);
        RemovedKeepsInv(CountCancel(st), e.id);
        RemovedKeepsPrices(CountCancel(st), e.id, minPrice, maxPrice);
      case Modify =>
        InvIgnoresCounts(st, CountReject(CountModify(st)));
        if error == NoError {
          LadderModifyKeepsInv(st, minPrice, maxPrice, e);
        }
        ModifyKeepsPrices(st, e, error, minPrice, maxPrice);
    }
  }

  lemma {:induction false} CountsKeep(st: State, minPrice: Price, maxPrice: Price)
    requires OnRungs(st, minPrice, maxPrice)
    ensures OnRungs(CountCancel(st), minPrice, maxPrice) && OnRungs(CountReject(CountCancel(st)), minPrice, maxPrice)
  {
    hide Inv;
    InvIgnoresCounts(st, CountCancel(st));
    InvIgnoresCounts(st, CountReject(CountCancel(st)));
  }

  lemma {:induction false} LadderIsSensible(st: State, minPrice: Price, maxPrice: Price, e: Event)
    requires OnRungs(st, minPrice, maxPrice)
    ensures Sensible(st, e, LadderVerdict(st, minPrice, maxPrice, e))
  {
    hide OnRungs, LadderVerdict, Counted, LevelSeen, HasId;
    if e.kind != Cancel {
      AcceptsIff(st, minPrice, maxPrice, e);
    }
  }

  /** An accepted event trades exactly what crosses, whatever the scan counted. */
  lemma {:induction false} AcceptedTrades(st: State, minPrice: Price, maxPrice: Price, e: Event)
    requires OnRungs(st, minPrice, maxPrice) && e.kind != Cancel && LadderVerdict(st, minPrice, maxPrice, e) == NoError
    ensures TradedQty(LadderStep(st, minPrice, maxPrice, e).trades) == CrossingFor(st, minPrice, maxPrice, e)
  {
    hide OnRungs, LadderVerdict, Match, Crossing, HasId, Insert, Without;
    var side := EventSide(st, e);
    RungsInv(st, minPrice, maxPrice);
    InvFacts(st, side);
    LadderIsSensible(st, minPrice, maxPrice, e);
    if e.kind == Add {
      CrossingForLimit(st, minPrice, maxPrice, e);
      CrossingIsExact(st.Orders(side.Opposite()), e.id, side, LimitOf(e), e.qty);
    } else {
      CrossingIsExact(st.Orders(side.Opposite()), e.id, side, e.newPrice, e.newQty);
    }
  }

  /**
   An accepted limit fill-or-kill trades the smaller of its quantity and the true depth: a buy is
   always filled whole, a sell exactly when the bids are deep enough.
   */
  lemma {:induction false} AcceptedFillOrKillFills(st: State, minPrice: Price, maxPrice: Price, e: Event)
    requires OnRungs(st, minPrice, maxPrice) && LimitFillOrKill(e)
    requires LadderVerdict(st, minPrice, maxPrice, e) == NoError
    ensures var traded := TradedQty(LadderStep(st, minPrice, maxPrice, e).trades);
            && traded == Min(e.qty, Depth(st.Orders(e.side.Opposite()), e.side, e.price))
            && (traded == e.qty <==> e.side == Bid || Depth(st.bids, Ask, e.price) >= e.qty)
  {
    hide OnRungs, LadderVerdict, Recounted, CrossingOf, HasId, Depth, LadderStep, TradedQty, LevelSeen;
    RungsInv(st, minPrice, maxPrice);
    AcceptsIff(st, minPrice, maxPrice, e);
    AcceptedTrades(st, minPrice, maxPrice, e);
    CrossingForIsCappedDepth(st, minPrice, maxPrice, e);
  }

  /** An accepted post-only order trades nothing on the ladder either: the recount sees the best bid. */
  lemma {:induction false} LadderPostOnlyNeverTrades(st: State, minPrice: Price, maxPrice: Price, e: Event)
    requires OnRungs(st, minPrice, maxPrice) && e.kind == Add && e.postOnly
    requires LadderVerdict(st, minPrice, maxPrice, e) == NoError
    ensures var r := LadderStep(st, minPrice, maxPrice, e);
            r.trades == [] && r.state.Orders(e.side.Opposite()) == st.Orders(e.side.Opposite())
  {
    hide OnRungs, LadderVerdict, Counted, CrossingOf, HasId, AddWith, LevelSeen;
    RungsInv(st, minPrice, maxPrice);
    AcceptsIff(st, minPrice, maxPrice, e);
    CountedSign(st, minPrice, maxPrice, e.side, LadderLimit(minPrice, maxPrice, e), e.qty);
    CrossingForLimit(st, minPrice, maxPrice, e);
    UncrossedTradesNothing(st, e);
  }

  /** Nor does an accepted market, immediate-or-cancel or fill-or-kill order rest. */
  lemma {:induction false} LadderImmediateNeverRests(st: State, minPrice: Price, maxPrice: Price, e: Event)
    requires OnRungs(st, minPrice, maxPrice) && e.kind == Add
    requires e.orderType == Market || e.timeInForce != GoodTilCancel
    requires LadderVerdict(st, minPrice, maxPrice, e) == NoError
    ensures var s := LadderStep(st, minPrice, maxPrice, e).state;
            !Contains(s, e.id) && s.Orders(e.side) == st.Orders(e.side)
  {
    hide OnRungs, LadderVerdict, HasId, AddWith;
    RungsInv(st, minPrice, maxPrice);
    LadderIsSensible(st, minPrice, maxPrice, e);
    ImmediateLeavesNoOrder(st, e);
  }

  // ---- The rules on a ladder

  /** The fault of a price on the ladder. */
  function RangeError(minPrice: Price, maxPrice: Price, price: Price): BookError {
    if price < minPrice || price > maxPrice then if price > 0 then PriceOutOfRange else InvalidPrice
    else NoError
  }

  /** What the checks of a ladder take to be on offer: all of it to a buy, the recount to a sell. */
  function LadderOffer(st: State, minPrice: Price, maxPrice: Price, side: Side, limit: Price, qty: Quantity): int {
    Min(qty, if side == Bid then Within(st.asks, Bid, limit) else Recounted(st, minPrice, maxPrice, limit))
  }

  /** What a ladder answers to an event; the level at a price is both sides' together. */
  ghost predicate LadderJudged(st: State, minPrice: Price, maxPrice: Price, e: Event, error: BookError) {
    match e.kind
    case Add =>
      var limit := if e.orderType == Limit then e.price else if e.side == Bid then maxPrice else minPrice;
      AddVerdict(st, e, RangeError(minPrice, maxPrice, e.price),
                 LadderOffer(st, minPrice, maxPrice, e.side, limit, e.qty),
                 QtyAt(st, Bid, e.price) + QtyAt(st, Ask, e.price), error)
    case Cancel => error == if AtRest(st, e.id) then NoError else UnknownOrderId
    case Modify =>
      && (!AtRest(st, e.id) ==> error == UnknownOrderId)
      && forall o :: (o in st.bids || o in st.asks) && o.id == e.id ==>
           ModifyVerdict(st, e, RangeError(minPrice, maxPrice, e.newPrice),
                         LadderOffer(st, minPrice, maxPrice, if o in st.bids then Bid else Ask, e.newPrice, e.newQty),
                         QtyAt(st, Bid, e.newPrice) + QtyAt(st, Ask, e.newPrice)
                         - (if o.price == e.newPrice then o.qty else 0), error)
  }

  lemma {:induction false} CountedIsOffer(st: State, minPrice: Price, maxPrice: Price, side: Side, limit: Price,
                                          qty: Quantity)
    requires OnRungs(st, minPrice, maxPrice) && qty > 0
    ensures var counted := Counted(st, minPrice, maxPrice, side, limit, qty);
            counted == LadderOffer(st, minPrice, maxPrice, side, limit, qty) && 0 <= counted <= qty
  {
    hide OnRungs, Recounted, CrossingOf, Within;
    RungsInv(st, minPrice, maxPrice);
    CountedSign(st, minPrice, maxPrice, side, limit, qty);
    CrossingIsOffer(st, side, limit, qty);
  }

  lemma {:induction false} LadderAddsAreJudged(st: State, minPrice: Price, maxPrice: Price, e: Event)
    requires OnRungs(st, minPrice, maxPrice) && e.kind == Add
    ensures LadderJudged(st, minPrice, maxPrice, e, LadderVerdict(st, minPrice, maxPrice, e))
  {
    hide OnRungs, AddVerdict, AddGuard, Counted, LevelQty, Within, Recounted;
    RungsInv(st, minPrice, maxPrice);
    var limit := LadderLimit(minPrice, maxPrice, e);
    var counted := Counted(st, minPrice, maxPrice, e.side, limit, e.qty);
    var level := SlotSeen(st, minPrice, maxPrice, e.price);
    var priceError := LadderPriceError(minPrice, maxPrice, e.price);
    if e.qty > 0 {
      CountedIsOffer(st, minPrice, maxPrice, e.side, limit, e.qty);
    }
    AddGuardVerdict(st, e, priceError, level, counted);
    var level' := QtyAt(st, Bid, e.price) + QtyAt(st, Ask, e.price);
    var error := LadderVerdict(st, minPrice, maxPrice, e);
    VerdictSameNumbers(st, e, priceError, counted, level, LadderOffer(st, minPrice, maxPrice, e.side, limit, e.qty),
                       level', error);
  }

  lemma {:induction false} LadderModifyIsJudged(st: State, minPrice: Price, maxPrice: Price, e: Event, o: Order)
    requires OnRungs(st, minPrice, maxPrice) && e.kind == Modify
    requires o.id == e.id && (o in st.bids || o in st.asks)
    ensures ModifyVerdict(st, e, RangeError(minPrice, maxPrice, e.newPrice),
                          LadderOffer(st, minPrice, maxPrice, if o in st.bids then Bid else Ask, e.newPrice, e.newQty),
                          QtyAt(st, Bid, e.newPrice) + QtyAt(st, Ask, e.newPrice)
                          - (if o.price == e.newPrice then o.qty else 0), LadderVerdict(st, minPrice, maxPrice, e))
  {
    hide OnRungs, Inv, ModifyVerdict, ModifyGuard, Counted, LevelQty, Within, Recounted, Without, CutOut, SideOf,
      LadderOffer, SlotSeen;
    RungsInv(st, minPrice, maxPrice);
    FoundAt(st, o);
    var side := SideOf(st, e.id);
    var counted := Counted(st, minPrice, maxPrice, side, e.newPrice, e.newQty);
    if e.newQty > 0 {
      CountedIsOffer(st, minPrice, maxPrice, side, e.newPrice, e.newQty);
    }
    LevelWithoutOrder(st, side, o, e.newPrice);
    var priceError, level := LadderPriceError(minPrice, maxPrice, e.newPrice), LevelSeen(st, minPrice, maxPrice, e);
    var own := if o.price == e.newPrice then o.qty else 0;
    SlotInRange(st, minPrice, maxPrice, e.newPrice);
    ModifyGuardVerdict(st, e, priceError, level, counted);
    ModifySameNumbers(st, e, priceError, counted, level,
                      LadderOffer(st, minPrice, maxPrice, side, e.newPrice, e.newQty),
                      QtyAt(st, Bid, e.newPrice) + QtyAt(st, Ask, e.newPrice) - own,
                      LadderVerdict(st, minPrice, maxPrice, e));
  }

  lemma {:induction false} SlotInRange(st: State, minPrice: Price, maxPrice: Price, price: Price)
    ensures minPrice <= price <= maxPrice ==>
              SlotSeen(st, minPrice, maxPrice, price) == QtyAt(st, Bid, price) + QtyAt(st, Ask, price)
  {
    hide LevelQty;
  }

  /** Every event gets from a ladder the error that its fields, the book and the recount call for. */
  lemma {:induction false} LadderEventsAreJudged(st: State, minPrice: Price, maxPrice: Price, e: Event)
    requires OnRungs(st, minPrice, maxPrice)
    ensures LadderJudged(st, minPrice, maxPrice, e, LadderStep(st, minPrice, maxPrice, e).error)
  {
    hide OnRungs, LadderVerdict, AddVerdict, ModifyVerdict, AtRest, Contains, Removed;
    AtRestIffContains(st, e.id);
    match e.kind {
      case Add =>
        OutcomeCarriesVerdict(st, e, LadderVerdict(st, minPrice, maxPrice, e));
        LadderAddsAreJudged(st, minPrice, maxPrice, e);
      case Cancel =>
      case Modify =>
        OutcomeCarriesVerdict(st, e, LadderVerdict(st, minPrice, maxPrice, e));
        if !AtRest(st, e.id) {
          LadderModifyUnknown(st, minPrice, maxPrice, e);
        }
        forall o | (o in st.bids || o in st.asks) && o.id == e.id
          ensures ModifyVerdict(st, e, RangeError(minPrice, maxPrice, e.newPrice),
                                LadderOffer(st, minPrice, maxPrice, if o in st.bids then Bid else Ask, e.newPrice,
                                            e.newQty),
                                QtyAt(st, Bid, e.newPrice) + QtyAt(st, Ask, e.newPrice)
                                - (if o.price == e.newPrice then o.qty else 0),
                                LadderVerdict(st, minPrice, maxPrice, e))
        {
          LadderModifyIsJudged(st, minPrice, maxPrice, e, o);
        }
    }
  }

  lemma {:induction false} LadderModifyUnknown(st: State, minPrice: Price, maxPrice: Price, e: Event)
    requires e.kind == Modify && !Contains(st, e.id)
    ensures LadderVerdict(st, minPrice, maxPrice, e) == UnknownOrderId
  {
    hide Counted, LevelSeen;
  }

  /** An event a ladder accepts does what its fields say, whatever the scan counted. */
  lemma {:induction false} LadderEventsAreDone(st: State, minPrice: Price, maxPrice: Price, e: Event)
    requires OnRungs(st, minPrice, maxPrice) && LadderStep(st, minPrice, maxPrice, e).error == NoError
    ensures Done(st, e, LadderStep(st, minPrice, maxPrice, e))
  {
    hide OnRungs, LadderVerdict, StepWith, Sensible, Done;
    RungsInv(st, minPrice, maxPrice);
    LadderIsSensible(st, minPrice, maxPrice, e);
    EventsAreDone(st, e, LadderVerdict(st, minPrice, maxPrice, e));
  }

  // ---- The overflow is real

  /** The two totals an execution raises. */
  lemma {:induction false} ExecuteTotals(st: State, id: OrderId, side: Side, price: Price, qty: Quantity, rests: bool)
    requires Inv(st) && qty >= 0
    ensures var s, crossing := Execute(st, id, side, price, qty, rests).state, CrossingOf(st, side, price, qty);
            && s.stats.tradedQty == st.stats.tradedQty + crossing
            && LevelQty(s.Orders(side), price)
               == LevelQty(st.Orders(side), price) + (if rests then qty - crossing else 0)
            && (!rests ==> s.Orders(side) == st.Orders(side))
  {
    hide Inv, Match, Insert, LevelQty, Crossing;
    var q := st.Orders(side.Opposite());
    InvFacts(st, side);
    CrossingIsExact(q, id, side, price, qty);
    LevelQtyInsert(st.Orders(side), Order(id, side, price, Match(q, id, side, price, qty).remaining), price);
  }

  lemma {:induction false} LevelFits(st: State, side: Side, price: Price)
    requires Inv(st)
    ensures LevelQty(st.Orders(side), price) <= MAX_INT64 && st.stats.tradedQty <= MAX_INT64
  {
    hide LevelQty;
  }

  /** An accepted add ends with a total beyond 64 bits exactly when the model calls it an overflow. */
  lemma {:induction false} AddOverflowIsReal(st: State, minPrice: Price, maxPrice: Price, e: Event)
    requires OnRungs(st, minPrice, maxPrice) && e.kind == Add && LadderVerdict(st, minPrice, maxPrice, e) == NoError
    ensures var s := LadderStep(st, minPrice, maxPrice, e).state;
            Overflows(st, minPrice, maxPrice, e) <==>
              || s.stats.tradedQty > MAX_INT64
              || LevelQty(s.Orders(e.side), EventLimit(minPrice, maxPrice, e)) > MAX_INT64
  {
    hide OnRungs, LadderVerdict, CrossingOf, HasId, LevelQty, Execute, Inv;
    var price := EventLimit(minPrice, maxPrice, e);
    RungsInv(st, minPrice, maxPrice);
    LadderIsSensible(st, minPrice, maxPrice, e);
    CrossingForLimit(st, minPrice, maxPrice, e);
    CrossingForIsCappedDepth(st, minPrice, maxPrice, e);
    InvIgnoresCounts(st, CountAdd(st));
    ExecuteTotals(CountAdd(st), e.id, e.side, LimitOf(e), e.qty, CanRest(e));
    SameCrossing(st, CountAdd(st), e.side, LimitOf(e), e.qty);
    LevelFits(st, e.side, price);
  }

  lemma {:induction false} SameCrossing(st: State, st': State, side: Side, price: Price, qty: int)
    requires st.Orders(side.Opposite()) == st'.Orders(side.Opposite())
    ensures CrossingOf(st, side, price, qty) == CrossingOf(st', side, price, qty)
  {
  }

  lemma {:induction false} ModifyOverflowIsReal(st: State, minPrice: Price, maxPrice: Price, e: Event)
    requires OnRungs(st, minPrice, maxPrice) && e.kind == Modify && LadderVerdict(st, minPrice, maxPrice, e) == NoError
    ensures var s := LadderStep(st, minPrice, maxPrice, e).state;
            Overflows(st, minPrice, maxPrice, e) <==>
              || s.stats.tradedQty > MAX_INT64
              || LevelQty(s.Orders(SideOf(st, e.id)), e.newPrice) > MAX_INT64
  {
    hide OnRungs, LadderVerdict, CrossingOf, HasId, LevelQty, Execute, Inv, Without;
    var side := SideOf(st, e.id);
    RungsInv(st, minPrice, maxPrice);
    LadderIsSensible(st, minPrice, maxPrice, e);
    CrossingForIsCappedDepth(st, minPrice, maxPrice, e);
    InvIgnoresCounts(st, CountModify(st));
    RemovedKeepsInv(CountModify(st), e.id);
    var removed := Removed(CountModify(st), e.id);
    ExecuteTotals(removed, e.id, side, e.newPrice, e.newQty, true);
    SameCrossing(st, removed, side, e.newPrice, e.newQty);
    LevelFits(removed, side, e.newPrice);
  }

  /**
   An event the ladder accepts overflows exactly when it leaves a traded quantity or a level total
   beyond 64 bits, and exactly when it leaves an unsound book. So what Process requires is no more
   than it needs.
   */
  lemma {:induction false} OverflowIsReal(st: State, minPrice: Price, maxPrice: Price, e: Event)
    requires OnRungs(st, minPrice, maxPrice) && LadderVerdict(st, minPrice, maxPrice, e) == NoError
    ensures var s := LadderStep(st, minPrice, maxPrice, e).state;
            && (Overflows(st, minPrice, maxPrice, e) <==> !Inv(s))
            && (e.kind != Cancel ==>
                  (Overflows(st, minPrice, maxPrice, e) <==>
                     || s.stats.tradedQty > MAX_INT64
                     || LevelQty(s.Orders(EventSide(st, e)), EventLimit(minPrice, maxPrice, e)) > MAX_INT64))
  {
    hide OnRungs, LadderVerdict, LevelQty, LadderStep, Overflows, Inv, SideOf;
    var s := LadderStep(st, minPrice, maxPrice, e).state;
    if !Overflows(st, minPrice, maxPrice, e) {
      LadderStepKeepsRungs(st, minPrice, maxPrice, e);
      RungsInv(s, minPrice, maxPrice);
    }
    match e.kind {
      case Add => AddOverflowIsReal(st, minPrice, maxPrice, e);
      case Cancel => CancelsAgree(st, minPrice, maxPrice, e);
      case Modify => ModifyOverflowIsReal(st, minPrice, maxPrice, e);
    }
    if Inv(s) {
      LevelFits(s, EventSide(st, e), EventLimit(minPrice, maxPrice, e));
    }
  }

  /**
   Which events `Process` must not be given: those that pass the ladder's checks although the step
   the code then takes leaves an unsound book, its overflow check passing on what the ladder sees and
   failing on what is there.
   */
  lemma {:induction false} UnsafeIff(st: State, minPrice: Price, maxPrice: Price, e: Event)
    requires OnRungs(st, minPrice, maxPrice)
    ensures Unsafe(st, minPrice, maxPrice, e) <==>
              LadderVerdict(st, minPrice, maxPrice, e) == NoError && !Inv(LadderStep(st, minPrice, maxPrice, e).state)
    ensures Unsafe(st, minPrice, maxPrice, e) <==>
              && PassesChecks(st, minPrice, maxPrice, e)
              && !TooLarge(st, e, LevelSeen(st, minPrice, maxPrice, e), CountedFor(st, minPrice, maxPrice, e))
              && TooLarge(st, e, OwnLevel(st, e), CrossingFor(st, minPrice, maxPrice, e))
  {
    hide OnRungs, LadderVerdict, PassesChecks, LevelSeen, LadderStep, Inv, TooLarge, Overflows;
    UnsafeChecks(st, minPrice, maxPrice, e);
    if LadderVerdict(st, minPrice, maxPrice, e) == NoError {
      OverflowIsReal(st, minPrice, maxPrice, e);
    }
  }
}
