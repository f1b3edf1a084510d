# A verified model of the order book backends, the partition lab and the event codec

The repository implements one limit order book engine three times: `OrderBook` over `std::map` price levels,
`PooledOrderBook` over a preallocated slot pool with intrusive FIFO lists, and `LadderOrderBook` over a fixed array of
prices found through a two-level occupancy bitmap. `tests/reference_order_book.cpp` is a slow oracle for all three, and
the repository compares them on fixed seeds. This project proves the comparison for every event and every history, and
proves what the oracle itself promises. Two further cores are covered: the lock-free ring with the partition lab built
on it, and the binary event codec.

## How the model is laid out

* `Types.dfy`, `Reference.dfy`: values with their 64-bit ranges, and the oracle as pure functions on two order
  sequences. `Step` maps a book and an event to a book, an error and trades; `Run` folds it over a history.
* `Matching.dfy`, `Invariants.dfy`, `Laws.dfy`: what the oracle promises. Price-time priority in both directions, the
  exact dry run, an invariant of every reachable book, policy rules, the quantity ledger, the counters.
* `Rules.dfy`: the oracle once more, from the outside. Which error each event gets and what each accepted event does,
  said of the event's own fields and the orders at rest, without the functions the steps are made of. The ladder and
  the pool have the same laws in `LadderLaws.dfy` and `Replays.dfy`.
* `Levels.dfy`, `OrderIndex.dfy`, `Filling.dfy`: ordered price levels with cached totals, the id index, and one turn of
  a matching loop, shared by the backends.
* `OrderBook.dfy`: the baseline backend as a class. `Book()` is its abstraction; every method is proved against `Step`.
* `PoolShape.dfy`, `PoolLevels.dfy`, `PooledOrderBook.dfy`: the slot pool, its free list and linked queues, and the
  pooled backend.
* `Bits.dfy`, `Bitmap.dfy`, `LadderLevels.dfy`, `LadderScan.dfy`, `LadderRecount.dfy`, `LadderSpec.dfy`,
  `LadderOrderBook.dfy`: 64-bit words, the bitmap, the price array, the bit scans, the ladder's own step on abstract
  books, and the ladder backend. `LadderLaws.dfy` says exactly when that step is the oracle's; `LadderMiscounts.dfy`
  shows what happens when it is not.
* `Replays.dfy`: whole histories replayed by each backend.
* `Spsc.dfy`, `Partition.dfy`: the ring as interleaved atomic steps with stale loads (and as a class used from one
  thread), and the writer and matcher threads of the lab over it. `Division.dfy` holds the modular arithmetic.
* `Codec.dfy`: little-endian words, records, whole files.

`Book()`, `Valid()` and the chains of the pool are ghost: they exist for the proofs. Quantities in orders, trades and
statistics are unbounded integers; that nothing overflows is proved in three places instead. Level totals have type
`int64`. The methods carry quantities, fills, totals and the traded quantity through local variables of that type, so
each assignment proves that the value fits. And the invariant `Inv` keeps the quantity of every order, the total at
every price and the traded quantity within 64 bits.

## Where the code departs from what one would expect

* The ladder's scan for an incoming sell reads the highest bit of a word and clears the lowest
  (`src/ladder_order_book.cpp:142-153`), so it counts the best bid under each summary word again and again and misses
  the rest. It is modelled as written. It is still non-zero exactly when the best bid crosses, so post-only is right.
  Limit fill-or-kill sells can be judged wrongly: with 5 at 100 and 3 at 99 a sell of 10 at 99 is accepted and fills 8;
  with 1 at 100 and 100 at 99 a sell of 50 at 99 is refused. `LadderLaws.SellsAgree` says exactly when the verdict is
  right, and `LadderLaws.AcceptedFillOrKillFills` exactly when an accepted fill-or-kill is filled whole: always for a
  buy, and for a sell when the bids at or above its limit hold its quantity.
* For the same reason the ladder's overflow check can pass a sell whose fills do not fit in 64 bits
  (`LadderMiscounts.OverflowIsReachable`). `LadderLaws.OverflowIsReal` says exactly which accepted events these are:
  those after which the traded quantity or a level total exceeds 2^63 - 1 and the invariant is broken. Only these are
  excluded by what `Ladder.LadderOrderBook.Process` requires. Cancels and buys never are.
* A market order's time in force is replaced by immediate-or-cancel (`src/order_book.cpp:170-174`), so a market
  fill-or-kill may fill in part: `Laws.FillOrKillFillsIff` says exactly when it does not.
* A ladder whose range starts at 0 accepts price 0, which the other backends refuse; prices must be judged alike for
  the verdicts to agree, and `PricesAgree` says when they are. `LadderMiscounts.PriceZeroRests` shows a case.
* A partial last record is not an error for the binary reader: a short read sets eof as well as fail, so the test at
  `src/binary_event_codec.cpp:164` never fires. `Codec.FileRoundTrip` proves that such a tail is ignored.
* The ring's counters may wrap only if the capacity divides 2^64: `Spsc.AlwaysFifoIff`.

## Main results

* The match is price-time priority and nothing else: `Matching.MatchIffPriceTimeFill`, `Matching.CrossingIsExact`,
  `Laws.AddTradesByPriority`, `Laws.ModifyLosesPriority`.
* Every event gets exactly the error its fields and the book call for, and an accepted one does exactly what its fields
  say: `Rules.EventsAreJudged`, `Rules.EventsAreDone`, and on a ladder `LadderLaws.LadderEventsAreJudged` and
  `LadderLaws.LadderEventsAreDone`.
* Every reachable book is sorted, uncrossed, free of duplicates and within 64 bits, and quantity is conserved over
  every history: `Invariants.RunKeepsInv`, `Laws.LedgerBalances`, and for the other two backends' own histories
  `Replays.PooledLedgerBalances` and `Replays.LadderLedgerBalances`.
* The baseline and the pool refine the oracle event by event, except that the pool refuses exactly the adds after which
  the oracle's book would not fit: `Baseline.OrderBook.Process`, `Pooled.PooledOrderBook.Process`,
  `PoolShape.DropKeepsShape`, `Replays.CapacityErrorIff`, `Replays.SlotForEveryAdd`.
* The ladder does what its own step says, that step is the oracle's exactly when its miscount does not matter, and it
  overflows exactly when `Process` is not allowed to be called: `Ladder.LadderOrderBook.Process`,
  `LadderLaws.LadderStepIsReferenceStep`, `LadderLaws.SellsAgree`, `LadderLaws.AcceptedFillOrKillFills`,
  `LadderLaws.OverflowIsReal`.
* The ring is first in, first out in every run exactly when its capacity divides 2^64: `Spsc.AlwaysFifoIff`,
  `Spsc.RunKeepsQueue`.
* In the partition lab a matcher that exits has replayed its whole share, which is the events whose ids leave its
  number as remainder, and every state can still finish: `Partition.ExitedIsExact`, `Partition.ShareIsByRemainder`,
  `Partition.CanFinish`, `Partition.OnlySpinningIsEndless`.
* The codec writes and reads every field at its own place and round-trips in both directions:
  `BinaryFormat.EventIsLaidOut`, `BinaryFormat.RecordReadsAs`, `Codec.FileRoundTrip`, `Codec.WhatParsesWasWritten`.

## Model

| member | source | states |
|---|---|---|
| `Matching.MatchIffPriceTimeFill` | tests/reference_order_book.cpp:89-144 | A result is what matching returns exactly when the longest crossing prefix of the queue is consumed whole, in order and at each order's own price, followed by at most one partial fill |
| `Matching.PriceTimeFillUnique` | src/order_book.cpp:85-150 | Any result of that shape, for any prefix length, is the one matching returns |
| `Matching.CrossingIsExact` | src/order_book.cpp:62-83 | The dry run equals the incoming quantity minus the unmatched remainder and equals the sum of the trades, and the remainder lies between 0 and the quantity |
| `Matching.CrossingIsCappedDepth` | src/order_book.cpp:62-83 | The dry run is the smaller of the quantity and everything resting at or better than the limit |
| `Matching.RemainderMeansUncrossed` | src/order_book.cpp:201-204 | If quantity is left after a match, the best opposite order no longer crosses, so resting it keeps the book uncrossed |
| `Matching.MatchLeavesTail` | src/order_book.cpp:92-116 | What is left of the queue is a tail of it in which only the first order may have shrunk, and not to zero |
| `Matching.MatchConserves` | src/order_book.cpp:94-102 | The queue loses exactly the quantity that is traded |
| `Matching.RemainderFreesAnOrder` | src/pooled_order_book.cpp:289-295 | If something crossed and quantity is left over, the queue is at least one order shorter |
| `Matching.InsertSplits` | tests/reference_order_book.cpp:57-65 | Resting an order puts it after every order priced at least as well and before the first worse one, leaving the others as they were |
| `Matching.WithoutSplits` | tests/reference_order_book.cpp:67-87 | Removal takes out the first order with the id and closes the gap, changing nothing else |
| `Invariants.ExecuteKeepsInv` | src/order_book.cpp:201-205 | Matching and resting keep both sides sorted, positive and duplicate-free, the book uncrossed, and every level total and the traded quantity within 64 bits |
| `Invariants.RemovedKeepsInv` | src/order_book.cpp:40-53 | Removing an order keeps that invariant, and the id is gone from both sides |
| `Invariants.RestReady` | src/order_book.cpp:186-204 | After a match that leaves a remainder the checks made beforehand still cover the level the remainder rests in |
| `Invariants.LevelQtyInsert` | src/order_book.cpp:32-38 | Resting an order raises the total of its own price by its quantity and no other total |
| `Invariants.StepKeepsInv` | src/order_book.cpp:282-294 | Every event keeps the invariant |
| `Invariants.RunKeepsInv` | src/order_book.cpp:282-294 | Every history ends in a sorted, uncrossed book with positive quantities, distinct ids and totals within 64 bits |
| `Laws.RefusalIsAtomic` | src/order_book.cpp:155-199 | Whatever check refuses an event, by the oracle's rules or another backend's, both sides, the trades and the traded quantity stay and exactly one request counter and the rejection counter rise by one |
| `Laws.FillOrKillIsAllOrNothing` | src/order_book.cpp:178-181 | An accepted limit fill-or-kill trades exactly its quantity and leaves its own side alone; one refused for liquidity could not have been filled |
| `Laws.MarketIgnoresTimeInForce` | src/order_book.cpp:170-174 | A market order has the same outcome under every time in force |
| `Laws.MarketTakesWhatThereIs` | src/order_book.cpp:170-205 | An accepted market order trades the smaller of its quantity and everything the other side holds |
| `Laws.FillOrKillFillsIff` | src/order_book.cpp:170-205 | An accepted add marked fill-or-kill trades its whole quantity exactly when it is a limit order or the other side holds enough |
| `Laws.MarketFillOrKillMayTradeNothing` | src/order_book.cpp:170-174 | A market fill-or-kill of any quantity into an empty book is accepted and trades nothing |
| `Laws.PostOnlyNeverTrades` | src/order_book.cpp:182-185 | An accepted post-only order trades nothing and leaves the opposite side alone |
| `Laws.ImmediateOrdersNeverRest` | src/order_book.cpp:177-205 | An accepted add that is a market order or not good-til-cancel is not in the book afterwards and leaves its own side alone |
| `Laws.InsertedLast` | src/order_book.cpp:32-38 | A resting order comes after every order at its price and before every worse price |
| `Laws.ModifyLosesPriority` | src/order_book.cpp:272-279 | What is left of an accepted modify comes last at its new price, with the new quantity less its trades |
| `Laws.AddTradesByPriority` | src/order_book.cpp:201-205 | The trades of an accepted add are the price-time fill of the opposite side as it was, and that side afterwards is what the fill leaves |
| `Laws.ModifyTradesByPriority` | src/order_book.cpp:272-279 | The trades of an accepted modify are the price-time fill of the opposite side as it was, and that side afterwards is what the fill leaves |
| `Laws.StepBalances` | src/order_book.cpp:85-150 | The quantity an accepted event brings in equals the change in resting quantity plus twice what it traded plus what was withdrawn or dropped |
| `Laws.StepWithBalances` | src/order_book.cpp:201-279 | The same for a step taken on any verdict that accepts only fresh ids with positive quantities, as the verdicts of all three backends do |
| `Laws.LedgerBalances` | src/order_book.cpp:201-279 | Over every history accepted quantity equals resting quantity plus twice the traded quantity plus withdrawn and dropped remainders, and both trade counters match the trade list |
| `Laws.RunKeepsPrices` | src/order_book.cpp:157-161 | Every order in a reachable book has a positive price |
| `Laws.RunCounts` | src/order_book.cpp:152-293 | Each request counter equals the number of events of its kind, and the rejection counter the number of refused events |
| `Laws.StepWithCounts` | src/order_book.cpp:152-293 | On any verdict an event raises the counter of its kind by one, and the rejection counter exactly when it is refused |
| `Rules.EventsAreJudged` | src/order_book.cpp:152-271 | Which error every event gets, each one exactly when its own fault is there and none looked for earlier: for an add in the order price or market post-only, quantity, duplicate id, liquidity, post-only, overflow; for a cancel unknown exactly when no order with the id rests; for a modify in the order unknown, price, quantity, overflow. Offered quantity is the sum of all orders within the limit, overflow is of the totals that would result |
| `Rules.EventsAreDone` | src/order_book.cpp:85-280 | What an event does once sensible checks let it through. An add or modify trades the smaller of its quantity and what is offered, with the other side's orders in turn, each at its own price and none beyond the limit; what is left of a modify or of a limit good-til-cancel add joins last at its price and nothing else rests. A modify and a cancel cut exactly their one order out of its side, and a cancel touches nothing else |
| `Rules.AcceptedEventsAreDone` | src/order_book.cpp:282-294 | Every event the reference accepts does that |
| `Rules.RestsOnlyIf` | src/order_book.cpp:177-205 | After such an add the remainder of a limit good-til-cancel order, post-only or not, is last at its price; any other order is in no queue and its own side is unchanged |
| `Rules.WithinIsDepth` | src/order_book.cpp:62-83 | In a sorted queue the orders within a limit, wherever they stand, hold what the scan from the front counts |
| `PriceMap.MaxCrossingQty` | src/order_book.cpp:62-83 | The loop over cached level totals computes the capped sum over the crossing levels and stays within 64 bits |
| `Levels.LevelCrossingIsCrossing` | src/order_book.cpp:62-83 | Summing cached level totals gives the dry run over the single orders |
| `Levels.TotalIsLevelQty` | src/order_book.cpp:186-195 | The cached total found for a price is the sum of the orders at that price, or 0 when the level is missing |
| `Levels.PutIsInsert` | src/order_book.cpp:16-38 | Appending to a level, creating it if needed, is inserting into the flat queue, and the levels stay ordered and non-empty |
| `Levels.DropIsWithout` | src/order_book.cpp:40-53 | Erasing an order from its level, and the level when it becomes empty, is removal from the flat queue |
| `OrderIndex.IndexAfterFill` | src/order_book.cpp:104-107 | Erasing an id when its order is consumed keeps the index exact |
| `OrderIndex.IndexAfterInsert` | src/order_book.cpp:35-37 | Entering a new order keeps the index exact |
| `OrderIndex.IndexAfterRemoval` | src/order_book.cpp:52-52 | Erasing a removed order keeps the index exact |
| `OrderIndex.IndexCounts` | src/order_book.hpp:27-27 | The index has as many entries as orders rest |
| `Filling.FillTurn` | src/order_book.cpp:92-108 | One turn of the inner loop moves the match of the original queue one fill further, keeps the cached total, the index and the other side right, and cannot overflow |
| `Filling.FindIndexed` | src/order_book.cpp:217-223 | An indexed id is found at the location the index gives, on the side the linear search would report |
| `Filling.LevelWithoutOwn` | src/order_book.cpp:246-263 | The cached total less the order's own quantity when it rests at that price is the total the linear search without that order finds |
| `Baseline.OrderBook.constructor` | src/order_book.hpp:59-64 | A new book is sound and empty |
| `Baseline.OrderBook.FillLevel` | src/order_book.cpp:91-108 | The inner loop consumes orders oldest first until the order or the level is used up, keeping totals, index and counters |
| `Baseline.OrderBook.MatchIncoming` | src/order_book.cpp:85-150 | Remainder, appended trades, opposite side and counters are those of the reference match; the own side is untouched |
| `Baseline.OrderBook.AddRestingOrder` | src/order_book.cpp:32-38 | The order is inserted by price, last at its price |
| `Baseline.OrderBook.RemoveOrder` | src/order_book.cpp:40-53 | The order is removed from whichever side it rests on, as the linear search would |
| `Baseline.OrderBook.TotalsAnswerScans` | src/order_book.cpp:175-195 | Cached totals give the same crossing quantity and level quantity as scanning every order |
| `Baseline.OrderBook.AddOrderWithPolicy` | src/order_book.cpp:152-206 | Error, trades and new book of an add equal the reference's |
| `Baseline.OrderBook.AddOrder` | src/order_book.cpp:208-212 | The plain add is a limit good-til-cancel add |
| `Baseline.OrderBook.CancelOrder` | src/order_book.cpp:214-225 | Error and new book of a cancel equal the reference's |
| `Baseline.OrderBook.ModifyReads` | src/order_book.cpp:246-265 | The numbers a modify checks are those the reference checks |
| `Baseline.OrderBook.ModifyOrder` | src/order_book.cpp:227-280 | Error, trades and new book of a modify equal the reference's |
| `Baseline.OrderBook.Process` | src/order_book.cpp:282-294 | Every event, from every sound book, has the reference's error, trades, queues and counters, with no overflow on the way; a refused one leaves levels and index as they were |
| `Baseline.OrderBook.LiveOrderCount` | src/order_book.hpp:27-27 | The index size is the number of resting orders |
| `Baseline.OrderBook.Orders` | src/order_book.cpp:329-345 | The listing is the abstract queue: levels best first, each oldest first |
| `PoolShape.CutKeepsChain` | src/pooled_order_book.cpp:80-94 | Unlinking and releasing any slot of a chain leaves a well-formed chain of the others |
| `PoolShape.CutView` | src/pooled_order_book.cpp:80-94 | The orders of that chain are the old ones without that one, in order |
| `PoolShape.GrowKeepsChain` | src/pooled_order_book.cpp:66-78 | Appending a fresh slot leaves a well-formed chain with it last |
| `PoolShape.DropKeepsShape` | src/pooled_order_book.cpp:111-129 | Removing any order keeps the shape: slots split into one free list and the level chains, the id index is a bijection with the live slots; one slot more is free |
| `PoolShape.GrowKeepsShape` | src/pooled_order_book.cpp:96-109 | Resting an order in the head of the free list keeps that shape |
| `PoolShape.ReduceKeepsShape` | src/pooled_order_book.cpp:177-177 | A partial fill of a head order keeps that shape |
| `PoolLevels.DropViews` | src/pooled_order_book.cpp:111-129 | Removing an order from the pool removes it from the ordered map the levels stand for and from nothing else |
| `PoolLevels.GrowViews` | src/pooled_order_book.cpp:96-109 | Resting an order in the pool appends it to its level in that map, creating the level if needed |
| `PoolLevels.IndexIsBook` | src/pooled_order_book.cpp:254-257 | The id index holds exactly the ids of resting orders and leads to the live slot of that id on the right side |
| `PoolLevels.UsedSlots` | src/pooled_order_book.cpp:49-64 | As many slots are in use as orders rest, and free and used slots add up to the capacity |
| `PoolFilling.TurnKeepsPool` | src/pooled_order_book.cpp:168-192 | One fill of a head order, with the inlined head removal, keeps the shape and the level's head, tail and count |
| `PoolFilling.PoolTurn` | src/pooled_order_book.cpp:168-192 | One turn of the pooled inner loop moves the match one fill further and cannot overflow |
| `Pooled.PooledOrderBook.AllocateSlot` | src/pooled_order_book.cpp:49-58 | The head of the free list is taken and blanked, or nothing changes when the list is empty |
| `Pooled.PooledOrderBook.ReleaseSlot` | src/pooled_order_book.cpp:60-64 | The slot is blanked and becomes the head of the free list |
| `Pooled.PooledOrderBook.AppendSlot` | src/pooled_order_book.cpp:66-78 | The slot is linked behind the tail, with count and total raised |
| `Pooled.PooledOrderBook.UnlinkSlot` | src/pooled_order_book.cpp:80-94 | The slot's neighbours are joined, with head, tail, count and total adjusted |
| `Pooled.PooledOrderBook.ReserveOrders` | src/pooled_order_book.cpp:12-31 | A capacity beyond the index range is refused before anything changes; otherwise the pool is sound, empty and of that capacity |
| `Pooled.PooledOrderBook.AddRestingOrder` | src/pooled_order_book.cpp:96-109 | With a free slot the order is inserted as in the reference |
| `Pooled.PooledOrderBook.RemoveOrder` | src/pooled_order_book.cpp:111-129 | The order is removed as in the reference and its slot is free again |
| `Pooled.PooledOrderBook.FillLevel` | src/pooled_order_book.cpp:167-192 | The inner loop consumes a level's chain from its head, releasing each emptied slot and touching no other level |
| `Pooled.PooledOrderBook.MatchIncoming` | src/pooled_order_book.cpp:160-238 | Remainder, trades, opposite side and counters are those of the reference match |
| `Pooled.PooledOrderBook.FreeSlots` | src/pooled_order_book.cpp:289-299 | The free list is as long as the capacity minus the resting orders, and its head is invalid exactly when it is empty |
| `Pooled.PooledOrderBook.SlotAfterMatch` | src/pooled_order_book.cpp:289-305 | After a match with a remainder a slot is free if one was free before or anything crossed, so the missing-slot error cannot occur |
| `Pooled.PooledOrderBook.AddOrderWithPolicy` | src/pooled_order_book.cpp:240-307 | An add has the reference's outcome, except CapacityExceeded when it would rest without crossing while every slot is in use |
| `Pooled.PooledOrderBook.CancelOrder` | src/pooled_order_book.cpp:315-324 | A cancel has the reference's outcome |
| `Pooled.PooledOrderBook.ModifyReads` | src/pooled_order_book.cpp:343-363 | The numbers a modify checks are those the reference checks |
| `Pooled.PooledOrderBook.ModifyOrder` | src/pooled_order_book.cpp:326-378 | A modify has the reference's outcome and always finds a slot for its remainder |
| `Pooled.PooledOrderBook.Process` | src/pooled_order_book.cpp:380-392 | Every event has the reference's error, trades, queues and counters, apart from that one capacity rule; a refused one leaves levels, slots, free list and id index as they were |
| `Pooled.PooledOrderBook.LiveOrderCount` | src/pooled_order_book.hpp:25-25 | The index size is the number of resting orders |
| `Pooled.PooledOrderBook.LevelOrders` | src/pooled_order_book.cpp:425-430 | Following next from the head of a level ends and lists exactly its orders, oldest first |
| `Pooled.PooledOrderBook.Orders` | src/pooled_order_book.cpp:421-439 | The listing is the abstract queue |
| `Bits.SetBit` | src/ladder_order_book.cpp:44-44 | Or-ing a mask sets that bit and no other |
| `Bits.ClearBit` | src/ladder_order_book.cpp:51-51 | And-ing the complement of a mask clears that bit and no other |
| `Bits.ClearLowest` | src/ladder_order_book.cpp:134-134 | The and of a word with its predecessor clears its lowest set bit and no other |
| `Bits.Lowest` | src/ladder_order_book.cpp:64-67 | The result is a set bit below which none is set |
| `Bits.Highest` | src/ladder_order_book.cpp:77-80 | The result is a set bit above which none is set |
| `Bits.PopCountDown` | src/ladder_order_book.cpp:126-137 | Clearing the lowest set bit lowers the number of set bits by one, so the scans end |
| `Bitmap.MarkAdds` | src/ladder_order_book.cpp:37-45 | Setting an index keeps both levels exact: a bit for each occupied index, a summary bit for each non-zero word |
| `Bitmap.MarkRemoves` | src/ladder_order_book.cpp:47-55 | Clearing an index keeps both levels exact |
| `Bitmap.LowestUnderIsLeast` | src/ladder_order_book.cpp:61-69 | Two lowest-bit scans find the least occupied index at or after a summary word |
| `Bitmap.HighestUnderIsGreatest` | src/ladder_order_book.cpp:74-82 | Two highest-bit scans find the greatest occupied index at or before a summary word |
| `LadderLevels.WalkOk` | src/ladder_order_book.cpp:86-104 | Read in price order, the levels each side holds form an ordered map without empty levels |
| `LadderLevels.WalkPut` | src/ladder_order_book.cpp:86-93 | Writing a level a side holds changes that side's map at its price only |
| `LadderLevels.WalkDrop` | src/ladder_order_book.cpp:95-104 | Taking an order out of a level takes it out of its side's map |
| `LadderScan.ScanAsks` | src/ladder_order_book.cpp:120-138 | The scan for an incoming buy computes the capped sum over the crossing asks, cheapest first, visiting exactly the occupied levels |
| `LadderScan.ScanBids` | src/ladder_order_book.cpp:139-155 | The scan for an incoming sell computes, capped at the quantity, the recount: per summary word its best bid times the bits of that bid's word times the bits of the summary word |
| `LadderScan.ScanBidSummary` | src/ladder_order_book.cpp:142-154 | Under one summary word the same occupied word is visited once per set summary bit |
| `LadderScan.ScanBidWord` | src/ladder_order_book.cpp:146-152 | In one word the best bid is counted once per set bit |
| `LadderRecount.RecountIsBlocks` | src/ladder_order_book.cpp:139-155 | What the bitmap scan for a sell adds up can be read off the bid totals: per block of 4096 prices, while its best bid crosses, that bid's total times the bid levels among its 64 neighbours times the busy groups of 64 in the block |
| `LadderRecount.BidTotalsAreRungs` | src/ladder_order_book.cpp:86-93 | Those totals are the quantities of the abstract bid queue at each price of the ladder |
| `RungRecount.RecountSign` | src/ladder_order_book.cpp:139-155 | With the highest bid in view the recount is positive exactly when that bid crosses |
| `LadderScan.ListAsks` | src/ladder_order_book.cpp:358-365 | The listing scan visits the occupied asks exactly once, cheapest first |
| `LadderScan.ListBids` | src/ladder_order_book.cpp:366-375 | The listing scan, which clears the bit it reads, visits the occupied bids exactly once, dearest first |
| `Ladder.LadderOrderBook.constructor` | src/ladder_order_book.cpp:11-26 | A new ladder is sound and empty |
| `Ladder.LadderOrderBook.Create` | src/ladder_order_book.cpp:13-15 | A negative or inverted range is refused, whatever its width; any other whose level count fits gives a sound empty ladder |
| `Ladder.LadderOrderBook.SetOccupied` | src/ladder_order_book.cpp:37-45 | The side's bitmap marks one index more and the other side's bitmap is untouched |
| `Ladder.LadderOrderBook.ClearOccupied` | src/ladder_order_book.cpp:47-55 | The side's bitmap marks one index less and the other side's bitmap is untouched |
| `Ladder.LadderOrderBook.BestIndex` | src/ladder_order_book.cpp:57-84 | The result is the least occupied ask or the greatest occupied bid, and there is none exactly when the side is empty |
| `Ladder.LadderOrderBook.MaxCrossingQty` | src/ladder_order_book.cpp:112-157 | In every sound state the result is the true crossing quantity for a buy and the recount of the bid queue, capped at the quantity, for a sell; either lies between 0 and the quantity |
| `Ladder.LadderOrderBook.FillLevel` | src/ladder_order_book.cpp:170-186 | The inner loop consumes a level oldest first, keeping total, index and counters |
| `Ladder.LadderOrderBook.MatchIncoming` | src/ladder_order_book.cpp:159-192 | Remainder, trades, opposite side and counters are those of the reference match, and the bitmap stays exact |
| `Ladder.LadderOrderBook.AddRestingOrder` | src/ladder_order_book.cpp:86-93 | In an uncrossed book the order is inserted as in the reference and the bitmap stays exact |
| `Ladder.LadderOrderBook.SlotNotOpposite` | src/ladder_order_book.cpp:86-93 | The slot an uncrossing order rests in is not held by the other side |
| `Ladder.LadderOrderBook.RemoveOrder` | src/ladder_order_book.cpp:95-104 | The order is removed as in the reference and the bitmap stays exact |
| `Ladder.LadderOrderBook.SlotIsSeen` | src/ladder_order_book.cpp:86-104 | The total cached at a slot is the bids plus the asks the abstract book holds at its price |
| `Ladder.LadderOrderBook.AddOrderWithPolicy` | src/ladder_order_book.cpp:194-242 | An add gets the ladder's verdict, stated on the abstract book, and when accepted the reference's trades and book; a refused one leaves levels, bitmaps and index as they were |
| `Ladder.LadderOrderBook.CancelOrder` | src/ladder_order_book.cpp:250-259 | A cancel has the reference's outcome |
| `Ladder.LadderOrderBook.ModifyReads` | src/ladder_order_book.cpp:274-278 | The level quantity a modify checks is the slot's total less the order's own part, and is not negative |
| `Ladder.LadderOrderBook.ModifyOrder` | src/ladder_order_book.cpp:261-296 | A modify gets the ladder's verdict and when accepted the reference's trades and book; a refused one leaves levels, bitmaps and index as they were |
| `Ladder.LadderOrderBook.Process` | src/ladder_order_book.cpp:298-310 | Every event whose acceptance does not overflow has the outcome of the ladder's step on the abstract book; a refused one leaves levels, bitmaps and index as they were |
| `Ladder.LadderOrderBook.LiveOrderCount` | src/ladder_order_book.hpp:27-27 | The index size is the number of resting orders |
| `Ladder.LadderOrderBook.Orders` | src/ladder_order_book.cpp:350-377 | The listing read off the bitmap is the abstract queue |
| `LadderLaws.CrossingForIsCappedDepth` | src/ladder_order_book.cpp:112-119 | For any event the true crossing quantity is the smaller of its quantity and the depth at its limit |
| `LadderLaws.SlotDecidesAlike` | src/ladder_order_book.cpp:229-232 | For the true crossing quantity the overflow test on the shared slot total decides as the test on the order's own side |
| `LadderLaws.BuyOverflowAgrees` | src/ladder_order_book.cpp:229-236 | For every buy the overflow check on the slot total and the scanned quantity comes out as on its own side and the true crossing quantity |
| `LadderLaws.BuysAgree` | src/ladder_order_book.cpp:194-310 | A cancel or a buy gets the reference's verdict exactly when its price is judged alike, for all quantities |
| `LadderLaws.RecountSeesBest` | src/ladder_order_book.cpp:139-155 | On any book of the ladder the sell recount is non-zero exactly when the best bid crosses |
| `LadderLaws.SellsAgree` | src/ladder_order_book.cpp:194-310 | Every sell, whatever the quantities, gets the reference's verdict exactly when its price is judged alike, a limit fill-or-kill that reaches the liquidity check does not fall between the recounted and the true depth, and the overflow check, once reached, comes out alike on the counted numbers and on the true ones |
| `LadderLaws.AcceptedTrades` | src/ladder_order_book.cpp:159-242 | An accepted event trades the true crossing quantity, whatever the scan counted |
| `LadderLaws.AcceptedFillOrKillFills` | src/ladder_order_book.cpp:221-242 | An accepted limit fill-or-kill trades the smaller of its quantity and the true depth: a buy is always filled whole, a sell exactly when the bids at or above its limit hold its quantity |
| `LadderLaws.LadderPostOnlyNeverTrades` | src/ladder_order_book.cpp:225-228 | An accepted post-only order trades nothing on the ladder either, miscounted or not |
| `LadderLaws.LadderImmediateNeverRests` | src/ladder_order_book.cpp:215-240 | Nor does an accepted add rest there that is a market order or not good-til-cancel |
| `LadderLaws.LadderEventsAreJudged` | src/ladder_order_book.cpp:194-296 | Which error every event gets from a ladder, as for the reference, with PriceOutOfRange for a positive price off the ladder and InvalidPrice for any other, both sides' quantity at the price in the overflow check, and the recount as the offer to a sell |
| `LadderLaws.LadderEventsAreDone` | src/ladder_order_book.cpp:159-310 | Every event a ladder accepts does what its fields say, as for the reference and whatever the scan counted |
| `LadderLaws.UnsafeIff` | src/ladder_order_book.cpp:229-239 | The events `Process` must not be given are exactly those that are accepted into an unsound book, and exactly those that pass the overflow check on the counted numbers and fail it on the true ones |
| `LadderLaws.OverflowIsReal` | src/ladder_order_book.cpp:229-239 | An accepted event ends with the traded quantity or the total at its price beyond 2^63 - 1, and with a broken invariant, exactly when the overflow check fails on the true numbers; so the condition on `Process` is tight |
| `LadderLaws.AgreementIsSafe` | src/ladder_order_book.cpp:229-239 | Cancels and buys never overflow, nor does a sell whose overflow check agrees |
| `LadderLaws.RoomIsEnough` | src/ladder_order_book.cpp:229-236 | When resting, traded and event quantities fit together in 64 bits, the overflow check agrees and nothing overflows |
| `LadderLaws.LadderStepIsReferenceStep` | src/ladder_order_book.cpp:298-310 | For every event on every book of the ladder the whole outcome, error, trades, queues and counters, is the reference's exactly under those conditions |
| `LadderMiscounts.TwoBidsRecount` | src/ladder_order_book.cpp:139-155 | On two adjacent bids the recount is twice the better one while the depth is their sum |
| `LadderMiscounts.FillOrKillLimits` | src/ladder_order_book.cpp:221-224 | On two adjacent bids the ladder finds liquidity for a fill-or-kill up to twice the better bid, the reference up to their sum |
| `LadderMiscounts.UnequalBidsMisjudge` | src/ladder_order_book.cpp:221-224 | Whenever two adjacent bids differ in size some fill-or-kill gets the wrong verdict |
| `LadderMiscounts.SellMayOverflow` | src/ladder_order_book.cpp:229-236 | For a family of plain sells that the reference refuses, the ladder accepts, and the traded quantity afterwards exceeds 2^63 - 1 |
| `LadderMiscounts.FillOrKillFillsPart` | src/ladder_order_book.cpp:139-155 | With bids 5 at 100 and 3 at 99 resting, processing a fill-or-kill for 10 at 99 succeeds and trades 5 and 3 |
| `LadderMiscounts.FillOrKillRefusedInDepth` | src/ladder_order_book.cpp:139-155 | With bids 1 at 100 and 100 at 99 resting, processing a fill-or-kill for 50 at 99 is refused although the depth is 101 |
| `LadderMiscounts.OverflowIsReachable` | src/ladder_order_book.cpp:229-236 | A sequence of processed adds leads to a sound state in which a sell the reference refuses as too large is accepted, and the step the code takes then leaves a traded quantity beyond 2^63 - 1 |
| `LadderMiscounts.PriceZeroRests` | src/ladder_order_book.cpp:194-207 | A ladder from price 0 accepts and rests a bid at price 0, which the reference refuses |
| `Replays.DirectReplay` | src/partition_lab_main.cpp:133-149 | Replaying a sequence through a baseline book gives the reference's final book and all its trades in order |
| `Replays.SlotForEveryAdd` | src/pooled_order_book.cpp:296-299 | With a slot for every add of a history the capacity rule never applies and the pool replays it as the reference does |
| `Replays.CapacityErrorIff` | src/pooled_order_book.cpp:289-299 | A pool whose book fits refuses with CapacityExceeded exactly the adds that the reference accepts but that would leave more orders than slots, and changes neither side then; to every other event it does what the reference does, so its book still fits |
| `Replays.PooledReplay` | src/pooled_order_book.cpp:380-392 | A pool replays every history as the capacity-bounded reference does |
| `Replays.PooledLedgerBalances` | src/pooled_order_book.cpp:289-307 | Over every history of a pool, refusals for capacity included, the invariant holds, the book fits into the slots and quantity is conserved |
| `Replays.RunRoom` | src/ladder_order_book.cpp:229-236 | Resting plus traded quantity never exceeds what a history offered |
| `Replays.LadderReplay` | src/ladder_order_book.cpp:298-310 | A ladder replays every history without an overflowing acceptance, sell fill-or-kills and out-of-range prices included, as its own step on the abstract book says |
| `Replays.LadderLedgerBalances` | src/ladder_order_book.cpp:159-310 | Quantity is conserved over every history of a ladder without an overflowing acceptance, whatever the sell scan miscounts |
| `LadderLaws.LadderStepKeepsRungs` | src/ladder_order_book.cpp:298-310 | Every event that does not overflow keeps the book sound and on the ladder |
| `Replays.LadderRunKeepsRungs` | src/ladder_order_book.cpp:298-310 | So does every such history |
| `Replays.LadderRunIsRun` | src/ladder_order_book.cpp:298-310 | A history at each of whose events the conditions of agreement hold is free of overflow and gives the reference's book and trades |
| `Replays.PlainHistoriesAgree` | src/ladder_order_book.cpp:298-310 | They hold throughout on a ladder of positive prices when limit prices are in range or not positive, no sell is a limit fill-or-kill, and the quantities add up to less than 2^63 |
| `Counters.SubWraps` | src/spsc_queue.hpp:24-28 | The wrapped difference of two counters is their true distance, and wrapped equality is equality, while the distance fits |
| `Counters.SlotsClashIff` | src/spsc_queue.hpp:29-43 | Across wrap-around slots of one window stay distinct exactly when the capacity divides 2^64 |
| `Spsc.WriteTouchesNoUnreadSlot` | src/spsc_queue.hpp:24-30 | A producer about to write touches no unread slot, nor the slot a pop in progress is about to read |
| `Spsc.StepKeepsQueue` | src/spsc_queue.hpp:20-46 | Every atomic step of either side, with any stale load it may see, keeps at most capacity unread elements, each in its slot, popped being a prefix of pushed |
| `Spsc.FifoBreaks` | src/spsc_queue.hpp:29-43 | If the capacity does not divide 2^64 some run from the empty ring pops an element that was not pushed in that place |
| `Spsc.AlwaysFifoIff` | src/spsc_queue.hpp:20-46 | Every run of a ring is first in, first out exactly when its capacity divides 2^64 |
| `Spsc.RunKeepsQueue` | src/spsc_queue.hpp:20-46 | Every interleaving keeps that invariant, however long, while at most 2^64 elements are written or the capacity divides 2^64 |
| `Spsc.RingIsFifo` | src/spsc_queue.hpp:20-46 | From an empty ring, under every such interleaving, the pops are a prefix of the pushes, the gap is at most the capacity and equals the wrapped difference of the two indices |
| `Spsc.RefusedChangesNothing` | src/spsc_queue.hpp:21-42 | A push is refused exactly when the index it loaded shows a full ring, a pop exactly when it shows an empty one, always at capacity 0; slots, indices and completed calls stay as they were |
| `SpscClass.SpscQueue.constructor` | src/spsc_queue.hpp:12-13 | A new queue is empty |
| `SpscClass.SpscQueue.TryPush` | src/spsc_queue.hpp:20-32 | A push succeeds exactly when there is room and puts the value last, the other contents staying as they were while the capacity divides 2^64 or fewer than 2^64 pushes went before; a refused push changes nothing |
| `SpscClass.SpscQueue.TryPop` | src/spsc_queue.hpp:34-46 | A pop succeeds exactly when there is an element and takes the oldest; otherwise the contents stay |
| `SpscClass.UnreadIsWindow` | src/spsc_queue.hpp:29-43 | The interleaved ring and the class hold the same unread elements |
| `Partition.RouteSymbol` | src/partition_lab_main.cpp:108-110 | The shard is what whole rounds of the shard count leave of the order id |
| `Partition.OneShardPerOrder` | src/partition_lab_main.cpp:105-110 | Events with one order id go to one shard |
| `Partition.ShareIsByRemainder` | src/partition_lab_main.cpp:197-212 | The share of a shard is every event whose id leaves the shard's number as remainder and no other, in input order, with its input position and its shard |
| `Partition.StartOk` | src/partition_lab_main.cpp:164-195 | The lab starts exactly when there is a shard and a slot, in a sound state with nothing routed and every ring empty and of the given capacity |
| `Partition.StepKeepsLab` | src/partition_lab_main.cpp:197-254 | Every step of the writer or of a matcher keeps the invariant of the lab |
| `Partition.SoundIsExact` | src/partition_lab_main.cpp:226-252 | In a sound state a shard has consumed a prefix of what was staged, staged a prefix of its share of the input, and its book and trades are those of what it consumed; if it exited, all three agree |
| `Partition.ExitedIsExact` | src/partition_lab_main.cpp:197-254 | Under every schedule from the start a matcher exits only with every event whose id leaves its shard's number consumed in input order, its book and trades being those of a direct replay |
| `Partition.FullCountsRefusals` | src/partition_lab_main.cpp:121-128 | Over any schedule a shard's full counter rises by exactly the number of pushes its ring refused |
| `Partition.StepLowersOrSpins` | src/partition_lab_main.cpp:197-254 | Every step that is not a refused push, an empty poll or a flag read before it is seen lowers a measure |
| `Partition.SomeStepDoesNotSpin` | src/partition_lab_main.cpp:203-251 | In every sound unfinished state such a step is possible: a blocked writer waits for a matcher that has something to pop |
| `Partition.CanFinish` | src/partition_lab_main.cpp:256-260 | From every sound state some schedule ends with the writer stopped and every matcher exited |
| `Partition.OnlySpinningIsEndless` | src/partition_lab_main.cpp:197-254 | The length of any schedule is bounded by its initial measure and its number of spins |
| `LittleEndian.EncodeThenDecode` | src/binary_event_codec.cpp:16-44 | Decoding the encoding of a value that fits gives the value back |
| `LittleEndian.DecodeThenEncode` | src/binary_event_codec.cpp:16-44 | Encoding the decoding of any bytes gives the bytes back |
| `LittleEndian.Put` | src/binary_event_codec.cpp:16-28 | The loop writes the encoding at the offset and leaves every other byte alone |
| `LittleEndian.Get` | src/binary_event_codec.cpp:30-44 | The loop reads the decoding of the bytes at the offset |
| `BinaryFormat.UnpackPack` | src/binary_event_codec.cpp:72-86 | The words of a packed record are the words it was packed from |
| `BinaryFormat.PackUnpack` | src/binary_event_codec.cpp:88-123 | Packing the words of a record gives the record back |
| `BinaryFormat.RecordRoundTrip` | src/binary_event_codec.cpp:72-123 | Decoding the record of any event gives that event |
| `BinaryFormat.PaddingIsTheOnlySlack` | src/binary_event_codec.cpp:72-123 | A record that decodes re-encodes to itself exactly when bytes 88 to 95 are zero |
| `BinaryFormat.EventIsLaidOut` | src/binary_event_codec.cpp:72-86 | An event's record holds its eleven fields as little-endian words at bytes 0, 8, up to 80: kind, id, side, price, quantity, order type, time in force, post-only, new price, new quantity, line number, the signed ones in two's complement; the rest is zero |
| `BinaryFormat.RecordReadsAs` | src/binary_event_codec.cpp:88-123 | A record reads as a bad enumeration exactly when the word at 0, 16, 40 or 48 is out of range, else as a bad post-only flag exactly when the word at 56 is, else as the event with those eleven fields |
| `Codec.MakeHeader` | src/binary_event_codec.cpp:62-70 | The header is the sixteen bytes ORDABIN and 1, then version 1 and record size 96, lowest byte first |
| `Codec.HeaderProblems` | src/binary_event_codec.cpp:133-146 | A file fails as truncated exactly when shorter than 16 bytes, else for its magic exactly when its first 8 bytes differ, else as unsupported exactly when bytes 8 to 15 are not version 1 and record size 96 |
| `Codec.EncodeEvent` | src/binary_event_codec.cpp:72-86 | The puts produce the record of the event, each field at its own offset and zero padding |
| `Codec.DecodeEvent` | src/binary_event_codec.cpp:88-123 | The reads and checks give each field from its own offset, enum errors before the post-only error |
| `Codec.WriteEvents` | src/binary_event_codec.cpp:179-184 | The file is the header followed by the records in order |
| `Codec.ParseBinary` | src/binary_event_codec.cpp:133-168 | The reader returns what the file parses to; its callback variant delivers the same events, and before a record error exactly the events that the file cut off ahead of that record parses to |
| `Codec.FileRoundTrip` | src/binary_event_codec.cpp:133-190 | Parsing what was written gives the same events, and a partial last record changes nothing |
| `Codec.FirstBadRecordIsReported` | src/binary_event_codec.cpp:151-157 | The first bad record is reported by its number and kind, whatever follows it |
| `Codec.WhatParsesWasWritten` | src/binary_event_codec.cpp:133-168 | A file that parses and has zero padding is the file of the events it parses to, up to a partial last record |

## Left out

* Benchmarks, workload generators, allocation probes, command lines, the visualizer and the text parser: measurement
  and input plumbing with no state of their own.
* `top_of_book`, `levels` and `format_book` of the three backends: projections of the queues that `Orders` lists.
* The hash digests of the partition lab: the proofs compare the books and trade lists themselves.
* `std::map` and `std::list` as such: an ordered map of levels is a price-sorted sequence, a FIFO list a sequence. The
  iterators of the baseline and ladder indexes are modelled as side and price, with the order found in its level by id,
  so iterator validity and the cost of that search are not modelled.
* `reserve_orders` of the baseline and the ladder, hash load factors, allocation failure: they do not change results.
* The throw on a missing slot in the pool is not modelled as a branch; it is proved unreachable, so `AddRestingOrder`
  requires a free slot.
* The fallback after the `switch` of each `process`: an event's kind is one of three values, so it cannot be reached.
* Counters of type `size_t` (requests, trades, slots in a chain, full-queue count) are natural numbers.
* C++ memory ordering beyond one abstraction: an acquire load of the other side's index may return any value between
  the last one seen and the current one, and a matcher that sees the done flag sees the final tail.
* Thread creation and joining, timestamps of routed events, and fairness of the scheduler: every schedule is covered,
  and a finite number of spins is a hypothesis, not a result.
* File streams: a file is a byte sequence, and open or write failures are not modelled. The check that a line number
  fits in `size_t` cannot fail on a 64-bit platform and has no branch.
- Ladder.LadderOrderBook.constructor: requires `maxPrice - minPrice < 2^63 - 1`, because the source computes the level count without an overflow check.
- Ladder.LadderOrderBook.AddOrderWithPolicy: requires that the event is not one the ladder accepts although it overflows, because signed overflow has no defined result; `LadderLaws.OverflowIsReal` proves that each excluded event does overflow and no other accepted one does.
- Ladder.LadderOrderBook.ModifyOrder: as for adds.
- Ladder.LadderOrderBook.Process: as for adds.
- Replays.LadderReplay: requires that no event of the history is accepted and overflows, for the same reason; `LadderLaws.OverflowIsReal` has both directions.
- SpscClass.SpscQueue.TryPush: says nothing of the older contents past 2^64 pushes unless the capacity divides 2^64, because the slots then clash; `Spsc.AlwaysFifoIff` has both directions.
