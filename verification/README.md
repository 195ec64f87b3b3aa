# Verified model of the exchange

This project models the core of a C++ limit order exchange in Dafny and proves what it promises: the order book
with its price levels, the single-producer single-consumer queue in front of it, the engine that routes messages to
one book per symbol, the event journal with its checksum, and the latency histogram. `dafny verify dfyconfig.toml`
checks everything.

## How it is laid out

- `Core` holds orders, trades and the fixed-width types. Prices, quantities and ids have the ranges of the
  source's integers, and unsigned 32-bit arithmetic wraps where the source's does.
- `PriceLevels` is the FIFO at one price: real `prev` and `next` pointers, the id index, the wrapping total. Every
  operation is proved to do to the linked list what a sequence of (id, quantity) pairs says.
- `BookModel` is the reference: one flat queue per side, sorted by price and arrival stamp, and a recursive matcher
  over it. `BookLaws`, `BookSafety`, `BookGuarantees` and `BookRuns` prove what the reference guarantees, for one
  call and for every run of adds, cancels and replaces. `BookOutcomes` says what a caller sees, in terms of the order
  and the two sides alone: prices, remainders, refusals, places.
- `OrderBooks` is the book in the heap: the id map, two maps of levels, two cached best prices, the pending trades.
  Each method carries a ghost copy of the reference book and is proved to leave the object equal to what the
  reference computes; the loops of the match and of the fill-or-kill check terminate on every such object.
  `BookQueues`, `BookEvents` and `LevelMaps` are the bridge, `BookViews` states the agreement of the stored forms.
- `Spsc` is the ring as two threads, one step per atomic load, atomic store and slot access, where an acquire load
  may return any store that is not older than what the thread has already seen. `SpscQueues` is the same ring as an
  object used by one thread, each call being a run of those steps.
- `EngineModel` and `Engines` put one book per symbol behind a queue. `EngineOutcomes` says what the callbacks are told:
  who bought, who sold, at what price, and what a report says of its order.
- `Crc`, `Bytes`, `JournalFormat`, `JournalEntries` and `Journals` are the checksum, the byte layout, the file as a
  sequence of entries, and the writer, the reader and the replay harness. `CrcDivision` proves the checksum to be the
  remainder of polynomial division, `JournalOutcomes` says byte by byte what is written and field by field what is
  handed back.
- `Histogram` is the log-linear histogram and its percentile walk.

A method whose loop or pointer work is modelled is specified by a function of the inputs or of the old state; what
the exchange promises is then proved about that function.

## Where the code falls short

The model follows the code. Where a promise fails, the model shows the input, and says when it holds:

- Price 0 reads as "no price" in the matching loop and only limit orders are checked for a positive price, so a
  post-only sell at 0 is crossed (`ZeroPriceCrosses`). Runs that avoid 0 never cross (`RunNeverCrosses`).
- An order stopped by self-trade prevention may rest although it crosses (`SelfTradeStopCrosses`). Which accepted
  orders cross the book can be read off it before the call (`AddLeavesUncrossed`).
- The fill-or-kill sum wraps at 32 bits: it may refuse what could be filled (`FokRefusedByWrap`), never accept what
  cannot. `FokWronglyRefusedIff` says when one order is refused wrongly, `FokExactIff` when no order is.
- A fill-or-kill can pass the pre-check and still not fill: self-trade prevention cuts it short after trades that stand
  (`FokCutShort`), or an offer at price 0 is counted and then skipped (`FokMissesAtZero`). When, is said by
  `FokAllOrNothing`; it may then leave trades waiting for a flush (`AddLeavesWaitingIff`).
- Replacing at the same price after a fill makes node and order disagree (`AmendAfterFillDisagrees`);
  `OrderBook.ReplaceOrder` keeps the stored forms in agreement exactly when nothing was filled and the new
  quantity is positive.
- A reprice cancels first; when the new order is refused the old one is gone (`RefusedRepriceLosesOrder`). When it is
  refused is said by `RepriceSucceedsIff`.
- The checksum table is filled only by a journal's constructor. A process that only reads works with zeros and
  accepts one checksum for each payload length, whatever the bytes: 0xFFFFFFFF for every entry a journal writes
  (`UnfilledTableChecks`).
- A journal appends to the file as it finds it: one byte left of a torn entry makes the next entry unreadable
  (`TornByteHidesNext`). What is appended can be read back, whatever the clock, exactly when the file ended with a
  whole entry (`AppendReadsBackIff`).
- `replay_until(0)` replays nothing although the first entry has number 0 (`ReplayUntilInOneSession`).
- The histogram's header speaks of latencies up to about one second, but its 256 buckets end at 32767: the last
  floor is 31744, and a floor is within 1/16 of its value exactly up to 33728 (`FloorWithinSixteenth`). A recorded
  minimum above one second is reported as one second (`LatencyHistogram.MinValue`).

## Model

| member | source | states |
|---|---|---|
| `Core.FillAccounts` | include/core/order.hpp:44-53 | a fill moves exactly min(fill, remaining) from remaining to filled, without wrap, touches only fill and status, and the order is filled iff nothing remains |
| `PriceLevels.PriceLevel.AddOrder` | src/engine/price_level.cpp:53-67 | in the linked list: the entry goes to the back and nothing else moves; list, index, count and 32-bit total stay in agreement |
| `PriceLevels.PriceLevel.FindNode` | src/engine/price_level.cpp:130-133 | the index finds the node of a listed id, with its place and quantity, and null exactly for an id not listed |
| `PriceLevels.PriceLevel.Unlink` | src/engine/price_level.cpp:135-145 | the pointer surgery leaves a doubly linked list of the other nodes in order, wherever the node stood |
| `PriceLevels.PriceLevel.RemoveOrder` | src/engine/price_level.cpp:69-80 | true iff the id is listed; then exactly its entry goes and the others keep their places; otherwise nothing changes |
| `PriceLevels.PriceLevel.ModifyQuantity` | src/engine/price_level.cpp:82-91 | true iff listed; then its quantity is replaced in place, its position and every other entry kept |
| `PriceLevels.PriceLevel.FrontOrderId` | src/engine/price_level.cpp:93-95 | the id of the oldest entry, or the invalid id when empty |
| `PriceLevels.PriceLevel.PopFront` | src/engine/price_level.cpp:101-117 | the oldest entry goes; on an empty level nothing happens |
| `PriceLevels.PriceLevel.FillFront` | src/engine/price_level.cpp:119-128 | the oldest entry loses the quantity, and leaves once the quantity covers it |
| `PriceLevels.ExtendAt` | src/engine/price_level.cpp:53-67 | appending: ids and sum of the longer queue, ids still distinct, and the 32-bit total moved by the quantity |
| `PriceLevels.CutAt` | src/engine/price_level.cpp:69-80 | removing from any position: remaining ids, distinctness, sum, and the 32-bit total after its one subtraction |
| `PriceLevels.UpdateAt` | src/engine/price_level.cpp:82-91 | changing one quantity: same ids in the same order, and the 32-bit total after its subtraction and addition |
| `BookLaws.SweepInOrder` | src/engine/order_book.cpp:228-262 | makers are hit in queue order from the front, each in full before the next; what is left of the queue is what the fills leave |
| `BookLaws.SweepEnds` | src/engine/order_book.cpp:202-214 | matching goes on until the order is filled, the side is empty, or the front may not trade with it |
| `BookLaws.SweepConserves` | src/engine/order_book.cpp:246-261 | the traded quantity is what the taker gained and what the other side lost; only fill and status of the taker change |
| `BookLaws.SweepClosedForm` | src/engine/order_book.cpp:198-273 | a second definition of matching, without its recursion: the k-th order in the queue trades exactly the taker size left after everyone ahead, capped by its own size, and nothing beyond reach |
| `BookLaws.SweepTotal` | src/engine/order_book.cpp:198-273 | in total min(taker size, quantity within reach) trades |
| `BookLaws.UnfilledLeaves` | src/engine/order_book.cpp:198-273 | an order left unfilled has used up everyone within its reach, and nobody else |
| `BookLaws.SweepKeepsSide` | src/engine/order_book.cpp:198-273 | the swept side stays sorted by price and arrival, ids unique, nothing filled resting, no better price than before |
| `BookSafety.SlotSplits` | src/engine/order_book.cpp:275-294 | a newcomer goes after everyone at a better or equal price and before everyone at a worse one |
| `BookSafety.AddKeepsBook` | src/engine/order_book.cpp:22-128 | adding keeps the book well formed, ids unique across both sides |
| `BookSafety.CancelKeepsBook` | src/engine/order_book.cpp:130-156 | cancelling keeps it well formed |
| `BookSafety.ReplaceKeepsBook` | src/engine/order_book.cpp:158-196 | a proper replace keeps it well formed |
| `BookSafety.AddBothSides` | src/engine/order_book.cpp:91-116 | what an add does to each side: the opposite one is swept, the own one gains at most the remainder |
| `BookSafety.FindIsOnItsSide` | src/engine/order_book.cpp:130-145 | a found order is on its own side only, under its own id |
| `BookGuarantees.AddLeavesUncrossed` | src/engine/order_book.cpp:91-116 | an accepted order leaves the book uncrossed iff it is not one that may rest, wants more than rests within its reach, and crosses the order that ends that reach; all read off the book before the call |
| `BookGuarantees.AddNeverCrosses` | src/engine/order_book.cpp:198-214 | with self-trade prevention off and no price 0, no add crosses or locks the book |
| `BookGuarantees.CancelNeverCrosses` | src/engine/order_book.cpp:130-156 | no cancel crosses the book |
| `BookGuarantees.ReplaceNeverCrosses` | src/engine/order_book.cpp:158-196 | no replace crosses the book, reprices included |
| `BookGuarantees.ZeroPriceCrosses` | src/engine/order_book.cpp:32-36 | counterexample: a post-only sell at price 0 is crossed by the next buy |
| `BookGuarantees.SelfTradeStopCrosses` | src/engine/order_book.cpp:239-244 | counterexample: a stopped order rests although it crosses |
| `BookGuarantees.RestsUntraded` | src/engine/order_book.cpp:111-116 | a day or good-till-cancel order of kind limit or post-only that passes the checks and may trade with nobody rests whole |
| `BookGuarantees.CrossingIsReach` | src/engine/order_book.cpp:205-214 | on a sorted side the orders whose price crosses are exactly those the sweep can reach |
| `BookGuarantees.FokAcceptsSoundly` | src/engine/order_book.cpp:70-89 | despite 32-bit wrap, what the pre-check accepts is really on offer |
| `BookGuarantees.FokAllOrNothing` | src/engine/order_book.cpp:70-111 | fill-or-kill under all settings: refused by the checks, the book is unchanged; past them, filled completely iff enough is within reach, else it takes what is there and the call fails unless it is also immediate-or-cancel; with self-trade prevention off and nobody at price 0 there is always enough |
| `BookGuarantees.CheckedOutcome` | src/engine/order_book.cpp:91-111 | any order past the checks, under all settings: filled iff enough is within its reach before the call, else all of that trades, one trade for each order there |
| `BookGuarantees.FokCutShort` | src/engine/order_book.cpp:103-110 | counterexample: with self-trade prevention on, a fill-or-kill passes the pre-check, trades half and is reported as failed with nothing filled |
| `BookGuarantees.FokMissesAtZero` | src/engine/order_book.cpp:205-207 | counterexample: an offer at price 0 is counted by the pre-check and skipped by the match, so an accepted fill-or-kill fails |
| `BookGuarantees.CheckedOrdersSucceed` | src/engine/order_book.cpp:103-127 | an add succeeds iff it passes the checks and is not a fill-or-kill with too little within reach; with self-trade prevention off and nobody at price 0 none is |
| `BookGuarantees.FokExactIff` | src/engine/order_book.cpp:76-84 | the pre-check is exact for every size iff the crossing quantity fits in 32 bits or some level brings the running sum to 2^32 - 1 modulo 2^32 |
| `BookGuarantees.FokWronglyRefusedIff` | src/engine/order_book.cpp:76-88 | one order is judged wrongly iff enough is on offer and every level leaves the wrapped running sum short; then the crossing quantity exceeds 32 bits |
| `BookGuarantees.FokExactWhenItFits` | src/engine/order_book.cpp:76-84 | accepted iff crossing quantity >= size, when the sum fits |
| `BookGuarantees.FokRefusedByWrap` | src/engine/order_book.cpp:76-84 | counterexample: two levels of 2^31 sum to 0 and a fillable order is refused |
| `BookGuarantees.TradesHonourPriority` | src/engine/order_book.cpp:228-262 | the k-th trade hits the k-th order of the queue: nobody behind has a better price, or the same price and an earlier arrival |
| `BookGuarantees.NewcomerQueuesLast` | src/engine/order_book.cpp:275-281 | a resting newcomer stands behind everyone at its price, with the latest stamp |
| `BookGuarantees.RepriceLosesPriority` | src/engine/order_book.cpp:184-195 | a repriced order stands behind everyone at the new price, with a new stamp |
| `BookGuarantees.RepriceSucceedsIff` | src/engine/order_book.cpp:184-195 | a reprice of a resting order succeeds iff the quantity is positive, a limit price is positive, and a post-only order does not hit the opposite best under rejection; otherwise the old order is lost and nothing trades |
| `BookGuarantees.RefusedRepriceLosesOrder` | src/engine/order_book.cpp:189-195 | counterexample: a resting limit order repriced with quantity 0 is gone and the call fails |
| `BookGuarantees.OnlyLimitsRest` | src/engine/order_book.cpp:98-116 | market, immediate-or-cancel and fill-or-kill orders leave nothing on their own side |
| `BookGuarantees.PostOnlyNeverTakes` | src/engine/order_book.cpp:52-68 | with rejection enabled a post-only order never trades; refused, the book is unchanged |
| `BookGuarantees.ReportsTellTheFill` | src/engine/order_book.cpp:98-120 | every report of an accepted order carries what its trades sum to and says filled iff it is; a cut-short immediate-or-cancel order is reported once more |
| `BookGuarantees.CancelUndoesAdd` | src/engine/order_book.cpp:130-156 | cancelling an order that rested without trading gives back both queues exactly |
| `BookOutcomes.SweepWithinLimit` | src/engine/order_book.cpp:202-214 | whoever has a limit trades at it or better: a buy never above its price, a sell never below |
| `BookOutcomes.SweepTakesAll` | src/engine/order_book.cpp:202-214 | an order that could take more leaves at the front only somebody strictly beyond its limit, at price 0 or protected from it; a market order has no limit |
| `BookOutcomes.NothingAtZero` | src/engine/order_book.cpp:202-207 | nobody resting at price 0 is ever traded with |
| `BookOutcomes.NoSelfTrade` | src/engine/order_book.cpp:239-244 | with self-trade prevention on, nobody trades with an order whose id is within 99 of its own, going round at 2^64 |
| `BookOutcomes.AddTradesAtItsPrices` | src/engine/order_book.cpp:22-128 | a whole add keeps to its limit, and after a success with a remainder nobody it could still trade with is in front |
| `BookOutcomes.RemainderRests` | src/engine/order_book.cpp:98-116 | a day or good-till-cancel order of kind limit or post-only that succeeds rests exactly what it has not traded, under its id, at its price, between unchanged neighbours; after any other add the own side is unchanged |
| `BookOutcomes.SidesAreInOrder` | src/engine/order_book.cpp:275-294 | bids fall and asks rise in price, and at one price the arrival stamps rise |
| `BookOutcomes.AddSucceedsUnless` | src/engine/order_book.cpp:26-127 | the refusals in their order: quantity 0, a limit price not positive, an id that rests, a post-only order whose limit reaches the opposite best; any order but a fill-or-kill succeeds otherwise and reports what it traded |
| `BookOutcomes.RefusalTouchesNothing` | src/engine/order_book.cpp:26-89 | a refused order that is no fill-or-kill changes nothing and trades nothing; only a refused post-only order is reported, unfilled |
| `BookOutcomes.FokSucceedsIff` | src/engine/order_book.cpp:70-111 | with prevention off, nobody at price 0 and an offer that fits in 32 bits, a fill-or-kill free of other reasons succeeds iff the quantity within its limit covers it, and is then filled; otherwise nothing happens |
| `BookOutcomes.CancelKeepsPlaces` | src/engine/order_book.cpp:130-156 | a cancel takes out exactly the order of that id, everybody else keeps their place; without such an order nothing changes |
| `BookOutcomes.AmendKeepsPlaces` | src/engine/order_book.cpp:168-181 | a same-price replace changes the quantity of that order and nothing else, places included |
| `BookOutcomes.RepriceTakesNewTerms` | src/engine/order_book.cpp:184-195 | a reprice trades within the new price at most the new quantity, and what is left of that rests at the new price |
| `BookOutcomes.FillTellsStatus` | include/core/order.hpp:44-53 | after a fill the status is filled when nothing remains and partially filled otherwise |
| `BookRuns.RunKeepsBook` | src/engine/order_book.cpp:22-196 | every run of adds, cancels and replaces keeps the book well formed |
| `BookRuns.RunNeverCrosses` | src/engine/order_book.cpp:22-214 | no run crosses or locks the book, self-trade prevention off and price 0 avoided |
| `BookRuns.ReachableBooksAreTidy` | src/engine/order_book.cpp:9-214 | every book reached from the empty one is well formed and uncrossed |
| `BookRuns.RunKeepsKinds` | src/engine/order_book.cpp:98-116 | over every run only limit and post-only orders that are neither immediate-or-cancel nor fill-or-kill rest |
| `BookRuns.AddConserves` | src/engine/order_book.cpp:91-116 | an add: per side, quantity accepted = traded + resting + discarded; the trades sum to the reported fill |
| `BookRuns.ReplaceConserves` | src/engine/order_book.cpp:158-196 | a replace: the resting quantity changes by the amendment, or by cancelled and newly accepted quantity |
| `BookRuns.RunConserves` | src/engine/order_book.cpp:22-196 | over every run and per side: accepted + amendments = traded + resting + cancelled + discarded |
| `BookRuns.RunHonoursPriority` | src/engine/order_book.cpp:228-262 | in every reachable book the order traded with has priority over everyone behind it |
| `BookQueues.QueueInserted` | src/engine/order_book.cpp:278-279 | inserting into the flat side appends to the queue of that price and leaves the others |
| `BookQueues.QueueRemoved` | src/engine/order_book.cpp:296-307 | removing from the flat side removes from the queue of its price only |
| `BookQueues.QueueRequantified` | src/engine/order_book.cpp:171-176 | requantifying the flat side edits one queue in place |
| `BookQueues.QueueFrontHit` | src/engine/order_book.cpp:246-251 | hitting the front of the side is filling the front of the best level |
| `BookEvents.FindAfterJoin` | src/engine/order_book.cpp:281-281 | after an insertion the id map finds the newcomer and everyone it found before |
| `BookEvents.FindAfterCancel` | src/engine/order_book.cpp:144-146 | after a removal it finds everyone but the removed order |
| `BookEvents.CrossingInIsUpTo` | src/engine/order_book.cpp:76-82 | the sum over visited levels is the crossing quantity up to their highest price |
| `LevelMaps.FillFrontAt` | src/engine/order_book.cpp:246-251 | filling the front of the best level in the heap makes the map hold the side with its front hit |
| `LevelMaps.AppendAt` | src/engine/order_book.cpp:278-279 | a missing level is created, the order goes to the back of its level, every other level is untouched |
| `LevelMaps.RemoveAt` | src/engine/order_book.cpp:296-307 | the order leaves its level, an emptied level leaves the map, no empty level remains |
| `LevelMaps.ModifyAt` | src/engine/order_book.cpp:168-176 | after an in-place change the map holds the changed side iff nothing of the order had been filled |
| `BookViews.AmendAfterFillDisagrees` | src/engine/order_book.cpp:168-181 | counterexample: 10 rest, 4 trade, replaced by 8 at the same price: the level holds 8, the order says 4; by 3, the order says 2^32 - 1 |
| `OrderBooks.OrderBook.constructor` | src/engine/order_book.cpp:9-18 | an empty book with sentinel bests, all stored forms in agreement |
| `OrderBooks.OrderBook.FlushTrades` | src/engine/order_book.cpp:350-358 | everything pending is delivered in order, nothing is lost or repeated |
| `OrderBooks.OrderBook.EmitTrade` | src/engine/order_book.cpp:325-348 | one trade with the next number joins what was emitted, whether sent at once, pending or flushed; how many are pending follows the batch size |
| `OrderBooks.OrderBook.EmitReport` | src/engine/order_book.cpp:460-482 | one report with the next number and what is left of the order joins the reports, when anyone listens |
| `OrderBooks.OrderBook.UpdateBest` | src/engine/order_book.cpp:309-323 | the recomputed best is the price of the front order of the flat side, or the sentinel |
| `OrderBooks.OrderBook.SweepLevel` | src/engine/order_book.cpp:226-271 | the inner loop with its clean-up keeps all stored forms in agreement and follows the reference matcher |
| `OrderBooks.OrderBook.MatchOrder` | src/engine/order_book.cpp:198-273 | the nested loops terminate and leave the same order, resting side and trades as the reference matcher |
| `OrderBooks.OrderBook.InsertResting` | src/engine/order_book.cpp:275-294 | the incremental best update agrees with the new front; the order takes its slot and a new stamp |
| `OrderBooks.OrderBook.LeaveLevel` | src/engine/order_book.cpp:142-152 | level removal and best update together: exactly that order leaves, bests are those of the shorter side |
| `OrderBooks.OrderBook.FokCheck` | src/engine/order_book.cpp:70-89 | the loop with its early exit accepts iff some wrapped prefix sum over levels in price order reaches the size |
| `OrderBooks.OrderBook.Check` | src/engine/order_book.cpp:26-89 | the checks decide the verdict of the reference, in the order of the source |
| `OrderBooks.OrderBook.AddOrder` | src/engine/order_book.cpp:22-128 | book, result, trades, reports and numbering are the reference's; nothing is pending after a success, and after a failure what the batches left |
| `OrderBooks.OrderBook.CancelOrder` | src/engine/order_book.cpp:130-156 | success iff the id rests; then exactly that order leaves; no message is sent |
| `OrderBooks.OrderBook.AmendInPlace` | src/engine/order_book.cpp:168-181 | same-price replace: place and fill kept; all stored forms still agree iff nothing was filled and the quantity is positive |
| `OrderBooks.OrderBook.Reprice` | src/engine/order_book.cpp:184-195 | cancel then add under the same id: book, result, trades and reports of the reference |
| `OrderBooks.OrderBook.ReplaceOrder` | src/engine/order_book.cpp:158-196 | the reference's replace; the stored forms agree afterwards iff the replacement was proper |
| `OrderBooks.OrderBook.BestFacts` | src/engine/order_book.cpp:309-323 | the cached best is the front price, in the map, and the sentinel iff the side is empty |
| `BookViews.OrderIsListed` | src/engine/order_book.cpp:275-281 | every order of the id map is listed in the level of its own side and price with quantity remaining() > 0 |
| `BookViews.ListedIsOrder` | src/engine/order_book.cpp:275-307 | every listing is an order of the id map at its own side and price, so each is listed exactly once |
| `BookViews.LevelIsQueue` | src/engine/order_book.cpp:296-307 | no level in a map is empty; each holds the queue of its price in arrival order |
| `BookViews.BestIsExtreme` | src/engine/order_book.cpp:309-323 | the cached best bid is the greatest key, the cached best ask the least, or the sentinel when the map is empty |
| `BookViews.OneViewPerBook` | src/engine/order_book.cpp:275-323 | the stored state is determined by the two queues, whatever the history |
| `BookViews.AddThenCancel` | src/engine/order_book.cpp:22-156 | add without trading, then cancel, restores id map, every queue and both cached bests exactly |
| `BookViews.Depth` | src/engine/order_book.cpp:410-458 | the snapshot lists the best levels, best first, with their totals and counts; no better level is left out |
| `EngineModel.PlayIsRun` | src/engine/matching_engine.cpp:31-83 | what a symbol's commands do to its book is a run of the order book |
| `EngineModel.RunKeepsNumbers` | src/engine/order_book.cpp:331-331 | over every run and across calls, trade numbers strictly increase, execution ids strictly increase, and no number is used twice |
| `EngineModel.TradesSumToLedger` | src/engine/order_book.cpp:246-257 | bought is sold: over every run the quantities of the emitted trades sum to what the ledger of either side has traded |
| `EngineModel.PlayDelivers` | src/engine/order_book.cpp:340-357 | a command only adds to what was delivered, in the order of emission, under the book's own symbol |
| `EngineModel.SmoothRunsDeliver` | src/engine/order_book.cpp:122-124 | on a smooth run nothing waits for a flush after any command |
| `EngineModel.AddLeavesWaitingIff` | src/engine/order_book.cpp:103-124 | from nothing waiting, an add leaves trades waiting for a flush iff it is a fill-or-kill that passes the checks with too little within reach, trades are batched, and the orders within reach do not fill whole batches |
| `EngineModel.BatchingIsInvisible` | src/engine/order_book.cpp:122-124 | on a smooth run (no self-trade prevention, no order at price 0, nothing pending at the start) the calls of the trade callback are the same in the same order for any batching and any batch size |
| `EngineModel.SymbolsDoNotInterfere` | src/engine/matching_engine.cpp:31-83 | after any messages each symbol's book, trades and reports are those of a lone book given only its own commands |
| `EngineModel.EachBookIsAlone` | src/engine/matching_engine.cpp:31-83 | after any direct calls or queued messages the same symbols exist and each book has said what it would have said alone |
| `EngineModel.CallsSplitBySymbol` | src/engine/matching_engine.cpp:15-21 | from blank books, after any messages, the calls of each shared callback, taken symbol by symbol, are what each book delivered or reported: none lost, repeated or out of its book's order |
| `EngineModel.AcceptableForEach` | src/engine/matching_engine.cpp:31-83 | messages proper for the engine are proper runs for each book |
| `EngineModel.NoBookIsCrossed` | src/engine/matching_engine.cpp:31-141 | no stream of messages over any symbols crosses or locks any book |
| `EngineModel.ProcessedCommutes` | src/engine/matching_engine.cpp:119-141 | the queue's own counter does not affect any call |
| `EngineOutcomes.AddNamesItsParties` | src/engine/order_book.cpp:246-257 | the k-th trade an add emits is with the k-th order of the opposite side, at its price, for its share of the size; a buy names itself as buyer and that order as seller, a sell the other way round |
| `EngineOutcomes.RepriceNamesItsParties` | src/engine/order_book.cpp:184-195 | the same for a reprice, with the side and id of the repriced order |
| `EngineOutcomes.RunTraders` | src/engine/order_book.cpp:253-257 | over every run the buyer of a trade rested as a bid or was sent as a buy order, the seller rested as an ask or was sent as a sell order |
| `EngineOutcomes.AddReportsItself` | src/engine/order_book.cpp:460-482 | the reports of an accepted order, field by field: its id, symbol, side and price, what its trades sum to, what is left, and the status that follows |
| `EngineOutcomes.DirectCounts` | src/engine/matching_engine.cpp:31-69 | the counters: orders received, cancels that found their order, and one match, one execution and the traded quantity for an order that succeeded with trades |
| `Engines.Perform` | src/engine/order_book.cpp:22-196 | one command on a book object changes book, trades, reports and numbering as the model says |
| `Engines.PerformAll` | src/engine/order_book.cpp:22-196 | a lone book through a list of commands; on a smooth run everything emitted is delivered |
| `Engines.PerformBoth` | src/engine/order_book.cpp:340-357 | two book objects differing in batching only, given the same smooth commands: after every command both callbacks have had the same calls and nothing is pending |
| `Engines.MatchingEngine.AddSymbol` | src/engine/matching_engine.cpp:12-25 | the symbol gets a blank book, replacing an earlier one; all other books stay as they are |
| `Engines.MatchingEngine.GetBook` | src/engine/matching_engine.cpp:155-158 | null iff the symbol is unknown |
| `Engines.MatchingEngine.OthersKeep` | src/engine/matching_engine.cpp:31-51 | whatever happens within one book's memory, every other book and the queue are as before |
| `Engines.MatchingEngine.SubmitOrder` | src/engine/matching_engine.cpp:31-51 | an unknown symbol is rejected and counted; otherwise the book's own result, exactly that book changed, counters updated, and its deliveries added to the calls of the shared callbacks |
| `Engines.MatchingEngine.CancelOrder` | src/engine/matching_engine.cpp:53-69 | likewise; success iff the order rests in that symbol's book |
| `Engines.MatchingEngine.ReplaceOrder` | src/engine/matching_engine.cpp:71-83 | likewise for replace: for a known symbol the book's own success, and its whole result on a reprice; its fills reach no counter |
| `Engines.MatchingEngine.Enqueue` | src/engine/matching_engine.cpp:85-109 | refused iff 65535 messages wait; otherwise the message goes to the back; no book changes |
| `Engines.MatchingEngine.ProcessOne` | src/engine/matching_engine.cpp:119-141 | false iff the queue is empty; otherwise the front message has the effect of its direct call |
| `Engines.MatchingEngine.ProcessQueue` | src/engine/matching_engine.cpp:111-117 | queued equals direct: the books, counters and callback calls, in order, of the direct calls in queue order; each book has said what it would have said alone with its own messages; the queue is empty and every message counted |
| `Spsc.MaskIsMod` | include/utils/spsc_queue.hpp:34-34 | masking with a power of two minus one is the remainder |
| `Spsc.CapacityIsPowerOfTwo` | include/utils/spsc_queue.hpp:13-15 | what the static assertions admit are powers of two |
| `Spsc.StepKeeps` | include/utils/spsc_queue.hpp:32-60 | every step of either thread, with any load the memory model allows, keeps the invariant |
| `Spsc.RunKeeps` | include/utils/spsc_queue.hpp:32-60 | every interleaving of any length keeps it |
| `Spsc.FirstInFirstOut` | include/utils/spsc_queue.hpp:32-60 | in every reachable state pushed = popped ++ the circular slice from tail to head, fewer than capacity items held: nothing lost, duplicated or reordered |
| `Spsc.SlotsDoNotCollide` | include/utils/spsc_queue.hpp:40-57 | the producer's write and the consumer's read are never poised on the same slot |
| `Spsc.ReadSeesItsPush` | include/utils/spsc_queue.hpp:52-57 | a read follows an acquired store that covers its push, and no later push has touched the slot |
| `Spsc.WriteFollowsPops` | include/utils/spsc_queue.hpp:35-40 | a write follows acquired stores covering every earlier pop of that slot |
| `Spsc.PushFailsIffFull` | include/utils/spsc_queue.hpp:35-38 | a push gives up iff the ring was full as of the tail it loaded; with a current load, iff full |
| `Spsc.PopFailsIffEmpty` | include/utils/spsc_queue.hpp:52-56 | a pop gives up iff the ring was empty as of the head it loaded; with a current load, iff empty |
| `Spsc.SizeIsExact` | include/utils/spsc_queue.hpp:78-87 | between operations the approximate size is exact despite unsigned wrap, and empty is right |
| `SpscQueues.SpscQueue.TryPush` | include/utils/spsc_queue.hpp:32-43 | false iff capacity - 1 items wait; otherwise the item goes to the back; the steps the call returns are a run of the two-thread model |
| `SpscQueues.SpscQueue.TryPop` | include/utils/spsc_queue.hpp:50-60 | nothing iff empty, otherwise the oldest item, which leaves; the steps are a run of the two-thread model |
| `Crc.ByteDividesOut` | src/replay/event_journal.cpp:98-98 | eight bit steps split into a table entry for the low byte and a shift of the rest |
| `Crc.CrcTable.Init` | src/replay/event_journal.cpp:16-27 | fills all 256 entries with eight bit steps each, once; a second call changes nothing |
| `Crc.ComputeChecksum` | src/replay/event_journal.cpp:93-102 | the loop computes the table-driven fold over the whole payload |
| `Crc.TableCrcIsBitwise` | src/replay/event_journal.cpp:93-102 | the table-driven register equals the bit-by-bit one on every byte string |
| `Crc.ChecksumIsCrc32` | src/replay/event_journal.cpp:93-102 | with a filled table the checksum is the bit-by-bit CRC-32, for every payload |
| `CrcDivision.Crc32IsRemainder` | src/replay/event_journal.cpp:16-27 | which CRC that is, for every byte string: with bytes taken least significant bit first, the first 32 bits complemented and 32 zeros appended, it is the complemented and reflected remainder of long division over GF(2) by the generator of RFC 1952, given by its exponents |
| `CrcDivision.BitsDetermine` | src/replay/event_journal.cpp:93-102 | those 32 bits determine the checksum |
| `CrcDivision.CheckValue` | src/replay/event_journal.cpp:93-102 | the CRC-32 of the digits 1 to 9 is 0xCBF43926 |
| `CrcDivision.RegisterHoldsRemainder` | src/replay/event_journal.cpp:98-98 | the shift register after any bits is the remainder of those bits and what it held before |
| `Crc.UninitialisedTable` | src/replay/event_journal.cpp:13-14 | with a table still zero the sum depends on the length alone, and is 0xFFFFFFFF from four bytes on |
| `Crc.BurstIsDetected` | src/replay/event_journal.cpp:93-102 | payloads of equal length differing only within four consecutive bytes have different checksums |
| `JournalFormat.HeaderRoundTrip` | include/replay/event_journal.hpp:28-35 | the 32 header bytes read back as the header |
| `JournalFormat.OrderRoundTrip` | include/replay/event_journal.hpp:40-50 | the 48 payload bytes read back as the order, whatever the padding, negative prices included |
| `JournalFormat.TradeRoundTrip` | include/replay/event_journal.hpp:55-64 | the 56 payload bytes read back as the trade |
| `JournalFormat.DamageChangesCrc` | src/replay/event_journal.cpp:204-219 | damage within four neighbouring payload bytes changes the checksum |
| `JournalEntries.ReadsBack` | src/replay/event_journal.cpp:147-172 | reading back any log yields exactly its entries, in order |
| `JournalEntries.CrashPrefix` | src/replay/event_journal.cpp:147-172 | any byte prefix of the file yields exactly the entries wholly inside it |
| `JournalEntries.WholeInside` | src/replay/event_journal.cpp:147-172 | every prefix length has such a number of whole entries |
| `JournalEntries.TornByteHidesNext` | src/replay/event_journal.cpp:29-40 | counterexample to appending after a crash: after one stray byte the next order entry cannot be read |
| `JournalEntries.AppendReadsBackIff` | src/replay/event_journal.cpp:29-40 | an entry appended to a log and some torn bytes reads back after that log, whatever the clock, iff there are no torn bytes |
| `JournalEntries.OrderEntryReplays` | src/replay/event_journal.cpp:265-273 | an order entry as written passes the check and replays as its record, or not at all under a non-order type |
| `JournalEntries.TradeEntryReplays` | src/replay/event_journal.cpp:275-281 | a trade entry as written passes the check and replays as its record |
| `JournalOutcomes.OrderIsDelivered` | src/replay/event_journal.cpp:46-62 | an order entry is delivered iff it is an order event, once, with the id, symbol, price and quantity of the order, its time modulo 2^64, and the enumeration values of its side, kind and time in force |
| `JournalOutcomes.TradeIsDelivered` | src/replay/event_journal.cpp:64-79 | a trade entry is delivered once, with symbol, price, quantity, both parties and aggressor of the trade and its number modulo 2^64 |
| `JournalOutcomes.JournalTellsAll` | src/replay/event_journal.cpp:236-288 | replaying the bytes of any journal of orders and trades calls back once for each, in the order logged, with what was logged |
| `JournalOutcomes.HeaderLayout` | include/replay/event_journal.hpp:28-35 | the offsets and little-endian bytes of the header |
| `JournalOutcomes.OrderEntryLayout` | include/replay/event_journal.hpp:40-50 | the header of an order entry, and the offsets and bytes of id, symbol, price, quantity and time, prices in two's complement |
| `JournalOutcomes.OrderEntryCodes` | src/replay/event_journal.cpp:50-53 | its bytes for side, kind and time in force |
| `JournalOutcomes.TradeEntryLayout` | include/replay/event_journal.hpp:55-64 | the header of a trade entry and the offsets and bytes of all its fields |
| `JournalOutcomes.DigitAt` | include/replay/event_journal.hpp:28-64 | byte k of a stored number n is n / 256^k modulo 256 |
| `JournalEntries.FirstFromMeans` | src/replay/event_journal.cpp:181-187 | the seek target is the first entry numbered s or later |
| `JournalEntries.SeekInOneSession` | src/replay/event_journal.cpp:174-190 | in a one-session file it is entry s, when there is one |
| `JournalEntries.ReplayUntilInOneSession` | src/replay/event_journal.cpp:244-250 | a fresh replay to s steps through entries 0 to s, and through none for s = 0 |
| `JournalEntries.DamageIsCaught` | src/replay/event_journal.cpp:204-219 | an entry that passes the check fails it after any damage within four neighbouring payload bytes |
| `JournalEntries.UnfilledTableChecks` | src/replay/event_journal.cpp:204-219 | without a filled table the check accepts one checksum for each payload length, whatever the bytes, and for four bytes or more that is 0xFFFFFFFF; an empty payload never passes |
| `JournalEntries.VerifiedReplaysAlike` | src/replay/event_journal.cpp:290-327 | files that verify against each other replay to the same deliveries |
| `Journals.EventJournal.constructor` | src/replay/event_journal.cpp:29-40 | the table is filled, numbering starts at 0, the existing contents stay in front |
| `Journals.EventJournal.LogOrder` | src/replay/event_journal.cpp:46-62 | exactly one whole entry is appended, numbered next, its checksum the CRC-32 of its payload |
| `Journals.EventJournal.LogTrade` | src/replay/event_journal.cpp:64-79 | likewise for a trade |
| `Journals.EventJournal.FileReadsBack` | src/replay/event_journal.cpp:46-91 | the file of any number of sessions reads back as all that was logged; one session is numbered 0, 1, 2, ... |
| `Journals.JournalReader.ReadNext` | src/replay/event_journal.cpp:147-172 | the next whole entry and the position after it, or failure iff the rest is cut short, after which no entry counts as read |
| `Journals.JournalReader.SeekToSequence` | src/replay/event_journal.cpp:174-190 | true iff some entry is numbered s or later; then the next read returns the first such |
| `Journals.JournalReader.VerifyChecksum` | src/replay/event_journal.cpp:204-219 | true iff the last read succeeded, its payload is not empty and its sum matches |
| `Journals.ReplayHarness.Step` | src/replay/event_journal.cpp:252-288 | one entry consumed, the matching callback called iff set and the payload is long enough |
| `Journals.ReplayHarness.ReplayAll` | src/replay/event_journal.cpp:236-242 | every readable entry is delivered once, in order |
| `Journals.ReplayHarness.ReplayUntil` | src/replay/event_journal.cpp:244-250 | stops after the first entry that reaches the target, with the rest still to be read |
| `Journals.ReplayHarness.VerifyAgainst` | src/replay/event_journal.cpp:290-327 | true iff both files hold the same number of sound entries, equal but for timestamps |
| `Histogram.BucketsMatchValues` | include/utils/histogram.hpp:102-123 | bucket_to_value(b) <= v iff b <= value_to_bucket(v), for every bucket and value |
| `Histogram.BucketParts` | include/utils/histogram.hpp:114-123 | the floor of bucket 128 + 16 q + f is (16 + f) 2^(3 + q) |
| `Histogram.BucketsKeepOrder` | include/utils/histogram.hpp:102-112 | value_to_bucket is monotone and its floor never exceeds the value |
| `Histogram.BucketOfFloor` | include/utils/histogram.hpp:102-123 | value_to_bucket inverts bucket_to_value on all 256 buckets |
| `Histogram.FloorWithinSixteenth` | include/utils/histogram.hpp:102-123 | the floor is within 1/16 of itself of the value iff the value is at most 33728 |
| `Histogram.WalkStopsAtRank` | include/utils/histogram.hpp:47-54 | the bucket where the running total first reaches k is that of the k-th smallest recorded value |
| `Histogram.SortedHasRank` | include/utils/histogram.hpp:41-56 | the rank used here is the position in the sorted record |
| `Histogram.EveryRankIsHeld` | include/utils/histogram.hpp:41-56 | every rank from 1 to count is that of some recorded value |
| `Histogram.LatencyHistogram.Reset` | include/utils/histogram.hpp:21-27 | nothing recorded |
| `Histogram.LatencyHistogram.Record` | include/utils/histogram.hpp:30-38 | one more value recorded: count, wrapped sum, extremes and exactly its bucket |
| `Histogram.LatencyHistogram.Merge` | include/utils/histogram.hpp:76-84 | the merged histogram is that of both records, also when merged with itself |
| `Histogram.LatencyHistogram.Percentile` | include/utils/histogram.hpp:41-56 | for ranks 1 to count the floor of the rank-th smallest recorded value; 0 when empty or for rank 0; the maximum beyond |
| `Histogram.LatencyHistogram.MinValue` | include/utils/histogram.hpp:68-68 | the least recorded value, reported as one second when all exceed it, 0 when empty |

## Left out

- PriceLevels.PriceLevel.AddOrder: asks for an id not yet listed; the level would overwrite its index entry, the book never calls it so because it rejects duplicates first.
- OrderBooks.OrderBook.AddOrder: asks that nothing of the order is filled on arrival and that an order that may rest is not priced at the sentinel INVALID_PRICE, which the source does not check.
- OrderBooks.OrderBook.ReplaceOrder: on a reprice asks that the new price of an order that may rest is not the sentinel; the fields of the result that the source leaves unset are not constrained.
- OrderBooks.OrderBook.CancelOrder: reads the side before erasing the order, where the source reads it through the erased iterator.
- Histogram.LatencyHistogram.Record: count and bucket counters are unbounded; only the sum wraps at 64 bits.
- Histogram.LatencyHistogram.Percentile: takes the integer target rank; its computation from a percentage in double precision is not modelled.
- Journals.EventJournal.LogOrder: the byte count of the session is unbounded; the clock and the struct padding are parameters.
- Engines.MatchingEngine.AddSymbol: one map stands for the two that the source writes together; symbol hashing is left out.
- Engines.Perform: asks of a command what the order book asks: nothing filled on arrival, no sentinel price for an order that may rest, and a same-price replace of an unfilled order to a positive quantity (after any other the stored forms disagree, so no later command is covered).
- Engines.PerformAll: asks the same of each command when its turn comes.
- Engines.MatchingEngine.SubmitOrder: asks that nothing of the order is filled and no sentinel price for an order that may rest, if its symbol is known.
- Engines.MatchingEngine.ReplaceOrder: asks the same of a reprice, and of a same-price replace that the order is unfilled and the new quantity positive, if the symbol is known.
- Engines.MatchingEngine.ProcessOne: asks the same of the message at the front of the queue.
- Engines.MatchingEngine.ProcessQueue: asks the same of each queued message when its turn comes; the calls of the trade callback and those of the execution callback are two logs; how the two interleave with each other is not stated.
- SpscQueues.SpscQueue.TryPush: the blocking push and pop, whose ending needs a fair scheduler, are not modelled.
- `avg_fill_price`, which is the order's price rather than an average, and the execution report fields derived from it.
- The best-bid-offer callback and its last-sent prices.
- Timestamps of trades, reports and orders in the book; callbacks that call back into the book or are changed in the middle of a run.
- Sequence numbers, execution ids, order counts and statistics are unbounded.
- Self-trade prevention between ids exactly 2^63 apart, where the source's absolute value overflows; order quantities beyond the types' ranges.
- Spread, mid price and quantity lookups, which only read the state described above.
- Move and copy operations, destructors and memory release; `FixedPriceLevel`, `EngineRunner`, `CounterHistogram`, agents, tools and the command line.
- Files as streams: the journal is a byte sequence and a read position, a file that grows while it is read is not covered, nor is running out of memory on a corrupt size.
- An order whose enumeration bytes are out of range on replay is delivered with those bytes.
