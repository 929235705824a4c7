# Verified model of the market data aggregator

The aggregator collects price updates from up to eight exchanges through a blocking queue, keeps one
consolidated order book, and publishes it about once a second to clients that compute notional
volume bands, price bands and session statistics. This project models that system in Dafny and
proves what its parts and the whole of it promise.

## What is modelled

- `Market.dfy`, `Slots.dfy`: updates, quotes, books, and the eight per-exchange quantities of a price level.
- `Levels.dfy`: one side of the book as a value, and what one update does to it.
- `Aggregator.dfy`: the aggregator as it runs. Quantities are a fixed buffer written in place; each
  side's ordered map is a sorted array that is searched by bisection, shifted open and shifted closed
  in place. Every method is proved against `Levels.dfy`.
- `Consolidation.dfy`: the meaning of the book (last writer wins for every side, price and exchange)
  and the theorems about whole runs of updates.
- `Independence.dfy`: for which quantities the book does not depend on how the exchanges' streams
  interleave; the same condition decides refinement, pruning and withdrawal.
- `Sweep.dfy`, `NotionalBands.dfy`: the greedy notional sweep, its optimality, and the rows and labels of the client.
- `Depth.dfy`: the price bands and their duality with the notional sweep.
- `Transparency.dfy`, `BestExecution.dfy`: consolidated levels against the exchanges' own quotes, one
  exchange's book, and the best split or routing over all of them.
- `MarketDataQueue.dfy`, `QueueProgress.dfy`, `QueueCalls.dfy`: the queue's critical sections, a monitor
  over any number of threads with a mutex, one condition variable, spurious wake-ups and notifications
  sent after unlocking, and the monitor against the calls that are made on it.
- `MarketDataService.dfy`, `AggregatorLoop.dfy`, `Pipeline.dfy`: the shared snapshot, the loop, and
  the interleaving of queue threads, loop, clock and clients.
- `Turns.dfy`: whole runs against their schedule: clock, reads, and which turns of the loop publish what.
- `PipelineProgress.dfy`: left to itself, the whole system can finish its work, and applies every accepted update.
- `Freshness.dfy`: exactly when the shared book ends up current, and runs in which it does not.
- `Statistics.dfy`: the running statistics over a session.
- `Reals.dfy`: laws of real products and quotients under a name.

## Conventions

- A C++ `double` is a `real`. Where a division by zero is possible (`0/0` for a zero notional, a zero
  price) the result is the explicit row `NonFinite`; `Sweep.DivisionByZeroIsExact` says when that happens.
- Functions and methods are total on all quotes, band values and updates, negative ones included.
  Theorems that need more say so: `Sane` means positive prices and no negative quantity, `SaneLog`
  the same for updates.
- `Clean` is the condition under which erasing a level forgets nothing: no update of the run made
  `total() == 0.0` true on a level that `empty()` would call non-empty. Every run without negative
  quantities is clean (`Consolidation.NonNegativeIsClean`), and the refinement holds exactly for clean
  runs (`Consolidation.RefinementIsExact`). The internal exchange's session accepts any number as a
  quantity; `Independence.IndependenceIsExact` says for which sets of quantities the streams'
  interleaving cannot matter. That condition, unlike `Clean`, can be checked by the senders alone;
  `Independence.RefinementForQuantities`, `PruningForQuantities` and `WithdrawalForQuantities` show that
  it also decides exactly whether the other results on clean runs hold for all runs of those quantities.
- The feed is of one instrument, as in the code, which keys levels by side and price only.

## Where code and documentation differ

- The repository's README speaks of a lock-free queue; the code is a mutex and a condition variable
  with shutdown, and that is what is modelled.
- It also says that a snapshot is sent every second. The code publishes when an update is popped at
  least a second after the previous publication, so the last updates may stay unpublished. The model
  proves the spacing and the consistency of what is published; `Freshness.FreshnessIsExact` gives the
  exact condition under which the shared book ends up current, and `Freshness.SharedBookGoesStale` gives
  runs, for any start of the clock, in which the aggregator sleeps while clients go on getting an old book.
- The loop is written to end when the queue is shut down and drained, but no code calls
  `shutdownQueue`, so the loop can only end up asleep on an empty, open queue
  (`Pipeline.NeverStops`). Results about the end of a run cover both endings.
- Nothing checks that configured notional bands ascend, although rows are paired with labels by
  position. `NotionalBands.LabelsAreExact` gives the exact condition.
- A zero quantity listed at the best price would move the reference price of the price bands;
  `Transparency.DepthTransparencyIsExact` gives the exact condition. Aggregated books never list one.

## Model

| member | source | states |
|---|---|---|
| Slots.TotalZeroIffEmpty | src/biz/Aggregator.hpp:31-39 | for slots that are not negative, `total() == 0` is the same as `empty()`, and the total is not negative |
| Aggregation.Quantities.Set | src/biz/Aggregator.hpp:20-24 | overwrites the exchange's slot and no other |
| Aggregation.Quantities.Reset | src/biz/Aggregator.hpp:26-29 | withdraws the exchange's quantity and leaves the others |
| Aggregation.Quantities.Empty | src/biz/Aggregator.hpp:31-34 | counting zeros decides whether all slots are zero |
| Aggregation.Quantities.Total | src/biz/Aggregator.hpp:36-39 | the accumulation is the sum of all slots |
| Aggregation.PriceMap.FindOrInsert | src/biz/Aggregator.hpp:55-55 | the price's level is found, or inserted with zeros at its place in the order, moving the later ones in place |
| Aggregation.PriceMap.Erase | src/biz/Aggregator.hpp:60-60 | removes the price's level only, closing the gap in place |
| Aggregation.PriceMap.Update | src/biz/Aggregator.hpp:53-72 | one update on one side: insert on demand, overwrite one slot, erase on a zero total |
| Aggregation.Aggregator.OnUpdate | src/biz/Aggregator.hpp:51-73 | both in-place maps hold what the whole history of updates, this one appended, leaves |
| Aggregation.Aggregator.GenerateBook | src/biz/Aggregator.hpp:75-90 | the flattened book is the book of the history |
| Levels.UpsertKeepsOrder | src/biz/Aggregator.hpp:45-73 | an update keeps a side strictly sorted by its comparator and free of zero totals |
| Levels.UpsertLookup | src/biz/Aggregator.hpp:51-73 | an update changes one slot at one price, no other price, and a zero total reads back as eight zeros |
| Consolidation.RefinementIsExact | src/biz/Aggregator.hpp:51-73 | the pruned state holds the latest quantity of every key after every prefix of a run if and only if the run is clean |
| Consolidation.NonNegativeIsClean | src/biz/Aggregator.hpp:36-39 | runs without negative quantities are clean |
| Consolidation.LastWriterWins | src/biz/Aggregator.hpp:51-90 | for clean runs each side of the book is strictly sorted and lists exactly the prices whose latest per-exchange quantities do not sum to zero, each with that sum |
| Consolidation.ListedTotalsArePositive | src/biz/Aggregator.hpp:58-61 | without negative quantities every listed total is positive |
| Independence.IndependenceIsExact | src/biz/Aggregator.hpp:51-90 | for quantities from a given set, all interleavings of equal per-exchange streams give equal books if and only if no choice of at most one quantity per exchange cancels out |
| Independence.NegativeQuantitiesDecide | src/cex/ExchangeSessionInternal.hpp:34-34 | sets without negative quantities are independent; a quantity together with its opposite is not |
| Independence.InterleavingIndependence | src/biz/Aggregator.hpp:51-90 | for clean runs two interleavings of the same per-exchange streams give the same book |
| Independence.NegativeQuantityBreaksIndependence | src/biz/Aggregator.hpp:58-61 | a whole family of runs with one negative quantity whose interleavings give different books |
| Independence.RefinementForQuantities | src/biz/Aggregator.hpp:51-73 | for quantities from a given set, the state holds the latest quantity of every key after every run if and only if no choice of at most one quantity per exchange cancels out |
| Independence.PruningForQuantities | src/biz/Aggregator.hpp:55-71 | under exactly that condition erasing goes unnoticed after every run |
| Independence.WithdrawalForQuantities | src/biz/Aggregator.hpp:20-29 | under exactly that condition zeroing what any exchange has written always gives the book without it |
| Consolidation.WithdrawalRestores | src/biz/Aggregator.hpp:20-29 | for clean runs zeroing every key an exchange has written gives the book of the run without that exchange |
| Consolidation.PruningIsUnobservable | src/biz/Aggregator.hpp:55-71 | after every clean run the erasing aggregator lists exactly the non-zero levels of one that never erases |
| Consolidation.ErasureIsExact | src/biz/Aggregator.hpp:58-61 | erasing a level of total zero goes unnoticed by all later writes if and only if all its slots are zero |
| NotionalBands.NotionalVolumeBands.CalculateBand | src/biz/NotionalVolumeBands.hpp:44-78 | the loop with its break computes the recursive walk for every input, divisions by zero included |
| NotionalBands.NotionalVolumeBands.Compute | src/biz/NotionalVolumeBands.hpp:19-40 | each side's rows are the bands that exist, in the order of the configured values |
| Sweep.BandIsExact | src/biz/NotionalVolumeBands.hpp:46-76 | a band exists iff the side's notional reaches the request; price times quantity is then exactly the request and nothing is divided by zero |
| Sweep.BandStops | src/biz/NotionalVolumeBands.hpp:44-77 | for every input, signs and zeros included: the walk stops before the first level that would exceed the request, that level gives what is missing, and the result is a row, no row, or a division by zero accordingly |
| Sweep.BandIsPrefixAndPart | src/biz/NotionalVolumeBands.hpp:49-66 | the quantity is a full prefix of levels plus at most part of one level, together worth exactly the request |
| Sweep.DivisionByZeroIsExact | src/biz/NotionalVolumeBands.hpp:61-71 | on a sane side the division fails iff the request is zero, or negative on an empty side |
| Sweep.GreedyIsBest | src/biz/NotionalVolumeBands.hpp:49-66 | no fill within the budget buys more than the sweep on ordered asks, none reaching the notional sells less on ordered bids |
| Sweep.BandIsOptimal | src/biz/NotionalVolumeBands.hpp:44-77 | the band's quantity is the maximum (asks) or minimum (bids) over all fills of that notional, and is attained |
| Sweep.AveragePriceIsMonotone | src/biz/NotionalVolumeBands.hpp:44-77 | a larger notional never has a better average price |
| Sweep.AveragePriceIsBetween | src/biz/NotionalVolumeBands.hpp:68-71 | the average price lies between the best price and the price of the last level touched |
| NotionalBands.RowsKeepTheOrder | src/biz/NotionalVolumeBands.hpp:19-40 | for any configured values the rows are the bands that exist, each once, in the order of their values |
| NotionalBands.AscendingRowsAreLabelled | src/rpc/MarketDataHandlerNotionalVolumeBands.hpp:25-30 | with ascending values missing bands are only at the tail, so row i is the band of value i |
| NotionalBands.LabelsAreExact | src/core/Formatter.hpp:138-202 | rows and labels agree on every sane side if and only if no positive value is followed by a smaller one |
| Depth.PriceBands.CalculateBand | src/biz/PriceBands.hpp:44-69 | no band on an empty side; otherwise the price at the configured distance from the best and, on an ordered side, the quantity of all quotes strictly inside |
| Depth.PriceBands.Compute | src/biz/PriceBands.hpp:19-41 | one row per configured value on a side with quotes, each the band of its own value, none on an empty side |
| Depth.PriceBandIsExact | src/biz/PriceBands.hpp:44-69 | a price band exists on a side with quotes, stands the configured ten-thousandths from the best price, and on an ordered side has the quantity of all quotes strictly inside |
| Depth.LeadingIsLongestPrefix | src/biz/PriceBands.hpp:55-66 | on any list of quotes the loop counts exactly the longest prefix strictly inside the limit |
| Depth.EarlyBreakIsFilter | src/biz/PriceBands.hpp:55-66 | on an ordered side the early break gives the sum over all levels strictly inside the limit |
| Depth.ShiftedIsRelative | src/biz/PriceBands.hpp:51-52 | the limit is the best price moved by that many ten-thousandths of it, up for asks and down for bids |
| Depth.DepthIsMonotone | src/biz/PriceBands.hpp:51-68 | a wider band never shows less quantity |
| Depth.BestLevelIsInside | src/biz/PriceBands.hpp:51-66 | the best level counts exactly when the distance is positive; otherwise the band shows nothing |
| Depth.DepthBoundsNotional | src/biz/PriceBands.hpp:51-68 | if the quotes strictly inside the limit are worth the notional, its band exists, takes no more than the depth, and averages strictly inside the limit |
| Transparency.MergeKeepsWalk | src/biz/NotionalVolumeBands.hpp:49-66 | merging equal prices and dropping zeros changes no sweep |
| Transparency.DepthTransparencyIsExact | src/biz/PriceBands.hpp:51-66 | all price bands survive merging if and only if the first price is backed by some quantity |
| Transparency.ListTotals | src/biz/Aggregator.hpp:36-39 | the quotes of the eight exchanges' own books together offer at every price what the aggregator accumulates there |
| Transparency.ListMergesIntoBook | src/biz/Aggregator.hpp:36-39 | any price-ordered list of the eight exchanges' own quotes, zeros in between or not, merges into exactly the consolidated side |
| Transparency.ConsolidationIsTransparent | src/biz/Aggregator.hpp:75-90 | on any such list the notional bands are those of the consolidated levels, and all price bands are if and only if the first price is backed by some quantity |
| Transparency.UnmergedGivesTheSameBands | src/biz/Aggregator.hpp:75-90 | the eight exchanges' own quotes, sorted by price, give every notional band and every price band of the consolidated book |
| Transparency.BookIsSane | src/biz/Aggregator.hpp:45-49 | sane updates make strictly sorted sides with positive prices and quantities |
| BestExecution.CoveringIsNoWorse | src/biz/NotionalVolumeBands.hpp:44-77 | a side offering everything another offers has all its bands at an average price no worse |
| BestExecution.ConsolidatedIsNoWorse | src/biz/Aggregator.hpp:51-90 | after any sane run, a band of one exchange's own book also exists on the consolidated book, at no worse an average price |
| BestExecution.RoutingIsNoBetter | src/biz/Aggregator.hpp:51-90 | however orders are routed to the exchanges' own books within the notional (bids: reaching it), they get no better a quantity than the consolidated band |
| BestExecution.SplitIsNoBetter | src/biz/NotionalVolumeBands.hpp:44-77 | no split of the notional into bands of the eight exchanges' own books beats the consolidated band in quantity or average price |
| BestExecution.RoutingIsAttained | src/biz/NotionalVolumeBands.hpp:44-77 | whenever the consolidated band exists, some routing to the exchanges' own books costs exactly the notional and trades exactly the band's quantity |
| BestExecution.SplitIsAttained | src/biz/NotionalVolumeBands.hpp:44-77 | so does some split of the notional into the exchanges' own bands |
| BlockingQueue.MarketDataQueue.PushSection | src/core/MarketDataQueue.hpp:14-23 | under the lock: refused after shutdown, otherwise appended |
| BlockingQueue.MarketDataQueue.PopSection | src/core/MarketDataQueue.hpp:31-41 | under the lock: an empty open queue means waiting, an empty closed one the end, and neither changes a field; otherwise the front alone is taken |
| BlockingQueue.MarketDataQueue.ShutdownSection | src/core/MarketDataQueue.hpp:46-49 | sets the flag and keeps the queue |
| BlockingQueue.ReachableInv | src/core/MarketDataQueue.hpp:12-52 | mutual exclusion, history and wake-up invariants hold in every state that any number of threads can reach |
| QueueProgress.QueueHistory | src/core/MarketDataQueue.hpp:12-42 | accepted is delivered followed by queued, in order; nothing is accepted after shutdown; a pop reports the end only after everything was delivered |
| QueueCalls.EveryCallIsAnswered | src/core/MarketDataQueue.hpp:12-52 | in every reachable state the calls that a thread has made are those answered by its events, in order, and the one it is still in |
| QueueCalls.AcceptedIsPushed | src/core/MarketDataQueue.hpp:14-42 | delivered followed by queued is exactly what was pushed before the close, in the order of the critical sections, and the queue is shut exactly when a shutdown has run |
| QueueCalls.OnlyTheLockBlocks | src/core/MarketDataQueue.hpp:12-52 | a thread outside the queue can make any call, and one in a call can move unless it sleeps or the lock it wants is taken |
| QueueProgress.SleepersAreCovered | src/core/MarketDataQueue.hpp:25-52 | with a sleeping consumer and a free lock the queued updates are at most the woken consumers and pending notifiers, and a sleeper after shutdown means a pending notify_all |
| QueueProgress.NoConsumerIsStranded | src/core/MarketDataQueue.hpp:29-52 | in every reachable state some call in progress has a possible step, or all threads rest and a sleeper means an empty, open queue |
| QueueProgress.InternalStepsAreBounded | src/core/MarketDataQueue.hpp:12-52 | without new calls and spurious wake-ups, any run of steps is bounded by the distance of the threads from rest |
| QueueProgress.CallsCanRest | src/core/MarketDataQueue.hpp:12-52 | from every reachable state some run of such steps brings all threads to rest |
| Publication.ServedIsWhatWasHeld | src/rpc/MarketDataHandler.hpp:21-40 | decoding a created snapshot gives back the held symbol and book, side by side and level by level |
| Publication.MarketDataService.OverwriteBook | src/rpc/MarketDataService.hpp:46-51 | replaces symbol and book together |
| Publication.MarketDataService.CreateSnapshot | src/rpc/MarketDataService.hpp:54-77 | the message has the symbol, and price and quantity of each shared quote in their own fields, in order on their own side |
| Publication.MarketDataHandler.MakeSnapshot | src/rpc/MarketDataHandler.hpp:21-40 | the client's book has the message's levels on their own sides, in order |
| AggregatorThread.AggregatorLoop.Turn | src/aggregator.cpp:57-69 | one turn applies the update and publishes the whole history's book with its symbol exactly when a second has passed |
| AggregatorThread.TurnIsItsSteps | src/aggregator.cpp:47-70 | the atomic steps between two pops leave what the turn leaves |
| Pipeline.SnapshotsAreConsistent | src/aggregator.cpp:47-70 | in every interleaving each served snapshot is the book and symbol of a prefix of the accepted updates, and no later read goes back |
| Turns.ReadsAreCurrent | src/rpc/MarketDataService.hpp:54-77 | every read of a run is answered with the symbol and the book that the service holds at that moment |
| Pipeline.AggregatorCatchesUp | src/aggregator.cpp:52-61 | whenever nothing is queued or in the loop's hand, the aggregator's state is that of all accepted updates |
| Pipeline.EndsDrained | src/aggregator.cpp:47-55 | that is so whenever the loop has stopped or sleeps with all other threads outside the queue |
| Pipeline.NeverStops | src/core/MarketDataQueue.hpp:44-52 | without a call for a shutdown the queue stays open and the loop never stops |
| PipelineProgress.WorkIsBounded | src/aggregator.cpp:47-70 | without new pushes, shutdowns, spurious wake-ups, ticks and reads, the steps are bounded by the threads' distance, a constant per incoming update and the rest of the turn |
| PipelineProgress.CanFinish | src/aggregator.cpp:47-70 | from every reachable state some run of such steps ends where none is possible any more |
| PipelineProgress.EveryUpdateIsApplied | src/aggregator.cpp:47-70 | once no such step is possible, the loop has stopped or sleeps and every accepted update has been applied |
| Pipeline.FinalBookIsIndependent | src/aggregator.cpp:47-61 | two drained runs of the whole system that accepted the same stream per exchange, both clean, hold the same book, whatever the scheduling |
| Turns.PublicationIsExact | src/aggregator.cpp:47-70 | one turn for every delivered update but the one in hand; the shared symbol and book are those of the accepted updates up to the last due turn, a turn being due when 10^9 ns have passed since the last due one, and publication times are the due turns' |
| Turns.ClockIsLatest | src/aggregator.cpp:62-62 | the clock that the turns read is the latest time it has been set to |
| Turns.QueueRunsAlone | src/aggregator.cpp:47-55 | inside the system the queue goes through a run of the monitor alone |
| Pipeline.PublicationsAreThrottled | src/aggregator.cpp:62-69 | publications are at least a second apart |
| Freshness.FreshnessIsExact | src/aggregator.cpp:62-69 | if nothing more is delivered after an update's turn, the shared book ends up with every delivered update if and only if a second had passed at that turn's decision, however long one waits |
| Freshness.OneUpdateStaysUnpublished | src/aggregator.cpp:47-70 | from every calm state less than a second after the last publication, one more update is applied and the aggregator goes to sleep without publishing it |
| Freshness.NextUpdateIsPublished | src/aggregator.cpp:57-69 | from every calm state, once the clock is a second past the last publication, the next update is published at once with everything accepted before it |
| Freshness.SharedBookGoesStale | src/aggregator.cpp:36-70 | for any start of the clock a run ends asleep with a shared book other than that of the accepted updates |
| Pipeline.ServedBandsBeatEveryExchange | src/rpc/MarketDataHandlerNotionalVolumeBands.hpp:40-41 | a band computed from any served snapshot is no worse than any single exchange's at that point |
| Pipeline.ServedBandsBeatEverySplit | src/rpc/MarketDataHandlerNotionalVolumeBands.hpp:40-41 | nor is it worse than any split of the notional over the exchanges' own books at that point |
| SessionStatistics.Statistics.Compute | src/biz/Statistics.hpp:12-59 | the running statistics summarise the whole session: counts, latest best, best ever, spread and crossed flag; no empty optional is read |
| SessionStatistics.SummaryIsUnique | src/core/Stats.hpp:5-15 | the summary relation determines every field from the snapshots alone |
| SessionStatistics.FiguresAreTheSessions | src/biz/Statistics.hpp:12-59 | counts and current prices are the latest snapshots', the extremes bound every level of the session and are attained, the spread is ask minus bid |
| SessionStatistics.SpreadExistsOnceBothSeen | src/biz/Statistics.hpp:47-56 | spread and crossed flag exist iff both sides were ever seen, crossed iff the spread is not positive; the best-ever prices exist iff their side was seen |

## Left out

- Websocket sessions, TLS and JSON extraction of the exchanges: their output is any stream of updates.
- gRPC transport and the streaming loop's sleep and cancellation: a client's read is one atomic step.
- The diff path (`makeDiff`, `StreamMarketDataDiffs`): no server implementation feeds it.
- Console display, text layout and label text, configuration files, argument parsing, and the best bid offer client.
- The `captions` and the on-screen book of the aggregator's loop: they do not feed back into the state.
- IEEE-754 rounding, infinities and NaN as inputs: claims are about real arithmetic.
- The `int` negation of a price band value: the model's integers are unbounded, so the minimum 32-bit value is not special.
- The balanced tree behind the standard ordered map: a sorted array with the same order and contents stands for it.
- Wall-clock time: it is only a clock that does not run backwards.
- BlockingQueue.MarketDataQueue.PopSection: the wait itself is not in the method but in the thread monitor, where sleeping and waking are separate steps.
- Independence.InterleavingIndependence: one direction only; the exact condition is `Independence.IndependenceIsExact`.
- An exchange value outside the enumeration: the code would index outside its buffer, the model's type has none.
