# Verified model of the market data processor

The market data processor is a pipeline of threads joined by lock-free single-producer /
single-consumer queues: a feed publishes ticks, a parser validates them, a normalizer removes
repeats and late ticks, a book stage keeps one order book per symbol and publishes top-of-book
changes, and a strategy stage turns those into signals. This project models that pipeline in Dafny
and proves what it guarantees over whole runs.

| file | models |
|---|---|
| `Words.dfy` | 64-bit wrap-around, bitwise AND, powers of two, masked slot indexing |
| `Channels.dfy` | the bounded FIFO that a queue is, with the possibly stale view each side has of it |
| `RingProtocol.dfy` | the ring buffer as interleaved atomic steps; refinement to `Channels`; data races; monitoring |
| `RingBuffers.dfy` | the ring buffer as an object over an array |
| `Sequences.dfy`, `PriceSets.dfy` | order-preserving subsequences; extreme elements of finite price sets |
| `Ticks.dfy`, `TickParsing.dfy` | tick fields, symbol keys; enrich, validate, the push loop and the drain |
| `Normalizing.dfy` | the greedy filter with cached state against a declarative filter over history |
| `OrderBooks.dfy` | the order book, its guard, counters and snapshots |
| `BookProcessing.dfy` | side inference and the crossed-book guard for one symbol |
| `BookStage.dfy` | all symbols together, counters, the stream of emitted snapshots |
| `Pipelines.dfy`, `PipelineRuns.dfy` | the first four stages over three channels, with shutdown |
| `EndToEnd.dfy` | the books that a pipeline run builds |
| `SignalEngines.dfy` | the exponential average and the threshold rule |
| `Lifecycles.dfy` | start and stop of a worker thread |
| `Feeds.dfy` | the simulated feed with arbitrary noise |

## How the parts fit

`RingProtocol` shows that every interleaving of producer and consumer steps is, step by step, a run
of a channel, and (`RunIsCalls`) that every run is a run of the whole calls `TryPush` and `TryPop` of
`Channels`, stale views included. `Pipelines` pushes and pops through these two calls only. Its parser
and normalizer steps use the functions that `TickParsing` and `Normalizing` study, and its applied
ticks are what `BookStage` consumes. Every enabled step extends a run (`RunExtends`), so the definition
of a run rules no behaviour out.

Memory model. An atomic counter is the sequence of values stored to it. A thread loading the other
side's counter reads any store at least as recent as the last one it read, which is what coherence
and acquire/release give (section [intro.races] of ISO/IEC 14882:2020); unsigned arithmetic wraps
(section [basic.fundamental]). Slots are plain memory; `NoDataRace` shows that every pair of
conflicting slot accesses is ordered by a release store and the acquire load that reads it, which is
what makes plain slots right. When a stage observes its stop flag, it also observes all that its
joined upstream stage did; that is the `JoinProducer` step of the ring and the head update on
`ParserSeeStop`, `NormSeeStop` and `BookSeeStop`.

Environment. Noise, clocks, the room an output has when it is offered a tick, and the polls of the
stop flag are parameters; results hold for all their values.

## What the code does differently from its documentation

- Locked books. README.md:83 and docs/DESIGN.md:198-208 describe a guard that rejects a bid at or above the
  best ask, so that best ask > best bid at all times; the code rejects strictly crossing levels only
  (src/book/src/OrderBook.cpp:28-46), and so does the model. `PairLocksIff` shows that two equal prices
  lock a fresh book, and `LockedExactlyWhen` and `ReachableLocks` give the exact ticks that lock one.
- Crossed-book rejections. README.md:79 says the price model eliminates them. `RejectedExactlyWhen`
  gives the exact condition under which a tick is refused, `ThirdIsRefusedIff` the exact price triples
  that end in a refusal from a fresh symbol, and `WalkCanBeRefused` noise with which the simulated
  feed quotes such a triple.
- Positive bid. README.md:79 and docs/DESIGN.md:155 promise ask > bid > 0 unconditionally.
  `SimulatedTickIsGood` proves it for every symbol but BTCUSD; for BTCUSD `BitcoinBidCanBeNegative`
  gives failing noise for every state and `BitcoinTickIsGoodIff` the exact condition.
- Consistent monitoring. src/core/include/core/RingBuffer.hpp:62-68 says the counter difference always
  yields the correct element count. From a third thread it does not: `MonitorCanMisread` gives a run,
  `MonitoredSize` the exact condition. From the producer or the consumer it is always within the
  capacity, and `ProducerMonitors` and `ConsumerMonitors` say when it is exact.
- Per-symbol time order. The normalizer keys its state by the eight-character field, the book stage by
  the characters before the first NUL. `MonotonePerBookIff` shows that time order per book holds for
  exactly those feeds whose fields never share such a prefix; the tick factory only makes such fields
  (`PaddedKeyIsInjective`).
- Exact duplicates. src/processing/include/processing/Normalizer.hpp:24 speaks of exact duplicates. A
  tick is dropped as a repeat only against the latest tick of its symbol at the same time, so a price
  that comes back within one timestamp passes: `ExactDuplicatePasses` gives three ticks,
  `DuplicateAcceptedIff` the exact streams for which it happens.

## Model

| member | source | states |
|---|---|---|
| Words.PowerOfTwoIsPow2 | src/core/include/core/RingBuffer.hpp:35-36 | the capacity constraint accepts exactly the powers of two |
| Words.SlotOfCounter | src/core/include/core/RingBuffer.hpp:62-69 | masking a wrapped 64-bit counter selects the unwrapped counter modulo the capacity |
| Words.SlotsDistinct | src/core/include/core/RingBuffer.hpp:62-69 | counters less than one capacity apart never share a slot |
| Words.WrapSubOfCounters | src/core/include/core/RingBuffer.hpp:62-68 | the wrapped difference of two counters less than 2^64 apart is their true distance |
| RingProtocol.StepRefinesChannel | src/core/include/core/RingBuffer.hpp:115-190 | every atomic step of either side keeps the invariant and is a step of the bounded FIFO or no step at all |
| RingProtocol.RunRefinesChannel | src/core/include/core/RingBuffer.hpp:115-190 | every run of the ring maps step by step onto a run of the channel from empty |
| RingProtocol.RunIsCalls | src/core/include/core/RingBuffer.hpp:115-190 | every run of the ring is a run of whole try_push and try_pop calls on a channel, each with the view it loaded and a push with the argument it was called with, acting when it publishes or finds the buffer full, releases or finds it empty |
| RingProtocol.PushedAreArguments | src/core/include/core/RingBuffer.hpp:115-130 | in every run what has been pushed is exactly the arguments of the calls that published, in order |
| RingProtocol.CallPushesItsArgument | src/core/include/core/RingBuffer.hpp:115-130 | a call that publishes appends its own argument, however the steps interleave |
| RingProtocol.CallsAreWaitFree | src/core/include/core/RingBuffer.hpp:115-190 | in the middle of a call a side always has a step of its own, each brings the call nearer its end, and the other side never sets it back |
| RingProtocol.LoadsAreCoherent | src/core/include/core/RingBuffer.hpp:71-81 | a load of the other counter may return exactly the values from the last one seen to the newest |
| RingProtocol.RunIsFifo | src/core/include/core/RingBuffer.hpp:115-190 | in every interleaving, at every moment, the popped items are a prefix of the pushed ones, at most a capacity of them is in flight, and each of those is in the slot its wrapped, masked counter names |
| RingProtocol.EqualityTestsSound | src/core/include/core/RingBuffer.hpp:116-121 | the equality tests on wrapped words are exact under stale views: a push fails if and only if the view seen is full, a pop if and only if the view seen is empty, and neither bound can be jumped over |
| RingProtocol.NoDataRace | src/core/include/core/RingBuffer.hpp:71-81 | every slot access is ordered after all earlier conflicting accesses of the other thread by the counter value already loaded, and two pending accesses never name one slot |
| RingProtocol.JoinedDrainIsExact | src/core/include/core/RingBuffer.hpp:169-190 | once the producer has been joined, a pop reports empty if and only if everything pushed has been popped |
| RingProtocol.MonitoredSize | src/core/include/core/RingBuffer.hpp:211-216 | a size read by a third thread in two loads, stale but coherent, is a possible count exactly when the tail loaded had not passed the head loaded, and is then their distance |
| RingProtocol.ProducerMonitors | src/core/include/core/RingBuffer.hpp:211-216 | called by the producer, the size is within the capacity, never below the count at the tail load, and equal to it exactly when that load is current |
| RingProtocol.ConsumerMonitors | src/core/include/core/RingBuffer.hpp:211-216 | called by the consumer, the size never exceeds the count at the head load, and equals it exactly when that load is current |
| RingProtocol.MonitorCanMisread | src/core/include/core/RingBuffer.hpp:211-216 | for every capacity there is a run in which the monitored size is 2^64 - 1 |
| Channels.Channel.Push | src/core/include/core/RingBuffer.hpp:115-130 | a push that found room appends to the queue and keeps it within its capacity whatever the consumer does |
| Channels.Channel.Pop | src/core/include/core/RingBuffer.hpp:169-190 | a pop that found an item takes the oldest one |
| RingBuffers.RingBuffer.TryPush | src/core/include/core/RingBuffer.hpp:115-159 | on the array with wrapped counters, a push succeeds if and only if there is room and then appends, otherwise the contents stay |
| RingBuffers.RingBuffer.TryPop | src/core/include/core/RingBuffer.hpp:169-190 | a pop succeeds if and only if there is an element and then removes the front one, across counter wrap |
| RingBuffers.RingBuffer.Empty | src/core/include/core/RingBuffer.hpp:198-202 | equal counters mean no elements |
| RingBuffers.RingBuffer.Full | src/core/include/core/RingBuffer.hpp:205-209 | the difference equals the capacity exactly when every slot is taken |
| RingBuffers.RingBuffer.Size | src/core/include/core/RingBuffer.hpp:212-216 | the difference is the number of elements, at most the capacity |
| Ticks.PaddedKeyIsInjective | src/core/include/core/MarketTick.hpp:63-69 | on zero-filled fields the characters before the first NUL determine the field |
| Ticks.MakeSymbol | src/core/include/core/MarketTick.hpp:63-69 | the field holds the first eight characters of the name and NULs after them; a name without NUL yields a zero-filled field |
| Ticks.KeyOfName | src/core/include/core/MarketTick.hpp:63-69 | the C string of the field made from a name is the name, cut to eight characters |
| TickParsing.ValidAfterEnrich | src/processing/src/TickParser.cpp:94-116 | after enrichment only price, volume, time and name can reject a tick, an infinite volume passes |
| TickParsing.Enrich | src/processing/src/TickParser.cpp:113-116 | the eighth character becomes NUL, a side above 2 becomes 2, nothing else changes, and an already conforming tick not at all |
| TickParsing.Spin | src/processing/src/TickParser.cpp:57-64 | the back-pressure loop pushes if and only if some poll finds room and neither it nor an earlier one sees a stop |
| TickParsing.ValidPartIsSelection | src/processing/src/TickParser.cpp:43-72 | what passes without loss is exactly the valid ticks of the enriched input, in their order |
| TickParsing.TickParser.ProcessTick | src/processing/src/TickParser.cpp:43-72 | one tick is taken and counted as parsed or rejected, or lost uncounted when stop is seen first |
| TickParsing.TickParser.DrainInput | src/processing/src/TickParser.cpp:74-92 | the input is emptied, the output and both counters are those of the drain function |
| TickParsing.DrainKeepsOrder | src/processing/src/TickParser.cpp:74-92 | what a drain forwards is an order-preserving selection of the enriched input |
| TickParsing.ForwardedExactly | src/processing/src/TickParser.cpp:74-92 | a drain forwards the enriched ticks at exactly the positions that are valid and whose own offer finds room |
| TickParsing.DrainAccounts | src/processing/src/TickParser.cpp:74-92 | forwarded, rejected and lost ticks partition the input, everything forwarded is valid, and when there is always room nothing is lost and the whole valid part is forwarded |
| Normalizing.CacheIsHistory | src/processing/src/Normalizer.cpp:136-139 | the cached timestamp is the cached tick's and the maximum of all ticks of the symbol seen, accepted or not, and the cached price is that of the latest tick at that maximum |
| Normalizing.GreedyIsDeclarative | src/processing/src/Normalizer.cpp:116-134 | the verdict from cached state equals a rule over raw history: late if something newer was seen, repeat if the latest tick at this time had this price, else accepted |
| Normalizing.AcceptedIsMonotone | src/processing/src/Normalizer.cpp:126-139 | per symbol field, accepted timestamps never decrease |
| Normalizing.FilterIsIdempotent | src/processing/src/Normalizer.cpp:51-139 | filtering the accepted stream again accepts all of it and leaves the same cache |
| Normalizing.NoAcceptedRepeat | src/processing/src/Normalizer.cpp:116-124 | no accepted tick repeats the price and time of the accepted tick of its symbol before it |
| Normalizing.DuplicateAcceptedIff | src/processing/src/Normalizer.cpp:116-139 | two accepted ticks are equal in symbol, price and time if and only if a price comes back within one timestamp after a different price, with nothing newer of its symbol before it returns |
| Normalizing.ExactDuplicatePasses | src/processing/src/Normalizer.cpp:116-124 | prices 1, 2, 1 of one symbol at one time are all accepted |
| Normalizing.MonotonePerBookIff | src/processing/src/Normalizer.cpp:126-139 | time order per book holds for all streams over a set of symbol fields if and only if no two of the fields share a C string |
| Normalizing.Normalizer.ProcessTick | src/processing/src/Normalizer.cpp:51-88 | one tick is taken, judged and counted; an accepted one updates the state whether or not it is pushed |
| Normalizing.Normalizer.DrainInput | src/processing/src/Normalizer.cpp:90-114 | the drain empties the input and leaves the state, output and counters of the drain function |
| Normalizing.DrainMeaning | src/processing/src/Normalizer.cpp:90-114 | from a cache that reflects a history, a drain leaves cache, output and counters that the declarative filter prescribes |
| Normalizing.PassedExactly | src/processing/src/Normalizer.cpp:90-114 | a drain passes the ticks at exactly the positions that history accepts and whose own offer finds room |
| Normalizing.DrainPartition | src/processing/src/Normalizer.cpp:90-114 | repeats, late and accepted ticks partition the drained ones, and with room for every offer all accepted ones pass |
| OrderBooks.ApplyEffect | src/book/src/OrderBook.cpp:22-64 | a delta sets the volume at its own side and price and nowhere else, unless it carries volume to a price beyond a level of the other side; then it changes none |
| OrderBooks.RemovalRemoves | src/book/src/OrderBook.cpp:48-60 | a removal is never refused: its level is gone, the other side stays, and it is counted exactly if the level was there |
| OrderBooks.GuardIsExact | src/book/src/OrderBook.cpp:28-47 | on an uncrossed book the guard fires exactly on the insertions that would cross it, so locked levels pass |
| OrderBooks.LocksByDelta | src/book/src/OrderBook.cpp:28-63 | an insertion locks a book exactly by meeting the other side's best price, a removal unlocks it exactly by taking the common price away |
| OrderBooks.HistoryIsSound | src/book/src/OrderBook.cpp:22-64 | after every history of updates and clears no bid exceeds an ask, every volume is positive, levels plus twice the removals never exceed the updates since the last clear, the sequence equals them, and levels plus removals are exactly the levels created since then |
| OrderBooks.SnapshotAgreesWithTop | src/book/src/OrderBook.cpp:66-114 | the first levels of a snapshot are the top of the book, with its volumes |
| OrderBooks.SnapshotReplays | src/book/src/OrderBook.cpp:93-114 | replaying a snapshot's levels into a fresh book in any order meets no rejection and reproduces both sides |
| OrderBooks.OrderBook.Apply | src/book/src/OrderBook.cpp:22-64 | the object follows the apply function; its volumes change exactly at the delta's level, unless the delta carries volume beyond a level of the other side |
| OrderBooks.OrderBook.Clear | src/book/src/OrderBook.cpp:124-130 | the object becomes the empty book with zero counters |
| OrderBooks.OrderBook.Top | src/book/src/OrderBook.cpp:66-91 | best prices and their volumes, 0 for an empty side, and a spread that is their difference when both are positive, otherwise 0, never negative on an uncrossed book |
| OrderBooks.OrderBook.Snapshot | src/book/src/OrderBook.cpp:93-114 | each side is listed completely and strictly sorted, bids descending and asks ascending |
| OrderBooks.BestBid | src/book/include/book/OrderBook.hpp:46-49 | the greatest bid price when there is one, otherwise 0 |
| OrderBooks.BestAsk | src/book/include/book/OrderBook.hpp:51-54 | the least ask price when there is one, otherwise 0 |
| BookProcessing.RejectedExactlyWhen | src/book/src/BookProcessor.cpp:129-171 | a tick carrying volume is rejected exactly when its price is above the accepted band and there are asks, or it is in the band, at or above the reference, and between half and all of the best bid of a bid-only book; never in the band on a two-sided book |
| BookProcessing.ReferenceExactly | src/book/src/BookProcessor.cpp:129-171 | the reference after a tick is kept for a price out of the band, the price itself the first time, 0.1 price + 0.45 (best bid + best ask) exactly when the price, below the reference, reaches an ask or, not below it, reaches a bid, and 0.1 price + 0.9 reference otherwise |
| BookProcessing.SideExactly | src/book/src/BookProcessor.cpp:129-171 | a tick is a bid exactly when out of the band, the first, below the reference, or after such a collision below the middle of the book |
| BookProcessing.TickEffect | src/book/src/BookProcessor.cpp:173-180 | a tick sets the volume at its price, on its inferred side and nowhere else, to its volume without the fraction, unless it is refused |
| BookProcessing.LockedExactlyWhen | src/book/src/BookProcessor.cpp:129-171 | side inference and guard together lock a book only by a tick at the best bid of a bid-only book that the reference does not exceed, and unlock it only by removal of the common price; a two-sided unlocked book never becomes locked |
| BookProcessing.PairLocksIff | src/book/src/BookProcessor.cpp:129-171 | two in-range ticks of a fresh symbol leave a locked book exactly when their prices are equal |
| BookProcessing.ThirdIsRefusedIff | src/book/src/BookProcessor.cpp:129-171 | of any three in-range ticks of a fresh symbol the third is refused exactly when the second price is below the first and the third lies from the moved reference up to below the first, at no less than half of it |
| BookProcessing.CrossingBidBecomesAsk | src/book/src/BookProcessor.cpp:147-163 | a guess that would put a bid at the best ask is re-centred into an ask at or above the best bid |
| BookProcessing.CrossingAskIsReclassified | src/book/src/BookProcessor.cpp:147-163 | a guess that would put an ask at the best bid becomes a bid, except on a locked book, or on a bid-only book from half the best bid up |
| BookProcessing.RunLaneOk | src/book/src/BookProcessor.cpp:129-171 | in every reachable state of a symbol the book is sound, asks lie in the accepted band, and a non-empty ask side has a reference |
| BookProcessing.ReferenceStaysNear | src/book/src/BookProcessor.cpp:129-171 | prices within a band keep every level in the band and the reference between half its lower end and its upper end, through updates and resets |
| BookStage.SymbolsAreIsolated | src/book/src/BookProcessor.cpp:80-97 | book and reference of a symbol after an interleaved stream equal those after its own ticks alone |
| BookStage.UpdatesAddUp | src/book/src/BookProcessor.cpp:92-97 | the updates of all books add up to the ticks processed |
| BookStage.EmissionsAreFaithful | src/book/src/BookProcessor.cpp:99-126 | per symbol, emitted sequence numbers strictly increase, consecutive emissions differ in a best price, and the latest shows the current best prices and display price |
| BookStage.EmissionsAreComplete | src/book/src/BookProcessor.cpp:99-126 | per symbol, exactly one emission for each of its ticks that changed a best price, showing best prices, display price, top volume and time of that moment under its sequence number |
| BookStage.EmissionsAreAccounted | src/book/src/BookProcessor.cpp:115-120 | what each queue received is the emissions, unaltered and in order, short of those without room; with a database queue attached, pushed plus dropped are all emissions, and with none dropped the queue is the emissions |
| BookStage.QueuesReceiveExactly | src/book/src/BookProcessor.cpp:115-124 | an attached queue holds exactly the emissions whose offer met room at it, in order, an unattached one nothing, and the dropped count is the emissions without room at the attached database queue |
| BookStage.AddedIsOwn | src/book/src/BookProcessor.cpp:99-126 | every tick adds at most one emission, of its own symbol, after all earlier ones |
| BookStage.RoomyOutletGetsAll | src/book/src/BookProcessor.cpp:115-124 | with room at every offer an outlet receives every emission |
| BookStage.DisplayPriceIsInside | src/book/src/BookProcessor.cpp:103-110 | the displayed price of a reachable two-sided book lies between its best prices |
| BookStage.ReachableStage | src/book/src/BookProcessor.cpp:80-171 | every lane of every reachable stage is sound and answers its next tick by the refusal rule |
| BookStage.ReachableTick | src/book/src/BookProcessor.cpp:80-171 | in every reachable stage the next tick of a symbol moves its reference and changes its book exactly by these rules |
| BookStage.ReachableLocks | src/book/src/BookProcessor.cpp:80-171 | in every reachable stage the next tick leaves its book locked exactly by the lock rule |
| BookStage.BookProcessor.DetermineSide | src/book/src/BookProcessor.cpp:129-171 | the side and the new reference are those that `SideExactly` and `ReferenceExactly` fix |
| BookStage.BookProcessor.UpdateBook | src/book/src/BookProcessor.cpp:80-97 | the tick's book is created on first sight and moves by one lane step, no other book changes |
| BookStage.BookProcessor.Publish | src/book/src/BookProcessor.cpp:99-126 | publishing keeps a symbol's log faithful to its book, leaves other logs alone, adds at most one emission, which reaches each attached queue exactly if it has room, and counts it as dropped exactly if the attached database queue has none |
| BookStage.BookProcessor.ProcessTick | src/book/src/BookProcessor.cpp:80-127 | the whole stage moves by one step of the stage function |
| BookStage.BookProcessor.Drain | src/book/src/BookProcessor.cpp:72-75 | the drain appends its whole input, in order, to the history that the state is the run of |
| Pipelines.StepKeepsInv | src/processing/src/TickParser.cpp:23-92 | every queue operation, stop observation and controller action keeps the ledgers and contents of all stages |
| PipelineRuns.EveryTickIsAccounted | src/processing/src/TickParser.cpp:43-92 | at every moment each published tick is in exactly one place, queues within capacity; rejected ticks are the invalid ones taken, deduplicated and reordered ones those that the declarative filter over everything taken calls repeats and late |
| PipelineRuns.PublishedAreOffered | src/feed/src/FeedSimulator.cpp:90-116 | the published ticks are the offered ones, in order and unaltered, short of exactly those counted as dropped |
| PipelineRuns.DeliveryIsExact | src/processing/src/Normalizer.cpp:51-114 | at every moment a stage has sent on or has in hand, in order, what its rule lets through of what it took, short of exactly the ticks it lost; with no loss, all of it |
| PipelineRuns.ShutdownConserves | src/tools/processor_main.cpp:131-142 | after feed, parser, normalizer and book are stopped in that order all tick buffers are empty and published, parsed, rejected, forwarded, dropped, lost and processed counts balance exactly over everything published, with at most one tick lost per push loop |
| PipelineRuns.ShutdownDelivers | src/tools/processor_main.cpp:131-142 | after shutdown the ticks applied to books are, in order, what parser and normalizer let through of everything published, short of exactly the losses; with no loss, all of it |
| PipelineRuns.ParserLosesExactly | src/processing/src/TickParser.cpp:55-87 | in every run the valid ticks taken that are missing downstream number exactly the moments at which the push loop saw stop with a tick in hand or the drain met a full view |
| PipelineRuns.NormLosesExactly | src/processing/src/Normalizer.cpp:73-112 | in every run the accepted ticks that are missing downstream number exactly the moments at which the push loop saw stop with a tick in hand or the drain met a full view |
| PipelineRuns.AppliedInOrder | src/processing/src/Normalizer.cpp:51-139 | at every moment of every run the ticks applied to books are the enriched published ones at some strictly increasing positions, valid, and never go back in time per symbol field |
| PipelineRuns.AppliedInOrderPerBook | src/processing/src/Normalizer.cpp:51-139 | if no two enriched symbol fields published share a C string, time never goes back per book |
| PipelineRuns.PaddedKeysTell | src/core/include/core/MarketTick.hpp:63-69 | zero-filled fields, enriched, never share a C string unless equal |
| PipelineRuns.ParserDrainEnds | src/processing/src/TickParser.cpp:35-36 | once stop is seen every parser step reduces the remaining work, no other step adds to it, and until exit some parser step is enabled |
| PipelineRuns.NormDrainEnds | src/processing/src/Normalizer.cpp:40-41 | the same for the normalizer |
| PipelineRuns.BookDrainEnds | src/book/src/BookProcessor.cpp:72-75 | the same for the book stage |
| PipelineRuns.StopsWithin | src/processing/src/Normalizer.cpp:90-114 | in every run a stage that has seen stop takes at most as many steps of its own as it has work left, and has exited once it has taken that many |
| PipelineRuns.ShutdownCompletes | src/tools/processor_main.cpp:131-142 | from every state that any run reaches, some continuation carries the stop order to its end, so the stages never wait for each other in a circle |
| EndToEnd.BooksAreSoundThroughout | src/book/src/BookProcessor.cpp:59-127 | at every moment of every pipeline run the books built from the applied ticks are sound, count one update per tick processed, and obey the refusal rule |
| EndToEnd.EmissionTimesNeverDecrease | src/book/src/BookProcessor.cpp:99-126 | at every moment of every pipeline run whose enriched fields never share a C string, the emissions of each book carry timestamps that never decrease |
| EndToEnd.SameFeedSameBooks | src/book/src/BookProcessor.cpp:59-127 | any two completed runs without loss over the same published ticks apply the same ticks in the same order and end in the same books and references |
| SignalEngines.Alpha | src/strategy/src/SignalEngine.cpp:8-18 | the factor lies in (0, 1] for every period, and is 2 over one more than a positive one, 2/21 for any other |
| SignalEngines.EmaIsWeightedSum | src/strategy/src/SignalEngine.cpp:34-41 | the recursive average is the weighted sum of the symbol's whole price history |
| SignalEngines.WeightsAreConvex | src/strategy/src/SignalEngine.cpp:34-41 | the weights are non-negative and add up to one |
| SignalEngines.EmaWithinRange | src/strategy/src/SignalEngine.cpp:34-41 | the average never leaves the range of the prices seen |
| SignalEngines.SignalExactly | src/strategy/src/SignalEngine.cpp:43-50 | the exact distance from the previous average at which a price triggers a buy or a sell |
| SignalEngines.SignalDirection | src/strategy/src/SignalEngine.cpp:43-50 | a buy means the previous average was strictly below the price, a sell strictly above, a first price holds |
| SignalEngines.ErrorShrinks | src/strategy/src/SignalEngine.cpp:34-41 | each repetition of a price shrinks the error by exactly one minus alpha |
| SignalEngines.ConstantPriceSettles | src/strategy/src/SignalEngine.cpp:34-50 | for every period and history there is a number of repetitions of a positive price after which every signal is a hold |
| SignalEngines.SignalEngine.OnSnapshot | src/strategy/src/SignalEngine.cpp:28-57 | the map tracks every symbol's average over its own history; the signal carries the snapshot's key, price and time and the weighted sum of the symbol's prices, and is a buy or a sell exactly by the distance from the previous average |
| SignalEngines.SignalEngine.Run | src/strategy/src/SignalEngine.cpp:26-57 | one such signal per snapshot, in order, each decided by its symbol's history so far, earlier runs included |
| SignalEngines.OwedIsUnique | src/strategy/src/SignalEngine.cpp:34-57 | these conditions leave exactly one possible signal |
| SignalEngines.OwedDirection | src/strategy/src/SignalEngine.cpp:43-50 | of a positive price a first signal holds, a buy means the previous average was below it, a sell above |
| Lifecycles.AtMostOneWorker | src/core/include/core/ThreadBase.hpp:112-170 | in every history of starts and stops at most one worker is unfinished, the running flag is set exactly while one executes, the stop flag it can read is set exactly while a stop waits for it, and stop returns only when all have finished with the running flag clear |
| Lifecycles.FlagStaysClear | src/core/include/core/ThreadBase.hpp:112-127 | from a start that launches until the next call of stop the stop flag stays clear |
| Lifecycles.StartNeedsStop | src/core/include/core/ThreadBase.hpp:112-122 | a start is a no-op exactly while the thread is joinable, and launches only when all earlier workers have finished |
| Feeds.SimulatedTickIsGood | src/feed/src/FeedSimulator.cpp:11-44 | for every state and noise a symbol other than BTCUSD quotes ask above bid above zero, and its tick passes the parser, stays in the accepted band, and carries at least one unit |
| Feeds.WalkExactly | src/feed/src/FeedSimulator.cpp:11-44 | mid and sizes move by their noise, the distance of the spread from its target shrinks by a tenth and moves by its noise, each replaced by the nearest bound when outside |
| Feeds.SpreadReverts | src/feed/src/FeedSimulator.cpp:22-38 | without noise of its own the spread closes in on its target geometrically, whatever mid and sizes do |
| Feeds.QuietWalk | src/feed/src/FeedSimulator.cpp:48-69 | from the initial states, without noise, mid and sizes stay and the spread falls from 0.02 to 0.01 geometrically, or stays 5 for BTCUSD |
| Feeds.BitcoinTickIsGoodIff | src/feed/src/FeedSimulator.cpp:17-38 | for BTCUSD the bid is positive, and a bid tick valid, exactly when the drawn mid exceeds 25, or the drawn spread is below 20 or below twice the drawn mid |
| Feeds.BitcoinBidCanBeNegative | src/feed/src/FeedSimulator.cpp:17-38 | from every BTCUSD state some noise quotes a bid of -15 |
| Feeds.AnyPriceIsNext | src/feed/src/FeedSimulator.cpp:11-44 | one step of the walk of a symbol other than BTCUSD can quote any price well inside the clamps, on either side |
| Feeds.WalkCanBeRefused | src/feed/src/FeedSimulator.cpp:11-44 | from every state of every symbol other than BTCUSD some noise quotes three ticks that pass parser and normalizer and whose third a fresh book refuses |
| Feeds.RoundIsGood | src/feed/src/FeedSimulator.cpp:90-116 | every tick a round publishes for symbols other than BTCUSD is good |
| Feeds.PublishedExactly | src/feed/src/FeedSimulator.cpp:90-138 | a round publishes one tick for exactly the symbols whose offer found room, in order, quoting bid price with bid size and ask price with ask size in turn along the published stream |
| Feeds.FeedSimulator.GenerateTick | src/feed/src/FeedSimulator.cpp:124-138 | no other symbol moves; the tick quotes bid price and size or ask price and size of the new state by the parity of the published count, and for every named symbol other than BTCUSD has ask above bid above zero, passes the parser, stays in the accepted band and carries at least one unit |
| Feeds.FeedSimulator.RunRound | src/feed/src/FeedSimulator.cpp:90-116 | every symbol walks once, the output grows by exactly the published ticks, and published plus dropped grow by the number of symbols |

## Left out

- IEEE rounding: prices, volumes, averages and noise are reals; NaN and the infinities exist in tick fields only as far as `validate` and tick comparison see them.
- Counters other than the ring indices (`updates_applied`, `ticks_processed` and the like) are unbounded; their wrap after 2^64 events is not modelled.
- EndToEnd.BooksAreSoundThroughout: assumes every published volume that the parser accepts is finite and below 2^64, because `validate` lets larger ones through and the conversion in `tick_to_delta` is then undefined.
- BookStage.EmissionsAreFaithful: compares the latest emission with the current book by prices only, because a later change of volume at a best price is not emitted; `EmissionsAreComplete` fixes the volume at the moment of emission.
- BookStage.BookProcessor.Drain: the input queue is a sequence handed to the method; the concurrent queue is in `Pipelines`.
- SignalEngines.SignalEngine.Run: returns every computed signal; the push loop to the output queue, which can lose the last signal at stop, is not modelled.
- RingProtocol.MonitoredSize: assumes fewer than 2^64 minus a capacity of operations between the two loads.
- Books are held by value in a map, as in the source; the model of `BookProcessor` therefore applies deltas through the function that `OrderBook.Apply` is proved equal to.
- The stop order past the book stage: the strategy and database stages do not drain their input, so no conservation holds there.
- PostgreSQL readers and writers, logging, metrics rates, JSON, the health tool, formatting, rate control, cache-line layout and the symbol hash.
- Exceptions thrown by `run`: the lifecycle treats them as a return, which is what the catch-all does.
