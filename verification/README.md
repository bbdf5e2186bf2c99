# MatchCore in Dafny

MatchCore is a price-time matching engine. Commands travel from one producer thread through a lock-free
single-producer/single-consumer ring buffer to a matching thread, which routes each one to the order book of its
symbol and hands the resulting report to a sink. This project models that path and proves what it promises.

The project has four layers.

* **What matching means.** `Matching.dfy` says it over an unordered bag of resting orders: execute against the
  crossing order with the best price, then the lowest sequence, until nothing crosses. `Book.dfy` builds submit,
  cancel and replace on top, as functions from a book value to a book value and a report, with the invariant of
  reachable books.
* **What the code does.** `PriceLevel.dfy` and `OrderBook.dfy` are the classes of the source: heap orders with
  embedded links, intrusive FIFO levels, two price maps, an ownership map and a lookup index, updated in place by the
  match loops. Every operation is proved to keep the four structures in agreement and to produce exactly the book and
  the report of the bag specification. Levels and orders are disjoint by price and side, so the proofs are framed
  level by level.
* **What follows.** `Answers.dfy` says what every command is answered. `Executions.dfy`, `Priority.dfy`, `Ledger.dfy`,
  `Tallies.dfy`, `Lifecycle.dfy`, `Numbering.dfy`, `Symmetry.dfy`, `Invisible.dfy` and `Replacing.dfy` prove the
  market rules over the specification, for every input and every history of commands. They hold of the class because
  its methods refine the specification.
* **How commands arrive.** `RingIndex.dfy` proves the mask arithmetic, `SpscRingBuffer.dfy` is the queue class with
  its stale caches, and `SpscProtocol.dfy` is the queue as two interleaved threads, one shared access at a time.
  `Engine.dfy` and `MatchingLoop.dfy` are the engine and the polling loop; `Pipeline.dfy` composes producer, queue,
  loop and engine into one interleaved system.

`dafny verify dfyconfig.toml` checks the whole project.

Five places where the code differs from what one might expect. The model follows the code in each.

* A residual that rests is marked `Resting` even if part of it was executed on entry, so the status does not tell
  whether an order is untouched. `Executions.RestingHidesPartialFills` says of which submissions that is true, and
  `Priority.MarkCanHideAFill` shows one. Of what happens to the order later the mark does tell
  (`Priority.MarkTellsLaterFills`).
* The residual of a market order disappears without any event. That happens exactly to market orders for more than
  they cross (`Tallies.DiscardsIff`), what is lost is the excess (`Ledger.DiscardedIsExcess`), and it is the only way
  in which the events of an id fail to tell where it stands (`Lifecycle.EventsTellAllIff`).
* `ReplaceAck` draws its number last and is reported second, so the report of an accepted replace is never in number
  order, and every other report is (`Numbering.SortedUnlessReplaced`).
* `replace_order` reads the replacement after submitting it. `Replacing.ReplacementIsOwnedIff` gives the exact
  condition, checkable beforehand, under which the book still owns that order, and `Replacing.ReplacementCanBeLost` a
  history in which it does not. Then the model lets `ReplaceAck` carry the values the order had when it was filled.
* `empty` on the ring buffer, called by a third thread, compares two indices loaded at different times.
  `SpscProtocol.OutsideEmptyIff` says what that tells, and `SpscProtocol.EmptyCanMislead` is a run in which it is wrong.
  To the two threads of the queue it is exact (`SpscProtocol.ConsumerSeesExactly`, `SpscProtocol.ProducerSeesExactly`).

## Model

| member | source | states |
|---|---|---|
| PriceLevels.PriceLevel.PushBack | include/book/price_level.h:53-74 | appending relinks the tail; the queue becomes the old one followed by the order, and links, ends and size agree with it again |
| PriceLevels.PriceLevel.Erase | include/book/price_level.h:78-108 | erasing any queued order joins its neighbours, leaves the rest of the queue in order, detaches the order and keeps links, ends and size in agreement |
| PriceLevels.PriceLevel.SkipsIsLinked | include/book/price_level.h:83-95 | rerouting only the two neighbours is enough: the whole chain then spells the queue without that position |
| PriceLevels.PriceLevel.PopFront | include/book/price_level.h:111-116 | drops the head of the queue and detaches it, and does nothing to an empty level |
| PriceLevels.PriceLevel.Clear | include/book/price_level.h:120-132 | the walk detaches every order of the queue and leaves an empty level |
| PriceLevels.PriceLevel.Contains | include/book/price_level.h:135-144 | the walk ends and finds exactly the queued orders |
| Books.TopDecides | src/book/order_book.cpp:394-411 | looking at the best resting order alone is enough: if it matches it is the one to execute, and if it does not, nothing in the book matches |
| OrderBooks.OrderBook.FrontIsTop | src/book/order_book.cpp:400-404 | the head of the best level exists, is indexed, and no resting order of its side has priority over it; the branch for an empty front level is dead |
| OrderBooks.OrderBook.MatchAgainst | src/book/order_book.cpp:413-443 | one round of a match loop performs exactly one execution of the specification on bag, taker, counters and report, and retires a filled maker from level, index and ownership |
| OrderBooks.OrderBook.MatchBuyOrder | src/book/order_book.cpp:394-447 | the buy loop ends with the book, taker, trades, events and counters of the bag sweep; it terminates because the taker's leaves decrease |
| OrderBooks.OrderBook.MatchSellOrder | src/book/order_book.cpp:449-502 | the same for the sell loop |
| OrderBooks.OrderBook.RemoveRestingOrder | src/book/order_book.cpp:335-347 | unlinking an order and dropping its level if emptied keeps levels, maps and queues in agreement about all the others |
| OrderBooks.OrderBook.AddRestingOrder | src/book/order_book.cpp:325-333 | a newcomer, younger than all resting orders, joins the end of its level, created if needed, and the index |
| OrderBooks.OrderBook.StoreOrder | src/book/order_book.cpp:68-75 | an accepted order is stored under a free id, so the insertion never fails |
| OrderBooks.OrderBook.SubmitLimitOrder | src/book/order_book.cpp:508-530 | a limit residual rests and a filled order is released, so the book owns the order afterwards exactly if something is left; book and report are those of the sweep |
| OrderBooks.OrderBook.SubmitMarketOrder | src/book/order_book.cpp:532-550 | a market residual is discarded and the order released |
| OrderBooks.OrderBook.SubmitOrder | src/book/order_book.cpp:552-595 | keeps all four structures in agreement and refines the submission of the specification, rejects included |
| OrderBooks.OrderBook.CancelOrder | src/book/order_book.cpp:597-625 | keeps all four structures in agreement and refines the cancellation of the specification |
| OrderBooks.OrderBook.ReplaceOrder | src/book/order_book.cpp:627-706 | refines the replace of the specification; its branch for a submission rejected after the cancel is never taken |
| OrderBooks.OrderBook.constructor | include/book/order_book.h:24-26 | a new book is empty, coherent, and numbers from 1 |
| OrderBooks.OrderBook.BestBid | include/book/order_book.h:61-66 | a quote exists exactly when a buy order rests, and is the highest resting buy price |
| OrderBooks.OrderBook.BestAsk | include/book/order_book.h:68-73 | a quote exists exactly when a sell order rests, and is the lowest resting sell price |
| OrderBooks.OrderBook.BestBidIsBelowBestAsk | include/book/order_book.h:61-73 | between any two operations the best bid is below the best ask |
| OrderBooks.OrderBook.LevelsAreQuotes | src/book/order_book.cpp:37-62 | a level exists exactly at the prices of resting orders: none is missing and none is left over empty |
| OrderBooks.OrderBook.SamePrioritySameLevels | src/book/order_book.cpp:325-347 | the resting orders and their priority determine the levels, the order within each of them, and the ids owned and indexed |
| Books.StepKeepsWellFormed | src/book/order_book.cpp:508-706 | every request keeps resting orders live, distinct in sequence, limit-typed, correctly marked, and the book uncrossed |
| Books.RunIsWellFormed | src/book/order_book.cpp:508-706 | so does every history of requests from an empty book |
| Books.RefusedOrCarriedOut | src/book/order_book.cpp:125-219 | a request either fails with one reject event and no other change, or is carried out without any reject event |
| Answers.SubmitAnswer | src/book/order_book.cpp:125-159 | which submissions are accepted, and of the others which is refused for what: one Reject with the id, symbol, time, next number and first reason that applies |
| Answers.CancelAnswer | src/book/order_book.cpp:168-186 | a cancel of an order that does not rest is answered by one CancelReject with its reason; otherwise by one CancelAck of the order as it was, and only that order is gone |
| Answers.ReplaceAnswer | src/book/order_book.cpp:191-219 | which replaces are accepted, and of the others which is refused for what, by one ReplaceReject; an accepted one reports CancelAck of the old order and then ReplaceAck of the new one |
| Answers.ReplaceIsAcceptedIff | src/book/order_book.cpp:191-219 | a replace is accepted if and only if a cancel of the old order and, beside it, a limit order of the new id, price and quantity would each be |
| Answers.ReportIsStamped | src/book/order_book.cpp:229-319 | every event and trade of a report carries the symbol of the book and the time of the command; a reason is given in refusals only, a second order in ReplaceAck only |
| Answers.RestingIsAsRequested | src/book/order_book.cpp:225-227 | what a submission adds to the book is the order asked for, under the next sequence and its own time, and nothing else |
| Answers.ChangesAreTimed | src/book/order_book.cpp:418-442 | a resting order that a command changes or adds bears the time of that command |
| Books.ReplaceIsAtomic | src/book/order_book.cpp:184-219 | a replace that passes validation is followed by a cancel and a submission that both pass theirs |
| Executions.MakersInPriority | src/book/order_book.cpp:400-443 | along one sweep every maker is strictly ahead, by price and then sequence, of the makers after it |
| Executions.NobodyIsSkipped | src/book/order_book.cpp:400-443 | a crossing order that has priority over an executed one has been filled before it |
| Executions.MakersAreExhausted | src/book/order_book.cpp:418-443 | every execution but the last fills its maker, and the last fills its maker or the taker |
| Executions.SweepIsMaximal | src/book/order_book.cpp:394-447 | a sweep trades the smaller of what is wanted and what crosses |
| Executions.SubmitIsMaximal | src/book/order_book.cpp:552-588 | the trades reported for an accepted order add up to the smaller of what it asks for and what is open in the orders it reaches by side, type and price |
| Executions.SubmitTakesAllOpposing | src/book/order_book.cpp:353-376 | in every reachable book what it reaches is, for a limit order, all on the other side at its limit or better, and for a market order, whatever price it carries, all on the other side |
| Executions.MarketTakesAll | src/book/order_book.cpp:532-550 | a market order after which an order of the other side still rests was filled completely |
| Executions.SubmitTradesInPriceOrder | src/book/order_book.cpp:378-443 | trade prices of one report never improve for the taker and never pass its limit, and at one price the order of earlier sequence trades first |
| Executions.TradeParties | src/book/order_book.cpp:229-251 | a trade names buyer and seller correctly, at the resting order's price and within its open quantity |
| Executions.ExecutionEventsAt | src/book/order_book.cpp:423-442 | each execution reports taker then maker; filled and open quantity add up to the order, and Fill means nothing is open |
| Executions.RestingHidesPartialFills | src/book/order_book.cpp:520-522 | an accepted order rests if and only if it is a limit order for more than it crosses, is then marked Resting in any case, and is partly filled all the same if and only if something crosses it |
| Priority.MarkCanHideAFill | src/book/order_book.cpp:520-522 | two orders from an empty book on, after which an order marked Resting has 2 of 5 open |
| Priority.MarkTellsLaterFills | src/book/order_book.cpp:421-442 | over every run that does not name it, an order marked Resting stays so if and only if nothing more of it is executed; any execution makes it PartiallyFilled |
| Priority.RunSpares | src/book/order_book.cpp:353-447 | price-time priority over whole runs: while an order rests, the orders of its side behind it are exactly as they were, whatever other orders come and go |
| Ledger.SweepConserves | src/book/order_book.cpp:418-421 | a sweep moves quantity from taker and makers to trades and loses none, per order and per side |
| Ledger.QuantityIsConserved | src/book/order_book.cpp:508-706 | over every run, per order and per side: accepted = traded + cancelled + discarded + resting |
| Ledger.DiscardedIsExcess | src/book/order_book.cpp:532-550 | of an accepted market order exactly what it asks for beyond all it crosses is discarded, of a limit order nothing |
| Ledger.SequenceIsAcceptedOnce | include/book/order_book.h:187-189 | an order sequence identifies one incarnation, even when order ids are reused |
| Tallies.RunCarries | src/book/order_book.cpp:229-295 | the reported acks, cancel acks and trades carry those accounts, and both sides trade the same total |
| Tallies.SweepFills | src/book/order_book.cpp:423-443 | the Fill events of a sweep are the makers that left the book and the taker if it was filled, at least one per trade |
| Tallies.DiscardsIff | src/book/order_book.cpp:532-550 | an accepted order vanishes if and only if it is a market order for more than all it crosses |
| Tallies.OrdersAreConserved | src/book/order_book.cpp:423-620 | over every run: acks = fills + cancel acks + discards + resting orders, fill events are two per trade, and trades never exceed acks less resting orders and cancel acks |
| Tallies.SequencesCountAcks | include/book/order_book.h:187-189 | over every run order sequences count the acknowledged orders from 1 on |
| Lifecycle.StepLives | src/book/order_book.cpp:258-319 | one command moves each id on through Ack, partial fills with growing totals, and Fill or CancelAck with matching quantities, to where the book then has it; the one exception is a discarded market order, which its events leave open |
| Lifecycle.EveryLifeIsTold | src/book/order_book.cpp:508-706 | over every run each incarnation of each id is told by one Ack, then growing partial fills, then at most one Fill or CancelAck, and the book agrees with the story, if discarded orders are closed by hand |
| Lifecycle.EventsTellAllIff | src/book/order_book.cpp:532-550 | the reported events alone tell where an id stands if and only if no market order was discarded under it |
| Lifecycle.MarketOrderCanVanish | src/book/order_book.cpp:532-550 | such an order exists: any market order that meets an empty book is acknowledged and never heard of again |
| Numbering.StepNumbers | src/book/order_book.cpp:229-319 | every call uses as many consecutive event numbers as it reports events and trades, each once, and consecutive trade ids |
| Numbering.NumbersAreConsecutive | include/book/order_book.h:187-197 | over every run the numbers from 1 on are used without gap or repeat, and so are trade ids |
| Numbering.SortedUnlessReplaced | src/book/order_book.cpp:670-703 | a report lists its events in number order if and only if it is not that of an accepted replace |
| Symmetry.SweepImage | src/book/order_book.cpp:394-502 | swapping sides and reflecting prices, or renumbering sequences without reordering them, turns each sweep into its image, execution by execution |
| Symmetry.RunImage | src/book/order_book.cpp:367-706 | such an image of a run, from any well-formed book on, is the run of the image of its commands, books and reports alike |
| Symmetry.MirroredRun | src/book/order_book.cpp:367-502 | buys and sells are treated alike: every run from an empty book, reflected in a price above its limit prices, is the run of the reflected commands; market orders and refused prices are included |
| Symmetry.MirrorAbove | src/book/order_book.cpp:147-156 | there is such a price for every run |
| Symmetry.DelayedRun | include/book/order_book.h:187-197 | only the order of sequences matters: with its counters ahead a book goes on alike, with the same orders in the same priority and the same reports, new numbers being as much ahead |
| Invisible.RunWithout | src/book/order_book.cpp:353-447 | an order that a run neither names nor executes could be absent: same reports, same book but for that order |
| Invisible.SubmitThenCancel | src/book/order_book.cpp:508-625 | submitting a non-crossing limit order and cancelling it later, whatever came in between without touching it, compares with never submitting it: same resting orders in the same priority, same reports, later numbers one on |
| Invisible.SubmitMissCancel | src/book/order_book.cpp:353-625 | the same if, before each command in between, the order it would submit or put in place of another is on the same side or does not reach the price |
| Replacing.ReplaceIsCancelThenSubmit | src/book/order_book.cpp:642-703 | an accepted replace leaves the book of cancelling the old order and submitting, on its side, a limit order of the new id, price and quantity at the same time, with one more number used, and reports both plus a ReplaceAck |
| Replacing.ReplaceAckContents | src/book/order_book.cpp:700 | the ReplaceAck names both orders; if the replacement is still owned it is a true copy of the resting order, and otherwise the order is gone and what it held when filled is reported |
| Replacing.ReplacementIsOwnedIff | src/book/order_book.cpp:668-700 | the replacement is still owned when it is read if and only if its quantity exceeds what it crosses |
| Replacing.ReplacementCanBeLost | src/book/order_book.cpp:668-700 | two orders and a replace, from an empty book on, after which the source reads an erased order |
| Replacing.NeverAlreadyClosed | src/book/order_book.cpp:176-202 | OrderAlreadyClosed is never reported for a reachable book |
| RingIndex.CapacityIsPower | include/concurrency/spsc_ring_buffer.h:12-14 | the asserted bit test admits only powers of two |
| RingIndex.MaskIsModulo | include/concurrency/spsc_ring_buffer.h:175-177 | masking an index is the remainder by the capacity |
| RingIndex.DistanceIsModulo | include/concurrency/spsc_ring_buffer.h:179-182 | the masked, wrapping 64-bit difference of two indices is that of the counters but for whole laps |
| RingIndex.DistanceCounts | include/concurrency/spsc_ring_buffer.h:179-182 | the masked, wrapping 64-bit difference of two indices counts the elements between them |
| SpscRingBuffers.SpscRingBuffer.Push | include/concurrency/spsc_ring_buffer.h:38-55 | appends unless capacity less one elements are queued, however stale the cached head |
| SpscRingBuffers.SpscRingBuffer.Pop | include/concurrency/spsc_ring_buffer.h:79-95 | removes the front element if there is one, however stale the cached tail |
| SpscRingBuffers.SpscRingBuffer.Peek | include/concurrency/spsc_ring_buffer.h:103-116 | points at the front element if there is one, and removes nothing |
| SpscRingBuffers.SpscRingBuffer.ConsumeOne | include/concurrency/spsc_ring_buffer.h:121-135 | drops the front element if there is one |
| SpscRingBuffers.SpscRingBuffer.Clear | include/concurrency/spsc_ring_buffer.h:140-144 | empties the queue |
| SpscRingBuffers.SpscRingBuffer.Full | include/concurrency/spsc_ring_buffer.h:58-70 | true exactly when capacity less one elements are queued |
| SpscRingBuffers.SpscRingBuffer.Size | include/concurrency/spsc_ring_buffer.h:160-164 | the number of queued elements, when no other thread moves |
| SpscProtocol.ProducerStepKeepsInv | include/concurrency/spsc_ring_buffer.h:38-55 | every shared access of the producer, with any stale load the cache order allows, keeps the protocol invariant |
| SpscProtocol.ConsumerStepKeepsInv | include/concurrency/spsc_ring_buffer.h:79-144 | so does every shared access of pop, peek, consume_one and clear |
| SpscProtocol.MasksDecide | include/concurrency/spsc_ring_buffer.h:43-90 | the masked comparisons decide full and empty exactly, relative to what the thread has observed |
| SpscProtocol.QueueIsFifo | include/concurrency/spsc_ring_buffer.h:38-95 | under every interleaving the i-th removal, if a pop, delivers the i-th push untorn; the rest is intact in its slots |
| SpscProtocol.NoSharedSlot | include/concurrency/spsc_ring_buffer.h:52-92 | a slot write and a slot read under way at once concern different slots |
| SpscProtocol.WriteFollowsRelease | include/concurrency/spsc_ring_buffer.h:43-53 | the producer writes only a slot whose last element it has observed as removed |
| SpscProtocol.ReadFollowsPublication | include/concurrency/spsc_ring_buffer.h:83-92 | the consumer reads only an element it has observed as published, and finds it complete |
| SpscProtocol.CallsAreWaitFree | include/concurrency/spsc_ring_buffer.h:38-144 | a thread inside a call always has a step, each own step brings the return closer, and no step of the other thread sets it back |
| SpscProtocol.CallsReturn | include/concurrency/spsc_ring_buffer.h:38-144 | over every run a call under way has returned by its thread's fourth own step, whatever the other thread does |
| SpscProtocol.PeekIsStable | include/concurrency/spsc_ring_buffer.h:97-116 | what a peek has found stays in its slot, and stays the next to be removed, through any steps of both threads that leave head alone |
| SpscProtocol.CallsCanBegin | include/concurrency/spsc_ring_buffer.h:38-144 | any call can begin outside a call, and every load may return the current index |
| SpscProtocol.ConsumerCallDoes | include/concurrency/spsc_ring_buffer.h:79-135 | what a whole call has done when it returns, whatever the producer did: pop took the next element as pushed, consume_one dropped it, peek left it and says where it is; and none did anything but answer empty if nothing was published by the tail known |
| SpscProtocol.PushCallDoes | include/concurrency/spsc_ring_buffer.h:38-55 | what a whole push has done when it returns, whatever the consumer did: appended its value, or nothing if by the head known all slots but one are taken |
| SpscProtocol.ClearDropsWhatItSaw | include/concurrency/spsc_ring_buffer.h:137-144 | clear drops exactly what was published at its tail load and keeps what is pushed before its head store |
| SpscProtocol.PushFailsIff | include/concurrency/spsc_ring_buffer.h:43-50 | a push gives up if and only if all slots but one are taken by the head it loaded |
| SpscProtocol.ConsumerFailsIff | include/concurrency/spsc_ring_buffer.h:79-135 | pop, peek and consume_one answer empty if and only if nothing is published by the tail they loaded, and load it only when nothing seen is left |
| SpscProtocol.OutsideEmptyIff | include/concurrency/spsc_ring_buffer.h:154-158 | to a third thread, empty tells only whether a whole number of laps lies between its two loads |
| SpscProtocol.EmptyCanMislead | include/concurrency/spsc_ring_buffer.h:154-158 | a run in which a third thread finds the indices equal although an element was queued at every moment between its loads |
| SpscProtocol.OutsideSizeIsModulo | include/concurrency/spsc_ring_buffer.h:160-164 | to a third thread, size is the difference of its two loads with whole laps left out |
| SpscProtocol.ConsumerSeesExactly | include/concurrency/spsc_ring_buffer.h:154-164 | called by the consumer thread, empty and size are exact about the tail observed, whatever the producer does between the two loads |
| SpscProtocol.ProducerSeesExactly | include/concurrency/spsc_ring_buffer.h:154-164 | called by the producer thread, they are exact about the head observed: what is called empty is empty, and size never counts too few |
| Engine.SymbolsAreIndependent | src/engine/matching_engine.cpp:98-142 | for every command stream, the book and the answers of a registered symbol are those of its own commands alone |
| Engine.DifferentSymbolsCommute | src/engine/matching_engine.cpp:98-142 | commands on different symbols can be exchanged |
| Engine.UnknownSymbolAnswer | src/engine/matching_engine.cpp:55-88 | a command for an unregistered symbol is answered by one refusal of its kind with its id, symbol and time, reason UnknownSymbol and number 0, and no book changes |
| Engine.DispatchKeepsRegistered | src/book/order_book.cpp:125-130 | dispatch keeps each book under its own symbol, so a book's own UnknownSymbol check never fires |
| Engine.MatchingEngine.DispatchCommand | src/engine/matching_engine.cpp:126-142 | routes to one book, leaves all others unchanged, and answers unknown symbols itself |
| Engine.MatchingEngine.AddSymbol | src/engine/matching_engine.cpp:12-20 | registers a valid new symbol with an empty book, and otherwise changes nothing |
| Engine.MatchingEngine.RemoveSymbol | src/engine/matching_engine.cpp:22-24 | discards the book of a symbol and tells whether there was one |
| MatchingLoops.MatchingLoop.PollOnce | include/engine/matching_loop.h:79-90 | takes the front command, if any, and extends the sink by its report |
| MatchingLoops.MatchingLoop.PollBatch | include/engine/matching_loop.h:92-108 | takes as many commands as the limit and the queue allow; books and sink are those of a sequential run over them |
| Pipeline.PipelineIsSequential | include/engine/matching_loop.h:79-121 | under every interleaving: commands pushed = reported, then at most one in flight, then queued; log, books, and the command or report in flight are those of a sequential run, whatever the batches and stops |
| Pipeline.LogsAreDeterministic | include/engine/matching_loop.h:110-121 | two runs fed consistently have consistent logs |
| Pipeline.QueueRunsProtocol | include/engine/matching_loop.h:79-121 | in the system the queue runs the two-thread protocol, and the producer makes just its own steps, so what holds of all interleavings holds here |
| Pipeline.LoopGoesOn | include/engine/matching_loop.h:110-121 | the loop has stopped only if a stop was requested, can move as long as none was, and neither blocks the producer nor a stop request |
| Pipeline.FedLoopReports | include/engine/matching_loop.h:79-121 | while no stop is requested and each load of the tail finds a command, ten own moves of the loop yield another report |
| Pipeline.BatchRunsFull | include/engine/matching_loop.h:92-121 | between two tests for a stop the loop reports 64 commands, or fewer because a pop found the queue empty, and counts an idle spin exactly if none |
| Pipeline.StopTakesEffect | include/engine/matching_loop.h:110-121 | from a stop request on at most what is left of the batch is still reported, and the loop stops after at most 7 own moves per command left of it and 3 more, one of them being possible until then, whatever the producer does |

## Left out

- OrderBooks.OrderBook.ReplaceOrder: the read of an order that submission has already erased yields that order's last values, because the model's heap does not reuse memory; `Replacing.ReplacementIsOwnedIff` says when that happens.
- Pipeline.PipelineIsSequential: `run` is a state machine here, not a class method, since without a stop request it does not end; thread start, join, yield and the `running_` flag are not modelled.
- SpscProtocol.QueueIsFifo: memory ordering is modelled by stale index loads over one memory of slots; that slot contents become visible with the index that publishes them is what release and acquire are taken to mean.
- Engine.SymbolsAreIndependent: the stream has no symbol registration or removal in it, because removal discards a book outright.
- PriceLevels.Order: identity, side, type, price, quantity, sequence and creation time are constants, since nothing in the source changes them after creation.
- OrderBooks.OrderBook.BestPrice: the ordered map is a map with a search for its extreme key; how the tree or the hash tables work is not modelled.
- Wrap-around of the 64-bit order, event and trade counters, and of 64-bit identifiers: all are unbounded naturals. Quantities only decrease after validation, so their width does not matter.
- A fixed command record with fields reused by type: a command is one of the three requests instead, and the field copies between them are not modelled.
- Debug and statistics observers (`find_order`, level and order counts): they read the sizes of maps whose contents are proved.
- Liveness: calls end by themselves and `Pipeline.FedLoopReports` bounds the loop's work once it observes a command, but nothing says that a push is eventually observed; that depends on the scheduler and on the memory system.
- `full`, `empty` and `size` as steps of the protocol: they change no shared index. `empty` and `size` are two states of a run, one for each load; `full` is covered for one thread at a time only, by the class.
- The side of a price level: a ghost constant of the model that the source does not have; it says which of the two maps holds the level.
- The printing sink, the demo and the benchmark driver: output and timing only. The sink is an append-only log.
- Cache-line alignment, trivially-copyable assertions and `reserve`: no functional meaning.
