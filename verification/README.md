# Verification of the execution platform's core

A Dafny model of the parts of the repository that move orders, events and
inventory, with proofs about every input, every run and every interleaving.
`dafny verify dfyconfig.toml` checks all of it.

**The order book.** `Slab`, `Fifo`, `Ladder` and `IdTable` hold the four
structures the book stands on, in the form the source gives them: an array
with an intrusive free list, doubly linked queues threaded through the slab's
slots, a direct-indexed ladder with an incremental touch, and an
open-addressing table with back-shift deletion. `BookRep` ties snapshots of all
of them together in one invariant and `OrderBook` is the class that updates
them. `MatchingSpec` is the abstract book: per side one list of (id, price,
quantity) in priority order. Every method of `OrderBook` is proved to do to the
abstract book what the specification says. `ArrivalBook` is an independent
second specification, one list of orders in arrival order searched end to end
for every fill, and is proved to agree with the first. `BookRuns` lifts both to
whole runs and adds conservation of quantity.

**The bridge.** `RingProtocol` is the single-producer single-consumer ring as
a step machine: own-index load, other-index load, slot access and index store
are separate steps, interleaved arbitrarily. Indices are unbounded in the
state; the code's tests and slot numbers are computed from their values modulo
2^64 and proved to mean the same. A load of the other side's index may return
any value between what that thread last saw and the present one, and a slot
read may return any value written there and not yet ordered before the read;
that only one value is left is proved, not assumed. `SpscRing` is the ring as
an object, and holds only while nobody else calls it: with a consumer at work
its contents shrink between the producer's calls, and a push that sees a stale
index can be rejected although there is room, which only `RingProtocol` shows.
`EventRelay` adds the relay thread and a controller that calls Start and Stop,
`Bridge` puts a publisher driving a book at the producer's end.

**The tape.** `Telemetry` says which events an operation emits and how a reader
replays them; `Publishing` is the publisher over the real book and ring. The
publisher ignores what a push returns, so the pushes it attempts are the same
with and without a consumer. `Bridge` therefore has the publisher as one more
part of the interleaved machine, with its book, its number and the events it
still has to push.

**The episode machine.** `SimSpec` gives step, reset and episode as functions,
`SimFacts` what holds in every reachable state, `SimOutcome` what a step sells,
rests, earns and shows, in the source's own numbers, `SimTape` the two streams
of events its ring carries, `SimEnv` the object over the book, publisher and
ring that computes them.

**The schedules.** `Vwap` and `AlmgrenChriss` are the two integer
schedules, over exact reals.

How source entities appear:

- Order pointers are slab slot numbers, `nullptr` is -1. A slot is `Free` with
  its link, `Raw` between allocation and construction, or `Live` with an order.
- `on_fill` is the returned sequence of fills, in call order; the publisher
  pushes them after the book call returns, which is the same sequence of
  pushes because the book does not read the ring.
- The two price vectors with their touch and counter, and the id table with its
  mask, are objects of their own (`PriceLadder`, `IdIndex`); the source keeps
  these fields inside `OrderBook`.
- Long source bodies are split into one method per phase (`ConsumeHead`,
  `Attach`, `Detach`, `BackShift`, `SendBurst`, `Account` and the like).
- The id hash, the random generator, clocks and the Almgren-Chriss urgency
  curve are arbitrary: the proofs hold for all of them.
- Preconditions are those the book states or relies on: quantities are
  positive, and an id submitted is not resting at that moment.

Where code and documentation differ, the code is modelled:

- A full ring drops the newest event; docs/architecture.md line 78 says it
  overwrites the oldest.
- `Stop` does not flush the logger, though the header comment of
  cpp/external/event_relay.hpp (line 14) says it does.
- The slab hands out its highest slot first, not ascending addresses
  (cpp/core/slab_allocator.hpp line 49); only last-in first-out reuse and the
  partition of slots are stated.
- `AddLimit` returns false also for an out-of-band residual, which the
  publisher's comment (cpp/exec/telemetry_publisher.hpp line 59) leaves out.
- `remaining_` and `qty_filled_` follow only the fills a child makes on entry;
  fills of a resting child are not credited (experiments.md lines 301-306).

## Model

| member | source | states |
|---|---|---|
| Slab.SlabAllocator.constructor | cpp/core/slab_allocator.hpp:40-57 | every slot starts on the free list exactly once, none in use |
| Slab.SlabAllocator.Allocate | cpp/core/slab_allocator.hpp:72-82 | pops the most recently freed slot, leaves the rest of the list; NIL and no change exactly when exhausted |
| Slab.SlabAllocator.Deallocate | cpp/core/slab_allocator.hpp:86-94 | the freed slot becomes the next to be handed out; the count falls by one and cannot underflow |
| Slab.PushFree | cpp/core/slab_allocator.hpp:90-92 | writing one link extends the chain of free slots by that slot, without repetition and without missing any free slot |
| Slab.PopFree | cpp/core/slab_allocator.hpp:76-77 | following the head's link gives the head of a list of exactly the remaining free slots |
| Slab.NoDupBound | cpp/core/slab_allocator.hpp:78-93 | a list of distinct slots is no longer than the slab: why `in_use_` stays between zero and capacity |
| IdTable.RoundUpPow2 | cpp/core/order_book.hpp:214-218 | the least power of two at or above n |
| IdTable.IdIndex.constructor | cpp/core/order_book.hpp:101-104 | the empty table is valid and at least twice the order capacity |
| IdTable.IdIndex.Span | cpp/core/order_book.hpp:322-322 | the masked 64-bit subtraction is the cyclic forward distance, also across the table end |
| IdTable.IdIndex.InsertId | cpp/core/order_book.hpp:282-290 | the table afterwards represents the old map plus the new pair; the probe loop ends at any load below full |
| IdTable.IdIndex.LookupAndEraseId | cpp/core/order_book.hpp:308-334 | returns the old map's value and leaves exactly the old map without the id; absent ids change nothing; for any hash, cluster and wrap-around |
| IdTable.IdIndex.BackShift | cpp/core/order_book.hpp:318-328 | closing the hole removes one id, keeps every other reachable, and terminates |
| IdTable.MoveIntoHole | cpp/core/order_book.hpp:322-325 | moving an entry whose home is at or before the hole leaves only paths further on running through the new hole |
| IdTable.PassEntry | cpp/core/order_book.hpp:292-298 | an entry whose home lies after the hole does not need the hole, so skipping it is safe |
| IdTable.CloseHole | cpp/core/order_book.hpp:320-328 | at the cluster's end no path runs through the hole: the probing invariant holds again |
| IdTable.StoppingAtHomeStrands | cpp/core/order_book.hpp:300-307 | the scan that stops at the first entry on its home slot, run on a reachable table, leaves an id in the table that no lookup finds |
| IdTable.TakeSlot | cpp/core/order_book.hpp:285-289 | the first vacant slot on an id's path is where it may go |
| IdTable.AbsentAt | cpp/core/order_book.hpp:313-315 | reaching a vacant slot proves the id is nowhere in the table |
| IdTable.LoadIsSize | cpp/core/order_book.hpp:88-90 | the number of taken table slots is the number of ids |
| Fifo.PushBackToLevel | cpp/core/order_book.hpp:351-362 | the whole new slab and level state: old tail linked to the order, order last, totals raised |
| Fifo.UnlinkFromLevel | cpp/core/order_book.hpp:336-349 | the whole new slab and level state: neighbours linked past the order, totals lowered |
| Fifo.PopHead | cpp/core/order_book.hpp:413-419 | the whole new state after the head is popped without touching the total |
| Fifo.PushChain | cpp/core/order_book.hpp:351-362 | a well-linked queue stays well linked both ways and lists the old orders, then the new one; sum and count follow |
| Fifo.UnlinkChain | cpp/core/order_book.hpp:336-349 | unlinking position k of a well-linked queue leaves a well-linked queue of the other orders in order; sum and count follow |
| Fifo.ShrinkChain | cpp/core/order_book.hpp:405-409 | a partial fill changes the first order's quantity and the level's sum by the same amount and no link |
| Fifo.PopIsUnlink | cpp/core/order_book.hpp:410-419 | popping a spent head, links and counters, is the same as unlinking it |
| Ladder.PriceLadder.MarkLevelLive | cpp/core/order_book.hpp:242-254 | restores: the counter is the number of non-empty levels and the touch the best of them |
| Ladder.PriceLadder.ScanDown | cpp/core/order_book.hpp:264-268 | stops inside the band at the nearest lower non-empty level |
| Ladder.PriceLadder.ScanUp | cpp/core/order_book.hpp:273-277 | stops inside the band at the nearest higher non-empty level |
| Ladder.PriceLadder.MarkLevelEmptied | cpp/core/order_book.hpp:260-280 | restores counter and touch after a level empties, scanning only if the touch was lost and levels remain |
| Ladder.CountPositive | cpp/core/order_book.hpp:256-259 | the counter is positive exactly if some level is non-empty, so the scan has somewhere to stop |
| BookRep.RestStep | cpp/core/order_book.hpp:431-443 | resting into a free slot keeps the joint invariant of slab, queues and index and appends to one level's row |
| BookRep.DropStep | cpp/core/order_book.hpp:336-349 | removing any queued order from its queue, the index and the slab keeps the joint invariant and cuts one order from one row |
| BookRep.ShrinkStep | cpp/core/order_book.hpp:405-409 | a partial fill keeps the joint invariant and shrinks one order |
| BookRep.AppendIsInsert | cpp/core/order_book.hpp:437-439 | appending at a price level is insertion behind all orders at least as good, in the flat priority list |
| BookRep.LiveIds | cpp/core/order_book.hpp:282-334 | the index knows an id exactly if an order with it rests |
| BookRep.LevelIsQueue | cpp/core/order_book.hpp:67-77 | a level's queue is the arrival-ordered list of orders at its price; total and count are its sum and length |
| BookRep.QueuedOnce | cpp/core/order_book.hpp:336-362 | no slot is queued twice, and it is queued where its own side and price say |
| BookRep.FreeOrQueued | cpp/core/order_book.hpp:399-445 | a slot is on the free list exactly if no level queues it |
| BookRep.CountersAgree | cpp/core/order_book.hpp:67-77 | the level counters of a side add up to the number of its orders |
| OrderBook.OrderBook.constructor | cpp/core/order_book.hpp:93-106 | an empty valid book, for every capacity up to 2^62, band and hash |
| OrderBook.OrderBook.AddLimit | cpp/core/order_book.hpp:132-146 | fills (maker, taker, price, quantity, order of calls), return value and resulting book are those of the specification; validity kept |
| OrderBook.OrderBook.Cancel | cpp/core/order_book.hpp:159-173 | return value, reported order and resulting book are those of the specification; validity kept |
| OrderBook.OrderBook.MatchBuy | cpp/core/order_book.hpp:364-378 | level by level, exactly the specified sweep of the asks; bids untouched |
| OrderBook.OrderBook.MatchSell | cpp/core/order_book.hpp:380-394 | level by level, exactly the specified sweep of the bids; asks untouched |
| OrderBook.OrderBook.ConsumeLevel | cpp/core/order_book.hpp:399-425 | fills against one level continue the sweep, until taker or level is exhausted; no other level changes |
| OrderBook.OrderBook.ConsumeHead | cpp/core/order_book.hpp:404-422 | one fill against the side's first order; a spent order leaves every structure |
| OrderBook.OrderBook.Rest | cpp/core/order_book.hpp:427-445 | succeeds exactly if the price is in band and the slab not full; then inserts by price-time priority, otherwise changes nothing |
| OrderBook.OrderBook.BestBid | cpp/core/order_book.hpp:183-185 | no resting bid is higher, and the first bid has this price; zero for an empty side |
| OrderBook.OrderBook.BestAsk | cpp/core/order_book.hpp:186-188 | no resting ask is lower, and the first ask has this price; zero for an empty side |
| OrderBook.OrderBook.OpenOrderCount | cpp/core/order_book.hpp:203-203 | the slab's count is the number of orders resting |
| OrderBook.OrderBook.LevelQty | cpp/core/order_book.hpp:189-193 | the quantities of the orders resting at that price add up to it, zero outside the band |
| OrderBook.OrderBook.LevelOrderCount | cpp/core/order_book.hpp:194-198 | how many orders rest at that price, zero outside the band |
| OrderBook.OrderBook.TouchIsTop | cpp/core/order_book.hpp:456-461 | the cached touch is the price of the side's first order, none is better, and the counter is zero exactly if the side is empty |
| OrderBook.OrderBook.NeverCrossed | cpp/core/order_book.hpp:132-146 | between calls the cached best bid is strictly below the cached best ask; ids are distinct, prices in band |
| OrderBook.OrderBook.Partition | cpp/core/order_book.hpp:88-90 | free list and queues partition the slab; slots in use, level counters, ids and taken table slots are equally many, at most half the table |
| MatchingSpec.MatchTakesPrefix | cpp/core/order_book.hpp:364-394 | matching consumes a prefix of crossing makers, may shrink the next crossing one, and stops only when nothing left crosses |
| MatchingSpec.MatchConserves | cpp/core/order_book.hpp:403-423 | each unit sent is filled or left over, and each unit filled leaves a maker |
| MatchingSpec.MatchFillsInOrder | cpp/core/order_book.hpp:399-425 | fill i trades with the i-th order of the opposite side at that order's price, under the taker's id and side, within its limit; every fill but the last takes all of its maker |
| MatchingSpec.SubmitKeeps | cpp/core/order_book.hpp:132-146 | a submission keeps both sides sorted, ids distinct, prices in band, the book uncrossed and within capacity |
| MatchingSpec.CancelKeeps | cpp/core/order_book.hpp:159-173 | so does a cancel, and the id rests no more |
| MatchingSpec.CancelAt | cpp/core/order_book.hpp:159-173 | cancelling cuts exactly that order out of its side and reports its quantity |
| MatchingSpec.ResumesAtEnd | cpp/core/order_book.hpp:364-394 | a sweep interrupted after any number of fills and resumed is the whole sweep |
| ArrivalBook.SweepAgrees | cpp/core/order_book.hpp:364-425 | searching all arrivals for the best-priced earliest order, fill by fill, gives the fills and book of the priority sweep |
| ArrivalBook.SubmitAgrees | cpp/core/order_book.hpp:132-146 | submitting to the naive arrival-order book and to the priority book is the same |
| ArrivalBook.CancelAgrees | cpp/core/order_book.hpp:148-173 | so is cancelling |
| BookRuns.RunKeeps | cpp/core/order_book.hpp:132-173 | after any legal run the book is sorted, unique, uncrossed, in band and within capacity, dropped residuals included |
| BookRuns.NewIdsAreLegal | cpp/core/order_book.hpp:123-135 | submissions of positive quantities under unused ids, with any cancels between, are a legal run |
| BookRuns.SubmitFails | cpp/core/order_book.hpp:123-127 | false is returned exactly if a residual is left and its price is out of band or the slab full after matching; that residual is what is dropped |
| BookRuns.RunConserves | cpp/core/order_book.hpp:132-173 | over any run: submitted plus initially resting equals twice filled plus resting plus cancelled plus dropped |
| BookRuns.NaiveRunAgrees | cpp/core/order_book.hpp:132-173 | over any legal run the naive book reports the same and holds the same orders |
| BookRuns.Drive | cpp/tests/order_book_test.cpp:371-380 | the concrete book driven through any legal run gives the abstract reports and final book, and from empty those of the naive book; so equal runs give equal fills |
| Bits.WrapThenMask | cpp/core/spsc_ring.hpp:13-15 | masking a wrapped 64-bit index is the unbounded index modulo the capacity |
| Bits.WrapDifference | cpp/core/spsc_ring.hpp:13-15 | wrapped subtraction of wrapped indices is the true distance while that is below 2^64 |
| RingProtocol.WrappedTests | cpp/core/spsc_ring.hpp:72-91 | the full and empty tests on wrapped indices mean what they mean on unbounded ones |
| RingProtocol.SlotApart | cpp/core/spsc_ring.hpp:76-94 | indices less than a capacity apart share a slot only if equal, also across wrap |
| RingProtocol.RunInv | cpp/core/spsc_ring.hpp:64-99 | the protocol invariant holds at every point of every interleaving with stale index reads |
| RingProtocol.Bounded | cpp/core/spsc_ring.hpp:72-80 | occupancy stays between zero and capacity |
| RingProtocol.NoSharedSlot | cpp/core/spsc_ring.hpp:76-94 | while the producer writes and the consumer reads, they are at different slots |
| RingProtocol.ReadIsExact | cpp/core/spsc_ring.hpp:88-94 | the consumer's slot read can return only the value pushed at its index |
| RingProtocol.PoppedIsPrefix | cpp/core/spsc_ring.hpp:17-21 | what was popped is a prefix of the accepted pushes, in order |
| RingProtocol.FirstAccepted | cpp/core/spsc_ring.hpp:54-73 | a fresh ring accepts its first push, in every interleaving |
| RingProtocol.DrainedIsAll | cpp/core/spsc_ring.hpp:85-99 | when the ring is empty, everything accepted has been popped, in order |
| RingProtocol.NothingLost | cpp/core/spsc_ring.hpp:64-99 | completed attempts are popped, in the ring or dropped, and the counter counts the drops modulo 2^64 |
| RingProtocol.PushNeverWaits | cpp/core/spsc_ring.hpp:5-7 | a started push always has a next step and every step brings it nearer its return, whatever the consumer does |
| RingProtocol.PushCompletes | cpp/core/spsc_ring.hpp:64-81 | from every reachable state a whole undisturbed TryPush exists and does what the ring promises as an object: the value stored last if there is room, otherwise only a drop counted |
| RingProtocol.PopCompletes | cpp/core/spsc_ring.hpp:85-99 | so does a whole TryPop: the oldest value taken, or nothing exactly if empty |
| RingProtocol.StaleLoads | cpp/core/spsc_ring.hpp:65-90 | a load of the other index may return anything from what was last seen to the present value |
| RingProtocol.EitherSideMoves | cpp/core/spsc_ring.hpp:5-12 | every step of either side is a step of the whole, whatever the other is doing |
| SpscRing.SpscRing.TryPush | cpp/core/spsc_ring.hpp:64-81 | without interference: appends if there was room, otherwise changes nothing but the drop counter; says which |
| SpscRing.SpscRing.TryPop | cpp/core/spsc_ring.hpp:85-99 | without interference: removes and returns the oldest element, or nothing exactly if empty |
| EventRelay.RelayRunInv | cpp/external/event_relay.hpp:60-125 | the shutdown invariant holds at every point of every interleaving of producer, relay thread and controller |
| EventRelay.LogIsPrefix | cpp/external/event_relay.hpp:97-101 | the log is always a prefix of the accepted pushes, through restarts too |
| EventRelay.StopDelivers | cpp/external/event_relay.hpp:71-120 | when Stop has returned, every push the controller knew of when it called Stop is logged in order, and processed is the log's length modulo 2^64 |
| EventRelay.StopDrains | cpp/external/event_relay.hpp:11-16 | if nothing was pushed beyond that, the log is exactly the accepted pushes and the ring is empty |
| EventRelay.ThreadProgress | cpp/external/event_relay.hpp:95-124 | each step of the relay thread, except a missed look at the flag, lowers the number of steps it may still need |
| EventRelay.ThreadNeverStuck | cpp/external/event_relay.hpp:71-80 | while Stop waits to join, the thread always has such a step |
| EventRelay.StopWaitsBounded | cpp/external/event_relay.hpp:71-124 | in every interleaving, while Stop waits the thread's steps are bounded by the work at hand plus ten per event published and per missed look meanwhile |
| EventRelay.StopReturns | cpp/external/event_relay.hpp:71-80 | any stretch of thread steps from there is bounded, and it can go no further exactly when the thread has exited and Stop can join |
| EventRelay.StartReturns | cpp/external/event_relay.hpp:60-68 | Start on a stopped relay runs through to a running relay with its thread at work and the flag clear |
| EventRelay.StopWaits | cpp/external/event_relay.hpp:71-75 | Stop on a running relay sets the flag, telling the thread all the controller knows, and waits |
| EventRelay.StopClears | cpp/external/event_relay.hpp:76-80 | once the thread has exited, Stop joins it, clears the running flag and returns; ring, log and count stay |
| EventRelay.CallsAreIdempotent | cpp/external/event_relay.hpp:58-74 | Start while running and Stop while stopped return at once and change nothing |
| EventRelay.FreelyInterleaved | cpp/external/event_relay.hpp:8-9 | no step of producer or relay thread waits for the others, and a look at the flag may miss it |
| EventRelay.StopCanReturn | cpp/external/event_relay.hpp:71-80 | from every reachable state in which Stop waits it can return, without any further push |
| EventRelay.RunExists | cpp/external/event_relay.hpp:60-125 | for any values that fit the ring there is a run that pushes them, starts and stops the relay, and ends with Stop returned and exactly these values logged |
| Bridge.PipelineRunExists | cpp/tests/system_integration_test.cpp:6-13 | for any legal operations and clock readings whose events fit the ring there is a run that carries them out and ends with Stop returned and exactly these events logged |
| Bridge.PipelinePublishes | cpp/exec/telemetry_publisher.hpp:61-93 | in every interleaving of publisher, ring, relay thread and controller the pushes attempted are the beginning of the run's events, and all of them once the publisher rests; its book is the run's |
| Bridge.PipelineLogIncreases | cpp/tests/system_integration_test.cpp:6-13 | at every moment each logged event is the run's event of its own number, the numbers increase, and before the first drop the log is the beginning of the run's events |
| Bridge.PipelineRebuilds | cpp/tests/system_integration_test.cpp:6-13 | after the publisher rests and Stop returns, if nothing was dropped the log is every event of the run in order, and replaying it rebuilds the publisher's book |
| Bridge.PipelineShowsDrops | q/tca_analysis.q:5-7 | after Stop, drops or not, the gap read off the log is exactly the drops before its last event, and all drops exactly if the last attempt was accepted |
| Telemetry.FillEventsTell | cpp/external/kdb_logger.hpp:69-74 | field by field, fill event i of a submission names the taker, the i-th order of the opposite side, its resting price, the quantity reported and the next number |
| Telemetry.AckTells | cpp/external/kdb_logger.hpp:84-93 | field by field, the Ack that follows, exactly if a residual was accepted, and the order it announces rests |
| Telemetry.CancelEventTells | cpp/external/kdb_logger.hpp:75-83 | field by field, the event of a cancel is the resting order's; an id that does not rest has none |
| Telemetry.UntimedKeepsRest | cpp/external/kdb_logger.hpp:57-65 | comparing tapes without their times compares every other field |
| Telemetry.ReplayFills | cpp/exec/telemetry_publisher.hpp:64-69 | replaying a match's fill events does to the maker side what the match did |
| Telemetry.ReplayStep | cpp/exec/telemetry_publisher.hpp:61-93 | replaying one operation's events over the book before it gives the book after it, dropped residuals included |
| Telemetry.ReplayRun | cpp/exec/telemetry_publisher.hpp:61-93 | replaying a whole run's tape rebuilds live orders, quantities and arrival order |
| Telemetry.CancelCarriesResidual | cpp/exec/telemetry_publisher.hpp:80-93 | the one Cancel event carries the side, price and quantity the book holds for that id, and nowhere else |
| Telemetry.TapeNumbers | cpp/exec/telemetry_publisher.hpp:20-22 | delivered sequence numbers strictly increase and end with that of the last accepted push |
| Telemetry.GapCountsDrops | q/tca_analysis.q:5-7 | 1 + last - first - count is the number of drops before the last delivered event; at most all drops, with equality exactly if the last push was accepted |
| Telemetry.GapDetection | cpp/exec/telemetry_publisher.hpp:20-22 | that count is exact for the drained ring in every interleaving, and the tape starts at zero |
| Publishing.TelemetryPublisher.AddLimit | cpp/exec/telemetry_publisher.hpp:61-78 | the book acts as specified; one Fill per maker, then an Ack exactly if a residual rests, pushed in order with consecutive numbers |
| Publishing.TelemetryPublisher.Cancel | cpp/exec/telemetry_publisher.hpp:83-93 | one Cancel event exactly if the id rested, numbered next |
| Publishing.TapeStaysFaithful | cpp/exec/telemetry_publisher.hpp:61-93 | a tape of attempted pushes that rebuilds the book still does after the next operation |
| Publishing.TapeStaysNumbered | cpp/exec/telemetry_publisher.hpp:20-22 | attempts stay numbered consecutively from zero, drops included |
| Publishing.PublishesNumbered | cpp/exec/telemetry_publisher.hpp:20-22 | any prefix of a run's pushes, in the middle of an operation too, is numbered consecutively from zero |
| Publishing.PublishRun | cpp/exec/telemetry_publisher.hpp:61-93 | after any legal run over the real book and ring, without a consumer, the attempted pushes are exactly the run's events and rebuild the book; with no drop, so do the waiting events alone |
| SimEnv.Create | cpp/bindings/py_module.cpp:115-140 | a new environment is valid and in the initial state of its seed; zero quantity and horizon count as one |
| SimEnv.SimEnv.StepImpl | cpp/bindings/py_module.cpp:169-389 | state, reward and fills are those of the step function, for any action; the invariant is kept, all pushes since construction still rebuild the book, and earlier pushes stay |
| SimEnv.SimEnv.StepAndObserve | cpp/bindings/py_module.cpp:169-186 | the same with the observation, and replaying the events this step pushed over the book before it gives the book after it |
| SimEnv.SimEnv.WriteState | cpp/bindings/py_module.cpp:398-422 | the observation read off the real book and counters is that of the abstract state |
| SimTape.TapedStep | cpp/bindings/py_module.cpp:442-445 | an operation published by either path keeps the tape rebuilding the book and both numberings consecutive |
| SimTape.StreamsIncrease | cpp/bindings/py_module.cpp:442-445 | the publisher's and the child path's sequence numbers each increase, whatever the other does |
| SimEnv.SimEnv.ExpireStale | cpp/bindings/py_module.cpp:236-245 | cancels background orders in birth order up to the first young enough |
| SimEnv.SimEnv.SendBurst | cpp/bindings/py_module.cpp:247-284 | twelve synthetic orders, each with its draws, guarded eviction, submission and tracking, in order |
| SimEnv.SimEnv.SendChild | cpp/bindings/py_module.cpp:297-388 | price choice, submission and accounting of the child, over the real book |
| SimEnv.SimEnv.SubmitChild | cpp/bindings/py_module.cpp:324-349 | the fused observer publishes what the publisher would: the book acts as specified and the events are the same, under its own numbering, which advances by their number |
| SimEnv.SimEnv.Account | cpp/bindings/py_module.cpp:348-388 | tracking, totals, clock, close-out and reward from the child's fills |
| SimEnv.SimEnv.Reset | cpp/bindings/py_module.cpp:206-226 | from any valid state, exactly the state a new environment with that seed has; neither event numbering restarts |
| SimEnv.SimEnv.ResetAndObserve | cpp/bindings/py_module.cpp:155-160 | the same, with the observation of the initial state |
| SimEnv.PlayEpisode | cpp/bindings/py_module.cpp:155-186 | the object, reset after anything at all and stepped with any actions, shows what a new environment with that seed shows |
| SimFacts.InitialInv | cpp/bindings/py_module.cpp:115-140 | a new environment satisfies the invariant of reachable states |
| SimFacts.StepKeeps | cpp/bindings/py_module.cpp:231-389 | every step keeps: live ids tracked and below the next id, bids below mid, churn window, quantities adding up to the parent |
| SimFacts.HistoryInv | cpp/bindings/py_module.cpp:155-186 | that holds after any history of steps and resets |
| SimFacts.FlowIsRecent | cpp/bindings/py_module.cpp:84-89 | after a step every live background order was born in the last three steps, and at most 36 are live |
| SimFacts.LiquidityBounded | cpp/bindings/py_module.cpp:236-284 | the book holds at most 36 orders plus one per step taken |
| SimFacts.NeverCrowded | cpp/bindings/py_module.cpp:266-273 | if 36 + horizon is below capacity - 8, no background order ever meets the eviction guard |
| SimFacts.RoomMeansAccepted | cpp/bindings/py_module.cpp:266-274 | below capacity an in-band order is never refused |
| SimFacts.NothingRefused | cpp/bindings/py_module.cpp:236-340 | so, with background prices in band: after any history every background order of an unfinished step is accepted and tracked without an eviction, and its child is accepted |
| SimFacts.PassiveNeverFills | cpp/bindings/py_module.cpp:313-322 | a passive child never fills on entry |
| SimFacts.AggressiveFillsAtBestBid | cpp/bindings/py_module.cpp:309-322 | an aggressive child fills only at the best bid read before it was sent, and only if there was one |
| SimFacts.PassiveStepNeverFills | cpp/bindings/py_module.cpp:313-322 | so for whole steps in every reachable state |
| SimFacts.AggressiveStepFillsAtBestBid | cpp/bindings/py_module.cpp:309-322 | so for whole steps: every fill is at the best bid left by expiry and background flow |
| SimFacts.RewardNeverPositive | cpp/bindings/py_module.cpp:351-388 | whatever the action and the arrival mid, no step's reward is positive |
| SimFacts.CancelAllEmpties | cpp/bindings/py_module.cpp:206-215 | cancelling all tracked ids empties the book, since every live id is tracked |
| SimFacts.ResetIsFresh | cpp/bindings/py_module.cpp:206-226 | in every reachable state reset gives exactly the initial state |
| SimFacts.ResetReplays | cpp/bindings/py_module.cpp:155-160 | after any history, reset and any actions give the rewards, flags, fills and observations a new environment with that seed gives |
| SimFacts.EpisodeEnds | cpp/bindings/py_module.cpp:391-395 | after at most horizon steps the episode is over, and filled plus remaining is the parent quantity |
| SimOutcome.BeginsFresh | cpp/bindings/py_module.cpp:93-102 | every episode begins with an empty book, full inventory, ids from one and the seed's generator state, seed zero counting as one |
| SimOutcome.ExpiryIsExact | cpp/bindings/py_module.cpp:236-245 | expiry cancels exactly the queued background orders born three or more steps ago, oldest first, and no other |
| SimOutcome.EvictionMakesRoom | cpp/bindings/py_module.cpp:266-273 | with 8184 orders resting the newest tracked id is cancelled and forgotten; with fewer nothing is |
| SimOutcome.FlowOrderIs | cpp/bindings/py_module.cpp:255-284 | a background order's side is the first draw's low bit, its distance from the mid one to five ticks by the second, its quantity 10 to 49 by the third; it takes the next id and is tracked if accepted |
| SimOutcome.ChildAsks | cpp/bindings/py_module.cpp:286-296 | a child asks for the clamped share of what remains rounded down, and for everything on the last step |
| SimOutcome.StepSells | cpp/bindings/py_module.cpp:309-340 | on the last step or from an aggression of one half a step sells the lesser of what was asked and all that rests at the best bid, at that price; otherwise nothing |
| SimOutcome.StepRests | cpp/bindings/py_module.cpp:309-349 | what a child does not sell rests at the touch it was priced at, or beside the mid where a side is empty, under the thirteenth new id and tracked for reset, unless out of band or the book full; nothing else is tracked |
| SimOutcome.StepAccounts | cpp/bindings/py_module.cpp:364-395 | filled total and inventory move by exactly what was sold, cash by the best bid's price for each unit, the clock by one; done exactly when nothing is left or the horizon reached |
| SimOutcome.StepReward | cpp/bindings/py_module.cpp:351-388 | the reward is the basis points realised against the mid, less the squared inventory fraction, less a thousand times it when the episode ends with inventory |
| SimOutcome.OverIsOver | cpp/bindings/py_module.cpp:232-234 | a step after the end changes nothing and pays nothing |
| SimOutcome.EpisodeAccounts | cpp/bindings/py_module.cpp:364-366 | over any actions the filled total grows by the fills reported and the inventory shrinks by them |
| SimOutcome.ObservesInventory | cpp/bindings/py_module.cpp:403-415 | the observed fractions times the parent are inventory and filled total, and add up to one |
| SimOutcome.ObservesTouch | cpp/bindings/py_module.cpp:399-413 | bid and ask are the best prices resting, zero on an empty side; with both, spread is their positive difference and mid lies halfway, otherwise zero and the arrival mid |
| SimOutcome.ObservesTime | cpp/bindings/py_module.cpp:405-408 | time to go is the share of the horizon left, one at the start and zero at its end |
| SimOutcome.StepTakesTime | cpp/bindings/py_module.cpp:374-408 | each step takes one part of the horizon off it |
| SimOutcome.ObservesAverage | cpp/bindings/py_module.cpp:416-421 | the average price times mid and filled total is the cash; one before anything filled or without a mid |
| SimOutcome.ObservesBeginning | cpp/bindings/py_module.cpp:398-422 | what a new episode shows |
| SimOutcome.EpisodeShowsSold | cpp/bindings/py_module.cpp:155-186 | after a reset and any actions the last observation shows exactly what was sold since, and the rest as inventory |
| Vwap.VwapStrategy.constructor | cpp/exec/vwap.cpp:8-43 | the two tables are the planned children and the planned remainders |
| Vwap.ChildrenSum | cpp/exec/vwap.hpp:4-7 | for any profile the children sum to the parent quantity, and any prefix to what has been sent |
| Vwap.RemainingFalls | cpp/exec/vwap.cpp:36-41 | what remains never rises and ends at zero |
| Vwap.SentIsRounded | cpp/exec/vwap.cpp:32-38 | for non-negative weights the two clamps never bite: each prefix is the rounded cumulative share |
| Vwap.UnitPrefix | cpp/exec/vwap.hpp:3-7 | with weights summing to one every prefix is within half a unit of its cumulative share, exact halves upwards |
| Vwap.SentWhenFull | cpp/exec/vwap.cpp:34-36 | weights that reach one early send everything from then on |
| Rounding.ShareError | cpp/exec/vwap.cpp:35-35 | a share is rounded by less than half a unit up or by at most half, halves going up |
| Vwap.UnitRun | cpp/exec/vwap.hpp:3-7 | and every run of consecutive children within one unit of its share |
| Vwap.UnitChild | cpp/exec/vwap.hpp:3-7 | in particular every child in the table is within one unit of its own weight's share |
| AlmgrenChriss.NextInventory | cpp/exec/almgren_chriss.cpp:41-53 | one step's time arithmetic, rounding and clamp give the planned inventory, never above the one before |
| AlmgrenChriss.AlmgrenChriss.constructor | cpp/exec/almgren_chriss.cpp:16-61 | the tables themselves: children are the differences of a remainder from the parent to zero and sum to it; at near-zero urgency, so without risk, the even schedule with every child the even share rounded down or up; otherwise the lesser of the curve's rounding and the step before, within half a unit of a falling curve, never above the even schedule for a convex one |
| AlmgrenChriss.NoRiskNoKappa | cpp/exec/almgren_chriss.cpp:8-14 | without risk aversion or volatility the urgency is zero, so the schedule linear |
| AlmgrenChriss.KappaIs | cpp/exec/almgren_chriss.cpp:8-14 | every urgency is that of some parameters |
| AlmgrenChriss.FallingPlan | cpp/exec/almgren_chriss.cpp:48-56 | on a falling curve the monotone clamp never bites: the curve to the nearest unit, halves up |
| AlmgrenChriss.LinearHeld | cpp/exec/almgren_chriss.cpp:43-53 | the linear schedule in integers |
| AlmgrenChriss.LinearTime | cpp/exec/almgren_chriss.cpp:41-44 | the time arithmetic of the linear case is (N - j) / N for every horizon |
| AlmgrenChriss.RemainingFalls | cpp/exec/almgren_chriss.cpp:27-31 | for any curve the inventory falls monotonically from the parent quantity to zero |
| AlmgrenChriss.ChildrenSum | cpp/exec/almgren_chriss.cpp:58-60 | for any curve the children sum to the parent quantity |
| AlmgrenChriss.LinearPlan | cpp/exec/almgren_chriss.cpp:51-53 | on the linear curve the monotone clamp never bites |
| AlmgrenChriss.LinearChildren | cpp/exec/almgren_chriss.hpp:15-16 | in the linear limit every child is the even share rounded down or up |
| AlmgrenChriss.PlanOrdered | cpp/exec/almgren_chriss.cpp:48-56 | a curve at or below another never plans to hold more at any step |
| AlmgrenChriss.ConvexFrontLoads | cpp/exec/almgren_chriss.hpp:3-6 | a convex curve from one to zero, as the sinh ratio is, never holds more than the linear schedule |

## Left out

- Fifo.PushBackToLevel: does not model wrap-around of 64-bit quantity sums or of the 32-bit order count; the source assumes they do not overflow.
- IdTable.IdIndex.constructor: limits the order capacity to 2^62, above which the source's doubling loop overflows.
- Publishing.TelemetryPublisher.AddLimit: event numbers do not wrap at 2^64, timestamps are arbitrary values compared nowhere, and no consumer runs during the call.
- RingProtocol.RunInv: memory order appears as stale index loads and slot reads limited by what has been synchronised; the full C++ memory model is not part of this model.
- EventRelay.StopReturns: bounds the thread's own steps; that the scheduler gives the thread those steps and a look at the flag eventually sees it is not stated.
- SpscRing.SpscRing.TryPush: holds without a concurrent consumer; interference is RingProtocol.
- SpscRing.SpscRing.TryPop: holds without a concurrent producer; interference is RingProtocol.
- Publishing.PublishRun: no consumer pops during the run; Bridge has one.
- EventRelay.RelayRunInv: one controller calls Start and Stop, as the shutdown contract has it; concurrent controllers and the idle sleep are not modelled.
- SimEnv.SimEnv.StepAndObserve: exact reals instead of float32 rounding, for the child size, rewards and observations; NaN actions do not arise.
- SimEnv.SimEnv.StepImpl: the generator is an arbitrary function of its state, xorshift64 itself is not written out.
- SimEnv.Create: the relay thread and the in-memory logger are not attached to the ring here; their protocol is EventRelay.
- Vwap.VwapStrategy.constructor: exact reals; floating-point error in the cumulative sum is not modelled.
- AlmgrenChriss.AlmgrenChriss.constructor: the sinh ratio is an arbitrary curve and the square root in kappa is an input that must have the right square; that the sinh ratio is falling and convex and runs from one to zero is not proved.
- `MixId`: any hash function; its mixing quality is not stated.
- Duplicate live order ids and zero quantities are outside the book's contract and are preconditions.
- `PrewarmLevel`, `level`, copy and move rules, alignment, cache-line layout, zero-allocation and latency claims.
- `SlabAllocator::New`, `Delete` and `Owns`: conveniences off the hot path.
- Observer helpers of the ring (`size_approx`, `empty_approx`): racy by design, no promise to state.
- Loggers, CSV rows and the kdb+ client: text and foreign calls; the log is a sequence of events.
- `rl_policy`: learned policy inference; what remains is the close-out argument of the schedules.
- `sim_runner`: command line and a driver loop over the same book and publisher.
- Python bindings, training, supervisor, cockpit, evaluation, reports and benchmarks.
