# Gateway verification

Dafny models of the four parts of the service gateway data plane that hold real algorithms, and
proofs of what they promise over every input, every run and every interleaving.
`dafny verify dfyconfig.toml` checks the whole project.

**The ring between cores.** `BoundedFifo` is the queue every ring stands for. `MpmcRing` is the
multi-producer multi-consumer ring as a step system over any number of threads (call, read head,
clamp, compare-and-swap, copy one object, publish). `MpmcWrap` runs the same protocol on 32-bit
registers with a power-of-two mask and says exactly where the two differ, `MpmcFooled` when the ring
stays sound there, and `MpmcAba` reaches the place, harmlessly and not. `MpmcProgress` bounds the
retries and shows that every call completes, and `MpmcCalls` ties what a call claims and publishes to
what it was called with. `CasSketch` is the protocol exactly as the design document sketches it.
`RingQueue` is the single-producer single-consumer wrapper class over a circular array.

**The two-core forwarder.** `Pipeline` interleaves the RX core, the TX core, the NIC and the signal
handler of the minimal DPDK example, statement by statement. `Stages` is the five-stage pipeline of
the design document over four rings, and `StagesOrder` says when it keeps packets in order.
`MultiQueueRx` is the loop that gathers one burst from several NIC queues.

**Packet inspection.** `DpiSignatures` is the ordered signature list (windowed search in machine
integers, sort, live edits); `DpiClassifier` the classifier class with guardrails, degradation and
counters.

**Metering and QoE.** `UbbMeter` and `UbbBilling` are the usage counters in a map over bit-packed
keys, and the bills of whole histories and interleavings. `QoeFlows` holds the per-flow cells and
histogram, the loss percentages in machine arithmetic and the sums behind a service report;
`QoeSampling` the stride sampling and what its loop with a 32-bit index does, for which `Strides`
says which indices are visited; `QoeCollector` is the class over the table of flows.

`Modular` holds the arithmetic of wrapping indices and counters, `Basics` two shared pieces.

## How the source is read

- **Additions to the sketched ring.** `CasSketch` follows RING_BUFFER_DESIGN.md to the letter: no
  clamp, no mask, `cons.tail` never advanced, `prod.tail` stored without waiting. On it only the
  claims are right (`RunTiles`, `AtMostOnceDelivery`); contents are not (`EmptyRingDeliversGarbage`,
  `LateProducerIsOvertaken`). `MpmcRing` therefore *adds* the clamp to free or available entries, the
  mask, the `cons.tail` publication and in-order publication, after the DPDK Programmer's Guide, Ring
  Library, "Anatomy of a Ring Buffer" and "Modulo 32-bit Indexes".
- **Steps are sequentially consistent**; one array element is copied per step.
- **History variables.** States carry `log`, `takers`, `delivered`, claims, `received`, `sent` and
  packet numbers. They record what happened; no guard of any step reads them.
- **Nondeterminism is input.** Burst sizes the NIC or the ring accepts, elapsed time, `rand()`, the
  clock, the order an unstable sort leaves and the success of an allocation are parameters or events.
- **Widths.** Counters wrap at 2^64 or 2^32 where the source's do. The signature search is written in
  `uint32`/`uint64` newtypes, so its verification says that nothing underflows.
- **Code against documentation.** docs/dpi.md:349-351 sorts again after an update; the code does not,
  and the model follows the code (`UpdateKeepsOrderIff` says when the order survives). The header
  comment at include/qoe_analytics.h:112 speaks of 100 us buckets; the code divides by 10.
- **Preconditions.** A call is asked for only where the source defines one: `classify` when the
  sampling test does not divide by zero and the class to be counted has one of the sixteen cells
  (`ClassifyDefinedIff`, `DefinedIffInstallable` and `LoadedDigitMiscounts` say when that is), the
  telemetry call when `max_samples` is positive and its loop ends (`EndsIff`). Caller arrays are
  distinct from the ring's own storage.

## Model

| member | source | states |
|---|---|---|
| MpmcRing.StepInv | RING_BUFFER_DESIGN.md:307-345 | every step of every thread keeps the ring invariant: claims tile the unpublished ranges, wanted slots hold their objects, deliveries match the log |
| MpmcRing.ExactlyOnceDelivery | RING_BUFFER_DESIGN.md:307-345 | for any threads and interleaving, what is delivered at index k is what was enqueued at k, copies equal distinct indices (none twice), every released index was delivered, nothing between cons.tail and prod.tail is overwritten |
| MpmcRing.ConsumerReturnsItsClaim | RING_BUFFER_DESIGN.md:333-345 | when a consumer publishes, its array is exactly the enqueued objects of the interval it alone claimed, in order |
| MpmcRing.OldestClaimCanMove | RING_BUFFER_DESIGN.md:307-345 | waiting for earlier claims cannot deadlock: the owner of the oldest unpublished index can always copy or publish |
| MpmcRing.ClampIsExact | RING_BUFFER_DESIGN.md:298-330 | with a current head, and through 32-bit subtraction, a producer accepts the longest prefix that fits and a consumer as much as is queued; either gives up only when that is nothing |
| MpmcProgress.GivesUpIff | RING_BUFFER_DESIGN.md:298-330 | a call gives up exactly on an empty burst, on a full (empty) ring, or when a stale head makes the entries it computes a positive multiple of 2^32 |
| MpmcProgress.WinningBurstIsLongest | RING_BUFFER_DESIGN.md:307-345 | whatever other threads do in between, a burst that wins its compare-and-swap is the longest prefix that fitted, or all that was queued of what was wanted, when it was clamped, and just that is claimed |
| MpmcCalls.PublishedIsCalled | RING_BUFFER_DESIGN.md:307-320 | over runs, however often the swap of a call fails: what its publication adds to the queue is a non-empty prefix of the very burst it was called with |
| MpmcCalls.TakenIsWanted | RING_BUFFER_DESIGN.md:333-345 | over runs: a consumer call takes at least one object and at most as many as it asked for, and publishes exactly as many as it claimed |
| MpmcCalls.RetryKeepsArguments | RING_BUFFER_DESIGN.md:309-319 | over runs: after a failed swap the call starts over with the burst, or the number, that it was made with |
| MpmcCalls.CallEndsIff | RING_BUFFER_DESIGN.md:307-345 | a step of a thread ends its call if and only if it publishes, or clamps to nothing; a failed swap never does |
| MpmcProgress.QuietRunsAreBounded | RING_BUFFER_DESIGN.md:159-164 | without new calls a run has at most as many steps as the potential of its first state, retries included, however the threads interleave |
| MpmcProgress.CanGoOnIff | RING_BUFFER_DESIGN.md:307-345 | some step other than a new call is possible if and only if some call is not completed |
| MpmcProgress.EveryCallCompletes | RING_BUFFER_DESIGN.md:159-164 | every schedule without new calls that goes on as long as it can ends within the bound and completes every call |
| MpmcRing.PublishAppends | RING_BUFFER_DESIGN.md:313-316 | a producer's publication appends its whole accepted burst to the observable queue, within capacity |
| MpmcRing.WinningCasTakesTheFront | RING_BUFFER_DESIGN.md:335-341 | a consumer's winning compare-and-swap removes exactly the front of the queue, the objects it then returns |
| MpmcRing.StepRefines | RING_BUFFER_DESIGN.md:296-345 | every step is one legal operation of a FIFO of capacity size - 1, or no operation |
| MpmcRing.RunRefinesFifo | RING_BUFFER_DESIGN.md:296-345 | the observations of every run are a legal FIFO history that ends in the ring's queue (linearizability at the stated points) |
| MpmcRing.RingConservesOrder | RING_BUFFER_DESIGN.md:226-273 | from an empty ring: removed followed by queued equals published, in order; no loss, no duplicate, occupancy at most size - 1 |
| BoundedFifo.Conservation | RING_BUFFER_DESIGN.md:226-273 | over any FIFO history, what came out followed by what remains is what was there followed by what went in |
| BoundedFifo.StaysBounded | RING_BUFFER_DESIGN.md:298-330 | a queue within its capacity stays within it over any legal history |
| MpmcWrap.StepAgrees | RING_BUFFER_DESIGN.md:287-345 | with 32-bit indices and a mask, a step is enabled exactly when it is with unbounded indices and leads to the wrapped image, away from the wrap-around hazard |
| MpmcWrap.CasAgreesIff | RING_BUFFER_DESIGN.md:309-318 | the 32-bit compare-and-swap agrees with the unbounded one if and only if the head has not moved by a positive multiple of 2^32 since it was read |
| MpmcWrap.RunAgrees | RING_BUFFER_DESIGN.md:287-345 | hazard-free event sequences are runs of the 32-bit ring if and only if they are runs of the unbounded ring, with matching ends |
| MpmcFooled.FooledClaimsAtHead | RING_BUFFER_DESIGN.md:309-318 | a compare-and-swap that meets a head gone round by a multiple of 2^32 wins, and claims at the present head |
| MpmcFooled.FooledProducerIff | RING_BUFFER_DESIGN.md:307-320 | for a producer the ring's invariant survives this if and only if the clamped burst still fits, that is, at most size - 1 entries are claimed afterwards |
| MpmcFooled.FooledConsumerIff | RING_BUFFER_DESIGN.md:333-345 | for a consumer if and only if all it takes has been published |
| MpmcFooled.SoundIff | RING_BUFFER_DESIGN.md:307-345 | over a whole run of the 32-bit ring the invariant holds all along if and only if every fooled compare-and-swap still fits |
| MpmcFooled.SoundRun | RING_BUFFER_DESIGN.md:287-345 | under that condition the runs of the 32-bit ring are those of the unbounded ring with such claims, with matching ends and the invariant kept |
| MpmcFooled.MachineConsumerReturnsItsClaim | RING_BUFFER_DESIGN.md:333-345 | under that condition a consumer of the 32-bit ring holds exactly the objects enqueued at the indices that it alone claimed, across the wrap at 2^32 |
| MpmcFooled.MachineRefinesFifo | RING_BUFFER_DESIGN.md:287-345 | under that condition the 32-bit ring is a FIFO of capacity size - 1: the steps read off its registers are a legal history that ends in what its slots hold, nothing lost, duplicated or reordered |
| MpmcFooled.QueueOnMachine | RING_BUFFER_DESIGN.md:287-294 | what the masked slots hold between the wrapped registers is the queue of the unbounded ring |
| MpmcAba.HarmlessHazardReachable | RING_BUFFER_DESIGN.md:309-316 | the hazard alone does no harm: a run of 2^32 objects reaches it on an empty ring, where the fooled burst fits |
| MpmcAba.HazardReachable | RING_BUFFER_DESIGN.md:309-316 | the condition is needed: from an empty ring of 4 a sound run reaches the hazard with a burst that no longer fits, and waking the sleeping producer overwrites a queued object not yet read |
| CasSketch.RunTiles | RING_BUFFER_DESIGN.md:309-345 | in every run of the sketch, however many compare-and-swaps fail, successful claims of producers (consumers) are consecutive intervals from 0 to prod.head (cons.head) |
| CasSketch.TilesExactlyOnce | RING_BUFFER_DESIGN.md:309-345 | every index below the head is in exactly one claim, and no index above it in any |
| CasSketch.RetryMeansProgress | RING_BUFFER_DESIGN.md:159-164 | after reading the head, and whatever others do, a compare-and-swap fails and retries if and only if another thread has claimed something meanwhile |
| CasSketch.FinishedCallClaimedAll | RING_BUFFER_DESIGN.md:307-345 | over runs, retries included: a call that finishes has claimed as many consecutive indices as it was called for, a producer for exactly its objects in order |
| CasSketch.AtMostOnceDelivery | RING_BUFFER_DESIGN.md:335-341 | no index is copied out twice, and what is delivered is the claimed object or unwritten garbage, never another object |
| CasSketch.DeliversIffWritten | RING_BUFFER_DESIGN.md:339-341 | a consumer's copy of index k is the object claimed for k if and only if its producer had already copied it |
| CasSketch.TailSoundIff | RING_BUFFER_DESIGN.md:314-316 | storing prod.tail, one past the last index claimed, keeps "everything below it is written" if and only if all earlier claims have been copied |
| CasSketch.EmptyRingDeliversGarbage | RING_BUFFER_DESIGN.md:333-345 | a concrete run: a consumer of the empty, unclamped ring receives garbage |
| CasSketch.LateProducerIsOvertaken | RING_BUFFER_DESIGN.md:313-316 | a concrete run from the start: prod.tail passes an index whose producer has not written |
| RingQueue.RingQueue.constructor | src/dpdk/ring_queue.cpp:8-20 | the ring exists if and only if memory was there and the size is a power of two up to 2^30, as the DPDK ring library demands; it starts empty with capacity size - 1 |
| RingQueue.RingQueue.Enqueue | src/dpdk/ring_queue.cpp:28-31 | 0 and appended when there is room, -ENOBUFS when full, -1 without a ring, and otherwise unchanged |
| RingQueue.RingQueue.EnqueueBurst | src/dpdk/ring_queue.cpp:33-36 | appends the longest prefix that fits and returns its length |
| RingQueue.RingQueue.Dequeue | src/dpdk/ring_queue.cpp:38-45 | removes and returns the oldest object, or nothing when empty |
| RingQueue.RingQueue.DequeueBurst | src/dpdk/ring_queue.cpp:47-50 | removes the front into the caller's array, in order, leaving the rest of the array alone |
| RingQueue.RingQueue.Empty | src/dpdk/ring_queue.cpp:52-55 | true exactly when the queue is empty |
| RingQueue.RingQueue.AvailableCount | src/dpdk/ring_queue.cpp:57-60 | occupancy plus available count equals the capacity, at any wrapped index values |
| RingQueue.RteRing.EnqueueBurst | src/dpdk/ring_queue.cpp:33-36 | what the library call behind the wrapper does: with wrapping 32-bit indices and a mask, append the longest prefix that fits (the sketch at RING_BUFFER_DESIGN.md:298-305 takes a burst whole or not at all) |
| RingQueue.RteRing.DequeueBurst | src/dpdk/ring_queue.cpp:47-50 | what the library call behind the wrapper does: with wrapping 32-bit indices and a mask, remove as much of the front as asked for and there, in order (the sketch at RING_BUFFER_DESIGN.md:324-331 returns a burst whole or not at all) |
| RingQueue.WriteAppends | RING_BUFFER_DESIGN.md:302-303 | writing the next free slot of the circular array appends one object and disturbs no stored one |
| RingQueue.AdvanceDrops | RING_BUFFER_DESIGN.md:328-329 | advancing the wrapped consumer index drops exactly the front |
| Pipeline.StepInv | examples/minimal_dpdk.cpp:289-368 | every step of either core, the NIC or the signal handler keeps the invariant on places, order, contents and counters |
| Pipeline.EveryBufferInOnePlace | examples/minimal_dpdk.cpp:289-368 | in every interleaving each buffer is in exactly one of pool, NIC RX, RX burst, ring, TX burst, NIC TX: nothing leaks, nothing is in two places |
| Pipeline.NoBadFree | examples/minimal_dpdk.cpp:305-363 | a buffer about to be freed is not in the pool already, nor in the ring, a NIC queue or the other core's hands |
| Pipeline.SentIsSubsequence | examples/minimal_dpdk.cpp:291-367 | packets handed to the NIC are a subsequence of those received, in order, each with the destination it had as source, the source it had as destination, and the same body |
| Pipeline.ReceivedAreArrivals | examples/minimal_dpdk.cpp:291-296 | in every run the packets the RX core received, followed by those in the receive queue, are the packets that arrived, in order and unchanged |
| Pipeline.WireCarriesSent | examples/minimal_dpdk.cpp:351-367 | in every run the buffers in the transmit queue hold the packets sent last, in order and unchanged since |
| Pipeline.RxRound | examples/minimal_dpdk.cpp:289-314 | when the ring has room a round of the RX core hands its whole burst from the receive queue to the ring, counts it, drops nothing and is back at its loop head |
| Pipeline.TxRound | examples/minimal_dpdk.cpp:335-368 | when the NIC takes all a round of the TX core hands its whole burst from the ring to the transmit queue, counts it, drops nothing and is back at its loop head |
| Pipeline.QuitIffSignalled | examples/minimal_dpdk.cpp:289-368 | force_quit is set exactly when a signal has come |
| Pipeline.CountersBalance | examples/minimal_dpdk.cpp:296-367 | at every step rx_packets equals tx_packets plus drops, ring and local bursts, adjusted by program counter, modulo 2^64 |
| Pipeline.QuitStopsBothCores | examples/minimal_dpdk.cpp:289-368 | once force_quit is set the RX core takes at most 69 and the TX core at most 132 further steps in any interleaving |
| Pipeline.UnfinishedCoreCanStep | examples/minimal_dpdk.cpp:289-368 | a core has a step to take if and only if it has not left its loop, so the bound on steps means that both cores do stop |
| Pipeline.AtExit | examples/minimal_dpdk.cpp:289-368 | when both loops have ended every buffer is in the pool, a NIC queue or the ring, and rx_packets is tx_packets plus drops plus what the ring still holds |
| Stages.TransmittedAtMostOnce | RING_BUFFER_DESIGN.md:476-598 | over any number of cores, interleaving and partial acceptance, no packet is transmitted twice, only received ones are, and a transmitted packet is neither lost nor still on its way |
| Stages.NoneUnaccounted | RING_BUFFER_DESIGN.md:476-598 | at every step each received packet is in exactly one local array, ring, the transmitted or the lost |
| Stages.EveryStageInOrder | RING_BUFFER_DESIGN.md:476-598 | in every run a transmitted packet has been held by one core of each stage, in the order RX, DPI, QoE, UBB, TX |
| StagesOrder.OrderKept | RING_BUFFER_DESIGN.md:476-598 | with one core for each stage packets are transmitted in the order of reception, in every interleaving and however much of each burst is accepted |
| StagesOrder.OrderLost | RING_BUFFER_DESIGN.md:496-575 | with two cores at one stage some run transmits two packets in reverse |
| StagesOrder.OrderKeptIff | RING_BUFFER_DESIGN.md:476-598 | a pipeline with a core at every stage keeps the order in all its runs if and only if no stage has two cores |
| Stages.NothingLostIff | RING_BUFFER_DESIGN.md:487-594 | since the accepted counts are ignored, nothing is lost if and only if every burst of the run is accepted whole |
| Stages.RefusedBurstIsLost | RING_BUFFER_DESIGN.md:481-491 | a concrete run of two steps that loses a packet |
| MultiQueueRx.Port.RxBurst | examples/dpdk_common_modifications.h:292-293 | one burst writes the front of one queue at the given position, no further, and cuts it off that queue |
| MultiQueueRx.Port.RxMultiQueue | examples/dpdk_common_modifications.h:287-300 | the array starts with the bursts gathered from the polled queues, the rest of it and nothing past burst_size is touched, the polled queues keep what was not taken and the others everything |
| MultiQueueRx.EveryQueueIsCut | examples/dpdk_common_modifications.h:291-297 | each queue is cut in two: what it gave followed by what it keeps is what it had |
| MultiQueueRx.GatheredInQueueOrder | examples/dpdk_common_modifications.h:291-297 | the burst is what the queues gave, concatenated in queue order |
| MultiQueueRx.EagerGather | examples/dpdk_common_modifications.h:287-300 | when every queue delivers all it can, the total is the smaller of burst size and packets queued |
| MultiQueueRx.NoRoomNoMore | examples/dpdk_common_modifications.h:295-296 | leaving the loop when the burst is full changes neither the burst nor any queue |
| DpiSignatures.SearchOne | src/dpi/classifier_pipeline.cpp:124-139 | in machine arithmetic, without underflow or a comparison outside the payload: found if and only if the pattern occurs wholly inside the window |
| DpiSignatures.MatchSignatures | src/dpi/classifier_pipeline.cpp:122-143 | the loop returns the class of the first listed signature that matches, UNKNOWN when none does |
| DpiSignatures.FirstMatchMeaning | src/dpi/classifier_pipeline.cpp:122-143 | there is a first match if and only if something matches; the result is its class, and UNKNOWN when nothing matches |
| DpiSignatures.MatchesMeaning | src/dpi/classifier_pipeline.cpp:124-139 | a match in terms of bytes alone: the pattern stands somewhere in the payload, not before the offset and not past offset plus depth, and the offset lies inside the payload |
| DpiSignatures.MatchHasTopPriority | src/dpi/classifier_pipeline.cpp:80-84 | on a sorted list the match has the highest priority of all that match |
| DpiSignatures.SortOrderIrrelevant | src/dpi/classifier_pipeline.cpp:80-84 | any two sorted permutations give the same result when the matches of highest priority agree on class |
| DpiSignatures.OrderIrrelevantIff | src/dpi/classifier_pipeline.cpp:80-84 | for every sorted list: all its sorted permutations give one result if and only if the matches of highest priority agree on class |
| DpiSignatures.OnePriorityIff | src/dpi/classifier_pipeline.cpp:68-84 | when all priorities are equal, as among loaded records, the order the sort leaves is irrelevant if and only if all matches agree on class |
| DpiSignatures.TieDecidesResult | src/dpi/classifier_pipeline.cpp:80-84 | the instance of two matching signatures: they can be listed either way if and only if they tie, with one result if and only if their classes agree |
| DpiSignatures.UpdateIsAMapUpdate | src/dpi/classifier_pipeline.cpp:89-98 | after an update its id maps to the new signature and every other id to what it did |
| DpiSignatures.RemoveTakesOne | src/dpi/classifier_pipeline.cpp:100-107 | removal takes out one entry of that id and no other; the id is gone if and only if it was listed at most once |
| DpiClassifier.DuplicateSurvivesRemoval | src/dpi/classifier_pipeline.cpp:60-107 | a concrete history: two records of one id are loaded, the id is removed and still listed |
| DpiSignatures.RemoveUndoesAdd | src/dpi/classifier_pipeline.cpp:89-107 | removing an id that an update has just added restores the list |
| DpiSignatures.RemoveKeepsOrder | src/dpi/classifier_pipeline.cpp:100-107 | removal keeps priority order |
| DpiSignatures.UpdateKeepsOrderIff | src/dpi/classifier_pipeline.cpp:89-98 | an update keeps priority order if and only if the new priority fits between its neighbours |
| DpiClassifier.UpdateUnsorts | src/dpi/classifier_pipeline.cpp:68-98 | a concrete history: two loaded records, and an update of the second leaves the list unsorted |
| DpiSignatures.CanMatchIff | src/dpi/classifier_pipeline.cpp:124-139 | a signature matches some payload at all if and only if its pattern is no longer than its depth and its offset plus pattern (one byte at least) stays below 2^32 |
| DpiClassifier.DPIClassifier.constructor | src/dpi/classifier_pipeline.cpp:10-13 | a new classifier has no signatures, is not degraded and has sixteen zero counters |
| DpiClassifier.DPIClassifier.Classify | src/dpi/classifier_pipeline.cpp:17-47 | the result and the whole new state of a classification: empty payload, sampling, timeout and counting |
| DpiClassifier.ClassifyOutcomes | src/dpi/classifier_pipeline.cpp:17-47 | case by case: an empty payload, and while degraded a random number that is no multiple of the sample rate, give UNKNOWN and change nothing; any other slow call gives UNKNOWN and sets degraded to degradation_enabled; any other gives the first match and counts it by one |
| DpiClassifier.DegradedAfter | src/dpi/classifier_pipeline.cpp:17-120 | only a slow search and new guardrails change degraded, and only new guardrails change the guardrails |
| DpiClassifier.DPIClassifier.LoadSignatures | src/dpi/classifier_pipeline.cpp:49-87 | for records of any class: an unreadable file changes nothing; otherwise the list is a priority-sorted permutation of the old list plus the records |
| DpiClassifier.LoadAddsRecords | src/dpi/classifier_pipeline.cpp:60-86 | after a load exactly the old signatures and one for each record are listed, with the fields of the record, stateless and of priority 0 |
| DpiClassifier.DPIClassifier.UpdateSignature | src/dpi/classifier_pipeline.cpp:89-98 | replaces the first entry of that id or appends, and touches nothing else |
| DpiClassifier.DPIClassifier.RemoveSignature | src/dpi/classifier_pipeline.cpp:100-107 | erases the first entry of that id, and touches nothing else |
| DpiClassifier.EditsChangeOneEntry | src/dpi/classifier_pipeline.cpp:89-107 | an update puts the new signature where the first entry of its id stood, or last; a removal takes that entry out, or does nothing; all other entries stay in place and nothing else changes |
| DpiClassifier.DPIClassifier.SetGuardrails | src/dpi/classifier_pipeline.cpp:117-120 | installs the guardrails and ends degradation |
| DpiClassifier.DPIClassifier.GetClassificationCount | src/dpi/classifier_pipeline.cpp:109-115 | the counter of a class, zero beyond the sixteen cells |
| DpiClassifier.CountersCountResults | src/dpi/classifier_pipeline.cpp:41-46 | over any history with loads, edits and new guardrails, each class counter has grown by the number of calls that returned that class; that of UNKNOWN never moves |
| DpiClassifier.CountersOfHistory | src/dpi/classifier_pipeline.cpp:10-46 | so after any history of a new classifier each counter is the number of calls that returned its class modulo 2^64, and that of UNKNOWN is zero |
| DpiClassifier.RunsKeepDegradedOnlyIfEnabled | src/dpi/classifier_pipeline.cpp:35-39 | in every history degraded implies degradation_enabled |
| DpiClassifier.MiscountsIff | src/dpi/classifier_pipeline.cpp:41-44 | the matched class has no counter cell if and only if a signature of class 16 or more is the first match |
| DpiClassifier.ClassifyDefinedIff | src/dpi/classifier_pipeline.cpp:17-47 | classification is defined for every payload, random number and elapsed time if and only if a degraded classifier has a positive sample rate and no signature of class 16 or more is the first match of any payload |
| DpiClassifier.FirstListedMiscountsIff | src/dpi/classifier_pipeline.cpp:41-44 | listed first, a signature of class 16 or more makes some classification index outside the cells if and only if it can match at all |
| DpiClassifier.UnmatchableHarmless | src/dpi/classifier_pipeline.cpp:41-44 | a list in which no signature of class 16 or more can match never does |
| DpiClassifier.CountableDefined | src/dpi/classifier_pipeline.cpp:41-44 | lists whose classes are all below 16 never index outside the cells |
| DpiClassifier.LoadedDigitMiscounts | src/dpi/classifier_pipeline.cpp:60-66 | loading one record whose class field is the digit 1 and classifying a payload it matches indexes outside the cells, whatever the guardrails |
| DpiClassifier.InstallableMeansDefined | src/dpi/classifier_pipeline.cpp:22-25 | with classes below 16, if all guardrails installed have degradation_enabled imply sample_rate > 0, no history divides by zero |
| DpiClassifier.SafeMeansDefined | src/dpi/classifier_pipeline.cpp:22-39 | the same when some of them have the largest timeout instead |
| DpiClassifier.SlowCallThenDivision | src/dpi/classifier_pipeline.cpp:22-39 | under any other guardrails one slow call and one more call divide by zero |
| DpiClassifier.NeverDegrades | src/dpi/classifier_pipeline.cpp:35-39 | a classifier that keeps the largest timeout never degrades |
| DpiClassifier.DefinedIffInstallable | src/dpi/classifier_pipeline.cpp:22-39 | for every set of guardrails and a start with one of them: all histories that install only these, with classes below 16, are defined if and only if each of them is installable or has a timeout that no call can exceed |
| UbbMeter.PackKeyInjective | include/ubb_meter.h:77-87 | packed keys are equal if and only if the pairs are, over all 32-bit subscribers and 16-bit services |
| UbbMeter.BookAt | src/metering/ubb_meter.cpp:14-17 | a lookup by packed key finds the counter of that pair, and only that |
| UbbMeter.FileOne | src/metering/ubb_meter.cpp:17-36 | storing under a packed key updates the map over pairs at one pair and nowhere else |
| UbbMeter.UnfileOne | src/metering/ubb_meter.cpp:98-101 | erasing a packed key removes one pair and no other |
| UbbMeter.UBBMeter.UpdateCounter | src/metering/ubb_meter.cpp:12-37 | the meter acts as a map over pairs: create on first use, add bytes and one packet in the direction |
| UbbMeter.UBBMeter.GetCounter | src/metering/ubb_meter.cpp:39-51 | a copy of the pair's counter with its times and breaches; all zero, with unset times, when there is none |
| UbbBilling.SnapshotIsHistory | src/metering/ubb_meter.cpp:39-51 | over histories: a copied counter shows the traffic, the first and last update times and the breaches since the last reset, and zeros with unset times when the pair is not live |
| UbbMeter.UBBMeter.RollUp | src/metering/ubb_meter.cpp:53-74 | the period before the clock reading and, when the pair is present, its usage as one sample; no claim about those values otherwise |
| UbbBilling.RollupIsBill | src/metering/ubb_meter.cpp:53-74 | over histories: a roll-up is present if and only if the pair was metered since its last reset, and then reports, cell by cell, the traffic of each direction since then modulo 2^64, one sample, and the period given |
| UbbMeter.UBBMeter.BatchRollup | src/metering/ubb_meter.cpp:76-96 | for every iteration order: one entry for each pair with its usage and its own period, no other, and the entries add up to the total |
| UbbBilling.BatchIsBills | src/metering/ubb_meter.cpp:76-96 | over histories: a batch has an entry for a pair if and only if the pair is live, only one, and that entry is its bill |
| UbbMeter.UBBMeter.ResetCounter | src/metering/ubb_meter.cpp:98-101 | removes exactly that pair |
| UbbMeter.UBBMeter.CheckThreshold | src/metering/ubb_meter.cpp:103-118 | breach if and only if the pair is present and its wrapped sum exceeds the threshold; only then its breach count grows |
| UbbBilling.CountersCarryHistory | src/metering/ubb_meter.cpp:12-118 | over histories: a live counter carries its own pair, the times of its first and last update since the last reset, and as many breaches, modulo 2^32, as checks found its traffic over the threshold |
| UbbMeter.UBBMeter.GetTotalUsage | src/metering/ubb_meter.cpp:120-130 | for every iteration order: the sum over all pairs modulo 2^64 |
| UbbBilling.TotalIsRollups | src/metering/ubb_meter.cpp:76-130 | over histories: the total is the sum of the roll-ups of the live pairs and, modulo 2^64, the traffic metered for all pairs since their resets |
| UbbMeter.SumAny | src/metering/ubb_meter.cpp:120-130 | the sum over pairs may be taken in any order |
| UbbBilling.BillsExactly | src/metering/ubb_meter.cpp:12-37 | over any history of updates, resets, checks and reads each counter is the traffic of its pair and direction since its last reset modulo 2^64, and a pair has a counter if and only if it was metered since |
| UbbBilling.OtherPairsUntouched | src/metering/ubb_meter.cpp:98-118 | an operation on one pair leaves every other pair as it was |
| UbbBilling.NoWrapWithinWordUpdates | src/metering/ubb_meter.cpp:30-36 | no counter wraps while its pair has had at most 2^32 + 1 updates in each direction since its last reset |
| UbbBilling.WrapAtNextUpdate | src/metering/ubb_meter.cpp:30-36 | and that bound is tight: 2^32 + 2 updates of the largest size wrap a byte counter |
| UbbBilling.ThresholdExactIff | src/metering/ubb_meter.cpp:111-116 | the wrapped threshold test on the cells is right if and only if the sum fits 64 bits or what is left still exceeds the threshold |
| UbbBilling.TrafficThresholdIff | src/metering/ubb_meter.cpp:103-118 | after any history the test tells whether the true traffic since the last reset exceeds the threshold if and only if that traffic fits 64 bits or its remainder still exceeds |
| UbbBilling.ThresholdMissesTraffic | src/metering/ubb_meter.cpp:103-118 | a concrete history with 2^64 bytes of traffic for which no threshold is ever found exceeded |
| UbbBilling.InterleavingConserves | src/metering/ubb_meter.cpp:30-36 | every interleaving of separate byte and packet adds gives each cell exactly what was owed to it |
| UbbBilling.InterleavingIsSequential | src/metering/ubb_meter.cpp:30-36 | any number of threads in any interleaving leave the counter as one thread metering all their samples |
| QoeFlows.CellsAreCounts | src/analytics/qoe_collector.cpp:20-37 | after any history every cell is its true count modulo its width |
| QoeFlows.BytesAndTime | src/analytics/qoe_collector.cpp:20-37 | the byte cell is the bytes of all samples modulo 2^64, the time that of the last sample, and the flow stays active |
| QoeFlows.BucketBounds | src/analytics/qoe_collector.cpp:32-36 | bucket b holds the latencies from 10 b to 10 b + 9, and the last all from 90 |
| QoeFlows.FlowReport | src/analytics/qoe_collector.cpp:39-59 | over histories shorter than 2^32: a flow reports its number of samples, their bytes, and a percentage if and only if it has a sample |
| QoeFlows.HistogramAddsUp | src/analytics/qoe_collector.cpp:32-36 | every sample falls in exactly one bucket, and losses are at most samples |
| QoeFlows.HistogramInvariant | src/analytics/qoe_collector.cpp:20-37 | while no 32-bit cell wraps the buckets sum to packet_count and loss_count is at most packet_count |
| QoeFlows.DivisionSafe | src/analytics/qoe_collector.cpp:49-56 | wrapped or not, the guard makes the division safe for any history shorter than 2^64 |
| QoeFlows.LossPercentExactIff | src/analytics/qoe_collector.cpp:54-56 | the 32-bit percentage is the true floor if and only if what the product loses fits in the remainder of the division |
| QoeFlows.LossPercentExact | src/analytics/qoe_collector.cpp:54-56 | so it is exact and at most 100 up to 42,949,672 losses |
| QoeFlows.LossPercentFailsNext | src/analytics/qoe_collector.cpp:54-56 | and no further: 42,949,673 samples, all lost, are reported as 0 percent |
| QoeFlows.FlowsAreIndependent | src/analytics/qoe_collector.cpp:20-37 | over any interleaving of samples each flow is what its own samples make of it |
| QoeFlows.ServiceReportOverHistory | src/analytics/qoe_collector.cpp:61-87 | over histories: the report counts the flows last updated in the window, and all samples and bytes ever recorded for them, modulo 2^64 |
| QoeFlows.ServiceLossIsSamplesLost | src/analytics/qoe_collector.cpp:89-91 | over histories shorter than 2^32 the loss reported is the true percentage of those samples that were lost, and absent when there are none |
| QoeFlows.ServiceLossBetweenFlows | src/analytics/qoe_collector.cpp:72-91 | the floored service loss is at most 100 and the largest floored loss of the included flows, and at least the smallest if and only if the lost multiple of 2^64 leaves room for it, so always when the product fits |
| QoeFlows.LossesWithinPackets | src/analytics/qoe_collector.cpp:20-37 | in every history of the table shorter than 2^64, wrapped cells or not, no flow counts more losses than packets |
| QoeFlows.ServiceLossOverHistory | src/analytics/qoe_collector.cpp:61-94 | the same after every history of the table shorter than 2^64, wrapped cells or not, with nothing assumed of the table |
| QoeFlows.ServiceLossExactOverHistory | src/analytics/qoe_collector.cpp:89-91 | after every such history the report is the true floor if and only if what the product loses fits in the remainder of the division |
| QoeFlows.ServiceLossFails | src/analytics/qoe_collector.cpp:89-91 | a concrete history in which the 64-bit product wraps: 42,949,673 flows that each lost every one of 2^32 - 1 packets are reported as 0 percent |
| QoeFlows.ServiceLossExactIff | src/analytics/qoe_collector.cpp:89-91 | the reported service loss is the true floor if and only if what the 64-bit product loses fits in the remainder of the division |
| QoeSampling.PickedMeaning | src/analytics/qoe_collector.cpp:114-125 | the picked ids are strictly increasing and are exactly the active flows at multiples of the interval |
| QoeSampling.IntervalIs | src/analytics/qoe_collector.cpp:112-112 | the interval is the largest of which max_samples fit the table, and 1 when none do |
| QoeSampling.EvenSample | src/analytics/qoe_collector.cpp:108-128 | with all flows active and a table of q times max_samples flows the sample is exactly 0, q, 2q and so on, over the whole table |
| QoeSampling.AllActiveFillsTheQuota | src/analytics/qoe_collector.cpp:112-125 | with all flows active and at least as many as the quota, the multiples suffice to fill it |
| QoeSampling.SampledMeaning | src/analytics/qoe_collector.cpp:108-128 | min(max_samples, active flows at multiples) strictly increasing ids, exactly max_samples when all are active and there are enough |
| QoeSampling.IndexNeverWrapsIff | src/analytics/qoe_collector.cpp:114-114 | the 32-bit loop index never wraps if and only if the first multiple at or past the table size fits 32 bits |
| QoeSampling.SmallTableNeverWraps | src/analytics/qoe_collector.cpp:114-114 | in particular when table size plus interval stays below 2^32 |
| Strides.VisitedIff | src/analytics/qoe_collector.cpp:114-114 | the values a 32-bit index takes under a fixed stride are exactly the multiples of the largest power of two dividing the stride |
| QoeSampling.EndsIffVisits | src/analytics/qoe_collector.cpp:114-125 | the sampling loop ends if and only if its index ever leaves the table or meets an active flow |
| QoeSampling.EndsIff | src/analytics/qoe_collector.cpp:114-125 | it ends, whatever the quota, if and only if the table is no longer than 2^32 minus the two-part of the interval, or some flow at a multiple of that two-part is active |
| QoeSampling.ExpiredTableNeverEnds | src/analytics/qoe_collector.cpp:108-128 | a collector of 2^32 - 1 flows, all expired, asked for 2^31 - 1 samples never answers |
| QoeSampling.StopsInFirstLapIff | src/analytics/qoe_collector.cpp:114-125 | a loop that ends stops before its index wraps back into the table if and only if the index does not wrap or the picks reach the quota |
| QoeSampling.CollectedIsSampledIff | src/analytics/qoe_collector.cpp:108-128 | what a loop that ends returns is the sample if and only if it meets no active flow after its first lap |
| QoeSampling.CollectedIsSampledWhen | src/analytics/qoe_collector.cpp:108-128 | the same as a condition on the table: no wrap, or the quota reached before it, or after the first lap the index leaves the table without meeting an active flow |
| QoeSampling.WrappedYetSampled | src/analytics/qoe_collector.cpp:108-128 | an instance in which the index wraps below the quota and the result is the sample all the same |
| QoeCollector.QoeCollector.RecordSample | src/analytics/qoe_collector.cpp:20-37 | updates exactly the cells of the sample's flow and bucket; unknown flows are ignored |
| QoeCollector.QoeCollector.GetFlowKpi | src/analytics/qoe_collector.cpp:39-59 | the KPI of a flow, its percentage only when the histogram is not empty |
| QoeCollector.QoeCollector.GetAllFlowKpis | src/analytics/qoe_collector.cpp:96-106 | one KPI for each active flow and no other, in table order |
| QoeCollector.QoeCollector.GetServiceKpi | src/analytics/qoe_collector.cpp:61-94 | the window by an unsigned difference, and 64-bit accumulators equal to the true sums over the flows updated in it, modulo 2^64, and so the weighted mean |
| QoeCollector.QoeCollector.GetAggregatedTelemetry | src/analytics/qoe_collector.cpp:108-128 | on every table on which the loop ends it returns exactly what the loop with its 32-bit index collects, wrapping included, each with its flow's last update, and the sample when the index does not wrap |
| QoeCollector.QoeCollector.FlushExpiredFlows | src/analytics/qoe_collector.cpp:130-145 | deactivates exactly the flows idle for too long, by an unsigned clock difference, changes nothing else and returns their number |
| QoeFlows.ExpiredMeaning | src/analytics/qoe_collector.cpp:130-145 | a flow expires if it has been idle for longer than allowed; when the clock reads earlier than its last update the difference wraps, and the exact condition is given |
| QoeFlows.CountIsExpired | src/analytics/qoe_collector.cpp:130-145 | the number returned is the number of expired flows, active before or not |
| QoeFlows.FlushKeepsCells | src/analytics/qoe_collector.cpp:130-145 | the flush makes exactly the expired flows inactive, no flow active, and keeps every other cell |

## Left out

- MpmcRing.ExactlyOnceDelivery: is about the sketch with the four labelled additions; the sketch itself does not deliver contents correctly, see `CasSketch`.
- MpmcWrap.RunAgrees: is stated away from the compare-and-swap hazard, which `CasAgreesIff` delimits exactly; beyond it `SoundRun` and `MachineRefinesFifo` say what holds as long as every fooled swap fits, and `SoundIff` that this is needed for the invariant. What a ring whose invariant is broken goes on to do is followed in one run only, `HazardReachable`.
- The single-producer and single-consumer enqueue and dequeue at RING_BUFFER_DESIGN.md:298-305 and 324-331 as sketched: they accept a burst whole or not at all, never advance a tail, and compute `cons.tail - prod.head`, which is zero on an empty ring. `RingQueue` models the DPDK burst calls that the wrapper makes instead.
- RingQueue.RteRing.EnqueueBurst: the ring's internals belong to DPDK and are not part of the repository; they are modelled with one producer and one consumer that do not overlap, overlap being the subject of `MpmcRing`.
- RingQueue.RingQueue.constructor: which sizes the library accepts is not in the repository and follows DPDK, whose treatment of size 0 is not modelled (no ring here); names, NUMA nodes and the choice of synchronization flags are not modelled, nor is the destructor.
- Memory-model reordering below sequential consistency.
- Pipeline.SentIsSubsequence: the contents of packets other than the two addresses are one opaque value; checksums, offloads and the stats core are not modelled.
- Pipeline.AtExit: the ring is not drained by the source, so what it holds at exit stays there.
- Stages.TransmittedAtMostOnce: the rings between the stages are atomic bounded FIFOs, as `MpmcRing` and `MpmcFooled` justify; the processing of packets within a stage and the flag that ends the loops are left out. Buffers that a ring or the NIC does not accept are never freed by the source.
- MultiQueueRx.Port.RxMultiQueue: packet buffers are identities; the per-queue offers of the driver are fixed before the call.
- DpiClassifier.DPIClassifier.LoadSignatures: text parsing is left out and records are inputs. The class field is read as one character, so a digit in the file gives a class of 48 or more (`LoadedDigitMiscounts`). Every record gets priority 0, so the order among them is the sort's choice (`OnePriorityIff`).
- DpiClassifier.DPIClassifier.Classify: runs one call at a time; concurrent calls and edits of the vector are not modelled.
- `heuristic_classify` is never called and always returns UNKNOWN; `max_payloads` is never read.
- UbbMeter.UBBMeter.UpdateCounter: counters are values in the map, so sharing one counter through two pointers is not captured; the interleaving of atomic adds on one existing counter is in `UbbBilling`. Concurrent insertion and rehashing are left out.
- UbbMeter.UBBMeter.RollUp: a pair without a counter yields uninitialised numbers in the source and no number here.
- `max_subscribers_` is never enforced and no cap is claimed. A roll-up concurrent with updates is not a consistent snapshot.
- QoeCollector.QoeCollector.GetServiceKpi: `service_id` is not a filter in the source and is passed through. The accumulators of the returned record, which the source leaves uninitialised, start from zero.
- QoeCollector.QoeCollector.GetFlowKpi: requires what `DivisionSafe` proves of every history shorter than 2^64 samples; latency and jitter fields that the source never fills are left out.
- QoeFlows.ServiceLossOverHistory: expiry between samples is not part of the histories, since it changes the active flag alone.
- QoeCollector.QoeCollector.RecordSample: flow records are values in the table; sharing through pointers and concurrent increments are not modelled. A flow never sampled has last update 0, which the source leaves unset.
- QoeCollector.QoeCollector.GetAggregatedTelemetry: is stated for tables on which the source's loop ends; where it does not there is no result to state.
- EAL, port and queue set-up, argument parsing, signals as such, printing and `print_stats`, configuration files, containers and scripts.
- `PMDDriver`, `MempoolManager` and `BatchProcessor` are thin wrappers; only an abstract pool and NIC queues are kept. `WorkerPipeline` never receives. `CounterManager`, `ReconciliationEngine`, `FlowKPITracker`, `TelemetryAggregator`, `SignatureManager` and `DPIWorker` are stubs.
- `extract_packet_headers` and `example_complete_pipeline` leave outputs unset and transmit freed buffers; `classify_packet`, `check_quota` and `mac_swap` are single expressions or assignments.
