# A verified model of the low-latency disruptor, its benchmarks and its sockets

This project models the parts of the repository whose correctness is argued rather than obvious, and proves
what they promise. `dafny verify dfyconfig.toml` checks all of it.

## What is modelled

**The single-producer multicast disruptor.** Two layers.

- *Step layer* (`DisruptorProtocol`, `DisruptorSafety`, `DisruptorRefinement`, `DisruptorCalls`): a transition system
  of one producer and any number of consumers in which publishing is split into cursor loads, slot writes and a release store, and
  consuming into an acquire load, slot reads and a release store. Each atomic variable carries its modification order
  and each thread the last store it has observed, so a load may return anything from there on (per-object coherence,
  [intro.races] of ISO C++23). The transitions are given over two arithmetics, wrapping 64-bit words with masked or
  two-span slots and unbounded integers, and the two run in lockstep from every initial position. The results hold
  for every reachable state of the 64-bit machine. Ring slots are plain memory with a single current value;
  `WriteAfterAcquiredReads` and `ReadAfterAcquiredWrites` justify this by ordering every conflicting pair of slot
  accesses through an acquired release store.
  `DisruptorLinearization` ties every reachable state, and every whole run, to the append-only log of the sequential
  layer and to a history of whole operations on it (`DisruptorHistory`); `DisruptorProgress` and `DisruptorFairness`
  prove that no reachable state is stuck and that every fair infinite run of atomic steps
  delivers everything to everyone. Fair means that a thread short of the target keeps taking steps of its own attempts
  and starts new ones, and that every store is seen in the end by the loads that look for it.
- *Sequential layer* (`DisruptorLog`, `Disruptor`, `DisruptorSession`): the objects with their real fields and loops,
  each method proved to refine an append-only log with one cursor per consumer. Sessions mix direct publication,
  producer handles, moves and destruction with indexed consumption and consumer handles of every consumer.

**The phase handshake of the paired benchmark** (`Accumulators`, `PhaseHandshake`, `PhaseSafety`, `PhaseProgress`): both
threads step by step around the plain fields they share, with stale loads of the three counters and of the failure flag,
together with the XOR/OR validation word and the wrapping triangular checksum. Safety and shutdown hold for all runs;
without a failure every fair run returns.

**The UDP echo measurement** (`UdpWire`, `UdpEndpoints`, `UdpClient`, `UdpServer`, `UdpEcho`): wire format,
classification, both receive loops on their real bitmaps and counters, and the protocol over a network that may drop,
duplicate, delay, reorder, truncate and deliver junk. Requests may even be forged; only a response that passes the
client's tests must have been sent by the server.
The server echoes before it counts; the protocol keeps that order, and joining the server thread is what closes the gap.

**The balanced experiment design** (`Williams`, `Designs`, `Schedules`, `DesignValidation`, `DesignMeaning`,
`DesignSchedule`, `Tournament`, `TournamentDesign`, `TournamentMeaning`, `TournamentOutcomes`): the first row and its
cyclic shifts for every even width, and both validators, each proved to accept exactly the designs it is meant for, the
generated schedules among them. Both are generic in the width and in the treatments; the repository fixes eight for one.

**Exact stream and datagram transfer** (`StreamReceive`, `StreamSend`, `DatagramReceive`): the send and receive loops
over an abstract kernel that answers from an arbitrary schedule of fragments, interruptions, empty polls, failures and
close. The answer of the stop predicate is part of the schedule.

**Percentiles** (`Percentile`): the two index forms in 64-bit arithmetic and what the reported values mean.

`Words`, `RingSlots`, `Orders` and `Options` hold the shared arithmetic and datatypes.

## Results that differ from a first reading

- After `failed` is set the producer publishes nothing at all, not merely what the ring still holds: before it sets the
  flag itself it is done publishing, and the consumer can only throw while pinning, which it does before `ready_phase`.
- The direct percentile index `(size - 1) * numerator / denominator` misses its floor once the product overflows. No
  configuration the program accepts gets there (`AcceptedCountsAreExact`); `DirectOverflows` gives a size beyond them
  and `DirectIsFloor` the exact condition. The split form has its own limit (`SplitIsFloor`, `SplitOverflows`), far
  from the fractions it is asked for.
- In `validate_tournament` the condition-count error cannot occur, and the balance error occurs exactly when the number
  of observations is not a multiple of the number of conditions, which the argument parser already excludes.
- The two copies of `refresh_available_capacity` differ only in whose fields they use; one method models both.

## Model

| member | source | states |
|---|---|---|
| DisruptorRefinement.Delivery | modules/concurrency/disruptor-single-producer/include/lls/concurrency/disruptor_single_producer.hpp:84-127 | In every interleaving of the threads' atomic steps, with every load as stale as its thread may see, what consumer i has been handed is exactly a prefix of the published history, and its k-th sequence is (initial + k) mod 2^64: no gap, duplicate or reordering |
| DisruptorRefinement.WholeBatches | modules/concurrency/disruptor-single-producer/include/lls/concurrency/disruptor_single_producer.hpp:364-406 | The boundary a consumer works up to is always the end of a released batch (or its own position), so no partial batch is ever visible |
| DisruptorRefinement.NoSlotRace | modules/concurrency/disruptor-single-producer/include/lls/concurrency/disruptor_single_producer.hpp:219-244 | In every reachable state, while the producer is part-way through a batch, none of the batch's slots is one that any consumer, in a call or between calls, may still read: whichever traversal it uses and however many of the events up to the published position it takes; a call in progress stays within that range |
| DisruptorSafety.WriteAfterAcquiredReads | modules/concurrency/disruptor-single-producer/include/lls/concurrency/disruptor_single_producer.hpp:269-299 | Every earlier read of the slot about to be overwritten was released by a cursor store that the producer has already acquired |
| DisruptorSafety.ReadAfterAcquiredWrites | modules/concurrency/disruptor-single-producer/include/lls/concurrency/disruptor_single_producer.hpp:91-99 | Every write so far to the slot about to be read precedes the publication store that the consumer has acquired |
| DisruptorSafety.StepKeeps | modules/concurrency/disruptor-single-producer/include/lls/concurrency/disruptor_single_producer.hpp:202-250 | Every atomic step of every thread keeps the invariant behind these results: safe capacity cache, intact last lap of the ring, delivered prefixes, batch boundaries |
| DisruptorRefinement.Lockstep | modules/concurrency/disruptor-single-producer/include/lls/concurrency/disruptor_single_producer.hpp:272-286 | One step of the wrapping 64-bit machine is exactly one step of the unbounded one; neither is ever enabled alone |
| DisruptorRefinement.RunRefines | modules/concurrency/disruptor-single-producer/include/lls/concurrency/disruptor_single_producer.hpp:321-328 | From every initial position, every run of the 64-bit machine is the wrapped image of an unbounded run, so rollover shows in reported positions only |
| DisruptorRefinement.CapacityCacheSafe | modules/concurrency/disruptor-single-producer/include/lls/concurrency/disruptor_single_producer.hpp:490-521 | In every reachable state available_before_rescan_ plus the modular lag of any consumer is at most Capacity |
| DisruptorRefinement.RefusalIsWitnessed | modules/concurrency/disruptor-single-producer/include/lls/concurrency/disruptor_single_producer.hpp:509-512 | Under concurrency a batch that fits the ring is refused only because the cursor value just loaded was really further behind than the batch allows, and the blocker hint names that consumer |
| DisruptorCalls.ConsumeTakes | modules/concurrency/disruptor-single-producer/include/lls/concurrency/disruptor_single_producer.hpp:87-102 | A consume call of a reachable state works up to the cached boundary while that is ahead and the call is through a handle, else up to the one it loads; it reads exactly when that boundary is ahead and the maximum positive, and then takes all before it or as much as was asked for |
| DisruptorCalls.NewHandleLoads | modules/concurrency/disruptor-single-producer/include/lls/concurrency/disruptor_single_producer.hpp:147-151 | A new consumer handle has nothing cached: its first call loads |
| DisruptorCalls.PublishBegins | modules/concurrency/disruptor-single-producer/include/lls/concurrency/disruptor_single_producer.hpp:376-386 | Empty batches are answered true and batches above the capacity false at once; a batch the cache covers is written without looking at a cursor, any other goes to the cursors |
| DisruptorCalls.StartsFull | modules/concurrency/disruptor-single-producer/include/lls/concurrency/disruptor_single_producer.hpp:321-328 | At first every batch that fits the ring is covered |
| DisruptorCalls.LoadIsDecided | modules/concurrency/disruptor-single-producer/include/lls/concurrency/disruptor_single_producer.hpp:492-517 | A cursor load refuses exactly when that cursor leaves less room than the batch needs; it then names its consumer in the hint, and cache and answers change in no other way |
| DisruptorCalls.ScanSkipsBlocker | modules/concurrency/disruptor-single-producer/include/lls/concurrency/disruptor_single_producer.hpp:502-505 | The scan does not load the hinted consumer again |
| DisruptorCalls.ScanIsExact | modules/concurrency/disruptor-single-producer/include/lls/concurrency/disruptor_single_producer.hpp:518-520 | A scan that reached the end leaves the hint on a slowest acquired consumer and exactly the room it leaves in the cache |
| DisruptorCalls.ReleaseSpends | modules/concurrency/disruptor-single-producer/include/lls/concurrency/disruptor_single_producer.hpp:398-405 | The release spends as much of the cache as it publishes, stores the next position and answers true |
| RingSlots.TraversalsAgree | modules/concurrency/disruptor-single-producer/include/lls/concurrency/disruptor_single_producer.hpp:485-488 | Masking each position and walking two contiguous spans visit the same in-bounds slot, that of the true position, for every wrapped start |
| Words.MaskedSlot | modules/concurrency/disruptor-single-producer/include/lls/concurrency/disruptor_single_producer.hpp:40-47 | For every capacity the static assertions admit, masking a wrapped position gives the remainder of the true one |
| Words.BitTrickIsPowerOfTwo | modules/concurrency/disruptor-single-producer/include/lls/concurrency/disruptor_single_producer.hpp:41-42 | (c & (c - 1)) == 0 with c > 0 holds only for powers of two |
| Disruptor.RefreshAvailableCapacity | modules/concurrency/disruptor-single-producer/include/lls/concurrency/disruptor_single_producer.hpp:490-521 | The rescan answers true exactly when every consumer leaves room for the batch, whatever the cached capacity and hint; on success the new cache is exact and the hint is a slowest consumer, on failure the hint names a consumer really too far behind and the cache is unchanged |
| DisruptorLog.PublishMeans | modules/concurrency/disruptor-single-producer/include/lls/concurrency/disruptor_single_producer.hpp:364-406 | A batch is taken whole, event by event from its writer, exactly when it is empty or every consumer leaves room for it, and changes nothing else |
| DisruptorLog.ConsumeMeans | modules/concurrency/disruptor-single-producer/include/lls/concurrency/disruptor_single_producer.hpp:435-452 | An indexed call hands over all that waits or as much as was asked for, the events in order with consecutive sequences modulo 2^64, and moves that cursor past them |
| DisruptorLog.BadIndexGetsNothing | modules/concurrency/disruptor-single-producer/include/lls/concurrency/disruptor_single_producer.hpp:431-433 | An index outside the registered range gets nothing and moves nothing |
| DisruptorLog.CachedMeans | modules/concurrency/disruptor-single-producer/include/lls/concurrency/disruptor_single_producer.hpp:91-102 | Through a handle a call stops at the cached boundary while that is ahead and otherwise caches the published one; it takes all before the boundary or as much as was asked for |
| Disruptor.SingleProducerDisruptor.constructor | modules/concurrency/disruptor-single-producer/include/lls/concurrency/disruptor_single_producer.hpp:321-328 | An empty log, the whole capacity cached, the hint on the first consumer and every cursor at the initial position |
| Disruptor.SingleProducerDisruptor.TryPublishBatch | modules/concurrency/disruptor-single-producer/include/lls/concurrency/disruptor_single_producer.hpp:369-406 | Accepts by the log's rule and appends the whole batch or leaves the log alone; the cache is spent without a rescan while it covers the batch, exact with the hint on a slowest consumer after a rescan, and untouched by a refusal |
| Disruptor.SingleProducerDisruptor.ConsumeAvailable | modules/concurrency/disruptor-single-producer/include/lls/concurrency/disruptor_single_producer.hpp:427-453 | Hands over the log's next events: all that wait, or as many as were asked for |
| Disruptor.WriteTwoSpan | modules/concurrency/disruptor-single-producer/include/lls/concurrency/disruptor_single_producer.hpp:229-240 | The handle's two write loops leave the ring that event-by-event publication leaves |
| Disruptor.WriteMasked | modules/concurrency/disruptor-single-producer/include/lls/concurrency/disruptor_single_producer.hpp:392-397 | The masked write loop leaves the ring that event-by-event publication leaves |
| Disruptor.ReadTwoSpan | modules/concurrency/disruptor-single-producer/include/lls/concurrency/disruptor_single_producer.hpp:103-122 | The handle's two read loops see the log's events in order with their wrapped sequences |
| Disruptor.ReadMasked | modules/concurrency/disruptor-single-producer/include/lls/concurrency/disruptor_single_producer.hpp:446-449 | The masked read loop sees the log's events in order with their wrapped sequences |
| Disruptor.ProducerHandle.constructor | modules/concurrency/disruptor-single-producer/include/lls/concurrency/disruptor_single_producer.hpp:259-264 | Takes the owner's cursor, cache and hint, which are consistent with the published position |
| Disruptor.ProducerHandle.Move | modules/concurrency/disruptor-single-producer/include/lls/concurrency/disruptor_single_producer.hpp:167-172 | A move passes owner, cursor, cache and hint on and leaves the source without an owner |
| Disruptor.ProducerHandle.Destroy | modules/concurrency/disruptor-single-producer/include/lls/concurrency/disruptor_single_producer.hpp:301-312 | Writes cursor, cache and hint back and restores the owner's invariant without touching the log; a moved-from handle writes nothing |
| Disruptor.ProducerHandle.TryPublishBatch | modules/concurrency/disruptor-single-producer/include/lls/concurrency/disruptor_single_producer.hpp:204-250 | The same decision, log and cache discipline as direct publication, on the handle's private state |
| Disruptor.ConsumerHandle.ConsumeAvailable | modules/concurrency/disruptor-single-producer/include/lls/concurrency/disruptor_single_producer.hpp:84-127 | Hands over the log's next events: all up to the cached boundary while that is ahead, else all that wait, or as many as were asked for; the published position is cached exactly when the old boundary was used up |
| DisruptorSession.Run | modules/concurrency/disruptor-single-producer/include/lls/concurrency/disruptor_single_producer.hpp:158-190 | The real objects, run through any legal session of direct publication, producer handles (made, moved, destroyed), indexed consumption and consumer handles of all consumers, give the accept results, deliveries, ring contents and published position of direct publication and indexed consumption alone; every consumer is handed exactly the log from where it stood to where it stands; with no producer handle left the owner's cursor is the published position |
| DisruptorHistory.DeliveriesAreTheLog | modules/concurrency/disruptor-single-producer/include/lls/concurrency/disruptor_single_producer.hpp:84-127 | Whatever the producer and the other consumers do in between, one consumer's deliveries joined together are the slice of the log from its first to its last position |
| DisruptorSession.TakesAreFair | modules/concurrency/disruptor-single-producer/include/lls/concurrency/disruptor_single_producer.hpp:91-102 | At any point of any legal session a take through a handle gets at most what indexed consumption would hand over, and with a positive maximum it gets nothing only when nothing was waiting |
| DisruptorSession.PathsOpenAndClose | modules/concurrency/disruptor-single-producer/include/lls/concurrency/disruptor_single_producer.hpp:341-352 | Opening a producer or consumer handle where none is live, and closing it again, is legal |
| DisruptorSession.OpenPathsStayOpen | modules/concurrency/disruptor-single-producer/include/lls/concurrency/disruptor_single_producer.hpp:158-162 | Any use of the paths that are open is legal and leaves them open |
| DisruptorLinearization.StepRefinesLog | modules/concurrency/disruptor-single-producer/include/lls/concurrency/disruptor_single_producer.hpp:241-244 | From every reachable state of the 64-bit machine each atomic step acts on the append-only log as one whole operation or not at all: the publication store is an accepted publish of its batch, the cursor store is a consume that handed over the log's next events, every other step stutters |
| DisruptorLinearization.RunLinearizes | modules/concurrency/disruptor-single-producer/include/lls/concurrency/disruptor_single_producer.hpp:124-125 | Every run of the 64-bit machine amounts to a history of whole operations on the empty log, in the order of their release stores: the state's log is where that history ends, all its publications are accepted, and every consumer's finished calls handed over exactly what the history hands over |
| DisruptorProgress.NeverStuck | modules/concurrency/disruptor-single-producer/include/lls/concurrency/disruptor_single_producer.hpp:383-386 | In every reachable state with all threads between calls and short of a target, a publication of one event with fresh loads succeeds or some consumer's fresh load shows an event |
| DisruptorProgress.AttemptAnswers | modules/concurrency/disruptor-single-producer/include/lls/concurrency/disruptor_single_producer.hpp:490-521 | From every reachable state an attempt with fresh loads and no consumer moving meanwhile ends with true exactly when every consumer leaves room for the batch, whatever the cache and the blocker hint |
| DisruptorProgress.EveryThreadCanWork | modules/concurrency/disruptor-single-producer/include/lls/concurrency/disruptor_single_producer.hpp:383-405 | In every reachable state every thread has a step of its own work with a fresh load |
| DisruptorProgress.StepGains | modules/concurrency/disruptor-single-producer/include/lls/concurrency/disruptor_single_producer.hpp:398-405 | No atomic step of a reachable state raises (target - published) plus the sum of (target - consumed), and the release that ends a successful operation short of the target strictly lowers it |
| DisruptorFairness.FairRunsFinish | modules/concurrency/disruptor-single-producer/include/lls/concurrency/disruptor_single_producer.hpp:435-452 | Every infinite run of the 64-bit machine's atomic steps, from every initial position, reaches a state in which the target is published and released by every consumer, provided each thread short of the target keeps working and every store is seen by loads in the end; refusals and empty calls from stale loads included |
| Accumulators.ExpectedChecksumIsTriangular | benchmarks/comparisons/disruptor/cpp/paired_benchmark.cpp:86-92 | For both parities the divided-first product is the exact sum 0 + ... + (n - 1) modulo 2^64, for every 64-bit n |
| Accumulators.AccumulatorsDecide | benchmarks/comparisons/disruptor/cpp/paired_benchmark.cpp:357-366 | After any sequence of callbacks the mismatch word is zero if and only if every value and every sequence was the expected one |
| Accumulators.ChecksumIsSum | benchmarks/comparisons/disruptor/cpp/paired_benchmark.cpp:364 | Whatever was delivered, the checksum is the sum of the values modulo 2^64 |
| Accumulators.CorrectDeliveryPasses | benchmarks/comparisons/disruptor/cpp/paired_benchmark.cpp:442-446 | A phase delivered in order ends with consumed = n, checksum = expected_checksum(n) and mismatch 0 |
| Accumulators.ArgumentsBoundPositions | benchmarks/comparisons/disruptor/cpp/paired_benchmark.cpp:207-245 | The checks on the counts hold exactly when all three are positive and all positions of a session fit in INT64_MAX |
| PhaseSafety.NoDataRace | benchmarks/comparisons/disruptor/cpp/paired_benchmark.cpp:77-84 | In no reachable state are both threads about to access phase_event_count, phase_measurement or consumer_error, and a thread about to access one of the first two has acquired the counter store that follows the other thread's last access |
| PhaseSafety.RethrowHasError | benchmarks/comparisons/disruptor/cpp/paired_benchmark.cpp:397-398 | The producer rethrows only after the consumer has stored an exception and left |
| PhaseSafety.OnlyTheClockRejects | benchmarks/comparisons/disruptor/cpp/paired_benchmark.cpp:439-450 | The producer always validates the measurement of its own phase, which is the ideal one; only a non-positive duration can fail it |
| PhaseSafety.PhaseIsExact | benchmarks/comparisons/disruptor/cpp/paired_benchmark.cpp:368-380 | The consumer never takes an event of a later phase and ends each phase exactly on its last event with the ideal accumulators |
| PhaseSafety.BatchesAreWhole | benchmarks/comparisons/disruptor/cpp/paired_benchmark.cpp:408-421 | A producer step changes the stream only by a whole batch of the values due, and only into free slots |
| PhaseSafety.DrainsAreBounded | benchmarks/comparisons/disruptor/cpp/paired_benchmark.cpp:368-376 | A consumer step takes only published events, at most the drain limit at once, and the handler sees them in order with their positions |
| PhaseSafety.PlainWaitIsCorrect | benchmarks/comparisons/disruptor/cpp/paired_benchmark.cpp:405-430 | Positions stay at most INT64_MAX, so the plain `<` wait on consumer_position is the comparison of true positions for every stale value |
| PhaseSafety.OutcomeIsRight | benchmarks/comparisons/disruptor/cpp/paired_benchmark.cpp:451-466 | The session returns only the ideal measurement of the measured phase with no failure recorded, and has thrown only with the flag set |
| PhaseSafety.FaultsAreReported | benchmarks/comparisons/disruptor/cpp/paired_benchmark.cpp:382-384 | A failed pinning or a non-positive duration goes to the exit that records the failure |
| PhaseSafety.ProducerShutsDown | benchmarks/comparisons/disruptor/cpp/paired_benchmark.cpp:396-401 | Once failed is set the producer publishes nothing more and each step with a fresh load of the flag brings it nearer to leaving, at most five steps |
| PhaseSafety.ConsumerShutsDown | benchmarks/comparisons/disruptor/cpp/paired_benchmark.cpp:368-376 | Once failed is set the consumer leaves within nine steps plus one per event still in the ring |
| PhaseSafety.ShutdownNeverStuck | benchmarks/comparisons/disruptor/cpp/paired_benchmark.cpp:455-459 | While leaving, the consumer always has a step and the producer has one once the consumer is gone |
| PhaseProgress.NobodyIsStuck | benchmarks/comparisons/disruptor/cpp/paired_benchmark.cpp:368-438 | In every state of a run without a pinning failure or a non-positive duration, short of the end some thread is not waiting for the other, and each thread with more than the join to wait for has a step with fresh loads |
| PhaseProgress.FairRunsReturn | benchmarks/comparisons/disruptor/cpp/paired_benchmark.cpp:388-466 | Every fair infinite run without such a failure returns: the producer holds the ideal measurement of the measured phase and every event of every phase has been taken |
| UdpWire.HeaderRoundTrip | benchmarks/scenarios/socket-latency/socket_latency.cpp:580-597 | A buffer reads as a sequence exactly when its first eight bytes are the header written for that sequence |
| UdpWire.WireFormat | benchmarks/scenarios/socket-latency/socket_latency.cpp:550-578 | Byte by byte: magic 0x4c53, version 1, protocol, the sequence in network byte order, then the pattern 17 i + 0xa5 |
| UdpWire.WriteHeader | benchmarks/scenarios/socket-latency/socket_latency.cpp:550-562 | Overwrites the header in place and nothing else; a short buffer is the error and stays unchanged |
| UdpWire.InitializeMessage | benchmarks/scenarios/socket-latency/socket_latency.cpp:571-578 | Fills the buffer with the template message |
| UdpWire.Restamped | benchmarks/scenarios/socket-latency/socket_latency.cpp:1326-1330 | Rewriting the header of any message of the session gives the message of the new sequence, so the client's template comparison is exact |
| UdpEndpoints.ResponseConserved | benchmarks/scenarios/socket-latency/socket_latency.cpp:1304-1344 | Each response falls in exactly one class; first-seen equals the set bitmap entries, without repetition; reordered counts exactly the first-seen arrivals preceded by a larger one; the mark is their maximum |
| UdpEndpoints.RequestConserved | benchmarks/scenarios/socket-latency/socket_latency.cpp:1157-1204 | The same conservation on the server, with warm-up echoes as a class of their own |
| UdpEndpoints.ResponseVerdicts | benchmarks/scenarios/socket-latency/socket_latency.cpp:1304-1340 | A response is truncated when cut or too long; else it is first-seen or duplicate, by its bit, exactly when it is the server's exact message for a sample; else invalid |
| UdpEndpoints.RequestVerdicts | benchmarks/scenarios/socket-latency/socket_latency.cpp:1157-1196 | A request is truncated when cut or too long; else warm-up, first-seen or duplicate exactly when it is whole and carries a sequence of the session; else invalid |
| UdpEndpoints.OnResponseMeans | benchmarks/scenarios/socket-latency/socket_latency.cpp:1345-1355 | A sample is recorded exactly by its first response, in time and with a positive round trip, which is the new latency; the same with a round trip that is not positive fails |
| UdpEndpoints.ChecksumUndone | benchmarks/scenarios/socket-latency/socket_latency.cpp:599-608 | An update can be undone: multiplying by the inverse and mixing out sequence, size and protocol gives the checksum before |
| UdpEndpoints.ChecksumDiffers | benchmarks/scenarios/socket-latency/socket_latency.cpp:599-608 | Different sequences, or different checksums before, give different checksums |
| UdpEndpoints.OnResponseKeeps | benchmarks/scenarios/socket-latency/socket_latency.cpp:1345-1355 | Recorded samples are in increasing order, were seen, and make up the checksum |
| UdpEndpoints.StableChecksum | benchmarks/scenarios/socket-latency/socket_latency.cpp:599-608 | With no deadline missed the checksum is a function of warm-up, sample count and payload size only |
| UdpClient.MeasuredLoop.OnDatagram | benchmarks/scenarios/socket-latency/socket_latency.cpp:1294-1356 | The loop body on the real bitmap and counters does what the classification says |
| UdpClient.MeasuredLoop.MeasureSamples | benchmarks/scenarios/socket-latency/socket_latency.cpp:1284-1361 | The whole measured loop, for every sequence of arrivals, leaves exactly the specified state or fails on the specified sample |
| UdpClient.MeasuredKeeps | benchmarks/scenarios/socket-latency/socket_latency.cpp:1284-1361 | After any samples over any arrivals every datagram has been counted exactly once and the recorded samples are consistent |
| UdpClient.SampleMeans | benchmarks/scenarios/socket-latency/socket_latency.cpp:1284-1356 | Over any arrivals a sample's first response decides: late it is lost, in time it is recorded with its latency, or fails the run if not positive; every other arrival is only counted |
| UdpClient.MeasuredMeans | benchmarks/scenarios/socket-latency/socket_latency.cpp:1284-1356 | A sample is recorded exactly when nothing answered it before its turn and its first response is in time and positive; each latency is that response's |
| UdpClient.HearAllCounts | benchmarks/scenarios/socket-latency/socket_latency.cpp:1304-1344 | Over any datagrams each counter grows by exactly the number of its kind |
| UdpClient.HearAllSets | benchmarks/scenarios/socket-latency/socket_latency.cpp:1331-1337 | A sample's bit is set exactly when some datagram heard answers it |
| UdpServer.ServerLoop.OnRequest | benchmarks/scenarios/socket-latency/socket_latency.cpp:1156-1210 | The server's loop body on the real bitmap and counters does what the classification says and echoes exactly what is neither truncated nor invalid |
| UdpServer.ServerLoop.Serve | benchmarks/scenarios/socket-latency/socket_latency.cpp:1147-1211 | The whole loop: it sends back byte for byte, in order, exactly the datagrams that are whole and carry a sequence of the session; truncated + invalid + messages = received |
| UdpServer.ServedConserved | benchmarks/scenarios/socket-latency/socket_latency.cpp:1157-1204 | After any requests each one is counted exactly once and messages = warm-ups + duplicates + unique |
| UdpServer.ServedCounts | benchmarks/scenarios/socket-latency/socket_latency.cpp:1157-1204 | Over any requests each counter is exactly the number of its kind |
| UdpServer.EchoesRepeat | benchmarks/scenarios/socket-latency/socket_latency.cpp:1177-1181 | The answers are the accepted requests, byte for byte and in order |
| UdpServer.SeenExactly | benchmarks/scenarios/socket-latency/socket_latency.cpp:1190-1197 | A sample's bit is set exactly when some datagram asked for it |
| UdpServer.OrderAndRepetitionDoNotMatter | benchmarks/scenarios/socket-latency/socket_latency.cpp:1192-1197 | Retransmission, duplication and reordering of requests change neither the bitmap nor measured_unique_requests |
| UdpEcho.StepKeeps | benchmarks/scenarios/socket-latency/socket_latency.cpp:1177-1181 | Every step of client, server and network (drop, duplicate, delay, reorder, junk, forged requests) keeps: each accepted response was sent, each response answers a request that is counted or in hand |
| UdpEcho.AccountingIsConsistent | benchmarks/scenarios/socket-latency/socket_latency.cpp:1373-1383 | In every run without a server error completed <= measured_unique_requests <= attempted, the accounting exception is unreachable, no 64-bit subtraction underflows, unobserved is attempted minus the server's unique count, and completed + unobserved + response misses = attempted |
| UdpEcho.NothingIsLostOrCountedTwice | benchmarks/scenarios/socket-latency/socket_latency.cpp:1186-1204 | At every moment of every run both ends' tallies are conserved and measured_unique_requests is the number of distinct first-seen requests |
| UdpEcho.CompleteRunsAgree | benchmarks/scenarios/socket-latency/socket_latency.cpp:1351-1353 | Every run that reports no miss has the checksum of its setup |
| UdpEcho.RunHistory | benchmarks/scenarios/socket-latency/socket_latency.cpp:1147-1211 | In every run the responses on the network are the server loop's echoes of what it received, both tallies are those of the loops over what they received, and the client leaves a warm-up step only when its exact response has been sent |
| Williams.WilliamsFirstRow | benchmarks/scenarios/socket-latency/socket_latency.cpp:1646-1664 | Refuses zero and odd widths above one; otherwise gives a row that starts with 0 and whose neighbours add up in turn to 1, n, n + 1, n, n + 1, ... |
| Williams.ZigzagIsUnique | benchmarks/scenarios/socket-latency/run_profile_tournament.py:116-129 | Only one row does |
| Williams.ScheduledShifts | benchmarks/scenarios/socket-latency/socket_latency.cpp:1704-1706 | The first run has the first row, and each run has every treatment of the run before moved on by one |
| Williams.RunIsPermutation | benchmarks/scenarios/socket-latency/socket_latency.cpp:1698-1706 | Each shifted row puts every treatment at exactly one position |
| Williams.StepsDistinct | benchmarks/scenarios/socket-latency/socket_latency.cpp:1654-1662 | The row's adjacent differences modulo the width are all distinct and non-zero, and every non-zero residue is one of them |
| Williams.PositionOnce | benchmarks/scenarios/socket-latency/socket_latency.cpp:1698-1706 | Over any n consecutive runs each treatment takes each position exactly once |
| Williams.PairOnce | benchmarks/scenarios/socket-latency/socket_latency.cpp:1698-1706 | Over any n consecutive runs every ordered pair of distinct treatments is adjacent exactly once, for every even width |
| DesignValidation.ValidateDesign | benchmarks/scenarios/socket-latency/summarize.py:227-302 | Accepts exactly the row lists that pass every test; otherwise names the first test that fails, with its run or block |
| DesignValidation.PositionsBalanced | benchmarks/scenarios/socket-latency/summarize.py:274-288 | Acceptance implies that in each aligned block each treatment occupies each position in exactly one row (by pigeonhole from the set tests) |
| DesignValidation.PairsBalanced | benchmarks/scenarios/socket-latency/summarize.py:290-302 | Acceptance implies that in each aligned block every directed predecessor pair stands at exactly one place |
| DesignMeaning.AcceptsExactly | benchmarks/scenarios/socket-latency/summarize.py:227-302 | The design check accepts exactly, in whatever order the rows come: whole blocks of runs, one configuration, every run without repetition, and in each aligned block each treatment once in each position and each ordered pair of different treatments adjacent once |
| DesignSchedule.ScheduleAccepted | benchmarks/scenarios/socket-latency/summarize.py:227-302 | Every schedule the benchmark generates over a whole number of blocks is accepted, for every width the design has |
| Schedules.ScheduleByRun | benchmarks/scenarios/socket-latency/socket_latency.cpp:1700-1718 | Grouping the generated rows by run gives the shifted first row of that run |
| Schedules.RunSchedule | benchmarks/scenarios/socket-latency/run_profile_tournament.py:591-594 | The loop both drivers run gives, in row q * n + p, run q + 1, position p + 1 and the treatment (row[p] + q) mod n, measured then; it refuses exactly the illegal widths |
| Tournament.ValidateTournament | benchmarks/scenarios/socket-latency/run_profile_tournament.py:408-460 | Accepts exactly: legal width, the designed run/position/condition structure, observations a multiple of the width, stable checksums; otherwise the error is that of the first failing test, which is never the condition count, and the balance only for a non-multiple |
| Tournament.BalancedWhenMultiple | benchmarks/scenarios/socket-latency/run_profile_tournament.py:439-451 | Every condition takes every position observations / width times exactly when the division leaves nothing; otherwise the first condition already fails |
| Tournament.ConditionsDistinct | benchmarks/scenarios/socket-latency/run_profile_tournament.py:409-413 | Unique profiles and payloads give unique conditions |
| Tournament.ConditionsAt | benchmarks/scenarios/socket-latency/run_profile_tournament.py:409-413 | The conditions are listed payload by payload, every profile in order |
| TournamentDesign.FollowsExactly | benchmarks/scenarios/socket-latency/run_profile_tournament.py:415-437 | The row-count and order tests accept exactly the reorderings of the designed schedule |
| TournamentMeaning.AcceptsExactly | benchmarks/scenarios/socket-latency/run_profile_tournament.py:408-460 | The tournament check accepts exactly: a legal width, whole blocks, the designed schedule in some order, and the same checksum in all rows of every condition that runs over TCP or missed no deadline |
| TournamentDesign.ScheduleRejectedOnlyForChecksums | benchmarks/scenarios/socket-latency/run_profile_tournament.py:591-594 | The schedule the tournament runs is rejected by no row-count, order, count or balance check: it is accepted exactly when all checksums are stable |
| TournamentOutcomes.UdpTournamentAccepted | benchmarks/scenarios/socket-latency/run_profile_tournament.py:453-460 | When every row reports a completed UDP run of its condition's setup, whatever the network did to it, the scheduled tournament is accepted outright: runs without a miss print the same checksum |
| TournamentDesign.ScheduleBalanced | benchmarks/scenarios/socket-latency/run_profile_tournament.py:591-594 | In that schedule each condition stands at each position exactly observations / width times |
| StreamReceive.ReceiveExactBusySpin | modules/networking/low-latency-sockets/include/lls/networking/low_latency_sockets.hpp:368-410 | The loop on the caller's buffer writes exactly the specified bytes at the start of the span, leaves the rest of the buffer alone, and reports the specified count and state |
| StreamReceive.ReceiveExactBlocking | modules/networking/low-latency-sockets/include/lls/networking/low_latency_sockets.hpp:336-363 | The same for the blocking loop |
| StreamReceive.SpinTakesPrefix | modules/networking/low-latency-sockets/include/lls/networking/low_latency_sockets.hpp:368-410 | The filled prefix is the next bytes_received bytes of the stream, none lost; complete holds exactly when the span is full; peer_closed only when nothing is left |
| StreamReceive.BlockTakesPrefix | modules/networking/low-latency-sockets/include/lls/networking/low_latency_sockets.hpp:336-363 | The same for the blocking form, which is never stopped |
| StreamReceive.SpinIsDecided | modules/networking/low-latency-sockets/include/lls/networking/low_latency_sockets.hpp:368-410 | The result is what the kernel's answers say: all their bytes, and the state of the first answer that ends the call (close, the failing call's own code, a stop requested after EINTR or EAGAIN), or complete if none does |
| StreamReceive.BlockIsDecided | modules/networking/low-latency-sockets/include/lls/networking/low_latency_sockets.hpp:336-363 | The same for the blocking form, which never asks the predicate and fails with EAGAIN on an empty poll |
| StreamReceive.OverwriteMeans | modules/networking/low-latency-sockets/include/lls/networking/low_latency_sockets.hpp:375-379 | Only the front of the span changes, and it holds the bytes received |
| StreamReceive.ResumedIsUninterrupted | modules/networking/low-latency-sockets/include/lls/networking/low_latency_sockets.hpp:380-396 | Stopping any number of times and resuming on the rest gives the bytes, state and socket of one uninterrupted call, under every schedule of fragments, EINTR, EAGAIN, failures and close |
| StreamReceive.BlockingIsSpin | modules/networking/low-latency-sockets/include/lls/networking/low_latency_sockets.hpp:336-363 | The blocking form on a descriptor that waits gets the same bytes and state as the uninterrupted busy spin |
| StreamReceive.FragmentsDoNotMatter | modules/networking/low-latency-sockets/include/lls/networking/low_latency_sockets.hpp:368-410 | Without a failure the outcome does not depend on the schedule: all that was wanted, or all there was and peer_closed |
| StreamSend.SendAllBytes | modules/networking/low-latency-sockets/include/lls/networking/low_latency_sockets.hpp:308-333 | The send loop does what its specification says |
| StreamSend.SendAllIsExact | modules/networking/low-latency-sockets/include/lls/networking/low_latency_sockets.hpp:308-333 | The wire gets exactly the first bytes_sent bytes, in order; no error exactly when all were sent |
| StreamSend.SendAllIsDecided | modules/networking/low-latency-sockets/include/lls/networking/low_latency_sockets.hpp:308-333 | The result is what the kernel's answers say: the sum of the counts, and broken_pipe or the failing call's own code for the first answer that ends the call |
| StreamSend.RetryCompletes | modules/networking/low-latency-sockets/include/lls/networking/low_latency_sockets.hpp:308-333 | After an error, sending the unsent rest completes the message without loss or repetition |
| StreamSend.TransferIsExact | modules/networking/low-latency-sockets/include/lls/networking/low_latency_sockets.hpp:308-410 | Two messages sent one after the other are what the receiver reads back to back whenever its reads complete, however both directions are cut up and stopped |
| StreamSend.HealthyTransfer | modules/networking/low-latency-sockets/include/lls/networking/low_latency_sockets.hpp:308-410 | When neither side's calls fail, both reads complete with exactly the two messages and nothing is left over |
| DatagramReceive.ReceiveDatagramOnce | modules/networking/low-latency-sockets/include/lls/networking/low_latency_sockets.hpp:184-219 | The retry loop reports and fills the buffer as specified |
| DatagramReceive.ReceiveDatagramBusySpin | modules/networking/low-latency-sockets/include/lls/networking/low_latency_sockets.hpp:488-516 | The spin over single attempts reports and fills the buffer as specified |
| DatagramReceive.SpinTakesFirst | modules/networking/low-latency-sockets/include/lls/networking/low_latency_sockets.hpp:488-516 | The spin never reports an idle attempt or an interruption; it takes the first queued datagram or none, reports source and full size, and truncated holds exactly when the buffer did not get all of it |
| DatagramReceive.OnceIsDecided | modules/networking/low-latency-sockets/include/lls/networking/low_latency_sockets.hpp:197-218 | One attempt is decided by the first answer that is not a retried interruption: the message, not-ready for an empty nonblocking poll, or the answer's own code |
| DatagramReceive.SpinIsDecided | modules/networking/low-latency-sockets/include/lls/networking/low_latency_sockets.hpp:494-515 | The spin is decided by the first answer that is a message, a fault, or idle with a stop requested |
| DatagramReceive.StopAndResume | modules/networking/low-latency-sockets/include/lls/networking/low_latency_sockets.hpp:500-514 | A stopped spin resumed is the spin that was not stopped |
| DatagramReceive.BlockingReceivesTheSame | modules/networking/low-latency-sockets/include/lls/networking/low_latency_sockets.hpp:473-477 | With a datagram queued, the blocking receive reports what the uninterrupted spin reports |
| Percentile.SplitIsFloor | benchmarks/comparisons/disruptor/cpp/paired_latency_benchmark.cpp:243-249 | The 64-bit split form stays below count and equals floor((count - 1) * num / den) exactly when the remainder's product fits the word |
| Percentile.SmallFractionsAreExact | benchmarks/comparisons/disruptor/cpp/paired_latency_benchmark.cpp:262-276 | For denominators up to 2^32 it is that floor for every count |
| Percentile.DirectIsFloor | benchmarks/scenarios/socket-latency/socket_latency.cpp:734-743 | The direct form refuses exactly a zero denominator or a fraction above one, never leaves the samples, and equals the floor exactly when the whole product fits the word |
| Percentile.AcceptedCountsAreExact | benchmarks/scenarios/socket-latency/socket_latency.cpp:734-743 | For every number of samples an accepted configuration can have (at most 2^32 - 1) and every denominator up to 2^32, the direct form is the floor |
| Percentile.DirectOverflows | benchmarks/scenarios/socket-latency/socket_latency.cpp:741 | At 2^55 samples, which a vector of 64-bit values can hold but no accepted configuration reaches, the direct form of 999/1000 is not the floor and the split form is |
| Percentile.SplitOverflows | benchmarks/comparisons/disruptor/cpp/paired_latency_benchmark.cpp:243-249 | With count, numerator and denominator 2^33 the split form is not the floor |
| Percentile.FormsAgree | benchmarks/comparisons/disruptor/cpp/paired_latency_benchmark.cpp:243-249 | The two forms agree wherever the direct product fits the word |
| Percentile.PercentileMeaning | benchmarks/scenarios/socket-latency/socket_latency.cpp:734-743 | For accepted configurations and any ascending arrangement of the samples the direct form reports the sample at the floor index: more than index samples are at most it and at most index are below it |
| Percentile.PercentileWhileFits | benchmarks/scenarios/socket-latency/socket_latency.cpp:734-743 | The same for any number of samples while the product fits the word |
| Percentile.OrderStatisticUnique | benchmarks/comparisons/disruptor/cpp/paired_latency_benchmark.cpp:260-264 | Only one value satisfies that description |
| Percentile.Summarize | benchmarks/comparisons/disruptor/cpp/paired_latency_benchmark.cpp:251-279 | p50, p90, p95, p99, p99.9 and max are those order statistics of the samples after the warm-up, never decrease, and positive counts the samples above zero |

## Left out

- PhaseSafety.NoDataRace: states that no reachable state has two conflicting accesses pending; batch publication is one step here, since its inner steps are the subject of the disruptor's own step layer.
- PhaseProgress.FairRunsReturn: like the disruptor's fair runs, it assumes that stores are seen in the end and threads keep running; a refused batch or an empty call counts as such a load of the ring.
- TournamentOutcomes.UdpTournamentAccepted: is about UDP tournaments; the TCP client's checksum is not modelled, so for TCP the stability test stays a condition.
- PhaseSafety.ProducerShutsDown: bounds steps whose load of the flag is fresh; how long a stale load may persist is a matter of the hardware.
- DisruptorFairness.FairRunsFinish: that stores are seen in the end and threads keep running is assumed, as the language standard recommends it of implementations; no time bound follows.
- StreamReceive.ReceiveExactBusySpin: the kernel's schedule is finite, so endless empty polls with a predicate that never stops are not modelled; nor is a predicate that throws.
- DatagramReceive.ReceiveDatagramBusySpin: after its finite schedule an empty socket makes the caller's predicate answer true; of the message flags only MSG_TRUNC is modelled, and the source address is one number.
- Percentile.Summarize: std::sort is the function Sorted (any ascending permutation, which is unique for integers), not an in-place algorithm.
- Writer and handler callbacks are functions from index to event and sequences of calls; callbacks that re-enter or throw are excluded by the source's own contract.
- `producer_debug_state` appears only as the rule of legal publication, not as run-time assertions.
- Moves of consumer handles, `try_publish`, `try_consume` (batches of one) and the position getters add nothing to the batch operations.
- `run_tcp`, `run_client` and the `_until` deadline adapters: wrappers over the modelled loops and a clock.
- Clocks, CPU pinning, affinity, resource usage, socket options and `/proc` parsing; pinning appears only as a step that may fail.
- Alignment, padding, allocation and `noexcept` constraints.
- The set of fields beyond treatment, position and configuration in the summarizer's rows, and `summarize` itself (floating point).
- CSV and JSON output, argument parsing except the integer checks named above, `spin_wait`, the Java comparators and the module benchmarks.
