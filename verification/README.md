# Apex Pipeline: verified models of the core

Apex Pipeline is a shared-nothing server: one event loop per core, cores that talk only through queues. This project
models the parts whose correctness is hardest to see from the code and proves what they promise, in Dafny.
`dafny verify dfyconfig.toml` checks all of it.

* **Cross-core messaging** (`DrainProtocol`, `DrainProgress`, `MpscQueue`, `CrossCoreCall`). Each atomic access of each
  thread is one step of a machine, a run is any interleaving of steps, and the results are about every run. One machine
  covers the rings into one target core, the coalesced drain flag and the rotating, batch-limited drain, with its safety
  and, counted in steps, its progress.
* **Timers and sessions** (`TimerSpec`, `TimingWheel`, `SessionSpec`, `SessionManager`). `TimerSpec` is the simple
  meaning, a map from id to deadline; `TimingWheel` is the linked-list implementation on the heap, proved to refine it
  step by step with callbacks that schedule, cancel and reschedule; the session manager is built on both.
* **Bytes to frames** (`RingBuffer`, `WireHeader`, `FrameCodec`, `ConnectionHandler`). The circular buffer with 64-bit
  counters refines a byte FIFO, the codec is a round trip, and the read loop dispatches the greedy parse of what was
  received however the reads were split.
* **Accounting across cores** (`ConnectionLimiter`, `PendingRequests`, `GatewayCorrelation`, `GatewayBounds`,
  `WritePump`). Per-IP limits with timeouts and compensations, request/response correlation, and the per-session write pump.
* **Allocators and arithmetic** (`Bits`, `SlabAllocator`, `Arena`, `SlidingWindow`, `RouteTable`, `Bcrypt`).

`Bits` holds the bit-level functions (masks, power-of-two rounding, align-up) and what they mean arithmetically;
`Wrappers` holds `Option`. Objects the source updates in place are classes whose methods are tied to a value-level
specification function; protocols between threads and coroutines are machines over values.

Where the code and its own documentation disagree the model follows the code:

* `timing_wheel.hpp:40-44` says that `schedule(0)` from inside an expiry callback fires after a full revolution. Expiry
  tests the deadline for equality, so such an entry never fires (`TimerSpec.SetInCallbackFires`).
* `session.hpp:57` says that a queue depth of 0 means unlimited. The code compares the queue length with the depth, so
  a depth of 0 refuses every write (`WritePump.Session.EnqueueWrite`).
* `slab_allocator.hpp` says that a double free is handled safely. It is whenever the slot is on the free list; a live
  slot whose owner wrote the freed marker into it is taken for a double free and never comes back
  (`SlabAllocator.Slab.Deallocate`).

Properties that turned out false come with a run or input that breaks them and the exact condition under which they
hold:

* The MPSC queue can answer full while empty (`SpuriousFullRun`); it does not while the head value it read is not behind
  the tail (`FullIsHonestUnlessStale`), and always does otherwise (`StaleHeadReportsFull`).
* The per-IP limit can be exceeded after timeouts, by up to the number of compensations (`LiveWithinLimitPlusDrift`,
  reached for every number: `DriftIsReached`), and is exact without them (`ExactWithoutFailures`).
* A sender that waits for its write can be left waiting by a close (`CloseStrandsSender`); it can still be answered
  if and only if the session is open or a write is in flight (`AnswerableIffNotStranded`).
* A request can be dropped and its answer delivered to another session after 2^48 requests on a core
  (`WrappedIdMisdelivers`, a run from the start); it can get its own answer if and only if its id is not pending and not
  0 when it is numbered (`OwnAnswerIff`), which holds for every request below that number (`EveryRequestIsAnswerable`).
* The bump and arena allocators accept requests whose sums wrap at 2^64 (`WrappingSizeIsAccepted` in the current block,
  `WrappedBlockRun` in a new one); their allocations stay disjoint, aligned and inside if and only if no sum of the path
  taken wraps (`Arena.Bump.Allocate`, `Arena.ArenaAllocator.Allocate`), and `WrapReachesNewBlock` says which wrapping
  requests get as far as a new block.
* The slab allocator builds a pool in memory that does not hold it when rounding a size up wraps (`EmptyChunkIsAccepted`:
  2^60 - 1 slots of 16 bytes get no bytes); its slots lie in memory of their own if and only if neither rounding wraps
  (`SlabAllocator.Slab.Create`, `SlabAllocator.Slab.Grow`).
* With a batch limit of 0 nothing is ever dispatched (`ZeroLimitDispatchesNothing`); with any other limit every run can
  be finished (`EveryRunCanFinish`).
* Decoding can report missing data for a complete frame, or read its header through a null pointer, when the scratch
  buffer cannot grow (`WrappedFrameRun`); it does exactly when the frame or the header wraps and the buffer is too small
  (`FrameCodec.TryDecode`). The read loop leaves a complete frame undispatched only then (`ConnectionHandler.ReadLoop`).
* A hash is not 60 characters long when the salt string has only 28 (`ShortSaltIsAccepted`, `HashLength`), and such a
  stored text verifies with every password: a text that parses does so if and only if it is shorter than 29
  characters (`VerifiesAnyIffShort`).

## Model

| member | source | states |
|---|---|---|
| `DrainProtocol.RunsKeepInv` | apex_core/src/core_engine.cpp:159-241 | The invariant of rings, flag and handler (counters ordered, unconsumed slots intact, one drain per set flag, published work always noticed) holds after every interleaving |
| `DrainProtocol.OneDrainPerFlag` | apex_core/src/core_engine.cpp:218-241 | In every run a set flag means exactly one drain handler owed, queued or running, and a clear flag means none |
| `DrainProtocol.NoLostDrain` | apex_core/src/core_engine.cpp:218-241 | With no handler queued or running, no producer between publish and flag exchange and none that won the flag and has not yet queued its handler, everything published was dispatched and every ring is empty |
| `DrainProtocol.DispatchedIsPrefix` | apex_core/src/spsc_mesh.cpp:42-84 | What the target dispatched from a source is a prefix of what that source posted: in order, at most once, nothing invented |
| `DrainProtocol.WriteKeepsSlots` | apex_core/include/apex/core/spsc_queue.hpp:139-150 | Writing at `head` touches no slot that still holds an unconsumed message |
| `DrainProtocol.RefusedExactlyWhenFull` | apex_core/include/apex/core/spsc_queue.hpp:139-150 | A post is refused if and only if its ring was full at the moment it loaded `consumed`, whatever others did in between |
| `DrainProtocol.WaitDoesNotGrow` | apex_core/src/spsc_mesh.cpp:42-84 | While a message waits, completed drain calls plus the calls still needed never grow, for any step of anybody |
| `DrainProtocol.BoundedFairness` | apex_core/src/spsc_mesh.cpp:42-84 | Counted from a moment between drain calls, with n cores and batch limit L, the message at depth d is dispatched within n * (d / L + 1) drain calls, whatever the other sources post |
| `DrainProtocol.BoundedFairnessAnywhere` | apex_core/src/spsc_mesh.cpp:42-84 | Counted from any moment, the middle of a drain call and a ring read that missed the message included, it takes at most one completed call more |
| `DrainProgress.DrainCallsComplete` | apex_core/src/spsc_mesh.cpp:42-84 | From any moment of any run, whatever the producers do, k * (5n + 4L + 5) steps of the target core complete at least k drain calls |
| `DrainProgress.DrainCallIsThorough` | apex_core/src/spsc_mesh.cpp:42-84 | When a drain call ends it has dispatched a full batch, or everything that any source had published when it began, whatever the producers did meanwhile |
| `DrainProgress.FairInSteps` | apex_core/src/core_engine.cpp:218-241 | A published message is dispatched within a number of target steps that only its depth, n and L decide, whatever the other sources post |
| `DrainProgress.TargetSettles` | apex_core/src/core_engine.cpp:218-241 | From every reachable state a target that runs alone dispatches everything published within a number of steps that only the configuration decides, unless it stops because a producer has published and not yet queued the handler |
| `DrainProgress.EveryRunCanFinish` | apex_core/src/core_engine.cpp:159-241 | Every run can be continued, in a number of steps that only the configuration decides, to a state where every post has finished and everything ever accepted was dispatched |
| `DrainProgress.ZeroLimitDispatchesNothing` | apex_core/src/spsc_mesh.cpp:55-59 | With a batch limit of 0 no run dispatches anything |
| `MpscQueue.RunsKeepInv` | apex_core/include/apex/core/mpsc_queue.hpp:146-187 | Reserved, filled and ready slots stay consistent in every interleaving of producers and the consumer, with spurious CAS failures |
| `MpscQueue.DequeuedIsPrefix` | apex_core/include/apex/core/mpsc_queue.hpp:146-187 | Dequeued items are a prefix of the items in reservation order, and head stays within tail .. tail + capacity |
| `MpscQueue.ReservesOwnItem` | apex_core/include/apex/core/mpsc_queue.hpp:146-164 | The step that raises `head` for an enqueue call reserves exactly the item of that call |
| `MpscQueue.DequeuedInCasOrder` | apex_core/include/apex/core/mpsc_queue.hpp:146-187 | What the consumer returns is exactly what was passed to `enqueue`, in the order of the successful compare-and-swaps |
| `MpscQueue.EnqueueOutcome` | apex_core/include/apex/core/mpsc_queue.hpp:146-173 | Every enqueue call that has returned reserved one position, which holds its item and is ready, or reserved none and had itself read a `tail` and an earlier `head` whose unsigned difference was at least the capacity |
| `MpscQueue.SwapOutcome` | apex_core/include/apex/core/mpsc_queue.hpp:152-170 | After both loads an enqueue reports BufferFull if and only if the difference is at least the capacity, reserves if and only if moreover `head` is unchanged and the swap does not fail by itself, and else retries; a retry without a spurious failure means that another reservation succeeded |
| `MpscQueue.AloneSucceeds` | apex_core/include/apex/core/mpsc_queue.hpp:146-173 | From every reachable state with room, a producer that runs alone has its item ready after four steps |
| `MpscQueue.DequeueTakesOldest` | apex_core/include/apex/core/mpsc_queue.hpp:175-187 | From every reachable state whose oldest item is ready, a consumer that runs alone returns that item |
| `MpscQueue.ReservationHasRoom` | apex_core/include/apex/core/mpsc_queue.hpp:150-159 | A successful reservation has a free slot although its view of `tail` may be old |
| `MpscQueue.NoOverwrite` | apex_core/include/apex/core/mpsc_queue.hpp:159-164 | A producer about to write its slot shares it with no other unconsumed position |
| `MpscQueue.NoHalfWrittenRead` | apex_core/include/apex/core/mpsc_queue.hpp:175-187 | A consumer about to copy a slot finds the complete item and no producer writing there |
| `MpscQueue.EmptyAnswerIsHonest` | apex_core/include/apex/core/mpsc_queue.hpp:177-182 | `dequeue` answers nothing exactly when the queue is empty or its oldest item is still being filled in |
| `MpscQueue.FullIsHonestUnlessStale` | apex_core/include/apex/core/mpsc_queue.hpp:150-157 | While the head value read is not behind the tail, BufferFull is answered exactly when that value is one capacity ahead, and then the queue really is full |
| `MpscQueue.StaleHeadReportsFull` | apex_core/include/apex/core/mpsc_queue.hpp:154-157 | With a head value behind the tail the unsigned difference wraps and the answer is BufferFull regardless of the contents |
| `MpscQueue.SpuriousFullRun` | apex_core/include/apex/core/mpsc_queue.hpp:150-157 | A run in which an enqueue reports BufferFull on an empty queue |
| `CrossCoreCall.RunsKeepInv` | apex_core/include/apex/core/cross_core_call.hpp:48-116 | Status, result, owner of the closure and both program counters stay consistent in every interleaving |
| `CrossCoreCall.ExactlyOneTransitionWins` | apex_core/include/apex/core/cross_core_call.hpp:71-113 | At most one of the transitions 0 to 1, 0 to 2, 0 to 3 succeeds, and the caller's answer tells which |
| `CrossCoreCall.ReturnedValueIsTheResult` | apex_core/include/apex/core/cross_core_call.hpp:104-116 | A returned value is the result of the single run of the function and was completely written |
| `CrossCoreCall.AnswerFollowsRace` | apex_core/include/apex/core/cross_core_call.hpp:48-116 | In every run the caller's answer follows from what the actions did: the value the function returned, or its exception, if the target settled the status first; a timeout if the caller did; else only the exception of the post |
| `CrossCoreCall.ReturnedValueIsTheFunctions` | apex_core/include/apex/core/cross_core_call.hpp:66-116 | A returned value is what the one invocation of the function returned |
| `CrossCoreCall.NoExceptionUnlessThrown` | apex_core/include/apex/core/cross_core_call.hpp:66-102 | The caller gets FuncException only if the function, or storing its result, threw |
| `CrossCoreCall.SettledCallReturns` | apex_core/include/apex/core/cross_core_call.hpp:93-116 | Once the target has settled first, three more steps of the caller end with the function's value, or with its exception |
| `CrossCoreCall.PromptCallReturns` | apex_core/include/apex/core/cross_core_call.hpp:48-116 | For every value, a call whose function returns it in time returns it and frees the closure |
| `CrossCoreCall.PostThrewIff` | apex_core/include/apex/core/cross_core_call.hpp:92-101 | The caller sees a failed post exactly when the post failed |
| `CrossCoreCall.ClosureFate` | apex_core/src/core_engine.cpp:254-278 | The closure has been deleted exactly when its post failed, the shutdown dropped it, or its dispatch is over |
| `CrossCoreCall.NoWriteAfterReturn` | apex_core/include/apex/core/cross_core_call.hpp:62-116 | After a value was returned no continuation of the run writes the result |
| `CrossCoreCall.FreedExactlyOnce` | apex_core/src/core_engine.cpp:254-278 | The queued closure is deleted at most once, by the failed post, the dispatch or the shutdown, and exactly once when nobody holds it any more |
| `CrossCoreCall.TimeoutIsAmbiguous` | apex_core/include/apex/core/cross_core_call.hpp:104-108 | After a timeout both histories exist: one where the function has run, and one where it runs in no continuation |
| `TimerSpec.PendingIdsStayReserved` | apex_core/src/timing_wheel.cpp:187-208 | Through the callbacks of a tick, ids whose callback is still to come are never reissued, whatever the callbacks do |
| `TimerSpec.RunsKeepIds` | apex_core/src/timing_wheel.cpp:73-211 | Live, recyclable and pending ids stay disjoint, issued and non-zero in every run |
| `TimerSpec.WaitsForDeadline` | apex_core/src/timing_wheel.cpp:157-211 | An entry nobody touches neither fires nor disappears before its deadline tick |
| `TimerSpec.FiresOnTime` | apex_core/src/timing_wheel.cpp:157-211 | An entry whose deadline is n ticks ahead fires on exactly the (n+1)-th following tick unless touched first |
| `TimerSpec.StaleNeverFires` | apex_core/src/timing_wheel.cpp:164-172 | An entry whose deadline has passed never fires while nobody touches it |
| `TimerSpec.CancelledNeverFires` | apex_core/src/timing_wheel.cpp:115-132 | A cancelled entry is gone at once and never fires until a schedule hands its id out again |
| `TimerSpec.NoIdLost` | apex_core/src/timing_wheel.cpp:73-211 | In every run each id ever issued is live or recyclable: none leaks |
| `TimerSpec.SetOutsideFires` | apex_core/src/timing_wheel.cpp:73-155 | `schedule(n)` or `reschedule(id, n)` outside a callback fires on exactly the (n+1)-th following tick |
| `TimerSpec.SetInCallback` | apex_core/src/timing_wheel.cpp:187-211 | An entry set to n ticks inside a callback ends the tick with its deadline counted from that tick |
| `TimerSpec.SetInCallbackFires` | apex_core/src/timing_wheel.cpp:157-211 | An entry set to n ticks inside a callback fires on the n-th following tick if n >= 1 and never if n = 0 |
| `TimingWheel.SlotLists.Insert` | apex_core/src/timing_wheel.cpp:39-48 | Pushing an entry keeps every slot a doubly linked acyclic list and adds exactly that entry |
| `TimingWheel.SlotLists.Remove` | apex_core/src/timing_wheel.cpp:50-66 | Unlinking an entry anywhere in its list keeps the lists well formed and removes exactly that entry |
| `TimingWheel.SlotLists.RemoveAll` | apex_core/src/timing_wheel.cpp:174-178 | Unlinking the collected entries removes exactly those |
| `TimingWheel.SlotLists.CollectDue` | apex_core/src/timing_wheel.cpp:161-172 | Walking a slot's list terminates and collects exactly its entries due now, each once |
| `TimingWheel.IntrusiveWheel.constructor` | apex_core/src/timing_wheel.cpp:20-26 | A new wheel refines the empty map at tick 0 |
| `TimingWheel.IntrusiveWheel.Schedule` | apex_core/src/timing_wheel.cpp:73-113 | Refines adding an id with its deadline; out-of-range requests change nothing; the id is the one the specification hands out |
| `TimingWheel.IntrusiveWheel.Cancel` | apex_core/src/timing_wheel.cpp:115-132 | Refines removing the id and making it recyclable; unknown ids are ignored |
| `TimingWheel.IntrusiveWheel.Reschedule` | apex_core/src/timing_wheel.cpp:134-155 | Refines changing the deadline of the same entry; unknown ids and out-of-range requests change nothing |
| `TimingWheel.IntrusiveWheel.RunCallback` | apex_core/src/timing_wheel.cpp:190-194 | Whatever an expiry callback does to the wheel, the refinement and the reserved ids survive it |
| `TimingWheel.IntrusiveWheel.TakeDue` | apex_core/src/timing_wheel.cpp:159-185 | The first phases of a tick take exactly the due entries out of lists and vector and leave all others |
| `TimingWheel.IntrusiveWheel.FireAll` | apex_core/src/timing_wheel.cpp:187-208 | Callbacks run one per expired entry in order, each id becoming recyclable only after its own callback |
| `TimingWheel.IntrusiveWheel.Tick` | apex_core/src/timing_wheel.cpp:157-211 | A tick calls back exactly once for exactly the entries due at it and refines the specification's tick, callbacks included |
| `SessionSpec.CreateKeepsInv` | apex_core/src/session_manager.cpp:20-51 | Creating a session keeps live timers, timer index and embedded timer ids exact inverses |
| `SessionSpec.RemoveKeepsInv` | apex_core/src/session_manager.cpp:53-79 | Removing a session keeps them inverses, and every issued id live or notified once |
| `SessionSpec.TouchKeepsInv` | apex_core/src/session_manager.cpp:87-103 | Touching a session keeps them inverses, each timer due H ticks after its session's last touch |
| `SessionSpec.TickTimesOut` | apex_core/src/session_manager.cpp:105-118 | A tick removes exactly the sessions whose timer is due, notifying each once, and nobody else |
| `SessionSpec.RunsKeepInv` | apex_core/src/session_manager.cpp:20-193 | In every run of a new manager with 0 < H < slots the indexes are inverses and every id ever issued is live or was notified exactly once, never both |
| `SessionSpec.IdleSessionSurvives` | apex_core/src/session_manager.cpp:87-118 | In every run of a new manager a session left alone is still there until H ticks after its last touch have passed |
| `SessionSpec.IdleSessionTimesOut` | apex_core/src/session_manager.cpp:105-193 | In every run of a new manager a session left alone times out on exactly the (H+1)-th tick after its last touch |
| `SessionSpec.SilentSessionSurvives` | apex_core/src/session_manager.cpp:20-118 | After the creation of a session, or a touch while it is there, a session left alone is present through H more ticks, whatever happens to others |
| `SessionSpec.SilentSessionTimesOut` | apex_core/src/session_manager.cpp:20-193 | And the (H+1)-th tick times it out |
| `SessionSpec.RemoveIsFinal` | apex_core/src/session_manager.cpp:53-79 | A removed session is gone for good, notified as removed exactly once and never timed out |
| `SessionSpec.GoneForever` | apex_core/src/session_manager.cpp:20-193 | A session that left never comes back and is not timed out afterwards |
| `SessionSpec.OthersUnchanged` | apex_core/src/session_manager.cpp:20-103 | Creating, removing or touching a session changes nothing about the others, their timers included, and notifies nobody else |
| `SessionSpec.SessionsAreTheAged` | apex_core/src/session_manager.cpp:20-193 | In every run of every manager, heartbeat off or on, exactly those sessions exist that were created, not removed, and created or touched at most H ticks ago; the reference knows no timers |
| `SessionManager.Manager.CreateSession` | apex_core/src/session_manager.cpp:20-51 | The object over the linked-list wheel does what the specification says, and tells a failed timer apart |
| `SessionManager.Manager.RemoveSession` | apex_core/src/session_manager.cpp:53-79 | Same for removal, unknown ids ignored |
| `SessionManager.Manager.TouchSession` | apex_core/src/session_manager.cpp:87-103 | Same for touch, including sessions without a timer |
| `SessionManager.Manager.OnTimerExpire` | apex_core/src/session_manager.cpp:143-193 | Same for the expiry of one timer |
| `SessionManager.Manager.Tick` | apex_core/src/session_manager.cpp:105-108 | Same for a whole tick |
| `RingBuffer.RingSplit` | apex_core/src/ring_buffer.cpp:98-129 | Reading a + b bytes is reading a bytes and then b bytes from where those end, across the physical end |
| `RingBuffer.IndexAdvances` | apex_core/src/ring_buffer.cpp:65-95 | Advancing a counter moves its physical index forward, also when the counter wraps at 2^64 |
| `RingBuffer.ByteRing.Create` | apex_core/src/ring_buffer.cpp:28-45 | The capacity is the least power of two that holds the request; refusal exactly when none fits a word |
| `RingBuffer.ByteRing.Writable` | apex_core/src/ring_buffer.cpp:59-68 | The span is free, starts right behind the contents, is empty only when the ring is full and shorter than the free space only at the physical end |
| `RingBuffer.ByteRing.CommitWrite` | apex_core/src/ring_buffer.cpp:70-74 | Appends the bytes present behind the contents, clamped to the free space |
| `RingBuffer.ByteRing.Consume` | apex_core/src/ring_buffer.cpp:92-96 | Drops the first n bytes, clamped to what is there |
| `RingBuffer.ByteRing.Write` | apex_core/src/ring_buffer.cpp:131-156 | Appends all of the data or nothing, and succeeds exactly when it fits |
| `RingBuffer.ByteRing.Linearize` | apex_core/src/ring_buffer.cpp:98-129 | Returns the first n bytes in place or copied, changes no contents, fails exactly on too little data or a failed reallocation, and grows the scratch buffer exactly when it wraps and is too small |
| `RingBuffer.ByteRing.ShrinkToFit` | apex_core/src/ring_buffer.cpp:177-204 | Frees the scratch buffer of an empty ring, cuts one of at least four times the usage to twice the usage when that reallocation succeeds, keeps it otherwise, and never changes the contents |
| `RingBuffer.ByteRing.Reset` | apex_core/src/ring_buffer.cpp:168-175 | Empties the ring and drops the scratch buffer |
| `WireHeader.HeaderRoundTrip` | apex_core/src/wire_header.cpp:58-116 | Parsing a serialized header gives it back if and only if it has the current version and an admissible body size |
| `WireHeader.ParsedSerializesBack` | apex_core/src/wire_header.cpp:58-116 | Serializing a parsed header gives back the bytes it came from |
| `WireHeader.SerializedLayout` | apex_core/src/wire_header.cpp:96-116 | Version, flags, message id in bytes 2 to 5, body size in 6 to 9, reserved in 10 and 11, most significant byte first |
| `WireHeader.ParsedLayout` | apex_core/src/wire_header.cpp:58-94 | Parsing reads the same places; too short, a foreign version and too large a body are the only errors, in this order |
| `FrameCodec.FrameRoundTrip` | apex_core/src/frame_codec.cpp:24-138 | Decoding an encoded frame, whatever follows it, gives it back if and only if header and payload are admissible |
| `FrameCodec.DecodedEncodesBack` | apex_core/src/frame_codec.cpp:24-71 | A decoded frame encodes to exactly the bytes it was decoded from |
| `FrameCodec.TryDecode` | apex_core/src/frame_codec.cpp:24-66 | Decoding from the ring agrees with decoding its contents, on both linearize paths, and leaves the contents alone; when the scratch buffer cannot grow it reads through a null pointer exactly for a wrapped header, and reports missing data exactly for a wrapped frame with a body |
| `FrameCodec.WrappedFrameRun` | apex_core/src/frame_codec.cpp:31-61 | A ring in which a complete frame is reported as missing data, or its header read through a null pointer, for want of memory |
| `FrameCodec.Encode` | apex_core/src/frame_codec.cpp:73-115 | Appends the whole frame or nothing, and succeeds exactly when sizes agree and it fits |
| `FrameCodec.EncodeTo` | apex_core/src/frame_codec.cpp:117-138 | Writes the frame at the start of the span and nothing else, or returns 0 and writes nothing |
| `ConnectionHandler.GreedyPartitions` | apex_core/include/apex/core/connection_handler.hpp:165-229 | The greedy parse splits a byte string into complete frames and a rest that holds no complete frame |
| `ConnectionHandler.GreedyAppend` | apex_core/include/apex/core/connection_handler.hpp:165-229 | Parsing more data equals continuing the parse from the rest |
| `ConnectionHandler.FeedIsGreedy` | apex_core/include/apex/core/connection_handler.hpp:115-149 | For every split into reads, parsing read by read equals parsing everything at once |
| `ConnectionHandler.ProcessFrames` | apex_core/include/apex/core/connection_handler.hpp:165-229 | The frame loop terminates, the dispatched frames and the remaining contents are exactly the old contents, and it stops because data is missing, memory for a complete frame is missing, the header is malformed, a handler closed the session, or the header was read through a null pointer |
| `ConnectionHandler.ReadLoop` | apex_core/include/apex/core/connection_handler.hpp:115-149 | For every stream, every sequence of read sizes, every way the session gets closed and every failure of the scratch buffer to grow, received bytes are the dispatched frames and the buffered rest, the ending is explained, and a complete frame is left over only when memory was refused; a peer that keeps sending is read to the end unless the loop ended for another reason |
| `ConnectionHandler.ReadLoopIsGreedy` | apex_core/include/apex/core/connection_handler.hpp:115-229 | The frames dispatched so far begin the greedy parse of the bytes received so far, and are all of it unless a handler closed the session, the loop crashed, or a complete frame was held back for want of memory, when they are not |
| `ConnectionHandler.FullMeansTooLarge` | apex_core/include/apex/core/connection_handler.hpp:121-126 | A ring of at least 12 bytes that is full and still waits for data holds the start of a frame larger than the ring |
| `ConnectionLimiter.Limiter.TryIncrement` | apex_core/src/connection_limiter.cpp:20-37 | Counts up exactly when the IP is named and below the limit, and leaves no zero entry behind |
| `ConnectionLimiter.Limiter.Decrement` | apex_core/src/connection_limiter.cpp:39-55 | Counts down, removes the entry at zero, tolerates unknown IPs |
| `ConnectionLimiter.RunsKeepLedger` | apex_core/include/apex/core/listener.hpp:304-346 | In every run the owner's count is at most the increments still owed and at least that minus the compensations run |
| `ConnectionLimiter.LiveWithinLimitPlusDrift` | apex_core/include/apex/core/listener.hpp:304-346 | Live sessions of an IP over all cores never exceed the limit plus the compensations posted for it |
| `ConnectionLimiter.ExactWithoutFailures` | apex_core/include/apex/core/listener.hpp:228-251 | Without compensations the count is exact: the limit holds and nobody is refused below it |
| `ConnectionLimiter.TrackedCountsInRange` | apex_core/src/connection_limiter.cpp:20-55 | Every tracked count stays between 1 and the limit |
| `ConnectionLimiter.DriftIsReached` | apex_core/include/apex/core/listener.hpp:322-333 | The bound is tight: for every limit and every number of compensations a run reaches their sum |
| `ConnectionLimiter.LiveIsTally` | apex_core/include/apex/core/listener.hpp:304-346 | In every run the live sessions of an IP are those admitted locally plus the remote grants answered, less the closes of both kinds; the posted releases likewise |
| `ConnectionLimiter.CallsAreTally` | apex_core/include/apex/core/listener.hpp:317-321 | In every run the calls waiting, started and abandoned are what the actions on the IP add up to |
| `ConnectionLimiter.GrantsAreTally` | apex_core/include/apex/core/listener.hpp:317-334 | The same for grants and refusals on their way to the caller and for increments nobody waits for |
| `ConnectionLimiter.CompensationsAreTally` | apex_core/include/apex/core/listener.hpp:322-333 | Every call given up posts one compensation, and nothing else does |
| `ConnectionLimiter.RemoteAccept` | apex_core/include/apex/core/listener.hpp:304-346 | From any moment of any run the remote path of four steps ends, below the limit, with one more live session and one more in the count, and at the limit with a refusal and everything as before |
| `ConnectionLimiter.RemoteClose` | apex_core/include/apex/core/listener.hpp:228-251 | A session closed away from its owner gives its place back once the release has run |
| `WritePump.Session.EnqueueWrite` | apex_core/src/session.cpp:105-130 | Refuses exactly a closed session or a full queue, else queues the request and starts a pump if none runs |
| `WritePump.Session.EnqueueAndAwait` | apex_core/src/session.cpp:197-229 | Same for an awaiting sender, without looking at the session state |
| `WritePump.Session.CloseSession` | apex_core/src/session.cpp:91-101 | Closes the session and touches neither queue nor pump |
| `WritePump.Session.Resume` | apex_core/src/session.cpp:149-158 | A started pump hands over the first request, or ends when the queue is empty or the session closed |
| `WritePump.Session.WriteCompleted` | apex_core/src/session.cpp:149-195 | A completed write answers its own sender and hands over the next request; a failed one answers every queued sender and closes |
| `WritePump.OneWriteInFlight` | apex_core/src/session.cpp:105-195 | In every interleaving at most one write is in flight, and an open session without a pump has an empty queue |
| `WritePump.HandedIsPrefixOfAccepted` | apex_core/src/session.cpp:149-195 | The socket receives a prefix of the accepted requests in order; while open, the rest is exactly the queue |
| `WritePump.AcceptedIsRequested` | apex_core/src/session.cpp:105-229 | In every run the accepted requests are exactly the sends that found room, and for plain sends an open session, each with its own data and in order, and the socket is handed a prefix of them |
| `WritePump.SentMeansWritten` | apex_core/src/session.cpp:187-192 | A sender is told ok only if its own request was handed over and that write succeeded |
| `WritePump.NoReplyLost` | apex_core/src/session.cpp:149-229 | An awaiting sender has its answer exactly when its request is neither queued nor in flight |
| `WritePump.AnswerableIffNotStranded` | apex_core/src/session.cpp:149-195 | A queued awaiting sender can still be answered if and only if the session is open or a write is in flight |
| `WritePump.CloseStrandsSender` | apex_core/src/session.cpp:91-101 | A run in which close during a succeeding write leaves the sender behind it waiting for good |
| `PendingRequests.Router.GenerateCorrId` | apex_services/gateway/src/message_router.cpp:55-64 | The counter advances with 64-bit wrap; the id carries the core above and the low 48 counter bits below |
| `PendingRequests.CorrIdCollides` | apex_services/gateway/src/message_router.cpp:55-64 | Two ids are equal if and only if core and low 48 counter bits are |
| `PendingRequests.CorrIdZero` | apex_services/gateway/src/message_router.cpp:55-64 | The push marker 0 is generated exactly by core 0 when its counter is a multiple of 2^48 |
| `PendingRequests.CorrIdFitsWord` | apex_services/gateway/src/message_router.cpp:55-64 | With a 16-bit core id every correlation id fits 64 bits, whatever the counter |
| `PendingRequests.PendingMap.Insert` | apex_services/gateway/src/pending_requests.cpp:16-32 | Refuses exactly when full; an id already present keeps its entry |
| `PendingRequests.PendingMap.Extract` | apex_services/gateway/src/pending_requests.cpp:34-43 | Returns and removes the entry of the id, or nothing |
| `PendingRequests.PendingMap.SweepExpired` | apex_services/gateway/src/pending_requests.cpp:45-61 | Removes exactly the entries whose deadline has come, calling back once for each |
| `GatewayCorrelation.RunsKeepInv` | apex_services/gateway/src/gateway_service.cpp:484-557 | In runs of any length every pending entry belongs to one unclosed request with that core, session, message and id, and every ending to the request it names |
| `GatewayCorrelation.ClosedAtMostOnce` | apex_services/gateway/src/gateway_service.cpp:528-557 | In runs of any length a registered request is closed at most once, by response, timeout or route failure |
| `GatewayCorrelation.FrameGoesToRequester` | apex_services/gateway/src/response_dispatcher.cpp:106-136 | In runs of any length the frame that ends a request goes to the session and core that made it |
| `GatewayBounds.PendingIsUnanswered` | apex_services/gateway/src/pending_requests.cpp:16-61 | Below 2^48 requests per core the pending maps hold exactly the unclosed requests, each on its own core under its own id and session |
| `GatewayBounds.ResponseEffect` | apex_services/gateway/src/response_dispatcher.cpp:99-136 | Below 2^48 requests per core a response ends a request exactly when it names its core and id and the request is not closed, with a frame to its session if that is found, open and has room in its write queue |
| `GatewayBounds.ReceivedEffect` | apex_services/gateway/src/response_dispatcher.cpp:40-136 | Below 2^48 requests per core, a received response ends exactly the unclosed request it names: answered with a frame if it is well-formed, else without one; a push or an unknown core never reaches a pending map |
| `GatewayBounds.AnsweredWasReceived` | apex_services/gateway/src/response_dispatcher.cpp:99-136 | In runs of any length a request ends as answered only by a well-formed response received for its core and id, and as undeliverable only by a malformed one |
| `GatewayBounds.UselessResponse` | apex_services/gateway/src/response_dispatcher.cpp:99-136 | A late, duplicate, forged or wrong-core response, one that fits no unclosed request, changes nothing |
| `GatewayCorrelation.HandleEffect` | apex_services/gateway/src/gateway_service.cpp:528-557 | A full map only numbers the request and sends it an error frame, if its session takes it; otherwise a routed request gets its own entry if and only if its id is not pending, and a failed route ends it with a frame to the requester, if that takes it, and leaves the maps alone under the same condition |
| `GatewayCorrelation.SweepEffect` | apex_services/gateway/src/pending_requests.cpp:45-61 | Sweeping a list of entries ends their requests in that order, each with a frame to its own session if that takes it at that moment, and touches nothing else |
| `GatewayCorrelation.SweepClosesExpired` | apex_services/gateway/src/gateway_service.cpp:484-503 | A sweep at a given time ends exactly the requests of its core whose deadline has come, each once, with a timeout frame to its own session if that is found, open and has room in its write queue at that moment |
| `GatewayBounds.SweptIffDue` | apex_services/gateway/src/pending_requests.cpp:45-61 | Below 2^48 requests per core a sweep ends a request exactly when it is on that core and its deadline has come |
| `GatewayBounds.TimesOutIff` | apex_services/gateway/src/pending_requests.cpp:16-61 | A request routed at one time is ended by a sweep at another if and only if the timeout has passed in between |
| `GatewayBounds.NextIdIsFresh` | apex_services/gateway/src/message_router.cpp:55-64 | Below 2^48 requests a new request's id is no other request's and never 0 |
| `GatewayCorrelation.OwnAnswerIff` | apex_services/gateway/src/gateway_service.cpp:528-557 | In runs of any length a routed request can still be timed out if and only if its id was not pending when it was numbered, and can still be answered if and only if moreover its id is not 0 |
| `GatewayCorrelation.LostForever` | apex_services/gateway/src/pending_requests.cpp:16-43 | A request that is neither closed nor stored is never closed in any continuation |
| `GatewayBounds.EveryRequestIsAnswerable` | apex_services/gateway/src/gateway_service.cpp:528-557 | Below 2^48 requests per core every routed request can be answered |
| `GatewayBounds.WrappedIdMisdelivers` | apex_services/gateway/src/pending_requests.cpp:16-32 | On any core of a gateway that may hold two entries, a run past 2^48 requests ends with the answer to one session's request delivered to another session, the request itself being lost |
| `SlabAllocator.LinkedUnique` | apex_core/src/slab_allocator.cpp:92-99 | The memory determines the free list, which is therefore finite and acyclic |
| `SlabAllocator.Conservation` | apex_core/src/slab_allocator.cpp:202-205 | Free slots and handed-out slots add up to the total |
| `SlabAllocator.SlotSizeHolds` | apex_core/src/slab_allocator.cpp:38-40 | A slot holds the requested size and a list node and keeps the alignment, and has size 0 exactly when the rounding wraps |
| `SlabAllocator.ChunkCovers` | apex_core/src/slab_allocator.cpp:69-81 | The heap is asked for at least the size of the slots if and only if that size plus 63 fits a word, else for no bytes |
| `SlabAllocator.EmptyChunkIsAccepted` | apex_core/src/slab_allocator.cpp:69-81 | 2^60 - 1 slots of 16 bytes pass the overflow test and get a chunk of no bytes |
| `SlabAllocator.SlotsDoNotOverlap` | apex_core/src/slab_allocator.cpp:92-99 | Different slots of a sound pool occupy disjoint memory, whichever chunks they come from |
| `SlabAllocator.SlotIsUsable` | apex_core/src/slab_allocator.cpp:92-99 | Every slot of a sound pool lies inside memory the heap gave, at a multiple of the strictest alignment |
| `SlabAllocator.Slab.Create` | apex_core/src/slab_allocator.cpp:38-51 | Refuses exactly a zero count, a first chunk whose size does not fit a word and a failing heap; else all slots are free, and they have a size and lie in memory of their own if and only if neither the rounding of the slot size nor that of the chunk size wraps |
| `SlabAllocator.Slab.Grow` | apex_core/src/slab_allocator.cpp:65-103 | Adds the new slots in front of the list in address order, or nothing when the size overflows or the heap fails; the new chunk covers its slots if and only if rounding its size up to 64 does not wrap |
| `SlabAllocator.Slab.GrowthRule` | apex_core/src/slab_allocator.cpp:107-128 | An exhausted pool grows by the configured chunk, or by its initial count when none is configured, never beyond the maximum, and not at all without auto_grow |
| `SlabAllocator.Slab.Allocate` | apex_core/src/slab_allocator.cpp:105-145 | Hands out a slot nobody holds; fails exactly when the list is empty and growth is not allowed, throws exactly when growth overflows or the heap fails; the total never exceeds max(initial, maximum); the pool stays sound if and only if it did not grow or the size of the new chunk did not wrap |
| `SlabAllocator.Slab.Deallocate` | apex_core/src/slab_allocator.cpp:156-183 | Takes the slot back exactly when its magic is not the freed marker; freeing a listed slot changes only the double-free counter |
| `SlabAllocator.Slab.OwnerWrites` | apex_core/src/slab_allocator.cpp:165-169 | Whatever an owner writes into its slot, link and magic included, the free list stays intact |
| `SlabAllocator.Slab.AllocatedCount` | apex_core/src/slab_allocator.cpp:202-205 | The difference of the counters is the number of slots handed out |
| `SlabAllocator.Owns` | apex_core/src/slab_allocator.cpp:185-200 | True exactly of the addresses of slots, for chunks that do not overlap |
| `SlabAllocator.Slab.OwnsAddress` | apex_core/src/slab_allocator.cpp:185-200 | For a sound pool, true exactly of the addresses of its slots |
| `Bits.NextPowerOf2IsLeast` | apex_core/include/apex/core/detail/math_utils.hpp:13-33 | The result is the least power of two at or above the argument, or 0 exactly when none fits a word |
| `Bits.AlignUpIsLeast` | apex_core/src/bump_allocator.cpp:67-70 | The mask formula gives the least multiple of the alignment at or above the address |
| `Bits.AlignUpOnWords` | apex_core/src/slab_allocator.cpp:29-32 | On every word the formula gives the least multiple at or above it, or 0 exactly when that multiple is 2^64 |
| `Bits.PowerOfTwoTest` | apex_core/src/bump_allocator.cpp:61-62 | For positive v, `v & (v - 1)` is zero exactly for powers of two |
| `Bits.MaskIsMod` | apex_core/src/ring_buffer.cpp:65-66 | Masking with 2^k - 1 is the remainder by 2^k |
| `Arena.BadRequestIff` | apex_core/src/arena_allocator.cpp:65-68 | A request is refused at once exactly when it asks for nothing or for an alignment that is no power of two |
| `Arena.PlacementIsLeast` | apex_core/src/arena_allocator.cpp:70-77 | The cursor is moved to the least aligned address at or above it when rounding up does not wrap |
| `Arena.PlacementWraps` | apex_core/src/arena_allocator.cpp:70-77 | When rounding up wraps, the formula yields address 0 |
| `Arena.FreshBlockFits` | apex_core/src/arena_allocator.cpp:85-105 | A new block always fits the request that caused it when size plus padding does not wrap |
| `Arena.FreshBlockEscapes` | apex_core/src/arena_allocator.cpp:85-105 | When size plus padding wraps, the placement leaves the address space in any block |
| `Arena.TotalFitsSpace` | apex_core/src/arena_allocator.cpp:87-97 | Blocks that do not overlap have a total size that fits a word, so the running total never wraps |
| `Arena.Bump.Allocate` | apex_core/src/bump_allocator.cpp:57-80 | Refuses exactly a bad request, a zero-capacity chunk or a placement the end test rejects; afterwards allocations are pairwise disjoint, aligned and inside the chunk if and only if neither sum wrapped |
| `Arena.Bump.Reset` | apex_core/src/bump_allocator.cpp:82-85 | Rewinds to the base with no allocation left |
| `Arena.ArenaAllocator.Allocate` | apex_core/src/arena_allocator.cpp:63-107 | Refuses exactly a bad request or a new block past the maximum; afterwards allocations are disjoint, aligned and inside an owned block, and the total is the sum of block sizes within max(block size, maximum), if and only if the sums of the path taken did not wrap |
| `Arena.WrappingSizeIsAccepted` | apex_core/src/bump_allocator.cpp:72-76 | From any cursor, the size that leads back to address 0 passes the end test and moves the cursor there |
| `Arena.WrapReachesNewBlock` | apex_core/src/arena_allocator.cpp:70-93 | A request whose size plus padding wraps reaches a new block if and only if even the wrapped end of its placement lies past the current block and the block asked for is within the maximum |
| `Arena.WrappedBlockRun` | apex_core/src/arena_allocator.cpp:63-107 | An arena with the default limits takes such a request to a second block and hands out a region that leaves the block |
| `Arena.ArenaAllocator.Reset` | apex_core/src/arena_allocator.cpp:109-123 | Keeps the first block, rewound |
| `Arena.ArenaAllocator.RebindMemory` | apex_core/src/arena_allocator.cpp:169-182 | One new empty block of the configured size |
| `Arena.ArenaAllocator.UsedBytes` | apex_core/src/arena_allocator.cpp:136-144 | The sum over the blocks of the bytes below the cursor, at most the total |
| `Arena.ArenaAllocator.Owns` | apex_core/src/arena_allocator.cpp:125-134 | True exactly of addresses inside a block |
| `Arena.EmptyMeansNoRegion` | apex_core/src/arena_allocator.cpp:169-171 | While an allocation lives, the used bytes are positive, so the assertion before rebinding excludes live allocations |
| `SlidingWindow.SlidingWindowCounter.Allow` | apex_shared/lib/rate_limit/src/sliding_window_counter.cpp:13-33 | Admits exactly when the estimate after advancing the window is below the limit, and counts the call |
| `SlidingWindow.SlidingWindowCounter.AdvanceWindow` | apex_shared/lib/rate_limit/src/sliding_window_counter.cpp:77-109 | Starts, keeps, rotates or resets the window |
| `SlidingWindow.SlidingWindowCounter.EstimatedCount` | apex_shared/lib/rate_limit/src/sliding_window_counter.cpp:35-67 | Working out the window itself gives the estimate that `allow` would test after advancing, for every reading of a started counter or an empty one |
| `SlidingWindow.CountersBounded` | apex_shared/lib/rate_limit/src/sliding_window_counter.cpp:13-33 | Both counters stay at or below the limit in every run |
| `SlidingWindow.AtMostTwiceTheLimit` | apex_shared/lib/rate_limit/src/sliding_window_counter.cpp:13-109 | Any interval of one window length contains at most 2 * limit admitted calls |
| `SlidingWindow.AtMostLimitPerWindow` | apex_shared/lib/rate_limit/src/sliding_window_counter.cpp:13-109 | One window admits at most the limit |
| `SlidingWindow.PredictionMatchesTest` | apex_shared/lib/rate_limit/src/sliding_window_counter.cpp:35-67 | After every run the pure estimate equals the one `allow` tests, so it predicts the answer |
| `SlidingWindow.AdmitsByTheRule` | apex_shared/lib/rate_limit/src/sliding_window_counter.cpp:13-109 | On every clock exactly those calls are admitted for which the calls admitted in this window, plus those of the window before weighted with the share still covered, are fewer than the limit; the two counters are those numbers |
| `RouteTable.Build` | apex_services/gateway/src/route_table.cpp:23-48 | Succeeds exactly when all ranges are well formed and pairwise disjoint, for every input order and every sorted arrangement |
| `RouteTable.CanArrange` | apex_services/gateway/src/route_table.cpp:23-48 | Every list of routes has an arrangement sorted by range end, so what `Build` asks of the library sort can be met |
| `RouteTable.Validate` | apex_services/gateway/src/route_table.cpp:62-75 | On a sorted table, comparing neighbours decides pairwise disjointness |
| `RouteTable.Resolve` | apex_services/gateway/src/route_table.cpp:50-60 | Binary search agrees with a linear scan of the original routes for every message id: the topic of the range that contains it, or nothing when none does |
| `RouteTable.LowerBound` | apex_services/gateway/src/route_table.cpp:52-53 | Finds the first position whose end is at or above the id |
| `Bcrypt.EncodeBase64` | apex_services/auth-svc/src/bcrypt/bcrypt.c:24-52 | The loop produces the encoding of the bytes, with one or two bytes left over too |
| `Bcrypt.DecodeBase64` | apex_services/auth-svc/src/bcrypt/bcrypt.c:60-87 | The loop agrees with the decoding function, early stops, invalid characters and reads past the end included |
| `Bcrypt.DecodePass` | apex_services/auth-svc/src/bcrypt/bcrypt.c:64-84 | One pass, read character by character, yields the bytes and the reason to stop that the specification gives |
| `Bcrypt.DecodeUndoesEncode` | apex_services/auth-svc/src/bcrypt/bcrypt.c:24-87 | Decoding undoes encoding for every byte string, whatever text follows |
| `Bcrypt.HashPw` | apex_services/auth-svc/src/bcrypt/bcrypt.c:383-443 | Parses marker, rounds and salt, and writes the salt prefix and the digest text |
| `Bcrypt.AcceptedIff` | apex_services/auth-svc/src/bcrypt/bcrypt.c:383-397 | A salt string is accepted exactly when it starts with one of the two markers, its rounds are 4 to 31 and sixteen bytes decode |
| `Bcrypt.AtoiReads` | apex_services/auth-svc/src/bcrypt/bcrypt.c:391-392 | The rounds are read after white space and a sign, up to the first character that is no digit |
| `Bcrypt.HashCarriesDigest` | apex_services/auth-svc/src/bcrypt/bcrypt.c:399-443 | Behind the 29 characters of salt a hash encodes the cipher's 23 bytes for its rounds, its salt bytes and the password's key |
| `Bcrypt.GeneratedHashCarriesDigest` | apex_services/auth-svc/src/bcrypt/bcrypt.c:366-443 | The same for a generated salt, with the clamped rounds and the random bytes |
| `Bcrypt.GroupIsNumber` | apex_services/auth-svc/src/bcrypt/bcrypt.c:24-52 | Four characters are the four digits of three bytes read as one number, most significant first |
| `Bcrypt.HashLength` | apex_services/auth-svc/src/bcrypt/bcrypt.c:432-443 | The result is exactly 60 characters if and only if the salt string has at least 29, else it is the 28-character salt itself |
| `Bcrypt.ShortSaltIsAccepted` | apex_services/auth-svc/src/bcrypt/bcrypt.c:54-87 | A 28-character salt string that parses and is its own hash |
| `Bcrypt.VerifiesAnyIffShort` | apex_services/auth-svc/src/bcrypt/bcrypt.c:445-463 | A stored text that parses verifies with every password under every cipher if and only if it is shorter than 29 characters |
| `Bcrypt.ReparseIsSame` | apex_services/auth-svc/src/bcrypt/bcrypt.c:383-443 | A hash made with a standard salt parses to the same rounds and salt, so it hashes every password alike |
| `Bcrypt.KeyDecides` | apex_services/auth-svc/src/bcrypt/bcrypt.c:399-401 | Two passwords give the same key exactly when they are equal or agree on their first 72 characters, both having that many |
| `Bcrypt.KeyIsPassword` | apex_services/auth-svc/src/bcrypt/bcrypt.c:399-401 | The key is the password and its terminator, cut at 72 bytes |
| `Bcrypt.GensaltIsAccepted` | apex_services/auth-svc/src/bcrypt/bcrypt.c:366-381 | Every generated salt has 29 characters and carries the clamped rounds and the random bytes |
| `Bcrypt.GensaltRoundTrip` | apex_services/auth-svc/src/bcrypt/bcrypt.c:366-463 | For every password and every generated salt the hash has 60 characters and verifies |
| `Bcrypt.CheckPw` | apex_services/auth-svc/src/bcrypt/bcrypt.c:445-463 | 0 exactly when the password hashes to the stored text, -1 exactly when the stored text does not parse |
| `Bcrypt.ChecksIffSameDigest` | apex_services/auth-svc/src/bcrypt/bcrypt.c:383-463 | A password checks against the hash of another if and only if the cipher gives both keys the same 23 bytes |
| `Bcrypt.HashThenCheck` | apex_services/auth-svc/src/bcrypt/bcrypt.c:366-463 | Hashing one password and checking another returns 0 exactly then; so, for a cipher that tells their keys apart, exactly when they are equal or agree on 72 characters |

## Left out

- Weak memory: every atomic access is one step in a single order, so the results are about sequentially consistent interleavings; the re-check after a drain uses relaxed loads (spsc_queue.hpp:272-275).
- Counters of the SPSC rings, the MPSC queue and the wheel's tick are unbounded naturals; only the MPSC subtraction, the ring buffer counters and the correlation counter model the 64-bit wrap.
- The mesh, the queues and the drain handler are machines over values instead of classes, because their methods interleave; update in place shows as slot sequences in the state.
- One target core's inbox is modelled; the mesh is the product of such inboxes, which share nothing.
- The suspend and resume handshake of `SpscQueue::enqueue`: a blocking post is either an append or an exception.
- The fallback that posts through the event loop when the sender is not a core thread.
- Handlers that throw during a drain, and queued drains dropped by a shutdown.
- The `void` overload of `cross_core_call` (cross_core_call.hpp:119-192): the same protocol without a result.
- The event loop's own scheduling: progress is counted in steps of the target core, and nothing says when it gets them.
- Session-manager callbacks that change the manager, the shrink counter of `tick`, and the slab or heap origin of a session object.
- Frames carry their payload as a value, so the lifetime of the payload span is not modelled.
- The WebSocket branch of the read loop, and the error frame sent after a failed dispatch.
- The FNV-1a hash that picks an IP's owner core: only that all cores agree on the owner is used.
- Sessions whose address is empty are not limited, as in the source, and have no ledger.
- The push path of the response dispatcher (correlation id 0), whose session ids are unique only per core.
- Parsing of response envelopes: a response is its core, its correlation id and whether its payload offset is in range.
- `Arena.ArenaAllocator.Allocate`: where malloc puts a new block is an argument, apart from the blocks still owned; moved-from arenas are not modelled.
- `SlabAllocator.Slab.Grow`: the branch for Microsoft's compiler, which does not round the size up; where the heap puts a chunk is an argument, apart from the chunks still owned. Writes to slots outside their chunk are not followed further: such a pool is only said to be unsound.
- Failing system allocations other than those of the scratch buffer and of the slab allocator's chunks.
- Sliding-window arithmetic is exact; rounding of doubles is not modelled, and the last-access time has no effect.
- `RouteTable.Build`: the library sort is any arrangement ordered by range end, passed as an argument; `RouteTable.CanArrange` shows that there is one.
- The Blowfish rounds: the cipher is any function of rounds, salt, key and output position, so nothing is said about interoperability.
- `Bcrypt.HashPw`: output buffers are strings whose length is proved below the buffer size, and `atoi` is unbounded, its overflow being undefined in the source; a failing random source is not modelled.
- The write pump's object lifetime, send timeouts and the bytes a partial write transferred.
- Metrics, logging, configuration, NUMA, TLS, Kafka, Redis and the services behind the gateway: foreign calls or easy members.
- The rate limiters by IP and user, the channel map and the pub/sub listener: easier members of the same kind.
