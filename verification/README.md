# Proofs about the heap profiler

The program under study is a heap profiler for Mono games. An instrumented application reports allocations through a
lock-free queue. A worker mirrors the heap and runs its own mark-sweep. A client stores the events and answers
questions about them. This project models the parts with the hardest behaviour and proves what they promise.

- **The queue** (`common/concurrentqueue.h`). `FreeList`, `DequeueTickets`, `ImplicitProducerHash` and `ConcurrentRing`
  are step systems: any number of threads, one atomic operation per step, every interleaving. Each has an inductive
  invariant over ghost history. `FreeListCalls`, `ImplicitProducerCalls` and `LoneRing` say what whole calls achieve and
  that a call that runs alone ends. `BlockRing`, `ExplicitProducer` and `ProducerList` are the sequential queue, with wrapped
  64-bit indices, block reuse and a doubling index, proved against `QueueSpec`. `SleepingConsumer` is a run of the ticket
  protocol that goes wrong. `CircularIndex` and `BlockIndex` are the wrap-around arithmetic.
- **The shadow heap** (`server/src/worker_thread.cpp`). `WorkerThread` is the class; `HeapGraph`, `Marking` and
  `Ancestry` say what marking and the ancestor search compute; `ShadowRuns` and `ReportedEvents` prove properties of
  whole runs.
- **The event store** (`client/src/mono_profiler_client.cpp`). `EventLog`, `EventStore`, `FrameStats`, `LiveObjects`;
  `LiveBytes` proves that the two queries agree, and `EndToEnd` that they do so for what the worker reports.
- **The wire format**. `WireFormat` holds encoders and parsers as functions, `WireCode` the classes that write and read.
- **Detours**. `A64`, `A64Moves`, `A64Branches` and `A64Relocation` give a semantics to A64 branches (sections C4.1 and
  C6.2 of Arm DDI 0487) and prove what the relocated code does. `X64` and `X64Relocation` do the same for x64 relative
  operands. `TrampolineRegion` and `TrampolinePool` are the trampoline allocator.
- `Words`, `ByteOrder`, `Arithmetic` and `Wrappers` are shared.

`dafny verify dfyconfig.toml` checks everything.

Findings about the code that the proofs made explicit:

- A queue of exactly 2^63 elements can be built, because reusing a block is not guarded, and looks empty
  (`FullQueueLooksEmpty`).
- A consumer that sleeps between reading the overcommit count and checking its ticket while more than 2^63 attempts
  of others fail can pass on an empty queue, and more indices are claimed than were published (`SleeperOverclaims`). The
  check is fooled exactly when the excess of the ticket is above 2^63 modulo 2^64 (`CheckExact`); only the results on
  overclaiming exclude such checks.
- A sweep that drops an address whose allocation is queued breaks the event stream, and nothing else does
  (`StreamIffSafe`, `UnsafeRun`). Waiting for the queue to empty, as `do_gc_sync` does, is more than is needed
  (`WaitingIsSafe`).
- A second reference query in the same frame does not clear the visited flags, so that asking again about objects already
  listed gives no ancestors (`RepeatedQuery`); `AllFreshIff` says when a query is complete.
- A relocated B.AL or B.NV that is out of direct range never branches, and a CBZ or TBZ on x17 sent the long way tests
  the target address instead of the register. Relocation preserves every other branch and only those (`PreservesIff`).
- The reader of strings adds position and length in 64 bits, so that a length near 2^64 passes its bounds check
  (`OverrunMessage`, `ReadString`).
- A free message is accepted as soon as its frame can be read (`ReadFree`).
- A new trampoline region puts all slots but the first two on its free list; the comment in the source says all but
  the first. The proofs follow the code.
- `get_stats` does not end exactly when the window holds a row and both window and recording reach frame 2^64 - 1
  (`NeverEnds`).

## Model

| member | source | states |
|---|---|---|
| `FreeList.EveryBlockInOnePlace` | common/concurrentqueue.h:1438-1517 | in every interleaving every block is with one client, linked once, waiting for its last reference, or with one thread; its counter is the list's reference plus the threads' and its flag says it waits |
| `FreeList.NeverTwoOwners` | common/concurrentqueue.h:1469-1477 | a block `try_get` is about to return has no owner, is not linked and no other thread is after it |
| `FreeList.SwapsInTrueSuccessor` | common/concurrentqueue.h:1466-1469 | when the swap of the head succeeds, the link read before is still the head's successor, and the list just loses its head |
| `FreeList.NeverStuck` | common/concurrentqueue.h:1438-1517 | no thread ever follows a pointer to a block that does not exist |
| `FreeList.QuiescentPartition` | common/concurrentqueue.h:1438-1517 | with no call under way every block is with one client or linked once, and its counter says which |
| `FreeListCalls.TryGet` | common/concurrentqueue.h:1452-1490 | every call of `try_get`, under every interleaving, hands its client exactly one block, or none and then the list was empty at some moment of the call |
| `FreeListCalls.LoneGet` | common/concurrentqueue.h:1452-1490 | from every reachable state, the other threads stopped anywhere, `try_get` run alone ends; it takes the first block and leaves the rest linked, and leaves an empty list alone |
| `FreeListCalls.LoneAdd` | common/concurrentqueue.h:1438-1450 | from every reachable state `add` run alone ends; a block without references becomes the first of the list, any other one keeps its flag for the last holder |
| `FreeListCalls.LastDropLinks` | common/concurrentqueue.h:1482-1485 | whoever drops the last reference to a flagged block links it in front |
| `FreeListCalls.LoneCallEnds` | common/concurrentqueue.h:1438-1517 | from every reachable state, and from any point of a call, a thread that runs alone is back within 18 steps |
| `FreeList.RunInv` | common/concurrentqueue.h:1438-1517 | the invariant survives every run |
| `FreeList.StepInv` | common/concurrentqueue.h:1438-1517 | the invariant survives every atomic step of every thread |
| `FreeList.CasRefsStep` | common/concurrentqueue.h:1460-1464 | taking a reference only from a block whose count is not zero keeps the invariant |
| `FreeList.CasHeadStep` | common/concurrentqueue.h:1469-1473 | unlinking the head keeps the invariant |
| `FreeList.DropTwoStep` | common/concurrentqueue.h:1474-1476 | dropping the own and the list's reference hands the block to the caller and keeps the invariant |
| `FreeList.DropRefStep` | common/concurrentqueue.h:1482-1485 | dropping a reference to a stale head keeps the invariant; the last holder takes over a waiting block |
| `FreeList.AddFlagStep` | common/concurrentqueue.h:1443-1449 | flagging a block to be added keeps the invariant; it is re-added at once only if nobody refers to it |
| `FreeList.ReaddStoreNextStep` | common/concurrentqueue.h:1507 | rewriting the link of a block without references disturbs no reader |
| `FreeList.ReaddStoreRefsStep` | common/concurrentqueue.h:1508 | setting the count to one keeps the invariant |
| `FreeList.ReaddCasHeadStep` | common/concurrentqueue.h:1509 | linking the block in front keeps the invariant |
| `FreeList.ReaddGiveUpStep` | common/concurrentqueue.h:1509-1515 | a failed link leaves the block to whoever drops the last reference, or is tried again |
| `DequeueTickets.NeverOverclaims` | common/concurrentqueue.h:1942-1988 | unless a check is fooled, the consumers that ever pass the second check never outnumber the published elements |
| `DequeueTickets.ClaimsInOrder` | common/concurrentqueue.h:1988 | in every run the k-th claim gets index k: none is claimed twice, none skipped |
| `DequeueTickets.RegistersBalance` | common/concurrentqueue.h:1942-2032 | in every run the optimistic count is the overcommit count plus the head index plus the dequeues in flight |
| `DequeueTickets.LoneDequeue` | common/concurrentqueue.h:1942-2032 | after every run, with nothing in flight, a dequeue claims the head index exactly when the queued elements modulo 2^64 are between 1 and 2^63 - 1, and otherwise changes nothing; so it fails exactly on an empty queue as long as fewer than 2^63 are queued |
| `DequeueTickets.CheckExact` | common/concurrentqueue.h:1977 | the second check passes exactly when the excess of the ticket over the published elements is above 2^63 modulo 2^64; a ticket that is not below them passes exactly when the check is fooled |
| `SleepingConsumer.SleeperOverclaims` | common/concurrentqueue.h:1942-2032 | a run of three consumers in which more indices are claimed than elements were published |
| `SleepingConsumer.RoundRuns` | common/concurrentqueue.h:1947-2032 | one round of that run: two consumers race for one element, one claims it and one records a failure |
| `DequeueTickets.ShortRunsNeverFooled` | common/concurrentqueue.h:1942-2032 | in an interleaving of up to 2^63 steps no check is fooled |
| `DequeueTickets.ClaimsBelowTail` | common/concurrentqueue.h:1979-1988 | unless a check was fooled, an index is claimed only below the tail |
| `DequeueTickets.PassingFits` | common/concurrentqueue.h:2544-2546 | a ticket that passes, unless fooled, is smaller than the published elements plus the failed tickets below it |
| `DequeueTickets.FailInv` | common/concurrentqueue.h:2599 | recording a failed ticket keeps the invariant |
| `DequeueTickets.RunInv` | common/concurrentqueue.h:2536-2604 | the invariant survives every run |
| `ImplicitProducerHash.TablesNeverFill` | common/concurrentqueue.h:3374-3524 | every table, however old, always has fewer than three quarters of its slots in use |
| `ImplicitProducerHash.ProbesEnd` | common/concurrentqueue.h:3398-3434 | every probe loop has looked at fewer than three quarters of its table |
| `ImplicitProducerHash.OneProducerPerThread` | common/concurrentqueue.h:3374-3524 | all calls of a thread return the same producer, through any resizes, and two threads never share one |
| `ImplicitProducerCalls.EveryCallReturns` | common/concurrentqueue.h:3374-3524 | in every run a thread has got one result for each of its calls but the one under way, and all of them are its producer |
| `ImplicitProducerCalls.LoneCall` | common/concurrentqueue.h:3374-3524 | from every reachable state with the resize lock free, a call run alone ends; it returns the thread's producer, or the next new one if it had none, and leaves the thread in the newest table |
| `ImplicitProducerCalls.LoneRest` | common/concurrentqueue.h:3395-3524 | a call stopped at any point ends when its thread runs alone, unless another thread holds the resize lock |
| `ImplicitProducerCalls.WaitsForResize` | common/concurrentqueue.h:3441-3522 | with the lock held and no room in the newest table a call goes round in a circle |
| `ImplicitProducerHash.NeverStuck` | common/concurrentqueue.h:3395-3524 | no thread indexes outside a table |
| `ImplicitProducerHash.RunInv` | common/concurrentqueue.h:3374-3524 | the invariant survives every run |
| `ImplicitProducerHash.EmptySlotMeansAbsent` | common/concurrentqueue.h:3431-3433 | an empty slot on the probe sequence means the thread is not in the table |
| `ImplicitProducerHash.CasTables` | common/concurrentqueue.h:3420-3424 | entering a key keeps all tables well formed and the key findable |
| `ImplicitProducerHash.GrowStep` | common/concurrentqueue.h:3447-3471 | chaining in a larger table keeps the invariant |
| `CircularIndex.CircularLessExact` | common/concurrentqueue.h:468-480 | the wrapped comparison of counts less than 2^64 apart, and exactly when it is the true one |
| `BlockIndex.SlotHoldsBlock` | common/concurrentqueue.h:2936-2946 | with consecutive bases the computed slot holds the index rounded down to its block, for all wrapped indices and powers of two |
| `BlockIndex.SlotBehind` | common/concurrentqueue.h:1996-2002 | m blocks behind the newest one the code finds the slot m places before it, although it divides a negative offset as unsigned |
| `BlockRing.PutElement` | common/concurrentqueue.h:1932-1935 | constructing an element in the tail block appends it to the queue |
| `BlockRing.TakeElement` | common/concurrentqueue.h:2004-2026 | the slot of the oldest element holds it, and emptying and flagging it removes it from the queue |
| `BlockRing.OldestIsEmpty` | common/concurrentqueue.h:1842 | the block ahead is all flagged exactly when all its elements were dequeued |
| `BlockRing.ReuseOldest` | common/concurrentqueue.h:1842-1845 | reusing it keeps every block and its flags right |
| `BlockRing.ExtendRing` | common/concurrentqueue.h:1880-1897 | linking in a fresh block keeps the ring circular and in order |
| `BlockRing.MoveIndex` | common/concurrentqueue.h:2355-2362 | the index copied oldest first still names the ring's blocks with consecutive bases |
| `ConcurrentRing.GetsItsElement` | common/concurrentqueue.h:1988-2026 | with a producer and any number of consumers interleaved, a consumer that claimed index i moves out exactly the element of the i-th enqueue of the run, and nobody took it before |
| `ConcurrentRing.ReusedWhenDone` | common/concurrentqueue.h:1842-1845 | when a block is reused, all its elements were taken and flagged and no consumer is between claim and flag on one of them |
| `ConcurrentRing.TakenInOrder` | common/concurrentqueue.h:1988-2026 | every element taken is that of the enqueue with its index, and no two consumers are after the same index |
| `ConcurrentRing.PublishedAreEnqueued` | common/concurrentqueue.h:1834-1939 | in every run the constructed elements are those given to the enqueues, in order, and all enqueues but the one under way are published |
| `LoneRing.LoneEnqueue` | common/concurrentqueue.h:1834-1939 | from every reachable state an enqueue run alone ends with its element published; a block is added exactly if the tail block is full and the oldest has an element not yet flagged, otherwise the oldest is reused; the index doubles exactly if the ring fills it |
| `LoneRing.LoneConsume` | common/concurrentqueue.h:1988-2026 | a consumer with a claimed index, run alone, takes the element of that enqueue and flags it |
| `LoneRing.LoneTake` | common/concurrentqueue.h:1942-2026 | while an element is unclaimed, a dequeue run alone takes the first of these |
| `ConcurrentRing.NeverStuck` | common/concurrentqueue.h:1834-2037 | nobody indexes outside an array or a block or reads an empty cell |
| `ConcurrentRing.RunInv` | common/concurrentqueue.h:1834-2037 | the invariant of ring, index arrays, producer and consumers survives every run |
| `ConcurrentRing.ReadBlockInv` | common/concurrentqueue.h:1996-2002 | the block found through any index array, however outdated, is the one that holds the claimed element |
| `ConcurrentRing.ReuseInv` | common/concurrentqueue.h:1842-1845 | reusing a block keeps the invariant: index arrays still list every block that holds an element |
| `ConcurrentRing.GrowInv` | common/concurrentqueue.h:2341-2378 | replacing the index array by one twice the size keeps the invariant while consumers read the old one |
| `ConcurrentRing.FlagInv` | common/concurrentqueue.h:2026 | flagging a slot keeps the invariant while the producer tests flags |
| `ExplicitProducer.PlayRun` | common/concurrentqueue.h:1834-2037 | in every run of enqueues and dequeues, however long, each call has the outcome of the specification |
| `QueueSpec.IdealBelow` | common/concurrentqueue.h:1834-2037 | as long as fewer than 2^63 - 32 elements are queued, those outcomes are the ones of a first-in first-out queue that never refuses |
| `QueueSpec.FullQueueLooksEmpty` | common/concurrentqueue.h:1842-1862 | a run after which 2^63 elements are queued, through the unguarded reuse of a block, and nothing can be taken |
| `ExplicitProducer.ExplicitProducer.Enqueue` | common/concurrentqueue.h:1834-1937 | appends the element; refuses it exactly when the tail block is full, no block can be reused and 2^63 - 32 or more are queued |
| `ExplicitProducer.ExplicitProducer.Dequeue` | common/concurrentqueue.h:1940-2037 | removes and returns the oldest element; fails exactly on 0 or 2^63 elements |
| `ExplicitProducer.ExplicitProducer.StartBlock` | common/concurrentqueue.h:1838-1924 | reuses the oldest block exactly when all its elements are gone, else adds one unless the tail could pass the head; the queue is unchanged |
| `ExplicitProducer.ExplicitProducer.GrowRing` | common/concurrentqueue.h:1853-1898 | the ring and `pr_blockIndexSlotsUsed` grow together, the index doubling when full |
| `ExplicitProducer.ExplicitProducer.NewBlockIndex` | common/concurrentqueue.h:2341-2378 | a full index is doubled without losing or reordering an entry |
| `ExplicitProducer.CopyEntries` | common/concurrentqueue.h:2355-2362 | the copying loop ends after one round and puts the oldest entry first |
| `ExplicitProducer.ExplicitProducer.IsEmpty` | common/concurrentqueue.h:1549-1562 | says whether all flags of a block are set |
| `ExplicitProducer.ExplicitProducer.TakeHead` | common/concurrentqueue.h:1988-2028 | the block found through the index is the one that holds the oldest element |
| `ExplicitProducer.ExplicitProducer.SizeApprox` | common/concurrentqueue.h:1717-1722 | the exact size when nothing is under way, except that 2^63 reads as none |
| `ExplicitProducer.HeadSlot` | common/concurrentqueue.h:1991-2002 | the computed slot of the head index names the oldest element's block |
| `ProducerList.TryDequeue` | common/concurrentqueue.h:1104-1135 | fails exactly when no producer offers anything; otherwise the first of the fullest among the first three that offer something loses its head and no other changes |
| `ProducerList.PickBest` | common/concurrentqueue.h:1108-1120 | the first of the fullest among the first three producers that offer something |
| `WorkerThread.WorkerThread.AddAllocation` | server/src/worker_thread.cpp:193-234 | queues one allocation item |
| `WorkerThread.WorkerThread.WorkStep` | server/src/worker_thread.cpp:76-169 | one turn of the worker as a step of the run model |
| `ReportedEvents.EventsOfRun` | server/src/worker_thread.cpp:76-169 | in every run the queue is first-in first-out, and the reported events are, item by item, what each worked-off item causes: its own frame, address and size, nothing for a stopword, and a free in the same frame before a reallocation |
| `ReportedEvents.AllocationsReported` | server/src/worker_thread.cpp:137-168 | the reported allocations are exactly the worked-off tracked ones, in order, with frame, address and size |
| `ReportedEvents.CountersAreSums` | server/src/worker_thread.cpp:95-169 | in every run the two counters are the sums of the reported sizes, modulo 2^64 |
| `ReportedEvents.MarksRemembered` | server/src/worker_thread.cpp:137-166 | between passes an object keeps what the last pass found out about it, and a new one is neither marked nor a root and has no parents |
| `WorkerThread.WorkerThread.Mark` | server/src/worker_thread.cpp:265-341 | ends; marks exactly the tracked objects reachable from aligned root words through words at any byte offset; flags exactly those hit by a root word; parents list each marked object once per offset; scans each marked object once |
| `WorkerThread.WorkerThread.Sweep` | server/src/worker_thread.cpp:346-366 | keeps exactly the marked objects and queues a free with the right size for every other one |
| `WorkerThread.WorkerThread.CollectGarbage` | server/src/worker_thread.cpp:258-370 | a whole pass is a step of the run model, and a parents-only pass drops nothing |
| `WorkerThread.WorkerThread.FindReferences` | server/src/worker_thread.cpp:444-487 | ends; reports exactly the requested tracked addresses and what parents not yet visited lead to, described truly; flags exactly the parents of what it reports; at most one record per request and per object newly visited |
| `Ancestry.FirstQuery` | server/src/worker_thread.cpp:489-500 | with all flags clear, as a marking pass leaves them, exactly the ancestors are reported |
| `Ancestry.QueryAfterPass` | server/src/worker_thread.cpp:444-500 | after a marking pass a query reports exactly the ancestors; a record is called deleted iff its object is unreachable and root iff a root word hits it, and lists each reachable parent once per word that refers to it |
| `Ancestry.RepeatedQuery` | server/src/worker_thread.cpp:489-509 | a query without a marking pass in between, about objects already reported, gives those objects and no ancestors |
| `HeapGraph.AllFreshIff` | server/src/worker_thread.cpp:472-482 | unvisited parents lead to every ancestor exactly when every visited ancestor is itself requested |
| `Marking.RootPhaseStep` | server/src/worker_thread.cpp:287-298 | one root word keeps the invariant of the root loop |
| `Marking.MarkPhaseVisit` | server/src/worker_thread.cpp:322-339 | one byte offset keeps the invariant of the marking loop |
| `Marking.MarkPhaseEnd` | server/src/worker_thread.cpp:304-341 | with an empty stack the invariant is the promised result |
| `Marking.ParentsAreMarked` | server/src/worker_thread.cpp:327-366 | every recorded parent is marked, hence still tracked after the sweep |
| `Ancestry.SearchParent` | server/src/worker_thread.cpp:472-482 | one parent keeps the invariant of the search |
| `Ancestry.SearchEnd` | server/src/worker_thread.cpp:451-486 | with nothing left to look at, exactly what unvisited parents lead to is reported, within the bound |
| `HeapGraph.ClosedCoversReachable` | server/src/worker_thread.cpp:304-341 | a set closed under references that holds the roots holds everything reachable |
| `ShadowRuns.BytesConserved` | server/src/worker_thread.cpp:94-168 | over every run, allocated minus freed bytes are the tracked bytes plus those of queued frees, modulo 2^64, dropped stopword allocations included |
| `ShadowRuns.WorkBalanced` | server/src/worker_thread.cpp:94-168 | a worker step keeps that balance |
| `ShadowRuns.SweepBalanced` | server/src/worker_thread.cpp:347-363 | a sweep moves bytes from tracked to queued |
| `ShadowRuns.ParentsAlwaysTracked` | server/src/worker_thread.cpp:142-367 | in every reachable state every address in a parents list is tracked, across inserts, reallocations, parents-only passes and sweeps |
| `ShadowRuns.ReportedStream` | server/src/worker_thread.cpp:94-168 | if no sweep drops an address with an allocation queued, each address's events alternate, each free carries its alloc's size, and a replay gives the tracked objects plus those whose free is queued |
| `ShadowRuns.StreamIffSafe` | server/src/worker_thread.cpp:94-168 | a run that has worked off its queue reported a well-formed stream exactly under that condition |
| `ShadowRuns.UnsafeBreaks` | server/src/worker_thread.cpp:344-367 | any other sweep breaks the stream by the time the queue is worked off, whatever happens in between |
| `ShadowRuns.SweepInStep` | server/src/worker_thread.cpp:347-363 | a sweep that drops no address with an allocation queued keeps client and worker in step |
| `ShadowRuns.ReplayIffAlternates` | server/src/worker_thread.cpp:344-367 | a stream replays without contradiction exactly when every address alternates |
| `ShadowRuns.UnsafeRun` | server/src/worker_thread.cpp:413-419 | a concrete run, without the wait, whose stream breaks |
| `EventStore.RecordAll` | client/src/mono_profiler_client.cpp:192-240 | stored rows followed by the buffer are the received events in order; with frames in order the buffer is of the last frame and every closed frame's row is true, its size being all bytes allocated minus all bytes freed up to it; the known boundaries are the first frame and the largest |
| `EventStore.Client.ProcessEvent` | client/src/mono_profiler_client.cpp:319-451 | one message appends one event and keeps all invariants; at most 10000 events stay buffered |
| `EventStore.Client.Receive` | client/src/mono_profiler_client.cpp:319-345 | the same, before the check of the buffer's length |
| `EventStore.Client.TrySaveEvents` | client/src/mono_profiler_client.cpp:221-240 | another frame writes the buffer and the previous frame's row and starts counting again; the same frame changes nothing |
| `EventStore.Client.SaveFrameEvents` | client/src/mono_profiler_client.cpp:192-219 | writes every buffered event once and replaces the current frame's row |
| `EventStore.Client.GetOrCreateTypeId` | client/src/mono_profiler_client.cpp:160-173 | the number stands for the name, and all earlier numbers keep their names |
| `EventStore.Client.GetOrCreateCallstackId` | client/src/mono_profiler_client.cpp:176-189 | the same for callstacks |
| `EventStore.FrameClosed` | client/src/mono_profiler_client.cpp:216-238 | the row written when a later frame begins holds the frame's true counts and the bytes allocated minus the bytes freed up to its end |
| `FrameStats.GetStats` | client/src/mono_profiler_client.cpp:724-796 | if the window holds a row, frame by frame counts or 0 and the latest size at or before, up to the end of window or recording; else nothing; and the maxima of the rows |
| `FrameStats.NeverEnds` | client/src/mono_profiler_client.cpp:787-795 | the last loop is entered with a guard that holds of every frame number exactly when the window has a row and window and recording both end at 2^64 - 1 |
| `FrameStats.ReadRow` | client/src/mono_profiler_client.cpp:746-784 | fills the gap before a row and appends the row |
| `FrameStats.FillGap` | client/src/mono_profiler_client.cpp:757-776 | frames without a row get zero counts and the right size |
| `FrameStats.FillToEnd` | client/src/mono_profiler_client.cpp:787-795 | the same behind the last row |
| `FrameStats.LatestSizeMeans` | client/src/db_queries.cpp:153-157 | the latest size is that of the last row at or before the frame |
| `FrameStats.SelectFrames` | client/src/db_queries.cpp:197-202 | exactly the frames of the window with a row, ascending |
| `FrameStats.SizeIsTrue` | client/src/mono_profiler_client.cpp:726-733 | before the current frame every reported size is what the received events allocated up to it minus what they freed |
| `FrameStats.CountsAreTrue` | client/src/mono_profiler_client.cpp:746-784 | and so are the counts |
| `LiveObjects.LiveExactly` | client/src/mono_profiler_client.cpp:806-852 | an address is live iff it has an alloc after its last free, and shows address, size, frame, type and callstack of the earliest such alloc |
| `LiveObjects.GetLiveObjects` | client/src/mono_profiler_client.cpp:806-852 | lists each object of the replay once, or nothing if the progress function stops it |
| `LiveObjects.ReplayMerges` | client/src/mono_profiler_client.cpp:822-845 | the result after more events is determined by the result before and those events |
| `LiveObjects.WindowsMerge` | client/src/mono_profiler_client.cpp:806-852 | the answer for a window is determined by the answer for its first part and the events of the second |
| `LiveObjects.WindowSplits` | client/src/db_queries.cpp:179-184 | a window's rows are those of its two parts, one after the other |
| `LiveObjects.SelectedInOrder` | client/src/db_queries.cpp:179-184 | rows stored with frames in order come back in the order of insertion |
| `LiveBytes.LiveAsReceived` | client/src/mono_profiler_client.cpp:806-852 | of a well-paired stream, exactly the addresses received as allocated and not freed since are listed, with the event's size and frame and the numbers that stand for its names |
| `LiveBytes.TotalIsLive` | client/src/mono_profiler_client.cpp:322-344 | of a well-paired stream, bytes allocated minus bytes freed are the sizes of the live objects |
| `LiveBytes.ReportedSizeIsLive` | client/src/mono_profiler_client.cpp:726-852 | the two queries agree: the size reported for a closed frame is what the objects listed for the window up to it take |
| `EndToEnd.ReplayedIsPaired` | client/src/mono_profiler_client.cpp:806-852 | a stream that replays without contradiction arrives well paired, and what it leaves open is what the replay holds |
| `EndToEnd.SafeRunsAgree` | server/src/worker_thread.cpp:76-169 | for every run of the worker with safe sweeps whose events arrive with frames in order, the size reported for a closed frame is what the objects listed up to it take |
| `WireFormat.VarintRoundTrip` | common/memory_reader.h:47-80 | every 64-bit number comes back, using exactly its bytes |
| `WireFormat.VarintLayout` | common/memory_writer.h:36-57 | the bytes of a number: itself if below 253, otherwise the tag of a width and the number in that width, lowest byte first |
| `WireFormat.FixedRoundTrip` | common/memory_reader.h:18-27 | fixed-width numbers come back |
| `WireFormat.StringRoundTrip` | common/memory_reader.h:110-126 | a string comes back cut at its first NUL, so whole exactly if it has none |
| `WireFormat.OverrunMessage` | common/memory_reader.h:113-122 | nine bytes that are no string and get past the wrapped bounds check |
| `WireFormat.ManyRoundTrip` | client/src/mono_profiler_client.cpp:368-391 | a list comes back if each of its items does |
| `WireFormat.ReferencesRoundTrip` | client/src/mono_profiler_client.cpp:351-393 | every list of references with any nested parents comes back, ignoring what follows |
| `WireFormat.ReferenceRoundTrip` | server/src/mono_profiler_server.cpp:77-84 | one reference comes back |
| `WireFormat.AllocRoundTrip` | client/src/mono_profiler_client.cpp:301-311 | an allocation message comes back, its strings cut at the first NUL |
| `WireFormat.AllocLayout` | server/src/mono_profiler_server.cpp:40-44 | frame, address and size are at offsets 0, 8 and 16, followed by the two strings |
| `WireFormat.FreeRoundTrip` | client/src/mono_profiler_client.cpp:331-337 | a free message comes back |
| `WireFormat.FreeLayout` | server/src/mono_profiler_server.cpp:58-60 | the same three fields at the same offsets and nothing else |
| `WireFormat.CommandRoundTrip` | server/src/mono_profiler_server.cpp:222-232 | the request for references comes back |
| `WireCode.Deliver` | server/src/mono_profiler_server.cpp:65-87 | what `report_references` writes, the client's decoder returns |
| `WireCode.StringLength` | common/memory_writer.h:82 | the length up to the first NUL |
| `WireCode.MemoryWriter.WriteVarint` | common/memory_writer.h:36-57 | appends the encoding of the number |
| `WireCode.MemoryWriter.WriteString` | common/memory_writer.h:80-85 | appends the encoding of the string |
| `WireCode.MemoryWriter.ReportReferences` | server/src/mono_profiler_server.cpp:75-84 | the two nested loops produce the encoding of the list |
| `WireCode.MemoryWriter.ReportAlloc` | server/src/mono_profiler_server.cpp:40-44 | produces the encoding of an allocation |
| `WireCode.MemoryWriter.ReportFree` | server/src/mono_profiler_server.cpp:58-60 | produces the encoding of a free |
| `WireCode.MemoryWriter.SendCommand` | client/src/mono_profiler_client.cpp:650-653 | produces the encoding of the request |
| `WireCode.MemoryReader.ReadVarint` | common/memory_reader.h:47-80 | parses a number, or fails exactly when the bytes end early |
| `WireCode.MemoryReader.ReadString` | common/memory_reader.h:110-126 | parses a string or fails when the bytes end early; overruns exactly when position plus length reaches 2^64 |
| `WireCode.MemoryReader.ReadReferences` | client/src/mono_profiler_client.cpp:351-393 | a well-formed answer is decoded whole |
| `WireCode.MemoryReader.ReadAlloc` | client/src/mono_profiler_client.cpp:301-323 | accepted exactly when all fields can be read; overruns exactly when one of the strings does |
| `WireCode.MemoryReader.ReadFree` | client/src/mono_profiler_client.cpp:331-345 | accepted exactly when the frame can be read; right if all fields can be |
| `WireCode.MemoryReader.ReadCommand` | server/src/mono_profiler_server.cpp:222-232 | a well-formed request is decoded whole; a short one still yields as many addresses as it announces, those that could be read being right |
| `A64.BccRoundTrip` | external/detours/src/disasm.cpp:3689-3709 | the assembled word decodes to the branch, over the whole range of its field |
| `A64.BranchRoundTrip` | external/detours/src/disasm.cpp:3711-3731 | the same for B and BL |
| `A64.BrRoundTrip` | external/detours/src/disasm.cpp:3733-3761 | the same for BR and BLR |
| `A64.CbzRoundTrip` | external/detours/src/disasm.cpp:3763-3785 | the same for CBZ and CBNZ |
| `A64.TbzRoundTrip` | external/detours/src/disasm.cpp:3871-3895 | the same for TBZ and TBNZ |
| `A64.MovRoundTrip` | external/detours/src/disasm.cpp:3840-3869 | the same for MOVN, MOVZ and MOVK |
| `A64Relocation.Relocator.EmitMovImmediate` | external/detours/src/disasm.cpp:3979-4028 | the emitted moves load every 64-bit immediate exactly, whatever the register held, with one move per piece that differs from the more frequent default |
| `A64Relocation.Relocator.EmitPieces` | external/detours/src/disasm.cpp:4000-4025 | the loop over the pieces, for either default |
| `A64Moves.MoveStep` | external/detours/src/disasm.cpp:4006-4024 | each emitted move brings the loaded value one piece further |
| `A64Moves.NarrowMove` | external/detours/src/disasm.cpp:3989-3993 | the 32-bit MOVN loads the immediates it is used for |
| `A64Relocation.Relocator.CopyBcc` | external/detours/src/disasm.cpp:4084-4116 | from every processor state the emitted words reach the state given by `Outcome`, in all three range cases; they preserve the effect exactly in the preservable cases |
| `A64Relocation.Relocator.CopyBranch` | external/detours/src/disasm.cpp:4118-4141 | the same for B and BL, with the link register at the end of the emitted words |
| `A64Relocation.Relocator.CopyCbz` | external/detours/src/disasm.cpp:4153-4185 | the same for CBZ and CBNZ |
| `A64Relocation.Relocator.CopyTbz` | external/detours/src/disasm.cpp:4187-4219 | the same for TBZ and TBNZ |
| `A64Branches.PreservesIff` | external/detours/src/disasm.cpp:4084-4219 | the emitted words lead every state to the original's target under the same condition, else to their end, with flags and all registers but x17 kept, iff an always-branch stays direct and a test of x17 is not sent the long way |
| `A64Branches.Misled` | external/detours/src/disasm.cpp:4108-4113 | a concrete state in which any other relocation goes wrong |
| `A64Branches.PlainRuns` | external/detours/src/disasm.cpp:4094-4098 | the one-word form |
| `A64Branches.SkipRuns` | external/detours/src/disasm.cpp:4100-4105 | the inverted test over a direct branch |
| `A64Branches.LongRuns` | external/detours/src/disasm.cpp:4107-4113 | the target in x17, the inverted test over a register branch |
| `A64Branches.LongBranchRuns` | external/detours/src/disasm.cpp:4133-4138 | the target in x17 and a register branch, linking or not |
| `X64Relocation.Copier.CopyInstruction` | external/detours/src/disasm.cpp:342-494 | behind any run of prefixes the copy has the same prefixes, operation and absolute target exactly when its displacement fits its field; extra is destination minus source length, or -3 for a loop that does not fit; the reported target is the source's |
| `X64Relocation.Copier.CopyBytesPrefix` | external/detours/src/disasm.cpp:442-461 | a prefix is kept and changes nothing else |
| `X64Relocation.Copier.CopyBytes` | external/detours/src/disasm.cpp:361-440 | everything but the displacement is copied, and that becomes the one that reaches the old target, for fields of 1, 2, 4 and 8 bytes |
| `X64Relocation.Copier.CopyLoop` | external/detours/src/disasm.cpp:424-439 | LOOP and JRCXZ keep their 8-bit field, and a negative extra says exactly when it does not fit |
| `X64Relocation.Copier.CopyBytesJump` | external/detours/src/disasm.cpp:463-494 | an 8-bit jump becomes the 32-bit one to the same target under the same condition |
| `X64Relocation.Copier.AdjustTarget` | external/detours/src/disasm.cpp:496-574 | the adjusted offset is the distance from the end of the copy to the old target, cut to the field; extra says how much wider it would have to be |
| `X64Relocation.TruncatedReaches` | external/detours/src/disasm.cpp:534-557 | a displacement cut to a field leads to the target iff it fits |
| `X64Relocation.RipCopied` | external/detours/src/disasm.cpp:415-432 | a RIP-relative operand keeps its address iff the displacement fits, immediates included |
| `TrampolinePool.TrampolinePool.Alloc` | external/detours/src/detours.cpp:1377-1445 | returns a usable slot that was not in use, within the jump bounds; fails exactly when no region offers one and no new region helps |
| `TrampolinePool.TrampolinePool.FindRegion` | external/detours/src/detours.cpp:1388-1414 | finds a region whose next free slot is within the bounds, if any has one |
| `TrampolinePool.TrampolinePool.NewRegion` | external/detours/src/detours.cpp:1421-1441 | the new region becomes the default one with its first usable slot free; the others do not change |
| `TrampolinePool.TrampolinePool.Free` | external/detours/src/detours.cpp:1447-1455 | the slot is no longer in use and heads its region's free list |
| `TrampolinePool.TrampolinePool.RegionEmpty` | external/detours/src/detours.cpp:1457-1479 | no without the signature; for a region, yes exactly when no slot is in use, given detoured code outside the region |
| `TrampolineRegion.IsEmpty` | external/detours/src/detours.cpp:1464-1478 | the scanning loop of that check |
| `TrampolineRegion.TakeSlot` | external/detours/src/detours.cpp:1398-1405 | unlinking the head keeps the partition into in use and free, and the list acyclic |
| `TrampolineRegion.ReturnSlot` | external/detours/src/detours.cpp:1452-1454 | linking a slot in front keeps it too |
| `TrampolineRegion.Thread` | external/detours/src/detours.cpp:1432-1439 | the new free list holds every usable slot once, in address order |

## Left out

- Weak memory orderings, fences, bulk operations, exceptions, failed allocations, move and swap of queues, consumer tokens: every atomic operation is one sequentially consistent step and allocation succeeds.
- DequeueTickets.NeverOverclaims: excludes runs with a fooled check, which do overclaim (`SleeperOverclaims`); runs of up to 2^63 steps have none (`ShortRunsNeverFooled`).
- ConcurrentRing.GetsItsElement: a claim is one step, justified by `ClaimsInOrder` and `ClaimsBelowTail`; indices are unbounded, and the enqueue guard is left to `ExplicitProducer`; resetting a reused block's flags and copying the index, which no other thread can observe, are one step each.
- FreeList.EveryBlockInOnePlace: assumes fewer than 2^31 - 1 threads, since more could overflow the 31 reference bits.
- ImplicitProducerCalls.LoneCall: needs the resize lock free; a call that needs a larger table waits for whoever holds it (`WaitsForResize`).
- ImplicitProducerHash.OneProducerPerThread: thread-exit support is off, so keys are never recycled; thread ids and their hashes are parameters.
- ExplicitProducer.ExplicitProducer.Enqueue: blocks are positions in an arena that only grows, so the free list of blocks is modelled separately in `FreeList`.
- ProducerList.TryDequeue: the second loop over the producers cannot be reached without concurrent consumers; producers are explicit ones.
- ImplicitProducer blocks: only the dequeue protocol and the slot computation it shares are modelled.
- The wait of `do_gc_sync` is a hypothesis on sweeps (`SafeSweeps`), not a modelled loop over the unsynchronised flag.
- Class names, callstack strings and the stopword search in the worker.
- WorkerThread.WorkerThread.FindReferences: needs all parents tracked, which `ParentsAlwaysTracked` proves, since the code follows a parent without checking that it was found.
- `do_gc_unity`, pausing, locks and thread start and stop of the worker.
- EventStore.Client.ProcessEvent: the running total and the interning counters are unbounded; transactions do not fail.
- EventStore.Client.Receive: the same unbounded counters.
- What is written when the client stops; opening an existing database; the other queries.
- FrameStats.GetStats: excludes the window on which the last loop does not end (`NeverEnds`), and a row of frame 2^64 - 1, which the client never writes.
- LiveObjects.GetLiveObjects: the order of the listed objects is not stated, as the source walks a hash map; frames are unbounded integers rather than `int`.
- WireCode.MemoryReader.ReadString: an overrun ends the reading; the exception that it throws is not modelled, and the string starts empty.
- WireCode.MemoryReader.ReadReferences: says nothing about malformed lists, whose failures the code ignores.
- Sockets, message headers, pause and resume messages, big-endian and buffer helpers of reader and writer.
- WorkerThread.WorkerThread.AddAllocation: the item says only whether a stopword was met.
- WorkerThread.WorkerThread.WorkStep: reported events carry no class name and callstack text.
- A64: CopyAdr, CopyLdrLiteral and the dispatch in CopyInstruction; instructions other than those emitted have no meaning in the semantics.
- X64Relocation.Copier.CopyInstruction: operand-size and address-size prefixes, VEX, and instructions without a relative field, whose copying is verbatim; the opcode tables are parameters.
- X64Relocation.Copier.CopyBytesPrefix: the same prefixes.
- X64Relocation.Copier.CopyBytes: the size of an instruction and the place of its relative field are parameters, as the opcode tables are.
- TrampolinePool.TrampolinePool.Alloc: jump bounds and the address of new memory are parameters; regions are never released; only the `pbRemain` field of a slot is modelled; sizes are those of x64.
- Thumb and IA64 relocation, PE patching, page protection, thread contexts, the user interface, logging, DLL loading, Mono and IL2CPP callbacks.
