# Verified model of the memory accounting stack, the test runner and the POSIX monitors

This Dafny project models three parts of the repository in which a fast or concurrent form has to agree with a
simple specification, and proves that it does.

**The memory accounting stack.** `PoolRegistryProtocol` is one pool's atomic counters under any number of threads, one
atomic access a step, and a free may return any part of any live allocations. `PoolRegistryRuns` says what all its
runs keep, `PoolRegistryPeak` what exactly the peak records, `PoolRegistryCounts` and `PoolRegistryRefusals` what the
counts say; `PoolRegistryCalls` is the code of the calls, retry loops included, with other threads running in every
gap; `PoolRegistry` is the registry without interference, which the allocators use. `MetricsProtocol`, `MetricsRuns`
and `MemoryMetrics` do the same for the process-wide metrics, whose peak is taken from the fetch-and-add itself.
`ProbeTable` and `AllocationTracker` are the open-addressing table with tombstones, for an arbitrary hash function.
`SmallBlockProtocol`, `SmallBlockInvariant`, `SmallBlockRuns` and `SmallBlockClients` are the small block allocator as
a system of threads over byte-addressed memory: lists threaded through the blocks, caches invalidated by generation,
frees on other threads, and clients that write any byte of a live block at any time; `SmallBlockAllocator` is its
code, and every call is shown to be a run of that system, and `SmallBlockGenerations` is what happens once the
generation wraps. `PoolAllocator` is the single-class sibling. `MemoryAccounting`, `HeapAllocator` and
`AllocatorProxy` tie reservation, backend, tracker and accounting together over every failure path, against
`Bookkeeping`, which says as functions what each call does to everything; `MemoryClient` shows that whole sequences of
their calls are runs of that pure machine, and `ProxyLayers` puts the proxy on top of the small block allocator
itself. `Alignment`, `AllocationValidation` and `SmallBlockClasses` hold the arithmetic and the routing.

**The test runner.** `BoundedOutputBuffer` keeps a window onto an unbounded stream; `CommandLine` prints argument
lists and reads them back by the Microsoft C rules; `TestScheduler` runs tests on workers that claim indices from a
shared counter.

**The POSIX semaphore and event.** `ConditionVariable`, `Semaphore` and `Event` are the monitors as systems of
threads that are outside, asleep, notified or interrupted; `SemaphoreCalls` and `EventCalls` are the calls with their
wait loops, for every behaviour of the rest of the system during a wait.

## Conventions

- Atomic accesses are sequentially consistent single steps, and compare-and-exchange is strong: on failure it delivers
  the observed value. A critical section, from taking the mutex to releasing it or falling asleep, is one step.
- 64-bit and 32-bit counters wrap explicitly (`FetchAdd`, `FetchSub`, `% 0x1_0000_0000`); lifetime totals and counts
  really may wrap, and the statements about them say so.
- What the files do not decide is a parameter or a nondeterministic step: backend answers, hash values, text
  conversion, test outcomes, the choice of a signalled sleeper, spurious wakeups and deadlines. A timed wait that was
  notified may still report a timeout, as POSIX allows.
- The tracker's calls hold a lock from end to end, so it is modelled sequentially.
- Ledgers, ghost fields and histories exist only to state what the physical state means.
- Helper methods that the source does not have are pieces of one source function, split where the proof needs a
  contract of its own.

## Results that differ from what one might expect

- The recorded pool peak can miss the historical maximum even at rest (`PeakCanMissHighWater`); it never misses live
  bytes. At rest it is the largest CurrentBytes a commit has read (`PeakIsHighestRead`), so it is the historical maximum
  if and only if a commit read that value (`PeakIsHighWaterIff`), which callers can see to (`OrderlyPeakIsHighWater`).
  The metrics peak is exact at rest.
- AllocationCount minus FreeCount of a pool is not the number of allocations held once reallocations grow or shrink
  blocks (`GrownBlockIsMiscounted`); `CountsAreAllocationsIff` says exactly when it is.
- The documentation of the small block allocator routes only power-of-two alignments to it
  (docs/BLUE_MEMORY_SMALL_BLOCK_ALLOCATOR.md, line 35). The proxy normalizes alignments below 16 first, so
  non-power-of-two alignments below 16 go there too. The model follows the code (`RoutingRule`).
- A heap resize keeps the per-pool accounts right if and only if the block keeps its pool and the old size is the true
  one (`ResizeAccountsIff`); a free if and only if the block's own pool is refunded its own size (`RefundAccountsIff`).
- The pool allocator does not notice a second free of a slot while another is in use; the free list stays a list if and
  only if the freed slot was live (`FreeKeepsListIff`).
- `AlignUp` collapses to zero when its sum leaves 64 bits (`AlignUpIsUpperBoundIff`), and a tracker capacity request
  above 2^63 is not met (`NormalizeTrackerCapacity`).
- The captured output differs from the promised window exactly when the 64-bit produced count saturated and the limit
  is the largest 64-bit number (`BuildOutput`).
- A thread that sits out exactly a multiple of 2^32 shutdowns with blocks on a list is handed one of them afterwards,
  although their slabs are gone (`CurrentListComesBackIff`); before that no cache outlives a shutdown.
- The pool allocator does not check that stride times count fits 64 bits; the request then covers too few slots
  (`RequestHoldsSlotsIff`, with an input in `WrappedRequest`).
- Initializing a pool allocator that is in use replaces its dimensions before the backing allocator is asked, so when
  no block comes back the old block stays with the new dimensions (`PoolAllocator.Initialize`).

## Model

| member | source | states |
|---|---|---|
| PoolRegistryRuns.PeakCoversLiveBytes | modules/BlueMemory/src/Pool/MemoryPoolRegistry.cpp:131-186 | In every state that any interleaving of reserve, commit, cancel and free steps reaches, PeakBytes is at least the bytes of the committed allocations still live and at most the largest value CurrentBytes has had, although a commit reads CurrentBytes in a step of its own; a free returns any part of any live allocations |
| PoolRegistryRuns.CurrentBytesIsExact | modules/BlueMemory/src/Pool/MemoryPoolRegistry.cpp:131-210 | In every reachable state CurrentBytes equals the reserved plus the allocated bytes, so no fetch-and-subtract ever wraps |
| PoolRegistryRuns.BudgetIsNeverExceeded | modules/BlueMemory/src/Pool/MemoryPoolRegistry.cpp:148-171 | While enforcement stays on, no interleaving takes CurrentBytes, or any value it ever had, above a nonzero budget |
| PoolRegistryRuns.QuiescentCounters | modules/BlueMemory/src/Pool/MemoryPoolRegistry.cpp:174-210 | With no call in flight CurrentBytes is the live bytes and the wrapping difference of the lifetime byte totals, and the two call counts are the commits and the frees of the run, reduced to 64 bits |
| PoolRegistryPeak.PeakIsHighestRead | modules/BlueMemory/src/Pool/MemoryPoolRegistry.cpp:174-186 | At rest, after any run, PeakBytes is exactly the largest CurrentBytes that any commit has read |
| PoolRegistryPeak.PeakIsHighWaterIff | modules/BlueMemory/src/Pool/MemoryPoolRegistry.cpp:182-185 | At rest the peak is the largest value CurrentBytes ever had if and only if some commit read CurrentBytes in a state with that value |
| PoolRegistryPeak.OrderlyPeakIsHighWater | modules/BlueMemory/src/Pool/MemoryPoolRegistry.cpp:174-210 | Callers that commit every reservation and free nothing while one is uncommitted get the exact high water at rest |
| PoolRegistryPeak.PeakCanMissHighWater | modules/BlueMemory/src/Pool/MemoryPoolRegistry.cpp:182-185 | A concrete run for every budget that admits it: 150 bytes were outstanding, yet at rest the recorded peak is 100, because the commit reads CurrentBytes late |
| PoolRegistryCounts.CommitsAreHeldOrEmptied | modules/BlueMemory/src/Pool/MemoryPoolRegistry.cpp:174-210 | In every run the allocations of which bytes are still held, and those that frees have emptied, add up to the commits |
| PoolRegistryCounts.CountsAreAllocationsIff | modules/BlueMemory/src/Pool/MemoryPoolRegistry.cpp:184-209 | At rest the wrapping difference of AllocationCount and FreeCount is the number of allocations held if and only if the frees emptied as many allocations as there were frees, modulo 2^64 |
| PoolRegistryCounts.WholeFreesCountAllocations | modules/BlueMemory/src/Pool/MemoryPoolRegistry.cpp:199-210 | When every free returns one whole allocation the call counts differ by the allocations held |
| PoolRegistryCounts.GrownBlockIsMiscounted | modules/BlueMemory/src/HeapAllocator.cpp:298-303 | A block that grew once and is freed as a whole leaves the two call counts one apart with nothing held |
| PoolRegistryCounts.AnyLiveBytesMayBeFreed | modules/BlueMemory/src/Pool/MemoryPoolRegistry.cpp:199-210 | Every number of bytes up to the live ones is a free of the protocol, be it part of an allocation or the sum of several |
| PoolRegistryRefusals.RefusalsAreCounted | modules/BlueMemory/src/Pool/MemoryPoolRegistry.cpp:160-165 | In every run of any interleaving the count of exceeded budgets is the number of reservations whose observed bytes and size fit a word but not the enforced budget, modulo 2^64 |
| PoolRegistryRuns.RunInvariant | modules/BlueMemory/src/Pool/MemoryPoolRegistry.cpp:131-210 | The invariant of all runs: conservation, soundness of every observed value, tracking of the wrapping totals, and the high-water bound |
| PoolRegistryRuns.CurrentBytesStep | modules/BlueMemory/src/Pool/MemoryPoolRegistry.cpp:131-210 | How each step changes CurrentBytes, as exact addition and subtraction in place of the modular ones |
| PoolRegistryCalls.ConcurrentPool.TryReserve | modules/BlueMemory/src/Pool/MemoryPoolRegistry.cpp:131-172 | The compare-and-exchange loop with other threads in every gap: the final state is that of looking, then testing and exchanging until a refusal or a success, each after the others have run; the reservation is held exactly when it reports success, the reason fits the last value observed, and the loop ends for every finite interference |
| PoolRegistryCalls.ConcurrentPool.Attempt | modules/BlueMemory/src/Pool/MemoryPoolRegistry.cpp:151-171 | One turn of the loop: the reason of a refusal fits the observed value, a failed exchange delivers the value that got in between, and without interference the exchange succeeds |
| PoolRegistryCalls.ConcurrentPool.CommitAllocation | modules/BlueMemory/src/Pool/MemoryPoolRegistry.cpp:174-186 | The four accesses and the peak loop are exactly the commit steps of the protocol, with the other threads running where the script has them |
| PoolRegistryCalls.ConcurrentPool.UpdatePeak | modules/BlueMemory/src/Pool/MemoryPoolRegistry.cpp:35-41 | The peak loop ends for every finite interference, with each of its accesses a step of the protocol and the others in between |
| PoolRegistryCalls.ConcurrentPool.RecordFree | modules/BlueMemory/src/Pool/MemoryPoolRegistry.cpp:199-210 | A free by any thread of any number of bytes that are live, whole allocations or not, is its three protocol steps, in order, with the others in between |
| PoolRegistryCalls.ConcurrentPool.CancelReservation | modules/BlueMemory/src/Pool/MemoryPoolRegistry.cpp:188-197 | A cancelled reservation leaves CurrentBytes lowered by exactly its size and the thread idle |
| PoolRegistryCalls.ConcurrentPool.CountersAreSound | modules/BlueMemory/src/Pool/MemoryPoolRegistry.cpp:131-210 | After any sequence of such calls the counters are exact and the peak covers the live bytes |
| PoolRegistry.MemoryPoolRegistry.Initialize | modules/BlueMemory/src/Pool/MemoryPoolRegistry.cpp:59-82 | Accepts exactly one description a pool, in order, while uninitialized, and then every pool has its budget and zeroed counters and budgets are enforced; a refusal changes nothing |
| PoolRegistry.MemoryPoolRegistry.TryReserve | modules/BlueMemory/src/Pool/MemoryPoolRegistry.cpp:131-172 | Undisturbed, a reservation succeeds if and only if the registry is initialized, the pool exists, the size is not zero, the sum fits 64 bits and, with enforcement and a nonzero budget, fits the budget; each refusal reason has its own such condition; a success adds exactly the size, a budget refusal is counted, any other refusal changes nothing |
| PoolRegistry.MemoryPoolRegistry.CommitAllocation | modules/BlueMemory/src/Pool/MemoryPoolRegistry.cpp:174-186 | Undisturbed, the totals grow by the size and the peak becomes the maximum of itself and CurrentBytes; no other pool changes |
| PoolRegistry.MemoryPoolRegistry.CancelReservation | modules/BlueMemory/src/Pool/MemoryPoolRegistry.cpp:188-197 | Lowers only the pool's CurrentBytes, and only for a valid pool of an initialized registry |
| PoolRegistry.ReserveIsARun | modules/BlueMemory/src/Pool/MemoryPoolRegistry.cpp:148-171 | A reservation that is not refused is the run of its three atomic steps in the protocol |
| PoolRegistry.RefusalIsTheProtocols | modules/BlueMemory/src/Pool/MemoryPoolRegistry.cpp:151-166 | On the same counters the registry refuses a reservation if and only if the tests of the protocol give it up |
| PoolRegistry.CommitIsARun | modules/BlueMemory/src/Pool/MemoryPoolRegistry.cpp:174-186 | The five commit steps of the protocol leave the counters the sequential commit leaves |
| MetricsRuns.QuiescentPeakIsHighWater | modules/BlueMemory/src/MemoryMetrics.cpp:24-69 | At every quiescent state of every interleaving PeakLiveBytes is exactly the historical maximum of CurrentLiveBytes, which is the held bytes and the difference of the totals |
| MetricsRuns.PeakLagsOnlyInFlight | modules/BlueMemory/src/MemoryMetrics.cpp:24-49 | At every moment the peak is below the historical maximum only while the thread that reached it is still recording it |
| MetricsRuns.LiveBytesStep | modules/BlueMemory/src/MemoryMetrics.cpp:43-69 | No step of any interleaving wraps CurrentLiveBytes |
| MetricsRuns.RunInvariant | modules/BlueMemory/src/MemoryMetrics.cpp:24-69 | The invariant of all runs of allocation, free and reallocation records |
| Metrics.MemoryMetrics.RecordMemoryAllocation | modules/BlueMemory/src/MemoryMetrics.cpp:43-49 | Undisturbed: totals, live bytes, count and peak after one allocation, everything else unchanged |
| Metrics.MemoryMetrics.RecordMemoryReallocation | modules/BlueMemory/src/MemoryMetrics.cpp:58-69 | Moves the live bytes by the size difference and counts one reallocation, whichever way the size changes; growth also counts as an allocation and may raise the peak, shrinkage also counts as a free |
| AllocationTracker.NormalizeTrackerCapacity | modules/BlueMemory/src/Tracking/MemoryAllocationTracker.cpp:69-89 | 4096 for a request of zero, 16 up to 16, else the least power of two not below the request, less than twice it; it covers the request if and only if the request is at most 2^63 |
| AllocationTracker.MaskWraps | modules/BlueMemory/src/Tracking/MemoryAllocationTracker.cpp:115-132 | Masking with capacity - 1 keeps an index in the table and wraps the next one around |
| AllocationTracker.IsValidRecordIff | modules/BlueMemory/src/Tracking/MemoryAllocationTracker.cpp:102-106 | A record is accepted if and only if pointer and size are not zero, the alignment is a power of two and the pool is one of the six |
| AllocationTracker.MemoryAllocationTracker.HomeIsHash | modules/BlueMemory/src/Tracking/MemoryAllocationTracker.cpp:115-116 | A pointer's first probe is its hash modulo the capacity |
| ProbeTable.ProbeWraps | modules/BlueMemory/src/Tracking/MemoryAllocationTracker.cpp:131-132 | The k-th probe is k slots further, modulo the capacity |
| ProbeTable.StoreRepresents | modules/BlueMemory/src/Tracking/MemoryAllocationTracker.cpp:266-280 | Writing a record where an insertion search ended makes the table stand for the map with that record |
| ProbeTable.ClearRepresents | modules/BlueMemory/src/Tracking/MemoryAllocationTracker.cpp:168-172 | Turning the record's slot into a tombstone makes the table stand for the map without it |
| ProbeTable.StoppedMeansAbsent | modules/BlueMemory/src/Tracking/MemoryAllocationTracker.cpp:118-124 | A probe that reaches an empty slot proves the pointer is not in the map |
| ProbeTable.ExhaustedMeansAbsent | modules/BlueMemory/src/Tracking/MemoryAllocationTracker.cpp:118-135 | A probe that visits every slot proves the same |
| ProbeTable.CountContents | modules/BlueMemory/src/Tracking/MemoryAllocationTracker.cpp:108-172 | The number of occupied slots is the size of the map, so no pointer occupies two slots |
| ProbeTable.LiveRecordsListContents | modules/BlueMemory/src/Tracking/MemoryAllocationTracker.cpp:319-340 | The occupied slots in order list each record of the map exactly once |
| AllocationTracker.MemoryAllocationTracker.Initialize | modules/BlueMemory/src/Tracking/MemoryAllocationTracker.cpp:200-224 | Starts with the empty map, zeroed statistics and a fresh table of the capacity so determined, 4096 by default, or disabled when the backend has no memory |
| AllocationTracker.MemoryAllocationTracker.Shutdown | modules/BlueMemory/src/Tracking/MemoryAllocationTracker.cpp:226-246 | Ends disabled with the empty map and zeroed counters |
| AllocationTracker.MemoryAllocationTracker.FindSlot | modules/BlueMemory/src/Tracking/MemoryAllocationTracker.cpp:108-136 | For any hash function finds the slot holding the pointer, exactly when the map has it, and counts one collision for each slot passed over |
| AllocationTracker.MemoryAllocationTracker.FindInsertionSlot | modules/BlueMemory/src/Tracking/MemoryAllocationTracker.cpp:138-166 | Finds the pointer's own slot, else the first slot on its probe path that is not in use, and counts the slots passed over; fails exactly when capacity other pointers are live |
| AllocationTracker.MemoryAllocationTracker.TrackMemoryAllocation | modules/BlueMemory/src/Tracking/MemoryAllocationTracker.cpp:253-282 | Succeeds exactly for a valid record on an enabled tracker unless capacity other pointers are live; the map gains the record; the counters say so |
| AllocationTracker.MemoryAllocationTracker.TryFindTrackedMemoryAllocation | modules/BlueMemory/src/Tracking/MemoryAllocationTracker.cpp:284-296 | Agrees with the map, and hands out an empty record when there is none |
| AllocationTracker.MemoryAllocationTracker.UntrackMemoryAllocation | modules/BlueMemory/src/Tracking/MemoryAllocationTracker.cpp:298-317 | Removes and returns the pointer's record, or counts an unknown free on an enabled tracker |
| AllocationTracker.MemoryAllocationTracker.CaptureLiveMemoryAllocations | modules/BlueMemory/src/Tracking/MemoryAllocationTracker.cpp:319-340 | Copies min(live, room) records, in slot order |
| AllocationTracker.MemoryAllocationTracker.FullCaptureIsComplete | modules/BlueMemory/src/Tracking/MemoryAllocationTracker.cpp:319-340 | With room for all, the captured records are exactly those of the map |
| SmallBlockClasses.GetSmallBlockClassIndex | modules/BlueMemory/src/Allocator/SmallBlockAllocator.cpp:47-64 | The table scan returns the class of the request |
| SmallBlockClasses.ClassIndex | modules/BlueMemory/src/Allocator/SmallBlockAllocator.cpp:47-64 | There is a class exactly for requirements from 1 to 512, and it is the least one that covers size and alignment |
| SmallBlockClasses.NormalizationKeepsClass | modules/BlueMemory/src/Allocator/SmallBlockAllocator.cpp:229-230 | The class computed when freeing with a normalized alignment is the class allocated with the raw one |
| SmallBlockClasses.FreeRoutesLikeAllocate | modules/BlueMemory/include/Blue/Memory/Proxy/AllocatorProxy.h:135-144 | Free goes to the layer and the class Allocate chose, although both ends normalize again |
| SmallBlockClasses.RoutingRule | docs/BLUE_MEMORY_SMALL_BLOCK_ALLOCATOR.md:35 | The documented routing rule, as the code has it: also non-power-of-two alignments below 16 go to the small block allocator |
| SmallBlockClasses.SupportedIff | modules/BlueMemory/src/Allocator/SmallBlockAllocator.cpp:206-214 | The raw call serves exactly sizes up to 512 with power-of-two alignments up to 512 |
| SmallBlockClasses.ClassSizeDivides | modules/BlueMemory/src/Allocator/SmallBlockAllocator.cpp:168-174 | Every class size divides the slab, and a multiple of it is aligned for every request of the class |
| SmallBlockRuns.StepKeepsInvariant | modules/BlueMemory/src/Allocator/SmallBlockAllocator.cpp:66-277 | Every step of every thread, the environment's included, keeps the whole invariant |
| SmallBlockRuns.EveryBlockIsHeldOnce | modules/BlueMemory/src/Allocator/SmallBlockAllocator.cpp:82-97 | In every run each block of a held slab is live and on no list or on exactly one thread's list of its own class; each current list is what memory links together and has no repetition, whatever clients write into live blocks |
| SmallBlockRuns.RegisteredSlabsAreCovered | modules/BlueMemory/src/Allocator/SmallBlockAllocator.cpp:168-174 | In every run each block position of a registered slab is an accounted block of the slab's class |
| SmallBlockRuns.LiveBlocksAreSound | modules/BlueMemory/src/Allocator/SmallBlockAllocator.cpp:222-250 | In every run live blocks are disjoint, inside one held slab, large enough, aligned as requested, and of the least class that fits |
| SmallBlockRuns.HandedOutBlockIsCurrent | modules/BlueMemory/src/Allocator/SmallBlockAllocator.cpp:222-250 | A block handed out was on the calling thread's list, lies in a slab still held, and is live for this request afterwards; a completed refill always delivers one |
| SmallBlockRuns.SlabRegistration | modules/BlueMemory/src/Allocator/SmallBlockAllocator.cpp:137-149 | In every interleaving no two registrations share an index, at most 4096 succeed, and with no call in flight the count is the successes, despite the add-then-subtract rollback |
| SmallBlockRuns.ShutdownIsComplete | modules/BlueMemory/src/Allocator/SmallBlockAllocator.cpp:188-204 | A shutdown anywhere in a run releases exactly the held slabs, each once, and leaves no block, no slab and no current cache |
| SmallBlockGenerations.StaleListIsServedIff | modules/BlueMemory/src/Allocator/SmallBlockAllocator.cpp:66-80 | A thread with a nonempty list that sits out n shutdowns is served its old list, of slabs long released, if and only if the 32-bit generation has come back to that of its cache |
| SmallBlockGenerations.CurrentListComesBackIff | modules/BlueMemory/src/Allocator/SmallBlockAllocator.cpp:66-80 | For a list in use that happens exactly when n is a multiple of 2^32 |
| SmallBlockGenerations.ShutdownsCount | modules/BlueMemory/src/Allocator/SmallBlockAllocator.cpp:203 | After n shutdowns the generation has moved by n modulo 2^32 and no cache has changed |
| SmallBlockRuns.NextBlockIsNew | modules/BlueMemory/src/Allocator/SmallBlockAllocator.cpp:171-174 | The next block carved is new and apart from every block of every slab |
| SmallBlockRuns.RefilledListIsNonempty | modules/BlueMemory/src/Allocator/SmallBlockAllocator.cpp:240-245 | The pop after a refill always finds a block |
| SmallBlockRuns.FreedClass | modules/BlueMemory/src/Allocator/SmallBlockAllocator.cpp:265-272 | The class computed at a free, on any thread, is the class the block was carved for |
| SmallBlockInvariant.BlocksApart | modules/BlueMemory/src/Allocator/SmallBlockAllocator.cpp:168-174 | Different blocks never overlap |
| SmallBlockInvariant.PushLists | modules/BlueMemory/src/Allocator/SmallBlockAllocator.cpp:82-86 | Writing the link of an unlisted block keeps every list of every thread |
| SmallBlockInvariant.PopKeeps | modules/BlueMemory/src/Allocator/SmallBlockAllocator.cpp:88-97 | Popping keeps the whole invariant |
| SmallBlockClients.StepKeepsClient | modules/BlueMemory/src/Allocator/SmallBlockAllocator.cpp:82-97 | No step of any thread changes a live block, its bookkeeping or its bytes, unless it frees that block, shuts down, or is a client's write to it |
| SmallBlockRuns.RunKeepsInvariant | modules/BlueMemory/src/Allocator/SmallBlockAllocator.cpp:66-277 | So does every run, of any threads in any order |
| SmallBlockClients.LiveBlockKeepsItsBytes | modules/BlueMemory/src/Allocator/SmallBlockAllocator.cpp:82-277 | The same over every run: a live block keeps its request and every byte until one of these happens |
| SmallBlockAllocator.SmallBlockAllocator.constructor | modules/BlueMemory/src/Allocator/SmallBlockAllocator.cpp:33-45 | The initial fields are the protocol's initial state |
| SmallBlockAllocator.SmallBlockAllocator.ResetThreadCacheIfNeeded | modules/BlueMemory/src/Allocator/SmallBlockAllocator.cpp:66-80 | Drops the lists of an earlier generation and no others |
| SmallBlockAllocator.SmallBlockAllocator.RegisterSlab | modules/BlueMemory/src/Allocator/SmallBlockAllocator.cpp:137-149 | Succeeds exactly while the table has room; on failure count and table are as before |
| SmallBlockAllocator.SmallBlockAllocator.RefillThreadCache | modules/BlueMemory/src/Allocator/SmallBlockAllocator.cpp:151-178 | Fails exactly when the backend has no memory or the table is full, gives a rejected slab back, and otherwise carves every block |
| SmallBlockAllocator.SmallBlockAllocator.CarveAll | modules/BlueMemory/src/Allocator/SmallBlockAllocator.cpp:168-174 | The carving loop takes one protocol step a block and leaves every live block alone |
| SmallBlockAllocator.SmallBlockAllocator.AllocateSmallBlock | modules/BlueMemory/src/Allocator/SmallBlockAllocator.cpp:222-250 | Delivers a block exactly when the request is served, the block was not live and now is for this request, no other live block changes, at most the backend's slab is newly held, a failure holds on to nothing, and exactly a slab that finds the table full goes back to the backend |
| SmallBlockAllocator.SmallBlockAllocator.FreeSmallBlock | modules/BlueMemory/src/Allocator/SmallBlockAllocator.cpp:252-277 | The block becomes the head of the freeing thread's list of its own class, whoever allocated it; other live blocks stay |
| SmallBlockAllocator.SmallBlockAllocator.ReleaseSlabs | modules/BlueMemory/src/Allocator/SmallBlockAllocator.cpp:190-198 | The release loop frees the used entries in order, each with the alignment the table has for it, and clears them |
| SmallBlockAllocator.SmallBlockAllocator.ShutdownSmallBlockAllocator | modules/BlueMemory/src/Allocator/SmallBlockAllocator.cpp:188-204 | Releases every held slab exactly once, with the alignment it was asked for, empties the table and outdates every cache |
| SmallBlockAllocator.SmallBlockAllocator.InitializeSmallBlockAllocator | modules/BlueMemory/src/Allocator/SmallBlockAllocator.cpp:181-186 | Starts from such a shutdown and ends enabled with an empty table |
| ByteMemory.ChainIsAcyclic | modules/BlueMemory/src/PoolAllocator.cpp:79-121 | A list threaded through memory has no repetition |
| ByteMemory.ChainUnique | modules/BlueMemory/src/PoolAllocator.cpp:79-121 | Memory and head determine the list |
| ByteMemory.ChainFrame | modules/BlueMemory/src/PoolAllocator.cpp:79-121 | Writes that miss the link words leave a list alone |
| ByteMemory.ChainPush | modules/BlueMemory/src/PoolAllocator.cpp:118-119 | Storing the old head in a block in front of a list gives the longer list |
| ByteMemory.PushIsChainIff | modules/BlueMemory/src/PoolAllocator.cpp:118-119 | Storing the old head in a block and pointing at it leaves a list if and only if the block was not on the list; otherwise no sequence of blocks is what the links visit |
| ByteMemory.LoadStore | modules/BlueMemory/src/PoolAllocator.cpp:118-119 | A stored 64-bit word is read back from its eight bytes |
| PoolAllocator.StrideIsLeast | modules/BlueMemory/src/PoolAllocator.cpp:24-28 | For every power-of-two alignment: the stride is the least multiple of the alignment that holds an object and a pointer, or zero exactly when rounding up leaves 64 bits |
| PoolAllocator.RequestHoldsSlotsIff | modules/BlueMemory/src/PoolAllocator.cpp:39-47 | The bytes asked of the backing allocator hold all the slots that will be linked if and only if neither the stride nor its product with the count wraps |
| PoolAllocator.WrappedRequest | modules/BlueMemory/src/PoolAllocator.cpp:45-47 | A concrete accepted description whose product wraps to a request of eight bytes |
| PoolAllocator.SlotTest | modules/BlueMemory/src/PoolAllocator.cpp:107-116 | Inside the block, the offset test recognizes exactly the slot addresses |
| PoolAllocator.PoolAllocator.Initialize | modules/BlueMemory/src/PoolAllocator.cpp:31-68 | Succeeds exactly for a valid description and a block, also on a pool in use; then all slots are free, linked in address order, and no memory outside the block has changed. A refused description changes nothing; without a block only the dimensions change, which leaves a pool without a block valid |
| PoolAllocator.PoolAllocator.LinkSlots | modules/BlueMemory/src/PoolAllocator.cpp:57-64 | The loop links every slot to the next and ends the list with null |
| PoolAllocator.PoolAllocator.Allocate | modules/BlueMemory/src/PoolAllocator.cpp:79-91 | Hands out the head exactly when a slot is free and the request fits; a refusal changes nothing |
| PoolAllocator.PoolAllocator.Free | modules/BlueMemory/src/PoolAllocator.cpp:98-121 | Pushes a live slot, writing its first word and nothing else; null, out-of-range and off-stride pointers change nothing |
| PoolAllocator.PoolAllocator.FreeKeepsLiveBytes | modules/BlueMemory/src/PoolAllocator.cpp:118 | The word a free writes is in no other live slot |
| PoolAllocator.FreeKeepsListIff | modules/BlueMemory/src/PoolAllocator.cpp:98-121 | Freeing a slot while some slot is in use leaves the free list a list if and only if that slot was live, whatever state the pool is in |
| PoolAllocator.PoolAllocator.ClientWrite | modules/BlueMemory/src/PoolAllocator.cpp:79-121 | Any byte of a live slot or outside the block may change and the pool stays valid |
| PoolAllocator.PoolAllocator.FreeListIsComplete | modules/BlueMemory/src/PoolAllocator.cpp:31-121 | In every valid pool the list is acyclic and holds exactly the Capacity - UsedCount slots that are not live |
| PoolAllocator.PoolAllocator.LiveSlotsAreSeparate | modules/BlueMemory/src/PoolAllocator.cpp:31-121 | Live slots are disjoint, inside the block and aligned |
| HeapAllocator.HeapAllocator.Allocate | modules/BlueMemory/src/HeapAllocator.cpp:18-119 | Succeeds exactly when nothing refuses the request, its size is not zero and the backend delivers; the backend is asked for the size and the normalized alignment; afterwards pools, tracker, metrics and blocks are exactly those of the success, or only the failure is counted, with its reason |
| HeapAllocator.HeapAllocator.Free | modules/BlueMemory/src/HeapAllocator.cpp:274-308 | Refunds the block's true size to its true pool even when a tracked block is described wrongly, forgets exactly this block, and tells the backend the true size and the normalized alignment of the record, or of the caller when there is none |
| HeapAllocator.HeapAllocator.Reallocate | modules/BlueMemory/src/HeapAllocator.cpp:121-272 | Within a pool charges or refunds exactly the size difference and moves the record; a refusal or failure is counted with its reason and keeps everything else; size zero frees; the backend is asked with the true old size |
| Bookkeeping.HeapRefusalIff | modules/BlueMemory/src/HeapAllocator.cpp:20-60 | A heap request is not refused if and only if, with validation, size, alignment and pool are valid and, with a registry in use, the pool has room for a nonzero size |
| Bookkeeping.GrowthRefusalIff | modules/BlueMemory/src/HeapAllocator.cpp:174-201 | Only growth is ever refused, when the registry is in use and the difference does not fit the pool |
| Bookkeeping.ProxyRefusalIff | modules/BlueMemory/include/Blue/Memory/Proxy/AllocatorProxy.h:51-70 | A proxy needs a registry in use, a nonzero size and room in its pool |
| Bookkeeping.TrackedIff | modules/BlueMemory/src/HeapAllocator.cpp:99-112 | A new block gets exactly its record if and only if build and request want one, the tracker is enabled and not full, and alignment and pool are valid |
| Bookkeeping.FailedAllocationCounts | modules/BlueMemory/src/HeapAllocator.cpp:51-90 | A well-formed request that gets no block adds one to its pool's failures, and one to its exceeded budgets if and only if the bytes fit a word but not the enforced budget |
| Bookkeeping.FailedProxyAllocationCounts | modules/BlueMemory/include/Blue/Memory/Proxy/AllocatorProxy.h:57-94 | The same for a proxy |
| Bookkeeping.FailedResizeCounts | modules/BlueMemory/src/HeapAllocator.cpp:182-214 | The same for the growth of a block; a resize that does not grow is counted nowhere |
| MemoryAccounting.ResizeAccountsIff | modules/BlueMemory/src/HeapAllocator.cpp:174-244 | After a resize from any claimed old size, of a held block or of none, the accounts are right if and only if the block keeps its pool and the old size is the true one, zero for none |
| MemoryAccounting.RefundAccountsIff | modules/BlueMemory/src/HeapAllocator.cpp:298-303 | After a free the accounts are right if and only if the block's own pool was refunded the block's own size |
| MemoryAccounting.BlockAdded | modules/BlueMemory/src/HeapAllocator.cpp:92-97 | Charging a fresh block keeps every pool's CurrentBytes the sum of its live block sizes and the difference of its totals |
| MemoryAccounting.BlockRemoved | modules/BlueMemory/src/HeapAllocator.cpp:298-303 | Refunding a block does the same for the blocks without it |
| MemoryAccounting.BlockResized | modules/BlueMemory/src/HeapAllocator.cpp:232-244 | So does charging or refunding the difference of a resize |
| MemoryAccounting.FailureKeepsAccounts | modules/BlueMemory/src/HeapAllocator.cpp:204-211 | A failure adds one to its pool's failures, and one to its exceeded budgets if that was the reason, and disturbs no account and no other pool |
| MemoryAccounting.MemoryGlobals.CancelReservation | modules/BlueMemory/src/HeapAllocator.cpp:206-210 | A reservation given back leaves the pools as before it, with one failure counted |
| MemoryAccounting.MemoryGlobals.Commit | modules/BlueMemory/src/HeapAllocator.cpp:92-97 | A reservation that is committed becomes a charge |
| AllocatorProxy.AllocatorProxy.Allocate | modules/BlueMemory/include/Blue/Memory/Proxy/AllocatorProxy.h:36-112 | Allocates exactly when pool and layer agree; afterwards pools, tracker and blocks are exactly those of the success, or only the failure is counted, with its reason; the process-wide metrics stay |
| AllocatorProxy.AllocatorProxy.Free | modules/BlueMemory/include/Blue/Memory/Proxy/AllocatorProxy.h:114-153 | Returns a block to the layer and class it came from and refunds its true size, also for a wrong description of a tracked block |
| ProxyLayers.Allocate | modules/BlueMemory/include/Blue/Memory/Proxy/AllocatorProxy.h:36-112 | On top of the small block allocator itself: succeeds exactly when the pool agrees and the layer serves the request; a small block is nobody's, aligned, and clear of every block held through any pool, which is derived and not assumed |
| ProxyLayers.Free | modules/BlueMemory/include/Blue/Memory/Proxy/AllocatorProxy.h:114-153 | A small block goes back to the allocator that carved it, onto the calling thread's list, and every other block stays where it is |
| ProxyLayers.DeliveryIsUsable | modules/BlueMemory/src/Allocator/SmallBlockAllocator.cpp:222-250 | What the small block allocator delivers is in no other block of any client and is aligned as asked |
| ProxyLayers.LayersAfter | modules/BlueMemory/src/Allocator/SmallBlockAllocator.cpp:151-178 | A new slab of the backend keeps clear of the blocks of the other layers |
| MemoryClient.PerformAll | modules/BlueMemory/src/HeapAllocator.cpp:18-308 | Any sequence of heap and proxy calls with arbitrary answers is a run of a pure machine: the same calls go through and pools, tracker, metrics and blocks end as it says; every pool and the live bytes count exactly the blocks held, and every tracked pointer is one of them |
| MemoryClient.Perform | modules/BlueMemory/src/HeapAllocator.cpp:18-308 | One call of any kind is one step of the machine and keeps the shared state right |
| MemoryClient.RunHolds | modules/BlueMemory/src/HeapAllocator.cpp:18-308 | The blocks held after a run of the machine are those of the calls that went through, in order |
| MemoryClient.NextHolds | modules/BlueMemory/src/HeapAllocator.cpp:18-308 | A step of the machine changes the held blocks as its call says, or, when it does not go through, neither blocks nor tracker nor metrics |
| MemoryClient.LeftOutIff | modules/BlueMemory/src/HeapAllocator.cpp:121-308 | Which calls a run leaves out, as conditions on the caller: blocks it does not hold, untracked blocks described wrongly, a change of pool, a null pointer with an old size, a pool that does not exist |
| MemoryClient.NothingHeldNothingCharged | modules/BlueMemory/src/HeapAllocator.cpp:274-308 | When everything was given back, every pool is at zero and its two lifetime totals agree |
| AllocationValidation.NormalizedAlignmentSuffices | modules/BlueMemory/include/Blue/Memory/Allocation/AllocationValidation.h:23-27 | An address aligned after normalization is aligned as requested |
| AllocationValidation.ValidationIff | modules/BlueMemory/include/Blue/Memory/Allocation/AllocationValidation.h:40-58 | Each answer of the request validation, as a condition on size, alignment and pool |
| AllocationValidation.ReallocationValidationIff | modules/BlueMemory/include/Blue/Memory/Allocation/AllocationValidation.h:60-73 | The same for reallocations, which may have size zero |
| Alignment.IsPowerOfTwoMeaning | modules/BlueSystem/include/Blue/System/Base/Alignment.inl:5-8 | The subtract-and-mask test accepts exactly the powers of two |
| Alignment.AlignUpIsLeastMultiple | modules/BlueSystem/include/Blue/System/Base/Alignment.inl:10-13 | Without overflow AlignUp is the least multiple of the alignment not below the value |
| Alignment.AlignUpIsUpperBoundIff | modules/BlueSystem/include/Blue/System/Base/Alignment.inl:10-13 | The result is an upper bound if and only if the sum fits 64 bits; otherwise it is zero |
| AtomicWord.AddFitsIff | modules/BlueMemory/src/Pool/MemoryPoolRegistry.cpp:153-158 | The test next < current recognizes exactly the sums that do not fit |
| AtomicWord.CounterDifference | modules/BlueMemory/src/Pool/MemoryPoolRegistry.cpp:182-209 | The difference of two wrapping totals is the true difference, reduced |
| BoundedOutput.BoundedOutputBuffer.Append | tools/BlueTestRunner/BoundedOutputBuffer.cpp:20-49 | Extends the stream by the chunk and keeps head and circular tail the first and last bytes of it, for every chunking |
| BoundedOutput.BoundedOutputBuffer.AppendTail | tools/BlueTestRunner/BoundedOutputBuffer.cpp:56-87 | Read from its oldest byte, the tail becomes the last bytes of what it showed and the data |
| BoundedOutput.BoundedOutputBuffer.OverwriteTail | tools/BlueTestRunner/BoundedOutputBuffer.cpp:80-86 | The overwrite loop keeps the linear view the last bytes written |
| BoundedOutput.BoundedOutputBuffer.AppendLinearizedTail | tools/BlueTestRunner/BoundedOutputBuffer.cpp:89-105 | Appends the tail from its oldest byte |
| BoundedOutput.BoundedOutputBuffer.BuildOutput | tools/BlueTestRunner/BoundedOutputBuffer.cpp:107-120 | Equals the first/last window of the stream if and only if the produced count has not saturated at a maximal limit |
| BoundedOutput.WindowShows | tools/BlueTestRunner/BoundedOutputBuffer.cpp:107-120 | A stream up to the limit is shown whole, a longer one through its first half-limit of bytes and its last, with the marker between, byte by byte |
| BoundedOutput.LastNAbsorbs | tools/BlueTestRunner/BoundedOutputBuffer.cpp:56-87 | Forgetting early bytes before appending does not change the last bytes |
| BoundedOutput.OverwriteOldest | tools/BlueTestRunner/BoundedOutputBuffer.cpp:80-86 | Overwriting the oldest run of a full circular buffer drops it and appends the new run |
| CommandLine.SplitUndoesLine | tools/BlueTestRunner/ProcessRunner_Windows.cpp:124-188 | Splitting by the Microsoft C rules gives back every list of arguments, under both rules for doubled quotes |
| CommandLine.SeparatesIff | tools/BlueTestRunner/ProcessRunner_Windows.cpp:131 | Between plain texts exactly a space or a tab separates arguments |
| CommandLine.LiteralBackslashes | tools/BlueTestRunner/ProcessRunner_Windows.cpp:160 | By the rules, backslashes that no quote follows are literal |
| CommandLine.EscapedQuote | tools/BlueTestRunner/ProcessRunner_Windows.cpp:150-156 | By the rules, 2n + 1 backslashes and a quote are n backslashes and a literal quote |
| CommandLine.QuotedText | tools/BlueTestRunner/ProcessRunner_Windows.cpp:139-165 | By the rules, text in quotes keeps its spaces and tabs, and 2n backslashes before the closing quote are n |
| CommandLine.DoubledQuote | tools/BlueTestRunner/ProcessRunner_Windows.cpp:150-156 | By the later rule, a doubled quote in quotes is a literal quote and the text stays in quotes |
| CommandLine.ReopenedQuote | tools/BlueTestRunner/ProcessRunner_Windows.cpp:150-156 | By the older rule, it closes the quotes and opens them again |
| ConditionVariable.SignalIsPossible | modules/BlueSystem/src/Platform/POSIX/Semaphore_POSIX.cpp:223-234 | A signal can always be given, whoever sleeps |
| CommandLine.LineIsInjective | tools/BlueTestRunner/ProcessRunner_Windows.cpp:168-188 | Different argument lists never share a command line |
| CommandLine.ReadQuotedArgument | tools/BlueTestRunner/ProcessRunner_Windows.cpp:124-166 | One printed argument is read back exactly, up to the separator or end behind it |
| CommandLine.ReadQuotedRest | tools/BlueTestRunner/ProcessRunner_Windows.cpp:141-165 | Inside quotes, pending backslashes, quotes and plain characters are read back |
| CommandLine.QuoteCommandArgument | tools/BlueTestRunner/ProcessRunner_Windows.cpp:124-166 | The scanning loop prints the specified quoted form: the argument itself if and only if it is not empty and has no space, tab or quote, else text between quotes |
| CommandLine.BuildCommandLine | tools/BlueTestRunner/ProcessRunner_Windows.cpp:168-188 | Succeeds exactly when every argument converts, and then splitting the line gives the program and its converted arguments |
| TestScheduler.ParallelEqualsSequential | tools/BlueTestRunner/TestScheduler.cpp:84-118 | Every complete interleaving of any number of workers yields the sequential result vector and runs each test exactly once |
| TestScheduler.NoWorkerBlocks | tools/BlueTestRunner/TestScheduler.cpp:96-109 | A worker that has not left its loop can always take its step |
| TestScheduler.CompleteRunLength | tools/BlueTestRunner/TestScheduler.cpp:96-115 | All workers have left exactly after three steps a test and one a worker, so joining terminates |
| TestScheduler.RunSequential | tools/BlueTestRunner/TestScheduler.cpp:70-82 | The results are those of the tests in order |
| TestScheduler.RunParallel | tools/BlueTestRunner/TestScheduler.cpp:84-118 | In whatever order the workers run, the results are the sequential ones |
| TestScheduler.RunTests | tools/BlueTestRunner/TestScheduler.cpp:148-168 | Every result is that of its own test, whatever the worker count |
| TestScheduler.ResolveWorkerCount | tools/BlueTestRunner/TestScheduler.cpp:121-146 | Never more workers than tests and at least one for a test; sequential mode has one, fixed mode as many as requested up to the tests, automatic mode the hardware threads, two if unknown, up to eight and the tests |
| TestScheduler.CountUnsuccessfulTests | tools/BlueTestRunner/TestScheduler.cpp:170-181 | Counts the tests that did not pass, reduced to 32 bits; below 2^32 tests it is zero exactly when all passed |
| Semaphore.EveryRunIsSafe | modules/BlueSystem/src/Platform/POSIX/Semaphore_POSIX.cpp:92-240 | Over every run with spurious wakeups, timeouts and barging: Count is the initial count plus accepted releases minus acquires, stays within the maximum, and while a thread sleeps is at most the notified threads that have not rerun |
| Semaphore.SleepersMeanAllPermitsTaken | modules/BlueSystem/src/Platform/POSIX/Semaphore_POSIX.cpp:92-240 | Once every notified thread has rerun, a thread sleeps only if every permit ever issued was taken |
| Semaphore.WakeupTakesPermit | modules/BlueSystem/src/Platform/POSIX/Semaphore_POSIX.cpp:105-112 | With a permit and a sleeper there is a notified thread, and it takes the permit whatever its wait reports |
| Semaphore.InterruptedReports | modules/BlueSystem/src/Platform/POSIX/Semaphore_POSIX.cpp:169-181 | A wait that its deadline ended reports the timeout, one that ended spuriously does not, and only a timed wait has a deadline |
| Semaphore.ReleaseTestIsExact | modules/BlueSystem/src/Platform/POSIX/Semaphore_POSIX.cpp:213-221 | The release test never underflows and is exact |
| SemaphoreCalls.NativeSemaphore.InitializeSemaphore | modules/BlueSystem/src/Platform/POSIX/Semaphore_POSIX.cpp:35-70 | Accepts exactly a positive maximum not below the initial count; a second call changes nothing |
| SemaphoreCalls.NativeSemaphore.AcquireSemaphore | modules/BlueSystem/src/Platform/POSIX/Semaphore_POSIX.cpp:92-117 | For every script of what the system does during its waits the call ends as the specified loop, only by taking a permit, or is still asleep when the script ends; it takes one at once if there is one; an uninitialized semaphore returns at once without one |
| SemaphoreCalls.NativeSemaphore.TryAcquireSemaphore | modules/BlueSystem/src/Platform/POSIX/Semaphore_POSIX.cpp:119-143 | Takes a permit exactly when there is one, and otherwise changes nothing |
| SemaphoreCalls.NativeSemaphore.AcquireSemaphoreFor | modules/BlueSystem/src/Platform/POSIX/Semaphore_POSIX.cpp:145-196 | Takes a permit at once if there is one, unless the deadline is unusable; a zero timeout never waits; with a usable deadline it ends as the wait loop does, and fails only by a timeout that found no permit |
| SemaphoreCalls.NativeSemaphore.WaitForPermit | modules/BlueSystem/src/Platform/POSIX/Semaphore_POSIX.cpp:169-189 | The timed wait loop ends as specified for every script of what the system does during its waits |
| SemaphoreCalls.NativeSemaphore.ReleaseSemaphore | modules/BlueSystem/src/Platform/POSIX/Semaphore_POSIX.cpp:198-240 | Accepts exactly what fits the maximum, adds it, and wakes one chosen sleeper or all |
| SemaphoreCalls.NativeSemaphore.IsSafe | modules/BlueSystem/src/Platform/POSIX/Semaphore_POSIX.cpp:92-240 | After any calls permits are conserved and no wakeup is lost |
| Event.AutoEventIsSafe | modules/BlueSystem/src/Platform/POSIX/Event_POSIX.cpp:92-248 | Automatic mode over every run: successful waits plus a pending signal never exceed the signals and the initial one, and a signaled event with a sleeper has a notified thread |
| Event.ManualEventIsSafe | modules/BlueSystem/src/Platform/POSIX/Event_POSIX.cpp:92-248 | Manual mode over every run: while the event is signaled nobody sleeps |
| Event.WakeupConsumesSignal | modules/BlueSystem/src/Platform/POSIX/Event_POSIX.cpp:145-170 | The notified thread of a signaled automatic event consumes the signal whatever its wait reports |
| Event.InterruptedReports | modules/BlueSystem/src/Platform/POSIX/Event_POSIX.cpp:222-233 | The same for the event |
| Event.ManualWakeupOutcome | modules/BlueSystem/src/Platform/POSIX/Event_POSIX.cpp:145-170 | A notified waiter of a manual event, timed or not, passes exactly when the event is signaled as it reruns, whatever its wait reports, which holds unless it was reset in between |
| EventCalls.NativeEvent.InitializeEvent | modules/BlueSystem/src/Platform/POSIX/Event_POSIX.cpp:43-70 | Starts in the described mode and state; a second call changes nothing |
| EventCalls.NativeEvent.WaitEvent | modules/BlueSystem/src/Platform/POSIX/Event_POSIX.cpp:145-170 | For every script of what the system does during its waits the call ends as the specified loop, only by passing the signaled event, consuming the signal of an automatic one, or is still asleep when the script ends; an uninitialized event returns at once without passing |
| EventCalls.NativeEvent.TryWaitEvent | modules/BlueSystem/src/Platform/POSIX/Event_POSIX.cpp:172-196 | Passes exactly when the event is signaled |
| EventCalls.NativeEvent.WaitEventFor | modules/BlueSystem/src/Platform/POSIX/Event_POSIX.cpp:198-248 | Passes at once a signaled event, unless the deadline is unusable; a zero timeout never waits; with a usable deadline it ends as the wait loop does, and fails only by a timeout that found no signal |
| EventCalls.NativeEvent.WaitForSignal | modules/BlueSystem/src/Platform/POSIX/Event_POSIX.cpp:222-241 | The timed wait loop ends as specified for every script of what the system does during its waits |
| EventCalls.NativeEvent.SignalEvent | modules/BlueSystem/src/Platform/POSIX/Event_POSIX.cpp:92-123 | Signals and wakes everybody in manual mode, a chosen sleeper in automatic mode |
| EventCalls.NativeEvent.ResetEvent | modules/BlueSystem/src/Platform/POSIX/Event_POSIX.cpp:125-143 | Clears the signal and nothing else |
| EventCalls.NativeEvent.IsSafe | modules/BlueSystem/src/Platform/POSIX/Event_POSIX.cpp:92-248 | After any calls the promises of the event's mode hold |

## Left out

- HeapAllocator.HeapAllocator.Reallocate: requires that the block keeps its pool, that an untracked block is described correctly, and that a null pointer comes with old size zero; `ResizeAccountsIff` says that the accounts are wrong without these.
- AllocatorProxy.AllocatorProxy.Free: requires that a block is freed through the proxy of its own pool and that an untracked block is described correctly; `RefundAccountsIff` says that the accounts are wrong otherwise.
- ProxyLayers.Free: requires the same; the heap allocator's own blocks take part only as blocks that must stay clear of the slabs.
- MemoryClient.PerformAll: a call that would break one of these requirements is left out of the run and reported as not done.
- HeapAllocator.HeapAllocator.Free: requires that an untracked block is described correctly; the code has nothing else to go by, and `RefundAccountsIff` says that the accounts are wrong otherwise.
- Metrics.MemoryMetrics.RecordMemoryAllocation: the retry loop of the peak is modelled under interference only as steps of `MetricsProtocol`, since the same loop is verified as code in `PoolRegistryCalls`.
- PoolRegistry.MemoryPoolRegistry.TryReserve: the sequential form without retries; the loop is in `PoolRegistryCalls`.
- PoolAllocator.PoolAllocator.Initialize: when a block comes back it requires that the sizes fit and the block is aligned and large enough; see `RequestHoldsSlotsIff` for when they fit. The old block of a pool that is initialized again is forgotten.
- PoolAllocator.PoolAllocator.Free: requires that a slot is not freed twice while others are in use, see `FreeKeepsListIff`; foreign and off-slot pointers are covered.
- SmallBlockAllocator.SmallBlockAllocator.FreeSmallBlock: requires a live block and its size and alignment; double frees and foreign pointers are not modelled.
- SmallBlockAllocator.SmallBlockAllocator.ShutdownSmallBlockAllocator: requires that no other call runs and that the 32-bit generation is not about to wrap; `SmallBlockGenerations` says what wrapping does.
- SmallBlockAllocator.SmallBlockAllocator.InitializeSmallBlockAllocator: requires the same, as it starts with a shutdown.
- AllocationTracker.MemoryAllocationTracker.Initialize: the byte size of the slot array is not modelled, so neither is its overflow for enormous capacities.
- TestScheduler.RunParallel: requires that the numbers of tests and workers together fit 64 bits; thread creation failures are not modelled.
- Weak memory ordering: the relaxed, acquire and release orders of the code are not modelled.
- Concurrent heap reallocation: the old record is removed only after the backend call, so the end-to-end accounts are stated for calls one after another.
- Threads that end with blocks in their cache: their blocks stay listed until the next shutdown.
- Statistics, failure reports, allocation tags, source locations, zero filling, out-of-memory policies and leak reports.
- Shutdown of the registry, the monitors and the pool, which return to the initial state.
- Results of mutex and condition variable calls other than success and timeout.
- The mapping of a test process's exit to a test status, which only reads a table.
- Process supervision in both runners, file system queries, elapsed times and the executable path's conversion.
- The Windows synchronization backends, thread creation, affinity, clocks and processor queries.
- The linear allocator, containers, job system, logger, console output and command line tool: easy members beside the core.
- SmidString: its move constructor does not carry the heap pointer over, so preservation of contents does not hold there.
