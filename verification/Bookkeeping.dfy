/**
 What the heap allocator and the proxies do to everything their calls change, as functions of what was there before:
 the pools, the tracker's map, the metrics and the set of live blocks.  The allocators are verified against these.
 */
module Bookkeeping {
  import opened Alignment
  import opened AllocationTracker
  import opened AllocationValidation
  import opened MemoryAccounting
  import opened Metrics
  import opened Options
  import opened PoolRegistry
  import opened ProbeTable
  import opened SmallBlockClasses
  import opened Words

  /** What the backend is asked to do. */
  datatype BackendCall =
    | AskAllocate(size: Size, alignment: Size)
    | AskReallocate(pointer: Pointer, oldSize: Size, newSize: Size, alignment: Size)
    | AskFree(pointer: Pointer, size: Size, alignment: Size)

  function HeapBlockOf(request: AllocationRequest): Block {
    Block(request.byteSize, request.alignment, request.pool, HeapBlock)
  }

  /** The block a proxy of this pool hands out for a request. */
  function ProxyBlockOf(size: Size, alignment: Size, pool: PoolId): Block {
    var normalized := NormalizeAlignment(alignment);
    Block(size, normalized, pool, ProxyBlock(Route(size, normalized)))
  }

  // ---- refusals ----

  /** Why the registry refuses a heap reservation, when it is in use. */
  function PoolRefusal(c: Conditions, pools: seq<Pool>, pool: PoolId, size: Size): FailureReason
    requires |pools| == MEMORY_POOL_COUNT
  {
    if c.registered then ReserveRefusal(true, c.enforcing, pools, pool, size) else NoFailure
  }

  /** Why a heap request is refused before the backend is asked. */
  function HeapRefusal(c: Conditions, validation: bool, pools: seq<Pool>, request: AllocationRequest): FailureReason
    requires |pools| == MEMORY_POOL_COUNT
  {
    if validation && ValidateRequest(request) != NoFailure then ValidateRequest(request)
    else PoolRefusal(c, pools, request.pool, request.byteSize)
  }

  /** Why the growth of a block is refused. */
  function GrowthRefusal(c: Conditions, pools: seq<Pool>, pool: PoolId, oldSize: Size, newSize: Size): FailureReason
    requires |pools| == MEMORY_POOL_COUNT
  {
    if newSize > oldSize then PoolRefusal(c, pools, pool, newSize - oldSize) else NoFailure
  }

  /** Why a proxy's pool refuses. */
  function ProxyRefusal(c: Conditions, pools: seq<Pool>, pool: PoolId, size: Size): FailureReason
    requires |pools| == MEMORY_POOL_COUNT
  {
    ReserveRefusal(c.registered, c.enforcing, pools, pool, size)
  }

  /** The pool exists and the bytes fit it. */
  predicate HasRoom(c: Conditions, pools: seq<Pool>, pool: PoolId, size: Size)
    requires |pools| == 6
  {
    && pool < 6
    && pools[pool].counters.current + size < WORD_VALUES
    && (c.enforcing && pools[pool].budget != 0 ==> pools[pool].counters.current + size <= pools[pool].budget)
  }

  /** A request the heap does not refuse is well formed and fits its pool. */
  lemma HeapRefusalIff(c: Conditions, validation: bool, pools: seq<Pool>, request: AllocationRequest)
    requires |pools| == MEMORY_POOL_COUNT
    ensures HeapRefusal(c, validation, pools, request) == NoFailure <==>
      && (validation ==> request.byteSize > 0 && PowerOfTwo(request.alignment) && request.pool < 6)
      && (c.registered ==> request.byteSize > 0 && HasRoom(c, pools, request.pool, request.byteSize))
  {
    ValidationIff(request);
  }

  /** Only growth can be refused, when its bytes do not fit the pool. */
  lemma GrowthRefusalIff(c: Conditions, pools: seq<Pool>, pool: PoolId, oldSize: Size, newSize: Size)
    requires |pools| == MEMORY_POOL_COUNT
    ensures GrowthRefusal(c, pools, pool, oldSize, newSize) == NoFailure
            <==> newSize <= oldSize || !c.registered || HasRoom(c, pools, pool, newSize - oldSize)
  {
  }

  /** A proxy needs a registry that is in use and a pool with room. */
  lemma ProxyRefusalIff(c: Conditions, pools: seq<Pool>, pool: PoolId, size: Size)
    requires |pools| == MEMORY_POOL_COUNT
    ensures ProxyRefusal(c, pools, pool, size) == NoFailure <==> c.registered && size > 0 && HasRoom(c, pools, pool, size)
  {
  }

  // ---- tracking ----

  /** The tracker's map after a block was admitted; the build or the request may opt out. */
  function AfterTracking(c: Conditions, contents: map<Pointer, Record>, record: Record, noTracking: bool)
    : map<Pointer, Record>
  {
    if c.tracking && !noTracking then Tracked(contents, c.trackerEnabled, c.trackerCapacity, record) else contents
  }

  /** A new block gets its record exactly when the build and the request want one and an enabled tracker has room. */
  lemma TrackedIff(c: Conditions, contents: map<Pointer, Record>, record: Record, noTracking: bool)
    requires record.pointer !in contents && record.pointer != NULL && record.byteSize > 0
    ensures var after := AfterTracking(c, contents, record, noTracking);
            if c.tracking && !noTracking && c.trackerEnabled && |contents| < c.trackerCapacity
               && PowerOfTwo(record.alignment) && record.pool < 6
            then after == contents[record.pointer := record]
            else after == contents
  {
    IsValidRecordIff(record);
  }

  // ---- heap calls ----

  function HeapRecord(pointer: Pointer, request: AllocationRequest): Record {
    Record(pointer, request.byteSize, request.alignment, request.pool)
  }

  /** A block for this request was handed out. */
  function AfterAllocating(c: Conditions, book: Book, pointer: Pointer, request: AllocationRequest): Book
    requires |book.pools| == MEMORY_POOL_COUNT
  {
    Book(if c.registered && IsValidPool(request.pool)
         then book.pools[request.pool := Charged(book.pools[request.pool], request.byteSize)] else book.pools,
         AfterTracking(c, book.contents, HeapRecord(pointer, request), request.noTracking),
         AfterAllocation(book.figures, request.byteSize),
         book.blocks[pointer := HeapBlockOf(request)])
  }

  /** No block was handed out: only the pool counts it, unless the request was malformed. */
  function AfterFailedAllocation(c: Conditions, validation: bool, book: Book, request: AllocationRequest): Book
    requires |book.pools| == MEMORY_POOL_COUNT
  {
    if validation && ValidateRequest(request) != NoFailure then book
    else
      var refusal := HeapRefusal(c, validation, book.pools, request);
      book.(pools := AfterFailure(c.registered, book.pools, request.pool,
                                  if refusal == NoFailure then BackendFailure else refusal))
  }

  /** Over the budget: the bytes fit a word but not the enforced budget of the pool. */
  predicate IsOverBudget(c: Conditions, pools: seq<Pool>, pool: PoolId, size: Size)
    requires |pools| == 6
  {
    && c.registered && pool < 6 && size > 0
    && pools[pool].counters.current + size < WORD_VALUES
    && c.enforcing && pools[pool].budget != 0 && pools[pool].counters.current + size > pools[pool].budget
  }

  /** A well-formed request that gets no block adds one failure to its pool, and one exceeded budget if that was why. */
  lemma FailedAllocationCounts(c: Conditions, validation: bool, book: Book, request: AllocationRequest)
    requires |book.pools| == MEMORY_POOL_COUNT && c.registered && request.pool < 6
    requires validation ==> request.byteSize > 0 && PowerOfTwo(request.alignment)
    ensures var was, is_ := book.pools[request.pool],
                            AfterFailedAllocation(c, validation, book, request).pools[request.pool];
            && is_.failedAllocations == (was.failedAllocations + 1) % WORD_VALUES
            && is_.counters.budgetExceeded
               == (was.counters.budgetExceeded
                   + if IsOverBudget(c, book.pools, request.pool, request.byteSize) then 1 else 0) % WORD_VALUES
  {
    ValidationIff(request);
    FailureKeepsAccounts(c.registered, book.pools, request.pool, BackendFailure, map[]);
    FailureKeepsAccounts(c.registered, book.pools, request.pool, HeapRefusal(c, validation, book.pools, request), map[]);
  }

  /** The same for a proxy. */
  lemma FailedProxyAllocationCounts(c: Conditions, book: Book, pool: PoolId, size: Size)
    requires |book.pools| == MEMORY_POOL_COUNT && c.registered && pool < 6
    ensures var was, is_ := book.pools[pool], AfterFailedProxyAllocation(c, book, pool, size).pools[pool];
            && is_.failedAllocations == (was.failedAllocations + 1) % WORD_VALUES
            && is_.counters.budgetExceeded
               == (was.counters.budgetExceeded + if IsOverBudget(c, book.pools, pool, size) then 1 else 0) % WORD_VALUES
  {
    FailureKeepsAccounts(c.registered, book.pools, pool, BackendFailure, map[]);
    FailureKeepsAccounts(c.registered, book.pools, pool, ProxyRefusal(c, book.pools, pool, size), map[]);
  }

  /** Growth that does not happen is counted so too; a block that does not grow is counted nowhere. */
  lemma FailedResizeCounts(c: Conditions, book: Book, pointer: Pointer, request: AllocationRequest)
    requires |book.pools| == MEMORY_POOL_COUNT && c.registered && request.pool < 6
    ensures var grows := request.byteSize > TrueSize(book.blocks, pointer);
            var was, is_ := book.pools[request.pool], AfterFailedResize(c, book, pointer, request).pools[request.pool];
            && is_.failedAllocations == (was.failedAllocations + if grows then 1 else 0) % WORD_VALUES
            && is_.counters.budgetExceeded
               == (was.counters.budgetExceeded
                   + if grows && IsOverBudget(c, book.pools, request.pool,
                                              request.byteSize - TrueSize(book.blocks, pointer))
                     then 1 else 0) % WORD_VALUES
  {
    FailureKeepsAccounts(c.registered, book.pools, request.pool, BackendFailure, map[]);
    FailureKeepsAccounts(c.registered, book.pools, request.pool, ResizeRefusal(c, book, pointer, request), map[]);
  }

  /** A block was given back; null is no block. */
  function AfterFreeing(c: Conditions, book: Book, pointer: Pointer): Book
    requires |book.pools| == MEMORY_POOL_COUNT && (pointer != NULL ==> pointer in book.blocks)
  {
    if pointer == NULL then book
    else
      var b := book.blocks[pointer];
      Book(if c.registered && IsValidPool(b.pool)
           then book.pools[b.pool := Refunded(book.pools[b.pool], b.size)] else book.pools,
           book.contents - {pointer},
           AfterFree(book.figures, b.size),
           book.blocks - {pointer})
  }

  /** The size a resize starts from; null starts from nothing. */
  function TrueSize(blocks: Blocks, pointer: Pointer): Size {
    if pointer in blocks then blocks[pointer].size else 0
  }

  function PoolsAfterResize(c: Conditions, pools: seq<Pool>, pool: PoolId, oldSize: Size, newSize: Size): seq<Pool>
    requires |pools| == MEMORY_POOL_COUNT
  {
    if c.registered && IsValidPool(pool) then pools[pool := Adjusted(pools[pool], oldSize, newSize)] else pools
  }

  /** A block was resized. */
  function AfterResizing(c: Conditions, book: Book, pointer: Pointer, to: Pointer, request: AllocationRequest): Book
    requires |book.pools| == MEMORY_POOL_COUNT
  {
    Book(PoolsAfterResize(c, book.pools, request.pool, TrueSize(book.blocks, pointer), request.byteSize),
         AfterTracking(c, book.contents - {pointer}, HeapRecord(to, request), request.noTracking),
         AfterReallocation(book.figures, TrueSize(book.blocks, pointer), request.byteSize),
         Resized(book.blocks, pointer, to, HeapBlockOf(request)))
  }

  /** What a resize that was refused, or that the backend did not carry out, does to the pools. */
  function PoolsAfterFailedResize(c: Conditions, pools: seq<Pool>, pool: PoolId, oldSize: Size, newSize: Size): seq<Pool>
    requires |pools| == MEMORY_POOL_COUNT
  {
    var refusal := GrowthRefusal(c, pools, pool, oldSize, newSize);
    if newSize > oldSize
    then AfterFailure(c.registered, pools, pool, if refusal == NoFailure then BackendFailure else refusal)
    else pools
  }

  /** Why a resize is refused before the backend is asked. */
  function ResizeRefusal(c: Conditions, book: Book, pointer: Pointer, request: AllocationRequest): FailureReason
    requires |book.pools| == MEMORY_POOL_COUNT
  {
    GrowthRefusal(c, book.pools, request.pool, TrueSize(book.blocks, pointer), request.byteSize)
  }

  /** A resize did not happen. */
  function AfterFailedResize(c: Conditions, book: Book, pointer: Pointer, request: AllocationRequest): Book
    requires |book.pools| == MEMORY_POOL_COUNT
  {
    book.(pools :=
      PoolsAfterFailedResize(c, book.pools, request.pool, TrueSize(book.blocks, pointer), request.byteSize))
  }

  /** Whether a reallocation is neither malformed nor a free. */
  function IsResize(validating: bool, request: AllocationRequest): bool {
    (validating ==> ValidateReallocation(request) == NoFailure) && request.byteSize != 0
  }

  function Normalized(request: AllocationRequest): AllocationRequest {
    request.(alignment := Max(request.alignment, 16))
  }

  /** Everything after a reallocation with this answer of the backend. */
  function AfterReallocating(
    c: Conditions, validating: bool, book: Book, pointer: Pointer, request: AllocationRequest, answer: Pointer): Book
    requires |book.pools| == MEMORY_POOL_COUNT && (pointer != NULL ==> pointer in book.blocks)
  {
    if validating && ValidateReallocation(request) != NoFailure then book
    else if request.byteSize == 0 then AfterFreeing(c, book, pointer)
    else if ResizeRefusal(c, book, pointer, request) == NoFailure && answer != NULL
    then AfterResizing(c, book, pointer, answer, Normalized(request))
    else AfterFailedResize(c, book, pointer, request)
  }

  /** Where the block is after a reallocation, null if the call returns none. */
  function Reallocated(
    c: Conditions, validating: bool, book: Book, pointer: Pointer, request: AllocationRequest, answer: Pointer): Pointer
    requires |book.pools| == MEMORY_POOL_COUNT
  {
    if IsResize(validating, request) && ResizeRefusal(c, book, pointer, request) == NoFailure then answer else NULL
  }

  /** What the backend is told of a block that goes back: its true size, and its own alignment if it is tracked. */
  function FreeCall(book: Book, pointer: Pointer, alignment: Size): Option<BackendCall>
    requires pointer != NULL ==> pointer in book.blocks
  {
    if pointer == NULL then None
    else
      var b := book.blocks[pointer];
      Some(AskFree(pointer, b.size, Max(16, if pointer in book.contents then b.alignment else alignment)))
  }

  // ---- proxy calls ----

  /** A proxy's block was handed out; the process-wide metrics do not count it. */
  function AfterProxyAllocating(
    c: Conditions, book: Book, pool: PoolId, pointer: Pointer, size: Size, alignment: Size, noTracking: bool): Book
    requires |book.pools| == MEMORY_POOL_COUNT && IsValidPool(pool)
  {
    Book(book.pools[pool := Charged(book.pools[pool], size)],
         AfterTracking(c, book.contents, Record(pointer, size, Max(alignment, 16), pool), noTracking),
         book.figures,
         book.blocks[pointer := ProxyBlockOf(size, alignment, pool)])
  }

  function AfterFailedProxyAllocation(c: Conditions, book: Book, pool: PoolId, size: Size): Book
    requires |book.pools| == MEMORY_POOL_COUNT
  {
    var refusal := ProxyRefusal(c, book.pools, pool, size);
    book.(pools := AfterFailure(c.registered, book.pools, pool, if refusal == NoFailure then BackendFailure else refusal))
  }

  function AfterProxyFreeing(c: Conditions, book: Book, pointer: Pointer): Book
    requires |book.pools| == MEMORY_POOL_COUNT && (pointer != NULL ==> pointer in book.blocks)
  {
    if pointer == NULL then book else AfterFreeing(c, book, pointer).(figures := book.figures)
  }
}
