/**
 Whole runs of heap and proxy calls with arbitrary answers of the layers below.  A pure machine says what every call
 does to everything; the allocators, with their probing table, reservations and rollbacks, are shown to be this machine.
 A call the client may not make, such as freeing what it does not hold, is left out of the run.
 */
module MemoryClient {
  import opened AllocationValidation
  import opened AllocatorProxy
  import opened Bookkeeping
  import opened HeapAllocator
  import opened MemoryAccounting
  import opened Metrics
  import opened PoolRegistry
  import opened Words

  datatype Call =
    | HeapAllocate(request: AllocationRequest, answer: Pointer)
    | HeapReallocate(pointer: Pointer, oldSize: Size, request: AllocationRequest, answer: Pointer)
    | HeapFree(pointer: Pointer, size: Size, alignment: Size, pool: PoolId)
    | ProxyAllocate(pool: PoolId, size: Size, alignment: Size, noTracking: bool, answer: Pointer)
    | ProxyFree(pool: PoolId, pointer: Pointer, size: Size, alignment: Size)

  /** A layer never answers with an address in use; such an answer stands for none. */
  function Usable(held: Blocks, answer: Pointer): Pointer {
    if answer in held then NULL else answer
  }

  /** A resize may also stay where it is. */
  function UsableFor(held: Blocks, pointer: Pointer, answer: Pointer): Pointer {
    if answer == pointer then answer else Usable(held, answer)
  }

  /** Whether the client owns the block and describes it well enough to free or resize it. */
  predicate DescribesOwn(held: Blocks, tracked: bool, pointer: Pointer, size: Size, pool: PoolId) {
    && pointer in held
    && held[pointer].owner.HeapBlock?
    && (tracked || (size == held[pointer].size && pool == held[pointer].pool))
  }

  predicate DescribesTo(held: Blocks, tracked: bool, pool: PoolId, pointer: Pointer, size: Size, alignment: Size) {
    && pointer in held
    && held[pointer].owner.ProxyBlock?
    && held[pointer].pool == pool
    && (tracked || (size == held[pointer].size && NormalizeAlignment(alignment) == held[pointer].alignment))
  }

  /** Whether the client may make this call, given whether the tracker knows the pointer it names. */
  predicate MayCall(held: Blocks, tracked: bool, call: Call) {
    match call
    case HeapAllocate(_, _) => true
    case HeapReallocate(pointer, oldSize, request, _) =>
      if pointer == NULL then oldSize == 0
      else DescribesOwn(held, tracked, pointer, oldSize, request.pool) && request.pool == held[pointer].pool
    case HeapFree(pointer, size, _, pool) => pointer == NULL || DescribesOwn(held, tracked, pointer, size, pool)
    case ProxyAllocate(pool, _, _, _, _) => IsValidPool(pool)
    case ProxyFree(pool, pointer, size, alignment) =>
      IsValidPool(pool) && (pointer == NULL || DescribesTo(held, tracked, pool, pointer, size, alignment))
  }

  function PointerOf(call: Call): Pointer {
    match call
    case HeapReallocate(pointer, _, _, _) => pointer
    case HeapFree(pointer, _, _, _) => pointer
    case ProxyFree(_, pointer, _, _) => pointer
    case _ => NULL
  }

  /** Exactly these calls are left out of a run. */
  lemma LeftOutIff(held: Blocks, tracked: bool, call: Call)
    ensures !MayCall(held, tracked, call) <==>
      match call
      case HeapAllocate(_, _) => false
      case ProxyAllocate(pool, _, _, _, _) => pool >= 6
      case HeapFree(p, size, _, pool) =>
        p != 0 && (p !in held || held[p].owner != HeapBlock || (!tracked && (size, pool) != (held[p].size, held[p].pool)))
      case HeapReallocate(p, oldSize, request, _) =>
        if p == 0 then oldSize != 0
        else p !in held || held[p].owner != HeapBlock || request.pool != held[p].pool || (!tracked && oldSize != held[p].size)
      case ProxyFree(pool, p, size, alignment) =>
        pool >= 6 || (p != 0 && (p !in held || held[p].owner == HeapBlock || held[p].pool != pool
                                 || (!tracked && (size, Max(alignment, 16)) != (held[p].size, held[p].alignment))))
  {
  }

  // ---- the machine ----

  /** What does not change during a run. */
  datatype Build = Build(conditions: Conditions, validation: bool, reallocationValidation: bool)

  /** Everything after a call, and whether it went through. */
  datatype Outcome = Outcome(book: Book, done: bool)

  /** Whether a reallocation moved, resized or freed its block. */
  function Moved(b: Build, book: Book, pointer: Pointer, request: AllocationRequest, answer: Pointer): bool
    requires |book.pools| == MEMORY_POOL_COUNT
  {
    if IsResize(b.reallocationValidation, request)
    then Reallocated(b.conditions, b.reallocationValidation, book, pointer, request, answer) != NULL
    else b.reallocationValidation ==> ValidateReallocation(request) == NoFailure
  }

  /** What a call the client may make does. */
  function Effect(b: Build, book: Book, call: Call): Outcome
    requires |book.pools| == MEMORY_POOL_COUNT
    requires MayCall(book.blocks, PointerOf(call) in book.contents, call)
  {
    var c := b.conditions;
    match call
    case HeapAllocate(request, answer) =>
      var usable := Usable(book.blocks, answer);
      if HeapRefusal(c, b.validation, book.pools, request) == NoFailure && request.byteSize != 0 && usable != NULL
      then Outcome(AfterAllocating(c, book, usable, Normalized(request)), true)
      else Outcome(AfterFailedAllocation(c, b.validation, book, request), false)
    case HeapReallocate(pointer, _, request, answer) =>
      var usable := UsableFor(book.blocks, pointer, answer);
      Outcome(AfterReallocating(c, b.reallocationValidation, book, pointer, request, usable),
              Moved(b, book, pointer, request, usable))
    case HeapFree(pointer, _, _, _) => Outcome(AfterFreeing(c, book, pointer), true)
    case ProxyAllocate(pool, size, alignment, noTracking, answer) =>
      var usable := Usable(book.blocks, answer);
      if ProxyRefusal(c, book.pools, pool, size) == NoFailure && usable != NULL
      then Outcome(AfterProxyAllocating(c, book, pool, usable, size, alignment, noTracking), true)
      else Outcome(AfterFailedProxyAllocation(c, book, pool, size), false)
    case ProxyFree(_, pointer, _, _) => Outcome(AfterProxyFreeing(c, book, pointer), true)
  }

  function Next(b: Build, book: Book, call: Call): Outcome
    requires |book.pools| == MEMORY_POOL_COUNT
  {
    if MayCall(book.blocks, PointerOf(call) in book.contents, call) then Effect(b, book, call) else Outcome(book, false)
  }

  /** Everything after a run, and which calls went through. */
  datatype Result = Result(book: Book, done: seq<bool>)

  function RunCalls(b: Build, book: Book, calls: seq<Call>): (r: Result)
    requires |book.pools| == MEMORY_POOL_COUNT
    ensures |r.book.pools| == MEMORY_POOL_COUNT && |r.done| == |calls|
  {
    if calls == [] then Result(book, [])
    else
      var last := |calls| - 1;
      var before := RunCalls(b, book, calls[..last]);
      var after := Next(b, before.book, calls[last]);
      Result(after.book, before.done + [after.done])
  }

  // ---- the blocks a run leaves ----

  /** What is held after a call that went through. */
  function After(held: Blocks, call: Call): Blocks {
    match call
    case HeapAllocate(request, answer) => held[answer := HeapBlockOf(Normalized(request))]
    case HeapReallocate(pointer, _, request, answer) =>
      if request.byteSize == 0 then held - {pointer}
      else Resized(held, pointer, answer, HeapBlockOf(Normalized(request)))
    case HeapFree(pointer, _, _, _) => held - {pointer}
    case ProxyAllocate(pool, size, alignment, _, answer) => held[answer := ProxyBlockOf(size, alignment, pool)]
    case ProxyFree(_, pointer, _, _) => held - {pointer}
  }

  /** What is held after a run, given which calls went through. */
  function HeldAfter(held: Blocks, calls: seq<Call>, done: seq<bool>): Blocks
    requires |done| == |calls|
  {
    if calls == [] then held
    else
      var last := |calls| - 1;
      var before := HeldAfter(held, calls[..last], done[..last]);
      if done[last] then After(before, calls[last]) else before
  }

  /** What a call does to the blocks, and what it leaves alone when it does not go through. */
  ghost predicate Holds(book: Book, call: Call, next: Outcome) {
    && next.book.blocks == (if next.done then After(book.blocks, call) else book.blocks)
    && NULL !in next.book.blocks
    && (!next.done ==> next.book.figures == book.figures && next.book.contents == book.contents)
  }

  lemma ReallocationHolds(b: Build, book: Book, pointer: Pointer, oldSize: Size, request: AllocationRequest,
                          answer: Pointer)
    requires |book.pools| == MEMORY_POOL_COUNT && NULL !in book.blocks
    requires var call := HeapReallocate(pointer, oldSize, request, answer);
             MayCall(book.blocks, pointer in book.contents, call)
    ensures var call := HeapReallocate(pointer, oldSize, request, answer);
            Holds(book, call, Effect(b, book, call))
  {
    assert book.blocks - {NULL} == book.blocks;
  }

  lemma NextHolds(b: Build, book: Book, call: Call)
    requires |book.pools| == MEMORY_POOL_COUNT && NULL !in book.blocks
    ensures Holds(book, call, Next(b, book, call))
  {
    assert book.blocks - {NULL} == book.blocks;
    if MayCall(book.blocks, PointerOf(call) in book.contents, call) {
      match call
      case HeapReallocate(pointer, oldSize, request, answer) =>
        ReallocationHolds(b, book, pointer, oldSize, request, answer);
      case _ =>
    }
  }

  /** The blocks held in the end are those of the calls that went through, in order. */
  lemma {:induction false} RunHolds(b: Build, book: Book, calls: seq<Call>)
    requires |book.pools| == MEMORY_POOL_COUNT && NULL !in book.blocks
    ensures var r := RunCalls(b, book, calls);
            r.book.blocks == HeldAfter(book.blocks, calls, r.done) && NULL !in r.book.blocks
  {
    if calls != [] {
      var last := |calls| - 1;
      RunHolds(b, book, calls[..last]);
      NextHolds(b, RunCalls(b, book, calls[..last]).book, calls[last]);
      assert RunCalls(b, book, calls).done[..last] == RunCalls(b, book, calls[..last]).done;
    }
  }

  // ---- the allocators are the machine ----

  /** The client's memory agrees with the shared state. */
  ghost predicate Agrees(heap: HeapAllocator, held: Blocks)
    reads heap, heap.globals, heap.globals.registry, heap.globals.tracker, heap.globals.tracker.slots, heap.globals.metrics
  {
    heap.Valid() && held == heap.globals.blocks
  }

  ghost function BuildOf(heap: HeapAllocator): Build
    reads heap, heap.globals, heap.globals.registry, heap.globals.tracker
  {
    Build(heap.Given(), heap.validation, heap.reallocationValidation)
  }

  method IsTracked(heap: HeapAllocator, ghost held: Blocks, pointer: Pointer) returns (tracked: bool)
    requires Agrees(heap, held)
    modifies heap.globals.tracker`collisionProbeCount
    ensures Agrees(heap, held)
    ensures tracked <==> pointer in heap.globals.tracker.contents
  {
    var record;
    tracked, record := heap.globals.tracker.TryFindTrackedMemoryAllocation(pointer);
  }

  method AllocateFromHeap(heap: HeapAllocator, held: Blocks, request: AllocationRequest, answer: Pointer)
    returns (done: bool, held': Blocks)
    requires Agrees(heap, held)
    modifies heap.globals, heap.globals.registry`pools, heap.globals.tracker, heap.globals.tracker.slots,
             heap.globals.metrics
    ensures heap.globals.tracker.slots == old(heap.globals.tracker.slots)
    ensures Agrees(heap, held')
    ensures Outcome(heap.Now(), done) == old(Effect(BuildOf(heap), heap.Now(), HeapAllocate(request, answer)))
  {
    var pointer, byteSize, asked := heap.Allocate(request, Usable(held, answer));
    done := pointer != NULL;
    held' := if done then held[pointer := HeapBlockOf(Normalized(request))] else held;
  }

  method ResizeOnHeap(heap: HeapAllocator, held: Blocks, pointer: Pointer, oldSize: Size, request: AllocationRequest,
                      answer: Pointer)
    returns (done: bool, held': Blocks)
    requires Agrees(heap, held)
    requires MayCall(held, pointer in heap.globals.tracker.contents, HeapReallocate(pointer, oldSize, request, answer))
    modifies heap.globals, heap.globals.registry`pools, heap.globals.tracker, heap.globals.tracker.slots,
             heap.globals.metrics
    ensures heap.globals.tracker.slots == old(heap.globals.tracker.slots)
    ensures Agrees(heap, held')
    ensures heap.Now() == old(AfterReallocating(heap.Given(), heap.reallocationValidation, heap.Now(), pointer, request,
                                                UsableFor(held, pointer, answer)))
    ensures done == old(Moved(BuildOf(heap), heap.Now(), pointer, request, UsableFor(held, pointer, answer)))
  {
    var newPointer, byteSize, asked := heap.Reallocate(pointer, oldSize, request, UsableFor(held, pointer, answer));
    if IsResize(heap.reallocationValidation, request) {
      done := newPointer != NULL;
      held' := if done then Resized(held, pointer, newPointer, HeapBlockOf(Normalized(request))) else held;
    } else {
      done := heap.reallocationValidation ==> ValidateReallocation(request) == NoFailure;
      held' := if done then held - {pointer} else held;
    }
  }

  method FreeToHeap(heap: HeapAllocator, held: Blocks, pointer: Pointer, size: Size, alignment: Size, pool: PoolId)
    returns (held': Blocks)
    requires Agrees(heap, held)
    requires MayCall(held, pointer in heap.globals.tracker.contents, HeapFree(pointer, size, alignment, pool))
    modifies heap.globals, heap.globals.registry`pools, heap.globals.tracker, heap.globals.tracker.slots,
             heap.globals.metrics
    ensures heap.globals.tracker.slots == old(heap.globals.tracker.slots)
    ensures Agrees(heap, held')
    ensures heap.Now() == old(AfterFreeing(heap.Given(), heap.Now(), pointer))
  {
    var asked := heap.Free(pointer, size, alignment, pool);
    held' := held - {pointer};
  }

  method AllocateThrough(heap: HeapAllocator, held: Blocks, pool: PoolId, size: Size, alignment: Size, noTracking: bool,
                         answer: Pointer)
    returns (done: bool, held': Blocks)
    requires Agrees(heap, held) && IsValidPool(pool)
    modifies heap.globals, heap.globals.registry`pools, heap.globals.tracker, heap.globals.tracker.slots
    ensures heap.globals.tracker.slots == old(heap.globals.tracker.slots)
    ensures Agrees(heap, held')
    ensures done <==>
      old(ProxyRefusal(heap.Given(), heap.globals.registry.pools, pool, size)) == NoFailure && Usable(held, answer) != NULL
    ensures heap.Now() ==
      if done then old(AfterProxyAllocating(heap.Given(), heap.Now(), pool, answer, size, alignment, noTracking))
      else old(AfterFailedProxyAllocation(heap.Given(), heap.Now(), pool, size))
  {
    var proxy := new AllocatorProxy(heap.globals, pool, heap.tracking);
    var pointer, layer := proxy.Allocate(size, alignment, noTracking, Usable(held, answer));
    done := pointer != NULL;
    held' := if done then held[pointer := ProxyBlockOf(size, alignment, pool)] else held;
  }

  method FreeThrough(heap: HeapAllocator, held: Blocks, pool: PoolId, pointer: Pointer, size: Size, alignment: Size)
    returns (held': Blocks)
    requires Agrees(heap, held)
    requires MayCall(held, pointer in heap.globals.tracker.contents, ProxyFree(pool, pointer, size, alignment))
    modifies heap.globals, heap.globals.registry`pools, heap.globals.tracker, heap.globals.tracker.slots
    ensures heap.globals.tracker.slots == old(heap.globals.tracker.slots)
    ensures Agrees(heap, held')
    ensures heap.Now() == old(AfterProxyFreeing(heap.Given(), heap.Now(), pointer))
  {
    var proxy := new AllocatorProxy(heap.globals, pool, heap.tracking);
    var freedSize, freedAlignment, layer := proxy.Free(pointer, size, alignment);
    held' := held - {pointer};
  }

  /** Carries out a call the client may make. */
  method Carry(heap: HeapAllocator, held: Blocks, call: Call) returns (done: bool, held': Blocks)
    requires Agrees(heap, held) && MayCall(held, PointerOf(call) in heap.globals.tracker.contents, call)
    modifies heap.globals, heap.globals.registry`pools, heap.globals.tracker, heap.globals.tracker.slots,
             heap.globals.metrics
    ensures heap.globals.tracker.slots == old(heap.globals.tracker.slots)
    ensures Agrees(heap, held')
    ensures Outcome(heap.Now(), done) == old(Effect(BuildOf(heap), heap.Now(), call))
  {
    match call {
      case HeapAllocate(request, answer) => done, held' := AllocateFromHeap(heap, held, request, answer);
      case HeapReallocate(pointer, oldSize, request, answer) =>
        done, held' := ResizeOnHeap(heap, held, pointer, oldSize, request, answer);
      case HeapFree(pointer, size, alignment, pool) =>
        done := true;
        held' := FreeToHeap(heap, held, pointer, size, alignment, pool);
      case ProxyAllocate(pool, size, alignment, noTracking, answer) =>
        done, held' := AllocateThrough(heap, held, pool, size, alignment, noTracking, answer);
      case ProxyFree(pool, pointer, size, alignment) =>
        done := true;
        held' := FreeThrough(heap, held, pool, pointer, size, alignment);
    }
  }

  /** One call is one step of the machine, and the shared state stays right. */
  method Perform(heap: HeapAllocator, held: Blocks, call: Call) returns (done: bool, held': Blocks)
    requires Agrees(heap, held)
    modifies heap.globals, heap.globals.registry`pools, heap.globals.tracker, heap.globals.tracker.slots,
             heap.globals.metrics
    ensures heap.globals.tracker.slots == old(heap.globals.tracker.slots)
    ensures Agrees(heap, held')
    ensures Outcome(heap.Now(), done) == old(Next(BuildOf(heap), heap.Now(), call))
    ensures BuildOf(heap) == old(BuildOf(heap))
  {
    var tracked := IsTracked(heap, held, PointerOf(call));
    if !MayCall(held, tracked, call) {
      return false, held;
    }
    done, held' := Carry(heap, held, call);
  }

  /** What the counters say about the blocks a client holds. */
  ghost predicate CountersMatch(heap: HeapAllocator, held: Blocks)
    requires heap.globals.registry.Valid()
    reads heap, heap.globals, heap.globals.registry, heap.globals.metrics
  {
    && (heap.globals.registry.initialized ==> Accounted(heap.globals.registry.pools, held))
    && heap.globals.metrics.currentLiveBytes == Bytes(held, OnHeap) % WORD_VALUES
  }

  /**
   Any run of calls from two kinds of allocators on the same globals, with any answers, is the machine's run: the
   same calls go through and everything ends as it says.  Every pool and the metrics count exactly the bytes of the
   blocks still held, and every tracked pointer is a held block.
   */
  method PerformAll(heap: HeapAllocator, start: Blocks, calls: seq<Call>) returns (held: Blocks, done: seq<bool>)
    requires Agrees(heap, start)
    modifies heap.globals, heap.globals.registry`pools, heap.globals.tracker, heap.globals.tracker.slots,
             heap.globals.metrics
    ensures heap.globals.tracker.slots == old(heap.globals.tracker.slots)
    ensures Result(heap.Now(), done) == old(RunCalls(BuildOf(heap), heap.Now(), calls))
    ensures held == HeldAfter(start, calls, done)
    ensures Agrees(heap, held) && CountersMatch(heap, held)
    ensures forall p :: p in heap.globals.tracker.contents ==> Describes(heap.globals.tracker.contents, held, p)
  {
    held, done := start, [];
    ghost var build, book := BuildOf(heap), heap.Now();
    for i := 0 to |calls|
      invariant heap.globals.tracker.slots == old(heap.globals.tracker.slots)
      invariant Agrees(heap, held) && BuildOf(heap) == build
      invariant Result(heap.Now(), done) == RunCalls(build, book, calls[..i])
    {
      var ok, next := Perform(heap, held, calls[i]);
      assert calls[..i + 1][..i] == calls[..i];
      held, done := next, done + [ok];
    }
    assert calls[..|calls|] == calls;
    RunHolds(build, book, calls);
  }

  /** A client that has given everything back leaves nothing charged. */
  lemma NothingHeldNothingCharged(pools: seq<Pool>, pool: PoolId)
    requires Accounted(pools, map[]) && IsValidPool(pool)
    ensures pools[pool].counters.current == 0
    ensures pools[pool].counters.totalAllocated == pools[pool].counters.totalFreed
  {
    assert PoolAccounted(pools, map[], pool);
  }
}
