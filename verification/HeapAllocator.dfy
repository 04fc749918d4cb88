/**
 The heap allocator: each call ties a budget reservation, the backend, the tracker and the counters
 together, and unwinds what it did when a later step fails.  Backend answers are parameters.
 */
module HeapAllocator {
  import opened AllocationTracker
  import opened AllocationValidation
  import opened Bookkeeping
  import opened MemoryAccounting
  import opened Metrics
  import opened Options
  import opened PoolRegistry
  import opened ProbeTable
  import opened Words

  /** The pools of a resize between its reservation and its end; only growth reserves. */
  ghost predicate Growing(
    initialized: bool, before: seq<Pool>, now: seq<Pool>, pool: PoolId, oldSize: Size, newSize: Size)
  {
    if newSize > oldSize then Holding(initialized, before, now, pool, newSize - oldSize) else now == before
  }

  class HeapAllocator {
    const globals: MemoryGlobals

    // Compile-time switches of the build.
    const validation: bool
    const reallocationValidation: bool
    const tracking: bool

    constructor (globals: MemoryGlobals, validation: bool, reallocationValidation: bool, tracking: bool)
      ensures this.globals == globals && this.validation == validation
      ensures this.reallocationValidation == reallocationValidation && this.tracking == tracking
    {
      this.globals := globals;
      this.validation, this.reallocationValidation, this.tracking := validation, reallocationValidation, tracking;
    }

    ghost predicate Valid()
      reads this, globals, globals.registry, globals.tracker, globals.tracker.slots, globals.metrics
    {
      globals.Valid() && (!tracking ==> globals.tracker.contents == map[])
    }

    /** The backend refuses an empty request; otherwise its answer is a new address or null. */
    function BackendAnswer(byteSize: Size, answer: Pointer): Pointer {
      if byteSize == 0 then NULL else answer
    }

    ghost function Now(): Book
      reads globals, globals.registry, globals.tracker, globals.metrics
    {
      globals.Now()
    }

    ghost function Given(): Conditions
      reads globals.registry, globals.tracker
    {
      globals.Given(tracking)
    }

    /** The tracker's map after a block for this request was admitted. */
    ghost function AfterAdmission(contents: map<Pointer, Record>, pointer: Pointer, request: AllocationRequest)
      : map<Pointer, Record>
      reads globals.registry, globals.tracker
    {
      AfterTracking(Given(), contents, HeapRecord(pointer, request), request.noTracking)
    }

    /** Allocates exactly when the request is valid, fits its pool and the backend delivers; a failure leaves every account as it was. */
    method Allocate(request: AllocationRequest, answer: Pointer)
      returns (pointer: Pointer, byteSize: Size, asked: Option<BackendCall>)
      requires Valid()
      requires answer != NULL ==> answer !in globals.blocks
      modifies globals, globals.registry`pools, globals.tracker, globals.tracker.slots, globals.metrics
      ensures globals.tracker.slots == old(globals.tracker.slots)
      ensures Valid()
      ensures pointer != NULL <==>
        old(HeapRefusal(Given(), validation, Now().pools, request)) == NoFailure && request.byteSize != 0 && answer != NULL
      ensures asked == if old(HeapRefusal(Given(), validation, Now().pools, request)) == NoFailure
                       then Some(AskAllocate(request.byteSize, Max(request.alignment, 16))) else None
      ensures pointer == NULL ==>
        byteSize == 0 && Now() == old(AfterFailedAllocation(Given(), validation, Now(), request))
      ensures pointer != NULL ==>
        && pointer == answer && byteSize == request.byteSize
        && Now() == old(AfterAllocating(Given(), Now(), answer, Normalized(request)))
    {
      if validation && ValidateRequest(request) != NoFailure {
        return NULL, 0, None;
      }
      var normalized := NormalizeRequest(request);
      var reserved := Reserve(normalized.pool, normalized.byteSize);
      if !reserved {
        return NULL, 0, None;
      }
      asked := Some(AskAllocate(normalized.byteSize, normalized.alignment));
      pointer := BackendAnswer(normalized.byteSize, answer);
      if pointer == NULL {
        Unreserve(normalized.pool, normalized.byteSize, old(globals.registry.pools));
        return NULL, 0, asked;
      }
      byteSize := normalized.byteSize;
      Keep(pointer, normalized, old(globals.registry.pools));
    }

    /** The backend failed: the reservation goes back and the failure is counted. */
    method Unreserve(pool: PoolId, size: Size, ghost before: seq<Pool>)
      requires globals.registry.Valid() && globals.Mirrors()
      requires Holding(globals.registry.initialized, before, globals.registry.pools, pool, size)
      requires globals.registry.initialized ==> Accounted(before, globals.blocks)
      modifies globals.registry`pools
      ensures globals.Valid() && |before| == MEMORY_POOL_COUNT
      ensures globals.registry.pools == AfterFailure(globals.registry.initialized, before, pool, BackendFailure)
    {
      globals.CancelReservation(pool, size, before);
      FailureKeepsAccounts(globals.registry.initialized, before, pool, BackendFailure, globals.blocks);
    }

    /** The backend delivered: the reservation becomes a charge and the block is tracked and measured. */
    method Keep(pointer: Pointer, request: AllocationRequest, ghost before: seq<Pool>)
      requires globals.registry.Valid() && globals.Mirrors() && pointer != NULL && pointer !in globals.blocks
      requires Holding(globals.registry.initialized, before, globals.registry.pools, request.pool, request.byteSize)
      requires globals.registry.initialized ==> Accounted(before, globals.blocks)
      modifies globals, globals.registry`pools, globals.tracker, globals.tracker.slots, globals.metrics
      ensures globals.tracker.slots == old(globals.tracker.slots)
      ensures globals.Valid() && |before| == MEMORY_POOL_COUNT
      ensures globals.blocks == old(globals.blocks)[pointer := HeapBlockOf(request)]
      ensures globals.tracker.contents == old(AfterAdmission(globals.tracker.contents, pointer, request))
      ensures globals.metrics.Now() == AfterAllocation(old(globals.metrics.Now()), request.byteSize)
      ensures globals.registry.initialized ==>
        IsValidPool(request.pool)
        && globals.registry.pools == before[request.pool := Charged(before[request.pool], request.byteSize)]
      ensures !globals.registry.initialized ==> globals.registry.pools == before
    {
      globals.Commit(request.pool, request.byteSize, before);
      if globals.registry.initialized {
        BlockAdded(before, globals.blocks, pointer, HeapBlockOf(request));
      }
      Admit(pointer, request);
    }

    /** Reserves bytes when the registry is in use; a refusal is counted and changes no account. */
    method Reserve(pool: PoolId, size: Size) returns (ok: bool)
      requires globals.registry.Valid()
      modifies globals.registry`pools
      ensures globals.registry.Valid()
      ensures ok <==> old(PoolRefusal(Given(), Now().pools, pool, size)) == NoFailure
      ensures !ok ==> globals.registry.pools
                      == AfterFailure(true, old(globals.registry.pools), pool, old(PoolRefusal(Given(), Now().pools, pool, size)))
      ensures !ok ==> globals.registry.initialized
                      && forall blocks :: Accounted(old(globals.registry.pools), blocks) ==>
                           Accounted(globals.registry.pools, blocks)
      ensures ok ==> Holding(globals.registry.initialized, old(globals.registry.pools), globals.registry.pools, pool, size)
    {
      if globals.registry.initialized {
        var reserved, reason := globals.registry.TryReserve(pool, size);
        if !reserved {
          globals.registry.RecordFailure(pool);
          assert globals.registry.pools == AfterFailure(true, old(globals.registry.pools), pool, reason);
          forall blocks | Accounted(old(globals.registry.pools), blocks)
            ensures Accounted(globals.registry.pools, blocks)
          {
            FailureKeepsAccounts(true, old(globals.registry.pools), pool, reason, blocks);
          }
        }
        return reserved;
      }
      return true;
    }

    /** Tracks and measures a block the registry has already been charged for. */
    method Admit(pointer: Pointer, request: AllocationRequest)
      requires globals.Mirrors() && pointer != NULL && pointer !in globals.blocks
      modifies globals, globals.tracker, globals.tracker.slots, globals.metrics
      ensures globals.tracker.slots == old(globals.tracker.slots)
      ensures globals.Mirrors()
      ensures globals.blocks == old(globals.blocks)[pointer := HeapBlockOf(request)]
      ensures globals.tracker.contents == old(AfterAdmission(globals.tracker.contents, pointer, request))
      ensures globals.metrics.Now() == AfterAllocation(old(globals.metrics.Now()), request.byteSize)
    {
      Track(pointer, request, globals.blocks);
      LiveBytesAdded(globals.metrics.currentLiveBytes, globals.blocks, pointer, HeapBlockOf(request));
      globals.metrics.RecordMemoryAllocation(request.byteSize);
      globals.blocks := globals.blocks[pointer := HeapBlockOf(request)];
    }

    /** Tracks a new block unless the request or the build says otherwise; the table may also be full. */
    method Track(pointer: Pointer, request: AllocationRequest, ghost blocks: Blocks)
      requires globals.tracker.Valid()
      requires pointer !in blocks && AllDescribed(globals.tracker.contents, blocks)
      modifies globals.tracker, globals.tracker.slots
      ensures globals.tracker.Valid() && globals.tracker.slots == old(globals.tracker.slots)
      ensures AllDescribed(globals.tracker.contents, blocks[pointer := HeapBlockOf(request)])
      ensures globals.tracker.contents == old(AfterAdmission(globals.tracker.contents, pointer, request))
    {
      ghost var before := globals.tracker.contents;
      if tracking && !request.noTracking {
        var tracked := globals.tracker.TrackMemoryAllocation(
          Record(pointer, request.byteSize, request.alignment, request.pool));
      }
      AdmitDescribes(before, globals.tracker.contents, blocks, pointer, HeapBlockOf(request));
    }

    /** A block this allocator handed out, described well enough to be freed or resized. */
    ghost predicate Owns(pointer: Pointer, size: Size, pool: PoolId)
      reads globals, globals.tracker
    {
      globals.Knows(pointer, size, pool) && globals.blocks[pointer].owner.HeapBlock?
    }

    /**
     Frees a block and refunds its true size to its true pool, also when the caller described a tracked block
     wrongly.  The backend is told the true size, and the block's own alignment if it is tracked.
     */
    method Free(pointer: Pointer, size: Size, alignment: Size, pool: PoolId) returns (asked: Option<BackendCall>)
      requires Valid()
      requires pointer != NULL ==> Owns(pointer, size, pool)
      modifies globals, globals.registry`pools, globals.tracker, globals.tracker.slots, globals.metrics
      ensures globals.tracker.slots == old(globals.tracker.slots)
      ensures Valid()
      ensures asked == if pointer == NULL then None
                       else Some(AskFree(pointer, old(globals.blocks[pointer]).size, Max(16,
                              if pointer in old(globals.tracker.contents) then old(globals.blocks[pointer]).alignment
                              else alignment)))
      ensures Now() == old(AfterFreeing(Given(), Now(), pointer))
    {
      if pointer == NULL {
        return None;
      }
      var call := FreeBlock(Record(pointer, size, alignment, pool));
      asked := Some(call);
    }

    method FreeBlock(request: Record) returns (asked: BackendCall)
      requires Valid() && Owns(request.pointer, request.byteSize, request.pool)
      modifies globals, globals.registry`pools, globals.tracker, globals.tracker.slots, globals.metrics
      ensures globals.tracker.slots == old(globals.tracker.slots)
      ensures Valid()
      ensures globals.blocks == old(globals.blocks) - {request.pointer}
      ensures globals.tracker.contents == old(globals.tracker.contents) - {request.pointer}
      ensures var b, tracked := old(globals.blocks[request.pointer]), request.pointer in old(globals.tracker.contents);
              && asked == AskFree(request.pointer, b.size, Max(16, if tracked then b.alignment else request.alignment))
              && globals.metrics.Now() == AfterFree(old(globals.metrics.Now()), b.size)
              && globals.registry.pools == if globals.registry.HasPool(b.pool)
                   then old(globals.registry.pools)[b.pool := Refunded(old(globals.registry.pools[b.pool]), b.size)]
                   else old(globals.registry.pools)
    {
      var effective := Untrack(request);
      asked := AskFree(request.pointer, effective.byteSize, NormalizeAlignment(effective.alignment));
      Refund(request.pointer, effective.pool, effective.byteSize);
    }

    /** Replaces the caller's description by the tracked one and forgets the pointer. */
    method Untrack(request: Record) returns (effective: Record)
      requires Valid() && Owns(request.pointer, request.byteSize, request.pool)
      modifies globals.tracker, globals.tracker.slots
      ensures globals.MirrorsBut(request.pointer) && globals.tracker.slots == old(globals.tracker.slots)
      ensures effective.byteSize == globals.blocks[request.pointer].size
      ensures effective.pool == globals.blocks[request.pointer].pool
      ensures effective.alignment == if request.pointer in old(globals.tracker.contents)
                                     then globals.blocks[request.pointer].alignment else request.alignment
      ensures globals.tracker.contents == old(globals.tracker.contents) - {request.pointer}
      ensures !tracking ==> globals.tracker.contents == map[]
    {
      effective := request;
      ghost var before := globals.tracker.contents;
      assert Describes(before, globals.blocks, request.pointer);
      if tracking {
        var found, tracked := globals.tracker.UntrackMemoryAllocation(request.pointer);
        if found {
          effective := Record(request.pointer, tracked.byteSize, tracked.alignment, tracked.pool);
        }
      }
      RemoveDescribes(before, globals.tracker.contents, globals.blocks, request.pointer);
    }

    /** Refunds a block that is no longer tracked. */
    method Refund(pointer: Pointer, pool: PoolId, size: Size)
      requires globals.registry.Valid() && globals.MirrorsBut(pointer)
      requires pointer in globals.blocks && globals.blocks[pointer].owner.HeapBlock?
      requires size == globals.blocks[pointer].size && pool == globals.blocks[pointer].pool
      requires globals.registry.initialized ==> Accounted(globals.registry.pools, globals.blocks)
      modifies globals, globals.registry`pools, globals.metrics
      ensures globals.Valid()
      ensures globals.blocks == old(globals.blocks) - {pointer}
      ensures globals.registry.pools == if globals.registry.HasPool(pool)
                then old(globals.registry.pools)[pool := Refunded(old(globals.registry.pools[pool]), size)]
                else old(globals.registry.pools)
      ensures globals.metrics.Now() == AfterFree(old(globals.metrics.Now()), size)
    {
      if globals.registry.initialized {
        BlockRemoved(globals.registry.pools, globals.blocks, pointer);
        globals.registry.RecordFree(pool, size);
      }
      LiveBytesRemoved(globals.metrics.currentLiveBytes, globals.blocks, pointer);
      globals.metrics.RecordMemoryFree(size);
      globals.blocks := globals.blocks - {pointer};
    }

    /**
     Resizes, or allocates from null, or frees with size zero.  A failed resize keeps the old block and all
     accounts; a successful one charges or refunds exactly the size difference.  The block stays in its pool.
     */
    method Reallocate(pointer: Pointer, oldSize: Size, request: AllocationRequest, answer: Pointer)
      returns (newPointer: Pointer, byteSize: Size, asked: Option<BackendCall>)
      requires Valid()
      requires pointer == NULL ==> oldSize == 0
      requires pointer != NULL ==> Owns(pointer, oldSize, request.pool) && request.pool == globals.blocks[pointer].pool
      requires answer != NULL ==> answer == pointer || answer !in globals.blocks
      modifies globals, globals.registry`pools, globals.tracker, globals.tracker.slots, globals.metrics
      ensures globals.tracker.slots == old(globals.tracker.slots)
      ensures Valid()
      ensures newPointer == old(Reallocated(Given(), reallocationValidation, Now(), pointer, request, answer))
      ensures byteSize == if newPointer == NULL then 0 else request.byteSize
      ensures asked ==
        if reallocationValidation && ValidateReallocation(request) != NoFailure then None
        else if request.byteSize == 0 then old(FreeCall(Now(), pointer, request.alignment))
        else if old(ResizeRefusal(Given(), Now(), pointer, request)) != NoFailure then None
        else Some(AskReallocate(pointer, old(TrueSize(globals.blocks, pointer)), request.byteSize,
                                Max(request.alignment, 16)))
      ensures Now() == old(AfterReallocating(Given(), reallocationValidation, Now(), pointer, request, answer))
    {
      if reallocationValidation && ValidateReallocation(request) != NoFailure {
        return NULL, 0, None;
      }
      ghost var refusal;
      newPointer, byteSize, asked, refusal := ReallocateValid(pointer, oldSize, NormalizeRequest(request), answer);
    }

    /** A reallocation that passed validation, its request normalized. */
    method ReallocateValid(pointer: Pointer, oldSize: Size, normalized: AllocationRequest, answer: Pointer)
      returns (newPointer: Pointer, byteSize: Size, asked: Option<BackendCall>, ghost refusal: FailureReason)
      requires Valid()
      requires pointer == NULL ==> oldSize == 0
      requires pointer != NULL ==>
        Owns(pointer, oldSize, normalized.pool) && normalized.pool == globals.blocks[pointer].pool
      requires answer != NULL ==> answer == pointer || answer !in globals.blocks
      modifies globals, globals.registry`pools, globals.tracker, globals.tracker.slots, globals.metrics
      ensures globals.tracker.slots == old(globals.tracker.slots)
      ensures Valid()
      ensures normalized.byteSize == 0 ==>
        && newPointer == NULL && byteSize == 0
        && asked == old(FreeCall(Now(), pointer, normalized.alignment)) && Now() == old(AfterFreeing(Given(), Now(), pointer))
      ensures refusal == old(ResizeRefusal(Given(), Now(), pointer, normalized))
      ensures normalized.byteSize != 0 ==>
        && newPointer == (if refusal == NoFailure then answer else NULL)
        && byteSize == (if newPointer == NULL then 0 else normalized.byteSize)
        && asked == (if refusal != NoFailure then None
                     else Some(AskReallocate(pointer, old(TrueSize(globals.blocks, pointer)), normalized.byteSize,
                                             normalized.alignment)))
      ensures normalized.byteSize != 0 ==>
        Now() == if newPointer == NULL then old(AfterFailedResize(Given(), Now(), pointer, normalized))
                 else old(AfterResizing(Given(), Now(), pointer, answer, normalized))
    {
      refusal := ResizeRefusal(Given(), Now(), pointer, normalized);
      var hadRecord, existing, fromSize := FindOldSize(pointer, oldSize, normalized.pool);
      if normalized.byteSize == 0 {
        asked := FreeInstead(pointer, fromSize, normalized, hadRecord, existing);
        return NULL, 0, asked, refusal;
      }
      newPointer, byteSize, asked, refusal := Resize(pointer, fromSize, normalized, hadRecord, answer);
    }

    /** The size to start from: the record's, if there is one, else what the caller says. */
    method FindOldSize(pointer: Pointer, oldSize: Size, ghost pool: PoolId)
      returns (hadRecord: bool, existing: Record, fromSize: Size)
      requires Valid() && (if pointer == NULL then oldSize == 0 else Owns(pointer, oldSize, pool))
      modifies globals.tracker`collisionProbeCount
      ensures Valid()
      ensures hadRecord <==> pointer in globals.tracker.contents
      ensures hadRecord ==> existing == globals.tracker.contents[pointer]
      ensures fromSize == TrueSize(globals.blocks, pointer)
    {
      hadRecord, existing := FindRecord(pointer);
      fromSize := if hadRecord then existing.byteSize else oldSize;
      assert Describes(globals.tracker.contents, globals.blocks, pointer);
    }

    /** A resize to nothing: the record, if there is one, knows the block best. */
    method FreeInstead(pointer: Pointer, fromSize: Size, normalized: AllocationRequest, hadRecord: bool, existing: Record)
      returns (asked: Option<BackendCall>)
      requires Valid() && (pointer != NULL ==> Owns(pointer, fromSize, normalized.pool))
      requires hadRecord <==> pointer in globals.tracker.contents
      requires hadRecord ==> existing == globals.tracker.contents[pointer]
      modifies globals, globals.registry`pools, globals.tracker, globals.tracker.slots, globals.metrics
      ensures globals.tracker.slots == old(globals.tracker.slots)
      ensures Valid()
      ensures asked == old(FreeCall(Now(), pointer, normalized.alignment))
      ensures Now() == old(AfterFreeing(Given(), Now(), pointer))
    {
      var freed := if hadRecord then existing else Record(pointer, fromSize, normalized.alignment, normalized.pool);
      asked := Free(pointer, freed.byteSize, freed.alignment, freed.pool);
    }

    /** A resize to a nonzero size from the true old size. */
    method Resize(pointer: Pointer, fromSize: Size, request: AllocationRequest, hadRecord: bool, answer: Pointer)
      returns (newPointer: Pointer, byteSize: Size, asked: Option<BackendCall>, ghost refusal: FailureReason)
      requires Valid()
      requires fromSize == TrueSize(globals.blocks, pointer)
      requires pointer in globals.blocks ==>
        globals.blocks[pointer].owner.HeapBlock? && globals.blocks[pointer].pool == request.pool
      requires hadRecord <==> pointer in globals.tracker.contents
      requires answer != NULL ==> answer == pointer || answer !in globals.blocks
      modifies globals, globals.registry`pools, globals.tracker, globals.tracker.slots, globals.metrics
      ensures globals.tracker.slots == old(globals.tracker.slots)
      ensures Valid()
      ensures refusal == old(ResizeRefusal(Given(), Now(), pointer, request))
      ensures newPointer == if refusal == NoFailure then answer else NULL
      ensures byteSize == if newPointer == NULL then 0 else request.byteSize
      ensures asked == if refusal != NoFailure then None
                       else Some(AskReallocate(pointer, fromSize, request.byteSize, request.alignment))
      ensures Now() == if newPointer == NULL then old(AfterFailedResize(Given(), Now(), pointer, request))
                       else old(AfterResizing(Given(), Now(), pointer, answer, request))
    {
      ghost var book := Now();
      refusal := ResizeRefusal(Given(), book, pointer, request);
      var reserved := ReserveResize(pointer, fromSize, request);
      if !reserved {
        return NULL, 0, None, refusal;
      }
      asked := Some(AskReallocate(pointer, fromSize, request.byteSize, request.alignment));
      Conclude(pointer, answer, request, fromSize, hadRecord, book);
      newPointer, byteSize := answer, if answer == NULL then 0 else request.byteSize;
    }

    /** Reserves what a resize adds. */
    method ReserveResize(ghost pointer: Pointer, fromSize: Size, request: AllocationRequest) returns (ok: bool)
      requires Valid() && fromSize == TrueSize(globals.blocks, pointer)
      modifies globals.registry`pools
      ensures ok <==> old(ResizeRefusal(Given(), Now(), pointer, request)) == NoFailure
      ensures !ok ==> Valid() && Now() == old(AfterFailedResize(Given(), Now(), pointer, request))
      ensures globals.registry.Valid()
      ensures ok ==> Growing(globals.registry.initialized, old(globals.registry.pools), globals.registry.pools,
                             request.pool, fromSize, request.byteSize)
    {
      ok := ReserveGrowth(request.pool, fromSize, request.byteSize);
    }

    /** The backend has answered a resize whose growth, if any, is reserved; `book` is what was before. */
    method Conclude(pointer: Pointer, answer: Pointer, request: AllocationRequest, fromSize: Size, hadRecord: bool,
                    ghost book: Book)
      requires globals.registry.Valid() && globals.Mirrors()
      requires Now() == book.(pools := Now().pools) && fromSize == TrueSize(book.blocks, pointer)
      requires globals.registry.initialized ==> Accounted(book.pools, globals.blocks)
      requires Growing(globals.registry.initialized, book.pools, Now().pools, request.pool, fromSize, request.byteSize)
      requires hadRecord <==> pointer in globals.tracker.contents
      requires answer != NULL ==> answer == pointer || answer !in globals.blocks
      requires pointer in globals.blocks ==>
        globals.blocks[pointer].owner.HeapBlock? && globals.blocks[pointer].pool == request.pool
      requires !tracking ==> globals.tracker.contents == map[]
      requires |book.pools| == MEMORY_POOL_COUNT && ResizeRefusal(Given(), book, pointer, request) == NoFailure
      modifies globals, globals.registry`pools, globals.tracker, globals.tracker.slots, globals.metrics
      ensures globals.tracker.slots == old(globals.tracker.slots)
      ensures Valid()
      ensures Now() == if answer == NULL then AfterFailedResize(old(Given()), book, pointer, request)
                       else AfterResizing(old(Given()), book, pointer, answer, request)
    {
      if answer == NULL {
        CancelGrowth(request.pool, fromSize, request.byteSize, book.pools);
      } else {
        Settle(pointer, answer, request, fromSize, hadRecord, book);
      }
    }

    /** The accounts, the tracker and the metrics follow a resize the backend has carried out; `book` is what was before. */
    method Settle(pointer: Pointer, to: Pointer, request: AllocationRequest, fromSize: Size, hadRecord: bool,
                  ghost book: Book)
      requires globals.registry.Valid() && globals.Mirrors() && to != NULL
      requires Now() == book.(pools := Now().pools) && fromSize == TrueSize(book.blocks, pointer)
      requires globals.registry.initialized ==> Accounted(book.pools, globals.blocks)
      requires Growing(globals.registry.initialized, book.pools, Now().pools, request.pool, fromSize, request.byteSize)
      requires hadRecord <==> pointer in globals.tracker.contents
      requires to == pointer || to !in globals.blocks
      requires pointer in globals.blocks ==>
        globals.blocks[pointer].owner.HeapBlock? && globals.blocks[pointer].pool == request.pool
      requires !tracking ==> globals.tracker.contents == map[]
      modifies globals, globals.registry`pools, globals.tracker, globals.tracker.slots, globals.metrics
      ensures globals.tracker.slots == old(globals.tracker.slots)
      ensures Valid()
      ensures |book.pools| == MEMORY_POOL_COUNT && Now() == AfterResizing(old(Given()), book, pointer, to, request)
    {
      AdjustAccounts(pointer, to, request, fromSize, book.pools);
      Replace(pointer, to, request, fromSize, hadRecord);
    }

    method AdjustAccounts(pointer: Pointer, ghost to: Pointer, request: AllocationRequest, fromSize: Size,
                          ghost before: seq<Pool>)
      requires globals.registry.Valid()
      requires globals.registry.initialized ==> Accounted(before, globals.blocks)
      requires Growing(globals.registry.initialized, before, globals.registry.pools, request.pool, fromSize, request.byteSize)
      requires to == pointer || to !in globals.blocks
      requires if pointer in globals.blocks
               then globals.blocks[pointer].size == fromSize && globals.blocks[pointer].pool == request.pool
               else fromSize == 0
      modifies globals.registry`pools
      ensures globals.registry.Valid()
      ensures globals.registry.initialized ==>
        Accounted(globals.registry.pools, Resized(globals.blocks, pointer, to, HeapBlockOf(request)))
      ensures |before| == MEMORY_POOL_COUNT
      ensures globals.registry.pools == PoolsAfterResize(Given(), before, request.pool, fromSize, request.byteSize)
    {
      if globals.registry.initialized {
        BlockResized(before, globals.blocks, pointer, to, HeapBlockOf(request), fromSize);
      }
      Adjust(request.pool, fromSize, request.byteSize, before);
    }

    /** The tracked record of a pointer; every stored record has a nonzero size. */
    method FindRecord(pointer: Pointer) returns (found: bool, record: Record)
      requires Valid()
      modifies globals.tracker`collisionProbeCount
      ensures Valid()
      ensures found <==> pointer in globals.tracker.contents
      ensures found ==> record == globals.tracker.contents[pointer]
    {
      assert Describes(globals.tracker.contents, globals.blocks, pointer);
      if tracking {
        found, record := globals.tracker.TryFindTrackedMemoryAllocation(pointer);
        found := found && record.byteSize != 0;
      } else {
        found, record := false, NO_RECORD;
      }
    }

    method ReserveGrowth(pool: PoolId, oldSize: Size, newSize: Size) returns (ok: bool)
      requires globals.registry.Valid()
      modifies globals.registry`pools
      ensures globals.registry.Valid()
      ensures ok <==> old(GrowthRefusal(Given(), Now().pools, pool, oldSize, newSize)) == NoFailure
      ensures !ok ==> globals.registry.pools == old(PoolsAfterFailedResize(Given(), Now().pools, pool, oldSize, newSize))
                      && forall blocks :: Accounted(old(globals.registry.pools), blocks) ==>
                           Accounted(globals.registry.pools, blocks)
      ensures ok ==>
        Growing(globals.registry.initialized, old(globals.registry.pools), globals.registry.pools, pool, oldSize, newSize)
    {
      if newSize > oldSize {
        ok := Reserve(pool, newSize - oldSize);
      } else {
        ok := true;
      }
    }

    method CancelGrowth(pool: PoolId, oldSize: Size, newSize: Size, ghost before: seq<Pool>)
      requires globals.registry.Valid() && globals.Mirrors()
      requires Growing(globals.registry.initialized, before, globals.registry.pools, pool, oldSize, newSize)
      requires globals.registry.initialized ==> Accounted(before, globals.blocks)
      modifies globals.registry`pools
      ensures globals.Valid() && |before| == MEMORY_POOL_COUNT
      ensures globals.registry.pools ==
        if newSize > oldSize then AfterFailure(globals.registry.initialized, before, pool, BackendFailure) else before
    {
      if newSize > oldSize {
        Unreserve(pool, newSize - oldSize, before);
      }
    }

    /** Commits the growth reserved before, or refunds the shrinkage. */
    method Adjust(pool: PoolId, oldSize: Size, newSize: Size, ghost before: seq<Pool>)
      requires globals.registry.Valid()
      requires Growing(globals.registry.initialized, before, globals.registry.pools, pool, oldSize, newSize)
      modifies globals.registry`pools
      ensures globals.registry.Valid() && |before| == MEMORY_POOL_COUNT
      ensures globals.registry.pools == PoolsAfterResize(Given(), before, pool, oldSize, newSize)
    {
      if newSize > oldSize {
        globals.Commit(pool, newSize - oldSize, before);
      } else if globals.registry.initialized && newSize < oldSize {
        globals.registry.RecordFree(pool, oldSize - newSize);
      }
    }

    /** Moves the tracker, the metrics and the block set from the old block to the new one. */
    method Replace(pointer: Pointer, to: Pointer, request: AllocationRequest, fromSize: Size, hadRecord: bool)
      requires globals.Mirrors() && to != NULL
      requires hadRecord <==> pointer in globals.tracker.contents
      requires to == pointer || to !in globals.blocks
      requires if pointer in globals.blocks
               then globals.blocks[pointer].size == fromSize && globals.blocks[pointer].owner.HeapBlock?
               else fromSize == 0
      requires !tracking ==> globals.tracker.contents == map[]
      modifies globals, globals.tracker, globals.tracker.slots, globals.metrics
      ensures globals.tracker.slots == old(globals.tracker.slots)
      ensures globals.Mirrors()
      ensures globals.blocks == Resized(old(globals.blocks), pointer, to, HeapBlockOf(request))
      ensures globals.tracker.contents == old(AfterAdmission(globals.tracker.contents - {pointer}, to, request))
      ensures globals.metrics.Now() == AfterReallocation(old(globals.metrics.Now()), fromSize, request.byteSize)
      ensures !tracking ==> globals.tracker.contents == map[]
    {
      Retrack(pointer, to, request, hadRecord);
      MeasureResize(pointer, to, request, fromSize);
      globals.blocks := Resized(globals.blocks, pointer, to, HeapBlockOf(request));
    }

    method MeasureResize(pointer: Pointer, to: Pointer, request: AllocationRequest, fromSize: Size)
      requires globals.metrics.currentLiveBytes == Bytes(globals.blocks, OnHeap) % WORD_VALUES
      requires to == pointer || to !in globals.blocks
      requires if pointer in globals.blocks
               then globals.blocks[pointer].size == fromSize && globals.blocks[pointer].owner.HeapBlock?
               else fromSize == 0
      modifies globals.metrics
      ensures globals.metrics.currentLiveBytes
              == Bytes(Resized(globals.blocks, pointer, to, HeapBlockOf(request)), OnHeap) % WORD_VALUES
      ensures globals.metrics.Now() == AfterReallocation(old(globals.metrics.Now()), fromSize, request.byteSize)
    {
      LiveBytesResized(globals.metrics.currentLiveBytes, globals.blocks, pointer, to, HeapBlockOf(request), fromSize);
      globals.metrics.RecordMemoryReallocation(fromSize, request.byteSize);
    }

    /** Forgets the old record, if any, and tracks the new block. */
    method Retrack(pointer: Pointer, to: Pointer, request: AllocationRequest, hadRecord: bool)
      requires globals.tracker.Valid()
      requires AllDescribed(globals.tracker.contents, globals.blocks)
      requires hadRecord <==> pointer in globals.tracker.contents
      requires to == pointer || to !in globals.blocks
      requires !tracking ==> globals.tracker.contents == map[]
      modifies globals.tracker, globals.tracker.slots
      ensures globals.tracker.Valid() && globals.tracker.slots == old(globals.tracker.slots)
      ensures AllDescribed(globals.tracker.contents, Resized(globals.blocks, pointer, to, HeapBlockOf(request)))
      ensures globals.tracker.contents == old(AfterAdmission(globals.tracker.contents - {pointer}, to, request))
      ensures !tracking ==> globals.tracker.contents == map[]
    {
      Forget(pointer, hadRecord);
      Track(to, request, globals.blocks - {pointer});
    }

    method Forget(pointer: Pointer, hadRecord: bool)
      requires globals.tracker.Valid()
      requires AllDescribed(globals.tracker.contents, globals.blocks)
      requires hadRecord <==> pointer in globals.tracker.contents
      modifies globals.tracker`contents, globals.tracker`depth, globals.tracker`activeCount,
               globals.tracker`totalUntrackedCount, globals.tracker`unknownFreeCount,
               globals.tracker`collisionProbeCount, globals.tracker.slots
      ensures globals.tracker.Valid()
      ensures AllDescribed(globals.tracker.contents, globals.blocks - {pointer})
      ensures globals.tracker.contents == old(globals.tracker.contents) - {pointer}
    {
      ghost var before := globals.tracker.contents;
      if hadRecord {
        var found, removed := globals.tracker.UntrackMemoryAllocation(pointer);
      }
      RemoveDescribes(before, globals.tracker.contents, globals.blocks, pointer);
    }
  }
}
