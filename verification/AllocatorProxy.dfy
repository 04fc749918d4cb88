/**
 The default allocator proxy of one pool: reservation, routing to the small block allocator or the backend,
 tracking and accounting, and the way back.  The answer of the layer that serves a request is a parameter.
 */
module AllocatorProxy {
  import opened AllocationTracker
  import opened AllocationValidation
  import opened Bookkeeping
  import opened MemoryAccounting
  import opened PoolRegistry
  import opened ProbeTable
  import opened SmallBlockClasses
  import opened Words

  class AllocatorProxy {
    const globals: MemoryGlobals
    const pool: PoolId

    // Compile-time switch of the build.
    const tracking: bool

    constructor (globals: MemoryGlobals, pool: PoolId, tracking: bool)
      requires IsValidPool(pool)
      ensures this.globals == globals && this.pool == pool && this.tracking == tracking
    {
      this.globals, this.pool, this.tracking := globals, pool, tracking;
    }

    ghost predicate Valid()
      reads this, globals, globals.registry, globals.tracker, globals.tracker.slots, globals.metrics
    {
      IsValidPool(pool) && globals.Valid() && (!tracking ==> globals.tracker.contents == map[])
    }

    ghost function Given(): Conditions
      reads globals.registry, globals.tracker
    {
      globals.Given(tracking)
    }

    /** The tracker's map after a block of this pool was handed out. */
    ghost function AfterAdmission(pointer: Pointer, size: Size, alignment: Size, noTracking: bool): map<Pointer, Record>
      reads globals.registry, globals.tracker
    {
      AfterTracking(Given(), globals.tracker.contents, Record(pointer, size, Max(alignment, 16), pool), noTracking)
    }

    /** Allocates exactly when the pool and the chosen layer agree; a failure leaves every account as it was. */
    method Allocate(size: Size, alignment: Size, noTracking: bool, answer: Pointer)
      returns (pointer: Pointer, layer: Layer)
      requires Valid()
      requires answer != NULL ==> answer !in globals.blocks
      modifies globals, globals.registry`pools, globals.tracker, globals.tracker.slots
      ensures globals.tracker.slots == old(globals.tracker.slots)
      ensures Valid()
      ensures layer == Route(size, NormalizeAlignment(alignment))
      ensures pointer == if old(ProxyRefusal(Given(), globals.registry.pools, pool, size)) == NoFailure then answer else NULL
      ensures globals.Now() ==
        if pointer == NULL then old(AfterFailedProxyAllocation(Given(), globals.Now(), pool, size))
        else old(AfterProxyAllocating(Given(), globals.Now(), pool, answer, size, alignment, noTracking))
    {
      var normalized := NormalizeAlignment(alignment);
      layer := Route(size, normalized);
      var reserved := Reserve(size);
      if !reserved {
        FailureKeepsAccounts(globals.registry.initialized, old(globals.registry.pools), pool,
                             old(ProxyRefusal(Given(), globals.registry.pools, pool, size)), globals.blocks);
        return NULL, layer;
      }
      if answer == NULL {
        globals.CancelReservation(pool, size, old(globals.registry.pools));
        FailureKeepsAccounts(globals.registry.initialized, old(globals.registry.pools), pool, BackendFailure, globals.blocks);
        return NULL, layer;
      }
      BlockAdded(old(globals.registry.pools), globals.blocks, answer, ProxyBlockOf(size, alignment, pool));
      Admit(answer, size, alignment, noTracking);
      globals.Commit(pool, size, old(globals.registry.pools));
      return answer, layer;
    }

    /** Tracks a block while its reservation still stands. */
    method Admit(pointer: Pointer, size: Size, alignment: Size, noTracking: bool)
      requires globals.Mirrors() && pointer != NULL && pointer !in globals.blocks
      modifies globals, globals.tracker, globals.tracker.slots
      ensures globals.Mirrors() && globals.tracker.slots == old(globals.tracker.slots)
      ensures globals.blocks == old(globals.blocks)[pointer := ProxyBlockOf(size, alignment, pool)]
      ensures globals.tracker.contents == old(AfterAdmission(pointer, size, alignment, noTracking))
    {
      Track(pointer, size, NormalizeAlignment(alignment), noTracking);
      ProxyBytesStayOffHeap(globals.blocks, pointer, ProxyBlockOf(size, alignment, pool));
      globals.blocks := globals.blocks[pointer := ProxyBlockOf(size, alignment, pool)];
    }

    method Reserve(size: Size) returns (ok: bool)
      requires globals.registry.Valid() && IsValidPool(pool)
      modifies globals.registry`pools
      ensures globals.registry.Valid()
      ensures ok <==> old(ProxyRefusal(Given(), globals.registry.pools, pool, size)) == NoFailure
      ensures !ok ==> globals.registry.pools == AfterFailure(
        globals.registry.initialized, old(globals.registry.pools), pool,
        old(ProxyRefusal(Given(), globals.registry.pools, pool, size)))
      ensures ok ==> globals.registry.initialized
                     && Holding(true, old(globals.registry.pools), globals.registry.pools, pool, size)
    {
      var reason;
      ok, reason := globals.registry.TryReserve(pool, size);
      if !ok {
        globals.registry.RecordFailure(pool);
      }
    }

    method Track(pointer: Pointer, size: Size, alignment: Size, noTracking: bool)
      requires globals.tracker.Valid()
      requires pointer !in globals.blocks && AllDescribed(globals.tracker.contents, globals.blocks)
      requires NormalizeAlignment(alignment) == alignment
      modifies globals.tracker, globals.tracker.slots
      ensures globals.tracker.Valid() && globals.tracker.slots == old(globals.tracker.slots)
      ensures AllDescribed(globals.tracker.contents, globals.blocks[pointer := ProxyBlockOf(size, alignment, pool)])
      ensures globals.tracker.contents == old(AfterAdmission(pointer, size, alignment, noTracking))
    {
      ghost var before := globals.tracker.contents;
      if tracking && !noTracking {
        var tracked := globals.tracker.TrackMemoryAllocation(Record(pointer, size, alignment, pool));
      }
      AdmitDescribes(before, globals.tracker.contents, globals.blocks, pointer, ProxyBlockOf(size, alignment, pool));
    }

    /** The caller frees through the block's own pool, and describes it correctly unless the tracker knows better. */
    ghost predicate Owns(pointer: Pointer, size: Size, alignment: Size)
      reads this, globals, globals.tracker
    {
      && pointer in globals.blocks
      && globals.blocks[pointer].owner.ProxyBlock?
      && globals.blocks[pointer].pool == pool
      && (pointer !in globals.tracker.contents ==>
            size == globals.blocks[pointer].size && NormalizeAlignment(alignment) == globals.blocks[pointer].alignment)
    }

    /** A block goes back to the layer and size class it came from, and its true size is refunded. */
    method Free(pointer: Pointer, size: Size, alignment: Size)
      returns (freedSize: Size, freedAlignment: Size, layer: Layer)
      requires Valid()
      requires pointer != NULL ==> Owns(pointer, size, alignment)
      modifies globals, globals.registry`pools, globals.tracker, globals.tracker.slots
      ensures globals.tracker.slots == old(globals.tracker.slots)
      ensures Valid()
      ensures globals.Now() == old(AfterProxyFreeing(Given(), globals.Now(), pointer))
      ensures pointer != NULL ==>
        var b := old(globals.blocks[pointer]);
        freedSize == b.size && freedAlignment == b.alignment && layer == b.owner.layer
    {
      if pointer == NULL {
        return 0, 0, Backend;
      }
      var effective := Untrack(Record(pointer, size, alignment, pool));
      freedSize, freedAlignment := effective.byteSize, NormalizeAlignment(effective.alignment);
      layer := Route(freedSize, freedAlignment);
      Refund(pointer, effective.byteSize);
    }

    /** Refunds a block that is no longer tracked. */
    method Refund(pointer: Pointer, size: Size)
      requires globals.registry.Valid() && globals.MirrorsBut(pointer) && IsValidPool(pool)
      requires pointer in globals.blocks && globals.blocks[pointer].owner.ProxyBlock?
      requires size == globals.blocks[pointer].size && pool == globals.blocks[pointer].pool
      requires globals.registry.initialized ==> Accounted(globals.registry.pools, globals.blocks)
      modifies globals, globals.registry`pools
      ensures globals.Valid()
      ensures globals.blocks == old(globals.blocks) - {pointer}
      ensures globals.registry.pools == if globals.registry.initialized
                then old(globals.registry.pools)[pool := Refunded(old(globals.registry.pools[pool]), size)]
                else old(globals.registry.pools)
    {
      RefundPool(pointer, size);
      ProxyBytesStayOffHeap(globals.blocks, pointer, globals.blocks[pointer]);
      globals.blocks := globals.blocks - {pointer};
    }

    method RefundPool(ghost pointer: Pointer, size: Size)
      requires globals.registry.Valid() && IsValidPool(pool) && pointer in globals.blocks
      requires size == globals.blocks[pointer].size && pool == globals.blocks[pointer].pool
      requires globals.registry.initialized ==> Accounted(globals.registry.pools, globals.blocks)
      modifies globals.registry`pools
      ensures globals.registry.Valid()
      ensures globals.registry.initialized ==> Accounted(globals.registry.pools, globals.blocks - {pointer})
      ensures globals.registry.pools == if globals.registry.initialized
                then old(globals.registry.pools)[pool := Refunded(old(globals.registry.pools[pool]), size)]
                else old(globals.registry.pools)
    {
      if globals.registry.initialized {
        BlockRemoved(globals.registry.pools, globals.blocks, pointer);
      }
      globals.registry.RecordFree(pool, size);
    }

    /** Replaces the caller's size and alignment by the tracked ones and forgets the pointer. */
    method Untrack(request: Record) returns (effective: Record)
      requires Valid() && Owns(request.pointer, request.byteSize, request.alignment)
      modifies globals.tracker, globals.tracker.slots
      ensures globals.MirrorsBut(request.pointer) && globals.tracker.slots == old(globals.tracker.slots)
      ensures effective.byteSize == globals.blocks[request.pointer].size
      ensures NormalizeAlignment(effective.alignment) == globals.blocks[request.pointer].alignment
      ensures globals.tracker.contents == old(globals.tracker.contents) - {request.pointer}
      ensures !tracking ==> globals.tracker.contents == map[]
    {
      effective := request;
      ghost var before := globals.tracker.contents;
      assert Describes(before, globals.blocks, request.pointer);
      if tracking {
        var found, tracked := globals.tracker.UntrackMemoryAllocation(request.pointer);
        if found {
          effective := Record(request.pointer, tracked.byteSize, tracked.alignment, request.pool);
        }
      }
      RemoveDescribes(before, globals.tracker.contents, globals.blocks, request.pointer);
    }
  }
}
