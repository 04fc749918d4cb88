/**
 What the shared registry, tracker and metrics say about the blocks clients hold.  Heap allocator and
 allocator proxies work on the same globals; `blocks` is the set of live blocks with what was asked for.
 */
module MemoryAccounting {
  import opened AllocationTracker
  import opened AllocationValidation
  import opened Arithmetic
  import opened AtomicWord
  import opened Metrics
  import opened PoolRegistry
  import opened ProbeTable
  import opened SmallBlockClasses
  import opened Words

  datatype Owner = HeapBlock | ProxyBlock(layer: Layer)

  datatype BlockShape = Block(size: Size, alignment: Size, pool: PoolId, owner: Owner)

  /** A proxy's block keeps a normalized alignment and the layer its size and alignment route to. */
  predicate IsRouted(b: BlockShape) {
    b.owner.ProxyBlock? ==> NormalizeAlignment(b.alignment) == b.alignment && b.owner.layer == Route(b.size, b.alignment)
  }

  type Block = b: BlockShape | IsRouted(b) witness BlockShape.Block(0, 0, 0, HeapBlock)

  type Blocks = map<Pointer, Block>

  // ---- byte totals over blocks ----

  ghost function Bytes(blocks: Blocks, w: Block -> nat): nat
    decreases |blocks|
  {
    if blocks == map[] then 0
    else
      var p :| p in blocks;
      SmallerMap(blocks, p);
      w(blocks[p]) + Bytes(blocks - {p}, w)
  }

  function InPool(pool: PoolId): Block -> nat {
    (b: Block) => if b.pool == pool then b.size else 0
  }

  function OnHeap(b: Block): nat {
    if b.owner.HeapBlock? then b.size else 0
  }

  lemma {:induction false} BytesRemove(blocks: Blocks, p: Pointer, w: Block -> nat)
    requires p in blocks
    ensures Bytes(blocks, w) == w(blocks[p]) + Bytes(blocks - {p}, w)
    decreases |blocks|
  {
    var q :| q in blocks && Bytes(blocks, w) == w(blocks[q]) + Bytes(blocks - {q}, w);
    if q != p {
      SmallerMap(blocks, q);
      SmallerMap(blocks, p);
      BytesRemove(blocks - {q}, p, w);
      BytesRemove(blocks - {p}, q, w);
      assert blocks - {q} - {p} == blocks - {p} - {q};
    }
  }

  lemma SmallerMap(blocks: Blocks, p: Pointer)
    requires p in blocks
    ensures |blocks - {p}| < |blocks|
  {
    var rest: Blocks := blocks - {p};
    assert rest.Keys == blocks.Keys - {p};
  }

  lemma BytesInsert(blocks: Blocks, p: Pointer, b: Block, w: Block -> nat)
    requires p !in blocks
    ensures Bytes(blocks[p := b], w) == Bytes(blocks, w) + w(b)
  {
    BytesRemove(blocks[p := b], p, w);
    assert blocks[p := b] - {p} == blocks;
  }

  // ---- what the registry says ----

  /** A pool's current bytes are its live blocks' sizes, and the difference of its lifetime totals. */
  ghost predicate PoolAccounted(pools: seq<Pool>, blocks: Blocks, pool: PoolId)
    requires pool < |pools|
  {
    var c := pools[pool].counters;
    c.current == Bytes(blocks, InPool(pool)) && c.current == FetchSub(c.totalAllocated, c.totalFreed)
  }

  ghost predicate Accounted(pools: seq<Pool>, blocks: Blocks) {
    && |pools| == MEMORY_POOL_COUNT
    && forall pool: PoolId {:trigger PoolAccounted(pools, blocks, pool)} ::
         pool < MEMORY_POOL_COUNT ==> PoolAccounted(pools, blocks, pool)
  }

  /** Two states of a pool that differ at most in how many calls failed. */
  ghost predicate SameAccounts(a: Pool, b: Pool) {
    a.budget == b.budget && a.counters.(budgetExceeded := 0) == b.counters.(budgetExceeded := 0)
  }

  ghost predicate AllSameAccounts(a: seq<Pool>, b: seq<Pool>) {
    |a| == |b| && forall i :: 0 <= i < |a| ==> SameAccounts(a[i], b[i])
  }

  /** A pool after a call that failed for this reason. */
  function Failed(p: Pool, reason: FailureReason): Pool {
    p.(failedAllocations := FetchAdd(p.failedAllocations, 1),
       counters := if reason == PoolBudgetExceeded
                   then p.counters.(budgetExceeded := FetchAdd(p.counters.budgetExceeded, 1)) else p.counters)
  }

  /** A failure is counted in its pool, if there is one. */
  function AfterFailure(initialized: bool, pools: seq<Pool>, pool: PoolId, reason: FailureReason): seq<Pool>
    requires |pools| == MEMORY_POOL_COUNT
  {
    if initialized && IsValidPool(pool) then pools[pool := Failed(pools[pool], reason)] else pools
  }

  /** A pool after one more allocation of these bytes. */
  function Charged(p: Pool, size: Size): Pool {
    var c := p.counters;
    p.(counters := c.(
       current := FetchAdd(c.current, size),
       totalAllocated := FetchAdd(c.totalAllocated, size),
       allocationCount := FetchAdd(c.allocationCount, 1),
       peak := Max(c.peak, FetchAdd(c.current, size))))
  }

  /** A pool after one more free of these bytes. */
  function Refunded(p: Pool, size: Size): Pool {
    var c := p.counters;
    p.(counters := c.(
       current := FetchSub(c.current, size),
       totalFreed := FetchAdd(c.totalFreed, size),
       freeCount := FetchAdd(c.freeCount, 1)))
  }

  lemma DifferenceGrows(a: Size, f: Size, size: Size)
    requires FetchSub(a, f) + size < WORD_VALUES
    ensures FetchSub(FetchAdd(a, size), f) == FetchSub(a, f) + size
  {
  }

  lemma DifferenceShrinks(a: Size, f: Size, size: Size)
    requires size <= FetchSub(a, f)
    ensures FetchSub(a, FetchAdd(f, size)) == FetchSub(a, f) - size
  {
  }

  /** Charging one pool accounts for a change of the blocks that adds these bytes to it and to no other. */
  lemma ChargeAccounts(pools: seq<Pool>, blocks: Blocks, pool: PoolId, size: Size, blocks': Blocks)
    requires Accounted(pools, blocks) && IsValidPool(pool)
    requires pools[pool].counters.current + size < WORD_VALUES
    requires forall q: PoolId :: Bytes(blocks', InPool(q)) == Bytes(blocks, InPool(q)) + if q == pool then size else 0
    ensures Accounted(pools[pool := Charged(pools[pool], size)], blocks')
  {
    var c := pools[pool].counters;
    var pools' := pools[pool := Charged(pools[pool], size)];
    forall q: PoolId | q < MEMORY_POOL_COUNT ensures PoolAccounted(pools', blocks', q) {
      assert PoolAccounted(pools, blocks, q);
      if q == pool {
        AddFitsIff(c.current, size);
        DifferenceGrows(c.totalAllocated, c.totalFreed, size);
      }
    }
  }

  lemma RefundAccounts(pools: seq<Pool>, blocks: Blocks, pool: PoolId, size: Size, blocks': Blocks)
    requires Accounted(pools, blocks) && IsValidPool(pool)
    requires forall q: PoolId :: Bytes(blocks', InPool(q)) + (if q == pool then size else 0) == Bytes(blocks, InPool(q))
    ensures Accounted(pools[pool := Refunded(pools[pool], size)], blocks')
  {
    var c := pools[pool].counters;
    var pools' := pools[pool := Refunded(pools[pool], size)];
    assert PoolAccounted(pools, blocks, pool);
    forall q: PoolId | q < MEMORY_POOL_COUNT ensures PoolAccounted(pools', blocks', q) {
      assert PoolAccounted(pools, blocks, q);
      if q == pool {
        SubFits(c.current, size);
        DifferenceShrinks(c.totalAllocated, c.totalFreed, size);
      }
    }
  }

  lemma SameAccountsAccount(pools: seq<Pool>, pools': seq<Pool>, blocks: Blocks)
    requires Accounted(pools, blocks) && AllSameAccounts(pools, pools')
    ensures Accounted(pools', blocks)
  {
    forall q: PoolId | q < MEMORY_POOL_COUNT ensures PoolAccounted(pools', blocks, q) {
      assert PoolAccounted(pools, blocks, q);
      assert SameAccounts(pools[q], pools'[q]);
    }
  }

  /** A failed call is counted in its pool and changes no account and no other pool. */
  lemma FailureKeepsAccounts(initialized: bool, pools: seq<Pool>, pool: PoolId, reason: FailureReason, blocks: Blocks)
    requires |pools| == MEMORY_POOL_COUNT
    ensures AllSameAccounts(pools, AfterFailure(initialized, pools, pool, reason))
    ensures Accounted(pools, blocks) ==> Accounted(AfterFailure(initialized, pools, pool, reason), blocks)
    ensures forall i :: 0 <= i < MEMORY_POOL_COUNT ==>
      var was, is_ := pools[i], AfterFailure(initialized, pools, pool, reason)[i];
      var here := initialized && i == pool;
      && is_.failedAllocations == (was.failedAllocations + if here then 1 else 0) % WORD_VALUES
      && is_.counters.budgetExceeded
         == (was.counters.budgetExceeded + if here && reason == PoolBudgetExceeded then 1 else 0) % WORD_VALUES
  {
    if Accounted(pools, blocks) {
      SameAccountsAccount(pools, AfterFailure(initialized, pools, pool, reason), blocks);
    }
  }

  /** The pools between a successful reservation and its commit or cancellation. */
  ghost predicate Holding(initialized: bool, before: seq<Pool>, now: seq<Pool>, pool: PoolId, size: Size) {
    if initialized then
      && |before| == MEMORY_POOL_COUNT && IsValidPool(pool)
      && before[pool].counters.current + size < WORD_VALUES
      && now == before[pool := before[pool].(counters :=
                  before[pool].counters.(current := before[pool].counters.current + size))]
    else now == before
  }

  // ---- what the tracker says ----

  /** A tracked pointer is a live block, and its record has the block's size, alignment and pool. */
  ghost predicate Describes(contents: map<Pointer, Record>, blocks: Blocks, p: Pointer) {
    p in contents ==>
      && p in blocks
      && contents[p].byteSize == blocks[p].size != 0
      && contents[p].alignment == blocks[p].alignment
      && contents[p].pool == blocks[p].pool
  }

  ghost predicate AllDescribed(contents: map<Pointer, Record>, blocks: Blocks) {
    forall p: Pointer {:trigger Describes(contents, blocks, p)} :: Describes(contents, blocks, p)
  }

  /** A new block, tracked or not. */
  lemma AdmitDescribes(
    contents: map<Pointer, Record>, contents': map<Pointer, Record>, blocks: Blocks, p: Pointer, b: Block)
    requires AllDescribed(contents, blocks) && p !in blocks
    requires contents' == contents
             || (b.size != 0 && contents' == contents[p := Record(p, b.size, b.alignment, b.pool)])
    ensures AllDescribed(contents', blocks[p := b])
  {
    var blocks' := blocks[p := b];
    assert Describes(contents, blocks, p);
    forall q ensures Describes(contents', blocks', q) {
      assert Describes(contents, blocks, q);
    }
  }

  /** A pointer is forgotten, if it was tracked at all. */
  lemma RemoveDescribes(contents: map<Pointer, Record>, contents': map<Pointer, Record>, blocks: Blocks, p: Pointer)
    requires AllDescribed(contents, blocks)
    requires contents' == if p in contents then contents - {p} else contents
    ensures AllDescribed(contents', blocks - {p}) && contents' == contents - {p}
  {
    var blocks' := blocks - {p};
    forall q ensures Describes(contents', blocks', q) {
      assert Describes(contents, blocks, q);
    }
  }

  // ---- resizing ----

  /** The blocks after the block at `pointer`, if any, was replaced by b at an address that is its own or unused. */
  function Resized(blocks: Blocks, pointer: Pointer, to: Pointer, b: Block): Blocks {
    (blocks - {pointer})[to := b]
  }

  function SizeAt(blocks: Blocks, pointer: Pointer, w: Block -> nat): nat {
    if pointer in blocks then w(blocks[pointer]) else 0
  }

  lemma BytesResized(blocks: Blocks, pointer: Pointer, to: Pointer, b: Block, w: Block -> nat)
    requires to == pointer || to !in blocks
    ensures Bytes(Resized(blocks, pointer, to, b), w) + SizeAt(blocks, pointer, w) == Bytes(blocks, w) + w(b)
  {
    var rest := blocks - {pointer};
    if pointer in blocks {
      BytesRemove(blocks, pointer, w);
    } else {
      assert rest == blocks;
    }
    BytesInsert(rest, to, b, w);
  }

  /** A pool after a block in it changed its size. */
  function Adjusted(p: Pool, oldSize: Size, newSize: Size): Pool {
    if newSize > oldSize then Charged(p, newSize - oldSize)
    else if newSize < oldSize then Refunded(p, oldSize - newSize)
    else p
  }

  /** Charging or refunding the size difference accounts for a resize within one pool. */
  lemma BlockResized(pools: seq<Pool>, blocks: Blocks, pointer: Pointer, to: Pointer, b: Block, oldSize: Size)
    requires Accounted(pools, blocks) && (to == pointer || to !in blocks)
    requires if pointer in blocks then blocks[pointer].size == oldSize && blocks[pointer].pool == b.pool else oldSize == 0
    requires IsValidPool(b.pool) && b.size > oldSize ==> pools[b.pool].counters.current + (b.size - oldSize) < WORD_VALUES
    ensures IsValidPool(b.pool) ==>
      Accounted(pools[b.pool := Adjusted(pools[b.pool], oldSize, b.size)], Resized(blocks, pointer, to, b))
    ensures !IsValidPool(b.pool) ==> Accounted(pools, Resized(blocks, pointer, to, b))
  {
    var blocks' := Resized(blocks, pointer, to, b);
    forall q: PoolId
      ensures Bytes(blocks', InPool(q)) + (if q == b.pool then oldSize else 0)
              == Bytes(blocks, InPool(q)) + (if q == b.pool then b.size else 0)
    {
      BytesResized(blocks, pointer, to, b, InPool(q));
    }
    if IsValidPool(b.pool) && b.size > oldSize {
      ChargeAccounts(pools, blocks, b.pool, b.size - oldSize, blocks');
    } else if IsValidPool(b.pool) && b.size < oldSize {
      RefundAccounts(pools, blocks, b.pool, oldSize - b.size, blocks');
    } else {
      UntouchedAccounts(pools, blocks, blocks');
      assert IsValidPool(b.pool) ==> pools[b.pool := pools[b.pool]] == pools;
    }
  }

  /** Two amounts below the word size that lead a counter to the same value are the same. */
  lemma SameShift(current: nat, up: nat, from: Size, away: Size)
    requires away <= current + up && (current + up - from) % WORD_VALUES == current + up - away
    ensures from == away
  {
    DivModEquation(current + up - from + WORD_VALUES, WORD_VALUES);
    var q := (current + up - from + WORD_VALUES) / WORD_VALUES - 1;
    assert away - from == q * WORD_VALUES;
  }

  lemma AdjustedCurrent(p: Pool, fromSize: Size, newSize: Size)
    ensures Adjusted(p, fromSize, newSize).counters.current == (p.counters.current + newSize - fromSize) % WORD_VALUES
  {
  }

  /** The resize accounts for a pool that lost `away` bytes and gained the new block only if it started from `away`. */
  lemma AdjustedFromTrueSize(pools: seq<Pool>, blocks: Blocks, pointer: Pointer, to: Pointer, b: Block, fromSize: Size)
    requires Accounted(pools, blocks) && (to == pointer || to !in blocks) && IsValidPool(b.pool)
    requires PoolAccounted(pools[b.pool := Adjusted(pools[b.pool], fromSize, b.size)], Resized(blocks, pointer, to, b), b.pool)
    ensures fromSize == SizeAt(blocks, pointer, InPool(b.pool))
  {
    BytesResized(blocks, pointer, to, b, InPool(b.pool));
    assert PoolAccounted(pools, blocks, b.pool);
    AdjustedCurrent(pools[b.pool], fromSize, b.size);
    SameShift(pools[b.pool].counters.current, b.size, fromSize, SizeAt(blocks, pointer, InPool(b.pool)));
  }

  /**
   The accounts follow a resize exactly when the block keeps its pool and the old size is the true one, which is zero
   for a new block: only the size difference is charged, and only to the pool of the request.
   */
  lemma ResizeAccountsIff(pools: seq<Pool>, blocks: Blocks, pointer: Pointer, to: Pointer, b: Block, fromSize: Size)
    requires Accounted(pools, blocks) && (to == pointer || to !in blocks) && IsValidPool(b.pool)
    requires pointer in blocks ==> blocks[pointer].size > 0 && IsValidPool(blocks[pointer].pool)
    requires b.size > fromSize ==> pools[b.pool].counters.current + (b.size - fromSize) < WORD_VALUES
    ensures Accounted(pools[b.pool := Adjusted(pools[b.pool], fromSize, b.size)], Resized(blocks, pointer, to, b))
            <==> if pointer in blocks then b.pool == blocks[pointer].pool && fromSize == blocks[pointer].size
                 else fromSize == 0
  {
    var pools' := pools[b.pool := Adjusted(pools[b.pool], fromSize, b.size)];
    var blocks' := Resized(blocks, pointer, to, b);
    if if pointer in blocks then b.pool == blocks[pointer].pool && fromSize == blocks[pointer].size else fromSize == 0 {
      BlockResized(pools, blocks, pointer, to, b, fromSize);
    } else if pointer in blocks && b.pool != blocks[pointer].pool {
      BytesResized(blocks, pointer, to, b, InPool(blocks[pointer].pool));
      assert PoolAccounted(pools, blocks, blocks[pointer].pool);
      assert !PoolAccounted(pools', blocks', blocks[pointer].pool);
    } else if PoolAccounted(pools', blocks', b.pool) {
      AdjustedFromTrueSize(pools, blocks, pointer, to, b, fromSize);
      assert false;
    }
  }

  /** The accounts follow a free exactly when the block's own pool is refunded the block's own size. */
  lemma RefundAccountsIff(pools: seq<Pool>, blocks: Blocks, p: Pointer, pool: PoolId, size: Size)
    requires Accounted(pools, blocks) && p in blocks && IsValidPool(blocks[p].pool) && IsValidPool(pool)
    requires blocks[p].size > 0
    ensures Accounted(pools[pool := Refunded(pools[pool], size)], blocks - {p})
            <==> pool == blocks[p].pool && size == blocks[p].size
  {
    var home, pools' := blocks[p].pool, pools[pool := Refunded(pools[pool], size)];
    if pool == home && size == blocks[p].size {
      BlockRemoved(pools, blocks, p);
    } else {
      BytesRemove(blocks, p, InPool(home));
      assert PoolAccounted(pools, blocks, home);
      if PoolAccounted(pools', blocks - {p}, home) {
        SameShift(pools[home].counters.current, 0, size, blocks[p].size);
        assert false;
      }
    }
  }

  lemma UntouchedAccounts(pools: seq<Pool>, blocks: Blocks, blocks': Blocks)
    requires Accounted(pools, blocks)
    requires forall q: PoolId :: q < MEMORY_POOL_COUNT ==> Bytes(blocks', InPool(q)) == Bytes(blocks, InPool(q))
    ensures Accounted(pools, blocks')
  {
    forall q: PoolId | q < MEMORY_POOL_COUNT ensures PoolAccounted(pools, blocks', q) {
      assert PoolAccounted(pools, blocks, q);
    }
  }

  lemma LiveBytesResized(live: Size, blocks: Blocks, pointer: Pointer, to: Pointer, b: Block, oldSize: Size)
    requires live == Bytes(blocks, OnHeap) % WORD_VALUES && (to == pointer || to !in blocks) && b.owner.HeapBlock?
    requires if pointer in blocks then blocks[pointer].size == oldSize && blocks[pointer].owner.HeapBlock? else oldSize == 0
    ensures (live + b.size - oldSize) % WORD_VALUES == Bytes(Resized(blocks, pointer, to, b), OnHeap) % WORD_VALUES
  {
    BytesResized(blocks, pointer, to, b, OnHeap);
    ShiftReduced(Bytes(blocks, OnHeap), b.size, oldSize);
  }

  /** A proxy's block does not count towards the heap's live bytes. */
  lemma ProxyBytesStayOffHeap(blocks: Blocks, p: Pointer, b: Block)
    requires b.owner.ProxyBlock?
    ensures p !in blocks ==> Bytes(blocks[p := b], OnHeap) == Bytes(blocks, OnHeap)
    ensures p in blocks && blocks[p] == b ==> Bytes(blocks - {p}, OnHeap) == Bytes(blocks, OnHeap)
  {
    if p !in blocks {
      BytesInsert(blocks, p, b, OnHeap);
    } else if blocks[p] == b {
      BytesRemove(blocks, p, OnHeap);
    }
  }

  lemma ShiftReduced(a: nat, up: Size, down: Size)
    requires down <= a + up
    ensures (a % WORD_VALUES + up - down) % WORD_VALUES == (a + up - down) % WORD_VALUES
  {
  }

  // ---- the shared state ----

  /** A fresh block charged to its pool: the accounts, the tracker and the live bytes all follow. */
  lemma BlockAdded(pools: seq<Pool>, blocks: Blocks, p: Pointer, b: Block)
    requires Accounted(pools, blocks) && p !in blocks && IsValidPool(b.pool)
    requires pools[b.pool].counters.current + b.size < WORD_VALUES
    ensures Accounted(pools[b.pool := Charged(pools[b.pool], b.size)], blocks[p := b])
  {
    forall q: PoolId
      ensures Bytes(blocks[p := b], InPool(q)) == Bytes(blocks, InPool(q)) + if q == b.pool then b.size else 0
    {
      BytesInsert(blocks, p, b, InPool(q));
    }
    ChargeAccounts(pools, blocks, b.pool, b.size, blocks[p := b]);
  }

  /** A block returned and refunded to its pool. */
  lemma BlockRemoved(pools: seq<Pool>, blocks: Blocks, p: Pointer)
    requires Accounted(pools, blocks) && p in blocks
    ensures IsValidPool(blocks[p].pool) ==>
      Accounted(pools[blocks[p].pool := Refunded(pools[blocks[p].pool], blocks[p].size)], blocks - {p})
    ensures !IsValidPool(blocks[p].pool) ==> Accounted(pools, blocks - {p})
  {
    var b := blocks[p];
    forall q: PoolId
      ensures Bytes(blocks - {p}, InPool(q)) + (if q == b.pool then b.size else 0) == Bytes(blocks, InPool(q))
    {
      BytesRemove(blocks, p, InPool(q));
    }
    if IsValidPool(b.pool) {
      RefundAccounts(pools, blocks, b.pool, b.size, blocks - {p});
    } else {
      forall q: PoolId | q < MEMORY_POOL_COUNT ensures PoolAccounted(pools, blocks - {p}, q) {
        assert PoolAccounted(pools, blocks, q);
        assert Bytes(blocks - {p}, InPool(q)) + (if q == b.pool then b.size else 0) == Bytes(blocks, InPool(q));
      }
    }
  }

  lemma LiveBytesAdded(live: Size, blocks: Blocks, p: Pointer, b: Block)
    requires live == Bytes(blocks, OnHeap) % WORD_VALUES && p !in blocks && b.owner.HeapBlock?
    ensures FetchAdd(live, b.size) == Bytes(blocks[p := b], OnHeap) % WORD_VALUES
  {
    BytesInsert(blocks, p, b, OnHeap);
    CounterTracks(live, Bytes(blocks, OnHeap), b.size);
  }

  lemma LiveBytesRemoved(live: Size, blocks: Blocks, p: Pointer)
    requires live == Bytes(blocks, OnHeap) % WORD_VALUES && p in blocks && blocks[p].owner.HeapBlock?
    ensures FetchSub(live, blocks[p].size) == Bytes(blocks - {p}, OnHeap) % WORD_VALUES
  {
    BytesRemove(blocks, p, OnHeap);
    ReducedDifference(Bytes(blocks, OnHeap), blocks[p].size);
  }

  lemma ReducedDifference(a: nat, b: Size)
    requires b <= a
    ensures FetchSub(a % WORD_VALUES, b) == (a - b) % WORD_VALUES
  {
  }

  /** What no call changes: the registry's switches, the build's tracking, and the tracker's table. */
  datatype Conditions = Conditions(
    registered: bool, enforcing: bool, tracking: bool, trackerEnabled: bool, trackerCapacity: Size)

  /** Everything that calls change, at one moment. */
  datatype Book = Book(pools: seq<Pool>, contents: map<Pointer, Record>, figures: Figures, blocks: Blocks)

  class MemoryGlobals {
    const registry: MemoryPoolRegistry
    const tracker: MemoryAllocationTracker
    const metrics: MemoryMetrics
    ghost var blocks: Blocks

    ghost function Given(tracking: bool): Conditions
      reads registry, tracker
    {
      Conditions(registry.initialized, registry.enforceBudgets, tracking, tracker.enabled, tracker.capacity)
    }

    ghost function Now(): Book
      reads this, registry, tracker, metrics
    {
      Book(registry.pools, tracker.contents, metrics.Now(), blocks)
    }

    ghost predicate Valid()
      reads this, registry, tracker, tracker.slots, metrics
    {
      && registry.Valid()
      && (registry.initialized ==> Accounted(registry.pools, blocks))
      && Mirrors()
    }

    /** The tracker and the metrics are right about the live blocks. */
    ghost predicate Mirrors()
      reads this, tracker, tracker.slots, metrics
    {
      && tracker.Valid()
      && NULL !in blocks
      && AllDescribed(tracker.contents, blocks)
      && metrics.currentLiveBytes == Bytes(blocks, OnHeap) % WORD_VALUES
    }

    /** As `Mirrors`, with this block no longer tracked. */
    ghost predicate MirrorsBut(pointer: Pointer)
      reads this, tracker, tracker.slots, metrics
    {
      && tracker.Valid()
      && NULL !in blocks
      && AllDescribed(tracker.contents, blocks - {pointer})
      && metrics.currentLiveBytes == Bytes(blocks, OnHeap) % WORD_VALUES
    }

    /** A client that frees or resizes a block describes it correctly, unless the tracker knows better. */
    ghost predicate Knows(pointer: Pointer, size: Size, pool: PoolId)
      reads this, tracker
    {
      && pointer in blocks
      && (pointer !in tracker.contents ==> size == blocks[pointer].size && pool == blocks[pointer].pool)
    }

    constructor (registry: MemoryPoolRegistry, tracker: MemoryAllocationTracker, metrics: MemoryMetrics)
      requires registry.Valid() && tracker.Valid() && tracker.contents == map[]
      requires forall i :: 0 <= i < MEMORY_POOL_COUNT ==> registry.pools[i].counters == ZERO
      requires metrics.currentLiveBytes == 0
      ensures Valid() && blocks == map[]
      ensures this.registry == registry && this.tracker == tracker && this.metrics == metrics
    {
      this.registry, this.tracker, this.metrics := registry, tracker, metrics;
      blocks := map[];
      new;
      forall q: PoolId | q < MEMORY_POOL_COUNT ensures PoolAccounted(registry.pools, map[], q) {
      }
    }

    /** Gives a reservation back after the backend failed. */
    method CancelReservation(pool: PoolId, size: Size, ghost before: seq<Pool>)
      requires registry.Valid()
      requires Holding(registry.initialized, before, registry.pools, pool, size)
      modifies registry`pools
      ensures registry.Valid()
      ensures |before| == MEMORY_POOL_COUNT && registry.pools == AfterFailure(registry.initialized, before, pool, BackendFailure)
    {
      if registry.initialized {
        SubFits(registry.Current(pool), size);
        registry.CancelReservation(pool, size);
        registry.RecordFailure(pool);
      }
    }

    /** Turns a reservation into a charge. */
    method Commit(pool: PoolId, size: Size, ghost before: seq<Pool>)
      requires registry.Valid()
      requires Holding(registry.initialized, before, registry.pools, pool, size)
      modifies registry`pools
      ensures registry.Valid()
      ensures registry.initialized ==>
        registry.pools == before[pool := Charged(before[pool], size)]
      ensures !registry.initialized ==> registry.pools == before
    {
      if registry.initialized {
        AddFitsIff(before[pool].counters.current, size);
        registry.CommitAllocation(pool, size);
      }
    }
  }
}
