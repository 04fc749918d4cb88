/**
 An allocator proxy on top of the small block allocator itself.  What the proxy assumes of its layer's answers, that
 they are unused, large enough and aligned, follows here from the small block allocator's invariant.
 */
module ProxyLayers {
  import opened AllocationValidation
  import opened AllocatorProxy
  import opened Bookkeeping
  import opened MemoryAccounting
  import opened PoolRegistry
  import opened SmallBlockAllocator
  import opened SmallBlockClasses
  import opened SmallBlockClients
  import opened SmallBlockInvariant
  import opened SmallBlockProtocol
  import opened Words

  predicate IsSmall(b: Block) {
    b.owner.ProxyBlock? && b.owner.layer.SmallBlock?
  }

  function Extent(b: Block): nat {
    if b.size == 0 then 1 else b.size
  }

  predicate AreApart(p: nat, pSize: nat, q: nat, qSize: nat) {
    p + pSize <= q || q + qSize <= p
  }

  /** A small block is live in the allocator for what was asked; any other block lies outside its slabs. */
  ghost predicate InLayer(blocks: Blocks, s: State, p: Pointer) {
    p in blocks ==>
      if IsSmall(blocks[p])
      then p in s.blocks && s.blocks[p].owner == Live(Request(blocks[p].size, blocks[p].alignment))
      else forall base :: base in s.regions ==> AreApart(p, Extent(blocks[p]), base, SLAB_SIZE)
  }

  ghost predicate Layered(blocks: Blocks, s: State) {
    forall p {:trigger InLayer(blocks, s, p)} :: InLayer(blocks, s, p)
  }

  /** The backend answers with memory it has not handed out: a slab, or a block of its own. */
  ghost predicate BackendDelivers(blocks: Blocks, s: State, layer: Layer, size: Size, answer: Pointer) {
    match layer
    case SmallBlock(c) =>
      && c < CLASS_COUNT && BackendMayAnswer(s, answer, c)
      && forall p :: p in blocks && !IsSmall(blocks[p]) ==> AreApart(p, Extent(blocks[p]), answer, SLAB_SIZE)
    case Backend =>
      && answer !in blocks
      && forall base :: base in s.regions ==> AreApart(answer, if size == 0 then 1 else size, base, SLAB_SIZE)
  }

  // ---- what the small block allocator's answer is worth ----

  /** Its new slab, if any, keeps clear of the other blocks. */
  lemma OtherBlocksStayOut(blocks: Blocks, start: State, s: State, c: nat, answer: Pointer, p: Pointer)
    requires Layered(blocks, start) && p in blocks && !IsSmall(blocks[p])
    requires answer != 0 ==> BackendDelivers(blocks, start, SmallBlock(c), 0, answer)
    requires s.regions.Keys <= start.regions.Keys + {answer as nat} && 0 !in s.regions
    ensures InLayer(blocks, s, p)
  {
    assert InLayer(blocks, start, p);
    forall base | base in s.regions ensures AreApart(p, Extent(blocks[p]), base, SLAB_SIZE) {
      assert base in s.regions.Keys;
    }
  }

  lemma SmallBlocksStay(blocks: Blocks, start: State, s: State, p: Pointer)
    requires Layered(blocks, start) && p in blocks && IsSmall(blocks[p])
    requires Invariant(start) && KeepsLive(start, s, 0)
    ensures InLayer(blocks, s, p) && IsLive(start, p)
  {
    assert InLayer(blocks, start, p);
    BlockGeometry(start, p);
    assert IsLive(start, p);
    assert StillLive(start, s, p);
  }

  lemma LayersAfter(blocks: Blocks, start: State, s: State, c: nat, answer: Pointer)
    requires Layered(blocks, start) && Invariant(start) && Invariant(s) && KeepsLive(start, s, 0)
    requires answer != 0 ==> BackendDelivers(blocks, start, SmallBlock(c), 0, answer)
    requires s.regions.Keys <= start.regions.Keys + {answer as nat}
    ensures Layered(blocks, s)
  {
    assert RegionOk(s, 0);
    forall p ensures InLayer(blocks, s, p) {
      if p in blocks {
        if IsSmall(blocks[p]) {
          SmallBlocksStay(blocks, start, s, p);
        } else {
          OtherBlocksStayOut(blocks, start, s, c, answer, p);
        }
      }
    }
  }

  /** A delivered block is no block of any client, lies clear of all of them, and is aligned and large enough. */
  lemma DeliveryIsUsable(blocks: Blocks, start: State, s: State, answer: Pointer, pointer: nat, request: Request, c: nat)
    requires Layered(blocks, start) && Layered(blocks, s) && Invariant(start) && Invariant(s)
    requires KeepsLive(start, s, 0) && Delivered(start, s, pointer, request)
    requires Fits(request, c)
    ensures pointer < WORD_VALUES && pointer !in blocks
    ensures request.alignment > 0 && pointer % request.alignment == 0
    ensures forall p :: p in blocks ==> AreApart(p, blocks[p].size, pointer, request.size)
  {
    BlockGeometry(s, pointer);
    assert RegionOk(s, s.blocks[pointer].base);
    LiveBlockFits(s, pointer);
    forall p | p in blocks ensures p != pointer && AreApart(p, blocks[p].size, pointer, request.size) {
      assert InLayer(blocks, s, p);
      if IsSmall(blocks[p]) {
        SmallBlocksStay(blocks, start, s, p);
        LiveBlockFits(s, p);
        BlocksApart(s, p, pointer);
      }
    }
  }

  /** A new block of some layer: nobody's, and if small, aligned and clear of every block a client holds. */
  ghost predicate IsUsable(blocks: Blocks, s: State, pointer: Pointer, size: Size, alignment: Size) {
    && pointer !in blocks
    && match Route(size, alignment)
       case SmallBlock(_) =>
         && pointer in s.blocks && s.blocks[pointer].owner == Live(Request(size, alignment))
         && alignment > 0 && pointer % alignment == 0
         && forall p :: p in blocks ==> AreApart(p, blocks[p].size, pointer, size)
       case Backend =>
         forall base :: base in s.regions ==> AreApart(pointer, if size == 0 then 1 else size, base, SLAB_SIZE)
  }

  lemma BlockJoinsLayers(blocks: Blocks, s: State, pointer: Pointer, size: Size, alignment: Size, pool: PoolId)
    requires Layered(blocks, s) && IsUsable(blocks, s, pointer, size, NormalizeAlignment(alignment))
    ensures Layered(blocks[pointer := ProxyBlockOf(size, alignment, pool)], s)
  {
    var blocks' := blocks[pointer := ProxyBlockOf(size, alignment, pool)];
    forall p ensures InLayer(blocks', s, p) {
      assert InLayer(blocks, s, p);
    }
  }

  /** A call that delivers nothing leaves the layers as they were. */
  lemma LayersSame(blocks: Blocks, start: State, s: State)
    requires Layered(blocks, start) && s.regions == start.regions && s.blocks == start.blocks
    ensures Layered(blocks, s)
  {
    forall p ensures InLayer(blocks, s, p) {
      assert InLayer(blocks, start, p);
    }
  }

  /** A small block that was given back. */
  lemma BlockLeavesLayers(blocks: Blocks, start: State, s: State, pointer: Pointer)
    requires Layered(blocks, start) && s.regions == start.regions
    requires forall a :: a in start.blocks && a != pointer ==> a in s.blocks && s.blocks[a] == start.blocks[a]
    ensures Layered(blocks - {pointer}, s)
  {
    forall p ensures InLayer(blocks - {pointer}, s, p) {
      assert InLayer(blocks, start, p);
    }
  }

  // ---- the calls ----

  /** The pool of the proxy accepts a reservation of this size. */
  predicate PoolAgrees(proxy: AllocatorProxy, size: Size)
    requires proxy.globals.registry.Valid()
    reads proxy.globals.registry
  {
    var registry := proxy.globals.registry;
    ReserveRefusal(registry.initialized, registry.enforceBudgets, registry.pools, proxy.pool, size) == NoFailure
  }

  /** Asks the layer a request routes to; `answer` is what the backend says if it comes to that. */
  method AskLayer(ghost blocks: Blocks, small: SmallBlockAllocator, t: nat, size: Size, alignment: Size, answer: Pointer)
    returns (pointer: Pointer)
    requires small.Ready(t) && Layered(blocks, small.model) && NULL !in blocks
    requires answer != NULL ==> BackendDelivers(blocks, small.model, Route(size, alignment), size, answer)
    modifies small
    ensures small.Ready(t) && Layered(blocks, small.model)
    ensures pointer != NULL ==> IsUsable(blocks, small.model, pointer, size, alignment)
    ensures Route(size, alignment).Backend? ==> pointer == answer
    ensures Route(size, alignment).SmallBlock? ==>
      (pointer != NULL <==> IsServed(old(small.model), t, Request(size, alignment), answer))
  {
    match Route(size, alignment) {
      case SmallBlock(c) =>
        ghost var start := small.model;
        var request := Request(size, alignment);
        var given, returned, trace := small.AllocateSmallBlock(t, request, answer);
        if given == 0 {
          LayersSame(blocks, start, small.model);
          return NULL;
        }
        LayersAfter(blocks, start, small.model, c, answer);
        DeliveryIsUsable(blocks, start, small.model, answer, given, request, c);
        pointer := given;
      case Backend =>
        pointer := answer;
    }
  }

  /**
   A proxy's allocation down to the small block allocator.  The layer is asked once the pool has agreed; a small
   block comes aligned and clear of every block held through any pool, which nobody had to promise.
   */
  method Allocate(proxy: AllocatorProxy, small: SmallBlockAllocator, t: nat, size: Size, alignment: Size,
                  noTracking: bool, answer: Pointer)
    returns (pointer: Pointer, layer: Layer)
    requires proxy.Valid() && small.Ready(t) && Layered(proxy.globals.blocks, small.model)
    requires answer != NULL ==>
      BackendDelivers(proxy.globals.blocks, small.model, Route(size, NormalizeAlignment(alignment)), size, answer)
    modifies small, proxy.globals, proxy.globals.registry`pools, proxy.globals.tracker, proxy.globals.tracker.slots
    ensures proxy.globals.tracker.slots == old(proxy.globals.tracker.slots)
    ensures proxy.Valid() && small.Ready(t) && Layered(proxy.globals.blocks, small.model)
    ensures layer == Route(size, NormalizeAlignment(alignment))
    ensures pointer != NULL <==>
      && old(PoolAgrees(proxy, size))
      && if layer.SmallBlock? then IsServed(old(small.model), t, Request(size, NormalizeAlignment(alignment)), answer)
         else answer != NULL
    ensures pointer == NULL ==>
      proxy.globals.Now() == old(AfterFailedProxyAllocation(proxy.Given(), proxy.globals.Now(), proxy.pool, size))
    ensures pointer != NULL ==>
      && IsUsable(old(proxy.globals.blocks), small.model, pointer, size, NormalizeAlignment(alignment))
      && proxy.globals.Now() == AfterProxyAllocating(old(proxy.Given()), old(proxy.globals.Now()), proxy.pool, pointer,
                                                     size, alignment, noTracking)
  {
    var given := NULL;
    if PoolAgrees(proxy, size) {
      given := AskLayer(proxy.globals.blocks, small, t, size, NormalizeAlignment(alignment), answer);
    }
    pointer, layer := proxy.Allocate(size, alignment, noTracking, given);
    if pointer != NULL {
      BlockJoinsLayers(old(proxy.globals.blocks), small.model, pointer, size, alignment, proxy.pool);
    }
  }

  /** A small block goes back to the allocator that carved it. */
  method ReturnToLayer(ghost blocks: Blocks, small: SmallBlockAllocator, t: nat, pointer: Pointer, size: Size,
                       alignment: Size)
    requires small.Ready(t) && Layered(blocks, small.model) && pointer != NULL
    requires pointer in blocks && IsSmall(blocks[pointer])
    requires size == blocks[pointer].size && alignment == blocks[pointer].alignment
    modifies small
    ensures small.Ready(t) && Layered(blocks - {pointer}, small.model)
    ensures pointer in small.model.blocks && small.model.blocks[pointer].owner == Listed(t)
  {
    ghost var start := small.model;
    assert InLayer(blocks, start, pointer);
    var trace := small.FreeSmallBlock(t, pointer, Request(size, alignment));
    BlockLeavesLayers(blocks, start, small.model, pointer);
  }

  /** A proxy's free down to the small block allocator: the block ends up on the calling thread's list of its class. */
  method Free(proxy: AllocatorProxy, small: SmallBlockAllocator, t: nat, pointer: Pointer, size: Size, alignment: Size)
    requires proxy.Valid() && small.Ready(t) && Layered(proxy.globals.blocks, small.model)
    requires pointer != NULL ==> proxy.Owns(pointer, size, alignment)
    modifies small, proxy.globals, proxy.globals.registry`pools, proxy.globals.tracker, proxy.globals.tracker.slots
    ensures proxy.globals.tracker.slots == old(proxy.globals.tracker.slots)
    ensures proxy.Valid() && small.Ready(t) && Layered(proxy.globals.blocks, small.model)
    ensures proxy.globals.Now() == old(AfterProxyFreeing(proxy.Given(), proxy.globals.Now(), pointer))
    ensures pointer != NULL && IsSmall(old(proxy.globals.blocks)[pointer]) ==>
      pointer in small.model.blocks && small.model.blocks[pointer].owner == Listed(t)
    ensures pointer == NULL || !IsSmall(old(proxy.globals.blocks)[pointer]) ==> small.model == old(small.model)
  {
    ghost var blocks := proxy.globals.blocks;
    var freedSize, freedAlignment, layer := proxy.Free(pointer, size, alignment);
    if pointer != NULL && layer.SmallBlock? {
      ReturnToLayer(blocks, small, t, pointer, freedSize, freedAlignment);
    } else {
      BlockLeavesLayers(blocks, small.model, small.model, pointer);
    }
  }
}
