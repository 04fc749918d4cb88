/**
 The fixed-size pool allocator.  Free slots are linked through their own bytes; clients may write whatever
 they like into live slots, and the free list survives it.
 */
module PoolAllocator {
  import opened Alignment
  import opened AllocationValidation
  import opened Arithmetic
  import opened ByteMemory
  import opened Words

  /** Room for a link as well as an object. */
  function MinimumSlotSize(objectSize: Size): Size {
    if objectSize < WORD_BYTES then WORD_BYTES else objectSize
  }

  function GetPoolSlotStride(objectSize: Size, objectAlignment: Size): nat {
    AlignUp(MinimumSlotSize(objectSize), objectAlignment)
  }

  /** Whether rounding the slot size up to the alignment stays within a word. */
  predicate StrideFits(objectSize: Size, objectAlignment: Size) {
    MinimumSlotSize(objectSize) + objectAlignment - 1 < WORD_VALUES
  }

  /** The stride is the least multiple of the alignment that holds an object and a link, unless it wraps to zero. */
  lemma StrideIsLeast(objectSize: Size, objectAlignment: Size)
    requires IsPowerOfTwo(objectAlignment)
    ensures var stride := GetPoolSlotStride(objectSize, objectAlignment);
            if StrideFits(objectSize, objectAlignment) then
              && stride % objectAlignment == 0
              && objectSize <= stride && WORD_BYTES <= stride < WORD_VALUES
              && forall m: nat :: m % objectAlignment == 0 && objectSize <= m && WORD_BYTES <= m ==> stride <= m
            else stride == 0
  {
    if StrideFits(objectSize, objectAlignment) {
      AlignUpIsLeastMultiple(MinimumSlotSize(objectSize), objectAlignment);
    } else {
      AlignUpIsUpperBoundIff(MinimumSlotSize(objectSize), objectAlignment);
    }
  }

  /** What the backing allocator is asked for; the product may wrap. */
  function RequestedBytes(desc: PoolAllocatorDesc): Size {
    (GetPoolSlotStride(desc.objectSize, desc.objectAlignment) * desc.objectCount) % WORD_VALUES
  }

  /** Neither the stride nor its product with the count leaves the range of a word. */
  predicate SizesFit(desc: PoolAllocatorDesc) {
    && StrideFits(desc.objectSize, desc.objectAlignment)
    && GetPoolSlotStride(desc.objectSize, desc.objectAlignment) * desc.objectCount < WORD_VALUES
  }

  /** The slots that are linked fit the bytes that were asked for exactly when no size wraps. */
  lemma RequestHoldsSlotsIff(desc: PoolAllocatorDesc)
    requires IsAccepted(desc)
    ensures var stride := GetPoolSlotStride(desc.objectSize, desc.objectAlignment);
            desc.objectSize <= stride && stride * desc.objectCount <= RequestedBytes(desc) <==> SizesFit(desc)
  {
    StrideIsLeast(desc.objectSize, desc.objectAlignment);
  }

  /** The smallest count of word-sized objects whose product wraps to a block that looks usable. */
  lemma WrappedRequest()
    ensures var desc := PoolAllocatorDesc(8, 8, 0x2000_0000_0000_0001, true);
            IsAccepted(desc) && RequestedBytes(desc) == 8
  {
    IsPowerOfTwoMeaning(8);
    assert Pow2(3) == 8;
    AlignUpIsLeastMultiple(8, 8);
  }

  // ---- the slots of a block of memory ----

  function Slot(base: nat, stride: nat, k: nat): nat {
    base + k * stride
  }

  ghost predicate IsSlot(base: nat, stride: nat, count: nat, a: nat) {
    exists k: nat :: k < count && a == Slot(base, stride, k)
  }

  /** The set of all slot addresses; the trigger keeps it folded until a proof asks about an address. */
  ghost predicate AreSlots(slots: set<nat>, base: nat, stride: nat, count: nat) {
    forall a {:trigger IsSlot(base, stride, count, a)} :: a in slots <==> IsSlot(base, stride, count, a)
  }

  lemma SlotOrder(base: nat, stride: nat, i: nat, j: nat)
    requires i < j
    ensures Slot(base, stride, i) + stride <= Slot(base, stride, j)
  {
    MulMonotone(i, j, stride);
  }

  lemma SlotsApart(slots: set<nat>, base: nat, stride: nat, count: nat, a: nat, b: nat)
    requires AreSlots(slots, base, stride, count) && a in slots && b in slots && a != b
    ensures a + stride <= b || b + stride <= a
  {
    assert IsSlot(base, stride, count, a) && IsSlot(base, stride, count, b);
    var i: nat :| i < count && a == Slot(base, stride, i);
    var j: nat :| j < count && b == Slot(base, stride, j);
    if i < j {
      SlotOrder(base, stride, i, j);
    } else {
      SlotOrder(base, stride, j, i);
    }
  }

  lemma SlotInBlock(slots: set<nat>, base: nat, stride: nat, count: nat, a: nat)
    requires AreSlots(slots, base, stride, count) && a in slots
    ensures base <= a && a + stride <= base + stride * count
  {
    assert IsSlot(base, stride, count, a);
    var i: nat :| i < count && a == Slot(base, stride, i);
    MulMonotone(i, count, stride);
  }

  /** The range and stride tests of Free accept exactly the slot addresses. */
  lemma SlotTest(slots: set<nat>, base: nat, stride: nat, count: nat, a: nat)
    requires AreSlots(slots, base, stride, count)
    requires stride > 0 && base <= a < base + stride * count
    ensures (a - base) % stride == 0 <==> a in slots
  {
    assert a in slots <==> IsSlot(base, stride, count, a);
    var k := (a - base) / stride;
    DivModEquation(a - base, stride);
    if (a - base) % stride == 0 {
      assert k < count && a == Slot(base, stride, k);
    }
    forall i: nat | i < count && a == Slot(base, stride, i) ensures (a - base) % stride == 0 {
      MultipleMod(i, stride);
    }
  }

  /** The first n blocks of a list link to their successors. */
  ghost predicate Linked(m: Memory, list: seq<nat>, n: nat) {
    n < |list| && forall i :: 0 <= i < n ==> LoadWord(m, list[i]) == list[i + 1]
  }

  lemma {:induction false} SlotsCount(slots: set<nat>, base: nat, stride: nat, count: nat)
    requires AreSlots(slots, base, stride, count) && stride > 0
    ensures |slots| == count
    decreases count
  {
    if count == 0 {
      forall a ensures a !in slots {
        assert a in slots <==> IsSlot(base, stride, 0, a);
      }
      assert slots == {};
    } else {
      var last := Slot(base, stride, count - 1);
      assert IsSlot(base, stride, count, last);
      var rest := slots - {last};
      forall a ensures a in rest <==> IsSlot(base, stride, count - 1, a) {
        SlotBelow(slots, base, stride, count, a);
      }
      SlotsCount(rest, base, stride, count - 1);
    }
  }

  lemma SlotBelow(slots: set<nat>, base: nat, stride: nat, count: nat, a: nat)
    requires AreSlots(slots, base, stride, count) && stride > 0 && count > 0
    ensures IsSlot(base, stride, count - 1, a) <==> a in slots && a != Slot(base, stride, count - 1)
  {
    assert a in slots <==> IsSlot(base, stride, count, a);
    forall k: nat | k < count - 1 ensures Slot(base, stride, k) != Slot(base, stride, count - 1) {
      SlotOrder(base, stride, k, count - 1);
    }
  }

  lemma SlotAligned(slots: set<nat>, base: nat, stride: nat, count: nat, a: nat, alignment: nat)
    requires AreSlots(slots, base, stride, count) && a in slots
    requires alignment > 0 && base % alignment == 0 && stride % alignment == 0
    ensures a % alignment == 0
  {
    assert IsSlot(base, stride, count, a);
    var i: nat :| i < count && a == Slot(base, stride, i);
    DivModEquation(base, alignment);
    DivModEquation(stride, alignment);
    Reassociate(i, stride / alignment, alignment);
    Distribute(base / alignment, i * (stride / alignment), alignment);
    MultipleMod(base / alignment + i * (stride / alignment), alignment);
  }

  function SlotList(base: nat, stride: nat, count: nat): seq<nat> {
    seq(count, k requires 0 <= k < count => Slot(base, stride, k))
  }

  lemma SlotListMembers(base: nat, stride: nat, count: nat)
    ensures AreSlots(Members(SlotList(base, stride, count)), base, stride, count)
  {
    var list := SlotList(base, stride, count);
    forall a ensures a in Members(list) <==> IsSlot(base, stride, count, a) {
      if IsSlot(base, stride, count, a) {
        var k: nat :| k < count && a == Slot(base, stride, k);
        assert list[k] == a;
      }
      assert a in Members(list) <==> a in list;
    }
  }

  // ---- the free list and the live slots ----

  /** A slot is live or listed, not both, and nothing else is either. */
  ghost predicate HeldOnce(chain: seq<nat>, live: set<nat>, slots: set<nat>, a: nat) {
    && (a in slots <==> a in chain || a in live)
    && !(a in chain && a in live)
  }

  /** Every slot is either live or on the free list, and the list is what memory links together. */
  ghost predicate Partitioned(m: Memory, head: nat, chain: seq<nat>, live: set<nat>, slots: set<nat>) {
    && IsChain(m, head, chain)
    && forall a {:trigger HeldOnce(chain, live, slots, a)} :: HeldOnce(chain, live, slots, a)
  }

  /** Slots are at least a word apart, so the link of one slot is no part of another. */
  ghost predicate Apart(slots: set<nat>) {
    forall a, b :: a in slots && b in slots && a != b ==> a + WORD_BYTES <= b || b + WORD_BYTES <= a
  }

  lemma AllListed(m: Memory, head: nat, chain: seq<nat>)
    requires IsChain(m, head, chain)
    ensures Partitioned(m, head, chain, {}, Members(chain))
  {
    forall a ensures HeldOnce(chain, {}, Members(chain), a) {
    }
  }

  lemma PopPartitioned(m: Memory, head: nat, chain: seq<nat>, live: set<nat>, slots: set<nat>)
    requires Partitioned(m, head, chain, live, slots) && head != 0
    ensures chain != [] && head == chain[0] && head in slots - live
    ensures Partitioned(m, LoadWord(m, head), chain[1..], live + {head}, slots)
  {
    ChainIsAcyclic(m, head, chain);
    ChainTail(m, head, chain);
    assert HeldOnce(chain, live, slots, head);
    forall a ensures HeldOnce(chain[1..], live + {head}, slots, a) {
      assert HeldOnce(chain, live, slots, a);
      assert chain == [head] + chain[1..];
    }
  }

  lemma PushPartitioned(m: Memory, head: Size, chain: seq<nat>, live: set<nat>, slots: set<nat>, slot: nat)
    requires Partitioned(m, head, chain, live, slots) && Apart(slots) && slot in live && slot != 0
    ensures Partitioned(StoreWord(m, slot, head), slot, [slot] + chain, live - {slot}, slots)
  {
    assert HeldOnce(chain, live, slots, slot);
    forall a | a in chain ensures a + WORD_BYTES <= slot || slot + WORD_BYTES <= a {
      assert HeldOnce(chain, live, slots, a);
    }
    ChainPush(m, head, chain, slot);
    forall a ensures HeldOnce([slot] + chain, live - {slot}, slots, a) {
      assert HeldOnce(chain, live, slots, a);
    }
  }

  /** Freeing a slot keeps the free list a list if and only if the slot was live: the code does not check for a second free. */
  lemma FreeKeepsListIff(m: Memory, head: Size, chain: seq<nat>, live: set<nat>, slots: set<nat>, slot: nat)
    requires Partitioned(m, head, chain, live, slots) && Apart(slots) && slot in slots && slot != 0
    ensures (exists again :: IsChain(StoreWord(m, slot, head), slot, again)) <==> slot in live
  {
    assert HeldOnce(chain, live, slots, slot);
    forall a | a in chain && a != slot ensures a + WORD_BYTES <= slot || slot + WORD_BYTES <= a {
      assert HeldOnce(chain, live, slots, a);
    }
    PushIsChainIff(m, head, chain, slot);
  }

  lemma WritePartitioned(m: Memory, head: nat, chain: seq<nat>, live: set<nat>, slots: set<nat>, x: nat, b: Byte)
    requires Partitioned(m, head, chain, live, slots)
    requires forall a :: a in slots - live ==> x < a || a + WORD_BYTES <= x
    ensures Partitioned(StoreByte(m, x, b), head, chain, live, slots)
  {
    forall a | a in chain ensures AgreeOn(m, StoreByte(m, x, b), a, WORD_BYTES) {
      assert HeldOnce(chain, live, slots, a);
      assert a in slots - live;
    }
    ChainFrame(m, StoreByte(m, x, b), head, chain);
  }

  lemma PartitionCounts(m: Memory, head: nat, chain: seq<nat>, live: set<nat>, slots: set<nat>)
    requires Partitioned(m, head, chain, live, slots)
    ensures Distinct(chain) && |chain| + |live| == |slots|
    ensures forall a :: a in chain <==> a in slots && a !in live
  {
    ChainIsAcyclic(m, head, chain);
    MembersCount(chain);
    forall a ensures a in chain <==> a in slots && a !in live
             ensures a in live ==> a in slots
    {
      assert HeldOnce(chain, live, slots, a);
    }
    assert slots == Members(chain) + live;
  }

  datatype PoolAllocatorDesc = PoolAllocatorDesc(
    objectSize: Size, objectAlignment: Size, objectCount: Size, validBacking: bool)

  predicate IsAccepted(desc: PoolAllocatorDesc) {
    desc.objectSize != 0 && desc.objectCount != 0 && IsPowerOfTwo(desc.objectAlignment) && desc.validBacking
  }

  /** An aligned block with room for all slots. */
  ghost predicate Delivers(desc: PoolAllocatorDesc, block: Pointer)
    requires IsAccepted(desc)
  {
    && StrideFits(desc.objectSize, desc.objectAlignment)
    && block + GetPoolSlotStride(desc.objectSize, desc.objectAlignment) * desc.objectCount < WORD_VALUES
    && desc.objectAlignment > 0 && block % desc.objectAlignment == 0
  }

  class PoolAllocator {
    // The memory the pool shares with its clients.
    var memory: Memory

    var base: Pointer
    var byteSize: Size
    var freeList: Pointer
    var objectSize: Size
    var objectStride: Size
    var objectAlignment: Size
    var capacity: Size
    var usedCount: Size

    // All slot addresses, the free list as a sequence of them, and the slots clients hold.
    ghost var slots: set<nat>
    ghost var chain: seq<nat>
    ghost var live: set<nat>

    ghost predicate Valid()
      reads this
    {
      if base == NULL then freeList == NULL && chain == [] && live == {} && usedCount == 0
      else
        && Shape(base, byteSize, objectSize, objectStride, objectAlignment, capacity)
        && AreSlots(slots, base, objectStride, capacity)
        && Partitioned(memory, freeList, chain, live, slots)
        && usedCount == |live|
    }

    constructor ()
      ensures Valid() && base == freeList == NULL
      ensures objectSize == objectStride == objectAlignment == capacity == usedCount == byteSize == 0
    {
      base, byteSize, freeList := NULL, 0, NULL;
      objectSize, objectStride, objectAlignment, capacity, usedCount := 0, 0, 0, 0, 0;
      memory := _ => 0;
      slots, chain, live := {}, [], {};
    }

    /**
     Links all slots in address order; `block` is the backing allocator's answer and `contents` the memory it lies in.
     A refused description changes nothing.  When no block comes back, a pool that had one keeps its list and its
     block but already has the new dimensions; a new block replaces whatever the pool had.
     */
    method Initialize(desc: PoolAllocatorDesc, block: Pointer, contents: Memory) returns (ok: bool)
      requires Valid()
      requires IsAccepted(desc) && block != NULL ==> Delivers(desc, block)
      modifies this
      ensures ok <==>
        desc.objectSize > 0 && desc.objectCount > 0 && PowerOfTwo(desc.objectAlignment) && desc.validBacking && block != NULL
      ensures !ok ==>
        && base == old(base) && byteSize == old(byteSize) && freeList == old(freeList) && usedCount == old(usedCount)
        && memory == old(memory) && slots == old(slots) && chain == old(chain) && live == old(live)
      ensures if IsAccepted(desc)
              then objectSize == desc.objectSize && objectAlignment == desc.objectAlignment && capacity == desc.objectCount
                   && objectStride == GetPoolSlotStride(desc.objectSize, desc.objectAlignment)
              else objectSize == old(objectSize) && objectAlignment == old(objectAlignment) && capacity == old(capacity)
                   && objectStride == old(objectStride)
      ensures ok ==> base == block && usedCount == 0 && live == {} && chain == SlotList(base, objectStride, capacity)
      ensures ok ==> byteSize == objectStride * capacity && KeepsOutside(contents, memory, base, byteSize)
      ensures ok || !IsAccepted(desc) || old(base) == NULL ==> Valid()
    {
      IsPowerOfTwoMeaning(desc.objectAlignment);
      if desc.objectSize == 0 || desc.objectCount == 0 || !IsPowerOfTwo(desc.objectAlignment) || !desc.validBacking {
        return false;
      }
      StrideIsLeast(desc.objectSize, desc.objectAlignment);
      objectSize := desc.objectSize;
      objectAlignment := desc.objectAlignment;
      objectStride := GetPoolSlotStride(desc.objectSize, desc.objectAlignment);
      capacity := desc.objectCount;
      if block == NULL {
        return false;
      }
      BlockSize(block, objectStride, capacity);
      base, byteSize := block, objectStride * capacity;
      memory := contents;
      LinkSlots();
      freeList, usedCount := base, 0;
      TakeOver();
      return true;
    }

    /** All slots of a freshly linked block are free. */
    ghost method TakeOver()
      requires Shape(base, byteSize, objectSize, objectStride, objectAlignment, capacity) && base != NULL
      requires freeList == base && usedCount == 0
      requires IsChain(memory, base, SlotList(base, objectStride, capacity))
      modifies `slots, `chain, `live
      ensures Valid() && live == {} && chain == SlotList(base, objectStride, capacity)
    {
      chain, live := SlotList(base, objectStride, capacity), {};
      slots := Members(chain);
      SlotListMembers(base, objectStride, capacity);
      AllListed(memory, base, chain);
    }

    /** Writes the link of every slot, the last one null. */
    method LinkSlots()
      requires base != NULL && capacity > 0 && objectStride >= WORD_BYTES
      requires base + objectStride * capacity < WORD_VALUES
      modifies `memory
      ensures IsChain(memory, base, SlotList(base, objectStride, capacity))
      ensures KeepsOutside(old(memory), memory, base, objectStride * capacity)
    {
      for index := 0 to capacity - 1
        invariant Linked(memory, SlotList(base, objectStride, capacity), index)
        invariant KeepsOutside(old(memory), memory, base, objectStride * capacity)
      {
        LinkStaysInside(old(memory), memory, base, objectStride, capacity, index, Slot(base, objectStride, index + 1));
        LinkNext(memory, base, objectStride, capacity, index);
        memory := StoreWord(memory, Slot(base, objectStride, index), Slot(base, objectStride, index + 1));
      }
      LinkLast(memory, base, objectStride, capacity);
      LinkStaysInside(old(memory), memory, base, objectStride, capacity, capacity - 1, 0);
      memory := StoreWord(memory, Slot(base, objectStride, capacity - 1), 0);
    }

    /** Hands out the head of the free list when the request fits the pool and a slot is free. */
    method Allocate(requestSize: Size, requestAlignment: Size) returns (pointer: Pointer, size: Size)
      requires Valid()
      modifies `freeList, `usedCount, `chain, `live
      ensures Valid()
      ensures pointer != NULL <==>
        base != NULL && old(chain) != [] && 0 < requestSize <= objectSize && requestAlignment <= objectAlignment
      ensures pointer == NULL ==>
        size == 0 && chain == old(chain) && live == old(live) && usedCount == old(usedCount) && freeList == old(freeList)
      ensures pointer != NULL ==>
        && size == objectSize
        && pointer == old(chain)[0] && pointer in slots - old(live)
        && chain == old(chain)[1..] && live == old(live) + {pointer as nat}
        && usedCount == old(usedCount) + 1
    {
      NullMeansEmpty();
      if freeList == NULL || requestSize == 0 || requestSize > objectSize || requestAlignment > objectAlignment {
        return NULL, 0;
      }
      pointer := Pop();
      return pointer, objectSize;
    }

    /** Unlinks the head of a nonempty free list. */
    method Pop() returns (result: Pointer)
      requires Valid() && freeList != NULL
      modifies `freeList, `usedCount, `chain, `live
      ensures Valid()
      ensures result != NULL && old(chain) != [] && result == old(chain)[0] && result in slots - old(live)
      ensures chain == old(chain)[1..] && live == old(live) + {result as nat} && usedCount == old(usedCount) + 1
    {
      CanPop();
      result := freeList;
      freeList := LoadWord(memory, freeList);
      usedCount := usedCount + 1;
      chain, live := chain[1..], live + {result as nat};
    }

    /**
     Returns a live slot to the head of the list.  Pointers outside the block, between slots, or null change nothing;
     a slot that is already free must not be freed again.
     */
    method Free(pointer: Pointer)
      requires Valid()
      requires base != NULL && pointer in slots && usedCount > 0 ==> pointer in live
      modifies `memory, `freeList, `usedCount, `chain, `live
      ensures Valid()
      ensures pointer in old(live) ==>
        && chain == [pointer as nat] + old(chain) && live == old(live) - {pointer as nat}
        && usedCount == old(usedCount) - 1 && freeList == pointer
        && memory == StoreWord(old(memory), pointer, old(freeList))
      ensures pointer !in old(live) ==>
        chain == old(chain) && live == old(live) && usedCount == old(usedCount)
        && memory == old(memory) && freeList == old(freeList)
    {
      if pointer == NULL || base == NULL || objectStride == 0 || usedCount == 0 {
        LiveIsInBlock(pointer);
        return;
      }
      LiveIsInBlock(pointer);
      if pointer < base || pointer >= base + byteSize {
        return;
      }
      SlotTest(slots, base, objectStride, capacity, pointer);
      var offset := pointer - base;
      if offset % objectStride != 0 {
        return;
      }
      Push(pointer);
    }

    /** Links a live slot in front of the free list. */
    method Push(pointer: Pointer)
      requires Valid() && base != NULL && pointer in live && pointer != NULL
      modifies `memory, `freeList, `usedCount, `chain, `live
      ensures Valid()
      ensures chain == [pointer as nat] + old(chain) && live == old(live) - {pointer as nat}
      ensures usedCount == old(usedCount) - 1 && freeList == pointer
      ensures memory == StoreWord(old(memory), pointer, old(freeList))
    {
      CanPush(pointer);
      memory := StoreWord(memory, pointer, freeList);
      freeList := pointer;
      usedCount := usedCount - 1;
      chain, live := [pointer as nat] + chain, live - {pointer as nat};
    }

    /** Any byte of a live slot, and any byte outside the pool's block, may change at any time. */
    method ClientWrite(address: nat, value: Byte)
      requires Valid()
      requires base != NULL ==>
        || address < base || base + byteSize <= address
        || exists slot: nat :: slot in live && slot <= address < slot + objectStride
      modifies `memory
      ensures Valid() && memory == StoreByte(old(memory), address, value)
    {
      if base != NULL {
        WriteMissesFree(address);
        WritePartitioned(memory, freeList, chain, live, slots, address, value);
      }
      memory := StoreByte(memory, address, value);
    }

    // ---- facts about a valid pool ----

    lemma NullMeansEmpty()
      requires Valid()
      ensures freeList == NULL <==> chain == []
    {
      if base != NULL && chain != [] {
        ChainTail(memory, freeList, chain);
      }
    }

    lemma CanPop()
      requires Valid() && freeList != NULL
      ensures base != NULL && chain != [] && freeList == chain[0] && freeList in slots - live
      ensures LoadWord(memory, freeList) < WORD_VALUES
      ensures Partitioned(memory, LoadWord(memory, freeList), chain[1..], live + {freeList as nat}, slots)
      ensures usedCount + 1 == |live + {freeList as nat}| <= capacity
    {
      PopPartitioned(memory, freeList, chain, live, slots);
      PartitionCounts(memory, freeList, chain, live, slots);
      SlotsCount(slots, base, objectStride, capacity);
      NextIsSlot(memory, freeList, chain, live, slots, base, objectStride, capacity);
    }

    lemma CanPush(pointer: Pointer)
      requires Valid() && base != NULL && pointer in live && pointer != NULL
      ensures Partitioned(StoreWord(memory, pointer, freeList), pointer, [pointer as nat] + chain,
                          live - {pointer as nat}, slots)
      ensures usedCount == |live - {pointer as nat}| + 1
    {
      SlotsAreApart(slots, base, objectStride, capacity);
      PushPartitioned(memory, freeList, chain, live, slots, pointer);
    }

    /** The link that a free writes touches no other slot in use. */
    lemma FreeKeepsLiveBytes(pointer: Pointer, other: nat)
      requires Valid() && pointer in live && other in live && other != pointer
      ensures AgreeOn(memory, StoreWord(memory, pointer, freeList), other, objectStride)
    {
      LiveIsInBlock(pointer);
      assert HeldOnce(chain, live, slots, pointer) && HeldOnce(chain, live, slots, other);
      SlotsApart(slots, base, objectStride, capacity, pointer, other);
    }

    lemma LiveIsInBlock(pointer: Pointer)
      requires Valid()
      ensures pointer in live ==>
        base != NULL && usedCount > 0 && pointer in slots && base <= pointer < base + byteSize && pointer != NULL
    {
      if pointer in live {
        assert HeldOnce(chain, live, slots, pointer);
        SlotInBlock(slots, base, objectStride, capacity, pointer);
      }
    }

    lemma WriteMissesFree(address: nat)
      requires Valid() && base != NULL
      requires address < base || base + byteSize <= address
               || exists slot: nat :: slot in live && slot <= address < slot + objectStride
      ensures forall a :: a in slots - live ==> address < a || a + WORD_BYTES <= address
    {
      forall a | a in slots - live ensures address < a || a + WORD_BYTES <= address {
        SlotInBlock(slots, base, objectStride, capacity, a);
        if slot: nat :| slot in live && slot <= address < slot + objectStride {
          assert HeldOnce(chain, live, slots, slot);
          SlotsApart(slots, base, objectStride, capacity, slot, a);
        }
      }
    }

    /** The free list is acyclic and holds exactly the slots that are not live. */
    lemma FreeListIsComplete()
      requires Valid() && base != NULL
      ensures Distinct(chain) && |chain| == capacity - usedCount
      ensures forall a :: a in chain <==> a in slots && a !in live
    {
      PartitionCounts(memory, freeList, chain, live, slots);
      SlotsCount(slots, base, objectStride, capacity);
    }

    /** Live slots are disjoint, inside the block, and aligned as any admitted request asks. */
    lemma LiveSlotsAreSeparate(a: nat, b: nat, requestAlignment: Size)
      requires Valid() && a in live && b in live
      requires IsPowerOfTwo(requestAlignment) && requestAlignment <= objectAlignment
      ensures a == b || a + objectStride <= b || b + objectStride <= a
      ensures base <= a && a + objectSize <= base + byteSize
      ensures a % requestAlignment == 0
    {
      assert HeldOnce(chain, live, slots, a) && HeldOnce(chain, live, slots, b);
      SlotInBlock(slots, base, objectStride, capacity, a);
      if a != b {
        SlotsApart(slots, base, objectStride, capacity, a, b);
      }
      SlotAligned(slots, base, objectStride, capacity, a, objectAlignment);
      var k := ExponentOf(requestAlignment);
      var n := ExponentOf(objectAlignment);
      if n < k {
        Pow2Monotone(n, k);
      }
      Pow2Divides(k, n);
      MultipleOfMultiple(a, objectAlignment, requestAlignment);
    }
  }

  /** An initialized pool's dimensions. */
  ghost predicate Shape(
    base: Pointer, byteSize: Size, objectSize: Size, objectStride: Size, objectAlignment: Size, capacity: Size)
  {
    && capacity > 0
    && objectSize <= objectStride && WORD_BYTES <= objectStride
    && IsPowerOfTwo(objectAlignment)
    && base % objectAlignment == 0 && objectStride % objectAlignment == 0
    && byteSize == objectStride * capacity
    && base + byteSize < WORD_VALUES
  }

  lemma BlockSize(base: nat, stride: nat, count: nat)
    requires base + stride * count < WORD_VALUES
    ensures 0 <= stride * count < WORD_VALUES
  {
  }

  lemma SlotsAreApart(slots: set<nat>, base: nat, stride: nat, count: nat)
    requires AreSlots(slots, base, stride, count) && stride >= WORD_BYTES
    ensures Apart(slots)
  {
    forall a, b | a in slots && b in slots && a != b
      ensures a + WORD_BYTES <= b || b + WORD_BYTES <= a
    {
      SlotsApart(slots, base, stride, count, a, b);
    }
  }

  lemma NextIsSlot(
    m: Memory, head: nat, chain: seq<nat>, live: set<nat>, slots: set<nat>, base: nat, stride: nat, count: nat)
    requires Partitioned(m, head, chain, live, slots) && head != 0
    requires AreSlots(slots, base, stride, count)
    requires stride > 0 && base + stride * count < WORD_VALUES
    ensures LoadWord(m, head) < WORD_VALUES
  {
    ChainTail(m, head, chain);
    if chain[1..] != [] {
      assert HeldOnce(chain, live, slots, chain[1]);
      SlotInBlock(slots, base, stride, count, chain[1]);
    }
  }

  /** Linking one slot stores a word that is read back and leaves the earlier links alone. */
  lemma LinkKeepsEarlier(m: Memory, base: nat, stride: nat, index: nat, next: Size)
    requires stride >= WORD_BYTES
    ensures LoadWord(StoreWord(m, Slot(base, stride, index), next), Slot(base, stride, index)) == next
    ensures forall i :: 0 <= i < index ==>
      LoadWord(StoreWord(m, Slot(base, stride, index), next), Slot(base, stride, i)) == LoadWord(m, Slot(base, stride, i))
  {
    LoadStore(m, Slot(base, stride, index), next);
    forall i | 0 <= i < index
      ensures LoadWord(StoreWord(m, Slot(base, stride, index), next), Slot(base, stride, i))
              == LoadWord(m, Slot(base, stride, i))
    {
      SlotOrder(base, stride, i, index);
      LoadFrame(m, StoreWord(m, Slot(base, stride, index), next), Slot(base, stride, i));
    }
  }

  lemma LinkNext(m: Memory, base: nat, stride: nat, count: nat, index: nat)
    requires index + 1 < count && stride >= WORD_BYTES && base + stride * count < WORD_VALUES
    requires Linked(m, SlotList(base, stride, count), index)
    ensures Linked(StoreWord(m, Slot(base, stride, index), Slot(base, stride, index + 1)),
                   SlotList(base, stride, count), index + 1)
  {
    MulMonotone(index + 1, count, stride);
    LinkKeepsEarlier(m, base, stride, index, Slot(base, stride, index + 1));
    var n, list := StoreWord(m, Slot(base, stride, index), Slot(base, stride, index + 1)), SlotList(base, stride, count);
    forall i | 0 <= i < index + 1 ensures LoadWord(n, list[i]) == list[i + 1] {
      if i < index {
        assert LoadWord(m, list[i]) == list[i + 1];
      }
    }
  }

  /** Memory outside a block is what it was. */
  ghost predicate KeepsOutside(before: Memory, now: Memory, base: nat, size: int) {
    forall a: nat :: a < base || base + size <= a ==> now(a) == before(a)
  }

  lemma LinkStaysInside(before: Memory, m: Memory, base: nat, stride: nat, count: nat, index: nat, link: nat)
    requires index < count && stride >= WORD_BYTES && KeepsOutside(before, m, base, stride * count)
    ensures KeepsOutside(before, StoreWord(m, Slot(base, stride, index), link), base, stride * count)
  {
    MulMonotone(index + 1, count, stride);
    assert (index + 1) * stride == index * stride + stride;
  }

  lemma SlotListStart(base: nat, stride: nat, count: nat)
    requires base != 0 && count > 0
    ensures SlotList(base, stride, count)[0] == base
    ensures forall i :: 0 <= i < count ==> SlotList(base, stride, count)[i] != 0
  {
  }

  lemma LinkLast(m: Memory, base: nat, stride: nat, count: nat)
    requires base != 0 && count > 0 && stride >= WORD_BYTES
    requires Linked(m, SlotList(base, stride, count), count - 1)
    ensures IsChain(StoreWord(m, Slot(base, stride, count - 1), 0), base, SlotList(base, stride, count))
  {
    LinkKeepsEarlier(m, base, stride, count - 1, 0);
    SlotListStart(base, stride, count);
    var n, list := StoreWord(m, Slot(base, stride, count - 1), 0), SlotList(base, stride, count);
    forall i | 0 <= i < count - 1 ensures LoadWord(n, list[i]) == list[i + 1] {
      assert LoadWord(m, list[i]) == list[i + 1];
    }
    LinkedBlocks(n, list);
  }
}
