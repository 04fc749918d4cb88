/** The six size classes of the small block allocator and the routing decision built on them. */
module SmallBlockClasses {
  import opened Alignment
  import opened AllocationValidation
  import opened Options
  import opened Words

  const CLASS_COUNT := 6
  const MAX_SIZE := 512
  const SLAB_SIZE: Size := 0x1_0000

  function ClassSize(index: nat): (size: Size)
    requires index < CLASS_COUNT
    ensures 16 <= size <= MAX_SIZE
  {
    [16, 32, 64, 128, 256, 512][index]
  }

  function Required(size: Size, alignment: Size): Size {
    if size > alignment then size else alignment
  }

  /** The class a request belongs to: the least one that covers both its size and its alignment. */
  ghost predicate IsLeastClass(index: nat, required: nat) {
    && index < CLASS_COUNT
    && required <= ClassSize(index)
    && forall j :: 0 <= j < index ==> ClassSize(j) < required
  }

  function ClassIndex(size: Size, alignment: Size): (index: Option<nat>)
    ensures index.Some? <==> 0 < Required(size, alignment) <= MAX_SIZE
    ensures index.Some? ==> IsLeastClass(index.value, Required(size, alignment))
  {
    var required := Required(size, alignment);
    if required == 0 || required > MAX_SIZE then None
    else if required <= 16 then Some(0)
    else if required <= 32 then Some(1)
    else if required <= 64 then Some(2)
    else if required <= 128 then Some(3)
    else if required <= 256 then Some(4)
    else Some(5)
  }

  lemma LeastClassUnique(i: nat, j: nat, required: nat)
    requires IsLeastClass(i, required) && IsLeastClass(j, required)
    ensures i == j
  {
  }

  /** The table scan of the allocator. */
  method GetSmallBlockClassIndex(size: Size, alignment: Size) returns (result: Option<nat>)
    ensures result == ClassIndex(size, alignment)
  {
    var required := if size > alignment then size else alignment;
    if required == 0 || required > MAX_SIZE {
      return None;
    }
    for index := 0 to CLASS_COUNT
      invariant forall j :: 0 <= j < index ==> ClassSize(j) < required
    {
      if required <= ClassSize(index) {
        LeastClassUnique(index, ClassIndex(size, alignment).value, required);
        return Some(index);
      }
    }
    assert ClassSize(5) == 512;
    return None;
  }

  predicate IsSmallBlockAllocationSupported(size: Size, alignment: Size) {
    alignment != 0 && IsPowerOfTwo(alignment) && ClassIndex(size, alignment).Some?
  }

  /** Which layer serves a request. */
  datatype Layer = SmallBlock(class_: nat) | Backend

  function Route(size: Size, alignment: Size): Layer {
    if IsSmallBlockAllocationSupported(size, alignment)
    then SmallBlock(ClassIndex(size, alignment).value)
    else Backend
  }

  // ---- shape of the classes ----

  lemma ClassSizeIsPower(index: nat) returns (k: nat)
    requires index < CLASS_COUNT
    ensures k == index + 4 && ClassSize(index) == Pow2(k)
  {
    k := index + 4;
    assert Pow2(4) == 16;
    assert Pow2(5) == 32 && Pow2(6) == 64;
    assert Pow2(7) == 128 && Pow2(8) == 256;
    assert Pow2(9) == 512;
  }

  lemma SlabIsPower()
    ensures SLAB_SIZE == Pow2(16)
  {
    assert Pow2(4) == 16;
    Pow2Add(4, 4);
    Pow2Add(8, 8);
  }

  /** Blocks tile a slab without a remainder, and a block aligned to its class is aligned as any request of the class asks. */
  lemma ClassSizeDivides(index: nat, alignment: Size)
    requires index < CLASS_COUNT && IsPowerOfTwo(alignment) && alignment <= ClassSize(index)
    ensures SLAB_SIZE % ClassSize(index) == 0
    ensures ClassSize(index) % alignment == 0
  {
    var k := ClassSizeIsPower(index);
    SlabIsPower();
    Pow2Divides(k, 16);
    var a := ExponentOf(alignment);
    if a > k {
      Pow2Monotone(k, a);
    }
    Pow2Divides(a, k);
  }

  /** Freeing normalizes the alignment that allocating may not have normalized; the class does not change. */
  lemma NormalizationKeepsClass(size: Size, alignment: Size)
    requires IsPowerOfTwo(alignment)
    ensures ClassIndex(size, NormalizeAlignment(alignment)) == ClassIndex(size, alignment)
  {
  }

  /** A block is freed through the layer and class it came from, even though both ends normalize its alignment again. */
  lemma FreeRoutesLikeAllocate(size: Size, alignment: Size)
    ensures var normalized := NormalizeAlignment(alignment);
            && Route(size, NormalizeAlignment(normalized)) == Route(size, normalized)
            && (Route(size, normalized).SmallBlock? ==>
                  && Route(size, normalized).class_ == ClassIndex(size, NormalizeAlignment(normalized)).value
                  && IsLeastClass(Route(size, normalized).class_, Required(size, normalized)))
  {
  }

  /** The raw call serves exactly sizes up to 512 with power-of-two alignments up to 512. */
  lemma SupportedIff(size: Size, alignment: Size)
    ensures IsSmallBlockAllocationSupported(size, alignment)
            <==> size <= 512 && alignment <= 512 && PowerOfTwo(alignment)
  {
    IsPowerOfTwoMeaning(alignment);
  }

  /** The documented routing rule: the small block allocator serves exactly sizes and power-of-two alignments up to 512. */
  lemma RoutingRule(size: Size, alignment: Size)
    ensures Route(size, NormalizeAlignment(alignment)).SmallBlock?
            <==> size <= MAX_SIZE && alignment <= MAX_SIZE && (alignment < 16 || IsPowerOfTwo(alignment))
  {
    MinimumAlignmentIsPower();
  }
}
