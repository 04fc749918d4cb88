/** Allocation requests, their validation and the normalization both ends of a block's life share. */
module AllocationValidation {
  import opened Alignment
  import opened Arithmetic
  import opened Words

  /** An address; 0 is the null pointer. */
  type Pointer = Size

  const NULL: Pointer := 0

  /** A pool number; values from MEMORY_POOL_COUNT on name no pool. */
  type PoolId = n: int | 0 <= n < 0x1_0000

  const MEMORY_POOL_COUNT := 6

  // The strictest fundamental alignment of the 64-bit targets.
  const MINIMUM_ALLOCATION_ALIGNMENT: Size := 16

  datatype FailureReason =
    | NoFailure
    | OutOfMemory
    | InvalidSize
    | InvalidAlignment
    | InvalidPool
    | PoolBudgetExceeded
    | SystemNotInitialized
    | BackendFailure

  datatype AllocationRequest = AllocationRequest(byteSize: Size, alignment: Size, pool: PoolId, noTracking: bool)

  predicate IsValidPool(pool: PoolId) {
    pool < MEMORY_POOL_COUNT
  }

  function NormalizeAlignment(alignment: Size): Size {
    if alignment < MINIMUM_ALLOCATION_ALIGNMENT then MINIMUM_ALLOCATION_ALIGNMENT else alignment
  }

  function NormalizeRequest(request: AllocationRequest): AllocationRequest {
    request.(alignment := NormalizeAlignment(request.alignment))
  }

  predicate IsValidAlignment(alignment: Size) {
    alignment != 0 && IsPowerOfTwo(alignment)
  }

  /** The first complaint about a request, in the order of the tests. */
  function ValidateRequest(request: AllocationRequest): FailureReason {
    if request.byteSize == 0 then InvalidSize
    else if !IsValidAlignment(request.alignment) then InvalidAlignment
    else if !IsValidPool(request.pool) then InvalidPool
    else NoFailure
  }

  function ValidateReallocation(request: AllocationRequest): FailureReason {
    if !IsValidAlignment(request.alignment) then InvalidAlignment
    else if !IsValidPool(request.pool) then InvalidPool
    else NoFailure
  }

  /** What each answer of the validation says about the request. */
  lemma ValidationIff(request: AllocationRequest)
    ensures ValidateRequest(request) == InvalidSize <==> request.byteSize == 0
    ensures ValidateRequest(request) == InvalidAlignment <==> request.byteSize > 0 && !PowerOfTwo(request.alignment)
    ensures ValidateRequest(request) == InvalidPool
            <==> request.byteSize > 0 && PowerOfTwo(request.alignment) && request.pool >= 6
    ensures ValidateRequest(request) == NoFailure
            <==> request.byteSize > 0 && PowerOfTwo(request.alignment) && request.pool < 6
  {
    IsPowerOfTwoMeaning(request.alignment);
  }

  lemma ReallocationValidationIff(request: AllocationRequest)
    ensures ValidateReallocation(request) == InvalidAlignment <==> !PowerOfTwo(request.alignment)
    ensures ValidateReallocation(request) == InvalidPool <==> PowerOfTwo(request.alignment) && request.pool >= 6
    ensures ValidateReallocation(request) == NoFailure <==> PowerOfTwo(request.alignment) && request.pool < 6
  {
    IsPowerOfTwoMeaning(request.alignment);
  }

  lemma MinimumAlignmentIsPower()
    ensures MINIMUM_ALLOCATION_ALIGNMENT == Pow2(4) && IsPowerOfTwo(MINIMUM_ALLOCATION_ALIGNMENT)
  {
    assert Pow2(4) == 16;
    IsPowerOfTwoMeaning(MINIMUM_ALLOCATION_ALIGNMENT);
  }

  /** Normalizing a valid alignment only strengthens it: an address aligned afterwards was aligned as requested. */
  lemma NormalizedAlignmentSuffices(alignment: Size, address: nat)
    requires IsPowerOfTwo(alignment) && address % NormalizeAlignment(alignment) == 0
    ensures IsPowerOfTwo(NormalizeAlignment(alignment))
    ensures address % alignment == 0
  {
    MinimumAlignmentIsPower();
    if alignment < MINIMUM_ALLOCATION_ALIGNMENT {
      var k := ExponentOf(alignment);
      if k > 4 {
        Pow2Monotone(4, k);
      }
      Pow2Divides(k, 4);
      MultipleOfMultiple(address, MINIMUM_ALLOCATION_ALIGNMENT, alignment);
    }
  }
}
