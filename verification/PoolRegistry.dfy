/**
 The pool registry as one thread runs it without interference: every compare-and-exchange succeeds the
 first time.  The retry loops, and what interleaved calls keep, are the subject of PoolRegistryProtocol,
 whose counters are used here.
 */
module PoolRegistry {
  import opened AllocationValidation
  import opened AtomicWord
  import opened PoolRegistryProtocol
  import opened PoolRegistryRuns
  import opened Words

  datatype Pool = Pool(budget: Size, counters: Counters, failedAllocations: Size)

  const ZERO := Counters(0, 0, 0, 0, 0, 0, 0)

  datatype PoolDesc = PoolDesc(id: PoolId, budget: Size)

  function FreshPool(budget: Size): Pool {
    Pool(budget, ZERO, 0)
  }

  /** Why a reservation is refused, in the order the tests are made. */
  function ReserveRefusal(initialized: bool, enforce: bool, pools: seq<Pool>, pool: PoolId, size: Size): FailureReason
    requires |pools| == MEMORY_POOL_COUNT
  {
    if !initialized then SystemNotInitialized
    else if !IsValidPool(pool) then InvalidPool
    else if size == 0 then InvalidSize
    else if pools[pool].counters.current + size >= WORD_VALUES then OutOfMemory
    else if enforce && pools[pool].budget != 0 && pools[pool].counters.current + size > pools[pool].budget
    then PoolBudgetExceeded
    else NoFailure
  }

  class MemoryPoolRegistry {
    var pools: seq<Pool>
    var initialized: bool
    var enforceBudgets: bool

    ghost predicate Valid()
      reads this
    {
      |pools| == MEMORY_POOL_COUNT
    }

    /** A call for this pool has an effect. */
    predicate HasPool(pool: PoolId)
      reads this
    {
      initialized && IsValidPool(pool)
    }

    /** Bytes reserved or allocated in a pool. */
    function Current(pool: PoolId): Size
      requires Valid() && IsValidPool(pool)
      reads this
    {
      pools[pool].counters.current
    }

    constructor ()
      ensures Valid() && !initialized && enforceBudgets
      ensures forall i :: 0 <= i < MEMORY_POOL_COUNT ==> pools[i] == FreshPool(0)
    {
      pools := seq(MEMORY_POOL_COUNT, _ => FreshPool(0));
      initialized, enforceBudgets := false, true;
    }

    /** Accepts exactly one description a pool, in order, and only while uninitialized. */
    method Initialize(descs: seq<PoolDesc>) returns (ok: bool)
      requires Valid()
      modifies this
      ensures Valid()
      ensures ok <==> !old(initialized) && |descs| == MEMORY_POOL_COUNT
                      && forall i :: 0 <= i < MEMORY_POOL_COUNT ==> descs[i].id == i
      ensures ok ==> initialized && enforceBudgets
                     && forall i :: 0 <= i < MEMORY_POOL_COUNT ==>
                          pools[i] == Pool(descs[i].budget, Counters(0, 0, 0, 0, 0, 0, 0), 0)
      ensures !ok ==> pools == old(pools) && initialized == old(initialized) && enforceBudgets == old(enforceBudgets)
    {
      if initialized || |descs| != MEMORY_POOL_COUNT {
        return false;
      }
      for index := 0 to MEMORY_POOL_COUNT
        invariant forall i :: 0 <= i < index ==> descs[i].id == i
        invariant pools == old(pools) && initialized == old(initialized) && enforceBudgets == old(enforceBudgets)
      {
        if descs[index].id != index {
          return false;
        }
      }
      for index := 0 to MEMORY_POOL_COUNT
        invariant Valid()
        invariant forall i :: 0 <= i < index ==> pools[i] == FreshPool(descs[i].budget)
      {
        pools := pools[index := FreshPool(descs[index].budget)];
      }
      initialized, enforceBudgets := true, true;
      return true;
    }

    /** Reserves the bytes, or says why not; a budget refusal is counted. */
    method TryReserve(pool: PoolId, size: Size) returns (ok: bool, reason: FailureReason)
      requires Valid()
      modifies this`pools
      ensures Valid()
      ensures reason == ReserveRefusal(initialized, enforceBudgets, old(pools), pool, size)
      ensures ok <==> reason == NoFailure
      ensures reason == SystemNotInitialized <==> !initialized
      ensures reason == InvalidPool <==> initialized && pool >= MEMORY_POOL_COUNT
      ensures reason == InvalidSize <==> initialized && pool < MEMORY_POOL_COUNT && size == 0
      ensures reason == OutOfMemory <==>
        initialized && pool < MEMORY_POOL_COUNT && size > 0 && old(pools)[pool].counters.current + size >= WORD_VALUES
      ensures reason == PoolBudgetExceeded <==>
        && initialized && pool < MEMORY_POOL_COUNT && size > 0
        && old(pools)[pool].counters.current + size < WORD_VALUES
        && enforceBudgets && old(pools)[pool].budget != 0
        && old(pools)[pool].counters.current + size > old(pools)[pool].budget
      ensures ok <==>
        && initialized && pool < MEMORY_POOL_COUNT && size > 0
        && old(pools)[pool].counters.current + size < WORD_VALUES
        && (enforceBudgets && old(pools)[pool].budget != 0 ==>
              old(pools)[pool].counters.current + size <= old(pools)[pool].budget)
      ensures ok ==> pools == old(pools)[pool := old(pools[pool]).(counters :=
                       old(pools[pool].counters).(current := old(Current(pool)) + size))]
      ensures reason == PoolBudgetExceeded ==> pools == old(pools)[pool := old(pools[pool]).(counters :=
                       old(pools[pool].counters).(budgetExceeded := FetchAdd(old(pools[pool].counters.budgetExceeded), 1)))]
      ensures !ok && reason != PoolBudgetExceeded ==> pools == old(pools)
    {
      if !HasPool(pool) {
        reason := if initialized then InvalidPool else SystemNotInitialized;
        return false, reason;
      }
      if size == 0 {
        return false, InvalidSize;
      }
      var budget := pools[pool].budget;
      var current := pools[pool].counters.current;
      var next := FetchAdd(current, size);
      AddFitsIff(current, size);
      if next < current {
        return false, OutOfMemory;
      }
      if enforceBudgets && budget != 0 && next > budget {
        pools := pools[pool := pools[pool].(counters :=
          pools[pool].counters.(budgetExceeded := FetchAdd(pools[pool].counters.budgetExceeded, 1)))];
        return false, PoolBudgetExceeded;
      }
      pools := pools[pool := pools[pool].(counters := pools[pool].counters.(current := next))];
      return true, NoFailure;
    }

    /** Accounts a reservation as an allocation and raises the peak to the current bytes if they exceed it. */
    method CommitAllocation(pool: PoolId, size: Size)
      requires Valid()
      modifies this`pools
      ensures Valid()
      ensures !HasPool(pool) ==> pools == old(pools)
      ensures HasPool(pool) ==>
        var c := old(pools[pool].counters);
        pools == old(pools)[pool := old(pools[pool]).(counters := c.(
                   totalAllocated := FetchAdd(c.totalAllocated, size),
                   allocationCount := FetchAdd(c.allocationCount, 1),
                   peak := Max(c.peak, c.current)))]
    {
      if !HasPool(pool) {
        return;
      }
      var current := pools[pool].counters.current;
      pools := pools[pool := pools[pool].(counters :=
        pools[pool].counters.(totalAllocated := FetchAdd(pools[pool].counters.totalAllocated, size)))];
      pools := pools[pool := pools[pool].(counters :=
        pools[pool].counters.(allocationCount := FetchAdd(pools[pool].counters.allocationCount, 1)))];
      UpdatePeak(pool, current);
    }

    method UpdatePeak(pool: PoolId, value: Size)
      requires Valid() && IsValidPool(pool)
      modifies this`pools
      ensures Valid()
      ensures var c := old(pools[pool].counters);
              pools == old(pools)[pool := old(pools[pool]).(counters := c.(peak := Max(c.peak, value)))]
    {
      if value > pools[pool].counters.peak {
        pools := pools[pool := pools[pool].(counters := pools[pool].counters.(peak := value))];
      }
    }

    method CancelReservation(pool: PoolId, size: Size)
      requires Valid()
      modifies this`pools
      ensures Valid()
      ensures pools == if HasPool(pool) then
                         old(pools)[pool := old(pools[pool]).(counters :=
                           old(pools[pool].counters).(current := FetchSub(old(pools[pool].counters.current), size)))]
                       else old(pools)
    {
      if !HasPool(pool) {
        return;
      }
      pools := pools[pool := pools[pool].(counters :=
        pools[pool].counters.(current := FetchSub(pools[pool].counters.current, size)))];
    }

    method RecordFree(pool: PoolId, size: Size)
      requires Valid()
      modifies this`pools
      ensures Valid()
      ensures !HasPool(pool) ==> pools == old(pools)
      ensures HasPool(pool) ==>
        var c := old(pools[pool].counters);
        pools == old(pools)[pool := old(pools[pool]).(counters := c.(
                   current := FetchSub(c.current, size),
                   totalFreed := FetchAdd(c.totalFreed, size),
                   freeCount := FetchAdd(c.freeCount, 1)))]
    {
      if !HasPool(pool) {
        return;
      }
      var c := pools[pool].counters;
      pools := pools[pool := pools[pool].(counters := c.(current := FetchSub(c.current, size)))];
      c := pools[pool].counters;
      pools := pools[pool := pools[pool].(counters := c.(totalFreed := FetchAdd(c.totalFreed, size)))];
      c := pools[pool].counters;
      pools := pools[pool := pools[pool].(counters := c.(freeCount := FetchAdd(c.freeCount, 1)))];
    }

    method RecordFailure(pool: PoolId)
      requires Valid()
      modifies this`pools
      ensures Valid()
      ensures pools == if HasPool(pool) then
                         old(pools)[pool := old(pools[pool]).(failedAllocations :=
                           FetchAdd(old(pools[pool].failedAllocations), 1))]
                       else old(pools)
    {
      if HasPool(pool) {
        pools := pools[pool := pools[pool].(failedAllocations := FetchAdd(pools[pool].failedAllocations, 1))];
      }
    }
  }

  // ---- the calls are uninterrupted runs of the protocol ----

  /** A reservation that is not refused is the run of its three atomic steps. */
  lemma ReserveIsARun(budget: Size, s: State, t: nat, size: Size, pools: seq<Pool>, pool: PoolId)
    returns (run: Run, s': State)
    requires t < |s.threads| && s.threads[t] == Idle
    requires |pools| == MEMORY_POOL_COUNT && IsValidPool(pool)
    requires pools[pool].budget == budget && pools[pool].counters == s.counters
    requires ReserveRefusal(true, s.enforce, pools, pool, size) == NoFailure
    ensures Leads(budget, s, run, s') && run.actions == [BeginReserve(t, size), Check(t), Exchange(t)]
    ensures s' == s.(threads := s.threads[t := Reserved(size)],
                     counters := s.counters.(current := s.counters.current + size))
  {
    run, s' := Reserve(budget, s, NoSteps(s), s, t, size);
  }

  /** The registry refuses a reservation exactly when the protocol's tests on the same counters give it up. */
  lemma RefusalIsTheProtocols(budget: Size, s: State, t: nat, size: Size, pools: seq<Pool>, pool: PoolId)
    requires t < |s.threads| && s.threads[t] == Reserving(size, s.counters.current) && size > 0
    requires |pools| == MEMORY_POOL_COUNT && IsValidPool(pool)
    requires pools[pool].budget == budget && pools[pool].counters == s.counters
    ensures ReserveRefusal(true, s.enforce, pools, pool, size) == NoFailure
            <==> Step(budget, s, Check(t)).value.threads[t].Checked?
  {
    AddFitsIff(s.counters.current, size);
  }

  /** Committing a reservation leaves the counters CommitAllocation leaves. */
  lemma CommitIsARun(budget: Size, s: State, t: nat, size: Size) returns (run: Run, s': State)
    requires t < |s.threads| && s.threads[t] == Reserved(size)
    ensures Leads(budget, s, run, s')
    ensures run.actions == [ReadCurrent(t), AddAllocated(t), CountAllocation(t), ReadPeak(t), RaisePeak(t)]
    ensures var c := s.counters;
            s'.counters == c.(totalAllocated := FetchAdd(c.totalAllocated, size),
                              allocationCount := FetchAdd(c.allocationCount, 1),
                              peak := Max(c.peak, c.current))
    ensures s'.threads == s.threads[t := Idle]
  {
    run, s' := Commit(budget, s, NoSteps(s), s, t, size);
  }
}
