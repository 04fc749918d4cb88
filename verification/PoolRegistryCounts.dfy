/**
 What a pool's call counts say about the allocations it holds.  A commit counts once and a free counts once, whatever
 part of how many allocations it returns; their difference is the number of live allocations under an exact condition.
 */
module PoolRegistryCounts {
  import opened AtomicWord
  import opened Options
  import opened PoolRegistryProtocol
  import opened PoolRegistryRuns
  import opened Sums
  import opened Words

  // ---- freeing any amount ----

  /** Takes bytes from the oldest live allocations first. */
  function FromOldest(ledger: seq<Entry>, size: Size): seq<Size> {
    if ledger == [] then []
    else
      var live := if ledger[0].holder.Live? then ledger[0].size else 0;
      var here := if size <= live then size else live;
      [here] + FromOldest(ledger[1..], size - here)
  }

  /** Any number of bytes up to the live ones can be freed, whether or not it is the size of some allocation. */
  lemma {:induction false} AnyLiveBytesMayBeFreed(ledger: seq<Entry>, size: Size)
    requires size <= Total(ledger, LiveEntryBytes)
    ensures MayTake(ledger, FromOldest(ledger, size)) && Total(FromOldest(ledger, size), Amount) == size
  {
    if ledger != [] {
      var here := FromOldest(ledger, size)[0];
      AnyLiveBytesMayBeFreed(ledger[1..], size - here);
      var amounts := FromOldest(ledger, size);
      assert amounts[1..] == FromOldest(ledger[1..], size - here);
      forall i | 0 <= i < |ledger| ensures amounts[i] <= ledger[i].size && (amounts[i] > 0 ==> ledger[i].holder.Live?) {
        if i > 0 {
          assert amounts[i] == amounts[1..][i - 1] && ledger[i] == ledger[1..][i - 1];
        }
      }
    }
  }

  // ---- counting allocations ----

  function Nonempty(e: Entry): nat {
    OneIf(e.size > 0)
  }

  /** Allocations of which some byte is still held. */
  function HeldAllocations(s: State): nat {
    Total(s.ledger, Nonempty)
  }

  /** How many allocations a free empties. */
  function Emptied(ledger: seq<Entry>, amounts: seq<Size>): nat
    requires |amounts| == |ledger|
  {
    if ledger == [] then 0
    else OneIf(0 < amounts[0] == ledger[0].size) + Emptied(ledger[1..], amounts[1..])
  }

  /** How many allocations the frees of a run have emptied. */
  function EmptiedBy(run: Run): nat
    requires |run.states| == |run.actions| + 1
    decreases |run.actions|
  {
    if run.actions == [] then 0
    else
      var last := |run.actions| - 1;
      EmptiedBy(Shorter(run)) + EmptiedAt(run.states[last], run.actions[last])
  }

  function EmptiedAt(s: State, a: Action): nat {
    if a.BeginFree? && |a.amounts| == |s.ledger| then Emptied(s.ledger, a.amounts) else 0
  }

  lemma {:induction false} TakenNonempty(ledger: seq<Entry>, amounts: seq<Size>)
    requires MayTake(ledger, amounts)
    ensures Total(Taken(ledger, amounts), Nonempty) + Emptied(ledger, amounts) == Total(ledger, Nonempty)
  {
    if ledger != [] {
      assert MayTake(ledger[1..], amounts[1..]);
      TakenNonempty(ledger[1..], amounts[1..]);
      assert Taken(ledger, amounts)[1..] == Taken(ledger[1..], amounts[1..]);
    }
  }

  lemma {:induction false} SettleNonempty(ledger: seq<Entry>, t: nat)
    ensures Total(Settle(ledger, t), Nonempty) == Total(ledger, Nonempty)
  {
    if ledger != [] {
      SettleNonempty(ledger[1..], t);
      assert Settle(ledger, t)[1..] == Settle(ledger[1..], t);
    }
  }

  lemma HeldAllocationsStep(budget: Size, s: State, a: Action, s': State)
    requires ThreadsAreSound(s) && Step(budget, s, a) == Some(s')
    ensures HeldAllocations(s') + EmptiedAt(s, a) == HeldAllocations(s) + OneIf(a.ReadCurrent?)
  {
    match a
    case ReadCurrent(t) =>
      assert ThreadIsSound(s.threads[t]);
      TotalAppend(s.ledger, Entry(s.threads[t].size, s.counters.current, InFlight(t)), Nonempty);
    case BeginFree(_, amounts) => TakenNonempty(s.ledger, amounts);
    case RaisePeak(t) => SettleNonempty(s.ledger, t);
    case _ =>
  }

  /** In every run the allocations held and the allocations emptied are the commits. */
  lemma {:induction false} CommitsAreHeldOrEmptied(budget: Size, threadCount: nat, run: Run, s: State)
    requires Leads(budget, Initial(threadCount), run, s)
    ensures HeldAllocations(s) + EmptiedBy(run) == Commits(run.actions)
    decreases |run.actions|
  {
    if run.actions != [] {
      var last := |run.actions| - 1;
      LeadsShorter(budget, Initial(threadCount), run, s);
      CommitsAreHeldOrEmptied(budget, threadCount, Shorter(run), run.states[last]);
      RunInvariant(budget, threadCount, Shorter(run), run.states[last]);
      HeldAllocationsStep(budget, run.states[last], run.actions[last], s);
    }
  }

  lemma DifferenceIff(held: nat, emptied: nat, frees: nat)
    ensures FetchSub((held + emptied) % WORD_VALUES, frees % WORD_VALUES) == held % WORD_VALUES
            <==> emptied % WORD_VALUES == frees % WORD_VALUES
  {
  }

  /**
   At rest the difference of the two call counts is the number of allocations held if and only if the frees
   emptied as many allocations as there were frees, counted modulo the word size.
   */
  lemma CountsAreAllocationsIff(budget: Size, threadCount: nat, run: Run, s: State)
    requires Leads(budget, Initial(threadCount), run, s) && Quiescent(s)
    ensures FetchSub(s.counters.allocationCount, s.counters.freeCount) == HeldAllocations(s) % WORD_VALUES
            <==> EmptiedBy(run) % WORD_VALUES == FreeCalls(run.actions) % WORD_VALUES
  {
    QuiescentCounters(budget, threadCount, run, s);
    CommitsAreHeldOrEmptied(budget, threadCount, run, s);
    DifferenceIff(HeldAllocations(s), EmptiedBy(run), FreeCalls(run.actions));
  }

  /** No free returns only parts of allocations, and none returns several whole ones. */
  ghost predicate FreesOneEach(run: Run)
    requires |run.states| == |run.actions| + 1
  {
    forall i :: 0 <= i < |run.actions| && run.actions[i].BeginFree? ==> EmptiedAt(run.states[i], run.actions[i]) == 1
  }

  lemma {:induction false} OneEachEmptiesAsMany(run: Run)
    requires |run.states| == |run.actions| + 1 && FreesOneEach(run)
    ensures EmptiedBy(run) == FreeCalls(run.actions)
    decreases |run.actions|
  {
    if run.actions != [] {
      OneEachEmptiesAsMany(Shorter(run));
    }
  }

  /** When every free returns one whole allocation, the counts differ by the allocations held. */
  lemma WholeFreesCountAllocations(budget: Size, threadCount: nat, run: Run, s: State)
    requires Leads(budget, Initial(threadCount), run, s) && Quiescent(s) && FreesOneEach(run)
    ensures FetchSub(s.counters.allocationCount, s.counters.freeCount) == HeldAllocations(s) % WORD_VALUES
  {
    OneEachEmptiesAsMany(run);
    CountsAreAllocationsIff(budget, threadCount, run, s);
  }

  lemma FreeBoth(before: Run, s0: State) returns (run: Run, s: State)
    requires Leads(0, Initial(1), before, s0) && s0.threads == [Idle]
    requires s0.ledger == [Entry(10, 10, Live), Entry(10, 20, Live)]
    requires s0.counters.allocationCount == 2 && s0.counters.freeCount == 0
    ensures Leads(0, Initial(1), run, s) && s.threads == [Idle]
    ensures HeldAllocations(s) == 0 && FetchSub(s.counters.allocationCount, s.counters.freeCount) == 1
  {
    var amounts: seq<Size> := [10, 10];
    assert amounts[1..] == [10];
    run, s := Free(0, Initial(1), before, s0, 0, amounts);
    assert s.ledger == [Entry(0, 10, Live), Entry(0, 20, Live)];
    TotalZeroIff(s.ledger, Nonempty);
  }

  /** A block that grew once and is freed as a whole leaves the counts one apart although nothing is held. */
  lemma GrownBlockIsMiscounted() returns (run: Run, s: State)
    ensures Leads(0, Initial(1), run, s) && Quiescent(s)
    ensures HeldAllocations(s) == 0 && FetchSub(s.counters.allocationCount, s.counters.freeCount) == 1
  {
    s := Initial(1);
    run := NoSteps(s);
    run, s := Reserve(0, s, run, s, 0, 10);
    run, s := Commit(0, Initial(1), run, s, 0, 10);
    assert s.ledger == [Entry(10, 10, Live)] && s.threads == [Idle];
    run, s := Reserve(0, Initial(1), run, s, 0, 10);
    run, s := Commit(0, Initial(1), run, s, 0, 10);
    assert s.ledger == [Entry(10, 10, Live), Entry(10, 20, Live)] && s.threads == [Idle];
    run, s := FreeBoth(run, s);
  }
}
