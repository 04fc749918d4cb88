/**
 The registry calls of one pool as they are written, retry loops included, while other threads run in every
 gap between two atomic accesses.  Each call only prolongs a run of the protocol, so the theorems about all
 runs hold of the counters at every moment; a retry happens only when another thread got in between.
 */
module PoolRegistryCalls {
  import opened AllocationValidation
  import opened AtomicWord
  import opened Options
  import opened PoolRegistryCounts
  import opened PoolRegistryProtocol
  import opened PoolRegistryRuns
  import opened Sums
  import opened Words

  /** What the other threads do in the i-th gap of a call. */
  function GapAt(gaps: seq<seq<Action>>, i: nat): seq<Action> {
    if i < |gaps| then gaps[i] else []
  }

  /** The steps of thread t in a run, in order. */
  ghost function StepsOf(actions: seq<Action>, t: nat): seq<Action> {
    if actions == [] then []
    else
      var last := |actions| - 1;
      StepsOf(actions[..last], t) + if actions[last].t == t then [actions[last]] else []
  }

  /** A check and an exchange, so many times. */
  ghost function Attempts(t: nat, tries: nat): seq<Action> {
    if tries == 0 then [] else Attempts(t, tries - 1) + [Check(t), Exchange(t)]
  }

  ghost function Raises(t: nat, tries: nat): seq<Action> {
    if tries == 0 then [] else Raises(t, tries - 1) + [RaisePeak(t)]
  }

  lemma AppendAttempt(begun: seq<Action>, t: nat, tries: nat)
    ensures begun + Attempts(t, tries) + [] + [Check(t)] + [Exchange(t)] == begun + Attempts(t, tries + 1) + []
    ensures begun + Attempts(t, tries) + [] + [Check(t)] == begun + Attempts(t, tries) + [Check(t)]
  {
  }

  lemma CommitSteps(begun: seq<Action>, t: nat, tries: nat)
    ensures begun + [ReadCurrent(t)] + [AddAllocated(t)] + [CountAllocation(t)] + [ReadPeak(t)] + Raises(t, tries)
            == begun + [ReadCurrent(t), AddAllocated(t), CountAllocation(t), ReadPeak(t)] + Raises(t, tries)
  {
  }

  lemma AppendRaise(begun: seq<Action>, t: nat, tries: nat)
    ensures begun + Raises(t, tries) + [RaisePeak(t)] == begun + Raises(t, tries + 1)
  {
  }

  lemma OthersStep(history: seq<Action>, a: Action, t: nat)
    requires a.t != t
    ensures StepsOf(history + [a], t) == StepsOf(history, t)
  {
    assert (history + [a])[..|history|] == history;
  }

  lemma OwnStep(history: seq<Action>, a: Action)
    ensures StepsOf(history + [a], a.t) == StepsOf(history, a.t) + [a]
  {
    assert (history + [a])[..|history|] == history;
  }

  // ---- the calls on states ----

  /** The state after a step, if it can happen. */
  function Moved(budget: Size, s: State, a: Action): State {
    var next := Step(budget, s, a);
    if next.Some? then next.value else s
  }

  /** The state after the other threads' steps, those left out that are not theirs or cannot happen. */
  function Others(budget: Size, s: State, t: nat, actions: seq<Action>): State {
    if actions == [] then s
    else
      var last := |actions| - 1;
      var before := Others(budget, s, t, actions[..last]);
      if actions[last].t == t then before else Moved(budget, before, actions[last])
  }

  lemma OthersFurther(budget: Size, s: State, t: nat, actions: seq<Action>, i: nat)
    requires i < |actions|
    ensures Others(budget, s, t, actions[..i + 1]) ==
      if actions[i].t == t then Others(budget, s, t, actions[..i])
      else Moved(budget, Others(budget, s, t, actions[..i]), actions[i])
  {
    assert actions[..i + 1][..i] == actions[..i];
  }

  function Rest(gaps: seq<seq<Action>>, i: nat): seq<seq<Action>> {
    if i <= |gaps| then gaps[i..] else []
  }

  /** A test and, if it is passed, an exchange, with the others running before each. */
  function Tried(budget: Size, s: State, t: nat, beforeTest: seq<Action>, beforeExchange: seq<Action>): State {
    var tested := Moved(budget, Others(budget, s, t, beforeTest), Check(t));
    if t < |tested.threads| && tested.threads[t].Checked?
    then Moved(budget, Others(budget, tested, t, beforeExchange), Exchange(t)) else tested
  }

  /** The whole retry loop of a reservation. */
  function ReserveLoop(budget: Size, s: State, t: nat, gaps: seq<seq<Action>>): State
    decreases |gaps|
  {
    var tried := Tried(budget, s, t, GapAt(gaps, 0), GapAt(gaps, 1));
    if gaps != [] && t < |tried.threads| && tried.threads[t].Reserving?
    then ReserveLoop(budget, tried, t, Rest(gaps, 2)) else tried
  }

  /** The whole peak loop; the last step leaves it. */
  function RaisePeakLoop(budget: Size, s: State, t: nat, gaps: seq<seq<Action>>): State
    decreases |gaps|
  {
    if t < |s.threads| && s.threads[t].Raising? && s.threads[t].seen <= s.threads[t].observed
    then Moved(budget, s, RaisePeak(t))
    else
      var raised := Moved(budget, Others(budget, s, t, GapAt(gaps, 0)), RaisePeak(t));
      if gaps != [] && t < |raised.threads| && raised.threads[t].Raising?
      then RaisePeakLoop(budget, raised, t, Rest(gaps, 1)) else raised
  }

  lemma RestGaps(gaps: seq<seq<Action>>, i: nat, j: nat)
    ensures GapAt(Rest(gaps, i), j) == GapAt(gaps, i + j) && Rest(Rest(gaps, i), j) == Rest(gaps, i + j)
  {
    if i + j <= |gaps| {
      assert gaps[i..][j..] == gaps[i + j..];
    }
  }

  lemma ReserveFurther(budget: Size, s: State, t: nat, gaps: seq<seq<Action>>, i: nat)
    ensures var tried := Tried(budget, s, t, GapAt(gaps, i), GapAt(gaps, i + 1));
            ReserveLoop(budget, s, t, Rest(gaps, i)) ==
              if Rest(gaps, i) != [] && t < |tried.threads| && tried.threads[t].Reserving?
              then ReserveLoop(budget, tried, t, Rest(gaps, i + 2)) else tried
  {
    RestGaps(gaps, i, 0);
    RestGaps(gaps, i, 1);
    RestGaps(gaps, i, 2);
  }

  lemma RaiseFurther(budget: Size, s: State, t: nat, gaps: seq<seq<Action>>, i: nat)
    requires t < |s.threads| && s.threads[t].Raising? && s.threads[t].seen > s.threads[t].observed
    ensures var raised := Moved(budget, Others(budget, s, t, GapAt(gaps, i)), RaisePeak(t));
            RaisePeakLoop(budget, s, t, Rest(gaps, i)) ==
              if Rest(gaps, i) != [] && t < |raised.threads| && raised.threads[t].Raising?
              then RaisePeakLoop(budget, raised, t, Rest(gaps, i + 1)) else raised
  {
    RestGaps(gaps, i, 0);
    RestGaps(gaps, i, 1);
  }

  /** A refusal, or its absence, fits the value the tests saw. */
  predicate Explains(budget: Size, size: Size, observed: Size, reason: FailureReason) {
    && reason in {NoFailure, OutOfMemory, PoolBudgetExceeded}
    && (reason == OutOfMemory <==> observed + size >= WORD_VALUES)
    && (reason == PoolBudgetExceeded ==> budget != 0 && observed + size > budget)
  }

  /** Where a reserving thread stands after an attempt. */
  function Standing(size: Size, ok: bool, reason: FailureReason, current: Size): Thread {
    if ok then Reserved(size) else if reason == NoFailure then Reserving(size, current) else Idle
  }

  /** A whole commit. */
  function CommitAll(budget: Size, s: State, t: nat, gaps: seq<seq<Action>>): State {
    var read := Moved(budget, s, ReadCurrent(t));
    var added := Moved(budget, Others(budget, read, t, GapAt(gaps, 0)), AddAllocated(t));
    var counted := Moved(budget, Others(budget, added, t, GapAt(gaps, 1)), CountAllocation(t));
    var loaded := Moved(budget, Others(budget, counted, t, GapAt(gaps, 2)), ReadPeak(t));
    RaisePeakLoop(budget, loaded, t, Rest(gaps, 3))
  }

  /** A whole free of these amounts. */
  function FreeAll(budget: Size, s: State, t: nat, amounts: seq<Size>, gaps: seq<seq<Action>>): State {
    var lowered := Moved(budget, s, BeginFree(t, amounts));
    var added := Moved(budget, Others(budget, lowered, t, GapAt(gaps, 0)), AddFreed(t));
    Moved(budget, Others(budget, added, t, GapAt(gaps, 1)), CountFree(t))
  }

  class ConcurrentPool {
    const budget: Size
    const threadCount: nat
    var state: State
    ghost var run: Run

    /** The state is what the history of all threads' steps leads to. */
    ghost predicate Valid()
      reads this
    {
      Leads(budget, Initial(threadCount), run, state) && |state.threads| == threadCount
    }

    constructor (budget: Size, threadCount: nat)
      ensures Valid() && run.actions == [] && this.budget == budget && this.threadCount == threadCount
    {
      this.budget, this.threadCount := budget, threadCount;
      state := Initial(threadCount);
      run := NoSteps(Initial(threadCount));
    }

    /** The counters mean what they promise, whatever calls led here. */
    lemma CountersAreSound()
      requires Valid()
      ensures state.counters.current == Total(state.threads, ReservedBytes) + Total(state.ledger, EntryBytes)
      ensures LiveBytes(state) <= state.counters.peak
    {
      CurrentBytesIsExact(budget, threadCount, run, state);
      PeakCoversLiveBytes(budget, threadCount, run, state);
    }

    /** One atomic access was made. */
    ghost method Record(a: Action, before: State)
      requires Leads(budget, Initial(threadCount), run, before) && |before.threads| == threadCount
      requires Step(budget, before, a) == Some(state)
      modifies `run
      ensures Valid() && run.actions == old(run.actions) + [a]
      ensures StepsOf(run.actions, a.t) == StepsOf(old(run.actions), a.t) + [a]
    {
      OwnStep(run.actions, a);
      StepMovesOneThread(budget, before, a);
      LeadsFurther(budget, Initial(threadCount), run, before, a, state);
      run := Further(run, a, state);
    }

    /** Other threads run; steps that are not theirs or cannot happen are ignored. */
    method Interfere(t: nat, actions: seq<Action>)
      requires Valid() && t < threadCount
      modifies this
      ensures state == Others(budget, old(state), t, actions)
      ensures Valid() && old(run.actions) <= run.actions && StepsOf(run.actions, t) == StepsOf(old(run.actions), t)
      ensures state.threads[t] == old(state).threads[t]
      ensures actions == [] ==> state == old(state)
    {
      for i := 0 to |actions|
        invariant Valid() && old(run.actions) <= run.actions && StepsOf(run.actions, t) == StepsOf(old(run.actions), t)
        invariant state.threads[t] == old(state).threads[t]
        invariant state == Others(budget, old(state), t, actions[..i])
      {
        OthersFurther(budget, old(state), t, actions, i);
        if actions[i].t != t {
          TakeOthersStep(t, actions[i]);
        }
      }
      assert actions[..|actions|] == actions;
    }

    method TakeOthersStep(t: nat, a: Action)
      requires Valid() && t < threadCount && a.t != t
      modifies this
      ensures state == Moved(budget, old(state), a)
      ensures Valid() && old(run.actions) <= run.actions && StepsOf(run.actions, t) == StepsOf(old(run.actions), t)
      ensures state.threads[t] == old(state).threads[t]
    {
      var next := Step(budget, state, a);
      if next.Some? {
        ghost var before := state;
        StepMovesOneThread(budget, state, a);
        OthersStep(run.actions, a, t);
        state := next.value;
        Record(a, before);
      }
    }

    /** The own steps so far are those before the loop, so many attempts, and the check that ended the last one, if any. */
    ghost predicate HasTried(t: nat, begun: seq<Action>, tries: nat, reason: FailureReason)
      reads `run
    {
      StepsOf(run.actions, t) == begun + Attempts(t, tries) + if reason == NoFailure then [] else [Check(t)]
    }

    /** Reserves by compare-and-exchange, retrying with the value observed instead. */
    method TryReserve(t: nat, size: Size, gaps: seq<seq<Action>>)
      returns (ok: bool, reason: FailureReason, ghost tries: nat, ghost observed: Size)
      requires Valid() && t < threadCount && state.threads[t].Idle?
      modifies this
      ensures state == if size == 0 then old(state)
                       else ReserveLoop(budget, Moved(budget, old(state), BeginReserve(t, size)), t, gaps)
      ensures Valid() && old(run.actions) <= run.actions
      ensures state.threads[t] == if ok then Reserved(size) else Idle
      ensures ok <==> reason == NoFailure
      ensures reason == InvalidSize <==> size == 0
      ensures reason in {NoFailure, InvalidSize, OutOfMemory, PoolBudgetExceeded}
      ensures reason == OutOfMemory <==> size > 0 && observed + size >= WORD_VALUES
      ensures reason == PoolBudgetExceeded ==> budget != 0 && observed + size > budget
      ensures ok ==> observed + size < WORD_VALUES && tries > 0
      ensures gaps == [] ==> observed == old(state).counters.current
      ensures StepsOf(run.actions, t) == StepsOf(old(run.actions), t) + [BeginReserve(t, size)] + Attempts(t, tries)
                                     + if ok || reason == InvalidSize then [] else [Check(t)]
    {
      var current := LoadCurrentBytes(t, size);
      observed := current;
      if size == 0 {
        return false, InvalidSize, 0, observed;
      }
      ok, reason, tries, observed := Retry(t, size, current, gaps);
    }

    /** The retry loop. */
    method Retry(t: nat, size: Size, first: Size, gaps: seq<seq<Action>>)
      returns (ok: bool, reason: FailureReason, ghost tries: nat, ghost observed: Size)
      requires Valid() && t < threadCount && state.threads[t] == Reserving(size, first)
      requires state.counters.current == first
      modifies this
      ensures state == ReserveLoop(budget, old(state), t, gaps)
      ensures Valid() && old(run.actions) <= run.actions
      ensures state.threads[t] == Standing(size, ok, reason, observed) && (ok <==> reason == NoFailure)
      ensures Explains(budget, size, observed, reason)
      ensures (ok ==> tries > 0) && (gaps == [] ==> observed == first)
      ensures HasTried(t, old(StepsOf(run.actions, t)), tries, reason)
    {
      ghost var begun, goal := StepsOf(run.actions, t), ReserveLoop(budget, state, t, gaps);
      ok, reason, tries, observed := false, NoFailure, 0, first;
      assert begun + Attempts(t, 0) + [] == begun;
      var current, i := first, 0;
      while !ok && reason == NoFailure
        invariant Valid() && old(run.actions) <= run.actions && HasTried(t, begun, tries, reason)
        invariant state.threads[t] == Standing(size, ok, reason, current) && (ok ==> tries > 0 && reason == NoFailure)
        invariant if ok || reason != NoFailure then Explains(budget, size, observed, reason)
                  else state.counters.current == current
        invariant goal == if ok || reason != NoFailure then state else ReserveLoop(budget, state, t, Rest(gaps, i))
        invariant gaps == [] ==> observed == first && (if i == 0 then current == first else ok || reason != NoFailure)
        decreases !ok && reason == NoFailure, |gaps| - i
      {
        observed := current;
        ok, reason, current := Turn(t, size, current, gaps, i, begun, tries, goal);
        tries := if reason == NoFailure then tries + 1 else tries;
        i := i + 2;
      }
    }

    /** One turn of the loop among the gaps. */
    method Turn(t: nat, size: Size, current: Size, gaps: seq<seq<Action>>, i: nat, ghost begun: seq<Action>,
                ghost tries: nat, ghost goal: State)
      returns (ok: bool, reason: FailureReason, observed: Size)
      requires HasTried(t, begun, tries, NoFailure)
      requires Valid() && t < threadCount && state.threads[t] == Reserving(size, current)
      requires state.counters.current == current && goal == ReserveLoop(budget, state, t, Rest(gaps, i))
      modifies this
      ensures Valid() && old(run.actions) <= run.actions
      ensures HasTried(t, begun, if reason == NoFailure then tries + 1 else tries, reason)
      ensures state.threads[t] == Standing(size, ok, reason, observed) && (ok ==> reason == NoFailure)
      ensures Explains(budget, size, current, reason)
      ensures reason == NoFailure && !ok ==> observed == state.counters.current && i < |gaps|
      ensures goal == if ok || reason != NoFailure then state else ReserveLoop(budget, state, t, Rest(gaps, i + 2))
    {
      ReserveFurther(budget, state, t, gaps, i);
      ok, reason, observed := Attempt(t, size, current, GapAt(gaps, i), GapAt(gaps, i + 1), begun, tries);
    }

    /** The first look at CurrentBytes; a reservation of nothing is refused before it. */
    method LoadCurrentBytes(t: nat, size: Size) returns (current: Size)
      requires Valid() && t < threadCount && state.threads[t].Idle?
      modifies this
      ensures state == Moved(budget, old(state), BeginReserve(t, size))
      ensures Valid() && old(run.actions) <= run.actions
      ensures StepsOf(run.actions, t) == StepsOf(old(run.actions), t) + [BeginReserve(t, size)]
      ensures current == state.counters.current == old(state).counters.current
      ensures state.threads[t] == if size == 0 then Idle else Reserving(size, current)
    {
      ghost var before := state;
      current := state.counters.current;
      if size != 0 {
        state := Become(state, t, Reserving(size, current));
      }
      Record(BeginReserve(t, size), before);
    }

    /** One turn of the retry loop; without interference it ends the loop. */
    method Attempt(t: nat, size: Size, current: Size, beforeTest: seq<Action>, beforeExchange: seq<Action>,
                   ghost begun: seq<Action>, ghost tries: nat)
      returns (ok: bool, reason: FailureReason, observed: Size)
      requires HasTried(t, begun, tries, NoFailure)
      requires Valid() && t < threadCount && state.threads[t] == Reserving(size, current)
      modifies this
      ensures state == Tried(budget, old(state), t, beforeTest, beforeExchange)
      ensures Valid() && old(run.actions) <= run.actions
      ensures reason in {NoFailure, OutOfMemory, PoolBudgetExceeded} && (ok ==> reason == NoFailure)
      ensures HasTried(t, begun, if reason == NoFailure then tries + 1 else tries, reason)
      ensures state.threads[t] ==
        if ok then Reserved(size) else if reason == NoFailure then Reserving(size, observed) else Idle
      ensures reason == OutOfMemory <==> current + size >= WORD_VALUES
      ensures reason == PoolBudgetExceeded ==> budget != 0 && current + size > budget
      ensures reason == NoFailure && !ok ==> observed == state.counters.current
      ensures beforeTest == beforeExchange == [] && old(state).counters.current == current && reason == NoFailure ==> ok
    {
      Interfere(t, beforeTest);
      ok, observed := false, current;
      reason := Test(t, size, current);
      if reason == NoFailure {
        Interfere(t, beforeExchange);
        ok, observed := TryExchange(t, size, current);
      }
      AppendAttempt(begun, t, tries);
    }

    /** The overflow and budget tests on an observed value. */
    method Test(t: nat, size: Size, current: Size) returns (reason: FailureReason)
      requires Valid() && t < threadCount && state.threads[t] == Reserving(size, current)
      modifies this
      ensures state == Moved(budget, old(state), Check(t))
      ensures StepsOf(run.actions, t) == StepsOf(old(run.actions), t) + [Check(t)]
      ensures Valid() && old(run.actions) <= run.actions
      ensures reason == (if current + size >= WORD_VALUES then OutOfMemory
                         else if old(state).enforce && budget != 0 && current + size > budget then PoolBudgetExceeded
                         else NoFailure)
      ensures state.threads[t] == if reason == NoFailure then Checked(size, current, current + size) else Idle
      ensures state.counters.current == old(state).counters.current
    {
      ghost var before := state;
      var next := FetchAdd(current, size);
      AddFitsIff(current, size);
      if next < current {
        state := Become(state, t, Idle);
        reason := OutOfMemory;
      } else if state.enforce && budget != 0 && next > budget {
        state := state.(counters := state.counters.(budgetExceeded := FetchAdd(state.counters.budgetExceeded, 1)));
        state := Become(state, t, Idle);
        reason := PoolBudgetExceeded;
      } else {
        state := Become(state, t, Checked(size, current, next));
        reason := NoFailure;
      }
      Record(Check(t), before);
    }

    /** The compare-and-exchange: on failure it delivers the value that got in between. */
    method TryExchange(t: nat, size: Size, current: Size) returns (ok: bool, observed: Size)
      requires Valid() && t < threadCount && current + size < WORD_VALUES
      requires state.threads[t] == Checked(size, current, current + size)
      modifies this
      ensures state == Moved(budget, old(state), Exchange(t))
      ensures StepsOf(run.actions, t) == StepsOf(old(run.actions), t) + [Exchange(t)]
      ensures Valid() && old(run.actions) <= run.actions
      ensures ok <==> old(state).counters.current == current
      ensures observed == old(state).counters.current
      ensures state.counters == old(state).counters.(current := if ok then current + size else observed)
      ensures state.threads[t] == if ok then Reserved(size) else Reserving(size, observed)
    {
      ghost var before := state;
      observed := state.counters.current;
      ok := observed == current;
      if ok {
        state := Become(state.(counters := state.counters.(current := current + size)), t, Reserved(size));
      } else {
        state := Become(state, t, Reserving(size, observed));
      }
      Record(Exchange(t), before);
    }

    /** Accounts a reservation: four atomic accesses and the peak loop, interrupted anywhere. */
    method CommitAllocation(t: nat, size: Size, gaps: seq<seq<Action>>) returns (ghost tries: nat)
      requires Valid() && t < threadCount && state.threads[t] == Reserved(size)
      modifies this
      ensures state == CommitAll(budget, old(state), t, gaps)
      ensures Valid() && old(run.actions) <= run.actions
      ensures state.threads[t].Idle? && tries > 0
      ensures StepsOf(run.actions, t) == StepsOf(old(run.actions), t)
                + [ReadCurrent(t), AddAllocated(t), CountAllocation(t), ReadPeak(t)] + Raises(t, tries)
    {
      var current := ReadCurrentBytes(t, size);
      Interfere(t, GapAt(gaps, 0));
      AddAllocatedBytes(t, size, current);
      Interfere(t, GapAt(gaps, 1));
      AddAllocationCount(t, size, current);
      Interfere(t, GapAt(gaps, 2));
      tries := UpdatePeak(t, size, current, Rest(gaps, 3));
      CommitSteps(StepsOf(old(run.actions), t), t, tries);
    }

    method ReadCurrentBytes(t: nat, size: Size) returns (current: Size)
      requires Valid() && t < threadCount && state.threads[t] == Reserved(size)
      modifies this
      ensures state == Moved(budget, old(state), ReadCurrent(t))
      ensures StepsOf(run.actions, t) == StepsOf(old(run.actions), t) + [ReadCurrent(t)]
      ensures Valid() && old(run.actions) <= run.actions && state.threads[t] == Read(size, current)
      ensures current == old(state).counters.current && state.counters == old(state).counters
    {
      ghost var before := state;
      current := state.counters.current;
      state := Become(state.(ledger := state.ledger + [Entry(size, current, InFlight(t))]), t, Read(size, current));
      Record(ReadCurrent(t), before);
    }

    method AddAllocatedBytes(t: nat, size: Size, current: Size)
      requires Valid() && t < threadCount && state.threads[t] == Read(size, current)
      modifies this
      ensures state == Moved(budget, old(state), AddAllocated(t))
      ensures StepsOf(run.actions, t) == StepsOf(old(run.actions), t) + [AddAllocated(t)]
      ensures Valid() && old(run.actions) <= run.actions && state.threads[t] == Totalled(size, current)
    {
      ghost var before := state;
      state := state.(counters := state.counters.(totalAllocated := FetchAdd(state.counters.totalAllocated, size)));
      state := Become(state.(bytesAllocated := state.bytesAllocated + size), t, Totalled(size, current));
      Record(AddAllocated(t), before);
    }

    method AddAllocationCount(t: nat, size: Size, current: Size)
      requires Valid() && t < threadCount && state.threads[t] == Totalled(size, current)
      modifies this
      ensures state == Moved(budget, old(state), CountAllocation(t))
      ensures StepsOf(run.actions, t) == StepsOf(old(run.actions), t) + [CountAllocation(t)]
      ensures Valid() && old(run.actions) <= run.actions && state.threads[t] == Counted(size, current)
    {
      ghost var before := state;
      state := state.(counters := state.counters.(allocationCount := FetchAdd(state.counters.allocationCount, 1)));
      state := Become(state.(allocations := state.allocations + 1), t, Counted(size, current));
      Record(CountAllocation(t), before);
    }

    /** Raises the peak unless a value at least as large is seen there. */
    method UpdatePeak(t: nat, size: Size, value: Size, gaps: seq<seq<Action>>) returns (ghost tries: nat)
      requires Valid() && t < threadCount && state.threads[t] == Counted(size, value)
      modifies this
      ensures state == RaisePeakLoop(budget, Moved(budget, old(state), ReadPeak(t)), t, gaps)
      ensures Valid() && old(run.actions) <= run.actions
      ensures state.threads[t].Idle? && tries > 0
      ensures StepsOf(run.actions, t) == StepsOf(old(run.actions), t) + [ReadPeak(t)] + Raises(t, tries)
    {
      var peak := LoadPeakBytes(t, size, value);
      tries := RaiseLoop(t, size, value, peak, gaps);
    }

    /** The own steps so far are those before the loop and so many attempts at the peak. */
    ghost predicate HasRaised(t: nat, begun: seq<Action>, tries: nat)
      reads `run
    {
      StepsOf(run.actions, t) == begun + Raises(t, tries)
    }

    method RaiseLoop(t: nat, size: Size, value: Size, seen: Size, gaps: seq<seq<Action>>) returns (ghost tries: nat)
      requires Valid() && t < threadCount && state.threads[t] == Raising(size, value, seen)
      requires state.counters.peak == seen
      modifies this
      ensures state == RaisePeakLoop(budget, old(state), t, gaps)
      ensures Valid() && old(run.actions) <= run.actions
      ensures state.threads[t].Idle? && tries > 0
      ensures StepsOf(run.actions, t) == StepsOf(old(run.actions), t) + Raises(t, tries)
    {
      ghost var begun, goal := StepsOf(run.actions, t), RaisePeakLoop(budget, state, t, gaps);
      tries := 0;
      var peak, i, raised := seen, 0, false;
      assert begun + Raises(t, 0) == begun;
      while value > peak && !raised
        invariant Valid() && old(run.actions) <= run.actions
        invariant state.threads[t] == if raised then Idle else Raising(size, value, peak)
        invariant HasRaised(t, begun, tries)
        invariant !raised ==> state.counters.peak == peak
        invariant raised ==> tries > 0
        invariant goal == if raised then state else RaisePeakLoop(budget, state, t, Rest(gaps, i))
        decreases !raised, if i < |gaps| then |gaps| - i else 0
      {
        raised, peak := RaiseTurn(t, size, value, peak, gaps, i, begun, tries, goal);
        tries := tries + 1;
        i := i + 1;
      }
      if !raised {
        KeepPeak(t, size, value, peak, begun, tries);
        tries := tries + 1;
      }
    }

    /** One turn of the peak loop among the gaps. */
    method RaiseTurn(t: nat, size: Size, value: Size, peak: Size, gaps: seq<seq<Action>>, i: nat,
                     ghost begun: seq<Action>, ghost tries: nat, ghost goal: State)
      returns (raised: bool, observed: Size)
      requires HasRaised(t, begun, tries)
      requires Valid() && t < threadCount && state.threads[t] == Raising(size, value, peak) && value > peak
      requires state.counters.peak == peak && goal == RaisePeakLoop(budget, state, t, Rest(gaps, i))
      modifies this
      ensures HasRaised(t, begun, tries + 1)
      ensures Valid() && old(run.actions) <= run.actions
      ensures !raised ==> state.counters.peak == observed && i < |gaps|
      ensures state.threads[t] == if raised then Idle else Raising(size, value, observed)
      ensures goal == if raised then state else RaisePeakLoop(budget, state, t, Rest(gaps, i + 1))
    {
      RaiseFurther(budget, state, t, gaps, i);
      Interfere(t, GapAt(gaps, i));
      raised, observed := TryRaise(t, size, value, peak, begun, tries);
    }

    method LoadPeakBytes(t: nat, size: Size, value: Size) returns (peak: Size)
      requires Valid() && t < threadCount && state.threads[t] == Counted(size, value)
      modifies this
      ensures state == Moved(budget, old(state), ReadPeak(t))
      ensures StepsOf(run.actions, t) == StepsOf(old(run.actions), t) + [ReadPeak(t)]
      ensures Valid() && old(run.actions) <= run.actions && state.threads[t] == Raising(size, value, peak)
      ensures state.counters == old(state).counters && peak == state.counters.peak
    {
      ghost var before := state;
      peak := state.counters.peak;
      state := Become(state, t, Raising(size, value, peak));
      Record(ReadPeak(t), before);
    }

    method TryRaise(t: nat, size: Size, value: Size, peak: Size, ghost begun: seq<Action>, ghost tries: nat)
      returns (ok: bool, observed: Size)
      requires HasRaised(t, begun, tries)
      requires Valid() && t < threadCount && state.threads[t] == Raising(size, value, peak) && value > peak
      modifies this
      ensures state == Moved(budget, old(state), RaisePeak(t))
      ensures HasRaised(t, begun, tries + 1)
      ensures Valid() && old(run.actions) <= run.actions
      ensures ok <==> old(state).counters.peak == peak
      ensures observed == old(state).counters.peak
      ensures state.counters == old(state).counters.(peak := if ok then value else observed)
      ensures state.threads[t] == if ok then Idle else Raising(size, value, observed)
    {
      ghost var before := state;
      observed := state.counters.peak;
      ok := observed == peak;
      if ok {
        state := Become(state.(ledger := Settle(state.ledger, t), counters := state.counters.(peak := value)), t, Idle);
      } else {
        state := Become(state, t, Raising(size, value, observed));
      }
      Record(RaisePeak(t), before);
      AppendRaise(begun, t, tries);
    }

    /** The loop's exit: the peak already covers the value. */
    method KeepPeak(t: nat, size: Size, value: Size, peak: Size, ghost begun: seq<Action>, ghost tries: nat)
      requires HasRaised(t, begun, tries)
      requires Valid() && t < threadCount && state.threads[t] == Raising(size, value, peak) && value <= peak
      modifies this
      ensures state == Moved(budget, old(state), RaisePeak(t))
      ensures HasRaised(t, begun, tries + 1)
      ensures Valid() && old(run.actions) <= run.actions
      ensures state.counters == old(state).counters && state.threads[t].Idle?
    {
      ghost var before := state;
      state := Become(state.(ledger := Settle(state.ledger, t)), t, Idle);
      Record(RaisePeak(t), before);
      AppendRaise(begun, t, tries);
    }

    method CancelReservation(t: nat, size: Size)
      requires Valid() && t < threadCount && state.threads[t] == Reserved(size)
      modifies this
      ensures state == Moved(budget, old(state), Cancel(t))
      ensures StepsOf(run.actions, t) == StepsOf(old(run.actions), t) + [Cancel(t)]
      ensures Valid() && old(run.actions) <= run.actions && state.threads[t].Idle?
      ensures state.counters == old(state).counters.(current := FetchSub(old(state).counters.current, size))
    {
      ghost var before := state;
      state := Become(state.(counters := state.counters.(current := FetchSub(state.counters.current, size))), t, Idle);
      Record(Cancel(t), before);
    }

    /** Frees any number of live bytes, parts of allocations or several of them, whichever threads made them. */
    method RecordFree(t: nat, size: Size, gaps: seq<seq<Action>>) returns (ghost amounts: seq<Size>)
      requires Valid() && t < threadCount && state.threads[t].Idle?
      requires size <= LiveBytes(state)
      modifies this
      ensures state == FreeAll(budget, old(state), t, amounts, gaps)
      ensures Valid() && old(run.actions) <= run.actions && state.threads[t].Idle?
      ensures Total(amounts, Amount) == size
      ensures StepsOf(run.actions, t) == StepsOf(old(run.actions), t) + [BeginFree(t, amounts), AddFreed(t), CountFree(t)]
    {
      amounts := LowerCurrentBytes(t, size);
      Interfere(t, GapAt(gaps, 0));
      AddFreedBytes(t, size);
      Interfere(t, GapAt(gaps, 1));
      AddFreeCount(t, size);
    }

    /** The bytes are taken from the oldest live allocations; which ones is bookkeeping. */
    method LowerCurrentBytes(t: nat, size: Size) returns (ghost amounts: seq<Size>)
      requires Valid() && t < threadCount && state.threads[t].Idle?
      requires size <= LiveBytes(state)
      modifies this
      ensures state == Moved(budget, old(state), BeginFree(t, amounts))
      ensures Valid() && old(run.actions) <= run.actions && state.threads[t] == Subtracted(size)
      ensures Total(amounts, Amount) == size && StepsOf(run.actions, t) == StepsOf(old(run.actions), t) + [BeginFree(t, amounts)]
      ensures state.counters == old(state).counters.(current := FetchSub(old(state).counters.current, size))
    {
      ghost var before := state;
      AnyLiveBytesMayBeFreed(state.ledger, size);
      amounts := FromOldest(state.ledger, size);
      state := state.(counters := state.counters.(current := FetchSub(state.counters.current, size)));
      state := Become(state.(ledger := Taken(state.ledger, FromOldest(state.ledger, size))), t, Subtracted(size));
      Record(BeginFree(t, amounts), before);
    }

    method AddFreedBytes(t: nat, size: Size)
      requires Valid() && t < threadCount && state.threads[t] == Subtracted(size)
      modifies this
      ensures state == Moved(budget, old(state), AddFreed(t))
      ensures StepsOf(run.actions, t) == StepsOf(old(run.actions), t) + [AddFreed(t)]
      ensures Valid() && old(run.actions) <= run.actions && state.threads[t] == FreeTotalled(size)
    {
      ghost var before := state;
      state := state.(counters := state.counters.(totalFreed := FetchAdd(state.counters.totalFreed, size)));
      state := Become(state.(bytesFreed := state.bytesFreed + size), t, FreeTotalled(size));
      Record(AddFreed(t), before);
    }

    method AddFreeCount(t: nat, size: Size)
      requires Valid() && t < threadCount && state.threads[t] == FreeTotalled(size)
      modifies this
      ensures state == Moved(budget, old(state), CountFree(t))
      ensures StepsOf(run.actions, t) == StepsOf(old(run.actions), t) + [CountFree(t)]
      ensures Valid() && old(run.actions) <= run.actions && state.threads[t].Idle?
    {
      ghost var before := state;
      state := state.(counters := state.counters.(freeCount := FetchAdd(state.counters.freeCount, 1)));
      state := Become(state.(frees := state.frees + 1), t, Idle);
      Record(CountFree(t), before);
    }
  }
}
