/**
 What every run of the metrics keeps: the live bytes are exact, the totals balance, and the peak is the high water
 mark unless a thread is about to record it.
 */
module MetricsRuns {
  import opened Arithmetic
  import opened AtomicWord
  import opened MetricsProtocol
  import opened Options
  import opened Sums
  import opened Words

  lemma LeadsShorter(s: State, run: Run, s': State)
    requires Leads(s, run, s') && run.actions != []
    ensures var last := |run.actions| - 1;
            Leads(s, Shorter(run), run.states[last]) && Step(run.states[last], run.actions[last]) == Some(s')
    ensures HighWater(run.states) == Max(HighWater(Shorter(run).states), s'.counters.live)
  {
    forall i | 0 <= i < |run.actions| - 1 ensures TakenAt(Shorter(run), i) {
      assert TakenAt(run, i);
    }
    assert TakenAt(run, |run.actions| - 1);
  }

  predicate Quiescent(s: State) {
    forall t :: 0 <= t < |s.threads| ==> s.threads[t].Idle?
  }

  // ---- the invariant ----

  /** What a thread's unfinished call contributes to CurrentLiveBytes. */
  function LiveShare(t: Thread): nat {
    match t
    case Raised(size, _, _) => size
    case Counted(size, _, _) => size
    case Raising(size, _, _, _) => size
    case FreeTotalled(size, _) => size
    case _ => 0
  }

  function NotRaised(t: Thread): nat {
    if t.Totalled? then t.size else 0
  }

  function NotLowered(t: Thread): nat {
    if t.FreeTotalled? then t.size else 0
  }

  ghost predicate LiveIsExact(s: State) {
    && s.counters.live == s.held + Total(s.threads, LiveShare)
    && Outstanding(s) < WORD_VALUES
  }

  ghost predicate CountersTrack(s: State) {
    && s.counters.totalAllocated == s.bytesAllocated % WORD_VALUES
    && s.counters.totalFreed == s.bytesFreed % WORD_VALUES
  }

  ghost predicate TotalsAgree(s: State) {
    && CountersTrack(s)
    && s.bytesAllocated + Total(s.threads, NotLowered)
       == s.bytesFreed + s.counters.live + Total(s.threads, NotRaised)
  }

  predicate HasValue(t: Thread) {
    t.Raised? || t.Counted? || t.Raising?
  }

  /** The high water mark is recorded, or a thread is about to record it. */
  ghost predicate HighWaterInSight(s: State, high: nat) {
    high <= s.counters.peak || exists t :: 0 <= t < |s.threads| && HasValue(s.threads[t]) && s.threads[t].value == high
  }

  ghost predicate PeakIsSound(s: State, high: nat) {
    && s.counters.live <= high
    && s.counters.peak <= high
    && (forall t :: 0 <= t < |s.threads| && HasValue(s.threads[t]) ==> s.threads[t].value <= high)
    && (forall t :: 0 <= t < |s.threads| && s.threads[t].Raising? ==> s.threads[t].observed <= s.counters.peak)
    && HighWaterInSight(s, high)
  }

  lemma StepMovesOneThread(s: State, a: Action)
    requires Step(s, a).Some?
    ensures var s' := Step(s, a).value;
            |s'.threads| == |s.threads| && s'.threads == s.threads[a.t := s'.threads[a.t]]
  {
  }

  lemma {:induction false} ShareInTransit(threads: seq<Thread>)
    ensures Total(threads, InTransit) == Total(threads, LiveShare) + Total(threads, NotRaised)
  {
    if threads != [] {
      ShareInTransit(threads[1..]);
    }
  }

  /** How a step changes CurrentLiveBytes: the atomic arithmetic never wraps. */
  lemma LiveBytesStep(s: State, a: Action)
    requires LiveIsExact(s) && Step(s, a).Some?
    ensures var live, live' := s.counters.live, Step(s, a).value.counters.live;
            match a
            case RaiseLive(t) => live' == live + s.threads[t].size
            case LowerLive(t) => live' + s.threads[t].size == live
            case _ => live' == live
  {
    ShareInTransit(s.threads);
    match a
    case RaiseLive(t) =>
      TotalSplit(s.threads, t, NotRaised);
      DivModUnique(s.counters.live + s.threads[t].size, WORD_VALUES, 0, s.counters.live + s.threads[t].size);
    case LowerLive(t) =>
      TotalSplit(s.threads, t, LiveShare);
      DivModUnique(s.counters.live - s.threads[t].size, WORD_VALUES, 0, s.counters.live - s.threads[t].size);
    case _ =>
  }

  lemma SharesMoveLocally(s: State, a: Action)
    requires LiveIsExact(s) && Step(s, a).Some?
    ensures var s' := Step(s, a).value;
            && s'.counters.live + s.held + LiveShare(s.threads[a.t])
               == s.counters.live + s'.held + LiveShare(s'.threads[a.t])
            && s'.held + InTransit(s'.threads[a.t])
               <= s.held + InTransit(s.threads[a.t]) + (WORD_VALUES - 1 - Outstanding(s))
  {
    LiveBytesStep(s, a);
  }

  lemma LiveIsExactStep(s: State, a: Action)
    requires LiveIsExact(s) && Step(s, a).Some?
    ensures LiveIsExact(Step(s, a).value)
  {
    var s' := Step(s, a).value;
    StepMovesOneThread(s, a);
    SharesMoveLocally(s, a);
    TotalUpdate(s.threads, a.t, s'.threads[a.t], LiveShare);
    TotalUpdate(s.threads, a.t, s'.threads[a.t], InTransit);
  }

  lemma CountersTrackStep(s: State, a: Action)
    requires CountersTrack(s) && Step(s, a).Some?
    ensures CountersTrack(Step(s, a).value)
  {
    match a
    case RecordAllocation(_, size) => CounterTracks(s.counters.totalAllocated, s.bytesAllocated, size);
    case RecordFree(_, size) => CounterTracks(s.counters.totalFreed, s.bytesFreed, size);
    case RecordReallocation(_, oldSize, newSize) =>
      if newSize > oldSize {
        CounterTracks(s.counters.totalAllocated, s.bytesAllocated, newSize - oldSize);
      } else {
        CounterTracks(s.counters.totalFreed, s.bytesFreed, oldSize - newSize);
      }
    case _ =>
  }

  lemma TotalsMoveLocally(s: State, a: Action)
    requires LiveIsExact(s) && Step(s, a).Some?
    ensures var s' := Step(s, a).value;
            var before, after := s.threads[a.t], s'.threads[a.t];
            s'.bytesAllocated + NotLowered(after) + s.bytesFreed + s.counters.live + NotRaised(before)
            == s.bytesAllocated + NotLowered(before) + s'.bytesFreed + s'.counters.live + NotRaised(after)
  {
    LiveBytesStep(s, a);
  }

  lemma TotalsStep(s: State, a: Action)
    requires LiveIsExact(s) && TotalsAgree(s) && Step(s, a).Some?
    ensures TotalsAgree(Step(s, a).value)
  {
    var s' := Step(s, a).value;
    StepMovesOneThread(s, a);
    CountersTrackStep(s, a);
    TotalsMoveLocally(s, a);
    TotalUpdate(s.threads, a.t, s'.threads[a.t], NotLowered);
    TotalUpdate(s.threads, a.t, s'.threads[a.t], NotRaised);
  }

  lemma HighWaterStaysInSight(s: State, a: Action, high: nat)
    requires PeakIsSound(s, high) && Step(s, a).Some?
    ensures HighWaterInSight(Step(s, a).value, Max(high, Step(s, a).value.counters.live))
            || a.LowerLive?
    ensures a.LowerLive? ==> HighWaterInSight(Step(s, a).value, high)
  {
    var s' := Step(s, a).value;
    if a.RaiseLive? && s'.counters.live > high {
      assert HasValue(s'.threads[a.t]) && s'.threads[a.t].value == s'.counters.live;
    } else if high > s.counters.peak {
      var t :| 0 <= t < |s.threads| && HasValue(s.threads[t]) && s.threads[t].value == high;
      assert t == a.t || s'.threads[t] == s.threads[t];
      if t == a.t && HasValue(s'.threads[t]) {
        assert s'.threads[t].value == high;
      }
    }
  }

  lemma PeakStep(s: State, a: Action, high: nat)
    requires LiveIsExact(s) && PeakIsSound(s, high) && Step(s, a).Some?
    ensures PeakIsSound(Step(s, a).value, Max(high, Step(s, a).value.counters.live))
  {
    LiveBytesStep(s, a);
    HighWaterStaysInSight(s, a, high);
  }

  // ---- main results ----

  ghost predicate Invariant(s: State, high: nat) {
    LiveIsExact(s) && TotalsAgree(s) && PeakIsSound(s, high)
  }

  lemma InitialInvariant(threadCount: nat)
    ensures Invariant(Initial(threadCount), 0)
  {
    var s := Initial(threadCount);
    TotalZeroIff(s.threads, LiveShare);
    TotalZeroIff(s.threads, InTransit);
    TotalZeroIff(s.threads, NotRaised);
    TotalZeroIff(s.threads, NotLowered);
  }

  lemma StepKeepsInvariant(s: State, a: Action, s': State, high: nat)
    requires Invariant(s, high) && Step(s, a) == Some(s')
    ensures Invariant(s', Max(high, s'.counters.live))
  {
    LiveIsExactStep(s, a);
    TotalsStep(s, a);
    PeakStep(s, a, high);
  }

  lemma {:induction false} RunInvariant(threadCount: nat, run: Run, s: State)
    requires Leads(Initial(threadCount), run, s)
    ensures Invariant(s, HighWater(run.states))
    decreases |run.actions|
  {
    if run.actions == [] {
      InitialInvariant(threadCount);
      assert run.states[..0] == [];
    } else {
      var last := |run.actions| - 1;
      LeadsShorter(Initial(threadCount), run, s);
      RunInvariant(threadCount, Shorter(run), run.states[last]);
      StepKeepsInvariant(run.states[last], run.actions[last], s, HighWater(Shorter(run).states));
    }
  }

  lemma QuiescentIsSettled(s: State, high: nat)
    requires LiveIsExact(s) && TotalsAgree(s) && PeakIsSound(s, high) && Quiescent(s)
    ensures s.counters.peak == high && s.counters.live == s.held
    ensures s.counters.live == FetchSub(s.counters.totalAllocated, s.counters.totalFreed)
  {
    TotalZeroIff(s.threads, LiveShare);
    TotalZeroIff(s.threads, NotRaised);
    TotalZeroIff(s.threads, NotLowered);
    CounterDifference(s.bytesAllocated, s.bytesFreed, s.counters.live);
  }

  /** At rest the peak is exactly the historical maximum, and the live bytes are the difference of the totals. */
  lemma QuiescentPeakIsHighWater(threadCount: nat, run: Run, s: State)
    requires Leads(Initial(threadCount), run, s) && Quiescent(s)
    ensures s.counters.peak == HighWater(run.states)
    ensures s.counters.live == s.held
    ensures s.counters.live == FetchSub(s.counters.totalAllocated, s.counters.totalFreed)
  {
    RunInvariant(threadCount, run, s);
    QuiescentIsSettled(s, HighWater(run.states));
  }

  /** At every moment the peak misses the historical maximum only while the thread that reached it is still recording it. */
  lemma PeakLagsOnlyInFlight(threadCount: nat, run: Run, s: State)
    requires Leads(Initial(threadCount), run, s)
    ensures s.counters.peak <= HighWater(run.states)
    ensures s.counters.peak < HighWater(run.states) ==>
      exists t :: 0 <= t < |s.threads| && HasValue(s.threads[t]) && s.threads[t].value == HighWater(run.states)
  {
    RunInvariant(threadCount, run, s);
  }
}
