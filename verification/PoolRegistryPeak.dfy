/**
 What a pool's peak records.  A commit reads CurrentBytes in a step of its own, so at rest the peak is the largest
 value that such a read saw, which may be less than the largest value there ever was; exactly when is stated here.
 */
module PoolRegistryPeak {
  import opened AtomicWord
  import opened Options
  import opened PoolRegistryProtocol
  import opened PoolRegistryRuns
  import opened Words

  /** What the step reads of CurrentBytes, if it is a commit's read. */
  function ReadBy(s: State, a: Action): nat {
    if a.ReadCurrent? then s.counters.current else 0
  }

  /** The largest CurrentBytes a commit of the run has read. */
  function HighestRead(run: Run): nat
    requires |run.states| == |run.actions| + 1
    decreases |run.actions|
  {
    if run.actions == [] then 0
    else
      var last := |run.actions| - 1;
      Max(HighestRead(Shorter(run)), ReadBy(run.states[last], run.actions[last]))
  }

  // ---- the peak is the highest read ----

  /** The highest read is recorded, or a thread is about to record it. */
  ghost predicate InSight(s: State, top: nat) {
    top <= s.counters.peak || exists t :: 0 <= t < |s.threads| && Committing(s.threads[t]) && s.threads[t].seen == top
  }

  /** What a committing thread has read is at most the highest read, and what it takes for the peak is at most the peak. */
  predicate ReadsBelow(p: Thread, top: nat, peak: nat) {
    (Committing(p) ==> p.seen <= top) && (p.Raising? ==> p.observed <= peak)
  }

  ghost predicate AllReadsBelow(s: State, top: nat) {
    && s.counters.peak <= top
    && forall t {:trigger ReadsBelow(s.threads[t], top, s.counters.peak)} ::
         0 <= t < |s.threads| ==> ReadsBelow(s.threads[t], top, s.counters.peak)
  }

  ghost predicate RecordsReads(s: State, top: nat) {
    AllReadsBelow(s, top) && InSight(s, top)
  }

  lemma StaysInSight(budget: Size, s: State, a: Action, s': State, top: nat)
    requires InSight(s, top) && Step(budget, s, a) == Some(s') && !a.ReadCurrent?
    requires ReadsBelow(s.threads[a.t], top, s.counters.peak)
    ensures InSight(s', top)
  {
    if top > s.counters.peak {
      var t :| 0 <= t < |s.threads| && Committing(s.threads[t]) && s.threads[t].seen == top;
      assert t == a.t || s'.threads[t] == s.threads[t];
      assert Committing(s'.threads[t]) ==> s'.threads[t].seen == top;
    }
  }

  lemma ReadComesInSight(budget: Size, s: State, t: nat, s': State, top: nat)
    requires InSight(s, top) && Step(budget, s, ReadCurrent(t)) == Some(s')
    ensures InSight(s', Max(top, s.counters.current))
  {
    assert Committing(s'.threads[t]) && s'.threads[t].seen == s.counters.current;
    if top > s.counters.peak && top > s.counters.current {
      var u :| 0 <= u < |s.threads| && Committing(s.threads[u]) && s.threads[u].seen == top;
      assert s'.threads[u] == s.threads[u];
    }
  }

  lemma ReadsMoveLocally(budget: Size, s: State, a: Action, s': State, top: nat)
    requires s.counters.peak <= top && Step(budget, s, a) == Some(s')
    requires ReadsBelow(s.threads[a.t], top, s.counters.peak)
    ensures |s'.threads| == |s.threads| && s.counters.peak <= s'.counters.peak <= Max(top, ReadBy(s, a))
    ensures ReadsBelow(s'.threads[a.t], Max(top, ReadBy(s, a)), s'.counters.peak)
    ensures forall t :: 0 <= t < |s.threads| && t != a.t ==> s'.threads[t] == s.threads[t]
  {
  }

  lemma ReadsStep(budget: Size, s: State, a: Action, s': State, top: nat)
    requires RecordsReads(s, top) && Step(budget, s, a) == Some(s')
    ensures RecordsReads(s', Max(top, ReadBy(s, a)))
  {
    assert ReadsBelow(s.threads[a.t], top, s.counters.peak);
    ReadsMoveLocally(budget, s, a, s', top);
    forall t | 0 <= t < |s.threads| && t != a.t
      ensures ReadsBelow(s'.threads[t], Max(top, ReadBy(s, a)), s'.counters.peak)
    {
      assert ReadsBelow(s.threads[t], top, s.counters.peak);
    }
    if a.ReadCurrent? {
      ReadComesInSight(budget, s, a.t, s', top);
    } else {
      StaysInSight(budget, s, a, s', top);
    }
  }

  lemma {:induction false} RunRecordsReads(budget: Size, threadCount: nat, run: Run, s: State)
    requires Leads(budget, Initial(threadCount), run, s)
    ensures RecordsReads(s, HighestRead(run))
    decreases |run.actions|
  {
    if run.actions != [] {
      var last := |run.actions| - 1;
      LeadsShorter(budget, Initial(threadCount), run, s);
      RunRecordsReads(budget, threadCount, Shorter(run), run.states[last]);
      ReadsStep(budget, run.states[last], run.actions[last], s, HighestRead(Shorter(run)));
    }
  }

  /** At rest the recorded peak is exactly the largest CurrentBytes that any commit has read. */
  lemma PeakIsHighestRead(budget: Size, threadCount: nat, run: Run, s: State)
    requires Leads(budget, Initial(threadCount), run, s) && Quiescent(s)
    ensures s.counters.peak == HighestRead(run)
  {
    RunRecordsReads(budget, threadCount, run, s);
  }

  // ---- when the peak is the high water ----

  /** The i-th step is a commit's read, in a state with this many bytes. */
  ghost predicate ReadsAt(run: Run, i: nat, value: nat)
    requires |run.states| == |run.actions| + 1
  {
    i < |run.actions| && run.actions[i].ReadCurrent? && run.states[i].counters.current == value
  }

  lemma {:induction false} HighestReadIsRead(run: Run)
    requires |run.states| == |run.actions| + 1
    ensures HighestRead(run) == 0 || exists i: nat :: ReadsAt(run, i, HighestRead(run))
    ensures forall i: nat, v: nat :: ReadsAt(run, i, v) ==> v <= HighestRead(run)
    decreases |run.actions|
  {
    if run.actions != [] {
      var last, shorter := |run.actions| - 1, Shorter(run);
      HighestReadIsRead(shorter);
      assert forall i: nat, v: nat :: ReadsAt(run, i, v) ==> ReadsAt(shorter, i, v) || i == last;
      assert run.actions[last].ReadCurrent? ==> ReadsAt(run, last, run.states[last].counters.current);
      if i: nat :| ReadsAt(shorter, i, HighestRead(shorter)) {
        assert ReadsAt(run, i, HighestRead(shorter));
      }
    }
  }

  /** At rest the peak is the largest value CurrentBytes ever had if and only if some commit read that value. */
  lemma PeakIsHighWaterIff(budget: Size, threadCount: nat, run: Run, s: State)
    requires Leads(budget, Initial(threadCount), run, s) && Quiescent(s)
    ensures s.counters.peak == HighWater(run.states)
            <==> HighWater(run.states) == 0 || exists i: nat :: ReadsAt(run, i, HighWater(run.states))
  {
    PeakIsHighestRead(budget, threadCount, run, s);
    HighestReadIsRead(run);
    PeakCoversLiveBytes(budget, threadCount, run, s);
  }

  // ---- a discipline that makes the peak exact ----

  predicate NobodyReserved(s: State) {
    forall t :: 0 <= t < |s.threads| ==> !s.threads[t].Reserved?
  }

  /** Nothing is given back while a reservation waits for its commit, and every reservation is committed. */
  ghost predicate IsOrderly(run: Run)
    requires |run.states| == |run.actions| + 1
  {
    forall i :: 0 <= i < |run.actions| ==>
      && !run.actions[i].Cancel?
      && (run.actions[i].BeginFree? ==> NobodyReserved(run.states[i]))
  }

  /** The high water was read, or it still stands and the reservation that caused it is still to be committed. */
  ghost predicate ToBeRead(s: State, top: nat, high: nat) {
    high <= top || (s.counters.current == high && !NobodyReserved(s))
  }

  lemma OrderlyStep(budget: Size, s: State, a: Action, s': State, top: nat, high: nat)
    requires Conservation(s) && s.counters.current <= high && ToBeRead(s, top, high)
    requires Step(budget, s, a) == Some(s') && !a.Cancel? && (a.BeginFree? ==> NobodyReserved(s))
    ensures ToBeRead(s', Max(top, ReadBy(s, a)), Max(high, s'.counters.current))
  {
    CurrentBytesStep(budget, s, a);
    if !NobodyReserved(s) {
      var t :| 0 <= t < |s.threads| && s.threads[t].Reserved?;
      assert t == a.t || s'.threads[t] == s.threads[t];
    }
    if a.Exchange? {
      assert s'.threads[a.t].Reserved? || s'.counters.current == s.counters.current;
    }
  }

  lemma {:induction false} OrderlyRun(budget: Size, threadCount: nat, run: Run, s: State)
    requires Leads(budget, Initial(threadCount), run, s) && IsOrderly(run)
    ensures ToBeRead(s, HighestRead(run), HighWater(run.states))
    decreases |run.actions|
  {
    if run.actions == [] {
      assert run.states[..0] == [];
    } else {
      var last := |run.actions| - 1;
      LeadsShorter(budget, Initial(threadCount), run, s);
      OrderlyRun(budget, threadCount, Shorter(run), run.states[last]);
      RunInvariant(budget, threadCount, Shorter(run), run.states[last]);
      OrderlyStep(budget, run.states[last], run.actions[last], s, HighestRead(Shorter(run)), HighWater(Shorter(run).states));
    }
  }

  /** What callers can do for an exact peak: commit every reservation, and free nothing while one is uncommitted. */
  lemma OrderlyPeakIsHighWater(budget: Size, threadCount: nat, run: Run, s: State)
    requires Leads(budget, Initial(threadCount), run, s) && IsOrderly(run) && Quiescent(s)
    ensures s.counters.peak == HighWater(run.states)
  {
    OrderlyRun(budget, threadCount, run, s);
    PeakIsHighestRead(budget, threadCount, run, s);
    PeakCoversLiveBytes(budget, threadCount, run, s);
  }

  // ---- what the peak does not promise ----

  /**
   Because a commit reads CurrentBytes only after its reservation, a peak that another reservation caused in
   between can be missed: here 150 bytes were outstanding, yet the recorded peak is 100.
   */
  lemma PeakCanMissHighWater(budget: Size) returns (run: Run, s: State)
    requires budget == 0 || budget >= 150
    ensures Leads(budget, Initial(2), run, s) && Quiescent(s)
    ensures s.counters.peak == 100 && HighWater(run.states) >= 150
  {
    s := Initial(2);
    run := NoSteps(s);
    assert s.threads == [Idle, Idle];
    run, s := Reserve(budget, s, run, s, 0, 100);
    assert s.threads == [Reserved(100), Idle];
    run, s := Reserve(budget, Initial(2), run, s, 1, 50);
    assert s.threads == [Reserved(100), Reserved(50)];
    run, s := CancelSecond(budget, run, s);
    run, s := CommitAlone(budget, run, s);
  }

  lemma CancelSecond(budget: Size, before: Run, s0: State) returns (run: Run, s: State)
    requires Leads(budget, Initial(2), before, s0) && HighWater(before.states) >= 150
    requires s0.threads == [Reserved(100), Reserved(50)] && s0.counters.current == 150 && s0.counters.peak == 0
    ensures Leads(budget, Initial(2), run, s) && HighWater(run.states) >= 150
    ensures s.threads == [Reserved(100), Idle] && s.counters.current == 100 && s.counters.peak == 0
  {
    SubFits(150, 50);
    run, s := Continue(budget, Initial(2), before, s0, Cancel(1));
  }

  lemma CommitAlone(budget: Size, before: Run, s0: State) returns (run: Run, s: State)
    requires Leads(budget, Initial(2), before, s0) && HighWater(before.states) >= 150
    requires s0.threads == [Reserved(100), Idle] && s0.counters.current == 100 && s0.counters.peak == 0
    ensures Leads(budget, Initial(2), run, s) && HighWater(run.states) >= 150
    ensures s.threads == [Idle, Idle] && s.counters.peak == 100
  {
    run, s := Commit(budget, Initial(2), before, s0, 0, 100);
    assert s0.threads[0 := Idle] == [Idle, Idle];
  }
}
