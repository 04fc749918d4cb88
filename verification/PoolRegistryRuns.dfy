/**
 What every run of a pool's counters keeps: the bytes are conserved, the peak covers what is live, the lifetime
 totals balance, and the budget holds.
 */
module PoolRegistryRuns {
  import opened AtomicWord
  import opened Options
  import opened PoolRegistryProtocol
  import opened Sums
  import opened Words

  lemma LeadsFurther(budget: Size, s: State, run: Run, m: State, a: Action, s': State)
    requires Leads(budget, s, run, m) && Step(budget, m, a) == Some(s')
    ensures Leads(budget, s, Further(run, a, s'), s')
    ensures HighWater(Further(run, a, s').states) == Max(HighWater(run.states), s'.counters.current)
  {
    var longer := Further(run, a, s');
    forall i | 0 <= i < |longer.actions| ensures TakenAt(budget, longer, i) {
      if i < |run.actions| {
        assert TakenAt(budget, run, i);
      }
    }
    assert longer.states[..|run.states|] == run.states;
  }

  lemma LeadsShorter(budget: Size, s: State, run: Run, s': State)
    requires Leads(budget, s, run, s') && run.actions != []
    ensures var last := |run.actions| - 1;
            && Leads(budget, s, Shorter(run), run.states[last])
            && Step(budget, run.states[last], run.actions[last]) == Some(s')
    ensures HighWater(run.states) == Max(HighWater(Shorter(run).states), s'.counters.current)
  {
    forall i | 0 <= i < |run.actions| - 1 ensures TakenAt(budget, Shorter(run), i) {
      assert TakenAt(budget, run, i);
    }
    assert TakenAt(budget, run, |run.actions| - 1);
  }

  // ---- the quantities the theorems speak about ----

  function ReservedBytes(t: Thread): nat {
    if t.Reserved? then t.size else 0
  }

  function EntryBytes(e: Entry): nat {
    e.size
  }

  function LiveEntryBytes(e: Entry): nat {
    if e.holder.Live? then e.size else 0
  }

  /** Total size of the allocations whose commit has finished and that nobody has freed. */
  function LiveBytes(s: State): nat {
    Total(s.ledger, LiveEntryBytes)
  }

  function OutstandingBytes(s: State): nat {
    Total(s.threads, ReservedBytes) + Total(s.ledger, EntryBytes)
  }

  function UntotalledAllocation(t: Thread): nat {
    if t.Read? then t.size else 0
  }

  function UntotalledFree(t: Thread): nat {
    if t.Subtracted? then t.size else 0
  }

  function UncountedAllocation(t: Thread): nat {
    if t.Read? || t.Totalled? then 1 else 0
  }

  function UncountedFree(t: Thread): nat {
    if t.Subtracted? || t.FreeTotalled? then 1 else 0
  }

  function OneIf(b: bool): nat {
    if b then 1 else 0
  }

  /** Commits begun and frees begun in a run. */
  function Commits(actions: seq<Action>): nat {
    if actions == [] then 0
    else Commits(actions[..|actions| - 1]) + OneIf(actions[|actions| - 1].ReadCurrent?)
  }

  function FreeCalls(actions: seq<Action>): nat {
    if actions == [] then 0
    else FreeCalls(actions[..|actions| - 1]) + OneIf(actions[|actions| - 1].BeginFree?)
  }

  predicate Committing(t: Thread) {
    t.Read? || t.Totalled? || t.Counted? || t.Raising?
  }

  predicate Quiescent(s: State) {
    forall t :: 0 <= t < |s.threads| ==> s.threads[t].Idle?
  }

  // ---- the invariant ----

  /** The checked next value is what the exchange will store. */
  predicate ThreadIsSound(t: Thread) {
    match t
    case Reserving(size, _) => size > 0
    case Checked(size, observed, next) => size > 0 && next == observed + size
    case Reserved(size) => size > 0
    case _ => true
  }

  ghost predicate ThreadsAreSound(s: State) {
    forall t :: 0 <= t < |s.threads| ==> ThreadIsSound(s.threads[t])
  }

  ghost predicate Conservation(s: State) {
    s.counters.current == OutstandingBytes(s) && ThreadsAreSound(s)
  }

  /** Every commit read a CurrentBytes that covers the allocations read before it and still present. */
  ghost predicate ReadsCover(ledger: seq<Entry>) {
    forall i :: 0 <= i < |ledger| ==> Total(ledger[..i + 1], EntryBytes) <= ledger[i].seen
  }

  ghost predicate EntryIsSound(s: State, e: Entry) {
    match e.holder
    case Live => e.seen <= s.counters.peak
    case InFlight(t) => t < |s.threads| && Committing(s.threads[t]) && s.threads[t].seen == e.seen
  }

  ghost predicate PeakCovers(s: State) {
    && ReadsCover(s.ledger)
    && (forall i :: 0 <= i < |s.ledger| ==> EntryIsSound(s, s.ledger[i]))
    && (forall t :: 0 <= t < |s.threads| && s.threads[t].Raising? ==> s.threads[t].observed <= s.counters.peak)
  }

  ghost predicate BelowHighWater(s: State, high: nat) {
    && s.counters.current <= high
    && s.counters.peak <= high
    && (forall t :: 0 <= t < |s.threads| && Committing(s.threads[t]) ==> s.threads[t].seen <= high)
  }

  /** The 64-bit lifetime counters are the true totals reduced. */
  ghost predicate CountersTrack(s: State) {
    && s.counters.totalAllocated == s.bytesAllocated % WORD_VALUES
    && s.counters.totalFreed == s.bytesFreed % WORD_VALUES
    && s.counters.allocationCount == s.allocations % WORD_VALUES
    && s.counters.freeCount == s.frees % WORD_VALUES
  }

  ghost predicate BytesBalance(s: State) {
    s.bytesAllocated + Total(s.threads, UntotalledAllocation)
    == s.bytesFreed + Total(s.threads, UntotalledFree) + Total(s.ledger, EntryBytes)
  }

  /** Every commit begun and every free begun is counted or about to be. */
  ghost predicate CountsBalance(s: State, commits: nat, frees: nat) {
    && s.allocations + Total(s.threads, UncountedAllocation) == commits
    && s.frees + Total(s.threads, UncountedFree) == frees
  }

  ghost predicate WithinBudget(budget: Size, s: State) {
    && s.enforce
    && (budget != 0 ==> s.counters.current <= budget)
    && (budget != 0 ==> forall t :: 0 <= t < |s.threads| && s.threads[t].Checked? ==> s.threads[t].next <= budget)
  }

  // ---- conservation ----

  lemma {:induction false} SettleKeepsBytes(ledger: seq<Entry>, t: nat, n: nat)
    requires n <= |ledger|
    ensures Total(Settle(ledger, t)[..n], EntryBytes) == Total(ledger[..n], EntryBytes)
  {
    if n > 0 {
      SettleKeepsBytes(ledger, t, n - 1);
      TotalAppend(ledger[..n - 1], ledger[n - 1], EntryBytes);
      TotalAppend(Settle(ledger, t)[..n - 1], Settle(ledger, t)[n - 1], EntryBytes);
      assert ledger[..n] == ledger[..n - 1] + [ledger[n - 1]];
      assert Settle(ledger, t)[..n] == Settle(ledger, t)[..n - 1] + [Settle(ledger, t)[n - 1]];
    }
  }

  lemma SettleKeepsAllBytes(ledger: seq<Entry>, t: nat)
    ensures Total(Settle(ledger, t), EntryBytes) == Total(ledger, EntryBytes)
  {
    SettleKeepsBytes(ledger, t, |ledger|);
    assert ledger[..|ledger|] == ledger;
    assert Settle(ledger, t)[..|ledger|] == Settle(ledger, t);
  }

  lemma {:induction false} TakenBytes(ledger: seq<Entry>, amounts: seq<Size>, n: nat)
    requires MayTake(ledger, amounts) && n <= |ledger|
    ensures Total(Taken(ledger, amounts)[..n], EntryBytes) + Total(amounts[..n], Amount) == Total(ledger[..n], EntryBytes)
  {
    if n > 0 {
      TakenBytes(ledger, amounts, n - 1);
      PrefixTotal(ledger, n - 1, EntryBytes);
      PrefixTotal(amounts, n - 1, Amount);
      PrefixTotal(Taken(ledger, amounts), n - 1, EntryBytes);
    }
  }

  lemma PrefixTotal<T>(s: seq<T>, n: nat, w: T -> nat)
    requires n < |s|
    ensures Total(s[..n + 1], w) == Total(s[..n], w) + w(s[n])
  {
    TotalAppend(s[..n], s[n], w);
    assert s[..n + 1] == s[..n] + [s[n]];
  }

  lemma TakenAllBytes(ledger: seq<Entry>, amounts: seq<Size>)
    requires MayTake(ledger, amounts)
    ensures Total(Taken(ledger, amounts), EntryBytes) + Total(amounts, Amount) == Total(ledger, EntryBytes)
  {
    TakenBytes(ledger, amounts, |ledger|);
    assert ledger[..|ledger|] == ledger && amounts[..|ledger|] == amounts;
    assert Taken(ledger, amounts)[..|ledger|] == Taken(ledger, amounts);
  }

  /** How a step changes the ledger total. */
  lemma LedgerBytes(budget: Size, s: State, a: Action)
    requires Step(budget, s, a).Some?
    ensures var s' := Step(budget, s, a).value;
            match a
            case ReadCurrent(t) => Total(s'.ledger, EntryBytes) == Total(s.ledger, EntryBytes) + s.threads[t].size
            case BeginFree(_, amounts) =>
              Total(s'.ledger, EntryBytes) + Total(amounts, Amount) == Total(s.ledger, EntryBytes)
            case _ => Total(s'.ledger, EntryBytes) == Total(s.ledger, EntryBytes)
  {
    match a
    case ReadCurrent(t) => TotalAppend(s.ledger, Entry(s.threads[t].size, s.counters.current, InFlight(t)), EntryBytes);
    case BeginFree(_, amounts) => TakenAllBytes(s.ledger, amounts);
    case RaisePeak(t) => SettleKeepsAllBytes(s.ledger, t);
    case _ =>
  }

  /** A step changes the state of its own thread only. */
  lemma StepMovesOneThread(budget: Size, s: State, a: Action)
    requires Step(budget, s, a).Some?
    ensures var s' := Step(budget, s, a).value;
            |s'.threads| == |s.threads| && s'.threads == s.threads[a.t := s'.threads[a.t]]
  {
  }

  lemma ThreadsStaySound(budget: Size, s: State, a: Action)
    requires ThreadsAreSound(s) && Step(budget, s, a).Some?
    ensures ThreadsAreSound(Step(budget, s, a).value)
  {
    StepMovesOneThread(budget, s, a);
    assert ThreadIsSound(s.threads[a.t]);
    if a.Check? {
      AddFitsIff(s.threads[a.t].observed, s.threads[a.t].size);
    }
  }

  /** How a step changes CurrentBytes, given that it has covered the outstanding bytes so far. */
  lemma CurrentBytesStep(budget: Size, s: State, a: Action)
    requires Conservation(s) && Step(budget, s, a).Some?
    ensures var c, c' := s.counters.current, Step(budget, s, a).value.counters.current;
            match a
            case Exchange(t) =>
              c' == (if c == s.threads[t].observed then c + s.threads[t].size else c)
            case Cancel(t) => c' + s.threads[t].size == c
            case BeginFree(_, amounts) => c' + Total(amounts, Amount) == c
            case _ => c' == c
  {
    match a
    case Exchange(t) => assert ThreadIsSound(s.threads[t]);
    case Cancel(t) =>
      TotalSplit(s.threads, t, ReservedBytes);
      SubFits(s.counters.current, s.threads[t].size);
    case BeginFree(_, amounts) =>
      TakenAllBytes(s.ledger, amounts);
      SubFits(s.counters.current, Total(amounts, Amount));
    case _ =>
  }

  lemma ConservationStep(budget: Size, s: State, a: Action)
    requires Conservation(s) && Step(budget, s, a).Some?
    ensures Conservation(Step(budget, s, a).value)
  {
    var s' := Step(budget, s, a).value;
    StepMovesOneThread(budget, s, a);
    ThreadsStaySound(budget, s, a);
    LedgerBytes(budget, s, a);
    CurrentBytesStep(budget, s, a);
    TotalUpdate(s.threads, a.t, s'.threads[a.t], ReservedBytes);
  }

  // ---- the peak ----

  lemma ReadsCoverAppend(ledger: seq<Entry>, e: Entry)
    requires ReadsCover(ledger) && Total(ledger, EntryBytes) + e.size <= e.seen
    ensures ReadsCover(ledger + [e])
  {
    var longer := ledger + [e];
    TotalAppend(ledger, e, EntryBytes);
    forall i | 0 <= i < |longer| ensures Total(longer[..i + 1], EntryBytes) <= longer[i].seen {
      if i < |ledger| {
        assert longer[..i + 1] == ledger[..i + 1];
      } else {
        assert longer[..i + 1] == longer;
      }
    }
  }

  lemma ReadsCoverTake(ledger: seq<Entry>, amounts: seq<Size>)
    requires ReadsCover(ledger) && MayTake(ledger, amounts)
    ensures ReadsCover(Taken(ledger, amounts))
  {
    forall i | 0 <= i < |ledger| ensures Total(Taken(ledger, amounts)[..i + 1], EntryBytes) <= Taken(ledger, amounts)[i].seen {
      TakenBytes(ledger, amounts, i + 1);
    }
  }

  lemma ReadsCoverSettle(ledger: seq<Entry>, t: nat)
    requires ReadsCover(ledger)
    ensures ReadsCover(Settle(ledger, t))
  {
    forall i | 0 <= i < |ledger| ensures Total(Settle(ledger, t)[..i + 1], EntryBytes) <= Settle(ledger, t)[i].seen {
      SettleKeepsBytes(ledger, t, i + 1);
    }
  }

  lemma EntriesStaySound(budget: Size, s: State, a: Action)
    requires PeakCovers(s) && Step(budget, s, a).Some?
    ensures var s' := Step(budget, s, a).value;
            && s.counters.peak <= s'.counters.peak
            && forall i :: 0 <= i < |s'.ledger| ==> EntryIsSound(s', s'.ledger[i])
  {
    var s' := Step(budget, s, a).value;
    match a
    case BeginFree(t, amounts) => EntriesAfterFree(budget, s, t, amounts);
    case RaisePeak(t) => EntriesAfterRaise(budget, s, t);
    case _ =>
      forall i | 0 <= i < |s'.ledger| ensures EntryIsSound(s', s'.ledger[i]) {
        if i < |s.ledger| {
          EntryStaysSound(budget, s, a, s.ledger[i]);
        }
      }
  }

  lemma EntryStaysSound(budget: Size, s: State, a: Action, e: Entry)
    requires EntryIsSound(s, e) && Step(budget, s, a).Some? && !a.RaisePeak?
    ensures EntryIsSound(Step(budget, s, a).value, e)
  {
  }

  lemma EntriesAfterFree(budget: Size, s: State, t: nat, amounts: seq<Size>)
    requires PeakCovers(s) && Step(budget, s, BeginFree(t, amounts)).Some?
    ensures var s' := Step(budget, s, BeginFree(t, amounts)).value;
            forall i :: 0 <= i < |s'.ledger| ==> EntryIsSound(s', s'.ledger[i])
  {
    var s' := Step(budget, s, BeginFree(t, amounts)).value;
    forall i | 0 <= i < |s'.ledger| ensures EntryIsSound(s', s'.ledger[i]) {
      assert EntryIsSound(s, s.ledger[i]);
    }
  }

  lemma EntriesAfterRaise(budget: Size, s: State, t: nat)
    requires PeakCovers(s) && Step(budget, s, RaisePeak(t)).Some?
    ensures var s' := Step(budget, s, RaisePeak(t)).value;
            && s.counters.peak <= s'.counters.peak
            && forall i :: 0 <= i < |s'.ledger| ==> EntryIsSound(s', s'.ledger[i])
  {
    var s' := Step(budget, s, RaisePeak(t)).value;
    forall i | 0 <= i < |s'.ledger| ensures EntryIsSound(s', s'.ledger[i]) {
      assert EntryIsSound(s, s.ledger[i]);
    }
  }

  lemma ReadsStayCovering(budget: Size, s: State, a: Action)
    requires Conservation(s) && ReadsCover(s.ledger) && Step(budget, s, a).Some?
    ensures ReadsCover(Step(budget, s, a).value.ledger)
  {
    match a
    case ReadCurrent(t) =>
      TotalSplit(s.threads, t, ReservedBytes);
      ReadsCoverAppend(s.ledger, Entry(s.threads[t].size, s.counters.current, InFlight(t)));
    case BeginFree(_, amounts) => ReadsCoverTake(s.ledger, amounts);
    case RaisePeak(t) => ReadsCoverSettle(s.ledger, t);
    case _ =>
  }

  lemma PeakStep(budget: Size, s: State, a: Action)
    requires Conservation(s) && PeakCovers(s) && Step(budget, s, a).Some?
    ensures PeakCovers(Step(budget, s, a).value)
  {
    EntriesStaySound(budget, s, a);
    ReadsStayCovering(budget, s, a);
  }

  lemma HighWaterStep(budget: Size, s: State, a: Action, high: nat)
    requires BelowHighWater(s, high) && Step(budget, s, a).Some?
    ensures BelowHighWater(Step(budget, s, a).value, Max(high, Step(budget, s, a).value.counters.current))
  {
  }

  /** The latest read among the live allocations covers them all. */
  lemma {:induction false} LiveBelowPeak(s: State, n: nat)
    requires PeakCovers(s) && n <= |s.ledger|
    ensures Total(s.ledger[..n], LiveEntryBytes) <= s.counters.peak
  {
    if n > 0 {
      var prefix, e := s.ledger[..n], s.ledger[n - 1];
      assert prefix == s.ledger[..n - 1] + [e];
      assert EntryIsSound(s, e);
      if e.holder.Live? {
        TotalMonotone(prefix, LiveEntryBytes, EntryBytes);
        assert Total(s.ledger[..(n - 1) + 1], EntryBytes) <= s.ledger[n - 1].seen;
      } else {
        LiveBelowPeak(s, n - 1);
        TotalAppend(s.ledger[..n - 1], e, LiveEntryBytes);
      }
    }
  }

  // ---- totals and budget ----

  lemma CountersTrackStep(budget: Size, s: State, a: Action)
    requires CountersTrack(s) && Step(budget, s, a).Some?
    ensures CountersTrack(Step(budget, s, a).value)
  {
    match a
    case AddAllocated(t) => CounterTracks(s.counters.totalAllocated, s.bytesAllocated, s.threads[t].size);
    case CountAllocation(t) => CounterTracks(s.counters.allocationCount, s.allocations, 1);
    case AddFreed(t) => CounterTracks(s.counters.totalFreed, s.bytesFreed, s.threads[t].size);
    case CountFree(t) => CounterTracks(s.counters.freeCount, s.frees, 1);
    case _ =>
  }

  /** The bytes a step moves between its thread, the ledger and the lifetime totals cancel out. */
  lemma BytesBalanceLocally(budget: Size, s: State, a: Action)
    requires Step(budget, s, a).Some?
    ensures var s' := Step(budget, s, a).value;
            var before, after := s.threads[a.t], s'.threads[a.t];
            s'.bytesAllocated + UntotalledAllocation(after) + s.bytesFreed + UntotalledFree(before)
              + Total(s.ledger, EntryBytes)
            == s.bytesAllocated + UntotalledAllocation(before) + s'.bytesFreed + UntotalledFree(after)
              + Total(s'.ledger, EntryBytes)
  {
    LedgerBytes(budget, s, a);
  }

  lemma CountsBalanceLocally(budget: Size, s: State, a: Action)
    requires Step(budget, s, a).Some?
    ensures var s' := Step(budget, s, a).value;
            var before, after := s.threads[a.t], s'.threads[a.t];
            && s'.allocations + UncountedAllocation(after)
               == s.allocations + UncountedAllocation(before) + OneIf(a.ReadCurrent?)
            && s'.frees + UncountedFree(after) == s.frees + UncountedFree(before) + OneIf(a.BeginFree?)
  {
  }

  lemma BytesBalanceStep(budget: Size, s: State, a: Action)
    requires BytesBalance(s) && Step(budget, s, a).Some?
    ensures BytesBalance(Step(budget, s, a).value)
  {
    var s' := Step(budget, s, a).value;
    StepMovesOneThread(budget, s, a);
    BytesBalanceLocally(budget, s, a);
    TotalUpdate(s.threads, a.t, s'.threads[a.t], UntotalledAllocation);
    TotalUpdate(s.threads, a.t, s'.threads[a.t], UntotalledFree);
  }

  lemma CountsBalanceStep(budget: Size, s: State, a: Action, commits: nat, frees: nat)
    requires CountsBalance(s, commits, frees) && Step(budget, s, a).Some?
    ensures CountsBalance(Step(budget, s, a).value, commits + OneIf(a.ReadCurrent?), frees + OneIf(a.BeginFree?))
  {
    var s' := Step(budget, s, a).value;
    StepMovesOneThread(budget, s, a);
    CountsBalanceLocally(budget, s, a);
    TotalUpdate(s.threads, a.t, s'.threads[a.t], UncountedAllocation);
    TotalUpdate(s.threads, a.t, s'.threads[a.t], UncountedFree);
  }

  lemma BudgetStep(budget: Size, s: State, a: Action)
    requires Conservation(s) && WithinBudget(budget, s) && Step(budget, s, a).Some?
    requires a.SetEnforcement? ==> a.enabled
    ensures WithinBudget(budget, Step(budget, s, a).value)
  {
    CurrentBytesStep(budget, s, a);
    if a.Exchange? {
      assert ThreadIsSound(s.threads[a.t]);
    }
  }

  // ---- main results ----

  /** What holds after a run with this high water and these numbers of commits and frees. */
  ghost predicate Invariant(s: State, high: nat, commits: nat, frees: nat) {
    && Conservation(s) && PeakCovers(s) && BelowHighWater(s, high)
    && CountersTrack(s) && BytesBalance(s) && CountsBalance(s, commits, frees)
  }

  lemma InitialInvariant(threadCount: nat)
    ensures Invariant(Initial(threadCount), 0, 0, 0)
  {
    var s := Initial(threadCount);
    TotalZeroIff(s.threads, ReservedBytes);
    TotalZeroIff(s.threads, UntotalledAllocation);
    TotalZeroIff(s.threads, UntotalledFree);
    TotalZeroIff(s.threads, UncountedAllocation);
    TotalZeroIff(s.threads, UncountedFree);
  }

  lemma StepKeepsInvariant(budget: Size, s: State, a: Action, s': State, high: nat, commits: nat, frees: nat)
    requires Invariant(s, high, commits, frees) && Step(budget, s, a) == Some(s')
    ensures Invariant(s', Max(high, s'.counters.current), commits + OneIf(a.ReadCurrent?), frees + OneIf(a.BeginFree?))
  {
    ConservationStep(budget, s, a);
    PeakStep(budget, s, a);
    CountersTrackStep(budget, s, a);
    BytesBalanceStep(budget, s, a);
    CountsBalanceStep(budget, s, a, commits, frees);
    HighWaterStep(budget, s, a, high);
  }

  lemma {:induction false} RunInvariant(budget: Size, threadCount: nat, run: Run, s: State)
    requires Leads(budget, Initial(threadCount), run, s)
    ensures Invariant(s, HighWater(run.states), Commits(run.actions), FreeCalls(run.actions))
    decreases |run.actions|
  {
    if run.actions == [] {
      InitialInvariant(threadCount);
      assert run.states[..0] == [];
    } else {
      var last := |run.actions| - 1;
      LeadsShorter(budget, Initial(threadCount), run, s);
      RunInvariant(budget, threadCount, Shorter(run), run.states[last]);
      StepKeepsInvariant(budget, run.states[last], run.actions[last], s, HighWater(Shorter(run).states),
                         Commits(run.actions[..last]), FreeCalls(run.actions[..last]));
    }
  }

  /** In every reachable state PeakBytes covers the committed live bytes and is a value CurrentBytes really reached or exceeded. */
  lemma PeakCoversLiveBytes(budget: Size, threadCount: nat, run: Run, s: State)
    requires Leads(budget, Initial(threadCount), run, s)
    ensures LiveBytes(s) <= s.counters.peak <= HighWater(run.states)
  {
    RunInvariant(budget, threadCount, run, s);
    LiveBelowPeak(s, |s.ledger|);
    assert s.ledger[..|s.ledger|] == s.ledger;
  }

  /** In every reachable state CurrentBytes is exactly the reserved plus the allocated bytes, so it never wraps. */
  lemma CurrentBytesIsExact(budget: Size, threadCount: nat, run: Run, s: State)
    requires Leads(budget, Initial(threadCount), run, s)
    ensures s.counters.current == Total(s.threads, ReservedBytes) + Total(s.ledger, EntryBytes)
  {
    RunInvariant(budget, threadCount, run, s);
  }

  /** Enforcement is never switched off. */
  ghost predicate AlwaysEnforced(actions: seq<Action>) {
    forall i :: 0 <= i < |actions| && actions[i].SetEnforcement? ==> actions[i].enabled
  }

  /** While enforcement stays on, no interleaving takes CurrentBytes above a nonzero budget. */
  lemma {:induction false} BudgetIsNeverExceeded(budget: Size, threadCount: nat, run: Run, s: State)
    requires budget != 0
    requires Leads(budget, Initial(threadCount), run, s) && AlwaysEnforced(run.actions)
    ensures WithinBudget(budget, s)
    ensures HighWater(run.states) <= budget
    decreases |run.actions|
  {
    if run.actions == [] {
      assert run.states[..0] == [];
    } else {
      var last := |run.actions| - 1;
      LeadsShorter(budget, Initial(threadCount), run, s);
      BudgetIsNeverExceeded(budget, threadCount, Shorter(run), run.states[last]);
      RunInvariant(budget, threadCount, Shorter(run), run.states[last]);
      BudgetStep(budget, run.states[last], run.actions[last]);
    }
  }

  /** With no call in flight every ledger entry is live and no thread holds bytes. */
  lemma QuiescentIsSettled(s: State, high: nat, commits: nat, frees: nat)
    requires Invariant(s, high, commits, frees) && Quiescent(s)
    ensures s.counters.current == LiveBytes(s)
    ensures s.counters.current == FetchSub(s.counters.totalAllocated, s.counters.totalFreed)
    ensures s.counters.allocationCount == commits % WORD_VALUES && s.counters.freeCount == frees % WORD_VALUES
  {
    TotalZeroIff(s.threads, ReservedBytes);
    TotalZeroIff(s.threads, UntotalledAllocation);
    TotalZeroIff(s.threads, UntotalledFree);
    TotalZeroIff(s.threads, UncountedAllocation);
    TotalZeroIff(s.threads, UncountedFree);
    assert forall i :: 0 <= i < |s.ledger| ==> EntryIsSound(s, s.ledger[i]);
    TotalMonotone(s.ledger, LiveEntryBytes, EntryBytes);
    TotalMonotone(s.ledger, EntryBytes, LiveEntryBytes);
    CounterDifference(s.bytesAllocated, s.bytesFreed, s.counters.current);
  }

  /** With no call in flight, the bytes are the live bytes and the difference of the totals, and the counts are the calls made. */
  lemma QuiescentCounters(budget: Size, threadCount: nat, run: Run, s: State)
    requires Leads(budget, Initial(threadCount), run, s) && Quiescent(s)
    ensures s.counters.current == LiveBytes(s)
    ensures s.counters.current == FetchSub(s.counters.totalAllocated, s.counters.totalFreed)
    ensures s.counters.allocationCount == Commits(run.actions) % WORD_VALUES
    ensures s.counters.freeCount == FreeCalls(run.actions) % WORD_VALUES
  {
    RunInvariant(budget, threadCount, run, s);
    QuiescentIsSettled(s, HighWater(run.states), Commits(run.actions), FreeCalls(run.actions));
  }

  // ---- undisturbed calls as runs ----

  lemma Continue(budget: Size, start: State, run: Run, s: State, a: Action) returns (longer: Run, s': State)
    requires Leads(budget, start, run, s) && Step(budget, s, a).Some?
    ensures Leads(budget, start, longer, s') && Some(s') == Step(budget, s, a)
    ensures longer == Further(run, a, s')
    ensures HighWater(longer.states) == Max(HighWater(run.states), s'.counters.current)
  {
    s' := Step(budget, s, a).value;
    longer := Further(run, a, s');
    LeadsFurther(budget, start, run, s, a, s');
  }

  /** An undisturbed reservation that fits takes effect in three steps. */
  lemma Reserve(budget: Size, start: State, before: Run, s0: State, t: nat, size: Size) returns (run: Run, s: State)
    requires Leads(budget, start, before, s0) && t < |s0.threads| && s0.threads[t].Idle? && size > 0
    requires s0.counters.current + size < WORD_VALUES
    requires s0.enforce && budget != 0 ==> s0.counters.current + size <= budget
    ensures Leads(budget, start, run, s) && run.actions == before.actions + [BeginReserve(t, size), Check(t), Exchange(t)]
    ensures HighWater(run.states) >= s0.counters.current + size
    ensures s == s0.(threads := s0.threads[t := Reserved(size)],
                     counters := s0.counters.(current := s0.counters.current + size))
  {
    CheckedInTwoSteps(budget, s0, t, size);
    var s1, s2;
    run, s1 := Continue(budget, start, before, s0, BeginReserve(t, size));
    run, s2 := Continue(budget, start, run, s1, Check(t));
    ExchangedAtOnce(budget, s0, t, size);
    run, s := Continue(budget, start, run, s2, Exchange(t));
  }

  function AfterCheck(s: State, t: nat, size: Size): State
    requires t < |s.threads| && s.counters.current + size < WORD_VALUES
  {
    Become(s, t, Checked(size, s.counters.current, s.counters.current + size))
  }

  lemma CheckedInTwoSteps(budget: Size, s: State, t: nat, size: Size)
    requires t < |s.threads| && s.threads[t].Idle? && size > 0
    requires s.counters.current + size < WORD_VALUES
    requires s.enforce && budget != 0 ==> s.counters.current + size <= budget
    ensures var next := Step(budget, s, BeginReserve(t, size));
            next.Some? && Step(budget, next.value, Check(t)) == Some(AfterCheck(s, t, size))
  {
    AddFitsIff(s.counters.current, size);
    var begun := Become(s, t, Reserving(size, s.counters.current));
    assert begun.threads[t := AfterCheck(s, t, size).threads[t]] == AfterCheck(s, t, size).threads;
  }

  lemma ExchangedAtOnce(budget: Size, s: State, t: nat, size: Size)
    requires t < |s.threads| && s.counters.current + size < WORD_VALUES
    ensures Step(budget, AfterCheck(s, t, size), Exchange(t))
            == Some(s.(threads := s.threads[t := Reserved(size)],
                       counters := s.counters.(current := s.counters.current + size)))
  {
    assert AfterCheck(s, t, size).threads[t := Reserved(size)] == s.threads[t := Reserved(size)];
  }

  /** An undisturbed commit takes effect in five steps. */
  lemma Commit(budget: Size, start: State, before: Run, s0: State, t: nat, size: Size) returns (run: Run, s: State)
    requires Leads(budget, start, before, s0) && t < |s0.threads| && s0.threads[t] == Reserved(size)
    ensures Leads(budget, start, run, s) && HighWater(run.states) >= HighWater(before.states)
    ensures run.actions == before.actions
              + [ReadCurrent(t), AddAllocated(t), CountAllocation(t), ReadPeak(t), RaisePeak(t)]
    ensures var c := s0.counters;
            s.counters == c.(totalAllocated := FetchAdd(c.totalAllocated, size),
                             allocationCount := FetchAdd(c.allocationCount, 1),
                             peak := Max(c.peak, c.current))
    ensures s.threads == s0.threads[t := Idle]
    ensures s.ledger == Settle(s0.ledger + [Entry(size, s0.counters.current, InFlight(t))], t) && s.enforce == s0.enforce
  {
    var counted;
    run, counted := CommitUpToPeak(budget, start, before, s0, t, size);
    run, s := Continue(budget, start, run, counted, ReadPeak(t));
    run, s := Continue(budget, start, run, s, RaisePeak(t));
  }

  lemma CommitUpToPeak(budget: Size, start: State, before: Run, s0: State, t: nat, size: Size)
    returns (run: Run, s: State)
    requires Leads(budget, start, before, s0) && t < |s0.threads| && s0.threads[t] == Reserved(size)
    ensures Leads(budget, start, run, s) && HighWater(run.states) >= HighWater(before.states)
    ensures run.actions == before.actions + [ReadCurrent(t), AddAllocated(t), CountAllocation(t)]
    ensures s.counters == s0.counters.(totalAllocated := FetchAdd(s0.counters.totalAllocated, size),
                                       allocationCount := FetchAdd(s0.counters.allocationCount, 1))
    ensures s.threads == s0.threads[t := Counted(size, s0.counters.current)]
    ensures s.ledger == s0.ledger + [Entry(size, s0.counters.current, InFlight(t))] && s.enforce == s0.enforce
  {
    run, s := CommitReads(budget, start, before, s0, t, size);
    run, s := Continue(budget, start, run, s, AddAllocated(t));
    run, s := Continue(budget, start, run, s, CountAllocation(t));
    assert s.threads == s0.threads[t := Counted(size, s0.counters.current)];
  }

  lemma CommitReads(budget: Size, start: State, before: Run, s0: State, t: nat, size: Size)
    returns (run: Run, s: State)
    requires Leads(budget, start, before, s0) && t < |s0.threads| && s0.threads[t] == Reserved(size)
    ensures Leads(budget, start, run, s) && HighWater(run.states) >= HighWater(before.states)
    ensures run.actions == before.actions + [ReadCurrent(t)]
    ensures s.counters == s0.counters && s.enforce == s0.enforce
    ensures s.threads == s0.threads[t := Read(size, s0.counters.current)]
    ensures s.ledger == s0.ledger + [Entry(size, s0.counters.current, InFlight(t))]
  {
    run, s := Continue(budget, start, before, s0, ReadCurrent(t));
  }

  /** An undisturbed free takes effect in three steps. */
  lemma Free(budget: Size, start: State, before: Run, s0: State, t: nat, amounts: seq<Size>)
    returns (run: Run, s: State)
    requires Leads(budget, start, before, s0) && t < |s0.threads| && s0.threads[t].Idle? && MayTake(s0.ledger, amounts)
    ensures Leads(budget, start, run, s)
    ensures run.actions == before.actions + [BeginFree(t, amounts), AddFreed(t), CountFree(t)]
    ensures var c := s0.counters;
            s.counters == c.(current := FetchSub(c.current, Total(amounts, Amount)),
                             totalFreed := FetchAdd(c.totalFreed, Total(amounts, Amount)),
                             freeCount := FetchAdd(c.freeCount, 1))
    ensures s.threads == s0.threads[t := Idle] && s.ledger == Taken(s0.ledger, amounts)
  {
    run, s := Continue(budget, start, before, s0, BeginFree(t, amounts));
    run, s := Continue(budget, start, run, s, AddFreed(t));
    run, s := Continue(budget, start, run, s, CountFree(t));
  }
}
