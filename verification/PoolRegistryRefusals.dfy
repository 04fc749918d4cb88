/** What a pool's count of exceeded budgets says: the reservations that the budget test refused, in any run. */
module PoolRegistryRefusals {
  import opened AtomicWord
  import opened Options
  import opened PoolRegistryProtocol
  import opened PoolRegistryRuns
  import opened Words

  /** The step is a test that finds the bytes fit a word but not the budget. */
  predicate RefusesForBudget(budget: Size, s: State, a: Action) {
    && a.Check? && a.t < |s.threads| && s.threads[a.t].Reserving?
    && s.threads[a.t].observed + s.threads[a.t].size < WORD_VALUES
    && s.enforce && budget != 0 && s.threads[a.t].observed + s.threads[a.t].size > budget
  }

  function BudgetRefusals(budget: Size, run: Run): nat
    requires |run.states| == |run.actions| + 1
    decreases |run.actions|
  {
    if run.actions == [] then 0
    else
      var last := |run.actions| - 1;
      BudgetRefusals(budget, Shorter(run)) + OneIf(RefusesForBudget(budget, run.states[last], run.actions[last]))
  }

  lemma RefusalStep(budget: Size, s: State, a: Action, s': State)
    requires Step(budget, s, a) == Some(s')
    ensures s'.counters.budgetExceeded
            == FetchAdd(s.counters.budgetExceeded, OneIf(RefusesForBudget(budget, s, a)))
  {
    if a.Check? {
      AddFitsIff(s.threads[a.t].observed, s.threads[a.t].size);
    }
  }

  /** In every run the count of exceeded budgets is the number of reservations that were refused for the budget. */
  lemma {:induction false} RefusalsAreCounted(budget: Size, threadCount: nat, run: Run, s: State)
    requires Leads(budget, Initial(threadCount), run, s)
    ensures s.counters.budgetExceeded == BudgetRefusals(budget, run) % WORD_VALUES
    decreases |run.actions|
  {
    if run.actions != [] {
      var last := |run.actions| - 1;
      LeadsShorter(budget, Initial(threadCount), run, s);
      RefusalsAreCounted(budget, threadCount, Shorter(run), run.states[last]);
      RefusalStep(budget, run.states[last], run.actions[last], s);
      CounterTracks(run.states[last].counters.budgetExceeded, BudgetRefusals(budget, Shorter(run)),
                    OneIf(RefusesForBudget(budget, run.states[last], run.actions[last])));
    }
  }
}
