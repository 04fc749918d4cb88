/**
 The POSIX event as a monitor, in automatic and manual reset mode.  A signal of an automatic event
 releases at most one wait and is never lost while somebody sleeps; a signaled manual event lets
 nobody sleep.
 */
module Event {
  import opened ConditionVariable
  import Sums
  import opened Options
  import opened Runs

  datatype EventResetMode = Auto | Manual

  datatype State = State(
    resetMode: EventResetMode,
    signaled: bool,
    threads: seq<Thread>,
    signals: nat,    // SignalEvent calls so far
    passed: nat)     // successful waits so far

  datatype Action =
    | SignalEvent(t: nat, chosen: seq<bool>)
    | ResetEvent(t: nat)
    | WaitEvent(t: nat)                 // up to its first wait or its return
    | WaitEventFor(t: nat)              // with a nonzero timeout, likewise
    | TryWaitEvent(t: nat)
    | WakeSpuriously(t: nat)
    | PassDeadline(t: nat)
    | Rerun(t: nat, timeout: bool)      // reacquire the mutex and leave the wait

  function Initialize(resetMode: EventResetMode, initiallySignaled: bool, threadCount: nat): State {
    State(resetMode, initiallySignaled, seq(threadCount, _ => Outside), 0, 0)
  }

  /** A successful wait consumes the signal of an automatic event. */
  function Pass(s: State, t: nat): State
    requires t < |s.threads|
  {
    s.(signaled := s.resetMode == Manual && s.signaled, passed := s.passed + 1, threads := s.threads[t := Outside])
  }

  function PassOr(s: State, t: nat, otherwise: Thread): State
    requires t < |s.threads|
  {
    if s.signaled then Pass(s, t) else s.(threads := s.threads[t := otherwise])
  }

  function Signal(s: State, chosen: seq<bool>): Option<State> {
    var s' := s.(signaled := true, signals := s.signals + 1);
    match s.resetMode
    case Manual => Some(s'.(threads := Wake(s.threads, Everybody(s.threads))))
    case Auto => if SignalMayChoose(s.threads, chosen) then Some(s'.(threads := Wake(s.threads, chosen))) else None
  }

  function Step(s: State, a: Action): Option<State> {
    if a.t >= |s.threads| then None
    else
      var thread := s.threads[a.t];
      match a
      case SignalEvent(t, chosen) => if thread.Outside? then Signal(s, chosen) else None
      case ResetEvent(t) => if thread.Outside? then Some(s.(signaled := false)) else None
      case WaitEvent(t) => if thread.Outside? then Some(PassOr(s, t, Asleep(false))) else None
      case WaitEventFor(t) => if thread.Outside? then Some(PassOr(s, t, Asleep(true))) else None
      case TryWaitEvent(t) => if thread.Outside? then Some(PassOr(s, t, Outside)) else None
      case WakeSpuriously(t) =>
        if thread.Asleep? then Some(s.(threads := s.threads[t := Interrupted(thread.timed, false)])) else None
      case PassDeadline(t) =>
        if thread.Asleep? && thread.timed
        then Some(s.(threads := s.threads[t := Interrupted(true, true)])) else None
      case Rerun(t, timeout) =>
        if MayReport(thread, timeout)
        then Some(PassOr(s, t, if timeout then Outside else Asleep(thread.timed))) else None
  }

  function Unconsumed(s: State): nat {
    if s.signaled then 1 else 0
  }

  ghost predicate Invariant(s: State, initiallySignaled: bool) {
    match s.resetMode
    case Auto =>
      && s.passed + Unconsumed(s) <= s.signals + (if initiallySignaled then 1 else 0)
      && (s.signaled && Sleepers(s.threads) > 0 ==> Pending(s.threads) > 0)
    case Manual =>
      s.signaled ==> Sleepers(s.threads) == 0
  }

  lemma SignalKeepsInvariant(s: State, chosen: seq<bool>, initiallySignaled: bool)
    requires Invariant(s, initiallySignaled) && Signal(s, chosen).Some?
    ensures Invariant(Signal(s, chosen).value, initiallySignaled)
  {
    match s.resetMode
    case Manual => BroadcastEmptiesQueue(s.threads);
    case Auto => WakeConserves(s.threads, chosen);
  }

  lemma PassOrKeepsInvariant(s: State, t: nat, otherwise: Thread, initiallySignaled: bool)
    requires t < |s.threads| && !s.threads[t].Asleep?
    requires otherwise.Outside? || otherwise.Asleep?
    requires Invariant(s, initiallySignaled)
    ensures Invariant(PassOr(s, t, otherwise), initiallySignaled)
  {
    Move(s.threads, t, Outside);
    Move(s.threads, t, otherwise);
  }

  lemma StepKeepsInvariant(s: State, a: Action, initiallySignaled: bool)
    requires Invariant(s, initiallySignaled) && Step(s, a).Some?
    ensures Invariant(Step(s, a).value, initiallySignaled)
    ensures Step(s, a).value.resetMode == s.resetMode
  {
    var thread := s.threads[a.t];
    match a
    case SignalEvent(t, chosen) => SignalKeepsInvariant(s, chosen, initiallySignaled);
    case ResetEvent(t) =>
    case WaitEvent(t) => PassOrKeepsInvariant(s, t, Asleep(false), initiallySignaled);
    case WaitEventFor(t) => PassOrKeepsInvariant(s, t, Asleep(true), initiallySignaled);
    case TryWaitEvent(t) => PassOrKeepsInvariant(s, t, Outside, initiallySignaled);
    case WakeSpuriously(t) => Move(s.threads, t, Interrupted(thread.timed, false));
    case PassDeadline(t) => Move(s.threads, t, Interrupted(true, true));
    case Rerun(t, timeout) =>
      PassOrKeepsInvariant(s, t, if timeout then Outside else Asleep(thread.timed), initiallySignaled);
  }

  /** The actions lead from a freshly initialized event to this state. */
  ghost predicate Reaches(
    resetMode: EventResetMode, initiallySignaled: bool, threadCount: nat, actions: seq<Action>, s: State)
  {
    Execute(Step, Initialize(resetMode, initiallySignaled, threadCount), actions) == Some(s)
  }

  lemma {:induction false} RunKeepsInvariant(
    resetMode: EventResetMode, initiallySignaled: bool, threadCount: nat, actions: seq<Action>, s: State)
    requires Reaches(resetMode, initiallySignaled, threadCount, actions, s)
    ensures s.resetMode == resetMode && Invariant(s, initiallySignaled)
    decreases |actions|
  {
    if actions == [] {
      AllOutside(s.threads);
    } else {
      var last := |actions| - 1;
      var m := Execute(Step, Initialize(resetMode, initiallySignaled, threadCount), actions[..last]).value;
      RunKeepsInvariant(resetMode, initiallySignaled, threadCount, actions[..last], m);
      StepKeepsInvariant(m, actions[last], initiallySignaled);
    }
  }

  /** A wait that its deadline ended reports the timeout, and one that ended spuriously does not. */
  lemma InterruptedReports(s: State, t: nat)
    requires t < |s.threads| && s.threads[t].Asleep?
    ensures var woken := Step(s, WakeSpuriously(t));
            woken.Some? && Step(woken.value, Rerun(t, false)).Some? && Step(woken.value, Rerun(t, true)).None?
    ensures var passed := Step(s, PassDeadline(t));
            if s.threads[t].timed
            then passed.Some? && Step(passed.value, Rerun(t, true)).Some? && Step(passed.value, Rerun(t, false)).None?
            else passed.None?
  {
  }

  // ---- main results ----

  /** Automatic mode over every run: waits never outnumber signals, and a signal waits for a sleeper only with a wakeup pending. */
  lemma AutoEventIsSafe(initiallySignaled: bool, threadCount: nat, actions: seq<Action>, s: State)
    requires Reaches(Auto, initiallySignaled, threadCount, actions, s)
    ensures s.passed + Unconsumed(s) <= s.signals + (if initiallySignaled then 1 else 0)
    ensures s.signaled && Sleepers(s.threads) > 0 ==> Pending(s.threads) > 0
  {
    RunKeepsInvariant(Auto, initiallySignaled, threadCount, actions, s);
  }

  /** Manual mode over every run: while the event is signaled nobody sleeps. */
  lemma ManualEventIsSafe(initiallySignaled: bool, threadCount: nat, actions: seq<Action>, s: State)
    requires Reaches(Manual, initiallySignaled, threadCount, actions, s)
    ensures s.signaled ==> forall t :: 0 <= t < |s.threads| ==> !s.threads[t].Asleep?
  {
    RunKeepsInvariant(Manual, initiallySignaled, threadCount, actions, s);
    Sums.TotalZeroIff(s.threads, CountAsleep);
  }

  /** A signaled automatic event with a sleeper has a notified thread that consumes the signal, whatever its wait reports. */
  lemma WakeupConsumesSignal(initiallySignaled: bool, threadCount: nat, actions: seq<Action>, s: State) returns (t: nat)
    requires Reaches(Auto, initiallySignaled, threadCount, actions, s)
    requires s.signaled && Sleepers(s.threads) > 0
    ensures t < |s.threads| && s.threads[t].Notified? && !Pass(s, t).signaled
    ensures Step(s, Rerun(t, false)) == Some(Pass(s, t))
    ensures s.threads[t].timed ==> Step(s, Rerun(t, true)) == Some(Pass(s, t))
  {
    RunKeepsInvariant(Auto, initiallySignaled, threadCount, actions, s);
    t := FindPending(s.threads);
  }

  /** Thread t takes no step of its own. */
  predicate NeverReruns(actions: seq<Action>, t: nat) {
    forall i :: 0 <= i < |actions| ==> !(actions[i].Rerun? && actions[i].t == t)
  }

  predicate NeverReset(actions: seq<Action>) {
    forall i :: 0 <= i < |actions| ==> !actions[i].ResetEvent?
  }

  /**
   A notified waiter of a manual event, with or without a deadline, passes exactly when the event is signaled as it
   reruns, whatever its wait reports; it is, if it was when the waiter was notified and nobody has reset it since.
   */
  lemma ManualWakeupOutcome(s: State, t: nat, actions: seq<Action>, timeout: bool)
    requires s.resetMode == Manual && t < |s.threads| && s.threads[t].Notified? && MayReport(s.threads[t], timeout)
    requires NeverReruns(actions, t) && Execute(Step, s, actions).Some?
    ensures var m := Execute(Step, s, actions).value;
            && t < |m.threads| && m.threads[t] == s.threads[t]
            && (Step(m, Rerun(t, timeout)) == Some(Pass(m, t)) <==> m.signaled)
            && (s.signaled && NeverReset(actions) ==> m.signaled)
  {
    NotifiedStaysNotified(s, t, actions);
  }

  lemma {:induction false} NotifiedStaysNotified(s: State, t: nat, actions: seq<Action>)
    requires s.resetMode == Manual && t < |s.threads| && s.threads[t].Notified?
    requires NeverReruns(actions, t) && Execute(Step, s, actions).Some?
    ensures var m := Execute(Step, s, actions).value;
            && m.resetMode == Manual
            && t < |m.threads| && m.threads[t] == s.threads[t]
            && (s.signaled && NeverReset(actions) ==> m.signaled)
  {
    if actions != [] {
      var last := |actions| - 1;
      NotifiedStaysNotified(s, t, actions[..last]);
      var m := Execute(Step, s, actions[..last]).value;
      WakeLength(m.threads, Everybody(m.threads));
      assert !(actions[last].Rerun? && actions[last].t == t);
    }
  }
}
