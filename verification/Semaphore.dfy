/**
 The POSIX counting semaphore as a monitor.  Waits may end spuriously, by deadline or after a barging
 acquirer took the count; over every run permits are conserved and no wakeup is lost.
 */
module Semaphore {
  import opened ConditionVariable
  import opened Options
  import opened Runs
  import opened Words

  datatype State = State(
    count: Uint32,
    maximumCount: Uint32,
    threads: seq<Thread>,
    released: nat,   // permits added by accepted releases so far
    acquired: nat)   // successful acquires so far

  datatype Action =
    | Acquire(t: nat)                     // AcquireSemaphore up to its first wait or its return
    | AcquireFor(t: nat)                  // AcquireSemaphoreFor with a nonzero timeout, likewise
    | TryAcquire(t: nat)
    | Release(t: nat, permits: Uint32, chosen: seq<bool>)
    | WakeSpuriously(t: nat)
    | PassDeadline(t: nat)
    | Rerun(t: nat, timeout: bool)        // reacquire the mutex and leave the wait

  /** The state after initialization, or None for a rejected description. */
  function Initialize(initialCount: Uint32, maximumCount: Uint32, threadCount: nat): Option<State> {
    if maximumCount == 0 || initialCount > maximumCount then None
    else Some(State(initialCount, maximumCount, seq(threadCount, _ => Outside), 0, 0))
  }

  function Subtract(a: Uint32, b: Uint32): Uint32 {
    (a - b) % UINT32_VALUES
  }

  function Add(a: Uint32, b: Uint32): Uint32 {
    (a + b) % UINT32_VALUES
  }

  /** Takes one permit and leaves the monitor. */
  function Take(s: State, t: nat): State
    requires t < |s.threads|
  {
    s.(count := Subtract(s.count, 1), acquired := s.acquired + 1, threads := s.threads[t := Outside])
  }

  /** The wait loop: take a permit when there is one, otherwise fall asleep or give up. */
  function TakeOr(s: State, t: nat, otherwise: Thread): State
    requires t < |s.threads|
  {
    if s.count > 0 then Take(s, t) else s.(threads := s.threads[t := otherwise])
  }

  function ReleasePermits(s: State, permits: Uint32, chosen: seq<bool>): Option<State> {
    if permits == 0 || permits > Subtract(s.maximumCount, s.count) then
      Some(s)
    else
      var s' := s.(count := Add(s.count, permits), released := s.released + permits);
      if permits == 1 then
        if SignalMayChoose(s.threads, chosen) then Some(s'.(threads := Wake(s.threads, chosen))) else None
      else
        Some(s'.(threads := Wake(s.threads, Everybody(s.threads))))
  }

  /** The step an action stands for, if it can happen in this state. */
  function Step(s: State, a: Action): Option<State> {
    if a.t >= |s.threads| then None
    else
      var thread := s.threads[a.t];
      match a
      case Acquire(t) => if thread.Outside? then Some(TakeOr(s, t, Asleep(false))) else None
      case AcquireFor(t) => if thread.Outside? then Some(TakeOr(s, t, Asleep(true))) else None
      case TryAcquire(t) => if thread.Outside? then Some(TakeOr(s, t, Outside)) else None
      case Release(t, permits, chosen) =>
        if thread.Outside? then ReleasePermits(s, permits, chosen) else None
      case WakeSpuriously(t) =>
        if thread.Asleep? then Some(s.(threads := s.threads[t := Interrupted(thread.timed, false)])) else None
      case PassDeadline(t) =>
        if thread.Asleep? && thread.timed
        then Some(s.(threads := s.threads[t := Interrupted(true, true)])) else None
      case Rerun(t, timeout) =>
        if MayReport(thread, timeout)
        then Some(TakeOr(s, t, if timeout then Outside else Asleep(thread.timed))) else None
  }

  // ---- the invariant ----

  ghost predicate Conserves(s: State, initialCount: nat) {
    && s.count <= s.maximumCount
    && s.count + s.acquired == initialCount + s.released
  }

  /** While somebody sleeps, every available permit has a notified thread on its way to it. */
  ghost predicate NoLostWakeup(s: State) {
    Sleepers(s.threads) > 0 ==> s.count <= Pending(s.threads)
  }

  /** The release test subtracts without wrapping exactly because the count respects its maximum. */
  lemma ReleaseTestIsExact(s: State, permits: Uint32)
    requires s.count <= s.maximumCount
    ensures permits > Subtract(s.maximumCount, s.count) <==> s.count + permits > s.maximumCount
    ensures s.count + permits <= s.maximumCount ==> Add(s.count, permits) == s.count + permits
  {
  }

  lemma ReleaseKeepsNoLostWakeup(s: State, permits: Uint32, chosen: seq<bool>, initialCount: nat)
    requires Conserves(s, initialCount) && NoLostWakeup(s)
    requires ReleasePermits(s, permits, chosen).Some?
    ensures var s' := ReleasePermits(s, permits, chosen).value;
            Conserves(s', initialCount) && NoLostWakeup(s')
  {
    ReleaseTestIsExact(s, permits);
    if permits == 1 && s.count + permits <= s.maximumCount {
      WakeConserves(s.threads, chosen);
    } else {
      BroadcastEmptiesQueue(s.threads);
    }
  }

  lemma TakeOrKeepsNoLostWakeup(s: State, t: nat, otherwise: Thread, initialCount: nat)
    requires t < |s.threads| && !s.threads[t].Asleep?
    requires otherwise.Outside? || otherwise.Asleep?
    requires Conserves(s, initialCount) && NoLostWakeup(s)
    ensures Conserves(TakeOr(s, t, otherwise), initialCount) && NoLostWakeup(TakeOr(s, t, otherwise))
  {
    Move(s.threads, t, Outside);
    Move(s.threads, t, otherwise);
  }

  lemma StepKeepsInvariant(s: State, a: Action, initialCount: nat)
    requires Conserves(s, initialCount) && NoLostWakeup(s) && Step(s, a).Some?
    ensures Conserves(Step(s, a).value, initialCount) && NoLostWakeup(Step(s, a).value)
  {
    var thread := s.threads[a.t];
    match a
    case Acquire(t) => TakeOrKeepsNoLostWakeup(s, t, Asleep(false), initialCount);
    case AcquireFor(t) => TakeOrKeepsNoLostWakeup(s, t, Asleep(true), initialCount);
    case TryAcquire(t) => TakeOrKeepsNoLostWakeup(s, t, Outside, initialCount);
    case Release(t, permits, chosen) => ReleaseKeepsNoLostWakeup(s, permits, chosen, initialCount);
    case WakeSpuriously(t) => Move(s.threads, t, Interrupted(thread.timed, false));
    case PassDeadline(t) => Move(s.threads, t, Interrupted(true, true));
    case Rerun(t, timeout) =>
      TakeOrKeepsNoLostWakeup(s, t, if timeout then Outside else Asleep(thread.timed), initialCount);
  }

  /** A wait that its deadline ended reports the timeout, and one that ended spuriously does not. */
  lemma InterruptedReports(s: State, t: nat)
    requires t < |s.threads| && s.threads[t].Asleep?
    ensures var woken := Step(s, WakeSpuriously(t));
            woken.Some? && Step(woken.value, Rerun(t, false)).Some? && Step(woken.value, Rerun(t, true)).None?
    ensures var passed := Step(s, PassDeadline(t));
            if s.threads[t].timed
            then passed.Some? && Step(passed.value, Rerun(t, true)).Some? && Step(passed.value, Rerun(t, false)).None?
            else passed.None?
  {
  }

  // ---- main results ----

  /** The actions lead from a freshly initialized semaphore to this state. */
  ghost predicate Reaches(initialCount: Uint32, maximumCount: Uint32, threadCount: nat, actions: seq<Action>, s: State) {
    var start := Initialize(initialCount, maximumCount, threadCount);
    start.Some? && Execute(Step, start.value, actions) == Some(s)
  }

  /** Over every run: permits are conserved, the count stays in range, and no wakeup is lost. */
  lemma {:induction false} EveryRunIsSafe(
    initialCount: Uint32, maximumCount: Uint32, threadCount: nat, actions: seq<Action>, s: State)
    requires Reaches(initialCount, maximumCount, threadCount, actions, s)
    ensures s.maximumCount == maximumCount
    ensures s.count == initialCount + s.released - s.acquired
    ensures s.count <= maximumCount
    ensures NoLostWakeup(s)
    decreases |actions|
  {
    if actions == [] {
      AllOutside(s.threads);
    } else {
      var last := |actions| - 1;
      var m := Execute(Step, Initialize(initialCount, maximumCount, threadCount).value, actions[..last]).value;
      EveryRunIsSafe(initialCount, maximumCount, threadCount, actions[..last], m);
      StepKeepsInvariant(m, actions[last], initialCount);
    }
  }

  /** Once every notified thread has rerun, a thread is still asleep only if every permit ever issued was taken. */
  lemma SleepersMeanAllPermitsTaken(
    initialCount: Uint32, maximumCount: Uint32, threadCount: nat, actions: seq<Action>, s: State)
    requires Reaches(initialCount, maximumCount, threadCount, actions, s)
    requires Sleepers(s.threads) > 0 && Pending(s.threads) == 0
    ensures s.acquired == initialCount + s.released
  {
    EveryRunIsSafe(initialCount, maximumCount, threadCount, actions, s);
  }

  /** When a permit is available and somebody sleeps, a notified thread exists, and whatever its wait reports it takes the permit. */
  lemma WakeupTakesPermit(
    initialCount: Uint32, maximumCount: Uint32, threadCount: nat, actions: seq<Action>, s: State) returns (t: nat)
    requires Reaches(initialCount, maximumCount, threadCount, actions, s)
    requires Sleepers(s.threads) > 0 && s.count > 0
    ensures t < |s.threads| && s.threads[t].Notified?
    ensures Step(s, Rerun(t, false)) == Some(Take(s, t))
    ensures s.threads[t].timed ==> Step(s, Rerun(t, true)) == Some(Take(s, t))
  {
    EveryRunIsSafe(initialCount, maximumCount, threadCount, actions, s);
    t := FindPending(s.threads);
  }

  // ---- why several permits are broadcast ----

  lemma BothFallAsleep(maximumCount: Uint32)
    requires maximumCount >= 2
    ensures Reaches(0, maximumCount, 2, [Acquire(0), Acquire(1)],
                    State(0, maximumCount, [Asleep(false), Asleep(false)], 0, 0))
  {
    var start := Initialize(0, maximumCount, 2).value;
    assert start.threads == [Outside, Outside];
    assert start.threads[0 := Asleep(false)] == [Asleep(false), Outside];
    assert [Asleep(false), Outside][1 := Asleep(false)] == [Asleep(false), Asleep(false)];
    assert [Acquire(0), Acquire(1)][..1] == [Acquire(0)] && [Acquire(0)][..0] == [];
    assert Execute(Step, start, []) == Some(start);
    assert Execute(Step, start, [Acquire(0)]) == Some(start.(threads := [Asleep(false), Outside]));
  }

  /** After two threads found no permit, a signal that wakes one of them for two permits would strand the other. */
  lemma SignalIsNotEnoughForTwo(maximumCount: Uint32) returns (s: State)
    requires maximumCount >= 2
    ensures Reaches(0, maximumCount, 2, [Acquire(0), Acquire(1)], s) && SignalMayChoose(s.threads, [true, false])
    ensures var signalled := s.(count := 2, threads := Wake(s.threads, [true, false]), released := 2);
            && !NoLostWakeup(signalled)
            && var rerun := Step(signalled, Rerun(0, false));
               rerun.Some? && !NoLostWakeup(rerun.value)
  {
    var threads := [Asleep(false), Asleep(false)];
    s := State(0, maximumCount, threads, 0, 0);
    BothFallAsleep(maximumCount);
    assert threads[0].Asleep? && [true, false][0];
    var woken := Wake(threads, [true, false]);
    assert woken == [Notified(false), Asleep(false)];
    assert Sleepers([Asleep(false)]) == 1 && Pending([Asleep(false)]) == 0;
    assert Sleepers(woken) == 1 && Pending(woken) == 1;
    var rerun := [Outside, Asleep(false)];
    assert rerun[1..] == [Asleep(false)];
    assert Sleepers(rerun) == 1 && Pending(rerun) == 0;
    assert woken[0 := Outside] == rerun;
  }
}
