/**
 The POSIX semaphore's calls as they are written: a mutex-protected count, wait loops on a condition variable,
 and whatever the rest of the system does while a call waits.  Each call only prolongs a run of the monitor,
 so the count is conserved and no wakeup is lost at every moment.
 */
module SemaphoreCalls {
  import opened ConditionVariable
  import opened Options
  import opened Runs
  import opened Semaphore
  import opened Words

  /** What the rest of the system does during a wait, and what a notified timed waiter is told. */
  datatype Wait = Wait(actions: seq<Action>, reportsTimeout: bool)

  function WaitAt(waits: seq<Wait>, i: nat): Wait {
    if i < |waits| then waits[i] else Wait([], false)
  }

  /** Everything but a step the waiting thread takes itself. */
  predicate DuringWait(actions: seq<Action>, t: nat) {
    forall i :: 0 <= i < |actions| ==> actions[i].t == t ==> actions[i].WakeSpuriously? || actions[i].PassDeadline?
  }

  lemma StepKeepsShape(s: State, a: Action)
    requires Step(s, a).Some?
    ensures |Step(s, a).value.threads| == |s.threads| && Step(s, a).value.maximumCount == s.maximumCount
  {
    if a.Release? {
      if |a.chosen| == |s.threads| {
        WakeLength(s.threads, a.chosen);
      }
      WakeLength(s.threads, Everybody(s.threads));
    }
  }

  /** A sleeper stays in its wait until it reruns, and a timed wait stays timed. */
  lemma SleeperStaysInWait(s: State, a: Action, t: nat, timed: bool)
    requires Step(s, a).Some? && InWait(s.threads, t, timed)
    requires a.t == t ==> a.WakeSpuriously? || a.PassDeadline?
    ensures InWait(Step(s, a).value.threads, t, timed)
  {
    StepKeepsShape(s, a);
    if a.Release? {
      if |a.chosen| == |s.threads| {
        WakeKeepsWaits(s.threads, a.chosen, t, timed);
      }
      WakeKeepsWaits(s.threads, Everybody(s.threads), t, timed);
    }
  }

  lemma {:induction false} WaitKeepsThread(s: State, actions: seq<Action>, t: nat, timed: bool)
    requires DuringWait(actions, t) && Execute(Step, s, actions).Some? && InWait(s.threads, t, timed)
    ensures var m := Execute(Step, s, actions).value;
            |m.threads| == |s.threads| && m.maximumCount == s.maximumCount && InWait(m.threads, t, timed)
  {
    if actions != [] {
      var last := |actions| - 1;
      WaitKeepsThread(s, actions[..last], t, timed);
      var m := Execute(Step, s, actions[..last]).value;
      StepKeepsShape(m, actions[last]);
      assert actions[last].t == t ==> actions[last].WakeSpuriously? || actions[last].PassDeadline?;
      SleeperStaysInWait(m, actions[last], t, timed);
    }
  }

  /** The state after an accepted release. */
  function Released(s: State, permits: Uint32, chosen: seq<bool>): State
    requires |chosen| == |s.threads|
  {
    s.(count := Add(s.count, permits), released := s.released + permits,
       threads := Wake(s.threads, if permits == 1 then chosen else Everybody(s.threads)))
  }

  lemma ReleaseStep(s: State, t: nat, permits: Uint32, chosen: seq<bool>)
    requires t < |s.threads| && s.threads[t].Outside? && SignalMayChoose(s.threads, chosen)
    requires 0 < permits <= Subtract(s.maximumCount, s.count)
    ensures Step(s, Release(t, permits, chosen)) == Some(Released(s, permits, chosen))
  {
  }

  /** The state after the rest of the system has run; a script that cannot happen as a whole is ignored. */
  function AfterOthers(s: State, t: nat, actions: seq<Action>): State {
    var after := Execute(Step, s, actions);
    if DuringWait(actions, t) && after.Some? then after.value else s
  }

  /** How a wait ends: the state, whether the call returned, and whether it got what it waited for. */
  datatype WaitEnd = WaitEnd(state: State, returned: bool, success: bool)

  /** What the wait loop comes to from its test on, given what its last wait reported and what the system will do. */
  function WaitLoop(s: State, t: nat, timed: bool, timedOut: bool, waits: seq<Wait>): WaitEnd
    decreases |waits|
  {
    if t >= |s.threads| then WaitEnd(s, false, false)
    else if s.count > 0 then WaitEnd(Take(s, t), true, true)
    else if timedOut then WaitEnd(s.(threads := s.threads[t := Outside]), true, false)
    else
      var asleep := s.(threads := s.threads[t := Asleep(timed)]);
      if waits == [] then WaitEnd(asleep, false, false)
      else
        var after := AfterOthers(asleep, t, waits[0].actions);
        if t >= |after.threads| || after.threads[t].Asleep? || after.threads[t].Outside? then WaitEnd(after, false, false)
        else WaitLoop(after, t, timed, Reported(after.threads[t], waits[0].reportsTimeout), waits[1..])
  }

  /** What a wait that came back reports; a notified timed waiter may be told either. */
  function Reported(thread: Thread, reportsTimeout: bool): bool {
    match thread
    case Notified(timed) => timed && reportsTimeout
    case Interrupted(_, timedOut) => timedOut
    case _ => false
  }

  class NativeSemaphore {
    const threadCount: nat
    var initialized: bool
    var state: State
    ghost var initialCount: Uint32
    ghost var history: seq<Action>

    /** The state is what the history of all threads' steps leads to. */
    ghost predicate Valid()
      reads this
    {
      initialized ==>
        var start := Initialize(initialCount, state.maximumCount, threadCount);
        start.Some? && Execute(Step, start.value, history) == Some(state) && |state.threads| == threadCount
    }

    /** The last step took a permit for thread t. */
    ghost predicate JustTook(before: State, a: Action, t: nat)
      reads this
    {
      EndsWith(before, a) && t < |before.threads| && before.count > 0 && state == Take(before, t)
    }

    /** The last step ended a timed wait of thread t that found no permit. */
    ghost predicate JustGaveUp(before: State, t: nat)
      reads this
    {
      && EndsWith(before, Rerun(t, true)) && t < |before.threads| && before.count == 0
      && state == before.(threads := before.threads[t := Outside])
    }

    /** The history's last step was this one, taken in this state. */
    ghost predicate EndsWith(before: State, a: Action)
      reads this
    {
      && history != [] && history[|history| - 1] == a
      && before.maximumCount == state.maximumCount
      && var start := Initialize(initialCount, state.maximumCount, threadCount);
         start.Some? && Execute(Step, start.value, history[..|history| - 1]) == Some(before)
    }

    constructor (threadCount: nat)
      ensures Valid() && !initialized && this.threadCount == threadCount
    {
      this.threadCount := threadCount;
      initialized, state := false, State(0, 0, [], 0, 0);
      initialCount, history := 0, [];
    }

    /** Whatever calls led here, permits are conserved and no wakeup is lost. */
    lemma IsSafe()
      requires Valid() && initialized
      ensures state.count == initialCount + state.released - state.acquired && state.count <= state.maximumCount
      ensures NoLostWakeup(state)
    {
      EveryRunIsSafe(initialCount, state.maximumCount, threadCount, history, state);
    }

    method InitializeSemaphore(initial: Uint32, maximum: Uint32) returns (ok: bool)
      requires Valid()
      modifies this
      ensures Valid()
      ensures ok <==> old(initialized) || (maximum > 0 && initial <= maximum)
      ensures old(initialized) || !ok ==> state == old(state) && history == old(history) && initialized == old(initialized)
      ensures !old(initialized) && ok ==>
        && initialized && initialCount == initial && history == []
        && state == State(initial, maximum, state.threads, 0, 0)
        && |state.threads| == threadCount && forall t :: 0 <= t < threadCount ==> state.threads[t] == Outside
    {
      if initialized {
        return true;
      }
      if maximum == 0 || initial > maximum {
        return false;
      }
      state := State(initial, maximum, seq(threadCount, _ => Outside), 0, 0);
      initialized := true;
      initialCount, history := initial, [];
      return true;
    }

    /** One critical section was run. */
    ghost method Record(a: Action, before: State)
      requires initialized && state.maximumCount == before.maximumCount
      requires var start := Initialize(initialCount, before.maximumCount, threadCount);
               start.Some? && Execute(Step, start.value, history) == Some(before)
      requires |before.threads| == threadCount && Step(before, a) == Some(state)
      modifies `history
      ensures Valid() && history == old(history) + [a] && EndsWith(before, a)
    {
      StepKeepsShape(before, a);
      var start := Initialize(initialCount, before.maximumCount, threadCount).value;
      ExecuteConcat(Step, start, history, [a]);
      assert [a][..0] == [];
      history := history + [a];
      assert history[..|history| - 1] == old(history);
    }

    /** pthread_cond_wait and its timed form: sleeps, lets the system run, and comes back unless nothing woke the thread. */
    method CondWait(t: nat, timed: bool, ghost entry: Action, wait: Wait) returns (returned: bool, timedOut: bool)
      requires Valid() && initialized && t < threadCount
      requires Step(state, entry) == Some(state.(threads := state.threads[t := Asleep(timed)]))
      modifies `state, `history
      ensures Valid() && old(history) <= history && state.maximumCount == old(state).maximumCount
      ensures InWait(state.threads, t, timed) && (returned <==> !state.threads[t].Asleep?)
      ensures returned ==> MayReport(state.threads[t], timedOut)
      ensures wait.actions == [] ==> !returned
      ensures state == AfterOthers(old(state).(threads := old(state).threads[t := Asleep(timed)]), t, wait.actions)
      ensures timedOut == (returned && Reported(state.threads[t], wait.reportsTimeout))
    {
      FallAsleep(t, timed, entry);
      RunOthers(t, timed, wait.actions);
      match state.threads[t]
      case Notified(_) => return true, timed && wait.reportsTimeout;
      case Interrupted(_, out) => return true, out;
      case _ => return false, false;
    }

    /** The step that the test of the wait loop belongs to: the call's first one, or a return from a wait. */
    ghost function EntryAt(t: nat, timed: bool, i: nat, timedOut: bool): Action {
      if i > 0 then Rerun(t, timedOut) else if timed then AcquireFor(t) else Acquire(t)
    }

    /** Thread t is about to test, for the first time or after a wait. */
    ghost predicate IsAtTest(t: nat, timed: bool, i: nat, timedOut: bool)
      reads `state
    {
      if i == 0 then t < |state.threads| && state.threads[t].Outside? && !timedOut
      else InWait(state.threads, t, timed) && MayReport(state.threads[t], timedOut)
    }

    /** One turn of the wait loop after a test that failed; `goal` is what the loop comes to. */
    method WaitTurn(t: nat, timed: bool, waits: seq<Wait>, i: nat, ghost goal: WaitEnd)
      returns (woken: bool, timedOut: bool)
      requires Valid() && initialized && t < threadCount && IsAtTest(t, timed, i, false) && state.count == 0
      requires i <= |waits| && goal == WaitLoop(state, t, timed, false, waits[i..])
      modifies `state, `history
      ensures Valid() && old(history) <= history && state.maximumCount == old(state).maximumCount
      ensures woken ==>
        i < |waits| && IsAtTest(t, timed, i + 1, timedOut) && goal == WaitLoop(state, t, timed, timedOut, waits[i + 1..])
      ensures !woken ==> state.threads[t] == Asleep(timed) && goal == WaitEnd(state, false, false)
    {
      assert i < |waits| ==> waits[i..][0] == waits[i] && waits[i..][1..] == waits[i + 1..];
      woken, timedOut := CondWait(t, timed, EntryAt(t, timed, i, false), WaitAt(waits, i));
    }

    method FallAsleep(t: nat, timed: bool, ghost entry: Action)
      requires Valid() && initialized && t < threadCount
      requires Step(state, entry) == Some(state.(threads := state.threads[t := Asleep(timed)]))
      modifies `state, `history
      ensures Valid() && history == old(history) + [entry]
      ensures state == old(state).(threads := old(state).threads[t := Asleep(timed)])
    {
      ghost var before := state;
      state := state.(threads := state.threads[t := Asleep(timed)]);
      Record(entry, before);
    }

    /** The rest of the system runs; steps that cannot happen are ignored. */
    method RunOthers(t: nat, timed: bool, actions: seq<Action>)
      requires Valid() && initialized && t < threadCount && InWait(state.threads, t, timed)
      modifies `state, `history
      ensures Valid() && old(history) <= history && state.maximumCount == old(state).maximumCount
      ensures InWait(state.threads, t, timed)
      ensures actions == [] ==> state == old(state)
      ensures state == AfterOthers(old(state), t, actions)
    {
      if DuringWait(actions, t) {
        var after := Execute(Step, state, actions);
        if after.Some? {
          WaitKeepsThread(state, actions, t, timed);
          ExecuteConcat(Step, Initialize(initialCount, state.maximumCount, threadCount).value, history, actions);
          state, history := after.value, history + actions;
        }
      }
    }

    /**
     Takes a permit; a call that is still asleep when the script of its waits ends has not returned.  On an
     uninitialized semaphore the call returns at once without one.
     */
    method AcquireSemaphore(t: nat, waits: seq<Wait>)
      returns (returned: bool, acquired: bool, ghost before: State, ghost last: Action)
      requires Valid() && t < threadCount && (initialized ==> state.threads[t].Outside?)
      modifies `state, `history
      ensures Valid() && old(history) <= history
      ensures acquired <==> initialized && returned
      ensures !initialized ==> returned && state == old(state)
      ensures !returned ==> initialized && state.threads[t] == Asleep(false)
      ensures acquired ==> JustTook(before, last, t)
      ensures initialized && old(state).count > 0 ==> acquired && before == old(state) && last == Acquire(t)
      ensures initialized ==> WaitEnd(state, returned, acquired) == WaitLoop(old(state), t, false, false, waits)
    {
      before, last := state, Acquire(t);
      if !initialized {
        return true, false, before, last;
      }
      var i := 0;
      ghost var goal := WaitLoop(state, t, false, false, waits);
      while state.count == 0
        invariant Valid() && initialized && old(history) <= history && IsAtTest(t, false, i, false)
        invariant i <= |waits| && goal == WaitLoop(state, t, false, false, waits[i..])
        invariant i == 0 ==> state == old(state)
        invariant old(state).count > 0 ==> i == 0
        decreases |waits| - i
      {
        var woken, timedOut := WaitTurn(t, false, waits, i, goal);
        if !woken {
          return false, false, before, last;
        }
        i := i + 1;
      }
      last := EntryAt(t, false, i, false);
      before := state;
      TakePermit(t, last);
      returned, acquired := true, true;
    }

    /** The decrement under the mutex and the way out. */
    method TakePermit(t: nat, ghost entry: Action)
      requires Valid() && initialized && t < threadCount && state.count > 0
      requires Step(state, entry) == Some(Take(state, t))
      modifies `state, `history
      ensures Valid() && history == old(history) + [entry]
      ensures JustTook(old(state), entry, t)
    {
      ghost var before := state;
      state := state.(count := Subtract(state.count, 1), acquired := state.acquired + 1);
      state := state.(threads := state.threads[t := Outside]);
      Record(entry, before);
    }

    method TryAcquireSemaphore(t: nat) returns (ok: bool)
      requires Valid() && t < threadCount && (initialized ==> state.threads[t].Outside?)
      modifies `state, `history
      ensures Valid() && old(history) <= history
      ensures ok <==> initialized && old(state).count > 0
      ensures if ok then JustTook(old(state), TryAcquire(t), t) else state == old(state)
    {
      if !initialized {
        return false;
      }
      ok := state.count > 0;
      if ok {
        TakePermit(t, TryAcquire(t));
      }
    }

    /** With a nonzero timeout: fails only after a timeout that found no permit. */
    method AcquireSemaphoreFor(t: nat, isZero: bool, deadlineFits: bool, waits: seq<Wait>)
      returns (returned: bool, acquired: bool, ghost before: State, ghost last: Action)
      requires Valid() && t < threadCount && (initialized ==> state.threads[t].Outside?)
      modifies `state, `history
      ensures Valid() && old(history) <= history
      ensures !returned ==> initialized && !acquired && state.threads[t] == Asleep(true)
      ensures acquired ==> initialized && JustTook(before, last, t)
      ensures !initialized ==> returned && !acquired && state == old(state)
      ensures initialized && isZero ==> returned && (acquired <==> old(state).count > 0)
      ensures initialized && isZero && !acquired ==> state == old(state)
      ensures initialized && !isZero && !deadlineFits ==> returned && !acquired && state == old(state)
      ensures initialized && !isZero && deadlineFits && returned && !acquired ==> JustGaveUp(before, t)
      ensures initialized && !isZero && deadlineFits ==>
        WaitEnd(state, returned, acquired) == WaitLoop(old(state), t, true, false, waits)
      ensures initialized && old(state).count > 0 && (isZero || deadlineFits) ==>
        returned && acquired && before == old(state) && last == if isZero then TryAcquire(t) else AcquireFor(t)
    {
      before, last := state, TryAcquire(t);
      if !initialized {
        return true, false, before, last;
      }
      if isZero {
        acquired := TryAcquireSemaphore(t);
        return true, acquired, before, last;
      }
      if !deadlineFits {
        return true, false, before, last;
      }
      returned, acquired, before, last := WaitForPermit(t, waits);
    }

    /** The timed wait loop. */
    method WaitForPermit(t: nat, waits: seq<Wait>)
      returns (returned: bool, acquired: bool, ghost before: State, ghost last: Action)
      requires Valid() && initialized && t < threadCount && state.threads[t].Outside?
      modifies `state, `history
      ensures Valid() && old(history) <= history
      ensures !returned ==> !acquired && state.threads[t] == Asleep(true)
      ensures acquired ==> JustTook(before, last, t)
      ensures returned && !acquired ==> JustGaveUp(before, t)
      ensures old(state).count > 0 ==> returned && acquired && before == old(state) && last == AcquireFor(t)
      ensures WaitEnd(state, returned, acquired) == WaitLoop(old(state), t, true, false, waits)
    {
      before, last := state, AcquireFor(t);
      var i, timedOut := 0, false;
      ghost var goal := WaitLoop(state, t, true, false, waits);
      while state.count == 0 && !timedOut
        invariant Valid() && initialized && old(history) <= history && IsAtTest(t, true, i, timedOut)
        invariant i <= |waits| && goal == WaitLoop(state, t, true, timedOut, waits[i..])
        invariant i == 0 ==> state == old(state)
        invariant old(state).count > 0 ==> i == 0
        decreases |waits| - i
      {
        var woken;
        woken, timedOut := WaitTurn(t, true, waits, i, goal);
        if !woken {
          return false, false, before, last;
        }
        i := i + 1;
      }
      last := EntryAt(t, true, i, timedOut);
      before := state;
      acquired := state.count > 0;
      if acquired {
        TakePermit(t, last);
      } else {
        GiveUp(t);
      }
      returned := true;
    }

    method GiveUp(t: nat)
      requires Valid() && initialized && t < threadCount && state.count == 0
      requires InWait(state.threads, t, true) && MayReport(state.threads[t], true)
      modifies `state, `history
      ensures Valid() && history == old(history) + [Rerun(t, true)]
      ensures JustGaveUp(old(state), t)
    {
      ghost var before := state;
      state := state.(threads := state.threads[t := Outside]);
      Record(Rerun(t, true), before);
    }

    /** Adds permits unless they exceed the maximum; one permit signals, more broadcast. */
    method ReleaseSemaphore(t: nat, count: Uint32, chosen: seq<bool>) returns (ok: bool)
      requires Valid() && t < threadCount && (initialized ==> state.threads[t].Outside?)
      requires initialized ==> SignalMayChoose(state.threads, chosen)
      modifies `state, `history
      ensures Valid() && old(history) <= history
      ensures ok <==> initialized && count > 0 && old(state).count + count <= old(state).maximumCount
      ensures !ok ==> state == old(state)
      ensures ok ==>
        && state.count == old(state).count + count && state.released == old(state).released + count
        && state.threads == Wake(old(state).threads, if count == 1 then chosen else Everybody(old(state).threads))
    {
      if !initialized || count == 0 {
        return false;
      }
      IsSafe();
      ReleaseTestIsExact(state, count);
      if count > Subtract(state.maximumCount, state.count) {
        return false;
      }
      AddPermits(t, count, chosen);
      return true;
    }

    /** The addition under the mutex and the wakeups. */
    method AddPermits(t: nat, count: Uint32, chosen: seq<bool>)
      requires Valid() && initialized && t < threadCount && state.threads[t].Outside?
      requires SignalMayChoose(state.threads, chosen)
      requires count > 0 && count <= Subtract(state.maximumCount, state.count)
      modifies `state, `history
      ensures Valid() && history == old(history) + [Release(t, count, chosen)]
      ensures state == Released(old(state), count, chosen)
    {
      ghost var before := state;
      var woken := if count == 1 then chosen else Everybody(state.threads);
      state := state.(count := Add(state.count, count), released := state.released + count,
                      threads := Wake(state.threads, woken));
      RecordRelease(t, count, chosen, before);
    }

    ghost method RecordRelease(t: nat, count: Uint32, chosen: seq<bool>, before: State)
      requires initialized && t < threadCount == |before.threads| && before.threads[t].Outside?
      requires SignalMayChoose(before.threads, chosen)
      requires count > 0 && count <= Subtract(before.maximumCount, before.count)
      requires var start := Initialize(initialCount, before.maximumCount, threadCount);
               start.Some? && Execute(Step, start.value, history) == Some(before)
      requires state == Released(before, count, chosen)
      modifies `history
      ensures Valid() && history == old(history) + [Release(t, count, chosen)]
    {
      ReleaseStep(before, t, count, chosen);
      Record(Release(t, count, chosen), before);
    }
  }
}
