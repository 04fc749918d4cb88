/**
 The POSIX event's calls as they are written: a mutex-protected flag, wait loops on a condition variable, and
 whatever the rest of the system does while a call waits.  Each call only prolongs a run of the monitor, so
 at every moment a signal is consumed at most once and waits for a sleeper only with a wakeup on its way.
 */
module EventCalls {
  import opened ConditionVariable
  import opened Event
  import opened Options
  import opened Runs

  /** What the rest of the system does during a wait, and what a notified timed waiter is told. */
  datatype Wait = Wait(actions: seq<Action>, reportsTimeout: bool)

  function WaitAt(waits: seq<Wait>, i: nat): Wait {
    if i < |waits| then waits[i] else Wait([], false)
  }

  /** Everything but a step the waiting thread takes itself. */
  predicate DuringWait(actions: seq<Action>, t: nat) {
    forall i :: 0 <= i < |actions| ==> actions[i].t == t ==> actions[i].WakeSpuriously? || actions[i].PassDeadline?
  }

  lemma StepKeepsShape(s: State, a: Action)
    requires Step(s, a).Some?
    ensures |Step(s, a).value.threads| == |s.threads| && Step(s, a).value.resetMode == s.resetMode
  {
    if a.SignalEvent? {
      if |a.chosen| == |s.threads| {
        WakeLength(s.threads, a.chosen);
      }
      WakeLength(s.threads, Everybody(s.threads));
    }
  }

  /** A sleeper stays in its wait until it reruns, and a timed wait stays timed. */
  lemma SleeperStaysInWait(s: State, a: Action, t: nat, timed: bool)
    requires Step(s, a).Some? && InWait(s.threads, t, timed)
    requires a.t == t ==> a.WakeSpuriously? || a.PassDeadline?
    ensures InWait(Step(s, a).value.threads, t, timed)
  {
    StepKeepsShape(s, a);
    if a.SignalEvent? {
      if |a.chosen| == |s.threads| {
        WakeKeepsWaits(s.threads, a.chosen, t, timed);
      }
      WakeKeepsWaits(s.threads, Everybody(s.threads), t, timed);
    }
  }

  lemma {:induction false} WaitKeepsThread(s: State, actions: seq<Action>, t: nat, timed: bool)
    requires DuringWait(actions, t) && Execute(Step, s, actions).Some? && InWait(s.threads, t, timed)
    ensures var m := Execute(Step, s, actions).value;
            |m.threads| == |s.threads| && m.resetMode == s.resetMode && InWait(m.threads, t, timed)
  {
    if actions != [] {
      var last := |actions| - 1;
      WaitKeepsThread(s, actions[..last], t, timed);
      var m := Execute(Step, s, actions[..last]).value;
      StepKeepsShape(m, actions[last]);
      assert actions[last].t == t ==> actions[last].WakeSpuriously? || actions[last].PassDeadline?;
      SleeperStaysInWait(m, actions[last], t, timed);
    }
  }

  /** The state after the rest of the system has run; a script that cannot happen as a whole is ignored. */
  function AfterOthers(s: State, t: nat, actions: seq<Action>): State {
    var after := Execute(Step, s, actions);
    if DuringWait(actions, t) && after.Some? then after.value else s
  }

  /** How a wait ends: the state, whether the call returned, and whether it got what it waited for. */
  datatype WaitEnd = WaitEnd(state: State, returned: bool, success: bool)

  /** What the wait loop comes to from its test on, given what its last wait reported and what the system will do. */
  function WaitLoop(s: State, t: nat, timed: bool, timedOut: bool, waits: seq<Wait>): WaitEnd
    decreases |waits|
  {
    if t >= |s.threads| then WaitEnd(s, false, false)
    else if s.signaled then WaitEnd(Pass(s, t), true, true)
    else if timedOut then WaitEnd(s.(threads := s.threads[t := Outside]), true, false)
    else
      var asleep := s.(threads := s.threads[t := Asleep(timed)]);
      if waits == [] then WaitEnd(asleep, false, false)
      else
        var after := AfterOthers(asleep, t, waits[0].actions);
        if t >= |after.threads| || after.threads[t].Asleep? || after.threads[t].Outside? then WaitEnd(after, false, false)
        else WaitLoop(after, t, timed, Reported(after.threads[t], waits[0].reportsTimeout), waits[1..])
  }

  /** What a wait that came back reports; a notified timed waiter may be told either. */
  function Reported(thread: Thread, reportsTimeout: bool): bool {
    match thread
    case Notified(timed) => timed && reportsTimeout
    case Interrupted(_, timedOut) => timedOut
    case _ => false
  }

  class NativeEvent {
    const threadCount: nat
    var initialized: bool
    var state: State
    ghost var initiallySignaled: bool
    ghost var history: seq<Action>

    /** Before any step. */
    ghost function Start(): State
      reads this
    {
      Initialize(state.resetMode, initiallySignaled, threadCount)
    }

    /** The state is what the history of all threads' steps leads to. */
    ghost predicate Valid()
      reads this
    {
      initialized ==> Execute(Step, Start(), history) == Some(state) && |state.threads| == threadCount
    }

    /** The history's last step was this one, taken in this state. */
    ghost predicate EndsWith(before: State, a: Action)
      reads this
    {
      && history != [] && history[|history| - 1] == a
      && Execute(Step, Start(), history[..|history| - 1]) == Some(before)
    }

    /** The last step passed thread t through the event. */
    ghost predicate JustPassed(before: State, a: Action, t: nat)
      reads this
    {
      EndsWith(before, a) && t < |before.threads| && before.signaled && state == Pass(before, t)
    }

    /** The last step ended a timed wait of thread t that found the event unsignaled. */
    ghost predicate JustGaveUp(before: State, t: nat)
      reads this
    {
      && EndsWith(before, Rerun(t, true)) && t < |before.threads| && !before.signaled
      && state == before.(threads := before.threads[t := Outside])
    }

    constructor (threadCount: nat)
      ensures Valid() && !initialized && this.threadCount == threadCount
    {
      this.threadCount := threadCount;
      initialized, state := false, State(Auto, false, [], 0, 0);
      initiallySignaled, history := false, [];
    }

    /** Whatever calls led here, the event's promises hold. */
    lemma IsSafe()
      requires Valid() && initialized
      ensures state.resetMode.Auto? ==>
        && state.passed + Unconsumed(state) <= state.signals + (if initiallySignaled then 1 else 0)
        && (state.signaled && Sleepers(state.threads) > 0 ==> Pending(state.threads) > 0)
      ensures state.resetMode.Manual? && state.signaled ==>
        forall t :: 0 <= t < |state.threads| ==> !state.threads[t].Asleep?
    {
      match state.resetMode
      case Auto => AutoEventIsSafe(initiallySignaled, threadCount, history, state);
      case Manual => ManualEventIsSafe(initiallySignaled, threadCount, history, state);
    }

    method InitializeEvent(resetMode: EventResetMode, signaled: bool) returns (ok: bool)
      requires Valid()
      modifies this
      ensures Valid() && ok && initialized
      ensures old(initialized) ==> state == old(state) && history == old(history)
      ensures !old(initialized) ==>
        && history == [] && initiallySignaled == signaled
        && state == State(resetMode, signaled, state.threads, 0, 0)
        && |state.threads| == threadCount && forall t :: 0 <= t < threadCount ==> state.threads[t] == Outside
    {
      if initialized {
        return true;
      }
      state := State(resetMode, signaled, seq(threadCount, _ => Outside), 0, 0);
      initialized := true;
      initiallySignaled, history := signaled, [];
      return true;
    }

    /** One critical section was run. */
    ghost method Record(a: Action, before: State)
      requires initialized && state.resetMode == before.resetMode
      requires Execute(Step, Start(), history) == Some(before)
      requires |before.threads| == threadCount && Step(before, a) == Some(state)
      modifies `history
      ensures Valid() && history == old(history) + [a] && EndsWith(before, a)
    {
      StepKeepsShape(before, a);
      ExecuteConcat(Step, Start(), history, [a]);
      assert [a][..0] == [];
      history := history + [a];
      assert history[..|history| - 1] == old(history);
    }

    /** pthread_cond_wait and its timed form: sleeps, lets the system run, and comes back unless nothing woke the thread. */
    method CondWait(t: nat, timed: bool, ghost entry: Action, wait: Wait) returns (returned: bool, timedOut: bool)
      requires Valid() && initialized && t < threadCount
      requires Step(state, entry) == Some(state.(threads := state.threads[t := Asleep(timed)]))
      modifies `state, `history
      ensures Valid() && old(history) <= history && state.resetMode == old(state).resetMode
      ensures InWait(state.threads, t, timed) && (returned <==> !state.threads[t].Asleep?)
      ensures returned ==> MayReport(state.threads[t], timedOut)
      ensures wait.actions == [] ==> !returned
      ensures state == AfterOthers(old(state).(threads := old(state).threads[t := Asleep(timed)]), t, wait.actions)
      ensures timedOut == (returned && Reported(state.threads[t], wait.reportsTimeout))
    {
      FallAsleep(t, timed, entry);
      RunOthers(t, timed, wait.actions);
      match state.threads[t]
      case Notified(_) => return true, timed && wait.reportsTimeout;
      case Interrupted(_, out) => return true, out;
      case _ => return false, false;
    }

    /** The step that the test of the wait loop belongs to: the call's first one, or a return from a wait. */
    ghost function EntryAt(t: nat, timed: bool, i: nat, timedOut: bool): Action {
      if i > 0 then Rerun(t, timedOut) else if timed then Action.WaitEventFor(t) else Action.WaitEvent(t)
    }

    /** Thread t is about to test, for the first time or after a wait. */
    ghost predicate IsAtTest(t: nat, timed: bool, i: nat, timedOut: bool)
      reads `state
    {
      if i == 0 then t < |state.threads| && state.threads[t].Outside? && !timedOut
      else InWait(state.threads, t, timed) && MayReport(state.threads[t], timedOut)
    }

    /** One turn of the wait loop after a test that failed; `goal` is what the loop comes to. */
    method WaitTurn(t: nat, timed: bool, waits: seq<Wait>, i: nat, ghost goal: WaitEnd)
      returns (woken: bool, timedOut: bool)
      requires Valid() && initialized && t < threadCount && IsAtTest(t, timed, i, false) && !state.signaled
      requires i <= |waits| && goal == WaitLoop(state, t, timed, false, waits[i..])
      modifies `state, `history
      ensures Valid() && old(history) <= history
      ensures woken ==>
        i < |waits| && IsAtTest(t, timed, i + 1, timedOut) && goal == WaitLoop(state, t, timed, timedOut, waits[i + 1..])
      ensures !woken ==> state.threads[t] == Asleep(timed) && goal == WaitEnd(state, false, false)
    {
      assert i < |waits| ==> waits[i..][0] == waits[i] && waits[i..][1..] == waits[i + 1..];
      woken, timedOut := CondWait(t, timed, EntryAt(t, timed, i, false), WaitAt(waits, i));
    }

    method FallAsleep(t: nat, timed: bool, ghost entry: Action)
      requires Valid() && initialized && t < threadCount
      requires Step(state, entry) == Some(state.(threads := state.threads[t := Asleep(timed)]))
      modifies `state, `history
      ensures Valid() && history == old(history) + [entry]
      ensures state == old(state).(threads := old(state).threads[t := Asleep(timed)])
    {
      ghost var before := state;
      state := state.(threads := state.threads[t := Asleep(timed)]);
      Record(entry, before);
    }

    /** The rest of the system runs; steps that cannot happen are ignored. */
    method RunOthers(t: nat, timed: bool, actions: seq<Action>)
      requires Valid() && initialized && t < threadCount && InWait(state.threads, t, timed)
      modifies `state, `history
      ensures Valid() && old(history) <= history && state.resetMode == old(state).resetMode
      ensures InWait(state.threads, t, timed)
      ensures actions == [] ==> state == old(state)
      ensures state == AfterOthers(old(state), t, actions)
    {
      if DuringWait(actions, t) {
        var after := Execute(Step, state, actions);
        if after.Some? {
          WaitKeepsThread(state, actions, t, timed);
          ExecuteConcat(Step, Start(), history, actions);
          state, history := after.value, history + actions;
        }
      }
    }

    method ConsumeAutoResetSignalIfNeeded()
      modifies `state
      ensures state == old(state).(signaled := old(state).resetMode == Manual && old(state).signaled)
    {
      if state.resetMode == Auto {
        state := state.(signaled := false);
      }
    }

    /** The way out of a successful wait. */
    method PassThrough(t: nat, ghost entry: Action)
      requires Valid() && initialized && t < threadCount && state.signaled
      requires Step(state, entry) == Some(Pass(state, t))
      modifies `state, `history
      ensures Valid() && history == old(history) + [entry]
      ensures JustPassed(old(state), entry, t)
    {
      ghost var before := state;
      ConsumeAutoResetSignalIfNeeded();
      state := state.(passed := state.passed + 1, threads := state.threads[t := Outside]);
      Record(entry, before);
    }

    /**
     Waits for a signal; a call that is still asleep when the script of its waits ends has not returned.  On an
     uninitialized event the call returns at once without one.
     */
    method WaitEvent(t: nat, waits: seq<Wait>)
      returns (returned: bool, passed: bool, ghost before: State, ghost last: Action)
      requires Valid() && t < threadCount && (initialized ==> state.threads[t].Outside?)
      modifies `state, `history
      ensures Valid() && old(history) <= history
      ensures passed <==> initialized && returned
      ensures !initialized ==> returned && state == old(state)
      ensures !returned ==> initialized && state.threads[t] == Asleep(false)
      ensures passed ==> JustPassed(before, last, t)
      ensures initialized && old(state).signaled ==> passed && before == old(state) && last == Action.WaitEvent(t)
      ensures initialized ==> WaitEnd(state, returned, passed) == WaitLoop(old(state), t, false, false, waits)
    {
      before, last := state, Action.WaitEvent(t);
      if !initialized {
        return true, false, before, last;
      }
      var i := 0;
      ghost var goal := WaitLoop(state, t, false, false, waits);
      while !state.signaled
        invariant Valid() && initialized && old(history) <= history && IsAtTest(t, false, i, false)
        invariant i <= |waits| && goal == WaitLoop(state, t, false, false, waits[i..])
        invariant i == 0 ==> state == old(state)
        invariant old(state).signaled ==> i == 0
        decreases |waits| - i
      {
        var woken, timedOut := WaitTurn(t, false, waits, i, goal);
        if !woken {
          return false, false, before, last;
        }
        i := i + 1;
      }
      last := EntryAt(t, false, i, false);
      before := state;
      PassThrough(t, last);
      returned, passed := true, true;
    }

    method TryWaitEvent(t: nat) returns (ok: bool)
      requires Valid() && t < threadCount && (initialized ==> state.threads[t].Outside?)
      modifies `state, `history
      ensures Valid() && old(history) <= history
      ensures ok <==> initialized && old(state).signaled
      ensures if ok then JustPassed(old(state), Action.TryWaitEvent(t), t) else state == old(state)
    {
      if !initialized {
        return false;
      }
      ok := state.signaled;
      if ok {
        PassThrough(t, Action.TryWaitEvent(t));
      }
    }

    /** With a nonzero timeout: fails only after a timeout that found the event unsignaled. */
    method WaitEventFor(t: nat, isZero: bool, deadlineFits: bool, waits: seq<Wait>)
      returns (returned: bool, passed: bool, ghost before: State, ghost last: Action)
      requires Valid() && t < threadCount && (initialized ==> state.threads[t].Outside?)
      modifies `state, `history
      ensures Valid() && old(history) <= history
      ensures !returned ==> initialized && !passed && state.threads[t] == Asleep(true)
      ensures passed ==> initialized && JustPassed(before, last, t)
      ensures !initialized ==> returned && !passed && state == old(state)
      ensures initialized && isZero ==> returned && (passed <==> old(state).signaled)
      ensures initialized && isZero && !passed ==> state == old(state)
      ensures initialized && !isZero && !deadlineFits ==> returned && !passed && state == old(state)
      ensures initialized && !isZero && deadlineFits && returned && !passed ==> JustGaveUp(before, t)
      ensures initialized && !isZero && deadlineFits ==>
        WaitEnd(state, returned, passed) == WaitLoop(old(state), t, true, false, waits)
      ensures initialized && old(state).signaled && (isZero || deadlineFits) ==>
        && returned && passed && before == old(state)
        && last == if isZero then Action.TryWaitEvent(t) else Action.WaitEventFor(t)
    {
      before, last := state, Action.TryWaitEvent(t);
      if !initialized {
        return true, false, before, last;
      }
      if isZero {
        passed := TryWaitEvent(t);
        return true, passed, before, last;
      }
      if !deadlineFits {
        return true, false, before, last;
      }
      returned, passed, before, last := WaitForSignal(t, waits);
    }

    /** The timed wait loop. */
    method WaitForSignal(t: nat, waits: seq<Wait>)
      returns (returned: bool, passed: bool, ghost before: State, ghost last: Action)
      requires Valid() && initialized && t < threadCount && state.threads[t].Outside?
      modifies `state, `history
      ensures Valid() && old(history) <= history
      ensures !returned ==> !passed && state.threads[t] == Asleep(true)
      ensures passed ==> JustPassed(before, last, t)
      ensures returned && !passed ==> JustGaveUp(before, t)
      ensures old(state).signaled ==> returned && passed && before == old(state) && last == Action.WaitEventFor(t)
      ensures WaitEnd(state, returned, passed) == WaitLoop(old(state), t, true, false, waits)
    {
      before, last := state, Action.WaitEventFor(t);
      var i, timedOut := 0, false;
      ghost var goal := WaitLoop(state, t, true, false, waits);
      while !state.signaled && !timedOut
        invariant Valid() && initialized && old(history) <= history && IsAtTest(t, true, i, timedOut)
        invariant i <= |waits| && goal == WaitLoop(state, t, true, timedOut, waits[i..])
        invariant i == 0 ==> state == old(state)
        invariant old(state).signaled ==> i == 0
        decreases |waits| - i
      {
        var woken;
        woken, timedOut := WaitTurn(t, true, waits, i, goal);
        if !woken {
          return false, false, before, last;
        }
        i := i + 1;
      }
      last := EntryAt(t, true, i, timedOut);
      before := state;
      passed := state.signaled;
      if passed {
        PassThrough(t, last);
      } else {
        GiveUp(t);
      }
      returned := true;
    }

    method GiveUp(t: nat)
      requires Valid() && initialized && t < threadCount && !state.signaled
      requires InWait(state.threads, t, true) && MayReport(state.threads[t], true)
      modifies `state, `history
      ensures Valid() && history == old(history) + [Rerun(t, true)]
      ensures JustGaveUp(old(state), t)
    {
      ghost var before := state;
      state := state.(threads := state.threads[t := Outside]);
      Record(Rerun(t, true), before);
    }

    /** Signals: everybody in manual mode, at least one sleeper in automatic mode. */
    method SignalEvent(t: nat, chosen: seq<bool>)
      requires Valid() && t < threadCount && (initialized ==> state.threads[t].Outside?)
      requires initialized ==> SignalMayChoose(state.threads, chosen)
      modifies `state, `history
      ensures Valid() && old(history) <= history
      ensures !initialized ==> state == old(state)
      ensures initialized ==>
        && state.signaled && state.signals == old(state).signals + 1
        && state.threads == Wake(old(state).threads,
                                 if state.resetMode == Manual then Everybody(old(state).threads) else chosen)
    {
      if !initialized {
        return;
      }
      ghost var before := state;
      state := state.(signaled := true, signals := state.signals + 1);
      if state.resetMode == Manual {
        state := state.(threads := Wake(state.threads, Everybody(state.threads)));
      } else {
        state := state.(threads := Wake(state.threads, chosen));
      }
      Record(Action.SignalEvent(t, chosen), before);
    }

    method ResetEvent(t: nat)
      requires Valid() && t < threadCount && (initialized ==> state.threads[t].Outside?)
      modifies `state, `history
      ensures Valid() && old(history) <= history
      ensures state == if initialized then old(state).(signaled := false) else old(state)
    {
      if !initialized {
        return;
      }
      ghost var before := state;
      state := state.(signaled := false);
      Record(Action.ResetEvent(t), before);
    }
  }
}
