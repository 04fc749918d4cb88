/**
 A POSIX condition variable as seen by the monitors built on it.  A critical section runs from taking
 the mutex to releasing it or falling asleep, and is one step; between the steps each thread is in
 one of the states below.
 */
module ConditionVariable {
  import opened Sums

  datatype Thread =
    | Outside                                   // not inside a monitor call
    | Asleep(timed: bool)                       // queued on the condition variable
    | Notified(timed: bool)                     // chosen by a signal or broadcast, has not rerun yet
    | Interrupted(timed: bool, timedOut: bool)  // woke spuriously or by its deadline, has not rerun yet

  function CountAsleep(t: Thread): nat {
    if t.Asleep? then 1 else 0
  }

  function CountNotified(t: Thread): nat {
    if t.Notified? then 1 else 0
  }

  function Sleepers(threads: seq<Thread>): nat {
    Total(threads, CountAsleep)
  }

  function Pending(threads: seq<Thread>): nat {
    Total(threads, CountNotified)
  }

  function WakeOne(t: Thread, chosen: bool): Thread {
    if chosen && t.Asleep? then Notified(t.timed) else t
  }

  /** Moves the chosen sleepers to the notified state. */
  function Wake(threads: seq<Thread>, chosen: seq<bool>): seq<Thread>
    requires |chosen| == |threads|
  {
    if threads == [] then []
    else [WakeOne(threads[0], chosen[0])] + Wake(threads[1..], chosen[1..])
  }

  predicate WakesSomebody(threads: seq<Thread>, chosen: seq<bool>)
    requires |chosen| == |threads|
  {
    exists i :: 0 <= i < |threads| && chosen[i] && threads[i].Asleep?
  }

  /** A signal wakes at least one sleeper if there is one; which, and whether more, is up to the system. */
  predicate SignalMayChoose(threads: seq<Thread>, chosen: seq<bool>) {
    |chosen| == |threads| && (Sleepers(threads) > 0 ==> WakesSomebody(threads, chosen))
  }

  function Everybody(threads: seq<Thread>): seq<bool> {
    seq(|threads|, _ => true)
  }

  /** A timed waiter that was notified may still be told that its deadline passed. */
  predicate MayReport(t: Thread, timeout: bool) {
    match t
    case Notified(timed) => timeout ==> timed
    case Interrupted(_, timedOut) => timeout == timedOut
    case _ => false
  }

  /** Thread t is inside a wait of this kind. */
  predicate InWait(threads: seq<Thread>, t: nat, timed: bool) {
    && t < |threads| && !threads[t].Outside? && threads[t].timed == timed
    && (threads[t].Interrupted? && threads[t].timedOut ==> timed)
  }

  lemma {:induction false} WakeLength(threads: seq<Thread>, chosen: seq<bool>)
    requires |chosen| == |threads|
    ensures |Wake(threads, chosen)| == |threads|
    ensures forall i :: 0 <= i < |threads| ==> Wake(threads, chosen)[i] == WakeOne(threads[i], chosen[i])
  {
    if threads != [] {
      WakeLength(threads[1..], chosen[1..]);
    }
  }

  lemma WakeKeepsWaits(threads: seq<Thread>, chosen: seq<bool>, t: nat, timed: bool)
    requires |chosen| == |threads| && InWait(threads, t, timed)
    ensures InWait(Wake(threads, chosen), t, timed)
  {
    WakeLength(threads, chosen);
  }

  /** Every woken sleeper turns into a notified thread. */
  lemma {:induction false} WakeConserves(threads: seq<Thread>, chosen: seq<bool>)
    requires |chosen| == |threads|
    ensures Sleepers(Wake(threads, chosen)) + Pending(Wake(threads, chosen)) == Sleepers(threads) + Pending(threads)
    ensures Pending(Wake(threads, chosen)) >= Pending(threads)
    ensures WakesSomebody(threads, chosen) ==> Pending(Wake(threads, chosen)) > Pending(threads)
  {
    if threads != [] {
      WakeConserves(threads[1..], chosen[1..]);
      if WakesSomebody(threads, chosen) && !(chosen[0] && threads[0].Asleep?) {
        var i :| 0 <= i < |threads| && chosen[i] && threads[i].Asleep?;
        assert chosen[1..][i - 1] && threads[1..][i - 1].Asleep?;
      }
    }
  }

  lemma BroadcastEmptiesQueue(threads: seq<Thread>)
    ensures Sleepers(Wake(threads, Everybody(threads))) == 0
  {
    WakeLength(threads, Everybody(threads));
    TotalZeroIff(Wake(threads, Everybody(threads)), CountAsleep);
  }

  lemma FindPending(threads: seq<Thread>) returns (t: nat)
    requires Pending(threads) > 0
    ensures t < |threads| && threads[t].Notified?
  {
    TotalZeroIff(threads, CountNotified);
    t :| t < |threads| && CountNotified(threads[t]) != 0;
  }

  /** A signal can always be given: it may wake everybody, and nobody if nobody sleeps. */
  lemma SignalIsPossible(threads: seq<Thread>)
    ensures SignalMayChoose(threads, Everybody(threads))
    ensures (forall i :: 0 <= i < |threads| ==> !threads[i].Asleep?) ==>
      forall chosen :: SignalMayChoose(threads, chosen) <==> |chosen| == |threads|
  {
    TotalZeroIff(threads, CountAsleep);
    if Sleepers(threads) > 0 {
      var i :| 0 <= i < |threads| && CountAsleep(threads[i]) != 0;
      assert Everybody(threads)[i] && threads[i].Asleep?;
    }
  }

  /** One thread changes state. */
  lemma Move(threads: seq<Thread>, t: nat, to: Thread)
    requires t < |threads|
    ensures Sleepers(threads[t := to]) + CountAsleep(threads[t]) == Sleepers(threads) + CountAsleep(to)
    ensures Pending(threads[t := to]) + CountNotified(threads[t]) == Pending(threads) + CountNotified(to)
  {
    TotalUpdate(threads, t, to, CountAsleep);
    TotalUpdate(threads, t, to, CountNotified);
  }

  lemma AllOutside(threads: seq<Thread>)
    requires forall t :: 0 <= t < |threads| ==> threads[t] == Outside
    ensures Sleepers(threads) == 0 && Pending(threads) == 0
  {
    TotalZeroIff(threads, CountAsleep);
    TotalZeroIff(threads, CountNotified);
  }
}
