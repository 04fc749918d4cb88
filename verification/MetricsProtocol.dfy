/**
 The process-wide memory metrics under concurrent calls, one atomic access a step.  Unlike a pool's
 peak, this peak is taken from the very fetch-and-add that raises CurrentLiveBytes, so at rest it is
 exactly the largest value CurrentLiveBytes ever had.
 */
module MetricsProtocol {
  import opened AtomicWord
  import opened Sums
  import opened Options
  import opened Words

  datatype Counters = Counters(
    totalAllocated: Size,
    totalFreed: Size,
    live: Size,
    peak: Size,
    allocationCount: Size,
    freeCount: Size,
    reallocationCount: Size)

  /** Where a thread stands inside a metrics call; `resizing` marks the calls made for a reallocation. */
  datatype Thread =
    | Idle
    | Totalled(size: Size, resizing: bool)                             // TotalAllocatedBytes was raised
    | Raised(size: Size, value: Size, resizing: bool)                  // CurrentLiveBytes was raised to value
    | Counted(size: Size, value: Size, resizing: bool)                 // AllocationCount was raised
    | Raising(size: Size, value: Size, observed: Size, resizing: bool) // PeakLiveBytes was observed
    | FreeTotalled(size: Size, resizing: bool)                         // TotalFreedBytes was raised
    | Lowered(resizing: bool)                                          // CurrentLiveBytes was lowered
    | Finishing                                                        // ReallocationCount is still to be raised

  datatype State = State(
    counters: Counters,
    threads: seq<Thread>,
    held: nat,             // bytes of the recorded allocations clients still own
    bytesAllocated: nat,   // bytes ever added to TotalAllocatedBytes
    bytesFreed: nat)       // bytes ever added to TotalFreedBytes

  datatype Action =
    | RecordAllocation(t: nat, size: Size)
    | RecordFree(t: nat, size: Size)
    | RecordReallocation(t: nat, oldSize: Size, newSize: Size)
    | RaiseLive(t: nat)
    | CountAllocation(t: nat)
    | ReadPeak(t: nat)
    | RaisePeak(t: nat)
    | LowerLive(t: nat)
    | CountFree(t: nat)
    | CountReallocation(t: nat)

  function Initial(threadCount: nat): State {
    State(Counters(0, 0, 0, 0, 0, 0, 0), seq(threadCount, _ => Idle), 0, 0, 0)
  }

  function Become(s: State, t: nat, thread: Thread): State
    requires t < |s.threads|
  {
    s.(threads := s.threads[t := thread])
  }

  function Done(resizing: bool): Thread {
    if resizing then Finishing else Idle
  }

  /** Bytes that exist: owned by clients, or on their way in or out of the counters. */
  function Outstanding(s: State): nat {
    s.held + Total(s.threads, InTransit)
  }

  function InTransit(t: Thread): nat {
    match t
    case Totalled(size, _) => size
    case Raised(size, _, _) => size
    case Counted(size, _, _) => size
    case Raising(size, _, _, _) => size
    case FreeTotalled(size, _) => size
    case _ => 0
  }

  /** The first access of RecordMemoryAllocation; the bytes exist already, next to all the others. */
  function StartAllocation(s: State, t: nat, size: Size, resizing: bool): Option<State>
    requires t < |s.threads|
  {
    if Outstanding(s) + size < WORD_VALUES then
      Some(Become(s.(counters := s.counters.(totalAllocated := FetchAdd(s.counters.totalAllocated, size)),
                     bytesAllocated := s.bytesAllocated + size),
                  t, Totalled(size, resizing)))
    else None
  }

  /** The first access of RecordMemoryFree; a client frees only what it holds. */
  function StartFree(s: State, t: nat, size: Size, resizing: bool): Option<State>
    requires t < |s.threads|
  {
    if size <= s.held then
      Some(Become(s.(counters := s.counters.(totalFreed := FetchAdd(s.counters.totalFreed, size)),
                     bytesFreed := s.bytesFreed + size, held := s.held - size),
                  t, FreeTotalled(size, resizing)))
    else None
  }

  function Settle(s: State, t: nat, size: Size, resizing: bool): State
    requires t < |s.threads|
  {
    Become(s.(held := s.held + size), t, Done(resizing))
  }

  function Step(s: State, a: Action): Option<State> {
    if a.t >= |s.threads| then None
    else
      var c := s.counters;
      var thread := s.threads[a.t];
      match a
      case RecordAllocation(t, size) => if thread.Idle? then StartAllocation(s, t, size, false) else None
      case RecordFree(t, size) => if thread.Idle? then StartFree(s, t, size, false) else None
      case RecordReallocation(t, oldSize, newSize) =>
        if !thread.Idle? || oldSize > s.held then None
        else if newSize > oldSize then StartAllocation(s, t, newSize - oldSize, true)
        else if oldSize > newSize then StartFree(s, t, oldSize - newSize, true)
        else Some(Become(s, t, Finishing))
      case RaiseLive(t) =>
        if thread.Totalled?
        then Some(Become(s.(counters := c.(live := FetchAdd(c.live, thread.size))),
                         t, Raised(thread.size, FetchAdd(c.live, thread.size), thread.resizing))) else None
      case CountAllocation(t) =>
        if thread.Raised?
        then Some(Become(s.(counters := c.(allocationCount := FetchAdd(c.allocationCount, 1))),
                         t, Counted(thread.size, thread.value, thread.resizing))) else None
      case ReadPeak(t) =>
        if thread.Counted?
        then Some(Become(s, t, Raising(thread.size, thread.value, c.peak, thread.resizing))) else None
      case RaisePeak(t) =>
        if !thread.Raising? then None
        else if thread.value <= thread.observed then Some(Settle(s, t, thread.size, thread.resizing))
        else if c.peak == thread.observed then
          Some(Settle(s.(counters := c.(peak := thread.value)), t, thread.size, thread.resizing))
        else Some(Become(s, t, thread.(observed := c.peak)))
      case LowerLive(t) =>
        if thread.FreeTotalled?
        then Some(Become(s.(counters := c.(live := FetchSub(c.live, thread.size))), t, Lowered(thread.resizing)))
        else None
      case CountFree(t) =>
        if thread.Lowered?
        then Some(Become(s.(counters := c.(freeCount := FetchAdd(c.freeCount, 1))), t, Done(thread.resizing))) else None
      case CountReallocation(t) =>
        if thread.Finishing?
        then Some(Become(s.(counters := c.(reallocationCount := FetchAdd(c.reallocationCount, 1))), t, Idle)) else None
  }

  /** Actions and the states between them. */
  datatype Run = Run(states: seq<State>, actions: seq<Action>)

  ghost predicate TakenAt(run: Run, i: nat)
    requires |run.states| == |run.actions| + 1
  {
    i < |run.actions| && Step(run.states[i], run.actions[i]) == Some(run.states[i + 1])
  }

  /** The run leads from one state to the other; the trigger keeps its steps folded. */
  ghost predicate Leads(s: State, run: Run, s': State) {
    && |run.states| == |run.actions| + 1
    && run.states[0] == s && run.states[|run.actions|] == s'
    && forall i {:trigger TakenAt(run, i)} :: 0 <= i < |run.actions| ==> TakenAt(run, i)
  }

  /** A run without its last step. */
  function Shorter(run: Run): Run
    requires |run.states| == |run.actions| + 1 > 1
  {
    Run(run.states[..|run.actions|], run.actions[..|run.actions| - 1])
  }

  /** The largest value CurrentLiveBytes has had during a run. */
  function HighWater(states: seq<State>): nat {
    if states == [] then 0
    else Max(HighWater(states[..|states| - 1]), states[|states| - 1].counters.live)
  }
}
