/**
 One memory pool's atomic counters under concurrent reserve, commit, cancel and free calls.  Every
 atomic access is a step of its own, so the theorems hold for every interleaving of any number of
 threads.  The ledger lists the allocations whose commit has read CurrentBytes, in the order of those
 reads; it exists only to state what the counters mean.
 */
module PoolRegistryProtocol {
  import opened AtomicWord
  import opened Options
  import opened Sums
  import opened Words

  datatype Counters = Counters(
    current: Size,
    peak: Size,
    totalAllocated: Size,
    totalFreed: Size,
    allocationCount: Size,
    freeCount: Size,
    budgetExceeded: Size)

  /** Where a thread stands inside a registry call. */
  datatype Thread =
    | Idle
    | Reserving(size: Size, observed: Size)             // CurrentBytes was observed
    | Checked(size: Size, observed: Size, next: Size)   // overflow and budget tests passed
    | Reserved(size: Size)                              // reservation held, neither committed nor cancelled
    | Read(size: Size, seen: Size)                      // commit: CurrentBytes was read
    | Totalled(size: Size, seen: Size)                  // commit: TotalAllocatedBytes was raised
    | Counted(size: Size, seen: Size)                   // commit: AllocationCount was raised
    | Raising(size: Size, seen: Size, observed: Size)   // commit: PeakBytes was observed
    | Subtracted(size: Size)                            // free: CurrentBytes was lowered
    | FreeTotalled(size: Size)                          // free: TotalFreedBytes was raised

  datatype Holder = InFlight(thread: nat) | Live

  datatype Entry = Entry(size: Size, seen: Size, holder: Holder)

  datatype State = State(
    counters: Counters,
    enforce: bool,
    threads: seq<Thread>,
    ledger: seq<Entry>,
    bytesAllocated: nat,      // bytes ever added to TotalAllocatedBytes
    bytesFreed: nat,          // bytes ever added to TotalFreedBytes
    allocations: nat,    // increments of AllocationCount
    frees: nat)          // increments of FreeCount

  datatype Action =
    | BeginReserve(t: nat, size: Size)
    | Check(t: nat)
    | Exchange(t: nat)
    | Cancel(t: nat)
    | ReadCurrent(t: nat)
    | AddAllocated(t: nat)
    | CountAllocation(t: nat)
    | ReadPeak(t: nat)
    | RaisePeak(t: nat)
    | BeginFree(t: nat, amounts: seq<Size>)   // any thread may free any part of any live allocations
    | AddFreed(t: nat)
    | CountFree(t: nat)
    | SetEnforcement(t: nat, enabled: bool)

  function Initial(threadCount: nat): State {
    State(Counters(0, 0, 0, 0, 0, 0, 0), true, seq(threadCount, _ => Idle), [], 0, 0, 0, 0)
  }

  function Become(s: State, t: nat, thread: Thread): State
    requires t < |s.threads|
  {
    s.(threads := s.threads[t := thread])
  }

  function SettleEntry(e: Entry, t: nat): Entry {
    if e.holder == InFlight(t) then e.(holder := Live) else e
  }

  /** The commit of thread t has finished. */
  function Settle(ledger: seq<Entry>, t: nat): seq<Entry> {
    seq(|ledger|, i requires 0 <= i < |ledger| => SettleEntry(ledger[i], t))
  }

  function Amount(amount: Size): nat {
    amount
  }

  /** A free returns bytes that are held: parts, or all, of allocations whose commit has finished. */
  predicate MayTake(ledger: seq<Entry>, amounts: seq<Size>) {
    && |amounts| == |ledger|
    && Total(amounts, Amount) < WORD_VALUES
    && forall i :: 0 <= i < |ledger| ==>
         amounts[i] <= ledger[i].size && (amounts[i] > 0 ==> ledger[i].holder.Live?)
  }

  /** The ledger without the freed bytes; an allocation freed completely stays as an entry of size zero. */
  function Taken(ledger: seq<Entry>, amounts: seq<Size>): seq<Entry>
    requires MayTake(ledger, amounts)
  {
    seq(|ledger|, i requires 0 <= i < |ledger| => ledger[i].(size := ledger[i].size - amounts[i]))
  }

  function CheckStep(budget: Size, s: State, t: nat, size: Size, observed: Size): State
    requires t < |s.threads|
  {
    var next := FetchAdd(observed, size);
    if next < observed then
      Become(s, t, Idle)
    else if s.enforce && budget != 0 && next > budget then
      Become(s.(counters := s.counters.(budgetExceeded := FetchAdd(s.counters.budgetExceeded, 1))), t, Idle)
    else
      Become(s, t, Checked(size, observed, next))
  }

  /** The step an action stands for, if it can happen in this state of a pool with this budget. */
  function Step(budget: Size, s: State, a: Action): Option<State> {
    if a.t >= |s.threads| then None
    else
      var c := s.counters;
      var thread := s.threads[a.t];
      match a
      case BeginReserve(t, size) =>
        if !thread.Idle? then None
        else if size == 0 then Some(s)
        else Some(Become(s, t, Reserving(size, c.current)))
      case Check(t) =>
        if thread.Reserving? then Some(CheckStep(budget, s, t, thread.size, thread.observed)) else None
      case Exchange(t) =>
        if !thread.Checked? then None
        else if c.current == thread.observed then
          Some(Become(s.(counters := c.(current := thread.next)), t, Reserved(thread.size)))
        else
          Some(Become(s, t, Reserving(thread.size, c.current)))
      case Cancel(t) =>
        if thread.Reserved?
        then Some(Become(s.(counters := c.(current := FetchSub(c.current, thread.size))), t, Idle)) else None
      case ReadCurrent(t) =>
        if thread.Reserved?
        then Some(Become(s.(ledger := s.ledger + [Entry(thread.size, c.current, InFlight(t))]),
                         t, Read(thread.size, c.current))) else None
      case AddAllocated(t) =>
        if thread.Read?
        then Some(Become(s.(counters := c.(totalAllocated := FetchAdd(c.totalAllocated, thread.size)),
                            bytesAllocated := s.bytesAllocated + thread.size),
                         t, Totalled(thread.size, thread.seen))) else None
      case CountAllocation(t) =>
        if thread.Totalled?
        then Some(Become(s.(counters := c.(allocationCount := FetchAdd(c.allocationCount, 1)),
                            allocations := s.allocations + 1),
                         t, Counted(thread.size, thread.seen))) else None
      case ReadPeak(t) =>
        if thread.Counted? then Some(Become(s, t, Raising(thread.size, thread.seen, c.peak))) else None
      case RaisePeak(t) =>
        if !thread.Raising? then None
        else if thread.seen <= thread.observed then
          Some(Become(s.(ledger := Settle(s.ledger, t)), t, Idle))
        else if c.peak == thread.observed then
          Some(Become(s.(ledger := Settle(s.ledger, t), counters := c.(peak := thread.seen)), t, Idle))
        else
          Some(Become(s, t, Raising(thread.size, thread.seen, c.peak)))
      case BeginFree(t, amounts) =>
        if thread.Idle? && MayTake(s.ledger, amounts)
        then Some(Become(s.(counters := c.(current := FetchSub(c.current, Total(amounts, Amount))),
                            ledger := Taken(s.ledger, amounts)),
                         t, Subtracted(Total(amounts, Amount)))) else None
      case AddFreed(t) =>
        if thread.Subtracted?
        then Some(Become(s.(counters := c.(totalFreed := FetchAdd(c.totalFreed, thread.size)),
                            bytesFreed := s.bytesFreed + thread.size),
                         t, FreeTotalled(thread.size))) else None
      case CountFree(t) =>
        if thread.FreeTotalled?
        then Some(Become(s.(counters := c.(freeCount := FetchAdd(c.freeCount, 1)), frees := s.frees + 1),
                         t, Idle)) else None
      case SetEnforcement(t, enabled) =>
        if thread.Idle? then Some(s.(enforce := enabled)) else None
  }

  /** Actions and the states between them. */
  datatype Run = Run(states: seq<State>, actions: seq<Action>)

  ghost predicate TakenAt(budget: Size, run: Run, i: nat)
    requires |run.states| == |run.actions| + 1
  {
    i < |run.actions| && Step(budget, run.states[i], run.actions[i]) == Some(run.states[i + 1])
  }

  /** The run leads from one state to the other; the trigger keeps its steps folded. */
  ghost predicate Leads(budget: Size, s: State, run: Run, s': State) {
    && |run.states| == |run.actions| + 1
    && run.states[0] == s && run.states[|run.actions|] == s'
    && forall i {:trigger TakenAt(budget, run, i)} :: 0 <= i < |run.actions| ==> TakenAt(budget, run, i)
  }

  function NoSteps(s: State): Run {
    Run([s], [])
  }

  function Further(run: Run, a: Action, s: State): Run {
    Run(run.states + [s], run.actions + [a])
  }

  /** A run without its last step. */
  function Shorter(run: Run): Run
    requires |run.states| == |run.actions| + 1 > 1
  {
    Run(run.states[..|run.actions|], run.actions[..|run.actions| - 1])
  }

  /** The largest value CurrentBytes has had during a run. */
  function HighWater(states: seq<State>): nat {
    if states == [] then 0
    else Max(HighWater(states[..|states| - 1]), states[|states| - 1].counters.current)
  }
}
