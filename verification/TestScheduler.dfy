/**
 The test scheduler: workers that claim test indices from one shared counter.  Every interleaving of
 their steps produces the result vector of the sequential loop and runs each test exactly once.
 */
module TestScheduler {
  import opened Arithmetic
  import opened Sums
  import opened Options
  import opened Words

  // ---- pure decisions ----

  datatype JobMode = Sequential | Fixed | Auto

  const DEFAULT_MAXIMUM_AUTO_JOB_COUNT := 8

  datatype TestStatus = Passed | Failed | TimedOut | Missing | LaunchFailed | RunnerError

  /** Never more workers than tests, and at least one as soon as there is a test. */
  function ResolveWorkerCount(mode: JobMode, requestedJobCount: nat, hardware: nat, testCount: nat): (r: nat)
    ensures r <= testCount
    ensures r == 0 <==> testCount == 0
    ensures testCount > 0 && mode == Sequential ==> r == 1
    ensures mode == Fixed && 1 <= requestedJobCount <= testCount ==> r == requestedJobCount
    ensures mode == Fixed && requestedJobCount > testCount ==> r == testCount
    ensures mode == Fixed && requestedJobCount == 0 ==> r <= 1
    ensures mode == Auto ==> r <= 8 && r <= Max(hardware, 2)
    ensures mode == Auto && 1 <= hardware <= Min(testCount, 8) ==> r == hardware
    ensures mode == Auto && hardware >= Min(testCount, 8) && hardware > 0 ==> r == Min(testCount, 8)
    ensures mode == Auto && hardware == 0 ==> r == Min(testCount, 2)
  {
    if testCount == 0 then 0
    else match mode
      case Sequential => 1
      case Fixed => Max(1, Min(requestedJobCount, testCount))
      case Auto =>
        var hardwareThreadCount := if hardware == 0 then 2 else hardware;
        Max(1, Min(testCount, Min(hardwareThreadCount, DEFAULT_MAXIMUM_AUTO_JOB_COUNT)))
  }

  function Unsuccessful(status: TestStatus): nat {
    if status == Passed then 0 else 1
  }

  /** The 32-bit count of unsuccessful tests. */
  method CountUnsuccessfulTests(statuses: seq<TestStatus>) returns (count: nat)
    ensures count == Total(statuses, Unsuccessful) % UINT32_VALUES
    ensures |statuses| < UINT32_VALUES ==> (count == 0 <==> forall i :: 0 <= i < |statuses| ==> statuses[i] == Passed)
  {
    count := 0;
    for i := 0 to |statuses|
      invariant count == Total(statuses[..i], Unsuccessful) % UINT32_VALUES
      invariant Total(statuses[..i], Unsuccessful) <= i
    {
      TotalAppend(statuses[..i], statuses[i], Unsuccessful);
      ModAdd(Total(statuses[..i], Unsuccessful), 1, UINT32_VALUES);
      assert statuses[..i + 1] == statuses[..i] + [statuses[i]];
      if statuses[i] != Passed {
        count := (count + 1) % UINT32_VALUES;
      }
    }
    assert statuses[..|statuses|] == statuses;
    TotalZeroIff(statuses, Unsuccessful);
  }

  // ---- the sequential reference ----

  /** What running the test at a position yields. */
  type Runner<!T, !R> = (nat, T) -> R

  function Outcomes<T, R>(tests: seq<T>, run: Runner<T, R>): seq<R> {
    seq(|tests|, i requires 0 <= i < |tests| => run(i, tests[i]))
  }

  method RunSequential<T, R>(tests: seq<T>, run: Runner<T, R>) returns (results: seq<R>)
    ensures results == Outcomes(tests, run)
  {
    results := [];
    for i := 0 to |tests|
      invariant |results| == i
      invariant forall j :: 0 <= j < i ==> results[j] == run(j, tests[j])
    {
      results := results + [run(i, tests[i])];
    }
  }

  // ---- the workers ----

  datatype Worker<R> =
    | Claiming                        // before the fetch-and-add
    | Running(index: nat)             // holds an index, the test has not run yet
    | Storing(index: nat, result: R)  // the test has run, its result is not stored yet
    | Finished

  /** How far a test has come; kept only to state the invariant. */
  datatype Claim = Unclaimed | Held(worker: nat) | Stored

  datatype State<R> = State(
    next: nat,
    results: seq<R>,
    workers: seq<Worker<R>>,
    runs: seq<nat>,      // how often each test has been run
    claims: seq<Claim>)

  function Initial<R>(testCount: nat, workerCount: nat, default: R): State<R> {
    State(0, seq(testCount, _ => default), seq(workerCount, _ => Claiming),
          seq(testCount, _ => 0), seq(testCount, _ => Unclaimed))
  }

  /** The one step worker w can take, if it has not left its loop. */
  function Step<T, R>(tests: seq<T>, run: Runner<T, R>, s: State<R>, w: nat): Option<State<R>> {
    if w >= |s.workers| then None
    else match s.workers[w]
      case Claiming =>
        var index := s.next;
        var s' := s.(next := (s.next + 1) % WORD_VALUES);
        if index >= |tests| then
          Some(s'.(workers := s.workers[w := Finished]))
        else if index < |s.claims| then
          Some(s'.(workers := s.workers[w := Running(index)], claims := s.claims[index := Held(w)]))
        else None
      case Running(index) =>
        if index < |tests| && index < |s.runs| then
          Some(s.(workers := s.workers[w := Storing(index, run(index, tests[index]))],
                  runs := s.runs[index := s.runs[index] + 1]))
        else None
      case Storing(index, result) =>
        if index < |s.results| && index < |s.claims| then
          Some(s.(workers := s.workers[w := Claiming],
                  results := s.results[index := result],
                  claims := s.claims[index := Stored]))
        else None
      case Finished => None
  }

  /** The state after the workers have taken turns as scheduled, oldest turn first. */
  function Execute<T, R>(tests: seq<T>, run: Runner<T, R>, s: State<R>, schedule: seq<nat>): Option<State<R>> {
    if schedule == [] then Some(s)
    else
      var last := |schedule| - 1;
      match Execute(tests, run, s, schedule[..last])
      case None => None
      case Some(t) => Step(tests, run, t, schedule[last])
  }

  predicate AllFinished<R(!new)>(s: State<R>) {
    forall w :: 0 <= w < |s.workers| ==> s.workers[w].Finished?
  }

  // ---- the invariant ----

  ghost predicate Holds<R(!new)>(s: State<R>, w: nat, index: nat) {
    w < |s.workers| && (s.workers[w].Running? || s.workers[w].Storing?) && s.workers[w].index == index
  }

  ghost predicate TestInvariant<T, R(!new)>(tests: seq<T>, run: Runner<T, R>, s: State<R>, i: nat)
    requires i < |tests| == |s.results| == |s.runs| == |s.claims|
  {
    match s.claims[i]
    case Unclaimed => s.next <= i && s.runs[i] == 0
    case Held(w) =>
      && i < s.next
      && Holds(s, w, i)
      && (s.workers[w].Running? ==> s.runs[i] == 0)
      && (s.workers[w].Storing? ==> s.runs[i] == 1 && s.workers[w].result == run(i, tests[i]))
    case Stored => i < s.next && s.runs[i] == 1 && s.results[i] == run(i, tests[i])
  }

  ghost predicate WorkerInvariant<T, R(!new)>(tests: seq<T>, s: State<R>, w: nat)
    requires w < |s.workers| && |tests| == |s.claims|
  {
    match s.workers[w]
    case Claiming => true
    case Running(index) => index < |tests| && s.claims[index] == Held(w)
    case Storing(index, _) => index < |tests| && s.claims[index] == Held(w)
    case Finished => |tests| < s.next
  }

  function LeftLoop<R>(worker: Worker<R>): nat {
    if worker.Finished? then 1 else 0
  }

  ghost predicate Invariant<T, R(!new)>(tests: seq<T>, run: Runner<T, R>, s: State<R>) {
    && |s.results| == |s.runs| == |s.claims| == |tests|
    && s.next <= |tests| + Total(s.workers, LeftLoop)
    && (forall i :: 0 <= i < |tests| ==> TestInvariant(tests, run, s, i))
    && (forall w :: 0 <= w < |s.workers| ==> WorkerInvariant(tests, s, w))
  }

  lemma {:induction false} LeftLoopBound<R>(workers: seq<Worker<R>>)
    ensures Total(workers, LeftLoop) <= |workers|
  {
    if workers != [] {
      LeftLoopBound(workers[1..]);
    }
  }

  lemma {:induction false} NobodyLeft<R>(workers: seq<Worker<R>>)
    requires forall w :: 0 <= w < |workers| ==> !workers[w].Finished?
    ensures Total(workers, LeftLoop) == 0
  {
    TotalZeroIff(workers, LeftLoop);
  }

  lemma InitialInvariant<T, R(!new)>(tests: seq<T>, run: Runner<T, R>, workerCount: nat, default: R)
    ensures Invariant(tests, run, Initial(|tests|, workerCount, default))
  {
    NobodyLeft(Initial(|tests|, workerCount, default).workers);
  }

  /** The vectors of tests and workers fit in memory together, so the shared counter cannot wrap. */
  ghost predicate Fits(testCount: nat, workerCount: nat) {
    testCount + workerCount < WORD_VALUES
  }

  lemma StepKeepsTests<T, R(!new)>(tests: seq<T>, run: Runner<T, R>, s: State<R>, w: nat)
    requires Invariant(tests, run, s) && Step(tests, run, s, w).Some? && s.next + 1 < WORD_VALUES
    ensures var s' := Step(tests, run, s, w).value;
            && |s'.results| == |s'.runs| == |s'.claims| == |tests|
            && forall i :: 0 <= i < |tests| ==> TestInvariant(tests, run, s', i)
  {
    var s' := Step(tests, run, s, w).value;
    assert WorkerInvariant(tests, s, w);
    forall i | 0 <= i < |tests| ensures TestInvariant(tests, run, s', i) {
      assert TestInvariant(tests, run, s, i);
    }
  }

  lemma StepKeepsWorkers<T, R(!new)>(tests: seq<T>, run: Runner<T, R>, s: State<R>, w: nat)
    requires Invariant(tests, run, s) && Step(tests, run, s, w).Some? && s.next + 1 < WORD_VALUES
    ensures var s' := Step(tests, run, s, w).value;
            && |s'.claims| == |tests| && |s'.workers| == |s.workers|
            && forall v :: 0 <= v < |s'.workers| ==> WorkerInvariant(tests, s', v)
  {
    var s' := Step(tests, run, s, w).value;
    assert WorkerInvariant(tests, s, w);
    forall v | 0 <= v < |s'.workers| ensures WorkerInvariant(tests, s', v) {
      assert WorkerInvariant(tests, s, v);
      if s.next < |tests| {
        assert TestInvariant(tests, run, s, s.next);
      }
    }
  }

  lemma StepKeepsInvariant<T, R(!new)>(tests: seq<T>, run: Runner<T, R>, s: State<R>, w: nat)
    requires Invariant(tests, run, s) && Fits(|tests|, |s.workers|)
    requires Step(tests, run, s, w).Some?
    ensures Invariant(tests, run, Step(tests, run, s, w).value)
    ensures |Step(tests, run, s, w).value.workers| == |s.workers|
  {
    var s' := Step(tests, run, s, w).value;
    TotalUpdate(s.workers, w, s'.workers[w], LeftLoop);
    LeftLoopBound(s'.workers);
    LeftLoopBound(s.workers[w := Finished]);
    TotalUpdate(s.workers, w, Finished, LeftLoop);
    StepKeepsTests(tests, run, s, w);
    StepKeepsWorkers(tests, run, s, w);
  }

  lemma {:induction false} ExecutionKeepsInvariant<T, R(!new)>(
    tests: seq<T>, run: Runner<T, R>, s: State<R>, schedule: seq<nat>)
    requires Invariant(tests, run, s) && Fits(|tests|, |s.workers|)
    requires Execute(tests, run, s, schedule).Some?
    ensures Invariant(tests, run, Execute(tests, run, s, schedule).value)
    ensures |Execute(tests, run, s, schedule).value.workers| == |s.workers|
  {
    if schedule != [] {
      var last := |schedule| - 1;
      ExecutionKeepsInvariant(tests, run, s, schedule[..last]);
      StepKeepsInvariant(tests, run, Execute(tests, run, s, schedule[..last]).value, schedule[last]);
    }
  }

  lemma FinishedStateIsSequential<T, R(!new)>(tests: seq<T>, run: Runner<T, R>, s: State<R>)
    requires Invariant(tests, run, s) && AllFinished(s) && |s.workers| > 0
    ensures s.results == Outcomes(tests, run)
    ensures forall i :: 0 <= i < |tests| ==> s.runs[i] == 1
  {
    assert WorkerInvariant(tests, s, 0);
    forall i | 0 <= i < |tests| ensures s.runs[i] == 1 && s.results[i] == run(i, tests[i]) {
      assert TestInvariant(tests, run, s, i);
    }
  }

  // ---- main results ----

  /** Every complete interleaving equals the sequential run, and no test is skipped or repeated. */
  lemma ParallelEqualsSequential<T, R(!new)>(
    tests: seq<T>, run: Runner<T, R>, workerCount: nat, default: R, schedule: seq<nat>, s: State<R>)
    requires workerCount > 0 && Fits(|tests|, workerCount)
    requires Execute(tests, run, Initial(|tests|, workerCount, default), schedule) == Some(s)
    requires AllFinished(s)
    ensures s.results == Outcomes(tests, run)
    ensures |s.runs| == |tests| && forall i :: 0 <= i < |tests| ==> s.runs[i] == 1
  {
    InitialInvariant(tests, run, workerCount, default);
    ExecutionKeepsInvariant(tests, run, Initial(|tests|, workerCount, default), schedule);
    FinishedStateIsSequential(tests, run, s);
  }

  function Remaining<R>(worker: Worker<R>): nat {
    match worker
    case Claiming => 1
    case Running(_) => 3
    case Storing(_, _) => 2
    case Finished => 0
  }

  /** Steps still to be taken before all workers have left. */
  function Work<R>(testCount: nat, s: State<R>): nat {
    3 * (if s.next < testCount then testCount - s.next else 0) + Total(s.workers, Remaining)
  }

  lemma StepDoesWork<T, R(!new)>(tests: seq<T>, run: Runner<T, R>, s: State<R>, w: nat)
    requires Invariant(tests, run, s) && Fits(|tests|, |s.workers|)
    requires Step(tests, run, s, w).Some?
    ensures Work(|tests|, s) == Work(|tests|, Step(tests, run, s, w).value) + 1
  {
    TotalUpdate(s.workers, w, Step(tests, run, s, w).value.workers[w], Remaining);
    LeftLoopBound(s.workers[w := Finished]);
    TotalUpdate(s.workers, w, Finished, LeftLoop);
  }

  /** A worker that has not left its loop can always take its step. */
  lemma NoWorkerBlocks<T, R(!new)>(tests: seq<T>, run: Runner<T, R>, s: State<R>, w: nat)
    requires Invariant(tests, run, s) && w < |s.workers|
    ensures Step(tests, run, s, w).Some? <==> !s.workers[w].Finished?
  {
    assert WorkerInvariant(tests, s, w);
  }

  lemma {:induction false} ExecutionDoesWork<T, R(!new)>(
    tests: seq<T>, run: Runner<T, R>, s: State<R>, schedule: seq<nat>)
    requires Invariant(tests, run, s) && Fits(|tests|, |s.workers|)
    requires Execute(tests, run, s, schedule).Some?
    ensures Work(|tests|, s) == Work(|tests|, Execute(tests, run, s, schedule).value) + |schedule|
  {
    if schedule != [] {
      var last := |schedule| - 1;
      ExecutionKeepsInvariant(tests, run, s, schedule[..last]);
      ExecutionDoesWork(tests, run, s, schedule[..last]);
      StepDoesWork(tests, run, Execute(tests, run, s, schedule[..last]).value, schedule[last]);
    }
  }

  lemma {:induction false} ClaimingWork<R>(workers: seq<Worker<R>>)
    requires forall w :: 0 <= w < |workers| ==> workers[w].Claiming?
    ensures Total(workers, Remaining) == |workers|
  {
    if workers != [] {
      ClaimingWork(workers[1..]);
    }
  }

  lemma FreshWork<R>(testCount: nat, workerCount: nat, default: R)
    ensures Work(testCount, Initial(testCount, workerCount, default)) == 3 * testCount + workerCount
  {
    ClaimingWork(Initial(testCount, workerCount, default).workers);
  }

  lemma NoWorkLeftIff<T, R(!new)>(tests: seq<T>, run: Runner<T, R>, s: State<R>)
    requires Invariant(tests, run, s) && |s.workers| > 0
    ensures Work(|tests|, s) == 0 <==> AllFinished(s)
  {
    TotalZeroIff(s.workers, Remaining);
    assert WorkerInvariant(tests, s, 0);
  }

  lemma WorkDone<T, R(!new)>(tests: seq<T>, run: Runner<T, R>, s0: State<R>, schedule: seq<nat>, s: State<R>)
    requires Invariant(tests, run, s0) && Fits(|tests|, |s0.workers|) && |s0.workers| > 0
    requires Execute(tests, run, s0, schedule) == Some(s)
    ensures |schedule| <= Work(|tests|, s0)
    ensures AllFinished(s) <==> |schedule| == Work(|tests|, s0)
  {
    ExecutionKeepsInvariant(tests, run, s0, schedule);
    ExecutionDoesWork(tests, run, s0, schedule);
    NoWorkLeftIff(tests, run, s);
  }

  /** Joining terminates: an interleaving is complete exactly when it has three steps a test and one a worker. */
  lemma CompleteRunLength<T, R(!new)>(
    tests: seq<T>, run: Runner<T, R>, workerCount: nat, default: R, schedule: seq<nat>, s: State<R>)
    requires workerCount > 0 && Fits(|tests|, workerCount)
    requires Execute(tests, run, Initial(|tests|, workerCount, default), schedule) == Some(s)
    ensures |schedule| <= 3 * |tests| + workerCount
    ensures AllFinished(s) <==> |schedule| == 3 * |tests| + workerCount
  {
    InitialInvariant(tests, run, workerCount, default);
    FreshWork(|tests|, workerCount, default);
    WorkDone(tests, run, Initial(|tests|, workerCount, default), schedule, s);
  }

  /** The workers run in an arbitrary order until all have left. */
  method RunParallel<T, R(!new)>(tests: seq<T>, workerCount: nat, run: Runner<T, R>, default: R)
    returns (results: seq<R>, ghost runs: seq<nat>)
    requires workerCount > 0 && Fits(|tests|, workerCount)
    ensures results == Outcomes(tests, run)
    ensures |runs| == |tests| && forall i :: 0 <= i < |tests| ==> runs[i] == 1
  {
    var s := Initial(|tests|, workerCount, default);
    InitialInvariant(tests, run, workerCount, default);
    while !AllFinished(s)
      invariant Invariant(tests, run, s) && |s.workers| == workerCount
      decreases Work(|tests|, s)
    {
      var w: nat :| w < |s.workers| && !s.workers[w].Finished?;
      NoWorkerBlocks(tests, run, s, w);
      StepKeepsInvariant(tests, run, s, w);
      StepDoesWork(tests, run, s, w);
      s := Step(tests, run, s, w).value;
    }
    FinishedStateIsSequential(tests, run, s);
    results, runs := s.results, s.runs;
  }

  /** Whatever the worker count, the results are those of the sequential loop. */
  method RunTests<T, R(!new)>(tests: seq<T>, workerCount: nat, run: Runner<T, R>, default: R)
    returns (results: seq<R>)
    requires Fits(|tests|, workerCount)
    ensures results == Outcomes(tests, run)
    ensures |results| == |tests| && forall i :: 0 <= i < |tests| ==> results[i] == run(i, tests[i])
  {
    if workerCount <= 1 || |tests| <= 1 {
      results := RunSequential(tests, run);
    } else {
      ghost var runs;
      results, runs := RunParallel(tests, workerCount, run, default);
    }
  }
}
