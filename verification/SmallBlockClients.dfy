/** What the holder of a live block may rely on while every other thread allocates, frees and writes. */
module SmallBlockClients {
  import opened Alignment
  import opened ByteMemory
  import opened SmallBlockClasses
  import opened SmallBlockInvariant
  import opened SmallBlockProtocol
  import opened SmallBlockRuns

  ghost predicate IsLive(s: State, x: nat) {
    x in s.blocks && s.blocks[x].owner.Live? && s.blocks[x].class_ < CLASS_COUNT
  }

  /** The block is still live for the same request. */
  ghost predicate StillLive(s: State, s': State, x: nat) {
    x in s.blocks && x in s'.blocks && s'.blocks[x] == s.blocks[x]
  }

  /** The block is still live for the same request and all its bytes are what they were. */
  ghost predicate Untouched(s: State, s': State, x: nat) {
    && StillLive(s, s', x) && s.blocks[x].class_ < CLASS_COUNT
    && AgreeOn(s.memory, s'.memory, x, ClassSize(s.blocks[x].class_))
  }

  /** The action ends the block's life or is its own client's write. */
  ghost predicate Touches(s: State, a: Action, x: nat) {
    || a.Shutdown?
    || (a.Free? && a.pointer == x)
    || (a.ClientWrite? && IsLive(s, x) && x <= a.address < x + ClassSize(s.blocks[x].class_))
  }

  lemma PopKeepsClient(s: State, t: nat, c: nat, request: Request, x: nat)
    requires Invariant(s) && t < |s.pcs| && c < CLASS_COUNT && Fresh(s, t) && s.caches[t].heads[c] != 0
    requires IsLive(s, x)
    ensures Untouched(s, Pop(s, t, c, request), x)
  {
    HeadIsListed(s, t, c);
  }

  lemma AllocateKeepsClient(s: State, t: nat, request: Request, x: nat)
    requires Invariant(s) && t < |s.pcs| && s.pcs[t].Idle? && IsLive(s, x)
    ensures Untouched(s, AllocateStep(s, t, request), x)
  {
    var class_ := ClassIndex(request.size, request.alignment);
    if s.initialized && class_.Some? && IsPowerOfTwo(request.alignment) {
      ResetKeeps(s, t);
      var r := ResetIfStale(s, t);
      if r.caches[t].heads[class_.value] != 0 {
        PopKeepsClient(r, t, class_.value, request, x);
      }
    }
  }

  lemma FinishKeepsClient(s: State, t: nat, x: nat)
    requires Invariant(s) && MayFinish(s, t) && IsLive(s, x)
    ensures Untouched(s, FinishStep(s, t), x)
  {
    CompletedKeeps(s, t);
    RefilledListIsNonempty(s, t);
    PopKeepsClient(Completed(s, t), t, s.pcs[t].class_, s.pcs[t].request, x);
  }

  lemma FreeKeepsClient(s: State, t: nat, pointer: nat, request: Request, x: nat)
    requires Invariant(s) && t < |s.pcs| && (pointer == 0 || OwnsLive(s, pointer, request))
    requires IsLive(s, x) && pointer != x
    ensures Untouched(s, FreeStep(s, t, pointer, request), x)
  {
    if pointer != 0 {
      FreedClass(s, pointer, request);
      BlocksApart(s, pointer, x);
    }
  }

  lemma CarveKeepsClient(s: State, t: nat, x: nat)
    requires Invariant(s) && MayCarve(s, t) && IsLive(s, x)
    ensures Untouched(s, CarveStep(s, t), x)
  {
    var pc, p := s.pcs[t], CarveStep(s, t);
    NextBlockIsNew(s, t);
    CarveKeeps(s, t);
    BlocksApart(p, BlockAt(pc.base, pc.class_, pc.next), x);
  }

  /** A step of any thread leaves a live block and its bytes alone unless it is aimed at that block. */
  lemma StepKeepsClient(s: State, a: Action, x: nat)
    requires Invariant(s) && Step(s, a).Some? && IsLive(s, x) && !Touches(s, a, x)
    ensures Untouched(s, Step(s, a).value, x)
  {
    match a
    case Allocate(t, request) => AllocateKeepsClient(s, t, request, x);
    case FinishRefill(t) => FinishKeepsClient(s, t, x);
    case Free(t, pointer, request) => FreeKeepsClient(s, t, pointer, request, x);
    case Carve(t) => CarveKeepsClient(s, t, x);
    case _ =>
  }

  /** What one more step leaves alone adds to what the steps before it left alone. */
  lemma UntouchedFurther(s: State, m: State, a: Action, x: nat)
    requires Untouched(s, m, x) && IsLive(s, x)
    requires Invariant(m) && Step(m, a).Some? && !Touches(m, a, x)
    ensures Untouched(s, Step(m, a).value, x)
  {
    StepKeepsClient(m, a, x);
  }

  /** The i-th step of a run touches the block. */
  ghost predicate TouchesAt(run: Run, x: nat, i: nat)
    requires |run.states| == |run.actions| + 1
  {
    i < |run.actions| && Touches(run.states[i], run.actions[i], x)
  }

  ghost predicate NeverTouched(run: Run, x: nat)
    requires |run.states| == |run.actions| + 1
  {
    forall i {:trigger TouchesAt(run, x, i)} :: 0 <= i < |run.actions| ==> !TouchesAt(run, x, i)
  }

  lemma {:induction false} RunKeepsClient(s: State, run: Run, s': State, x: nat)
    requires Invariant(s) && ThreadsFit(|s.pcs|) && Leads(s, run, s')
    requires IsLive(s, x) && NeverTouched(run, x)
    ensures Untouched(s, s', x)
    decreases |run.actions|
  {
    if run.actions != [] {
      var last := |run.actions| - 1;
      LeadsShorter(s, run, s');
      forall i | 0 <= i < last ensures !TouchesAt(Shorter(run), x, i) {
        assert !TouchesAt(run, x, i);
      }
      RunKeepsClient(s, Shorter(run), run.states[last], x);
      RunKeepsInvariant(s, Shorter(run), run.states[last]);
      assert !TouchesAt(run, x, last);
      UntouchedFurther(s, run.states[last], run.actions[last], x);
    }
  }

  /**
   In every run, from the moment a block is live it stays live for the same request and keeps every byte, whatever
   the threads do, until it is freed, the allocator is shut down, or a client writes to that very block.
   */
  lemma LiveBlockKeepsItsBytes(memory: Memory, threadCount: nat, before: Run, s: State, later: Run, s': State, x: nat)
    requires Reaches(memory, threadCount, before, s) && IsLive(s, x)
    requires Leads(s, later, s') && NeverTouched(later, x)
    ensures Untouched(s, s', x)
  {
    ReachedInvariant(memory, threadCount, before, s);
    RunKeepsClient(s, later, s', x);
  }
}
