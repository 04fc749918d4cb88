/**
 The small block allocator's code, run by one calling thread at a time.  Every call is a run of the
 protocol's steps by that thread: `model` is the protocol state the fields stand for, and each call
 returns the steps it took, so what holds of all runs holds of the code.
 */
module SmallBlockAllocator {
  import opened Alignment
  import opened AllocationValidation
  import opened ByteMemory
  import opened Options
  import opened SmallBlockClasses
  import opened SmallBlockClients
  import opened SmallBlockInvariant
  import opened SmallBlockProtocol
  import opened SmallBlockRuns
  import opened Words

  // ---- the steps of a call ----

  /** Every action of the run is thread t's. */
  ghost predicate OwnActions(run: Run, t: nat) {
    forall i :: 0 <= i < |run.actions| ==> run.actions[i].t == t
  }

  /** Every live block but the excepted one is still live for the same request. */
  ghost predicate KeepsLive(s: State, s': State, except: nat) {
    forall x :: IsLive(s, x) && x != except ==> StillLive(s, s', x)
  }

  lemma StepKeepsLive(start: State, s: State, a: Action)
    requires Invariant(s) && Step(s, a).Some? && !a.Shutdown? && !a.Free? && !a.ClientWrite?
    requires KeepsLive(start, s, 0)
    ensures KeepsLive(start, Step(s, a).value, 0)
  {
    forall x | IsLive(start, x) && x != 0 ensures StillLive(start, Step(s, a).value, x) {
      assert StillLive(start, s, x);
      StepKeepsClient(s, a, x);
    }
  }

  // ---- facts the methods need ----

  /** What a thread that got a slab needs to know about the shared count and its class. */
  lemma CountFits(s: State, t: nat)
    requires Invariant(s) && ThreadsFit(|s.pcs|) && t < |s.pcs| && s.pcs[t].GotSlab?
    ensures s.pcs[t].class_ < CLASS_COUNT && s.slabCount + 1 < UINT32_VALUES
    ensures s.slabCount < MAX_SLABS ==> s.slabCount < |s.slabs|
  {
    OverflowBound(s.pcs);
    assert PcOk(s, t);
  }

  /** A thread whose slab found the table full. */
  function Refused(s: State, t: nat): State
    requires t < |s.pcs| && s.pcs[t].GotSlab?
  {
    Goto(s, t, Rejected(s.pcs[t].request, s.pcs[t].class_, s.pcs[t].base))
  }

  /** A slab taken from the backend and given back leaves the held slabs as they were. */
  lemma RegionReturned(s: State, t: nat, base: nat)
    requires t < |s.pcs| && s.pcs[t].Missed? && s.pcs[t].class_ < CLASS_COUNT
    requires BackendMayAnswer(s, base, s.pcs[t].class_)
    ensures ReturnStep(Refused(TakeSlab(s, t, base), t), t) == s.(pcs := s.pcs[t := Idle])
  {
    assert TakeSlab(s, t, base).regions - {base} == s.regions;
    assert s.pcs[t := TakeSlab(s, t, base).pcs[t]][t := Idle] == s.pcs[t := Idle];
  }

  lemma UpAndDown(n: Uint32)
    requires n + 1 < UINT32_VALUES
    ensures (n + 1) % UINT32_VALUES == n + 1 && (n + 1 - 1) % UINT32_VALUES == n
  {
  }

  lemma ClearedStep(table: seq<Slab>, n: nat)
    requires n < |table|
    ensures Cleared(table, n)[n] == table[n]
    ensures Cleared(table, n + 1) == if table[n].base != 0 then Cleared(table, n)[n := NO_SLAB] else Cleared(table, n)
  {
  }

  lemma ClearedNone(table: seq<Slab>)
    ensures Cleared(table, 0) == table
  {
  }

  /** A used table entry names a held slab, and the alignment it was asked for with. */
  lemma SlabHasItsClass(s: State, slab: Slab)
    requires Invariant(s) && slab in s.slabs && slab.base != 0
    ensures slab.base in s.regions && s.regions[slab.base].class_ < CLASS_COUNT
    ensures slab.classSize == ClassSize(s.regions[slab.base].class_)
  {
    var i :| 0 <= i < |s.slabs| && s.slabs[i] == slab;
    assert IndexOk(s, i);
  }

  /** After a shutdown no table entry is in use. */
  lemma ShutdownEmptiesTable(s: State, i: nat)
    requires Invariant(s) && AllIdle(s) && s.generation + 1 < UINT32_VALUES && i < MAX_SLABS
    ensures ShutdownStep(s).slabs[i] == NO_SLAB
  {
    ShutdownKeeps(s);
    assert IndexOk(ShutdownStep(s), i);
  }

  /** A stale or empty list makes a call ask the backend. */
  ghost predicate ListIsUsable(s: State, t: nat, c: nat)
    requires WellShaped(s) && t < |s.pcs| && c < CLASS_COUNT
  {
    Fresh(s, t) && s.caches[t].heads[c] != 0
  }

  /** When a request is served: it has a class, and its list has a block or a new slab fits the table. */
  ghost predicate IsServed(s: State, t: nat, request: Request, answer: nat)
    requires WellShaped(s) && t < |s.pcs|
  {
    && s.initialized && IsSmallBlockAllocationSupported(request.size, request.alignment)
    && (|| ListIsUsable(s, t, ClassIndex(request.size, request.alignment).value)
        || (answer != 0 && s.slabCount < MAX_SLABS))
  }

  /** When a slab of the backend's finds the table full. */
  ghost predicate IsRefused(s: State, t: nat, request: Request)
    requires WellShaped(s) && t < |s.pcs|
  {
    && s.initialized && IsSmallBlockAllocationSupported(request.size, request.alignment)
    && !ListIsUsable(s, t, ClassIndex(request.size, request.alignment).value)
    && s.slabCount >= MAX_SLABS
  }

  /** The block was not live when the call began and is live for the request now. */
  ghost predicate Delivered(start: State, s: State, pointer: nat, request: Request) {
    && pointer != 0 && !IsLive(start, pointer)
    && IsLive(s, pointer) && s.blocks[pointer].owner == Live(request)
  }

  /** A pop from a usable list delivers its head. */
  lemma PopDelivers(start: State, s: State, t: nat, c: nat, request: Request)
    requires Invariant(s) && t < |s.pcs| && c < CLASS_COUNT && ListIsUsable(s, t, c) && KeepsLive(start, s, 0)
    ensures Delivered(start, Pop(s, t, c, request), s.caches[t].heads[c], request)
  {
    var head := s.caches[t].heads[c];
    HeadIsListed(s, t, c);
    assert IsLive(start, head) ==> StillLive(start, s, head);
  }

  lemma FinishDelivers(start: State, s: State, t: nat)
    requires Invariant(s) && MayFinish(s, t) && KeepsLive(start, s, 0)
    ensures var c := s.pcs[t].class_;
            && ListIsUsable(s, t, c)
            && FinishStep(s, t) == Pop(Completed(s, t), t, c, s.pcs[t].request)
            && Delivered(start, FinishStep(s, t), s.caches[t].heads[c], s.pcs[t].request)
  {
    RefilledListIsNonempty(s, t);
    CompletedKeeps(s, t);
    var completed := Completed(s, t);
    forall x | IsLive(start, x) && x != 0 ensures StillLive(start, completed, x) {
      assert StillLive(start, s, x);
    }
    PopDelivers(start, completed, t, s.pcs[t].class_, s.pcs[t].request);
  }

  /** What a registration that finds room changes. */
  lemma RegisteredFields(s: State, t: nat, p: State)
    requires Invariant(s) && t < |s.pcs| && s.pcs[t].GotSlab? && s.slabCount < MAX_SLABS && s.pcs[t].class_ < CLASS_COUNT
    requires p == StoreStep(ClaimStep(s, t), t)
    ensures var pc := s.pcs[t];
            && p.pcs == s.pcs[t := Carving(pc.request, pc.class_, pc.base, 0)]
            && p.slabs == s.slabs[s.slabCount := Slab(pc.base, ClassSize(pc.class_))]
    ensures p.slabCount == s.slabCount + 1 && p.regions.Keys == s.regions.Keys
    ensures p.memory == s.memory && p.caches == s.caches
    ensures p.initialized == s.initialized && p.generation == s.generation
  {
    UpAndDown(s.slabCount);
    assert PcOk(s, t);
  }

  lemma CarvedFields(s: State, t: nat, p: State)
    requires Invariant(s) && MayCarve(s, t) && p == CarveStep(s, t)
    ensures var pc := s.pcs[t];
            var block := BlockAt(pc.base, pc.class_, pc.next);
            && p.pcs == s.pcs[t := pc.(next := pc.next + 1)]
            && p.memory == StoreWord(s.memory, block, s.caches[t].heads[pc.class_])
            && p.caches == s.caches[t := s.caches[t].(heads := s.caches[t].heads[pc.class_ := block])]
    ensures p.slabs == s.slabs && p.slabCount == s.slabCount && p.regions.Keys == s.regions.Keys
    ensures p.initialized == s.initialized && p.generation == s.generation
  {
  }

  /** Freeing moves the block to the freeing thread's list of the block's own class. */
  lemma FreedBlock(s: State, t: nat, pointer: nat, request: Request)
    requires Invariant(s) && t < |s.pcs| && s.pcs[t].Idle? && OwnsLive(s, pointer, request)
    ensures var c := s.blocks[pointer].class_;
            && c < CLASS_COUNT && pointer != 0 && request.alignment != 0
            && ClassIndex(request.size, NormalizeAlignment(request.alignment)) == Some(c)
            && FreeStep(s, t, pointer, request) == Push(ResetIfStale(s, t), t, c, pointer, s.blocks[pointer].base)
  {
    FreedClass(s, pointer, request);
  }

  lemma FreeKeepsLive(s: State, t: nat, pointer: nat, request: Request)
    requires Invariant(s) && t < |s.pcs| && OwnsLive(s, pointer, request)
    ensures KeepsLive(s, FreeStep(s, t, pointer, request), pointer)
  {
    forall x | IsLive(s, x) && x != pointer ensures StillLive(s, FreeStep(s, t, pointer, request), x) {
      FreeKeepsClient(s, t, pointer, request, x);
    }
  }

  /** The slab goes back with the alignment it was asked for with. */
  ghost predicate TellsClass(s: State, base: nat, alignment: nat) {
    base in s.regions && s.regions[base].class_ < CLASS_COUNT && alignment == ClassSize(s.regions[base].class_)
  }

  ghost predicate TellsClasses(s: State, released: seq<nat>, alignments: seq<nat>) {
    |alignments| == |released| && forall j :: 0 <= j < |released| ==> TellsClass(s, released[j], alignments[j])
  }

  class SmallBlockAllocator {
    var memory: Memory
    var slabs: seq<Slab>
    var isInitialized: bool
    var generation: Uint32
    var slabCount: Uint32
    var caches: seq<Cache>     // one thread-local cache a thread

    ghost var model: State

    ghost predicate Matches()
      reads this
    {
      && memory == model.memory && slabs == model.slabs && caches == model.caches
      && isInitialized == model.initialized && generation == model.generation && slabCount == model.slabCount
    }

    ghost predicate Valid()
      reads this
    {
      Matches() && Invariant(model) && ThreadsFit(|model.pcs|)
    }

    /** Thread t may start a call. */
    ghost predicate Ready(t: nat)
      reads this
    {
      Valid() && t < |model.pcs| && model.pcs[t].Idle?
    }

    constructor (memory: Memory, threadCount: nat)
      requires ThreadsFit(threadCount)
      ensures Valid() && model == Initial(memory, threadCount)
    {
      this.memory := memory;
      slabs := seq(MAX_SLABS, _ => NO_SLAB);
      isInitialized, generation, slabCount := false, 1, 0;
      caches := seq(threadCount, _ => EmptyCache(0));
      model := Initial(memory, threadCount);
      InitialInvariant(memory, threadCount);
    }

    // ---- the model's steps ----

    /** Thread t is inside a call that began in `start` and has taken the steps of `trace`. */
    ghost predicate During(t: nat, start: State, trace: Run)
      reads `model
    {
      && Invariant(model) && ThreadsFit(|model.pcs|) && t < |model.pcs|
      && Leads(start, trace, model) && OwnActions(trace, t) && KeepsLive(start, model, 0)
    }

    /** The model takes one step of an allocating thread. */
    ghost method Advance(a: Action, start: State, trace: Run) returns (longer: Run)
      requires During(a.t, start, trace) && Step(model, a).Some?
      requires !a.Shutdown? && !a.Free? && !a.ClientWrite?
      modifies `model
      ensures model == Step(old(model), a).value
      ensures During(a.t, start, longer)
    {
      StepKeepsInvariant(model, a);
      StepKeepsLive(start, model, a);
      LeadsFurther(start, trace, model, a);
      model, longer := Step(model, a).value, Further(trace, a, Step(model, a).value);
    }

    /** The two steps of a successful registration. */
    ghost method Register(t: nat, start: State, trace: Run) returns (longer: Run)
      requires During(t, start, trace) && model.pcs[t].GotSlab?
      requires model.slabCount < MAX_SLABS && model.pcs[t].class_ < CLASS_COUNT
      modifies `model
      ensures During(t, start, longer)
      ensures var pc := old(model).pcs[t];
              && model.pcs == old(model).pcs[t := Carving(pc.request, pc.class_, pc.base, 0)]
              && model.slabs == old(model).slabs[old(model).slabCount := Slab(pc.base, ClassSize(pc.class_))]
      ensures model.slabCount == old(model).slabCount + 1 && model.regions.Keys == old(model).regions.Keys
      ensures model.memory == old(model).memory && model.caches == old(model).caches
      ensures model.initialized == old(model).initialized && model.generation == old(model).generation
    {
      longer := Advance(ClaimIndex(t), start, trace);
      longer := Advance(StoreSlab(t), start, longer);
      RegisteredFields(old(model), t, model);
    }

    /** The two steps of a registration that finds the table full. */
    ghost method Overflow(t: nat, start: State, trace: Run) returns (longer: Run)
      requires During(t, start, trace) && model.pcs[t].GotSlab?
      requires MAX_SLABS <= model.slabCount
      modifies `model
      ensures During(t, start, longer)
      ensures model == Refused(old(model), t)
    {
      CountFits(model, t);
      UpAndDown(model.slabCount);
      longer := Advance(ClaimIndex(t), start, trace);
      longer := Advance(RollBack(t), start, longer);
      assert model.pcs == old(model).pcs[t := model.pcs[t]];
    }

    /** The step of a call that finds a block on its list. */
    ghost method Hit(t: nat, c: nat, request: Request, start: State, trace: Run) returns (longer: Run)
      requires During(t, start, trace) && model.pcs[t].Idle?
      requires model.initialized && IsPowerOfTwo(request.alignment)
      requires ClassIndex(request.size, request.alignment) == Some(c) && ListIsUsable(model, t, c)
      modifies `model
      ensures During(t, start, longer)
      ensures var head := old(model).caches[t].heads[c];
              && model.pcs[t].Idle? && Delivered(start, model, head, request)
              && model.caches == old(model).caches[t := old(model).caches[t].(
                   heads := old(model).caches[t].heads[c := LoadWord(model.memory, head)])]
      ensures model.memory == old(model).memory && model.slabs == old(model).slabs
      ensures model.slabCount == old(model).slabCount && model.regions.Keys == old(model).regions.Keys
      ensures model.initialized == old(model).initialized && model.generation == old(model).generation
    {
      PopDelivers(start, model, t, c, request);
      longer := Advance(Allocate(t, request), start, trace);
    }

    /** The step of a call that finds no block on its list. */
    ghost method Miss(t: nat, c: nat, request: Request, start: State, trace: Run) returns (longer: Run)
      requires During(t, start, trace) && model.pcs[t].Idle?
      requires model.initialized && IsPowerOfTwo(request.alignment)
      requires ClassIndex(request.size, request.alignment) == Some(c) && !ListIsUsable(model, t, c)
      modifies `model
      ensures During(t, start, longer)
      ensures model.pcs[t] == Missed(request, c)
      ensures model.caches == ResetIfStale(old(model), t).caches
      ensures model.regions == old(model).regions && model.blocks == old(model).blocks
      ensures model.memory == old(model).memory && model.slabs == old(model).slabs
      ensures model.slabCount == old(model).slabCount
      ensures model.initialized == old(model).initialized && model.generation == old(model).generation
    {
      longer := Advance(Allocate(t, request), start, trace);
    }

    /** The backend's answer to a miss. */
    ghost method Answer(t: nat, answer: nat, start: State, trace: Run) returns (longer: Run)
      requires During(t, start, trace) && model.pcs[t].Missed?
      requires model.pcs[t].class_ < CLASS_COUNT
      requires answer == 0 || BackendMayAnswer(model, answer, model.pcs[t].class_)
      modifies `model
      ensures During(t, start, longer)
      ensures model == if answer == 0 then Goto(old(model), t, Idle) else TakeSlab(old(model), t, answer)
    {
      longer := Advance(BackendAnswer(t, answer), start, trace);
    }

    /** The rejected slab goes back to the backend. */
    ghost method GiveBack(t: nat, start: State, trace: Run) returns (longer: Run)
      requires During(t, start, trace) && model.pcs[t].Rejected?
      modifies `model
      ensures During(t, start, longer)
      ensures model == ReturnStep(old(model), t)
    {
      longer := Advance(ReturnSlab(t), start, trace);
    }

    /** One turn of the carving loop. */
    ghost method CarveOne(t: nat, start: State, trace: Run) returns (longer: Run)
      requires During(t, start, trace) && MayCarve(model, t)
      modifies `model
      ensures During(t, start, longer)
      ensures var pc := old(model).pcs[t];
              var block := BlockAt(pc.base, pc.class_, pc.next);
              && model.pcs == old(model).pcs[t := pc.(next := pc.next + 1)]
              && model.memory == StoreWord(old(model).memory, block, old(model).caches[t].heads[pc.class_])
              && model.caches == old(model).caches[t := old(model).caches[t].(
                   heads := old(model).caches[t].heads[pc.class_ := block])]
      ensures model.slabs == old(model).slabs && model.slabCount == old(model).slabCount
      ensures model.regions.Keys == old(model).regions.Keys
      ensures model.initialized == old(model).initialized && model.generation == old(model).generation
    {
      longer := Advance(Carve(t), start, trace);
      CarvedFields(old(model), t, model);
    }

    /** The pop after a refill. */
    ghost method Finish(t: nat, start: State, trace: Run) returns (longer: Run)
      requires During(t, start, trace) && MayFinish(model, t)
      modifies `model
      ensures During(t, start, longer)
      ensures var pc := old(model).pcs[t];
              var head := old(model).caches[t].heads[pc.class_];
              && model.pcs[t].Idle? && Delivered(start, model, head, pc.request)
              && model.caches == old(model).caches[t := old(model).caches[t].(
                   heads := old(model).caches[t].heads[pc.class_ := LoadWord(model.memory, head)])]
      ensures model.memory == old(model).memory && model.slabs == old(model).slabs
      ensures model.slabCount == old(model).slabCount && model.regions.Keys == old(model).regions.Keys
      ensures model.initialized == old(model).initialized && model.generation == old(model).generation
    {
      FinishDelivers(start, model, t);
      longer := Advance(FinishRefill(t), start, trace);
    }

    // ---- the code ----

    method ResetThreadCacheIfNeeded(t: nat)
      requires t < |caches|
      modifies `caches
      ensures caches == if old(caches[t]).generation == generation then old(caches)
                        else old(caches)[t := EmptyCache(generation)]
    {
      var current := generation;
      if caches[t].generation == current {
        return;
      }
      caches := caches[t := EmptyCache(current)];
    }

    method PushBlock(t: nat, c: nat, pointer: nat)
      requires t < |caches| && c < |caches[t].heads|
      modifies `memory, `caches
      ensures memory == StoreWord(old(memory), pointer, old(caches[t]).heads[c])
      ensures caches == old(caches)[t := old(caches[t]).(heads := old(caches[t]).heads[c := pointer])]
    {
      memory := StoreWord(memory, pointer, caches[t].heads[c]);
      caches := caches[t := caches[t].(heads := caches[t].heads[c := pointer])];
    }

    method PopBlock(t: nat, c: nat) returns (pointer: nat)
      requires t < |caches| && c < |caches[t].heads|
      modifies `caches
      ensures pointer == old(caches[t]).heads[c]
      ensures pointer == 0 ==> caches == old(caches)
      ensures pointer != 0 ==>
        caches == old(caches)[t := old(caches[t]).(heads := old(caches[t]).heads[c := LoadWord(memory, pointer)])]
    {
      pointer := caches[t].heads[c];
      if pointer != 0 {
        caches := caches[t := caches[t].(heads := caches[t].heads[c := LoadWord(memory, pointer)])];
      }
    }

    /** Enters a slab into the table: succeeds exactly while the table has room, and rolls the count back otherwise. */
    method RegisterSlab(t: nat, base: nat, classSize: nat, ghost start: State, ghost trace: Run)
      returns (ok: bool, ghost longer: Run)
      requires Matches() && During(t, start, trace) && model.pcs[t].GotSlab? && model.pcs[t].class_ < CLASS_COUNT
      requires base == model.pcs[t].base && classSize == ClassSize(model.pcs[t].class_)
      modifies `slabs, `slabCount, `model
      ensures Matches() && During(t, start, longer)
      ensures ok <==> old(slabCount) < MAX_SLABS
      ensures var pc := old(model).pcs[t];
              ok ==> model.pcs[t] == Carving(pc.request, pc.class_, base, 0)
                     && old(slabCount) < |old(slabs)| && slabCount == old(slabCount) + 1
                     && slabs == old(slabs)[old(slabCount) := Slab(base, classSize)]
                     && model.regions.Keys == old(model).regions.Keys
      ensures !ok ==> slabCount == old(slabCount) && slabs == old(slabs) && model == Refused(old(model), t)
    {
      CountFits(model, t);
      UpAndDown(slabCount);
      var index := slabCount;
      slabCount := (slabCount + 1) % UINT32_VALUES;
      if index >= MAX_SLABS {
        slabCount := (slabCount - 1) % UINT32_VALUES;
        longer := Overflow(t, start, trace);
        return false, longer;
      }
      slabs := slabs[index := Slab(base, classSize)];
      longer := Register(t, start, trace);
      return true, longer;
    }

    /**
     Gets a slab from the backend and carves it: fails exactly when the backend has no memory or the table is full,
     and then the allocator holds what it held before.
     */
    method RefillThreadCache(t: nat, c: nat, answer: nat, ghost start: State, ghost trace: Run)
      returns (ok: bool, returned: nat, ghost longer: Run)
      requires Matches() && During(t, start, trace) && model.pcs[t].Missed? && model.pcs[t].class_ == c < CLASS_COUNT
      requires answer == 0 || BackendMayAnswer(model, answer, c)
      modifies this
      ensures Matches() && During(t, start, longer)
      ensures ok <==> answer != 0 && old(slabCount) < MAX_SLABS
      ensures ok ==> model.pcs[t] == Carving(old(model).pcs[t].request, c, answer, BlockCount(c))
                     && model.regions.Keys == old(model).regions.Keys + {answer}
      ensures !ok ==> model == old(model).(pcs := old(model).pcs[t := Idle])
      ensures returned == if ok then 0 else answer
    {
      if answer == 0 {
        longer := Answer(t, 0, start, trace);
        return false, 0, longer;
      }
      ok, longer := TakeSlabIn(t, c, answer, start, trace);
      if !ok {
        return false, answer, longer;
      }
      longer := CarveAll(t, c, answer, start, longer);
      return true, 0, longer;
    }

    /** A slab the backend delivered enters the table or goes back. */
    method TakeSlabIn(t: nat, c: nat, answer: nat, ghost start: State, ghost trace: Run)
      returns (ok: bool, ghost longer: Run)
      requires Matches() && During(t, start, trace) && model.pcs[t].Missed? && model.pcs[t].class_ == c < CLASS_COUNT
      requires answer != 0 && BackendMayAnswer(model, answer, c)
      modifies `slabs, `slabCount, `model
      ensures Matches() && During(t, start, longer)
      ensures ok <==> old(slabCount) < MAX_SLABS
      ensures ok ==> model.pcs[t] == Carving(old(model).pcs[t].request, c, answer, 0)
                     && model.regions.Keys == old(model).regions.Keys + {answer}
      ensures !ok ==> model == old(model).(pcs := old(model).pcs[t := Idle])
    {
      longer := Answer(t, answer, start, trace);
      var classSize := ClassSize(c);
      ok, longer := RegisterSlab(t, answer, classSize, start, longer);
      if !ok {
        longer := GiveBack(t, start, longer);
        RegionReturned(old(model), t, answer);
      }
    }

    method CarveBlock(t: nat, c: nat, base: nat, index: nat, ghost start: State, ghost trace: Run)
      returns (ghost longer: Run)
      requires Matches() && During(t, start, trace) && c < CLASS_COUNT && index < BlockCount(c)
      requires model.pcs[t].Carving? && model.pcs[t].base == base && model.pcs[t].class_ == c
      requires model.pcs[t].next == index
      modifies `memory, `caches, `model
      ensures Matches() && During(t, start, longer)
      ensures model.pcs[t] == old(model).pcs[t].(next := index + 1)
      ensures model.regions.Keys == old(model).regions.Keys
    {
      PushBlock(t, c, base + index * ClassSize(c));
      longer := CarveOne(t, start, trace);
    }

    /** Pushes every block of a registered slab. */
    method CarveAll(t: nat, c: nat, base: nat, ghost start: State, ghost trace: Run) returns (ghost longer: Run)
      requires Matches() && During(t, start, trace) && c < CLASS_COUNT
      requires model.pcs[t].Carving? && model.pcs[t].base == base && model.pcs[t].class_ == c
      requires model.pcs[t].next == 0
      modifies `memory, `caches, `model
      ensures Matches() && During(t, start, longer)
      ensures model.pcs[t] == old(model).pcs[t].(next := BlockCount(c))
      ensures model.regions.Keys == old(model).regions.Keys
    {
      var blockCount := SLAB_SIZE / ClassSize(c);
      longer := trace;
      for index := 0 to blockCount
        invariant Matches() && During(t, start, longer)
        invariant model.pcs[t] == old(model).pcs[t].(next := index)
        invariant model.regions.Keys == old(model).regions.Keys
      {
        longer := CarveBlock(t, c, base, index, start, longer);
      }
    }

    /** The pop after a refill, which always finds a block. */
    method PopAfterRefill(t: nat, c: nat, ghost start: State, ghost trace: Run)
      returns (pointer: nat, ghost longer: Run)
      requires Matches() && During(t, start, trace) && MayFinish(model, t) && model.pcs[t].class_ == c
      modifies `caches, `model
      ensures Matches() && During(t, start, longer) && model.pcs[t].Idle?
      ensures Delivered(start, model, pointer, old(model).pcs[t].request)
      ensures model.regions.Keys == old(model).regions.Keys
    {
      longer := Finish(t, start, trace);
      pointer := PopBlock(t, c);
    }

    /** What a call does when its list is empty. */
    method AllocateFromNewSlab(t: nat, c: nat, answer: nat, ghost start: State, ghost trace: Run)
      returns (pointer: nat, returned: nat, ghost longer: Run)
      requires Matches() && During(t, start, trace) && model.pcs[t].Missed? && model.pcs[t].class_ == c < CLASS_COUNT
      requires answer == 0 || BackendMayAnswer(model, answer, c)
      modifies this
      ensures Matches() && During(t, start, longer) && model.pcs[t].Idle?
      ensures pointer != 0 <==> answer != 0 && old(slabCount) < MAX_SLABS
      ensures pointer != 0 ==> Delivered(start, model, pointer, old(model).pcs[t].request)
                               && model.regions.Keys == old(model).regions.Keys + {answer}
      ensures pointer == 0 ==> model == old(model).(pcs := old(model).pcs[t := Idle])
      ensures returned == if pointer != 0 then 0 else answer
    {
      var ok;
      ok, returned, longer := RefillThreadCache(t, c, answer, start, trace);
      pointer := 0;
      if ok {
        pointer, longer := PopAfterRefill(t, c, start, longer);
      }
    }

    /** Pops a block, or leaves the call at the point where the backend is asked. */
    method PopOrMiss(t: nat, c: nat, request: Request, ghost start: State, ghost trace: Run)
      returns (pointer: nat, ghost longer: Run)
      requires Matches() && During(t, start, trace) && model.pcs[t].Idle? && isInitialized
      requires IsPowerOfTwo(request.alignment) && ClassIndex(request.size, request.alignment) == Some(c)
      modifies `caches, `model
      ensures Matches() && During(t, start, longer)
      ensures pointer != 0 <==> ListIsUsable(old(model), t, c)
      ensures pointer != 0 ==> model.pcs[t].Idle? && Delivered(start, model, pointer, request)
                               && model.regions.Keys == old(model).regions.Keys
      ensures pointer == 0 ==> model.pcs[t] == Missed(request, c)
      ensures pointer == 0 ==> model.regions == old(model).regions && model.blocks == old(model).blocks
    {
      ResetThreadCacheIfNeeded(t);
      pointer := PopBlock(t, c);
      if pointer != 0 {
        longer := Hit(t, c, request, start, trace);
      } else {
        longer := Miss(t, c, request, start, trace);
      }
    }

    /**
     Allocates by thread t; `answer` is what the backend says if it is asked, and `returned` the slab given back
     to it.  The block was not live before and is live for this request afterwards; no other live block changes.
     */
    method AllocateSmallBlock(t: nat, request: Request, answer: nat)
      returns (pointer: nat, returned: nat, ghost trace: Run)
      requires Ready(t)
      requires answer != 0 && ClassIndex(request.size, request.alignment).Some? ==>
                 BackendMayAnswer(model, answer, ClassIndex(request.size, request.alignment).value)
      modifies this
      ensures Ready(t) && Leads(old(model), trace, model) && OwnActions(trace, t) && KeepsLive(old(model), model, 0)
      ensures pointer != 0 <==> IsServed(old(model), t, request, answer)
      ensures pointer != 0 ==> Delivered(old(model), model, pointer, request)
                               && model.regions.Keys <= old(model).regions.Keys + {answer}
      ensures pointer == 0 ==> model.regions == old(model).regions && model.blocks == old(model).blocks
      ensures returned == if IsRefused(old(model), t, request) then answer else 0
    {
      trace := NoSteps(model);
      if !isInitialized {
        return 0, 0, trace;
      }
      var class_ := GetSmallBlockClassIndex(request.size, request.alignment);
      if class_.None? || !IsPowerOfTwo(request.alignment) {
        return 0, 0, trace;
      }
      returned := 0;
      pointer, trace := PopOrMiss(t, class_.value, request, model, trace);
      if pointer == 0 {
        pointer, returned, trace := AllocateFromNewSlab(t, class_.value, answer, old(model), trace);
      }
    }

    /** The step of a free. */
    ghost method Release(t: nat, pointer: nat, request: Request) returns (trace: Run)
      requires Invariant(model) && t < |model.pcs| && model.pcs[t].Idle? && OwnsLive(model, pointer, request)
      modifies `model
      ensures Invariant(model) && Leads(old(model), trace, model) && OwnActions(trace, t)
      ensures old(model).blocks[pointer].class_ < CLASS_COUNT
      ensures model == Push(ResetIfStale(old(model), t), t, old(model).blocks[pointer].class_, pointer,
                            old(model).blocks[pointer].base)
      ensures KeepsLive(old(model), model, pointer)
    {
      FreedBlock(model, t, pointer, request);
      FreeKeeps(model, t, pointer, request);
      FreeKeepsLive(model, t, pointer, request);
      LeadsFurther(model, NoSteps(model), model, Free(t, pointer, request));
      trace := Further(NoSteps(model), Free(t, pointer, request), FreeStep(model, t, pointer, request));
      model := FreeStep(model, t, pointer, request);
    }

    /**
     Frees by thread t a block any thread allocated: it becomes the head of t's list of the class it was carved for,
     and every other live block stays as it is.
     */
    method FreeSmallBlock(t: nat, pointer: nat, request: Request) returns (ghost trace: Run)
      requires Ready(t) && (pointer == 0 || OwnsLive(model, pointer, request))
      modifies `memory, `caches, `model
      ensures Ready(t) && Leads(old(model), trace, model) && OwnActions(trace, t)
      ensures pointer == 0 ==> model == old(model)
      ensures pointer != 0 ==>
        var info := old(model).blocks[pointer];
        && info.class_ < CLASS_COUNT && caches[t].heads[info.class_] == pointer && caches[t].generation == generation
        && model.blocks == old(model).blocks[pointer := info.(owner := Listed(t))]
        && model.regions == old(model).regions
      ensures KeepsLive(old(model), model, pointer)
    {
      trace := NoSteps(model);
      if pointer == 0 {
        return;
      }
      FreedBlock(model, t, pointer, request);
      if request.alignment == 0 || !IsPowerOfTwo(request.alignment) {
        return;
      }
      var alignment := NormalizeAlignment(request.alignment);
      var class_ := GetSmallBlockClassIndex(request.size, alignment);
      if class_.None? {
        return;
      }
      ResetThreadCacheIfNeeded(t);
      PushBlock(t, class_.value, pointer);
      trace := Release(t, pointer, request);
    }

    /** The release loop: frees the used table entries, each with the alignment the table has for it, and clears them. */
    method ReleaseSlabs() returns (released: seq<nat>, alignments: seq<nat>)
      requires |slabs| == MAX_SLABS
      modifies `slabs
      ensures var n := if slabCount < MAX_SLABS then slabCount else MAX_SLABS;
              released == Released(old(slabs), n) && slabs == Cleared(old(slabs), n)
      ensures |alignments| == |released|
      ensures forall j :: 0 <= j < |released| ==> released[j] != 0 && Slab(released[j], alignments[j]) in old(slabs)
    {
      var count := slabCount;
      var index := 0;
      released, alignments := [], [];
      ClearedNone(slabs);
      while index < count && index < MAX_SLABS
        invariant 0 <= index <= count && index <= MAX_SLABS
        invariant released == Released(old(slabs), index) && slabs == Cleared(old(slabs), index)
        invariant |alignments| == |released|
        invariant forall j :: 0 <= j < |released| ==> released[j] != 0 && Slab(released[j], alignments[j]) in old(slabs)
      {
        ClearedStep(old(slabs), index);
        if slabs[index].base != 0 {
          released, alignments := released + [slabs[index].base], alignments + [slabs[index].classSize];
          slabs := slabs[index := NO_SLAB];
        }
        index := index + 1;
      }
    }

    /**
     Shuts down while no other call runs: every held slab is released exactly once, the table is empty, and every
     thread's cache is out of date.
     */
    method ShutdownSmallBlockAllocator(t: nat) returns (released: seq<nat>, alignments: seq<nat>, ghost trace: Run)
      requires Valid() && t < |model.pcs| && AllIdle(model) && generation + 1 < UINT32_VALUES
      modifies this
      ensures Valid() && |model.pcs| == |old(model).pcs| && AllIdle(model) && Leads(old(model), trace, model) && OwnActions(trace, t)
      ensures Distinct(released) && forall b :: b in released <==> b in old(model).regions
      ensures TellsClasses(old(model), released, alignments)
      ensures model.regions == map[] && model.blocks == map[]
      ensures |slabs| == MAX_SLABS && forall i :: 0 <= i < MAX_SLABS ==> slabs[i] == NO_SLAB
      ensures !isInitialized && slabCount == 0 && generation == old(generation) + 1
      ensures forall u :: 0 <= u < |caches| ==> caches[u].generation != generation
    {
      released, alignments := ReleaseSlabs();
      forall j | 0 <= j < |released| ensures TellsClass(model, released[j], alignments[j]) {
        SlabHasItsClass(model, Slab(released[j], alignments[j]));
      }
      slabCount := 0;
      isInitialized := false;
      generation := (generation + 1) % UINT32_VALUES;
      trace := ShutDown(t);
    }

    ghost method ShutDown(t: nat) returns (trace: Run)
      requires Invariant(model) && t < |model.pcs| && AllIdle(model) && model.generation + 1 < UINT32_VALUES
      modifies `model
      ensures Invariant(model) && AllIdle(model) && Leads(old(model), trace, model) && OwnActions(trace, t)
      ensures model == ShutdownStep(old(model))
      ensures Distinct(Released(old(model).slabs, LoopEnd(old(model))))
      ensures forall b :: b in Released(old(model).slabs, LoopEnd(old(model))) <==> b in old(model).regions
      ensures model.regions == map[] && model.blocks == map[]
      ensures forall i :: 0 <= i < MAX_SLABS ==> model.slabs[i] == NO_SLAB
      ensures forall u :: 0 <= u < |model.caches| ==> model.caches[u].generation != model.generation
    {
      ShutdownKeeps(model);
      ShutdownForgets(model);
      var p := ShutdownStep(model);
      forall i | 0 <= i < MAX_SLABS ensures p.slabs[i] == NO_SLAB { ShutdownEmptiesTable(model, i); }
      forall u | 0 <= u < |p.caches| ensures p.caches[u].generation != p.generation { assert !Fresh(p, u); }
      LeadsFurther(model, NoSteps(model), model, Shutdown(t));
      trace := Further(NoSteps(model), Shutdown(t), p);
      model := p;
    }

    /** Initializing starts from a shutdown, so it too releases whatever was held. */
    method InitializeSmallBlockAllocator(t: nat) returns (ok: bool, released: seq<nat>, alignments: seq<nat>, ghost trace: Run)
      requires Valid() && t < |model.pcs| && AllIdle(model) && generation + 1 < UINT32_VALUES
      modifies this
      ensures ok && Valid() && |model.pcs| == |old(model).pcs| && AllIdle(model) && Leads(old(model), trace, model) && OwnActions(trace, t)
      ensures Distinct(released) && forall b :: b in released <==> b in old(model).regions
      ensures TellsClasses(old(model), released, alignments)
      ensures model.regions == map[] && model.blocks == map[]
      ensures isInitialized && slabCount == 0 && generation == old(generation) + 1
      ensures forall u :: 0 <= u < |caches| ==> caches[u].generation != generation
    {
      released, alignments, trace := ShutdownSmallBlockAllocator(t);
      isInitialized := true;
      InitializedKeeps(model);
      LeadsFurther(old(model), trace, model, Enable(t));
      trace := Further(trace, Enable(t), model.(initialized := true));
      model := model.(initialized := true);
      ok := true;
    }
  }
}
