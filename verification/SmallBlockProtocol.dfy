/**
 The small block allocator as many threads run it, one access to shared state a step.  Free lists are
 threaded through the blocks' own bytes; slabs come from a backend whose answers are chosen by the
 environment; clients write any byte outside the blocks the allocator keeps.
 */
module SmallBlockProtocol {
  import opened Alignment
  import opened AllocationValidation
  import opened ByteMemory
  import opened Options
  import opened SmallBlockClasses
  import opened Words

  const MAX_SLABS := 4096

  /** An entry of the slab table; base 0 marks an unused one. */
  datatype Slab = Slab(base: nat, classSize: nat)

  const NO_SLAB := Slab(0, 0)

  /** A thread's cache: one list head a class, and the generation the lists belong to. */
  datatype Cache = Cache(heads: seq<nat>, generation: Uint32)

  datatype Request = Request(size: Size, alignment: Size)

  /** Where a thread stands inside AllocateSmallBlock. */
  datatype Pc =
    | Idle
    | Missed(request: Request, class_: nat)                            // the list was empty, the backend is asked
    | GotSlab(request: Request, class_: nat, base: nat)                // before the fetch-and-add on the slab count
    | Claimed(request: Request, class_: nat, base: nat, index: nat)    // holds a table index, not written yet
    | Overflowed(request: Request, class_: nat, base: nat)             // the table is full, the count is to be lowered
    | Rejected(request: Request, class_: nat, base: nat)               // the slab is to be returned
    | Carving(request: Request, class_: nat, base: nat, next: nat)     // pushing blocks, `next` of them done

  // ---- bookkeeping, kept only to state what the physical state means ----

  datatype Owner = Live(request: Request) | Listed(thread: nat)

  datatype BlockInfo = BlockInfo(base: nat, class_: nat, owner: Owner)

  datatype Place = InFlight(thread: nat) | Filling(thread: nat, index: nat) | Registered(index: nat)

  datatype Region = Region(class_: nat, place: Place, carved: nat)

  datatype State = State(
    memory: Memory,
    caches: seq<Cache>,
    pcs: seq<Pc>,
    slabs: seq<Slab>,
    slabCount: Uint32,
    generation: Uint32,
    initialized: bool,
    regions: map<nat, Region>,       // slabs the allocator holds, by base address
    blocks: map<nat, BlockInfo>,     // blocks carved from them
    chains: seq<seq<seq<nat>>>,      // every thread's free list of every class
    claims: map<nat, nat>,           // table indices claimed but not written, and by whom
    successes: nat)                  // slab registrations that got an index

  datatype Action =
    | Allocate(t: nat, request: Request)      // up to the pop: a hit returns, a miss asks the backend
    | BackendAnswer(t: nat, base: nat)        // 0 for no memory
    | ClaimIndex(t: nat)
    | StoreSlab(t: nat)
    | RollBack(t: nat)
    | ReturnSlab(t: nat)
    | Carve(t: nat)
    | FinishRefill(t: nat)
    | Free(t: nat, pointer: nat, request: Request)
    | Shutdown(t: nat)
    | Enable(t: nat)                          // the store that ends InitializeSmallBlockAllocator
    | ClientWrite(t: nat, address: nat, value: Byte)

  function BlockCount(class_: nat): nat
    requires class_ < CLASS_COUNT
  {
    SLAB_SIZE / ClassSize(class_)
  }

  function BlockAt(base: nat, class_: nat, k: nat): nat
    requires class_ < CLASS_COUNT
  {
    base + k * ClassSize(class_)
  }

  function EmptyCache(generation: Uint32): Cache {
    Cache(seq(CLASS_COUNT, _ => 0), generation)
  }

  function NoChains(threadCount: nat): seq<seq<seq<nat>>> {
    seq(threadCount, _ => seq(CLASS_COUNT, _ => []))
  }

  /** Before any call: the generation starts at 1 and every thread's cache at 0. */
  function Initial(memory: Memory, threadCount: nat): State {
    State(memory, seq(threadCount, _ => EmptyCache(0)), seq(threadCount, _ => Idle), seq(MAX_SLABS, _ => NO_SLAB),
          0, 1, false, map[], map[], NoChains(threadCount), map[], 0)
  }

  predicate WellShaped(s: State) {
    && |s.caches| == |s.pcs| == |s.chains|
    && |s.slabs| == MAX_SLABS
    && (forall t :: 0 <= t < |s.caches| ==> |s.caches[t].heads| == CLASS_COUNT)
    && (forall t :: 0 <= t < |s.chains| ==> |s.chains[t]| == CLASS_COUNT)
  }

  // ---- the pieces of a step ----

  function Goto(s: State, t: nat, pc: Pc): State
    requires t < |s.pcs|
  {
    s.(pcs := s.pcs[t := pc])
  }

  /** Drops lists of an earlier generation. */
  function ResetIfStale(s: State, t: nat): State
    requires t < |s.caches|
  {
    if s.caches[t].generation == s.generation then s
    else s.(caches := s.caches[t := EmptyCache(s.generation)])
  }

  function SetList(s: State, t: nat, c: nat, head: nat, chain: seq<nat>): State
    requires WellShaped(s) && t < |s.pcs| && c < CLASS_COUNT
  {
    s.(caches := s.caches[t := s.caches[t].(heads := s.caches[t].heads[c := head])],
       chains := s.chains[t := s.chains[t][c := chain]])
  }

  /** PushBlock: the block's first word takes the old head. */
  function Push(s: State, t: nat, c: nat, block: nat, base: nat): State
    requires WellShaped(s) && t < |s.pcs| && c < CLASS_COUNT
  {
    var pushed := SetList(s, t, c, block, [block] + s.chains[t][c]);
    pushed.(memory := StoreWord(s.memory, block, s.caches[t].heads[c]),
            blocks := s.blocks[block := BlockInfo(base, c, Listed(t))])
  }

  function Tail(chain: seq<nat>): seq<nat> {
    if chain == [] then [] else chain[1..]
  }

  /** PopBlock on a nonempty list: the head moves on and the block is handed to the client. */
  function Pop(s: State, t: nat, c: nat, request: Request): State
    requires WellShaped(s) && t < |s.pcs| && c < CLASS_COUNT
  {
    var head := s.caches[t].heads[c];
    var popped := SetList(s, t, c, LoadWord(s.memory, head), Tail(s.chains[t][c]));
    if head in s.blocks then popped.(blocks := s.blocks[head := s.blocks[head].(owner := Live(request))])
    else popped
  }

  function AllocateStep(s: State, t: nat, request: Request): State
    requires WellShaped(s) && t < |s.pcs|
  {
    var class_ := ClassIndex(request.size, request.alignment);
    if !s.initialized || class_.None? || !IsPowerOfTwo(request.alignment) then s
    else
      var r := ResetIfStale(s, t);
      if r.caches[t].heads[class_.value] != 0 then Pop(r, t, class_.value, request)
      else Goto(r, t, Missed(request, class_.value))
  }

  /** The backend hands out slab-sized memory that is aligned as asked and overlaps no slab the allocator holds. */
  ghost predicate BackendMayAnswer(s: State, base: nat, class_: nat)
    requires class_ < CLASS_COUNT
  {
    && base != 0 && base + SLAB_SIZE < WORD_VALUES
    && base % ClassSize(class_) == 0
    && forall b :: b in s.regions ==> b + SLAB_SIZE <= base || base + SLAB_SIZE <= b
  }

  ghost predicate OwnsLive(s: State, pointer: nat, request: Request) {
    && pointer in s.blocks
    && s.blocks[pointer].owner.Live?
    && s.blocks[pointer].owner.request.size == request.size
    && NormalizeAlignment(s.blocks[pointer].owner.request.alignment) == NormalizeAlignment(request.alignment)
    && IsPowerOfTwo(request.alignment)
  }

  /** FreeSmallBlock by the calling thread, whoever allocated the block. */
  function FreeStep(s: State, t: nat, pointer: nat, request: Request): State
    requires WellShaped(s) && t < |s.pcs|
  {
    var class_ := ClassIndex(request.size, NormalizeAlignment(request.alignment));
    if pointer == 0 || request.alignment == 0 || !IsPowerOfTwo(request.alignment) || class_.None? then s
    else
      Push(ResetIfStale(s, t), t, class_.value, pointer,
           if pointer in s.blocks then s.blocks[pointer].base else 0)
  }

  predicate AllIdle(s: State) {
    forall t :: 0 <= t < |s.pcs| ==> s.pcs[t].Idle?
  }

  /** What the release loop frees: the used entries below the slab count, in order. */
  function Released(slabs: seq<Slab>, n: nat): seq<nat>
    requires n <= |slabs|
  {
    if n == 0 then []
    else if slabs[n - 1].base != 0 then Released(slabs, n - 1) + [slabs[n - 1].base]
    else Released(slabs, n - 1)
  }

  /** The table after the release loop. */
  function Cleared(slabs: seq<Slab>, n: nat): seq<Slab> {
    seq(|slabs|, i requires 0 <= i < |slabs| => if i < n && slabs[i].base != 0 then NO_SLAB else slabs[i])
  }

  function LoopEnd(s: State): nat {
    if s.slabCount < MAX_SLABS then s.slabCount else MAX_SLABS
  }

  /** ShutdownSmallBlockAllocator; what the loop released is no longer the allocator's. */
  function ShutdownStep(s: State): State
    requires WellShaped(s)
  {
    var released := Released(s.slabs, LoopEnd(s));
    s.(slabs := Cleared(s.slabs, LoopEnd(s)), slabCount := 0, initialized := false,
       generation := (s.generation + 1) % UINT32_VALUES,
       regions := map b | b in s.regions && b !in released :: s.regions[b],
       blocks := map a | a in s.blocks && s.blocks[a].base !in released :: s.blocks[a],
       chains := NoChains(|s.chains|), claims := map[], successes := 0)
  }

  /** A byte no block in the allocator's keeping contains: inside a live block, or outside every slab. */
  ghost predicate ClientMayWrite(s: State, address: nat) {
    || (forall b :: b in s.regions ==> address < b || b + SLAB_SIZE <= address)
    || (exists a :: a in s.blocks && s.blocks[a].owner.Live? && s.blocks[a].class_ < CLASS_COUNT
          && a <= address < a + ClassSize(s.blocks[a].class_))
  }

  /** MemoryBackend::Allocate returned a slab. */
  function TakeSlab(s: State, t: nat, base: nat): State
    requires t < |s.pcs| && s.pcs[t].Missed?
  {
    var pc := s.pcs[t];
    Goto(s.(regions := s.regions[base := Region(pc.class_, InFlight(t), 0)]), t, GotSlab(pc.request, pc.class_, base))
  }

  /** The fetch-and-add on the slab count, and the test of what it returned. */
  function ClaimStep(s: State, t: nat): State
    requires t < |s.pcs| && s.pcs[t].GotSlab?
  {
    var pc := s.pcs[t];
    var counted := s.(slabCount := (s.slabCount + 1) % UINT32_VALUES);
    if s.slabCount >= MAX_SLABS then
      Goto(counted, t, Overflowed(pc.request, pc.class_, pc.base))
    else
      Goto(counted.(claims := s.claims[s.slabCount := t], successes := s.successes + 1), t,
           Claimed(pc.request, pc.class_, pc.base, s.slabCount))
  }

  /** Writing the claimed table entry. */
  function StoreStep(s: State, t: nat): State
    requires t < |s.pcs| && s.pcs[t].Claimed? && s.pcs[t].class_ < CLASS_COUNT && s.pcs[t].index < |s.slabs|
  {
    var pc := s.pcs[t];
    Goto(s.(slabs := s.slabs[pc.index := Slab(pc.base, ClassSize(pc.class_))],
            claims := s.claims - {pc.index},
            regions := s.regions[pc.base := Region(pc.class_, Filling(t, pc.index), 0)]),
         t, Carving(pc.request, pc.class_, pc.base, 0))
  }

  function RollBackStep(s: State, t: nat): State
    requires t < |s.pcs| && s.pcs[t].Overflowed?
  {
    var pc := s.pcs[t];
    Goto(s.(slabCount := (s.slabCount - 1) % UINT32_VALUES), t, Rejected(pc.request, pc.class_, pc.base))
  }

  function ReturnStep(s: State, t: nat): State
    requires t < |s.pcs| && s.pcs[t].Rejected?
  {
    Goto(s.(regions := s.regions - {s.pcs[t].base}), t, Idle)
  }

  predicate MayCarve(s: State, t: nat) {
    && WellShaped(s) && t < |s.pcs| && s.pcs[t].Carving? && s.pcs[t].class_ < CLASS_COUNT
    && s.pcs[t].next < BlockCount(s.pcs[t].class_)
  }

  /** One turn of the carving loop. */
  function CarveStep(s: State, t: nat): State
    requires MayCarve(s, t)
  {
    var pc := s.pcs[t];
    var pushed := Push(s, t, pc.class_, BlockAt(pc.base, pc.class_, pc.next), pc.base);
    var carved := if pc.base in s.regions
      then pushed.(regions := s.regions[pc.base := s.regions[pc.base].(carved := pc.next + 1)]) else pushed;
    Goto(carved, t, pc.(next := pc.next + 1))
  }

  predicate MayFinish(s: State, t: nat) {
    && WellShaped(s) && t < |s.pcs| && s.pcs[t].Carving? && s.pcs[t].class_ < CLASS_COUNT
    && s.pcs[t].next == BlockCount(s.pcs[t].class_)
  }

  /** The slab is completely carved and no longer in its thread's hands. */
  function Completed(s: State, t: nat): State
    requires t < |s.pcs| && s.pcs[t].Carving?
  {
    var base := s.pcs[t].base;
    var registered := if base in s.regions && s.regions[base].place.Filling?
      then s.(regions := s.regions[base := s.regions[base].(place := Registered(s.regions[base].place.index))]) else s;
    Goto(registered, t, Idle)
  }

  /** The pop after a refill. */
  function FinishStep(s: State, t: nat): State
    requires MayFinish(s, t)
  {
    var pc := s.pcs[t];
    if s.caches[t].heads[pc.class_] == 0 then Completed(s, t)
    else Pop(Completed(s, t), t, pc.class_, pc.request)
  }

  // ---- steps and runs ----

  /** The step an action stands for, if it can happen in this state. */
  ghost function Step(s: State, a: Action): Option<State> {
    if !WellShaped(s) || a.t >= |s.pcs| then None
    else
      var pc := s.pcs[a.t];
      match a
      case Allocate(t, request) => if pc.Idle? then Some(AllocateStep(s, t, request)) else None
      case BackendAnswer(t, base) =>
        if !pc.Missed? || pc.class_ >= CLASS_COUNT then None
        else if base == 0 then Some(Goto(s, t, Idle))
        else if BackendMayAnswer(s, base, pc.class_) then Some(TakeSlab(s, t, base))
        else None
      case ClaimIndex(t) => if pc.GotSlab? then Some(ClaimStep(s, t)) else None
      case StoreSlab(t) =>
        if pc.Claimed? && pc.class_ < CLASS_COUNT && pc.index < |s.slabs| then Some(StoreStep(s, t)) else None
      case RollBack(t) => if pc.Overflowed? then Some(RollBackStep(s, t)) else None
      case ReturnSlab(t) => if pc.Rejected? then Some(ReturnStep(s, t)) else None
      case Carve(t) => if MayCarve(s, t) then Some(CarveStep(s, t)) else None
      case FinishRefill(t) => if MayFinish(s, t) then Some(FinishStep(s, t)) else None
      case Free(t, pointer, request) =>
        if pc.Idle? && (pointer == 0 || OwnsLive(s, pointer, request))
        then Some(FreeStep(s, t, pointer, request)) else None
      case Shutdown(t) =>
        if AllIdle(s) && s.generation + 1 < UINT32_VALUES then Some(ShutdownStep(s)) else None
      case Enable(t) => if AllIdle(s) then Some(s.(initialized := true)) else None
      case ClientWrite(t, address, value) =>
        if ClientMayWrite(s, address) then Some(s.(memory := StoreByte(s.memory, address, value))) else None
  }

  /** Actions and the states between them. */
  datatype Run = Run(states: seq<State>, actions: seq<Action>)

  ghost predicate TakenAt(run: Run, i: nat)
    requires |run.states| == |run.actions| + 1
  {
    i < |run.actions| && Step(run.states[i], run.actions[i]) == Some(run.states[i + 1])
  }

  /** The run leads from one state to the other; the trigger keeps its steps folded. */
  ghost predicate Leads(s: State, run: Run, s': State) {
    && |run.states| == |run.actions| + 1
    && run.states[0] == s && run.states[|run.actions|] == s'
    && forall i {:trigger TakenAt(run, i)} :: 0 <= i < |run.actions| ==> TakenAt(run, i)
  }

  function NoSteps(s: State): Run {
    Run([s], [])
  }

  function Further(run: Run, a: Action, s: State): Run {
    Run(run.states + [s], run.actions + [a])
  }

  /** A run without its last step. */
  function Shorter(run: Run): Run
    requires |run.states| == |run.actions| + 1 > 1
  {
    Run(run.states[..|run.actions|], run.actions[..|run.actions| - 1])
  }

  /** The block an action hands to its caller, 0 for none. */
  function HandedOut(s: State, a: Action): nat {
    if !WellShaped(s) || a.t >= |s.pcs| then 0
    else match a
      case Allocate(t, request) =>
        var class_ := ClassIndex(request.size, request.alignment);
        if !s.initialized || class_.None? || !IsPowerOfTwo(request.alignment) then 0
        else ResetIfStale(s, t).caches[t].heads[class_.value]
      case FinishRefill(t) =>
        if s.pcs[t].Carving? && s.pcs[t].class_ < CLASS_COUNT then s.caches[t].heads[s.pcs[t].class_] else 0
      case _ => 0
  }
}
