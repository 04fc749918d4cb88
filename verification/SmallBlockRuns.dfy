/** Every step keeps the small block allocator's invariant; what that means for every run. */
module SmallBlockRuns {
  import opened Alignment
  import opened AllocationValidation
  import opened ByteMemory
  import opened Options
  import opened SmallBlockClasses
  import opened SmallBlockInvariant
  import opened SmallBlockProtocol
  import opened Sums
  import opened Words

  /** The threads of a process fit a 32-bit count next to the slab table. */
  predicate ThreadsFit(threadCount: nat) {
    threadCount + MAX_SLABS + 1 < UINT32_VALUES
  }

  // ---- prolonging and shortening runs ----

  lemma LeadsFurther(s: State, run: Run, m: State, a: Action)
    requires Leads(s, run, m) && Step(m, a).Some?
    ensures Leads(s, Further(run, a, Step(m, a).value), Step(m, a).value)
  {
    var longer := Further(run, a, Step(m, a).value);
    forall i | 0 <= i < |longer.actions| ensures TakenAt(longer, i) {
      if i < |run.actions| {
        assert TakenAt(run, i);
      }
    }
  }

  lemma LeadsShorter(s: State, run: Run, s': State)
    requires Leads(s, run, s') && run.actions != []
    ensures var last := |run.actions| - 1;
            Leads(s, Shorter(run), run.states[last]) && Step(run.states[last], run.actions[last]) == Some(s')
  {
    forall i | 0 <= i < |run.actions| - 1 ensures TakenAt(Shorter(run), i) {
      assert TakenAt(run, i);
    }
    assert TakenAt(run, |run.actions| - 1);
  }

  // ---- allocating and freeing from a list ----

  lemma AllocateKeeps(s: State, t: nat, request: Request)
    requires Invariant(s) && t < |s.pcs| && s.pcs[t].Idle?
    ensures Invariant(AllocateStep(s, t, request))
  {
    var class_ := ClassIndex(request.size, request.alignment);
    if s.initialized && class_.Some? && IsPowerOfTwo(request.alignment) {
      ResetKeeps(s, t);
      var r := ResetIfStale(s, t);
      if r.caches[t].heads[class_.value] != 0 {
        PopKeeps(r, t, class_.value, request);
      } else {
        MissKeeps(r, t, class_.value, request);
      }
    }
  }

  lemma MissKeeps(s: State, t: nat, c: nat, request: Request)
    requires Invariant(s) && t < |s.pcs| && s.pcs[t].Idle? && Fresh(s, t) && Fits(request, c)
    ensures Invariant(Goto(s, t, Missed(request, c)))
  {
    LocalMoveKeeps(s, t, Missed(request, c));
  }

  /** A thread that holds no slab moves to a point where it still holds none. */
  lemma LocalMoveKeeps(s: State, t: nat, pc: Pc)
    requires Invariant(s) && t < |s.pcs| && (s.pcs[t].Idle? || s.pcs[t].Missed?)
    requires pc.Idle? || (pc.Missed? && Fits(pc.request, pc.class_) && Fresh(s, t))
    ensures Invariant(Goto(s, t, pc))
  {
    var p := Goto(s, t, pc);
    TotalUpdate(s.pcs, t, pc, Overflowing);
    forall b ensures RegionOk(p, b) { assert RegionOk(s, b); }
    forall a, b ensures RegionsApart(p, a, b) { assert RegionsApart(s, a, b); }
    forall i ensures IndexOk(p, i) { assert IndexOk(s, i); }
    forall u | 0 <= u < |p.pcs| ensures PcOk(p, u) { assert PcOk(s, u); }
    forall u | 0 <= u < |p.caches| ensures CacheOk(p, u) { assert CacheOk(s, u); }
    SameListsKeep(s, p);
  }

  /** A step that leaves blocks, lists, memory and generations alone, and shrinks no region, keeps both families. */
  lemma SameListsKeep(s: State, p: State)
    requires Invariant(s) && WellShaped(p) && |p.pcs| == |s.pcs|
    requires p.memory == s.memory && p.caches == s.caches && p.chains == s.chains && p.blocks == s.blocks
    requires p.generation == s.generation
    requires forall b :: b in p.regions && b !in s.regions ==> p.regions[b].carved == 0
    requires forall b :: b in s.regions && s.regions[b].carved > 0 ==>
      b in p.regions && p.regions[b].class_ == s.regions[b].class_ && p.regions[b].carved == s.regions[b].carved
    requires forall b :: b in s.regions && s.regions[b].carved == 0 && b in p.regions ==> p.regions[b].carved == 0
    ensures BlocksFamily(p) && Lists(p)
  {
    forall a ensures BlockOk(p, a) { assert BlockOk(s, a); }
    forall b, k ensures CarvedOk(p, b, k) { assert CarvedOk(s, b, k); }
    forall u, c | 0 <= u < |p.pcs| && 0 <= c < CLASS_COUNT ensures ListOk(p, u, c) { assert ListOk(s, u, c); }
    forall u, c, a | 0 <= u < |p.pcs| && 0 <= c < CLASS_COUNT ensures MemberOk(p, u, c, a) {
      assert MemberOk(s, u, c, a);
    }
  }

  /** The class computed when freeing is the class of the block, although only freeing normalizes the alignment. */
  lemma FreedClass(s: State, pointer: nat, request: Request)
    requires Invariant(s) && OwnsLive(s, pointer, request)
    ensures pointer != 0 && request.alignment != 0
    ensures s.blocks[pointer].class_ < CLASS_COUNT
    ensures ClassIndex(request.size, NormalizeAlignment(request.alignment)) == Some(s.blocks[pointer].class_)
  {
    BlockGeometry(s, pointer);
    assert BlockOk(s, pointer);
    var original := s.blocks[pointer].owner.request;
    NormalizationKeepsClass(original.size, original.alignment);
  }

  lemma FreeKeeps(s: State, t: nat, pointer: nat, request: Request)
    requires Invariant(s) && t < |s.pcs| && s.pcs[t].Idle?
    requires pointer == 0 || OwnsLive(s, pointer, request)
    ensures Invariant(FreeStep(s, t, pointer, request))
  {
    if pointer != 0 {
      FreedClass(s, pointer, request);
      ResetKeeps(s, t);
      PushFreedKeeps(ResetIfStale(s, t), t, s.blocks[pointer].class_, pointer);
    }
  }

  // ---- the slab's way into the table ----

  lemma TakeSlabKeeps(s: State, t: nat, base: nat)
    requires Invariant(s) && t < |s.pcs| && s.pcs[t].Missed?
    requires s.pcs[t].class_ < CLASS_COUNT && BackendMayAnswer(s, base, s.pcs[t].class_)
    ensures Invariant(TakeSlab(s, t, base))
  {
    var p := TakeSlab(s, t, base);
    assert PcOk(s, t);
    TotalUpdate(s.pcs, t, p.pcs[t], Overflowing);
    forall b ensures RegionOk(p, b) { assert RegionOk(s, b); }
    forall a, b ensures RegionsApart(p, a, b) { assert RegionsApart(s, a, b); }
    forall i ensures IndexOk(p, i) { assert IndexOk(s, i); }
    forall u | 0 <= u < |p.pcs| ensures PcOk(p, u) { assert PcOk(s, u); }
    forall u | 0 <= u < |p.caches| ensures CacheOk(p, u) { assert CacheOk(s, u); }
    SameListsKeep(s, p);
  }

  lemma {:induction false} OverflowBound(pcs: seq<Pc>)
    ensures Total(pcs, Overflowing) <= |pcs|
  {
    if pcs != [] {
      OverflowBound(pcs[1..]);
    }
  }

  lemma ClaimIndexKeeps(s: State, t: nat)
    requires Invariant(s) && ThreadsFit(|s.pcs|) && t < |s.pcs| && s.pcs[t].GotSlab?
    ensures Invariant(ClaimStep(s, t))
  {
    OverflowBound(s.pcs);
    if s.slabCount >= MAX_SLABS {
      OverflowKeeps(s, t);
    } else {
      ClaimKeeps(s, t);
    }
  }

  lemma OverflowKeeps(s: State, t: nat)
    requires Invariant(s) && t < |s.pcs| && s.pcs[t].GotSlab?
    requires MAX_SLABS <= s.slabCount && s.slabCount + 1 < UINT32_VALUES
    ensures Invariant(ClaimStep(s, t))
  {
    var p := ClaimStep(s, t);
    TotalUpdate(s.pcs, t, p.pcs[t], Overflowing);
    assert PcOk(s, t);
    forall b ensures RegionOk(p, b) { assert RegionOk(s, b); }
    forall a, b ensures RegionsApart(p, a, b) { assert RegionsApart(s, a, b); }
    forall i ensures IndexOk(p, i) { assert IndexOk(s, i); }
    OverflowThreads(s, t);
    SameListsKeep(s, p);
  }

  lemma OverflowThreads(s: State, t: nat)
    requires Invariant(s) && t < |s.pcs| && s.pcs[t].GotSlab? && MAX_SLABS <= s.slabCount
    ensures WellShaped(ClaimStep(s, t)) && Threads(ClaimStep(s, t))
  {
    var p := ClaimStep(s, t);
    assert PcOk(s, t);
    forall u | 0 <= u < |p.pcs| ensures PcOk(p, u) { assert PcOk(s, u); }
    forall u | 0 <= u < |p.caches| ensures CacheOk(p, u) { assert CacheOk(s, u); }
  }

  lemma ClaimKeeps(s: State, t: nat)
    requires Invariant(s) && t < |s.pcs| && s.pcs[t].GotSlab? && s.slabCount < MAX_SLABS
    ensures Invariant(ClaimStep(s, t))
  {
    var p := ClaimStep(s, t);
    TotalUpdate(s.pcs, t, p.pcs[t], Overflowing);
    assert s.slabCount == s.successes && p.slabCount == s.successes + 1;
    assert PcOk(s, t) && IndexOk(s, s.successes);
    forall b ensures RegionOk(p, b) { assert RegionOk(s, b); }
    forall a, b ensures RegionsApart(p, a, b) { assert RegionsApart(s, a, b); }
    forall i ensures IndexOk(p, i) { assert IndexOk(s, i); }
    ClaimThreads(s, t);
    SameListsKeep(s, p);
  }

  lemma ClaimThreads(s: State, t: nat)
    requires Invariant(s) && t < |s.pcs| && s.pcs[t].GotSlab? && s.slabCount == s.successes < MAX_SLABS
    ensures WellShaped(ClaimStep(s, t)) && Threads(ClaimStep(s, t))
  {
    var p := ClaimStep(s, t);
    assert PcOk(s, t);
    assert IndexOk(s, s.successes);
    forall u | 0 <= u < |p.pcs| ensures PcOk(p, u) { assert PcOk(s, u); }
    forall u | 0 <= u < |p.caches| ensures CacheOk(p, u) { assert CacheOk(s, u); }
  }

  lemma StoreSlabKeeps(s: State, t: nat)
    requires Invariant(s) && t < |s.pcs| && s.pcs[t].Claimed?
    requires s.pcs[t].class_ < CLASS_COUNT && s.pcs[t].index < |s.slabs|
    ensures Invariant(StoreStep(s, t))
  {
    var pc, p := s.pcs[t], StoreStep(s, t);
    TotalUpdate(s.pcs, t, p.pcs[t], Overflowing);
    assert PcOk(s, t);
    assert RegionOk(s, pc.base);
    forall b ensures RegionOk(p, b) {
      assert RegionOk(s, b);
      assert IndexOk(s, pc.index);
    }
    forall a, b ensures RegionsApart(p, a, b) { assert RegionsApart(s, a, b); }
    forall i ensures IndexOk(p, i) { assert IndexOk(s, i); }
    StoreSlabThreads(s, t);
    SameListsKeep(s, p);
  }

  lemma StoreSlabThreads(s: State, t: nat)
    requires Invariant(s) && t < |s.pcs| && s.pcs[t].Claimed?
    requires s.pcs[t].class_ < CLASS_COUNT && s.pcs[t].index < |s.slabs|
    ensures WellShaped(StoreStep(s, t)) && Threads(StoreStep(s, t))
  {
    var p := StoreStep(s, t);
    assert PcOk(s, t);
    forall u | 0 <= u < |p.pcs| ensures PcOk(p, u) { assert PcOk(s, u); }
    forall u | 0 <= u < |p.caches| ensures CacheOk(p, u) { assert CacheOk(s, u); }
  }

  lemma RollBackKeeps(s: State, t: nat)
    requires Invariant(s) && t < |s.pcs| && s.pcs[t].Overflowed?
    ensures Invariant(RollBackStep(s, t))
  {
    var p := RollBackStep(s, t);
    TotalUpdate(s.pcs, t, p.pcs[t], Overflowing);
    TotalSplit(s.pcs, t, Overflowing);
    assert PcOk(s, t);
    forall b ensures RegionOk(p, b) { assert RegionOk(s, b); }
    forall a, b ensures RegionsApart(p, a, b) { assert RegionsApart(s, a, b); }
    forall i ensures IndexOk(p, i) { assert IndexOk(s, i); }
    RollBackThreads(s, t);
    SameListsKeep(s, p);
  }

  lemma RollBackThreads(s: State, t: nat)
    requires Invariant(s) && t < |s.pcs| && s.pcs[t].Overflowed?
    ensures WellShaped(RollBackStep(s, t)) && Threads(RollBackStep(s, t))
  {
    var p := RollBackStep(s, t);
    assert PcOk(s, t);
    forall u | 0 <= u < |p.pcs| ensures PcOk(p, u) { assert PcOk(s, u); }
    forall u | 0 <= u < |p.caches| ensures CacheOk(p, u) { assert CacheOk(s, u); }
  }

  lemma ReturnSlabKeeps(s: State, t: nat)
    requires Invariant(s) && t < |s.pcs| && s.pcs[t].Rejected?
    ensures Invariant(ReturnStep(s, t))
  {
    var p := ReturnStep(s, t);
    TotalUpdate(s.pcs, t, Idle, Overflowing);
    assert PcOk(s, t) && RegionOk(s, s.pcs[t].base);
    forall b ensures RegionOk(p, b) { assert RegionOk(s, b); }
    forall a, b ensures RegionsApart(p, a, b) { assert RegionsApart(s, a, b); }
    forall i ensures IndexOk(p, i) { assert IndexOk(s, i); }
    forall u | 0 <= u < |p.pcs| ensures PcOk(p, u) { assert PcOk(s, u); }
    forall u | 0 <= u < |p.caches| ensures CacheOk(p, u) { assert CacheOk(s, u); }
    SameListsKeep(s, p);
  }

  // ---- carving ----

  /** The next block of a slab being carved is new and apart from every block carved so far. */
  lemma NextBlockIsNew(s: State, t: nat)
    requires Invariant(s) && t < |s.pcs| && s.pcs[t].Carving?
    requires s.pcs[t].class_ < CLASS_COUNT && s.pcs[t].next < BlockCount(s.pcs[t].class_)
    ensures var block := BlockAt(s.pcs[t].base, s.pcs[t].class_, s.pcs[t].next);
            && block != 0 && block !in s.blocks
            && forall a :: a in s.blocks ==> a + WORD_BYTES <= block || block + WORD_BYTES <= a
  {
    var pc := s.pcs[t];
    var block := BlockAt(pc.base, pc.class_, pc.next);
    assert PcOk(s, t) && RegionOk(s, pc.base);
    CarvedGeometry(pc.base, pc.class_, pc.next);
    forall a | a in s.blocks ensures a + WORD_BYTES <= block || block + WORD_BYTES <= a {
      BlockGeometry(s, a);
      var info := s.blocks[a];
      if info.base != pc.base {
        assert RegionsApart(s, info.base, pc.base);
      } else {
        assert BlockOk(s, a);
        var k: nat :| k < s.regions[info.base].carved && a == BlockAt(info.base, info.class_, k);
        CarvedApart(pc.base, pc.class_, k, pc.next);
      }
    }
  }

  lemma CarveKeeps(s: State, t: nat)
    requires Invariant(s) && MayCarve(s, t)
    ensures Invariant(CarveStep(s, t))
  {
    CarveRegions(s, t);
    CarveTable(s, t);
    CarveThreads(s, t);
    CarveBlocks(s, t);
    CarveLists(s, t);
  }

  lemma CarveRegions(s: State, t: nat)
    requires Invariant(s) && MayCarve(s, t)
    ensures Regions(CarveStep(s, t))
  {
    var p := CarveStep(s, t);
    assert PcOk(s, t);
    forall b ensures RegionOk(p, b) { assert RegionOk(s, b); }
    forall a, b ensures RegionsApart(p, a, b) { assert RegionsApart(s, a, b); }
  }

  lemma CarveTable(s: State, t: nat)
    requires Invariant(s) && MayCarve(s, t)
    ensures Table(CarveStep(s, t))
  {
    var p := CarveStep(s, t);
    TotalUpdate(s.pcs, t, p.pcs[t], Overflowing);
    assert PcOk(s, t);
    forall i ensures IndexOk(p, i) { assert IndexOk(s, i); }
  }

  lemma CarveThreads(s: State, t: nat)
    requires Invariant(s) && MayCarve(s, t)
    ensures WellShaped(CarveStep(s, t)) && Threads(CarveStep(s, t))
  {
    var pc, p := s.pcs[t], CarveStep(s, t);
    assert PcOk(s, t);
    forall u | 0 <= u < |p.pcs| ensures PcOk(p, u) {
      if u != t {
        CarveKeepsOther(s, t, u);
      }
    }
    forall u | 0 <= u < |p.caches| ensures CacheOk(p, u) { assert CacheOk(s, u); }
  }

  lemma CarveKeepsOther(s: State, t: nat, u: nat)
    requires Invariant(s) && MayCarve(s, t) && u < |s.pcs| && u != t
    ensures u < |CarveStep(s, t).pcs| && PcOk(CarveStep(s, t), u)
  {
    assert PcOk(s, t) && PcOk(s, u);
  }

  /** What carving changes of slabs, blocks and lists. */
  ghost predicate Carved(s: State, p: State, t: nat, c: nat, base: nat, next: nat)
    requires c < CLASS_COUNT
  {
    var block := BlockAt(base, c, next);
    && base in s.regions && s.regions[base].class_ == c && s.regions[base].carved == next
    && p.regions == s.regions[base := s.regions[base].(carved := next + 1)]
    && block !in s.blocks && p.blocks == s.blocks[block := BlockInfo(base, c, Listed(t))]
    && t < |s.chains| && c < |s.chains[t]|
    && p.chains == s.chains[t := s.chains[t][c := [block] + s.chains[t][c]]]
    && Fresh(p, t) && forall u :: Fresh(s, u) ==> Fresh(p, u)
  }

  lemma CarveBlocks(s: State, t: nat)
    requires Invariant(s) && MayCarve(s, t)
    ensures BlocksFamily(CarveStep(s, t))
  {
    var pc := s.pcs[t];
    NextBlockIsNew(s, t);
    assert PcOk(s, t);
    BlocksAfterCarving(s, CarveStep(s, t), t, pc.class_, pc.base, pc.next);
  }

  lemma BlocksAfterCarving(s: State, p: State, t: nat, c: nat, base: nat, next: nat)
    requires c < CLASS_COUNT && BlocksFamily(s) && Carved(s, p, t, c, base, next)
    ensures BlocksFamily(p)
  {
    forall a ensures BlockOk(p, a) {
      assert BlockOk(s, a);
      if a == BlockAt(base, c, next) {
        assert IsCarved(a, base, c, next + 1);
      } else if a in s.blocks && s.blocks[a].base == base {
        CarvedMore(a, base, c, next);
      }
    }
    forall b, k ensures CarvedOk(p, b, k) { assert CarvedOk(s, b, k); }
  }

  lemma CarvedMore(a: nat, b: nat, c: nat, n: nat)
    requires IsCarved(a, b, c, n)
    ensures IsCarved(a, b, c, n + 1)
  {
  }

  lemma CarveLists(s: State, t: nat)
    requires Invariant(s) && MayCarve(s, t)
    ensures WellShaped(CarveStep(s, t)) && Lists(CarveStep(s, t))
  {
    var pc, p := s.pcs[t], CarveStep(s, t);
    var block := BlockAt(pc.base, pc.class_, pc.next);
    NextBlockIsNew(s, t);
    assert PcOk(s, t);
    PushLists(s, t, pc.class_, block, pc.base);
    var q := Push(s, t, pc.class_, block, pc.base);
    forall u, c | 0 <= u < |p.pcs| && 0 <= c < CLASS_COUNT ensures ListOk(p, u, c) { assert ListOk(q, u, c); }
    forall u, c, a | 0 <= u < |p.pcs| && 0 <= c < CLASS_COUNT ensures MemberOk(p, u, c, a) {
      assert MemberOk(q, u, c, a);
    }
  }

  lemma CompletedKeeps(s: State, t: nat)
    requires Invariant(s) && t < |s.pcs| && s.pcs[t].Carving?
    requires s.pcs[t].class_ < CLASS_COUNT && s.pcs[t].next == BlockCount(s.pcs[t].class_)
    ensures Invariant(Completed(s, t))
  {
    var pc, p := s.pcs[t], Completed(s, t);
    TotalUpdate(s.pcs, t, Idle, Overflowing);
    assert PcOk(s, t);
    forall b ensures RegionOk(p, b) { assert RegionOk(s, b); }
    forall a, b ensures RegionsApart(p, a, b) { assert RegionsApart(s, a, b); }
    forall i ensures IndexOk(p, i) { assert IndexOk(s, i); }
    CompletedThreads(s, t);
    SameListsKeep(s, p);
  }

  lemma CompletedThreads(s: State, t: nat)
    requires Invariant(s) && t < |s.pcs| && s.pcs[t].Carving?
    requires s.pcs[t].class_ < CLASS_COUNT && s.pcs[t].next == BlockCount(s.pcs[t].class_)
    ensures WellShaped(Completed(s, t)) && Threads(Completed(s, t))
  {
    var p := Completed(s, t);
    assert PcOk(s, t);
    forall u | 0 <= u < |p.pcs| ensures PcOk(p, u) { assert PcOk(s, u); }
    forall u | 0 <= u < |p.caches| ensures CacheOk(p, u) { assert CacheOk(s, u); }
  }

  /** A refill never leaves the list empty, so the pop after it always delivers a block. */
  lemma RefilledListIsNonempty(s: State, t: nat)
    requires Invariant(s) && t < |s.pcs| && s.pcs[t].Carving?
    requires s.pcs[t].class_ < CLASS_COUNT && s.pcs[t].next == BlockCount(s.pcs[t].class_)
    ensures Fresh(s, t) && Fits(s.pcs[t].request, s.pcs[t].class_) && s.caches[t].heads[s.pcs[t].class_] != 0
  {
    var pc := s.pcs[t];
    assert PcOk(s, t);
    BlocksPerSlab(pc.class_);
    assert ListOk(s, t, pc.class_);
    ChainTail(s.memory, s.caches[t].heads[pc.class_], s.chains[t][pc.class_]);
  }

  lemma BlocksPerSlab(c: nat)
    requires c < CLASS_COUNT
    ensures BlockCount(c) > 0 && BlockCount(c) * ClassSize(c) == SLAB_SIZE
  {
    assert ClassSize(c) in [16, 32, 64, 128, 256, 512];
  }

  lemma FinishRefillKeeps(s: State, t: nat)
    requires Invariant(s) && MayFinish(s, t)
    ensures Invariant(FinishStep(s, t)) && |FinishStep(s, t).pcs| == |s.pcs|
  {
    var pc := s.pcs[t];
    CompletedKeeps(s, t);
    RefilledListIsNonempty(s, t);
    PopKeeps(Completed(s, t), t, pc.class_, pc.request);
  }

  // ---- shutdown ----

  lemma {:induction false} ReleasedMembers(slabs: seq<Slab>, n: nat, b: nat)
    requires n <= |slabs|
    ensures b in Released(slabs, n) <==> b != 0 && exists i: nat :: i < n && slabs[i].base == b
  {
    if n > 0 {
      ReleasedMembers(slabs, n - 1, b);
      if i: nat :| i < n && slabs[i].base == b {
        assert i < n - 1 || i == n - 1;
      }
    }
  }

  lemma {:induction false} ReleasedDistinct(slabs: seq<Slab>, n: nat)
    requires n <= |slabs|
    requires forall i, j :: 0 <= i < j < n && slabs[i].base != 0 ==> slabs[i].base != slabs[j].base
    ensures Distinct(Released(slabs, n))
  {
    if n > 0 {
      ReleasedDistinct(slabs, n - 1);
      ReleasedMembers(slabs, n - 1, slabs[n - 1].base);
    }
  }

  /** With no call in flight the count is exact, nothing is claimed, and every held slab sits in the table. */
  lemma IdleTable(s: State)
    requires Invariant(s) && AllIdle(s)
    ensures s.slabCount == s.successes == LoopEnd(s) && s.claims == map[]
    ensures forall b :: b in s.regions ==>
      s.regions[b].place.Registered? && s.regions[b].place.index < s.successes && b != 0
      && s.slabs[s.regions[b].place.index].base == b
    ensures forall i: nat :: i < s.successes ==>
      s.slabs[i].base != 0 && s.slabs[i].base in s.regions && s.regions[s.slabs[i].base].place == Registered(i)
  {
    TotalZeroIff(s.pcs, Overflowing);
    forall b | b in s.regions
      ensures s.regions[b].place.Registered? && s.regions[b].place.index < s.successes && b != 0
              && s.slabs[s.regions[b].place.index].base == b
    {
      assert RegionOk(s, b);
    }
    forall i ensures i !in s.claims {
      assert IndexOk(s, i);
    }
    forall i: nat | i < s.successes
      ensures s.slabs[i].base != 0 && s.slabs[i].base in s.regions
              && s.regions[s.slabs[i].base].place == Registered(i)
    {
      assert IndexOk(s, i);
      assert RegionOk(s, s.slabs[i].base);
    }
  }

  /** Shutdown releases every held slab exactly once and nothing else. */
  lemma ShutdownReleasesEachSlabOnce(s: State)
    requires Invariant(s) && AllIdle(s)
    ensures Distinct(Released(s.slabs, LoopEnd(s)))
    ensures forall b :: b in Released(s.slabs, LoopEnd(s)) <==> b in s.regions
  {
    IdleTable(s);
    ReleasedDistinct(s.slabs, LoopEnd(s));
    forall b ensures b in Released(s.slabs, LoopEnd(s)) <==> b in s.regions {
      ReleasedMembers(s.slabs, LoopEnd(s), b);
    }
  }

  lemma ShutdownKeeps(s: State)
    requires Invariant(s) && AllIdle(s) && s.generation + 1 < UINT32_VALUES
    ensures Invariant(ShutdownStep(s))
    ensures ShutdownStep(s).regions == map[] && ShutdownStep(s).blocks == map[]
  {
    var p := ShutdownStep(s);
    ShutdownReleasesEachSlabOnce(s);
    IdleTable(s);
    TotalZeroIff(s.pcs, Overflowing);
    forall a | a in s.blocks ensures s.blocks[a].base in s.regions {
      assert BlockOk(s, a);
    }
    assert p.regions == map[];
    assert p.blocks == map[];
    forall i ensures IndexOk(p, i) { assert IndexOk(s, i); }
    forall u | 0 <= u < |p.pcs| ensures PcOk(p, u) { }
    forall u | 0 <= u < |p.caches| ensures CacheOk(p, u) { assert CacheOk(s, u); }
    forall u, c | 0 <= u < |p.pcs| && 0 <= c < CLASS_COUNT ensures ListOk(p, u, c) { assert CacheOk(s, u); }
  }

  /** After a shutdown no slab, no block and no thread's list is left. */
  lemma ShutdownForgets(s: State)
    requires Invariant(s) && AllIdle(s) && s.generation + 1 < UINT32_VALUES
    ensures Distinct(Released(s.slabs, LoopEnd(s)))
    ensures forall b :: b in Released(s.slabs, LoopEnd(s)) <==> b in s.regions
    ensures ShutdownStep(s).regions == map[] && ShutdownStep(s).blocks == map[]
    ensures forall u :: 0 <= u < |s.caches| ==> !Fresh(ShutdownStep(s), u)
  {
    ShutdownReleasesEachSlabOnce(s);
    ShutdownKeeps(s);
    forall u | 0 <= u < |s.caches| ensures !Fresh(ShutdownStep(s), u) {
      assert CacheOk(s, u);
    }
  }

  lemma InitializedKeeps(s: State)
    requires Invariant(s)
    ensures Invariant(s.(initialized := true))
  {
    var p := s.(initialized := true);
    forall b ensures RegionOk(p, b) { assert RegionOk(s, b); }
    forall a, b ensures RegionsApart(p, a, b) { assert RegionsApart(s, a, b); }
    forall i ensures IndexOk(p, i) { assert IndexOk(s, i); }
    forall u | 0 <= u < |p.pcs| ensures PcOk(p, u) { assert PcOk(s, u); }
    forall u | 0 <= u < |p.caches| ensures CacheOk(p, u) { assert CacheOk(s, u); }
    SameListsKeep(s, p);
  }

  // ---- client writes ----

  /** A client's byte is no part of a listed block's link. */
  lemma ClientByteIsElsewhere(s: State, address: nat, a: nat)
    requires Invariant(s) && ClientMayWrite(s, address) && a in s.blocks && s.blocks[a].owner.Listed?
    ensures address < a || a + WORD_BYTES <= address
  {
    BlockGeometry(s, a);
    if l :| l in s.blocks && s.blocks[l].owner.Live? && s.blocks[l].class_ < CLASS_COUNT
            && l <= address < l + ClassSize(s.blocks[l].class_) {
      BlocksApart(s, l, a);
    }
  }

  lemma ClientWriteKeeps(s: State, address: nat, value: Byte)
    requires Invariant(s) && ClientMayWrite(s, address)
    ensures Invariant(s.(memory := StoreByte(s.memory, address, value)))
  {
    var p := s.(memory := StoreByte(s.memory, address, value));
    forall b ensures RegionOk(p, b) { assert RegionOk(s, b); }
    forall a, b ensures RegionsApart(p, a, b) { assert RegionsApart(s, a, b); }
    forall i ensures IndexOk(p, i) { assert IndexOk(s, i); }
    forall u | 0 <= u < |p.pcs| ensures PcOk(p, u) { assert PcOk(s, u); }
    forall u | 0 <= u < |p.caches| ensures CacheOk(p, u) { assert CacheOk(s, u); }
    forall a ensures BlockOk(p, a) { assert BlockOk(s, a); }
    forall b, k ensures CarvedOk(p, b, k) { assert CarvedOk(s, b, k); }
    forall u, c | 0 <= u < |p.pcs| && 0 <= c < CLASS_COUNT ensures ListOk(p, u, c) {
      assert ListOk(s, u, c);
      if Fresh(s, u) {
        forall a | a in s.chains[u][c] ensures AgreeOn(s.memory, p.memory, a, WORD_BYTES) {
          assert MemberOk(s, u, c, a);
          ClientByteIsElsewhere(s, address, a);
        }
        ChainFrame(s.memory, p.memory, s.caches[u].heads[c], s.chains[u][c]);
      }
    }
    forall u, c, a | 0 <= u < |p.pcs| && 0 <= c < CLASS_COUNT ensures MemberOk(p, u, c, a) {
      assert MemberOk(s, u, c, a);
    }
  }

  // ---- every step, every run ----

  predicate IsSlabAction(a: Action) {
    a.BackendAnswer? || a.ClaimIndex? || a.StoreSlab? || a.RollBack? || a.ReturnSlab?
  }

  predicate IsRefillAction(a: Action) {
    IsSlabAction(a) || a.Carve? || a.FinishRefill?
  }

  lemma SlabStepKeeps(s: State, a: Action)
    requires Invariant(s) && ThreadsFit(|s.pcs|) && IsSlabAction(a) && Step(s, a).Some?
    ensures Invariant(Step(s, a).value) && |Step(s, a).value.pcs| == |s.pcs|
  {
    match a
    case BackendAnswer(t, base) =>
      if base == 0 {
        LocalMoveKeeps(s, t, Idle);
      } else {
        TakeSlabKeeps(s, t, base);
      }
    case ClaimIndex(t) => ClaimIndexKeeps(s, t);
    case StoreSlab(t) => StoreSlabKeeps(s, t);
    case RollBack(t) => RollBackKeeps(s, t);
    case ReturnSlab(t) => ReturnSlabKeeps(s, t);
  }

  lemma CarveActionKeeps(s: State, t: nat)
    requires Invariant(s) && Step(s, Carve(t)).Some?
    ensures Invariant(Step(s, Carve(t)).value) && |Step(s, Carve(t)).value.pcs| == |s.pcs|
  {
    CarveKeeps(s, t);
  }

  lemma FinishActionKeeps(s: State, t: nat)
    requires Invariant(s) && Step(s, FinishRefill(t)).Some?
    ensures Invariant(Step(s, FinishRefill(t)).value) && |Step(s, FinishRefill(t)).value.pcs| == |s.pcs|
  {
    FinishRefillKeeps(s, t);
  }

  lemma BlockActionKeeps(s: State, a: Action)
    requires Invariant(s) && (a.Allocate? || a.Free?) && Step(s, a).Some?
    ensures Invariant(Step(s, a).value) && |Step(s, a).value.pcs| == |s.pcs|
  {
    match a
    case Allocate(t, request) => AllocateKeeps(s, t, request);
    case Free(t, pointer, request) => FreeKeeps(s, t, pointer, request);
  }

  lemma CallStepKeeps(s: State, a: Action)
    requires Invariant(s) && !IsRefillAction(a) && Step(s, a).Some?
    ensures Invariant(Step(s, a).value) && |Step(s, a).value.pcs| == |s.pcs|
  {
    if a.Allocate? || a.Free? {
      BlockActionKeeps(s, a);
    } else {
      match a
      case Shutdown(t) => ShutdownKeeps(s);
      case Enable(t) => InitializedKeeps(s);
      case ClientWrite(t, address, value) => ClientWriteKeeps(s, address, value);
    }
  }

  lemma StepKeepsInvariant(s: State, a: Action)
    requires Invariant(s) && ThreadsFit(|s.pcs|) && Step(s, a).Some?
    ensures Invariant(Step(s, a).value) && |Step(s, a).value.pcs| == |s.pcs|
  {
    if IsSlabAction(a) {
      SlabStepKeeps(s, a);
    } else if IsRefillAction(a) {
      match a
      case Carve(t) => CarveActionKeeps(s, t);
      case FinishRefill(t) => FinishActionKeeps(s, t);
    } else {
      CallStepKeeps(s, a);
    }
  }

  lemma {:induction false} RunKeepsInvariant(s: State, run: Run, s': State)
    requires Invariant(s) && ThreadsFit(|s.pcs|) && Leads(s, run, s')
    ensures Invariant(s') && |s'.pcs| == |s.pcs|
    decreases |run.actions|
  {
    if run.actions != [] {
      var last := |run.actions| - 1;
      LeadsShorter(s, run, s');
      RunKeepsInvariant(s, Shorter(run), run.states[last]);
      LastStepKeepsInvariant(s, run, s');
    }
  }

  lemma LastStepKeepsInvariant(s: State, run: Run, s': State)
    requires Leads(s, run, s') && run.actions != []
    requires var before := run.states[|run.actions| - 1];
             Invariant(before) && ThreadsFit(|before.pcs|)
    ensures Invariant(s') && |s'.pcs| == |run.states[|run.actions| - 1].pcs|
  {
    var last := |run.actions| - 1;
    assert TakenAt(run, last);
    StepKeepsInvariant(run.states[last], run.actions[last]);
  }

  // ---- main results ----

  /** Steps of any threads lead from the start to this state. */
  ghost predicate Reaches(memory: Memory, threadCount: nat, run: Run, s: State) {
    ThreadsFit(threadCount) && Leads(Initial(memory, threadCount), run, s)
  }

  lemma ReachedInvariant(memory: Memory, threadCount: nat, run: Run, s: State)
    requires Reaches(memory, threadCount, run, s)
    ensures Invariant(s) && |s.pcs| == threadCount
  {
    InitialInvariant(memory, threadCount);
    RunKeepsInvariant(Initial(memory, threadCount), run, s);
  }

  /** A block is on exactly the named list and on no other. */
  ghost predicate OnlyOn(s: State, a: nat, t: nat, c: nat)
    requires WellShaped(s)
  {
    && t < |s.chains| && c < CLASS_COUNT && a in s.chains[t][c]
    && forall u, d :: 0 <= u < |s.chains| && 0 <= d < CLASS_COUNT && a in s.chains[u][d] ==> u == t && d == c
  }

  /**
   In every run each carved block of a held slab is live and on no list, or on exactly one thread's list of its own
   class; each list is what memory links together from the thread's head, without repetition.
   */
  lemma EveryBlockIsHeldOnce(memory: Memory, threadCount: nat, run: Run, s: State)
    requires Reaches(memory, threadCount, run, s)
    ensures && WellShaped(s)
            && (forall a :: a in s.blocks ==>
                  match s.blocks[a].owner
                  case Live(_) => forall u, d :: 0 <= u < |s.chains| && 0 <= d < CLASS_COUNT ==> a !in s.chains[u][d]
                  case Listed(t) => OnlyOn(s, a, t, s.blocks[a].class_))
            && (forall t, c :: 0 <= t < |s.pcs| && 0 <= c < CLASS_COUNT ==>
                  Distinct(s.chains[t][c])
                  && (Fresh(s, t) ==> IsChain(s.memory, s.caches[t].heads[c], s.chains[t][c])))
  {
    ReachedInvariant(memory, threadCount, run, s);
    forall u, d, a | 0 <= u < |s.chains| && 0 <= d < CLASS_COUNT && a in s.chains[u][d]
      ensures a in s.blocks && s.blocks[a].owner == Listed(u) && s.blocks[a].class_ == d
    {
      assert MemberOk(s, u, d, a);
    }
    forall a | a in s.blocks ensures s.blocks[a].owner.Listed? ==> OnlyOn(s, a, s.blocks[a].owner.thread, s.blocks[a].class_) {
      assert BlockOk(s, a);
    }
    forall t, c | 0 <= t < |s.pcs| && 0 <= c < CLASS_COUNT
      ensures Distinct(s.chains[t][c]) && (Fresh(s, t) ==> IsChain(s.memory, s.caches[t].heads[c], s.chains[t][c]))
    {
      assert ListOk(s, t, c);
      if Fresh(s, t) {
        ChainIsAcyclic(s.memory, s.caches[t].heads[c], s.chains[t][c]);
      }
    }
  }

  /** In every run each held slab is covered: every block position of a registered slab is an accounted block. */
  lemma RegisteredSlabsAreCovered(memory: Memory, threadCount: nat, run: Run, s: State, b: nat, k: nat)
    requires Reaches(memory, threadCount, run, s)
    ensures b in s.regions && s.regions[b].place.Registered? ==>
              && s.regions[b].class_ < CLASS_COUNT
              && (k < BlockCount(s.regions[b].class_) ==>
                    var a := BlockAt(b, s.regions[b].class_, k);
                    a in s.blocks && s.blocks[a].base == b && s.blocks[a].class_ == s.regions[b].class_)
  {
    ReachedInvariant(memory, threadCount, run, s);
    assert RegionOk(s, b) && CarvedOk(s, b, k);
    if b in s.regions {
      assert BlockOk(s, BlockAt(b, s.regions[b].class_, k));
    }
  }

  /** Live blocks are disjoint, inside one held slab, large enough, and aligned as requested; their class is the least that fits. */
  lemma LiveBlocksAreSound(memory: Memory, threadCount: nat, run: Run, s: State, a: nat, b: nat)
    requires Reaches(memory, threadCount, run, s)
    requires a in s.blocks && s.blocks[a].owner.Live? && b in s.blocks && s.blocks[b].owner.Live?
    ensures var x, y := s.blocks[a], s.blocks[b];
            && x.class_ < CLASS_COUNT && y.class_ < CLASS_COUNT
            && (a != b ==> a + ClassSize(x.class_) <= b || b + ClassSize(y.class_) <= a)
            && x.base in s.regions && x.base <= a && a + ClassSize(x.class_) <= x.base + SLAB_SIZE
            && x.owner.request.size <= ClassSize(x.class_)
            && IsLeastClass(x.class_, Required(x.owner.request.size, x.owner.request.alignment))
            && x.owner.request.alignment > 0 && a % x.owner.request.alignment == 0
  {
    ReachedInvariant(memory, threadCount, run, s);
    BlockGeometry(s, a);
    BlockGeometry(s, b);
    if a != b {
      BlocksApart(s, a, b);
    }
    LiveBlockFits(s, a);
  }

  /**
   A block that is handed out was on the calling thread's list and not live, belongs to a slab the allocator still
   holds, and is live for this request afterwards; a completed refill always hands one out.
   */
  lemma HandedOutBlockIsCurrent(memory: Memory, threadCount: nat, run: Run, s: State, a: Action, s': State)
    requires Reaches(memory, threadCount, run, s)
    requires a.Allocate? || a.FinishRefill?
    requires Step(s, a) == Some(s')
    ensures var p := HandedOut(s, a);
            && (p != 0 ==>
                  && p in s.blocks && s.blocks[p].owner == Listed(a.t)
                  && s.blocks[p].base in s.regions && s.blocks[p].base in s'.regions
                  && p in s'.blocks
                  && s'.blocks[p] == s.blocks[p].(owner := Live(if a.Allocate? then a.request else s.pcs[a.t].request)))
            && (a.FinishRefill? ==> p != 0)
  {
    ReachedInvariant(memory, threadCount, run, s);
    var p := HandedOut(s, a);
    if a.FinishRefill? {
      RefilledListIsNonempty(s, a.t);
      HeadIsListed(s, a.t, s.pcs[a.t].class_);
      BlockGeometry(s, p);
    } else if p != 0 {
      ResetKeeps(s, a.t);
      HeadIsListed(ResetIfStale(s, a.t), a.t, ClassIndex(a.request.size, a.request.alignment).value);
      BlockGeometry(s, p);
    }
  }

  /** No two registrations share a table index, at most MAX_SLABS succeed, and at rest the count is the successes. */
  lemma SlabRegistration(memory: Memory, threadCount: nat, run: Run, s: State, t: nat, u: nat)
    requires Reaches(memory, threadCount, run, s)
    ensures && s.successes <= 4096
            && s.slabCount == s.successes + Total(s.pcs, Overflowing)
            && (t < |s.pcs| && s.pcs[t].Claimed? ==>
                  && s.pcs[t].index < s.successes && s.pcs[t].index < |s.slabs| && s.slabs[s.pcs[t].index] == NO_SLAB
                  && (u < |s.pcs| && u != t && s.pcs[u].Claimed? ==> s.pcs[u].index != s.pcs[t].index))
            && (AllIdle(s) ==>
                  && s.slabCount == s.successes && s.slabCount <= |s.slabs|
                  && (forall i: nat :: i < s.slabCount ==> s.slabs[i].base in s.regions)
                  && (forall i, j :: 0 <= i < j < s.slabCount ==> s.slabs[i].base != s.slabs[j].base))
  {
    ReachedInvariant(memory, threadCount, run, s);
    if t < |s.pcs| {
      assert PcOk(s, t);
      if s.pcs[t].Claimed? {
        assert IndexOk(s, s.pcs[t].index);
        if u < |s.pcs| {
          assert PcOk(s, u);
        }
      }
    }
    if AllIdle(s) {
      IdleTable(s);
    }
  }

  /** A shutdown anywhere in a run releases exactly the held slabs, each once, and nothing of them stays reachable. */
  lemma ShutdownIsComplete(memory: Memory, threadCount: nat, run: Run, s: State)
    requires Reaches(memory, threadCount, run, s)
    requires WellShaped(s) && AllIdle(s) && s.generation + 1 < UINT32_VALUES
    ensures var s' := ShutdownStep(s);
            && Distinct(Released(s.slabs, LoopEnd(s)))
            && (forall b :: b in Released(s.slabs, LoopEnd(s)) <==> b in s.regions)
            && s'.regions == map[] && s'.blocks == map[]
            && (forall u :: 0 <= u < |s'.caches| ==> !Fresh(s', u))
  {
    ReachedInvariant(memory, threadCount, run, s);
    ShutdownForgets(s);
  }
}
