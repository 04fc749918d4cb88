/**
 What every reachable state of the small block allocator satisfies.  The facts are families indexed by
 region, table index, thread, list or block address; explicit triggers keep a family folded until a proof
 names the member it needs.
 */
module SmallBlockInvariant {
  import opened Alignment
  import opened Arithmetic
  import opened ByteMemory
  import opened Options
  import opened SmallBlockClasses
  import opened SmallBlockProtocol
  import opened Sums
  import opened Words

  // ---- the families ----

  ghost predicate Fresh(s: State, t: nat) {
    t < |s.caches| && s.caches[t].generation == s.generation
  }

  /** A request that belongs to a class. */
  predicate Fits(request: Request, c: nat) {
    IsPowerOfTwo(request.alignment) && ClassIndex(request.size, request.alignment) == Some(c)
  }

  predicate HoldsSlab(pc: Pc, b: nat, c: nat) {
    (pc.GotSlab? || pc.Claimed? || pc.Overflowed? || pc.Rejected?) && pc.base == b && pc.class_ == c
  }

  ghost predicate PlaceOk(s: State, b: nat, r: Region) {
    match r.place
    case InFlight(t) => t < |s.pcs| && r.carved == 0 && HoldsSlab(s.pcs[t], b, r.class_)
    case Filling(t, i) =>
      && t < |s.pcs| && s.pcs[t].Carving?
      && s.pcs[t].base == b && s.pcs[t].class_ == r.class_ && s.pcs[t].next == r.carved
      && i < s.successes && i < |s.slabs| && s.slabs[i].base == b
    case Registered(i) =>
      && i < s.successes && i < |s.slabs| && s.slabs[i].base == b
      && r.class_ < CLASS_COUNT && r.carved == BlockCount(r.class_)
  }

  /** A slab the allocator holds is well placed and in exactly the stage its place says. */
  ghost predicate RegionOk(s: State, b: nat) {
    b in s.regions ==>
      var r := s.regions[b];
      && b != 0 && b + SLAB_SIZE < WORD_VALUES
      && r.class_ < CLASS_COUNT && b % ClassSize(r.class_) == 0
      && r.carved <= BlockCount(r.class_)
      && PlaceOk(s, b, r)
  }

  ghost predicate RegionsApart(s: State, a: nat, b: nat) {
    a in s.regions && b in s.regions && a != b ==> a + SLAB_SIZE <= b || b + SLAB_SIZE <= a
  }

  ghost predicate PcOk(s: State, t: nat)
    requires t < |s.pcs|
  {
    match s.pcs[t]
    case Idle => true
    case Missed(request, c) => Fits(request, c) && Fresh(s, t)
    case GotSlab(request, c, b) => Fits(request, c) && Fresh(s, t) && InPlace(s, b, c, InFlight(t))
    case Claimed(request, c, b, i) =>
      && Fits(request, c) && Fresh(s, t) && InPlace(s, b, c, InFlight(t))
      && i < s.successes && i in s.claims && s.claims[i] == t
    case Overflowed(request, c, b) => Fits(request, c) && Fresh(s, t) && InPlace(s, b, c, InFlight(t))
    case Rejected(request, c, b) => Fits(request, c) && Fresh(s, t) && InPlace(s, b, c, InFlight(t))
    case Carving(request, c, b, next) =>
      && Fits(request, c) && Fresh(s, t)
      && b in s.regions && s.regions[b].class_ == c && s.regions[b].carved == next
      && s.regions[b].place.Filling? && s.regions[b].place.thread == t
      && next <= BlockCount(c)
      && (next > 0 ==> t < |s.chains| && c < |s.chains[t]| && s.chains[t][c] != [])
  }

  ghost predicate InPlace(s: State, b: nat, c: nat, place: Place) {
    b in s.regions && s.regions[b].class_ == c && s.regions[b].place == place
  }

  predicate HasIndex(place: Place, i: nat) {
    !place.InFlight? && place.index == i
  }

  /** Below the success count an index is claimed or names a held slab; above it the table is unused. */
  ghost predicate IndexOk(s: State, i: nat) {
    if i >= s.successes then i !in s.claims && (i < |s.slabs| ==> s.slabs[i] == NO_SLAB)
    else
      && i < |s.slabs|
      && if i in s.claims then
           && s.slabs[i] == NO_SLAB
           && s.claims[i] < |s.pcs| && s.pcs[s.claims[i]].Claimed? && s.pcs[s.claims[i]].index == i
         else
           var b := s.slabs[i].base;
           && b in s.regions && HasIndex(s.regions[b].place, i)
           && s.regions[b].class_ < CLASS_COUNT && s.slabs[i].classSize == ClassSize(s.regions[b].class_)
  }

  function Overflowing(pc: Pc): nat {
    if pc.Overflowed? then 1 else 0
  }

  /** The shared count is the successes plus the overflows still to be rolled back, which only a full table has. */
  ghost predicate CountOk(s: State) {
    && s.slabCount == s.successes + Total(s.pcs, Overflowing)
    && s.successes <= MAX_SLABS
    && (Total(s.pcs, Overflowing) > 0 ==> s.successes == MAX_SLABS)
  }

  ghost predicate IsCarved(a: nat, b: nat, c: nat, carved: nat) {
    c < CLASS_COUNT && exists k: nat :: k < carved && a == BlockAt(b, c, k)
  }

  /** A block lies in a held slab of its class, and is live for a request of that class or on one thread's list. */
  ghost predicate BlockOk(s: State, a: nat) {
    a in s.blocks ==>
      var info := s.blocks[a];
      && info.base in s.regions && s.regions[info.base].class_ == info.class_
      && IsCarved(a, info.base, info.class_, s.regions[info.base].carved)
      && match info.owner
         case Live(request) => Fits(request, info.class_)
         case Listed(t) =>
           && Fresh(s, t)
           && t < |s.chains| && info.class_ < |s.chains[t]| && a in s.chains[t][info.class_]
  }

  /** Every carved block of a held slab is accounted for. */
  ghost predicate CarvedOk(s: State, b: nat, k: nat) {
    b in s.regions && s.regions[b].class_ < CLASS_COUNT && k < s.regions[b].carved ==>
      var a := BlockAt(b, s.regions[b].class_, k);
      a in s.blocks && s.blocks[a].base == b
  }

  /** A current list is what memory links together; a stale one is forgotten. */
  ghost predicate ListOk(s: State, t: nat, c: nat)
    requires WellShaped(s) && t < |s.pcs| && c < CLASS_COUNT
  {
    if Fresh(s, t) then IsChain(s.memory, s.caches[t].heads[c], s.chains[t][c]) else s.chains[t][c] == []
  }

  ghost predicate MemberOk(s: State, t: nat, c: nat, a: nat)
    requires WellShaped(s) && t < |s.pcs| && c < CLASS_COUNT
  {
    a in s.chains[t][c] ==> a in s.blocks && s.blocks[a].owner == Listed(t) && s.blocks[a].class_ == c
  }

  ghost predicate CacheOk(s: State, t: nat)
    requires t < |s.caches|
  {
    s.caches[t].generation <= s.generation
  }

  // ---- the invariant ----

  ghost predicate Regions(s: State) {
    && (forall b {:trigger RegionOk(s, b)} :: RegionOk(s, b))
    && (forall a, b {:trigger RegionsApart(s, a, b)} :: RegionsApart(s, a, b))
  }

  ghost predicate Table(s: State) {
    && CountOk(s)
    && (forall i {:trigger IndexOk(s, i)} :: IndexOk(s, i))
  }

  ghost predicate Threads(s: State)
    requires WellShaped(s)
  {
    && (forall t {:trigger PcOk(s, t)} :: 0 <= t < |s.pcs| ==> PcOk(s, t))
    && (forall t {:trigger CacheOk(s, t)} :: 0 <= t < |s.caches| ==> CacheOk(s, t))
  }

  ghost predicate BlocksFamily(s: State) {
    && (forall a {:trigger BlockOk(s, a)} :: BlockOk(s, a))
    && (forall b, k {:trigger CarvedOk(s, b, k)} :: CarvedOk(s, b, k))
  }

  ghost predicate Lists(s: State)
    requires WellShaped(s)
  {
    && (forall t, c {:trigger ListOk(s, t, c)} :: 0 <= t < |s.pcs| && 0 <= c < CLASS_COUNT ==> ListOk(s, t, c))
    && (forall t, c, a {:trigger MemberOk(s, t, c, a)} ::
          0 <= t < |s.pcs| && 0 <= c < CLASS_COUNT ==> MemberOk(s, t, c, a))
  }

  ghost predicate Invariant(s: State) {
    WellShaped(s) && Regions(s) && Table(s) && Threads(s) && BlocksFamily(s) && Lists(s)
  }

  lemma InitialInvariant(memory: Memory, threadCount: nat)
    ensures Invariant(Initial(memory, threadCount))
  {
    var s := Initial(memory, threadCount);
    TotalZeroIff(s.pcs, Overflowing);
  }

  // ---- geometry ----

  lemma BlockGeometry(s: State, a: nat)
    requires Invariant(s) && a in s.blocks
    ensures var info := s.blocks[a];
            && info.class_ < CLASS_COUNT && info.base in s.regions
            && info.base != 0 && info.base <= a && a + ClassSize(info.class_) <= info.base + SLAB_SIZE
            && a % ClassSize(info.class_) == 0
  {
    var info := s.blocks[a];
    assert BlockOk(s, a) && RegionOk(s, info.base);
    var k: nat :| k < s.regions[info.base].carved && a == BlockAt(info.base, info.class_, k);
    CarvedGeometry(info.base, info.class_, k);
  }

  lemma CarvedGeometry(b: nat, c: nat, k: nat)
    requires c < CLASS_COUNT && k < BlockCount(c) && b % ClassSize(c) == 0
    ensures b <= BlockAt(b, c, k) && BlockAt(b, c, k) + ClassSize(c) <= b + SLAB_SIZE
    ensures BlockAt(b, c, k) % ClassSize(c) == 0
  {
    var size := ClassSize(c);
    DivModEquation(SLAB_SIZE, size);
    MulMonotone(k, BlockCount(c), size);
    DivModEquation(b, size);
    Distribute(b / size, k, size);
    MultipleMod(b / size + k, size);
  }

  lemma CarvedApart(b: nat, c: nat, i: nat, j: nat)
    requires c < CLASS_COUNT && i != j
    ensures BlockAt(b, c, i) + ClassSize(c) <= BlockAt(b, c, j) || BlockAt(b, c, j) + ClassSize(c) <= BlockAt(b, c, i)
  {
    if i < j {
      MulMonotone(i, j, ClassSize(c));
    } else {
      MulMonotone(j, i, ClassSize(c));
    }
  }

  /** A live block is large enough for its request and aligned as asked. */
  lemma LiveBlockFits(s: State, a: nat)
    requires Invariant(s) && a in s.blocks && s.blocks[a].owner.Live?
    ensures var x := s.blocks[a];
            && x.class_ < CLASS_COUNT && x.owner.request.size <= ClassSize(x.class_)
            && IsLeastClass(x.class_, Required(x.owner.request.size, x.owner.request.alignment))
            && x.owner.request.alignment > 0 && a % x.owner.request.alignment == 0
  {
    assert BlockOk(s, a);
    BlockGeometry(s, a);
    var x := s.blocks[a];
    ClassSizeDivides(x.class_, x.owner.request.alignment);
    MultipleOfMultiple(a, ClassSize(x.class_), x.owner.request.alignment);
  }

  /** Different blocks never overlap. */
  lemma BlocksApart(s: State, a: nat, b: nat)
    requires Invariant(s) && a in s.blocks && b in s.blocks && a != b
    ensures s.blocks[a].class_ < CLASS_COUNT && s.blocks[b].class_ < CLASS_COUNT
    ensures a + ClassSize(s.blocks[a].class_) <= b || b + ClassSize(s.blocks[b].class_) <= a
  {
    BlockGeometry(s, a);
    BlockGeometry(s, b);
    var x, y := s.blocks[a], s.blocks[b];
    if x.base != y.base {
      assert RegionsApart(s, x.base, y.base);
    } else {
      assert BlockOk(s, a) && BlockOk(s, b);
      var i: nat :| i < s.regions[x.base].carved && a == BlockAt(x.base, x.class_, i);
      var j: nat :| j < s.regions[x.base].carved && b == BlockAt(x.base, x.class_, j);
      CarvedApart(x.base, x.class_, i, j);
    }
  }

  // ---- popping, pushing, resetting ----

  lemma ResetKeeps(s: State, t: nat)
    requires Invariant(s) && t < |s.pcs| && s.pcs[t].Idle?
    ensures Invariant(ResetIfStale(s, t)) && Fresh(ResetIfStale(s, t), t)
  {
    if !Fresh(s, t) {
      var r := ResetIfStale(s, t);
      forall b ensures RegionOk(r, b) { assert RegionOk(s, b); }
      forall a, b ensures RegionsApart(r, a, b) { assert RegionsApart(s, a, b); }
      forall i ensures IndexOk(r, i) { assert IndexOk(s, i); }
      forall u | 0 <= u < |r.pcs| ensures PcOk(r, u) { assert PcOk(s, u); }
      forall u | 0 <= u < |r.caches| ensures CacheOk(r, u) { assert CacheOk(s, u); }
      forall a ensures BlockOk(r, a) { assert BlockOk(s, a); }
      forall b, k ensures CarvedOk(r, b, k) { assert CarvedOk(s, b, k); }
      forall u, c | 0 <= u < |r.pcs| && 0 <= c < CLASS_COUNT ensures ListOk(r, u, c) { assert ListOk(s, u, c); }
      forall u, c, a | 0 <= u < |r.pcs| && 0 <= c < CLASS_COUNT ensures MemberOk(r, u, c, a) {
        assert MemberOk(s, u, c, a);
      }
    }
  }

  /** The head of a nonempty current list is a block listed there. */
  lemma HeadIsListed(s: State, t: nat, c: nat)
    requires Invariant(s) && Fresh(s, t) && t < |s.pcs| && c < CLASS_COUNT && s.caches[t].heads[c] != 0
    ensures var head := s.caches[t].heads[c];
            && s.chains[t][c] != [] && s.chains[t][c][0] == head
            && head in s.blocks && s.blocks[head].owner == Listed(t) && s.blocks[head].class_ == c
            && head !in s.chains[t][c][1..]
            && IsChain(s.memory, LoadWord(s.memory, head), s.chains[t][c][1..])
  {
    var chain := s.chains[t][c];
    assert ListOk(s, t, c);
    ChainTail(s.memory, s.caches[t].heads[c], chain);
    ChainIsAcyclic(s.memory, s.caches[t].heads[c], chain);
    assert MemberOk(s, t, c, chain[0]);
  }

  lemma PopKeeps(s: State, t: nat, c: nat, request: Request)
    requires Invariant(s) && t < |s.pcs| && s.pcs[t].Idle? && c < CLASS_COUNT
    requires Fresh(s, t) && s.caches[t].heads[c] != 0 && Fits(request, c)
    ensures Invariant(Pop(s, t, c, request))
  {
    HeadIsListed(s, t, c);
    var p, head := Pop(s, t, c, request), s.caches[t].heads[c];
    forall b ensures RegionOk(p, b) { assert RegionOk(s, b); }
    forall a, b ensures RegionsApart(p, a, b) { assert RegionsApart(s, a, b); }
    forall i ensures IndexOk(p, i) { assert IndexOk(s, i); }
    PopThreads(s, t, c, request);
    PopBlocks(s, t, c, request);
    PopLists(s, t, c, request);
  }

  lemma PopPc(s: State, t: nat, c: nat, request: Request, u: nat)
    requires WellShaped(s) && t < |s.pcs| && s.pcs[t].Idle? && c < CLASS_COUNT && u < |s.pcs| && PcOk(s, u)
    ensures PcOk(Pop(s, t, c, request), u)
  {
    var p := Pop(s, t, c, request);
    assert p.pcs == s.pcs && p.regions == s.regions && p.claims == s.claims && p.successes == s.successes;
    assert Fresh(s, u) ==> Fresh(p, u);
    assert u != t ==> p.chains[u] == s.chains[u];
  }

  lemma PopThreads(s: State, t: nat, c: nat, request: Request)
    requires Invariant(s) && t < |s.pcs| && s.pcs[t].Idle? && c < CLASS_COUNT
    ensures Threads(Pop(s, t, c, request))
  {
    var p := Pop(s, t, c, request);
    forall u | 0 <= u < |p.pcs| ensures PcOk(p, u) {
      assert PcOk(s, u);
      PopPc(s, t, c, request, u);
    }
    forall u | 0 <= u < |p.caches| ensures CacheOk(p, u) { assert CacheOk(s, u); }
  }

  lemma PopBlocks(s: State, t: nat, c: nat, request: Request)
    requires Invariant(s) && t < |s.pcs| && c < CLASS_COUNT
    requires Fresh(s, t) && s.caches[t].heads[c] != 0 && Fits(request, c)
    ensures BlocksFamily(Pop(s, t, c, request))
  {
    HeadIsListed(s, t, c);
    var p, chain := Pop(s, t, c, request), s.chains[t][c];
    assert chain == [chain[0]] + chain[1..];
    forall a ensures BlockOk(p, a) {
      assert BlockOk(s, a);
    }
    forall b, k ensures CarvedOk(p, b, k) { assert CarvedOk(s, b, k); }
  }

  lemma PopLists(s: State, t: nat, c: nat, request: Request)
    requires Invariant(s) && t < |s.pcs| && c < CLASS_COUNT
    requires Fresh(s, t) && s.caches[t].heads[c] != 0
    ensures Lists(Pop(s, t, c, request))
  {
    HeadIsListed(s, t, c);
    var p, chain := Pop(s, t, c, request), s.chains[t][c];
    forall u, d | 0 <= u < |p.pcs| && 0 <= d < CLASS_COUNT ensures ListOk(p, u, d) { assert ListOk(s, u, d); }
    forall u, d, a | 0 <= u < |p.pcs| && 0 <= d < CLASS_COUNT ensures MemberOk(p, u, d, a) {
      assert MemberOk(s, u, d, a);
    }
  }

  /** Pushing a block that is on no list, and apart from all listed ones, keeps every list. */
  lemma PushLists(s: State, t: nat, c: nat, block: nat, base: nat)
    requires Invariant(s) && Fresh(s, t) && t < |s.pcs| && c < CLASS_COUNT && block != 0
    requires block in s.blocks ==> s.blocks[block].owner.Live?
    requires forall a :: a in s.blocks && a != block ==> a + WORD_BYTES <= block || block + WORD_BYTES <= a
    ensures Lists(Push(s, t, c, block, base))
  {
    var p := Push(s, t, c, block, base);
    forall u, d | 0 <= u < |p.pcs| && 0 <= d < CLASS_COUNT ensures ListOk(p, u, d) {
      assert ListOk(s, u, d);
      forall a | a in s.chains[u][d] ensures a in s.blocks && a != block {
        assert MemberOk(s, u, d, a);
      }
      if Fresh(s, u) {
        HeadInWord(s, u, d);
        if u == t && d == c {
          ChainPush(s.memory, s.caches[t].heads[c], s.chains[t][c], block);
        } else {
          ChainFrame(s.memory, p.memory, s.caches[u].heads[d], s.chains[u][d]);
        }
      }
    }
    forall u, d, a | 0 <= u < |p.pcs| && 0 <= d < CLASS_COUNT ensures MemberOk(p, u, d, a) {
      assert MemberOk(s, u, d, a);
    }
  }

  lemma HeadInWord(s: State, t: nat, c: nat)
    requires Invariant(s) && Fresh(s, t) && t < |s.pcs| && c < CLASS_COUNT
    ensures s.caches[t].heads[c] < WORD_VALUES
  {
    if s.caches[t].heads[c] != 0 {
      HeadIsListed(s, t, c);
      var head := s.caches[t].heads[c];
      BlockGeometry(s, head);
      assert RegionOk(s, s.blocks[head].base);
    }
  }

  /** Freeing a live block puts it on the freeing thread's list of the block's class. */
  lemma PushFreedKeeps(s: State, t: nat, c: nat, block: nat)
    requires Invariant(s) && Fresh(s, t) && t < |s.pcs| && s.pcs[t].Idle? && c < CLASS_COUNT
    requires block in s.blocks && s.blocks[block].owner.Live? && s.blocks[block].class_ == c
    ensures Invariant(Push(s, t, c, block, s.blocks[block].base))
  {
    var p := Push(s, t, c, block, s.blocks[block].base);
    BlockGeometry(s, block);
    forall a | a in s.blocks && a != block ensures a + WORD_BYTES <= block || block + WORD_BYTES <= a {
      BlocksApart(s, a, block);
    }
    PushLists(s, t, c, block, s.blocks[block].base);
    forall b ensures RegionOk(p, b) { assert RegionOk(s, b); }
    forall a, b ensures RegionsApart(p, a, b) { assert RegionsApart(s, a, b); }
    forall i ensures IndexOk(p, i) { assert IndexOk(s, i); }
    PushFreedRest(s, t, c, block);
  }

  lemma PushFreedRest(s: State, t: nat, c: nat, block: nat)
    requires Invariant(s) && Fresh(s, t) && t < |s.pcs| && s.pcs[t].Idle? && c < CLASS_COUNT
    requires block in s.blocks && s.blocks[block].owner.Live? && s.blocks[block].class_ == c
    ensures Threads(Push(s, t, c, block, s.blocks[block].base))
    ensures BlocksFamily(Push(s, t, c, block, s.blocks[block].base))
  {
    var p := Push(s, t, c, block, s.blocks[block].base);
    forall u | 0 <= u < |p.pcs| ensures PcOk(p, u) { assert PcOk(s, u); }
    forall u | 0 <= u < |p.caches| ensures CacheOk(p, u) { assert CacheOk(s, u); }
    forall a ensures BlockOk(p, a) {
      assert BlockOk(s, a);
    }
    forall b, k ensures CarvedOk(p, b, k) { assert CarvedOk(s, b, k); }
  }
}
