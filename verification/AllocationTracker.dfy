/**
 The live-allocation tracker: an open-addressing table with tombstones that behaves as a finite map
 from pointers to records for every hash function.  Each operation holds the tracker's spin lock from
 start to end, so the operations are modelled one after another.
 */
module AllocationTracker {
  import opened Alignment
  import opened AllocationValidation
  import opened Arithmetic
  import opened AtomicWord
  import opened Options
  import opened ProbeTable
  import Sums
  import opened Words

  const DEFAULT_TRACKER_CAPACITY: Size := 4096
  const MINIMUM_TRACKER_CAPACITY: Size := 16
  const LARGEST_POWER: Size := 0x8000_0000_0000_0000

  predicate IsValidRecord(record: Record) {
    && record.pointer != NULL
    && record.byteSize != 0
    && record.alignment != 0
    && IsPowerOfTwo(record.alignment)
    && IsValidPool(record.pool)
  }

  /** What the tracker wants of a record. */
  lemma IsValidRecordIff(record: Record)
    ensures IsValidRecord(record)
            <==> record.pointer != 0 && record.byteSize > 0 && PowerOfTwo(record.alignment) && record.pool < 6
  {
    IsPowerOfTwoMeaning(record.alignment);
  }

  /** The capacity asked for, after the default and the minimum are applied. */
  function WantedCapacity(requestedCapacity: Size): Size {
    var capacity := if requestedCapacity != 0 then requestedCapacity else DEFAULT_TRACKER_CAPACITY;
    if capacity < MINIMUM_TRACKER_CAPACITY then MINIMUM_TRACKER_CAPACITY else capacity
  }

  lemma SomePowers()
    ensures MINIMUM_TRACKER_CAPACITY == Pow2(4) && DEFAULT_TRACKER_CAPACITY == Pow2(12) && LARGEST_POWER == Pow2(63)
  {
    assert Pow2(4) == 16;
    Pow2Add(4, 8);
    WordValuesIsPow2();
    assert Pow2(64) == 2 * Pow2(63);
  }

  lemma PowersAbove(k: nat, m: nat)
    requires k > 0 && PowerOfTwo(m) && Pow2(k - 1) < m
    ensures Pow2(k) <= m
  {
    var j: nat :| m == Pow2(j);
    if j < k {
      Pow2Monotone(j, k - 1);
    } else {
      Pow2Monotone(k, j);
    }
  }

  /** The least power of two that is large enough; a request no word-sized power can meet gets the largest one. */
  method NormalizeTrackerCapacity(requestedCapacity: Size) returns (normalized: Size)
    ensures PowerOfTwo(normalized) && normalized >= MINIMUM_TRACKER_CAPACITY
    ensures normalized >= requestedCapacity <==> requestedCapacity <= LARGEST_POWER
    ensures WantedCapacity(requestedCapacity) <= LARGEST_POWER ==>
              && normalized >= WantedCapacity(requestedCapacity)
              && forall m: nat :: PowerOfTwo(m) && WantedCapacity(requestedCapacity) <= m ==> normalized <= m
    ensures WantedCapacity(requestedCapacity) > LARGEST_POWER ==> normalized == LARGEST_POWER
    ensures requestedCapacity == 0 ==> normalized == 4096
    ensures 0 < requestedCapacity <= 16 ==> normalized == 16
    ensures 16 < requestedCapacity <= LARGEST_POWER ==> requestedCapacity <= normalized < 2 * requestedCapacity
    ensures requestedCapacity > LARGEST_POWER ==> normalized == 0x8000_0000_0000_0000
  {
    SomePowers();
    var capacity := if requestedCapacity != 0 then requestedCapacity else DEFAULT_TRACKER_CAPACITY;
    if capacity < MINIMUM_TRACKER_CAPACITY {
      capacity := MINIMUM_TRACKER_CAPACITY;
    }
    IsPowerOfTwoMeaning(capacity);
    if IsPowerOfTwo(capacity) {
      PowerInWord(capacity);
      return capacity;
    }

    normalized := MINIMUM_TRACKER_CAPACITY;
    ghost var k: nat := 4;
    while normalized < capacity && normalized <= WORD_MAX / 2
      invariant 4 <= k <= 63 && normalized == Pow2(k)
      invariant k > 4 ==> Pow2(k - 1) < capacity
      invariant normalized <= LARGEST_POWER
      decreases WORD_VALUES - normalized
    {
      if k == 63 {
        assert false;
      }
      Pow2Monotone(k + 1, 63);
      normalized := normalized * 2;
      k := k + 1;
    }
    if normalized < capacity && k < 63 {
      Pow2Monotone(k + 1, 63);
      assert false;
    }
    forall m: nat | PowerOfTwo(m) && capacity <= m ensures k > 4 ==> normalized <= m {
      if k > 4 {
        PowersAbove(k, m);
      }
    }
  }

  lemma PowerInWord(v: Size)
    requires PowerOfTwo(v)
    ensures v <= LARGEST_POWER
  {
    SomePowers();
    WordValuesIsPow2();
    var k: nat :| v == Pow2(k);
    if k > 63 {
      Pow2Monotone(64, k);
      assert false;
    }
    Pow2Monotone(k, 63);
  }

  /** Masking with capacity - 1 wraps an index around a table whose capacity is a power of two. */
  lemma MaskWraps(index: nat, capacity: nat)
    requires PowerOfTwo(capacity)
    ensures And(index, capacity - 1) < capacity
    ensures index < capacity ==>
      And(index + 1, capacity - 1) == if index + 1 == capacity then 0 else index + 1
  {
    MaskIsMod(index, capacity);
    MaskIsMod(index + 1, capacity);
    if index + 1 == capacity {
      DivModUnique(index + 1, capacity, 1, 0);
    } else if index + 1 < capacity {
      DivModUnique(index + 1, capacity, 0, index + 1);
    }
  }

  lemma MaskIsMod(index: nat, capacity: nat)
    requires PowerOfTwo(capacity)
    ensures capacity > 0 && And(index, capacity - 1) == index % capacity
  {
    var k: nat :| capacity == Pow2(k);
    AndLowMask(index, k);
  }

  /** The next index of a probe sequence, wrapping by the mask. */
  method NextIndex(index: nat, capacity: nat) returns (next: nat)
    requires PowerOfTwo(capacity) && index < capacity
    ensures next == if index + 1 == capacity then 0 else index + 1
  {
    MaskWraps(index, capacity);
    next := And(index + 1, capacity - 1);
  }

  /** A counter after so many increments. */
  function Bumped(count: Size, n: nat): Size {
    if n == 0 then count else FetchAdd(Bumped(count, n - 1), 1)
  }

  lemma {:induction false} BumpedIsSum(count: Size, n: nat)
    ensures Bumped(count, n) == (count + n) % WORD_VALUES
  {
    if n > 0 {
      BumpedIsSum(count, n - 1);
      ModAdd(count + (n - 1), 1, WORD_VALUES);
    }
  }

  ghost predicate IsHome(homes: Pointer -> nat, hash: Pointer -> Size, capacity: nat, p: Pointer)
    requires capacity > 0
  {
    homes(p) == And(hash(p), capacity - 1)
  }

  /** Home slots are masked hashes. */
  ghost predicate AreHomes(homes: Pointer -> nat, hash: Pointer -> Size, capacity: nat) {
    capacity > 0 && forall p {:trigger IsHome(homes, hash, capacity, p)} :: IsHome(homes, hash, capacity, p)
  }

  method HomeIndex(pointer: Pointer, hash: Pointer -> Size, capacity: nat, ghost homes: Pointer -> nat)
    returns (index: nat)
    requires AreHomes(homes, hash, capacity)
    ensures index == homes(pointer)
  {
    assert IsHome(homes, hash, capacity, pointer);
    index := And(hash(pointer), capacity - 1);
  }

  method MakeTable(capacity: nat) returns (table: array<Slot>)
    ensures fresh(table) && table.Length == capacity
    ensures forall i :: 0 <= i < capacity ==> table[..][i] == EMPTY_SLOT
  {
    table := new Slot[capacity](_ => EMPTY_SLOT);
  }

  /** Homes for a fresh table. */
  ghost method MakeHomes(hash: Pointer -> Size, capacity: nat) returns (homes: Pointer -> nat)
    requires PowerOfTwo(capacity)
    ensures AreHomes(homes, hash, capacity) && HomesInRange(homes, capacity)
  {
    homes := p => And(hash(p), capacity - 1);
    forall p ensures IsHome(homes, hash, capacity, p) && homes(p) < capacity {
      MaskWraps(hash(p), capacity);
    }
  }

  /** No slot within the first k probes from the pointer's home holds it. */
  ghost predicate Missed(slots: seq<Slot>, home: nat, k: nat, pointer: Pointer)
    requires home < |slots| && k <= |slots|
  {
    forall j :: 0 <= j < k ==> !Holds(slots[Probe(home, j, |slots|)], pointer)
  }

  /** The first k probes meet only slots in use. */
  ghost predicate InUse(slots: seq<Slot>, home: nat, k: nat)
    requires home < |slots| && k <= |slots|
  {
    forall j :: 0 <= j < k ==> slots[Probe(home, j, |slots|)].state.Occupied?
  }

  /** What the insertion search knows after k probes: the first tombstone met, if any. */
  ghost predicate Searched(slots: seq<Slot>, home: nat, k: nat, firstTombstone: Option<nat>, d: nat)
    requires home < |slots| && k <= |slots|
  {
    && Passable(slots, home, k)
    && (firstTombstone.None? ==> InUse(slots, home, k))
    && (firstTombstone.Some? ==>
          d < k && InUse(slots, home, d) && firstTombstone.value == Probe(home, d, |slots|) && slots[firstTombstone.value].state.Tombstone?)
  }

  /** One more probed slot that neither holds the pointer nor is empty. */
  lemma SearchFurther(slots: seq<Slot>, home: nat, k: nat, before: Option<nat>, d: nat, after: Option<nat>, e: nat,
                      pointer: Pointer)
    requires home < |slots| && k < |slots|
    requires Missed(slots, home, k, pointer) && Searched(slots, home, k, before, d)
    requires var slot := slots[Probe(home, k, |slots|)];
             && !slot.state.Empty? && !Holds(slot, pointer)
             && if slot.state.Tombstone? && before.None? then after == Some(Probe(home, k, |slots|)) && e == k
                else after == before && e == d
    ensures Missed(slots, home, k + 1, pointer) && Searched(slots, home, k + 1, after, e)
  {
  }

  /** Having seen every slot of a probe sequence, the absence of a tombstone means a full table. */
  lemma SearchedAll(
    slots: seq<Slot>, homes: Pointer -> nat, contents: map<Pointer, Record>, depth: map<Pointer, nat>,
    home: nat, firstTombstone: Option<nat>, d: nat)
    requires Represents(slots, homes, contents, depth) && home < |slots|
    requires Searched(slots, home, |slots|, firstTombstone, d)
    ensures firstTombstone.None? <==> |contents| == |slots|
  {
    CountContents(slots, homes, contents, depth);
    if firstTombstone.None? {
      forall i | 0 <= i < |slots| ensures slots[i].state.Occupied? {
        var j := ProbeReaches(home, i, |slots|);
      }
    }
  }

  /** An empty slot leaves room. */
  lemma EmptyLeavesRoom(
    slots: seq<Slot>, homes: Pointer -> nat, contents: map<Pointer, Record>, depth: map<Pointer, nat>, i: nat)
    requires Represents(slots, homes, contents, depth) && i < |slots| && !slots[i].state.Occupied?
    ensures |contents| < |slots|
  {
    CountContents(slots, homes, contents, depth);
  }

  lemma RemoveCount(m: map<Pointer, Record>, pointer: Pointer)
    requires pointer in m
    ensures |m - {pointer}| == |m| - 1
  {
    assert (m - {pointer}).Keys == m.Keys - {pointer};
  }

  lemma InsertCount(m: map<Pointer, Record>, record: Record)
    ensures |m[record.pointer := record]| == if record.pointer in m then |m| else |m| + 1
  {
    assert m[record.pointer := record].Keys == m.Keys + {record.pointer};
  }

  /** The map after a call to track a record: only a valid record that finds room on an enabled tracker changes it. */
  function Tracked(contents: map<Pointer, Record>, enabled: bool, capacity: nat, record: Record)
    : map<Pointer, Record>
  {
    if IsValidRecord(record) && enabled && (record.pointer in contents || |contents| < capacity)
    then contents[record.pointer := record] else contents
  }

  class MemoryAllocationTracker {
    // The hash of a pointer; nothing is assumed about it.
    const hash: Pointer -> Size

    var slots: array?<Slot>
    var capacity: Size
    var activeCount: Size
    var totalTrackedCount: Size
    var totalUntrackedCount: Size
    var failedTrackCount: Size
    var unknownFreeCount: Size
    var collisionProbeCount: Size
    var enabled: bool

    // The map the table stands for, and where its entries are.
    ghost var contents: map<Pointer, Record>
    ghost var homes: Pointer -> nat
    ghost var depth: map<Pointer, nat>

    ghost predicate Valid()
      reads `slots, `capacity, `activeCount, `enabled, `contents, `homes, `depth, slots
    {
      && enabled == (slots != null)
      && (slots == null ==> contents == map[] && capacity == 0)
      && (slots != null ==>
            && slots.Length == capacity
            && PowerOfTwo(capacity)
            && AreHomes(homes, hash, capacity)
            && Represents(slots[..], homes, contents, depth)
            && activeCount == |contents| <= capacity)
    }

    /** A pointer's home slot is its hash, modulo the capacity. */
    lemma HomeIsHash(pointer: Pointer)
      requires Valid() && enabled
      ensures capacity > 0 && homes(pointer) == hash(pointer) % capacity
    {
      assert IsHome(homes, hash, capacity, pointer);
      MaskIsMod(hash(pointer), capacity);
    }

    constructor (hash: Pointer -> Size)
      ensures Valid() && !enabled && contents == map[] && this.hash == hash
      ensures activeCount == totalTrackedCount == totalUntrackedCount == failedTrackCount == unknownFreeCount == 0
      ensures collisionProbeCount == 0
    {
      this.hash := hash;
      slots, enabled := null, false;
      capacity, activeCount := 0, 0;
      totalTrackedCount, totalUntrackedCount, failedTrackCount, unknownFreeCount, collisionProbeCount := 0, 0, 0, 0, 0;
      contents, homes, depth := map[], _ => 0, map[];
    }

    /** Starts with an empty map; `memory` says whether the backend provided the slot array. */
    method Initialize(requestedCapacity: Size, memory: bool) returns (ok: bool)
      modifies this
      ensures Valid() && ok == memory == enabled && contents == map[]
      ensures ok ==> fresh(slots) && capacity >= MINIMUM_TRACKER_CAPACITY
      ensures ok ==> (capacity >= requestedCapacity <==> requestedCapacity <= LARGEST_POWER)
      ensures ok && requestedCapacity == 0 ==> capacity == 4096
      ensures ok && 0 < requestedCapacity <= 16 ==> capacity == 16
      ensures ok && 16 < requestedCapacity <= LARGEST_POWER ==> requestedCapacity <= capacity < 2 * requestedCapacity
      ensures activeCount == totalTrackedCount == totalUntrackedCount == failedTrackCount == unknownFreeCount == 0
      ensures collisionProbeCount == 0
    {
      Shutdown();
      var normalizedCapacity := NormalizeTrackerCapacity(requestedCapacity);
      if !memory {
        return false;
      }
      slots := MakeTable(normalizedCapacity);
      capacity := normalizedCapacity;
      enabled := true;
      homes := MakeHomes(hash, capacity);
      EmptyRepresents(slots[..], homes);
      return true;
    }

    method Shutdown()
      modifies this
      ensures Valid() && !enabled && slots == null && contents == map[] && depth == map[]
      ensures activeCount == totalTrackedCount == totalUntrackedCount == failedTrackCount == unknownFreeCount == 0
      ensures collisionProbeCount == 0
    {
      slots, enabled := null, false;
      capacity, activeCount := 0, 0;
      totalTrackedCount, totalUntrackedCount, failedTrackCount, unknownFreeCount, collisionProbeCount := 0, 0, 0, 0, 0;
      contents, depth := map[], map[];
    }

    method CountCollision()
      modifies `collisionProbeCount
      ensures collisionProbeCount == FetchAdd(old(collisionProbeCount), 1)
    {
      collisionProbeCount := FetchAdd(collisionProbeCount, 1);
    }

    /** The slot holding the pointer, exactly when the map has it; every slot passed over is counted as a collision. */
    method FindSlot(pointer: Pointer) returns (found: Option<nat>, ghost passed: nat)
      requires Valid()
      modifies this`collisionProbeCount
      ensures found.Some? <==> pointer in contents
      ensures found.Some? ==> slots != null && found.value < slots.Length && Holds(slots[found.value], pointer)
      ensures collisionProbeCount == Bumped(old(collisionProbeCount), passed)
      ensures !enabled || pointer == NULL ==> passed == 0
      ensures enabled && pointer != NULL ==>
        && passed <= capacity && Missed(slots[..], homes(pointer), passed, pointer)
        && Passable(slots[..], homes(pointer), passed)
        && (found.Some? ==> passed < capacity && found.value == Probe(homes(pointer), passed, capacity))
        && (found.None? ==>
              passed == capacity || slots[Probe(homes(pointer), passed, capacity)].state.Empty?)
    {
      passed := 0;
      if !enabled || slots == null || pointer == NULL {
        return None, 0;
      }
      var index := HomeIndex(pointer, hash, capacity, homes);
      ghost var table, home := slots[..], index;
      for probe := 0 to capacity
        invariant index == Probe(home, probe, capacity)
        invariant slots[..] == table && Missed(table, home, probe, pointer) && Passable(table, home, probe)
        invariant collisionProbeCount == Bumped(old(collisionProbeCount), probe)
      {
        if slots[index].state.Empty? {
          StoppedMeansAbsent(table, homes, contents, depth, pointer, probe);
          return None, probe;
        }
        if slots[index].state.Occupied? && slots[index].record.pointer == pointer {
          HeldMeansPresent(table, homes, contents, depth, pointer, index);
          return Some(index), probe;
        }
        CountCollision();
        index := NextIndex(index, capacity);
      }
      ExhaustedMeansAbsent(table, homes, contents, depth, pointer);
      return None, capacity;
    }

    /** The slot to store a record in: the pointer's own, else the first reusable one; none just when others fill the table. */
    method FindInsertionSlot(pointer: Pointer) returns (found: Option<nat>, ghost k: nat, ghost passed: nat)
      requires Valid() && enabled && pointer != NULL
      modifies this`collisionProbeCount
      ensures found.None? <==> pointer !in contents && |contents| == capacity
      ensures found.Some? ==>
        && k < capacity && found.value == Probe(homes(pointer), k, capacity) < slots.Length
        && Passable(slots[..], homes(pointer), k)
        && (if pointer in contents then Holds(slots[found.value], pointer)
            else InUse(slots[..], homes(pointer), k) && !slots[found.value].state.Occupied?)
      ensures collisionProbeCount == Bumped(old(collisionProbeCount), passed)
      ensures passed <= capacity && Passable(slots[..], homes(pointer), passed)
      ensures pointer in contents ==> passed == k
      ensures pointer !in contents ==>
        passed == capacity || slots[Probe(homes(pointer), passed, capacity)].state.Empty?
    {
      var index := HomeIndex(pointer, hash, capacity, homes);
      ghost var table, home := slots[..], index;
      var firstTombstone: Option<nat> := None;
      k := 0;
      for probe := 0 to capacity
        invariant index == Probe(home, probe, capacity)
        invariant slots[..] == table && Missed(table, home, probe, pointer)
        invariant Searched(table, home, probe, firstTombstone, k)
        invariant collisionProbeCount == Bumped(old(collisionProbeCount), probe)
      {
        if slots[index].state.Occupied? && slots[index].record.pointer == pointer {
          HeldMeansPresent(table, homes, contents, depth, pointer, index);
          return Some(index), probe, probe;
        }
        ghost var before, d := firstTombstone, k;
        if slots[index].state.Tombstone? && firstTombstone.None? {
          firstTombstone := Some(index);
          k := probe;
        } else if slots[index].state.Empty? {
          StoppedMeansAbsent(table, homes, contents, depth, pointer, probe);
          EmptyLeavesRoom(table, homes, contents, depth, index);
          if firstTombstone.None? {
            return Some(index), probe, probe;
          }
          return firstTombstone, k, probe;
        }
        SearchFurther(table, home, probe, before, d, firstTombstone, k, pointer);
        CountCollision();
        index := NextIndex(index, capacity);
      }
      ExhaustedMeansAbsent(table, homes, contents, depth, pointer);
      SearchedAll(table, homes, contents, depth, home, firstTombstone, k);
      return firstTombstone, k, capacity;
    }

    method ClearSlot(i: nat)
      requires slots != null && i < slots.Length
      modifies slots
      ensures slots[..] == old(slots[..])[i := CLEARED_SLOT]
    {
      slots[i] := CLEARED_SLOT;
    }

    /** Stores a valid record unless the tracker is off or other pointers fill it. */
    method TrackMemoryAllocation(record: Record) returns (ok: bool)
      requires Valid()
      modifies `contents, `depth, `activeCount, `totalTrackedCount, `failedTrackCount, `collisionProbeCount, slots
      ensures Valid()
      ensures ok <==> IsValidRecord(record) && enabled
                      && (record.pointer in old(contents) || |old(contents)| < capacity)
      ensures contents == if ok then old(contents)[record.pointer := record] else old(contents)
      ensures contents == Tracked(old(contents), enabled, capacity, record)
      ensures totalTrackedCount == if ok then FetchAdd(old(totalTrackedCount), 1) else old(totalTrackedCount)
      ensures failedTrackCount ==
              if !ok && IsValidRecord(record) && enabled then FetchAdd(old(failedTrackCount), 1) else old(failedTrackCount)
    {
      if !IsValidRecord(record) {
        return false;
      }
      if !enabled || slots == null {
        return false;
      }
      var slot, k, passed := FindInsertionSlot(record.pointer);
      if slot.None? {
        failedTrackCount := FetchAdd(failedTrackCount, 1);
        return false;
      }
      StoreRecord(slot.value, record, k);
      totalTrackedCount := FetchAdd(totalTrackedCount, 1);
      return true;
    }

    /** Writes a record into the slot an insertion search chose. */
    method StoreRecord(i: nat, record: Record, ghost k: nat)
      requires Valid() && enabled && record.pointer != NULL
      requires k < capacity && i == Probe(homes(record.pointer), k, capacity) < slots.Length
      requires Passable(slots[..], homes(record.pointer), k)
      requires if record.pointer in contents then Holds(slots[i], record.pointer) else !slots[i].state.Occupied?
      modifies slots, `activeCount, `contents, `depth
      ensures Valid() && contents == old(contents)[record.pointer := record]
    {
      ghost var table, before := slots[..], contents;
      StoreRepresents(table, homes, contents, depth, record, k);
      if !slots[i].state.Occupied? {
        CountContents(table, homes, contents, depth);
        activeCount := FetchAdd(activeCount, 1);
        AddFitsIff(|contents|, 1);
      } else {
        HeldMeansPresent(table, homes, contents, depth, slots[i].record.pointer, i);
      }
      slots[i] := Slot(record, Occupied);
      contents, depth := contents[record.pointer := record], depth[record.pointer := k];
      assert slots[..] == table[i := Slot(record, Occupied)];
      CountContents(slots[..], homes, contents, depth);
      InsertCount(before, record);
    }

    method TryFindTrackedMemoryAllocation(pointer: Pointer) returns (found: bool, record: Record)
      requires Valid()
      modifies this`collisionProbeCount
      ensures Valid()
      ensures found <==> pointer in contents
      ensures record == if found then contents[pointer] else NO_RECORD
    {
      var slot, passed := FindSlot(pointer);
      if slot.None? {
        return false, NO_RECORD;
      }
      HeldMeansPresent(slots[..], homes, contents, depth, pointer, slot.value);
      return true, slots[slot.value].record;
    }

    /** Removes and returns the pointer's record, if there is one. */
    method UntrackMemoryAllocation(pointer: Pointer) returns (found: bool, record: Record)
      requires Valid()
      modifies `contents, `depth, `activeCount, `totalUntrackedCount, `unknownFreeCount, `collisionProbeCount, slots
      ensures Valid()
      ensures found <==> pointer in old(contents)
      ensures record == if found then old(contents)[pointer] else NO_RECORD
      ensures contents == if found then old(contents) - {pointer} else old(contents)
      ensures totalUntrackedCount == if found then FetchAdd(old(totalUntrackedCount), 1) else old(totalUntrackedCount)
      ensures unknownFreeCount ==
              if !found && enabled then FetchAdd(old(unknownFreeCount), 1) else old(unknownFreeCount)
    {
      var slot, passed := FindSlot(pointer);
      found := slot.Some?;
      if found {
        record := RemoveRecord(slot.value, pointer);
        totalUntrackedCount := FetchAdd(totalUntrackedCount, 1);
      } else {
        record := NO_RECORD;
        if enabled {
          unknownFreeCount := FetchAdd(unknownFreeCount, 1);
        }
      }
    }

    /** Clears the slot that holds a pointer and hands out its record. */
    method RemoveRecord(i: nat, ghost pointer: Pointer) returns (record: Record)
      requires Valid() && enabled && i < slots.Length && Holds(slots[i], pointer)
      modifies slots, `activeCount, `contents, `depth
      ensures Valid() && contents == old(contents) - {pointer}
      ensures pointer in old(contents) && record == old(contents)[pointer]
    {
      ghost var table := slots[..];
      HeldMeansPresent(table, homes, contents, depth, pointer, i);
      record := slots[i].record;
      ClearRepresents(table, homes, contents, depth, pointer, i);
      ClearSlot(i);
      RemoveCount(contents, pointer);
      SubFits(activeCount, 1);
      activeCount := FetchSub(activeCount, 1);
      contents, depth := contents - {pointer}, depth - {pointer};
    }

    /** Copies live records in slot order until the output or the table is exhausted. */
    method CaptureLiveMemoryAllocations(outRecords: array?<Record>, outCapacity: nat) returns (written: nat)
      requires Valid()
      requires outRecords != null ==> outCapacity <= outRecords.Length
      modifies outRecords
      ensures outRecords == null || outCapacity == 0 || !enabled ==> written == 0
      ensures outRecords != null && enabled ==>
        && written == (if |contents| < outCapacity then |contents| else outCapacity)
        && written <= |LiveRecords(slots[..])|
        && outRecords[..written] == LiveRecords(slots[..])[..written]
    {
      if !enabled || slots == null || outRecords == null || outCapacity == 0 {
        written := 0;
        assert outRecords != null ==> outRecords[..0] == [];
        assert slots != null ==> LiveRecords(slots[..])[..0] == [];
        return;
      }
      LiveRecordsListContents(slots[..], homes, contents, depth);
      written := 0;
      var index := 0;
      while index < slots.Length && written < outCapacity
        invariant 0 <= index <= slots.Length && written <= outCapacity
        invariant outRecords[..written] == LiveRecords(slots[..index])
      {
        assert slots[..index + 1][..index] == slots[..index];
        if slots[index].state.Occupied? {
          outRecords[written] := slots[index].record;
          written := written + 1;
        }
        index := index + 1;
      }
      assert slots[..][..index] == slots[..index];
      LiveRecordsGrow(slots[..], index);
      assert |outRecords[..written]| == written;
      if index == slots.Length {
        assert slots[..index] == slots[..];
      }
    }

    /** A capture with room for all active records returns exactly the map's records. */
    lemma FullCaptureIsComplete(records: seq<Record>)
      requires Valid() && enabled && records == LiveRecords(slots[..])
      ensures |records| == |contents|
      ensures forall r :: r in records <==> r.pointer in contents && contents[r.pointer] == r
    {
      LiveRecordsListContents(slots[..], homes, contents, depth);
    }
  }
}
