/**
 Linear probing with tombstones, seen on the slot sequence.  The table stands for a finite map from
 pointers to records; `depth` says how many probes past its home slot each pointer was placed.
 */
module ProbeTable {
  import opened AllocationValidation
  import opened Arithmetic
  import opened Sums
  import opened Words

  datatype SlotState = Empty | Occupied | Tombstone

  datatype Record = Record(pointer: Pointer, byteSize: Size, alignment: Size, pool: PoolId)

  datatype Slot = Slot(record: Record, state: SlotState)

  const NO_RECORD := Record(NULL, 0, 0, 0)

  const EMPTY_SLOT := Slot(NO_RECORD, Empty)

  const CLEARED_SLOT := Slot(NO_RECORD, Tombstone)

  predicate Holds(slot: Slot, pointer: Pointer) {
    slot.state.Occupied? && slot.record.pointer == pointer
  }

  function OccupiedWeight(slot: Slot): nat {
    if slot.state.Occupied? then 1 else 0
  }

  /** The slot visited after k further probes from a home slot, wrapping once around the table. */
  function Probe(home: nat, k: nat, capacity: nat): nat {
    if home + k < capacity then home + k else home + k - capacity
  }

  /** What the table keeps for a pointer placed k probes after its home slot. */
  ghost predicate Placed(slots: seq<Slot>, home: nat, k: nat, record: Record)
    requires home < |slots|
  {
    && k < |slots|
    && slots[Probe(home, k, |slots|)] == Slot(record, Occupied)
    && Passable(slots, home, k)
  }

  /** A search for a pointer with this home slot is not stopped within the first k probes. */
  ghost predicate Passable(slots: seq<Slot>, home: nat, k: nat)
    requires home < |slots| && k <= |slots|
  {
    forall j :: 0 <= j < k ==> !slots[Probe(home, j, |slots|)].state.Empty?
  }

  ghost predicate HomesInRange(homes: Pointer -> nat, capacity: nat) {
    forall p: Pointer {:trigger homes(p)} :: homes(p) < capacity
  }

  /** Slots stand for contents.  The triggers keep the two families of facts folded until a proof asks for one. */
  ghost predicate Represents(
    slots: seq<Slot>, homes: Pointer -> nat, contents: map<Pointer, Record>, depth: map<Pointer, nat>)
  {
    && HomesInRange(homes, |slots|)
    && contents.Keys == depth.Keys
    && NULL !in contents
    && (forall p {:trigger Stored(slots, homes, contents, depth, p)} :: Stored(slots, homes, contents, depth, p))
    && (forall i {:trigger OwnsSlot(slots, homes, depth, i)} :: 0 <= i < |slots| ==> OwnsSlot(slots, homes, depth, i))
  }

  ghost predicate Stored(
    slots: seq<Slot>, homes: Pointer -> nat, contents: map<Pointer, Record>, depth: map<Pointer, nat>, p: Pointer)
  {
    p in contents ==>
      && p in depth
      && homes(p) < |slots|
      && contents[p].pointer == p
      && Placed(slots, homes(p), depth[p], contents[p])
  }

  /** A pointer in slot i was placed there, so no pointer occupies two slots. */
  ghost predicate OwnsSlot(slots: seq<Slot>, homes: Pointer -> nat, depth: map<Pointer, nat>, i: nat)
    requires i < |slots|
  {
    slots[i].state.Occupied? ==>
      var p := slots[i].record.pointer;
      p in depth && i == Probe(homes(p), depth[p], |slots|)
  }

  /** Probing is counting from the home slot, modulo the capacity. */
  lemma ProbeWraps(home: nat, k: nat, capacity: nat)
    requires home < capacity && k < capacity
    ensures Probe(home, k, capacity) == (home + k) % capacity
  {
    if home + k < capacity {
      DivModUnique(home + k, capacity, 0, home + k);
    } else {
      DivModUnique(home + k, capacity, 1, home + k - capacity);
    }
  }

  /** Every slot is reached by some number of probes from any home. */
  lemma ProbeReaches(home: nat, i: nat, capacity: nat) returns (k: nat)
    requires home < capacity && i < capacity
    ensures k < capacity && Probe(home, k, capacity) == i
  {
    k := if home <= i then i - home else i + capacity - home;
  }

  // ---- finding ----

  lemma PresentIsPlaced(
    slots: seq<Slot>, homes: Pointer -> nat, contents: map<Pointer, Record>, depth: map<Pointer, nat>, pointer: Pointer)
    requires Represents(slots, homes, contents, depth)
    ensures pointer in contents ==>
      && Placed(slots, homes(pointer), depth[pointer], contents[pointer])
      && Holds(slots[Probe(homes(pointer), depth[pointer], |slots|)], pointer)
  {
    assert Stored(slots, homes, contents, depth, pointer);
  }

  /** A stored pointer is met before any empty slot. */
  lemma StoppedMeansAbsent(
    slots: seq<Slot>, homes: Pointer -> nat, contents: map<Pointer, Record>, depth: map<Pointer, nat>,
    pointer: Pointer, k: nat)
    requires Represents(slots, homes, contents, depth) && k < |slots|
    requires forall j :: 0 <= j < k ==> !Holds(slots[Probe(homes(pointer), j, |slots|)], pointer)
    requires slots[Probe(homes(pointer), k, |slots|)].state.Empty?
    ensures pointer !in contents
  {
    PresentIsPlaced(slots, homes, contents, depth, pointer);
  }

  lemma ExhaustedMeansAbsent(
    slots: seq<Slot>, homes: Pointer -> nat, contents: map<Pointer, Record>, depth: map<Pointer, nat>, pointer: Pointer)
    requires Represents(slots, homes, contents, depth)
    requires forall j :: 0 <= j < |slots| ==> !Holds(slots[Probe(homes(pointer), j, |slots|)], pointer)
    ensures pointer !in contents
  {
    PresentIsPlaced(slots, homes, contents, depth, pointer);
  }

  lemma HeldMeansPresent(
    slots: seq<Slot>, homes: Pointer -> nat, contents: map<Pointer, Record>, depth: map<Pointer, nat>,
    pointer: Pointer, i: nat)
    requires Represents(slots, homes, contents, depth) && i < |slots| && Holds(slots[i], pointer)
    ensures pointer in contents && slots[i].record == contents[pointer]
    ensures i == Probe(homes(pointer), depth[pointer], |slots|)
  {
    assert OwnsSlot(slots, homes, depth, i);
    assert Stored(slots, homes, contents, depth, pointer);
  }

  // ---- changing the table ----

  /** Filling a slot that is free, or that already holds the pointer, stores the record. */
  lemma StoreRepresents(
    slots: seq<Slot>, homes: Pointer -> nat, contents: map<Pointer, Record>, depth: map<Pointer, nat>,
    record: Record, k: nat)
    requires Represents(slots, homes, contents, depth) && record.pointer != NULL
    requires k < |slots| && Passable(slots, homes(record.pointer), k)
    requires var slot := slots[Probe(homes(record.pointer), k, |slots|)];
             if record.pointer in contents then Holds(slot, record.pointer) else !slot.state.Occupied?
    ensures Represents(slots[Probe(homes(record.pointer), k, |slots|) := Slot(record, Occupied)], homes,
                       contents[record.pointer := record], depth[record.pointer := k])
  {
    var p := record.pointer;
    var i := Probe(homes(p), k, |slots|);
    var slots' := slots[i := Slot(record, Occupied)];
    var contents', depth' := contents[p := record], depth[p := k];
    forall q ensures Stored(slots', homes, contents', depth', q) {
      assert Stored(slots, homes, contents, depth, q);
    }
    if p in contents {
      HeldMeansPresent(slots, homes, contents, depth, p, i);
    }
    forall j | 0 <= j < |slots'| ensures OwnsSlot(slots', homes, depth', j) {
      assert OwnsSlot(slots, homes, depth, j);
    }
  }

  /** Turning the slot of a stored pointer into a tombstone removes exactly that pointer. */
  lemma ClearRepresents(
    slots: seq<Slot>, homes: Pointer -> nat, contents: map<Pointer, Record>, depth: map<Pointer, nat>,
    pointer: Pointer, i: nat)
    requires Represents(slots, homes, contents, depth)
    requires i < |slots| && Holds(slots[i], pointer)
    ensures pointer in contents
    ensures Represents(slots[i := CLEARED_SLOT], homes, contents - {pointer}, depth - {pointer})
  {
    HeldMeansPresent(slots, homes, contents, depth, pointer, i);
    var slots' := slots[i := CLEARED_SLOT];
    var contents', depth' := contents - {pointer}, depth - {pointer};
    forall q ensures Stored(slots', homes, contents', depth', q) {
      assert Stored(slots, homes, contents, depth, q);
    }
    forall j | 0 <= j < |slots'| ensures OwnsSlot(slots', homes, depth', j) {
      assert OwnsSlot(slots, homes, depth, j);
    }
  }

  lemma EmptyRepresents(slots: seq<Slot>, homes: Pointer -> nat)
    requires HomesInRange(homes, |slots|)
    requires forall i :: 0 <= i < |slots| ==> slots[i] == EMPTY_SLOT
    ensures Represents(slots, homes, map[], map[])
  {
  }

  // ---- counting ----

  ghost function StoredBelow(
    homes: Pointer -> nat, depth: map<Pointer, nat>, capacity: nat, n: nat): set<Pointer>
  {
    set p | p in depth && Probe(homes(p), depth[p], capacity) < n
  }

  lemma {:induction false} CountBelow(
    slots: seq<Slot>, homes: Pointer -> nat, contents: map<Pointer, Record>, depth: map<Pointer, nat>, n: nat)
    requires Represents(slots, homes, contents, depth) && n <= |slots|
    ensures |StoredBelow(homes, depth, |slots|, n)| == Total(slots[..n], OccupiedWeight)
  {
    if n == 0 {
      assert StoredBelow(homes, depth, |slots|, 0) == {};
    } else {
      CountBelow(slots, homes, contents, depth, n - 1);
      TotalAppend(slots[..n - 1], slots[n - 1], OccupiedWeight);
      assert slots[..n] == slots[..n - 1] + [slots[n - 1]];
      var before, after := StoredBelow(homes, depth, |slots|, n - 1), StoredBelow(homes, depth, |slots|, n);
      forall p | p in after && p !in before ensures Holds(slots[n - 1], p) {
        assert Stored(slots, homes, contents, depth, p);
      }
      assert OwnsSlot(slots, homes, depth, n - 1);
      if slots[n - 1].state.Occupied? {
        assert after == before + {slots[n - 1].record.pointer};
      } else {
        assert after == before;
      }
    }
  }

  /** The map has as many entries as the table has occupied slots; it fills the table when all are occupied. */
  lemma CountContents(
    slots: seq<Slot>, homes: Pointer -> nat, contents: map<Pointer, Record>, depth: map<Pointer, nat>)
    requires Represents(slots, homes, contents, depth)
    ensures |contents| == Total(slots, OccupiedWeight) <= |slots|
    ensures |contents| == |slots| <==> forall i :: 0 <= i < |slots| ==> slots[i].state.Occupied?
  {
    CountBelow(slots, homes, contents, depth, |slots|);
    assert slots[..|slots|] == slots;
    forall p | p in contents ensures p in StoredBelow(homes, depth, |slots|, |slots|) {
      assert Stored(slots, homes, contents, depth, p);
    }
    assert StoredBelow(homes, depth, |slots|, |slots|) == contents.Keys;
    OccupancyBound(slots);
  }

  lemma {:induction false} OccupancyBound(slots: seq<Slot>)
    ensures Total(slots, OccupiedWeight) <= |slots|
    ensures Total(slots, OccupiedWeight) == |slots| <==> forall i :: 0 <= i < |slots| ==> slots[i].state.Occupied?
  {
    if slots != [] {
      OccupancyBound(slots[1..]);
      assert forall i :: 0 < i < |slots| ==> slots[i] == slots[1..][i - 1];
      assert forall i :: 0 <= i < |slots[1..]| ==> slots[1..][i] == slots[i + 1];
    }
  }

  // ---- the live records ----

  /** The records of the occupied slots, in slot order. */
  function LiveRecords(slots: seq<Slot>): seq<Record> {
    if slots == [] then []
    else
      var rest := LiveRecords(slots[..|slots| - 1]);
      var slot := slots[|slots| - 1];
      if slot.state.Occupied? then rest + [slot.record] else rest
  }

  lemma {:induction false} LiveRecordsCount(slots: seq<Slot>)
    ensures |LiveRecords(slots)| == Total(slots, OccupiedWeight)
  {
    if slots != [] {
      var last := |slots| - 1;
      LiveRecordsCount(slots[..last]);
      TotalAppend(slots[..last], slots[last], OccupiedWeight);
      assert slots == slots[..last] + [slots[last]];
    }
  }

  lemma {:induction false} LiveRecordsGrow(slots: seq<Slot>, n: nat)
    requires n <= |slots|
    ensures LiveRecords(slots[..n]) <= LiveRecords(slots)
    decreases |slots|
  {
    if n < |slots| {
      var shorter := slots[..|slots| - 1];
      LiveRecordsGrow(shorter, n);
      assert shorter[..n] == slots[..n];
    } else {
      assert slots[..n] == slots;
    }
  }

  lemma {:induction false} LiveRecordsMembers(slots: seq<Slot>, record: Record)
    ensures record in LiveRecords(slots) <==> exists i :: 0 <= i < |slots| && slots[i] == Slot(record, Occupied)
  {
    if slots != [] {
      var last := |slots| - 1;
      LiveRecordsMembers(slots[..last], record);
      if i :| 0 <= i < |slots| && slots[i] == Slot(record, Occupied) {
        if i < last {
          assert slots[..last][i] == Slot(record, Occupied);
        }
      }
      if j :| 0 <= j < last && slots[..last][j] == Slot(record, Occupied) {
        assert slots[j] == Slot(record, Occupied);
      }
    }
  }

  /** The occupied slots list the map: as many records as entries, and exactly the stored ones. */
  lemma LiveRecordsListContents(
    slots: seq<Slot>, homes: Pointer -> nat, contents: map<Pointer, Record>, depth: map<Pointer, nat>)
    requires Represents(slots, homes, contents, depth)
    ensures |LiveRecords(slots)| == |contents|
    ensures forall r :: r in LiveRecords(slots) <==> r.pointer in contents && contents[r.pointer] == r
  {
    LiveRecordsCount(slots);
    CountContents(slots, homes, contents, depth);
    forall r ensures r in LiveRecords(slots) <==> r.pointer in contents && contents[r.pointer] == r {
      LiveRecordsMembers(slots, r);
      if r in LiveRecords(slots) {
        var i :| 0 <= i < |slots| && slots[i] == Slot(r, Occupied);
        HeldMeansPresent(slots, homes, contents, depth, r.pointer, i);
      }
      PresentIsPlaced(slots, homes, contents, depth, r.pointer);
    }
  }
}
