/**
 Captured test output: a head of the first bytes and a circular tail of the last bytes, read back
 as a window onto everything that was ever appended.
 */
module BoundedOutput {
  import opened Arithmetic
  import opened Options
  import opened Words

  const TRUNCATION_MARKER := "\n[BlueRunTests] Captured output truncated.\n"

  /** The last n elements, or everything when there are fewer. */
  function LastN(s: string, n: nat): string {
    if |s| <= n then s else s[|s| - n..]
  }

  /** A circular buffer read from its oldest element. */
  function Linear(tail: string, start: nat): string
    requires start <= |tail|
  {
    tail[start..] + tail[..start]
  }

  /** The part of the stream that the head keeps, and the part left to the tail. */
  function HeadOf(stream: string, capacity: nat): string {
    stream[..Min(capacity, |stream|)]
  }

  function RestOf(stream: string, capacity: nat): string {
    stream[Min(capacity, |stream|)..]
  }

  lemma ExtendHead(stream: string, capacity: nat, bytes: string)
    ensures var copy := Min(capacity - |HeadOf(stream, capacity)|, |bytes|);
            && HeadOf(stream + bytes, capacity) == HeadOf(stream, capacity) + bytes[..copy]
            && RestOf(stream + bytes, capacity) == RestOf(stream, capacity) + bytes[copy..]
  {
  }

  /** What a reader of the captured output is promised. */
  function Window(stream: string, maximum: nat): string {
    if |stream| <= maximum then stream
    else stream[..maximum / 2] + TRUNCATION_MARKER + stream[|stream| - (maximum - maximum / 2)..]
  }

  /** A stream is shown whole up to the limit; over it, through its first and its last bytes, the last having the odd one. */
  lemma WindowShows(stream: string, maximum: nat)
    ensures Window(stream, maximum) == stream <== |stream| <= maximum
    ensures |stream| > maximum ==>
      var window, marker := Window(stream, maximum), "\n[BlueRunTests] Captured output truncated.\n";
      && |window| == maximum + |marker| && window[maximum / 2..maximum / 2 + |marker|] == marker
      && window[..maximum / 2] <= stream
      && (forall i :: maximum / 2 + |marker| <= i < |window| ==> window[i] == stream[i + (|stream| - |window|)])
  {
  }

  /** Forgetting early elements before appending does not change the last n. */
  lemma LastNAbsorbs(r: string, d: string, n: nat)
    ensures LastN(LastN(r, n) + d, n) == LastN(r + d, n)
  {
    if |r| > n {
      var k := |r| - n;
      assert LastN(r, n) + d == (r + d)[k..];
    }
  }

  /** A position at most one past the end, reduced modulo the capacity. */
  lemma WrapPosition(position: nat, capacity: nat)
    requires 0 < capacity && position <= capacity
    ensures position % capacity == if position == capacity then 0 else position
  {
    if position == capacity {
      DivModUnique(position, capacity, 1, 0);
    } else {
      DivModUnique(position, capacity, 0, position);
    }
  }

  /** The effect of copying a run of bytes into place. */
  function Overwritten(tail: string, start: nat, d: string): string
    requires start + |d| <= |tail|
  {
    tail[..start] + d + tail[start + |d|..]
  }

  /** Overwriting the oldest run of a full circular buffer drops it and appends the new run. */
  lemma OverwriteOldest(tail: string, start: nat, d: string)
    requires start < |tail| && start + |d| <= |tail|
    ensures (start + |d|) % |tail| < |tail| == |Overwritten(tail, start, d)|
    ensures Linear(Overwritten(tail, start, d), (start + |d|) % |tail|) == Linear(tail, start)[|d|..] + d
  {
    WrapPosition(start + |d|, |tail|);
    if start + |d| < |tail| {
      OverwriteInside(tail, start, d);
    } else {
      OverwriteToEnd(tail, start, d);
    }
  }

  lemma OverwriteInside(tail: string, start: nat, d: string)
    requires start + |d| < |tail|
    ensures Linear(Overwritten(tail, start, d), start + |d|) == Linear(tail, start)[|d|..] + d
  {
    var tail' := Overwritten(tail, start, d);
    assert tail'[start + |d|..] == tail[start + |d|..];
    assert tail'[..start + |d|] == tail[..start] + d;
    assert Linear(tail, start)[|d|..] == tail[start + |d|..] + tail[..start];
  }

  lemma OverwriteToEnd(tail: string, start: nat, d: string)
    requires start + |d| == |tail|
    ensures Linear(Overwritten(tail, start, d), 0) == Linear(tail, start)[|d|..] + d
  {
    assert Linear(tail, start)[|d|..] == tail[..start];
    assert Overwritten(tail, start, d) == tail[..start] + d;
  }

  /** What the tail shows: the last bytes of everything written to it. */
  ghost predicate Shows(tail: string, start: nat, written: string) {
    && (start == 0 || start < |tail|)
    && Linear(tail, start) == LastN(written, |tail|)
  }

  /** One turn of the overwrite loop, on the linear view. */
  lemma OverwriteStep(before: string, data: string, offset: nat, count: nat, tail: string, start: nat)
    requires offset + count <= |data| && start < |tail| && start + count <= |tail|
    requires Shows(tail, start, before + data[..offset])
    ensures var run := data[offset..offset + count];
            && |Overwritten(tail, start, run)| == |tail|
            && Shows(Overwritten(tail, start, run), (start + count) % |tail|, before + data[..offset + count])
  {
    var run := data[offset..offset + count];
    OverwriteOldest(tail, start, run);
    LastNAbsorbs(before + data[..offset], run, |tail|);
    assert before + data[..offset + count] == before + data[..offset] + run;
    assert LastN(Linear(tail, start) + run, |tail|) == Linear(tail, start)[count..] + run;
  }

  /** A chunk as long as the tail replaces it. */
  lemma ReplaceTail(before: string, data: string, capacity: nat)
    requires capacity <= |data|
    ensures Linear(data[|data| - capacity..], 0) == LastN(before + data, capacity)
  {
  }

  /** Filling up a tail that has not wrapped yet. */
  lemma FillTail(tail: string, data: string, copy: nat, capacity: nat)
    requires copy <= |data| && |tail| + copy <= capacity
    ensures Linear(tail + data[..copy], 0) == LastN(Linear(tail, 0) + data[..copy], capacity)
  {
  }

  class BoundedOutputBuffer {
    const maximumBytes: Size
    const headCapacity: Size
    const tailCapacity: Size
    var head: string
    var tail: string
    var tailStart: nat
    var tailSize: nat
    var producedByteCount: Size

    // Everything appended so far.
    ghost var stream: string

    ghost predicate Valid()
      reads this
    {
      && headCapacity == maximumBytes / 2
      && tailCapacity == maximumBytes - headCapacity
      && producedByteCount == Min(|stream|, WORD_MAX)
      && head == HeadOf(stream, headCapacity)
      && TailValid()
      && Linear(tail, tailStart) == LastN(RestOf(stream, headCapacity), tailCapacity)
    }

    ghost predicate TailValid()
      reads this
    {
      && |tail| == tailSize <= tailCapacity
      && (tailStart == 0 || (tailSize == tailCapacity && tailStart < tailCapacity))
    }

    predicate Truncated()
      reads this
    {
      producedByteCount > maximumBytes
    }

    constructor (maximumBytes: Size)
      ensures Valid() && stream == [] && this.maximumBytes == maximumBytes
    {
      this.maximumBytes := maximumBytes;
      this.headCapacity := maximumBytes / 2;
      this.tailCapacity := maximumBytes - maximumBytes / 2;
      head, tail := [], [];
      tailStart, tailSize, producedByteCount := 0, 0, 0;
      stream := [];
    }

    /** A null pointer (None) or an empty chunk is ignored; any other chunk extends the stream. */
    method Append(data: Option<string>)
      requires Valid()
      requires data.Some? ==> |data.value| < WORD_VALUES
      modifies this
      ensures Valid()
      ensures stream == old(stream) + (if data.Some? then data.value else [])
    {
      if data.None? || |data.value| == 0 {
        return;
      }
      var bytes := data.value;
      var size := |bytes|;
      if size > WORD_MAX - producedByteCount {
        producedByteCount := WORD_MAX;
      } else {
        producedByteCount := producedByteCount + size;
      }

      var offset := AppendHead(bytes);
      LastNAbsorbs(RestOf(stream, headCapacity), bytes[offset..], tailCapacity);
      stream := stream + bytes;
      if offset < size {
        AppendTail(bytes[offset..]);
      } else {
        assert Linear(tail, tailStart) + bytes[offset..] == Linear(tail, tailStart);
      }
    }

    /** Fills up the head and says where the bytes for the tail start. */
    method AppendHead(bytes: string) returns (offset: nat)
      requires head == HeadOf(stream, headCapacity)
      modifies this`head
      ensures offset <= |bytes|
      ensures head == HeadOf(stream + bytes, headCapacity)
      ensures RestOf(stream + bytes, headCapacity) == RestOf(stream, headCapacity) + bytes[offset..]
    {
      ExtendHead(stream, headCapacity, bytes);
      offset := 0;
      if |head| < headCapacity {
        var copyCount := Min(headCapacity - |head|, |bytes|);
        head := head + bytes[..copyCount];
        offset := offset + copyCount;
      }
    }

    method AppendTail(data: string)
      requires TailValid()
      modifies this`tail, this`tailStart, this`tailSize
      ensures TailValid()
      ensures Linear(tail, tailStart) == LastN(Linear(old(tail), old(tailStart)) + data, tailCapacity)
    {
      var size := |data|;
      if tailCapacity == 0 || size == 0 {
        return;
      }
      if size >= tailCapacity {
        tail := data[size - tailCapacity..];
        tailStart := 0;
        tailSize := tailCapacity;
        ReplaceTail(Linear(old(tail), old(tailStart)), data, tailCapacity);
        return;
      }
      AppendShort(data);
    }

    /** Fills what is left of the tail, then overwrites its oldest bytes. */
    method AppendShort(data: string)
      requires TailValid() && |data| < tailCapacity
      modifies this`tail, this`tailStart, this`tailSize
      ensures TailValid()
      ensures Linear(tail, tailStart) == LastN(Linear(old(tail), old(tailStart)) + data, tailCapacity)
    {
      var size := |data|;
      ghost var before := Linear(tail, tailStart);
      assert before + data[..0] == before;
      var offset := 0;
      if tailSize < tailCapacity {
        var copyCount := Min(tailCapacity - tailSize, size);
        FillTail(tail, data, copyCount, tailCapacity);
        tail := tail + data[..copyCount];
        tailSize := tailSize + copyCount;
        offset := offset + copyCount;
      }

      if offset < size {
        OverwriteTail(data, offset, before);
      }
      assert data[..size] == data;
    }

    /** The overwrite loop over a full tail, from the first byte not yet stored. */
    method OverwriteTail(data: string, from: nat, ghost before: string)
      requires TailValid() && tailSize == tailCapacity > 0
      requires from <= |data| && Shows(tail, tailStart, before + data[..from])
      modifies this`tail, this`tailStart
      ensures TailValid()
      ensures Shows(tail, tailStart, before + data[..|data|])
    {
      var size, offset := |data|, from;
      while offset < size
        invariant from <= offset <= size
        invariant |tail| == tailCapacity
        invariant Shows(tail, tailStart, before + data[..offset])
      {
        var contiguous := Min(size - offset, tailCapacity - tailStart);
        OverwriteStep(before, data, offset, contiguous, tail, tailStart);
        tail := Overwritten(tail, tailStart, data[offset..offset + contiguous]);
        tailStart := (tailStart + contiguous) % tailCapacity;
        offset := offset + contiguous;
      }
    }

    method AppendLinearizedTail(output: string) returns (result: string)
      requires TailValid()
      ensures result == output + Linear(tail, tailStart)
    {
      if tailSize == 0 {
        return output;
      }
      if tailSize < tailCapacity || tailStart == 0 {
        return output + tail[..tailSize];
      }
      var firstPartSize := tailCapacity - tailStart;
      result := output + tail[tailStart..tailStart + firstPartSize];
      result := result + tail[..tailStart];
    }

    /** The output is the promised window, except when the produced count saturated at a maximal limit. */
    method BuildOutput() returns (output: string)
      requires Valid()
      ensures (output == Window(stream, maximumBytes)) <==> !(maximumBytes == WORD_MAX && |stream| > WORD_MAX)
    {
      output := head;
      if Truncated() {
        output := output + TRUNCATION_MARKER;
      }
      ghost var prefix := output;
      output := AppendLinearizedTail(output);
      ghost var rest := RestOf(stream, headCapacity);
      if |stream| <= maximumBytes {
        assert stream == head + rest;
      } else {
        assert LastN(rest, tailCapacity) == stream[|stream| - tailCapacity..];
      }
    }
  }
}
