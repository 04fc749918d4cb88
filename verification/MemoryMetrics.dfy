/** The process-wide metrics as one thread records them; MetricsRuns covers concurrent recording. */
module Metrics {
  import opened AtomicWord
  import opened Words

  /** All the figures at one moment. */
  datatype Figures = Figures(
    totalAllocated: Size, totalFreed: Size, live: Size, peak: Size, allocations: Size, frees: Size, reallocations: Size)

  function AfterAllocation(f: Figures, size: Size): Figures {
    f.(totalAllocated := FetchAdd(f.totalAllocated, size), live := FetchAdd(f.live, size),
       allocations := FetchAdd(f.allocations, 1), peak := Max(f.peak, FetchAdd(f.live, size)))
  }

  function AfterFree(f: Figures, size: Size): Figures {
    f.(totalFreed := FetchAdd(f.totalFreed, size), live := FetchSub(f.live, size), frees := FetchAdd(f.frees, 1))
  }

  function AfterReallocation(f: Figures, oldSize: Size, newSize: Size): Figures {
    var moved :=
      if newSize > oldSize then AfterAllocation(f, newSize - oldSize)
      else if oldSize > newSize then AfterFree(f, oldSize - newSize)
      else f;
    moved.(reallocations := FetchAdd(f.reallocations, 1))
  }

  class MemoryMetrics {
    var totalAllocatedBytes: Size
    var totalFreedBytes: Size
    var currentLiveBytes: Size
    var peakLiveBytes: Size
    var allocationCount: Size
    var freeCount: Size
    var reallocationCount: Size

    function Now(): Figures
      reads this
    {
      Figures(totalAllocatedBytes, totalFreedBytes, currentLiveBytes, peakLiveBytes, allocationCount, freeCount,
              reallocationCount)
    }

    constructor ()
      ensures Now() == Figures(0, 0, 0, 0, 0, 0, 0)
    {
      totalAllocatedBytes, totalFreedBytes, currentLiveBytes, peakLiveBytes := 0, 0, 0, 0;
      allocationCount, freeCount, reallocationCount := 0, 0, 0;
    }

    method RecordMemoryAllocation(size: Size)
      modifies this
      ensures totalAllocatedBytes == FetchAdd(old(totalAllocatedBytes), size)
      ensures currentLiveBytes == FetchAdd(old(currentLiveBytes), size)
      ensures allocationCount == FetchAdd(old(allocationCount), 1)
      ensures peakLiveBytes == Max(old(peakLiveBytes), currentLiveBytes)
      ensures totalFreedBytes == old(totalFreedBytes) && freeCount == old(freeCount)
      ensures reallocationCount == old(reallocationCount)
      ensures Now() == AfterAllocation(old(Now()), size)
    {
      totalAllocatedBytes := FetchAdd(totalAllocatedBytes, size);
      currentLiveBytes := FetchAdd(currentLiveBytes, size);
      var current := currentLiveBytes;
      allocationCount := FetchAdd(allocationCount, 1);
      if current > peakLiveBytes {
        peakLiveBytes := current;
      }
    }

    method RecordMemoryFree(size: Size)
      modifies this
      ensures totalFreedBytes == FetchAdd(old(totalFreedBytes), size)
      ensures currentLiveBytes == FetchSub(old(currentLiveBytes), size)
      ensures freeCount == FetchAdd(old(freeCount), 1)
      ensures totalAllocatedBytes == old(totalAllocatedBytes) && allocationCount == old(allocationCount)
      ensures peakLiveBytes == old(peakLiveBytes) && reallocationCount == old(reallocationCount)
      ensures Now() == AfterFree(old(Now()), size)
    {
      totalFreedBytes := FetchAdd(totalFreedBytes, size);
      currentLiveBytes := FetchSub(currentLiveBytes, size);
      freeCount := FetchAdd(freeCount, 1);
    }

    /** A reallocation moves the live bytes by the size difference and counts once. */
    method RecordMemoryReallocation(oldSize: Size, newSize: Size)
      modifies this
      ensures currentLiveBytes == (old(currentLiveBytes) + newSize - oldSize) % WORD_VALUES
      ensures peakLiveBytes == if newSize > oldSize then Max(old(peakLiveBytes), currentLiveBytes) else old(peakLiveBytes)
      ensures totalAllocatedBytes ==
              if newSize > oldSize then FetchAdd(old(totalAllocatedBytes), newSize - oldSize) else old(totalAllocatedBytes)
      ensures totalFreedBytes ==
              if oldSize > newSize then FetchAdd(old(totalFreedBytes), oldSize - newSize) else old(totalFreedBytes)
      ensures allocationCount == if newSize > oldSize then FetchAdd(old(allocationCount), 1) else old(allocationCount)
      ensures freeCount == if oldSize > newSize then FetchAdd(old(freeCount), 1) else old(freeCount)
      ensures reallocationCount == FetchAdd(old(reallocationCount), 1)
      ensures Now() == AfterReallocation(old(Now()), oldSize, newSize)
    {
      if newSize > oldSize {
        RecordMemoryAllocation(newSize - oldSize);
      } else if oldSize > newSize {
        RecordMemoryFree(oldSize - newSize);
      } else {
        UnchangedIsReduced(currentLiveBytes);
      }
      reallocationCount := FetchAdd(reallocationCount, 1);
    }

    lemma UnchangedIsReduced(value: Size)
      ensures value == value % WORD_VALUES
    {
    }
  }
}
