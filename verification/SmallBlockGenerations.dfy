/** What the 32-bit generation of the small block caches can and cannot tell apart, past the point where it wraps. */
module SmallBlockGenerations {
  import opened Arithmetic
  import opened SmallBlockClasses
  import opened SmallBlockInvariant
  import opened SmallBlockProtocol
  import opened SmallBlockRuns
  import opened Words

  /** The state after n shutdowns in a row. */
  function Shutdowns(s: State, n: nat): (r: State)
    requires WellShaped(s)
    ensures WellShaped(r)
  {
    if n == 0 then s else ShutdownStep(Shutdowns(s, n - 1))
  }

  lemma {:induction false} ShutdownsCount(s: State, n: nat)
    requires WellShaped(s)
    ensures Shutdowns(s, n).generation == (s.generation + n) % UINT32_VALUES
    ensures Shutdowns(s, n).caches == s.caches && Shutdowns(s, n).pcs == s.pcs
  {
    if n > 0 {
      ShutdownsCount(s, n - 1);
      OneMore(s.generation, n - 1);
    }
  }

  lemma OneMore(g: nat, n: nat)
    ensures ((g + n) % UINT32_VALUES + 1) % UINT32_VALUES == (g + (n + 1)) % UINT32_VALUES
  {
    ModAdd(g + n, 1, UINT32_VALUES);
  }

  lemma {:induction false} ShutdownsRelease(s: State, n: nat)
    requires Invariant(s) && AllIdle(s) && n > 0
    ensures Shutdowns(s, n).regions == map[]
  {
    if n == 1 {
      ShutdownReleasesEachSlabOnce(s);
      assert Shutdowns(s, 0) == s;
      assert Shutdowns(s, 1).regions == map[];
    } else {
      ShutdownsRelease(s, n - 1);
    }
  }

  /**
   A thread with a nonempty list sits out n shutdowns and then asks for a block of that list's class.  All slabs
   are gone, yet its old list is served if and only if the generation has come back to the one of its cache.
   */
  lemma StaleListIsServedIff(s: State, n: nat, t: nat, request: Request, c: nat)
    requires Invariant(s) && AllIdle(s) && t < |s.caches| && n > 0
    requires Fits(request, c) && c < CLASS_COUNT && s.caches[t].heads[c] != 0
    ensures var later := Shutdowns(s, n).(initialized := true);
            && later.regions == map[]
            && HandedOut(later, Allocate(t, request))
               == if (s.generation + n) % UINT32_VALUES == s.caches[t].generation then s.caches[t].heads[c] else 0
  {
    ShutdownsCount(s, n);
    ShutdownsRelease(s, n);
  }

  /** A list in use is safe for 2^32 - 1 shutdowns, and the next one is the first that brings it back. */
  lemma CurrentListComesBackIff(s: State, n: nat, t: nat, request: Request, c: nat)
    requires Invariant(s) && AllIdle(s) && Fresh(s, t) && n > 0
    requires Fits(request, c) && c < CLASS_COUNT && s.caches[t].heads[c] != 0
    ensures HandedOut(Shutdowns(s, n).(initialized := true), Allocate(t, request)) != 0 <==> n % UINT32_VALUES == 0
  {
    StaleListIsServedIff(s, n, t, request, c);
    WrapsToItselfIff(s.generation, n);
  }

  lemma WrapsToItselfIff(g: Uint32, n: nat)
    ensures (g + n) % UINT32_VALUES == g <==> n % UINT32_VALUES == 0
  {
  }
}
