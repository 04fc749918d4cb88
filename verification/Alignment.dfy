/**
 The bit tricks of Alignment.inl on 64-bit words.  A word is a natural number below 2^64 and `And`
 is the bitwise conjunction of two words; the lemmas say what the tricks mean arithmetically.
 */
module Alignment {
  import opened Arithmetic
  import opened Words

  function Pow2(k: nat): (p: nat)
    ensures p >= 1
  {
    if k == 0 then 1 else 2 * Pow2(k - 1)
  }

  ghost predicate PowerOfTwo(v: nat) {
    exists k: nat :: v == Pow2(k)
  }

  /** Bitwise conjunction, one bit position at a time. */
  function And(a: nat, b: nat): nat
    decreases a
  {
    if a == 0 || b == 0 then 0
    else 2 * And(a / 2, b / 2) + (if a % 2 == 1 && b % 2 == 1 then 1 else 0)
  }

  /** Bitwise complement of a 64-bit word. */
  function Not(a: Size): Size {
    WORD_MAX - a
  }

  predicate IsPowerOfTwo(value: Size) {
    value != 0 && And(value, value - 1) == 0
  }

  function AlignUp(value: Size, alignment: Size): nat {
    if IsPowerOfTwo(alignment) then
      And((value + alignment - 1) % WORD_VALUES, Not(alignment - 1))
    else
      value
  }

  // ---- powers of two ----

  lemma WordValuesIsPow2()
    ensures WORD_VALUES == Pow2(64)
  {
    assert Pow2(4) == 16;
    Pow2Add(4, 4);
    assert Pow2(8) == 0x100;
    Pow2Add(8, 8);
    assert Pow2(16) == 0x1_0000;
    Pow2Add(16, 16);
    assert Pow2(32) == 0x1_0000_0000;
    Pow2Add(32, 32);
  }

  lemma {:induction false} Pow2Add(a: nat, b: nat)
    ensures Pow2(a + b) == Pow2(a) * Pow2(b)
  {
    if a > 0 {
      Pow2Add(a - 1, b);
      assert Pow2(a + b) == 2 * Pow2(a - 1 + b);
    }
  }

  lemma {:induction false} Pow2Monotone(a: nat, b: nat)
    requires a <= b
    ensures Pow2(a) <= Pow2(b)
    ensures a < b ==> 2 * Pow2(a) <= Pow2(b)
  {
    if a < b {
      Pow2Monotone(a, b - 1);
    }
  }

  lemma Pow2Divides(a: nat, b: nat)
    requires a <= b
    ensures Pow2(b) % Pow2(a) == 0
  {
    Pow2Add(b - a, a);
    MultipleMod(Pow2(b - a), Pow2(a));
  }

  // ---- what the masks compute ----

  lemma {:induction false} AndSelf(a: nat)
    ensures And(a, a) == a
  {
    if a > 0 {
      AndSelf(a / 2);
    }
  }

  lemma DoubleProduct(q: nat, h: nat)
    ensures 2 * (q * h) == q * (2 * h)
  {
  }

  /** Halving commutes with reduction by a power of two. */
  lemma HalfMod(x: nat, k: nat)
    requires k > 0
    ensures x % Pow2(k) == 2 * ((x / 2) % Pow2(k - 1)) + x % 2
  {
    var h := Pow2(k - 1);
    var q, r := (x / 2) / h, (x / 2) % h;
    DivModEquation(x / 2, h);
    DoubleProduct(q, h);
    DivModUnique(x, Pow2(k), q, 2 * r + x % 2);
  }

  /** A mask of k low ones keeps the remainder modulo 2^k. */
  lemma {:induction false} AndLowMask(x: nat, k: nat)
    ensures And(x, Pow2(k) - 1) == x % Pow2(k)
  {
    if x == 0 {
      DivModUnique(0, Pow2(k), 0, 0);
    } else if k > 0 {
      AndLowMask(x / 2, k - 1);
      HalfMod(x, k);
      var m := Pow2(k) - 1;
      assert m == 2 * (Pow2(k - 1) - 1) + 1;
      assert m / 2 == Pow2(k - 1) - 1 && m % 2 == 1;
    }
  }

  lemma AndEven(a: nat, b: nat)
    requires b % 2 == 0
    ensures And(a, b) == 2 * And(a / 2, b / 2)
  {
  }

  /** Halving a mask of ones from bit k to bit n - 1. */
  lemma HalfHighMask(n: nat, k: nat)
    requires 0 < k <= n
    ensures Pow2(k) <= Pow2(n) && Pow2(k - 1) <= Pow2(n - 1)
    ensures (Pow2(n) - Pow2(k)) / 2 == Pow2(n - 1) - Pow2(k - 1) && (Pow2(n) - Pow2(k)) % 2 == 0
  {
    Pow2Monotone(k, n);
    Pow2Monotone(k - 1, n - 1);
    assert Pow2(n) - Pow2(k) == 2 * (Pow2(n - 1) - Pow2(k - 1));
  }

  lemma HighMaskStep(x: nat, n: nat, k: nat)
    requires 0 < k <= n && Pow2(k - 1) <= Pow2(n - 1) && Pow2(k) <= Pow2(n)
    requires And(x / 2, Pow2(n - 1) - Pow2(k - 1)) == x / 2 - (x / 2) % Pow2(k - 1)
    ensures And(x, Pow2(n) - Pow2(k)) == x - x % Pow2(k)
  {
    HalfHighMask(n, k);
    AndEven(x, Pow2(n) - Pow2(k));
    HalfMod(x, k);
  }

  lemma HalfBelow(x: nat, n: nat)
    requires n > 0 && x < Pow2(n)
    ensures x / 2 < Pow2(n - 1)
  {
    assert Pow2(n) == 2 * Pow2(n - 1);
  }

  /** A mask of ones from bit k to bit n - 1 clears the remainder modulo 2^k. */
  lemma {:induction false} AndHighMask(x: nat, n: nat, k: nat)
    requires k <= n && x < Pow2(n)
    ensures Pow2(k) <= Pow2(n)
    ensures And(x, Pow2(n) - Pow2(k)) == x - x % Pow2(k)
    decreases k
  {
    Pow2Monotone(k, n);
    if k == 0 {
      AndLowMask(x, n);
      DivModUnique(x, Pow2(n), 0, x);
    } else {
      HalfBelow(x, n);
      AndHighMask(x / 2, n - 1, k - 1);
      HighMaskStep(x, n, k);
    }
  }

  /** The subtract-and-mask test accepts exactly the powers of two. */
  lemma {:induction false} IsPowerOfTwoMeaning(value: Size)
    ensures IsPowerOfTwo(value) <==> PowerOfTwo(value)
  {
    if value == 0 {
    } else if value == 1 {
      assert value == Pow2(0);
    } else if value % 2 == 1 {
      assert And(value, value - 1) == 2 * And(value / 2, value / 2);
      AndSelf(value / 2);
      forall k: nat ensures value != Pow2(k) {
        assert k == 0 || Pow2(k) == 2 * Pow2(k - 1);
      }
    } else {
      IsPowerOfTwoMeaning(value / 2);
      assert (value - 1) / 2 == value / 2 - 1;
      if PowerOfTwo(value / 2) {
        var k: nat :| value / 2 == Pow2(k);
        assert value == Pow2(k + 1);
      }
      if PowerOfTwo(value) {
        var k: nat :| value == Pow2(k);
        assert value / 2 == Pow2(k - 1);
      }
    }
  }

  /** Every alignment a word can hold is a power of two with exponent below 64. */
  lemma ExponentOf(alignment: Size) returns (k: nat)
    requires IsPowerOfTwo(alignment)
    ensures k < 64 && alignment == Pow2(k)
  {
    IsPowerOfTwoMeaning(alignment);
    k :| alignment == Pow2(k);
    WordValuesIsPow2();
    if k >= 64 {
      Pow2Monotone(64, k);
      assert false;
    }
  }

  lemma NotOfOnes(alignment: Size, k: nat)
    requires k <= 64 && alignment == Pow2(k)
    ensures Pow2(k) <= Pow2(64) && Not(alignment - 1) == Pow2(64) - Pow2(k)
  {
    WordValuesIsPow2();
    Pow2Monotone(k, 64);
  }

  /** Without overflow AlignUp rounds up to the nearest multiple. */
  lemma AlignUpMask(value: Size, alignment: Size)
    requires IsPowerOfTwo(alignment)
    ensures var biased := (value + alignment - 1) % WORD_VALUES;
            AlignUp(value, alignment) == biased - biased % alignment
  {
    var k := ExponentOf(alignment);
    WordValuesIsPow2();
    NotOfOnes(alignment, k);
    AndHighMask((value + alignment - 1) % WORD_VALUES, 64, k);
  }

  lemma AlignUpWithoutWrap(value: Size, alignment: Size)
    requires IsPowerOfTwo(alignment) && value + alignment - 1 < WORD_VALUES
    ensures var biased := value + alignment - 1;
            AlignUp(value, alignment) == biased - biased % alignment
  {
    AlignUpMask(value, alignment);
    DivModUnique(value + alignment - 1, WORD_VALUES, 0, value + alignment - 1);
  }

  /** AlignUp is the least multiple of the alignment that is not below the value. */
  lemma AlignUpIsLeastMultiple(value: Size, alignment: Size)
    requires IsPowerOfTwo(alignment) && value + alignment - 1 < WORD_VALUES
    ensures IsLeastMultiple(AlignUp(value, alignment), value, alignment)
  {
    AlignUpWithoutWrap(value, alignment);
    RoundUp(value, alignment, value + alignment - 1);
  }

  /** The sum in AlignUp may wrap; the result then collapses to zero, so it is an upper bound exactly without wrap. */
  lemma AlignUpIsUpperBoundIff(value: Size, alignment: Size)
    requires IsPowerOfTwo(alignment)
    ensures value <= AlignUp(value, alignment) <==> value + alignment - 1 < WORD_VALUES
    ensures value + alignment - 1 >= WORD_VALUES ==> AlignUp(value, alignment) == 0
  {
    if value + alignment - 1 < WORD_VALUES {
      AlignUpIsLeastMultiple(value, alignment);
    } else {
      AlignUpMask(value, alignment);
      var biased := value + alignment - 1 - WORD_VALUES;
      DivModUnique(value + alignment - 1, WORD_VALUES, 1, biased);
      DivModUnique(biased, alignment, 0, biased);
    }
  }
}
