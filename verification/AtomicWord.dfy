/** The arithmetic of 64-bit atomic counters. */
module AtomicWord {
  import opened Arithmetic
  import opened Words

  /** The value left behind by a fetch-and-add. */
  function FetchAdd(value: Size, amount: Size): Size {
    (value + amount) % WORD_VALUES
  }

  /** The value left behind by a fetch-and-subtract. */
  function FetchSub(value: Size, amount: Size): Size {
    (value - amount) % WORD_VALUES
  }

  /** The overflow test `next < value` is exact: it fails just when the sum fits. */
  lemma AddFitsIff(value: Size, amount: Size)
    ensures FetchAdd(value, amount) >= value <==> value + amount < WORD_VALUES
    ensures value + amount < WORD_VALUES ==> FetchAdd(value, amount) == value + amount
  {
    if value + amount >= WORD_VALUES {
      DivModUnique(value + amount, WORD_VALUES, 1, value + amount - WORD_VALUES);
    } else {
      DivModUnique(value + amount, WORD_VALUES, 0, value + amount);
    }
  }

  lemma SubFits(value: Size, amount: Size)
    requires amount <= value
    ensures FetchSub(value, amount) == value - amount
  {
    DivModUnique(value - amount, WORD_VALUES, 0, value - amount);
  }

  /** A wrapping counter that tracks a true total keeps tracking it. */
  lemma CounterTracks(counter: Size, total: nat, amount: Size)
    requires counter == total % WORD_VALUES
    ensures FetchAdd(counter, amount) == (total + amount) % WORD_VALUES
  {
    ModAdd(total, amount, WORD_VALUES);
  }

  /** The difference of two wrapping counters is the true difference, reduced. */
  lemma CounterDifference(added: nat, removed: nat, left: nat)
    requires added == removed + left
    ensures FetchSub(added % WORD_VALUES, removed % WORD_VALUES) == left % WORD_VALUES
    ensures left < WORD_VALUES ==> left % WORD_VALUES == left
  {
    var d := FetchSub(added % WORD_VALUES, removed % WORD_VALUES);
    var q := if added % WORD_VALUES < removed % WORD_VALUES then 1 else 0;
    assert d == added % WORD_VALUES - removed % WORD_VALUES + q * WORD_VALUES;
    DivModUnique(left, WORD_VALUES, added / WORD_VALUES - removed / WORD_VALUES - q, d);
  }
}
