/** Multiplication and division facts the solver needs spelled out. */
module Arithmetic {

  lemma MulMonotone(a: nat, b: nat, d: nat)
    requires a <= b
    ensures a * d <= b * d
    ensures a < b ==> a * d + d <= b * d
  {
    assert b * d == a * d + (b - a) * d;
    if a < b {
      assert (b - a) * d == d + (b - a - 1) * d;
    }
  }

  /** Quotient and remainder are determined by the division equation. */
  lemma DivModUnique(x: nat, d: nat, q: nat, r: nat)
    requires d > 0 && x == q * d + r && r < d
    ensures x / d == q && x % d == r
  {
    var q1, r1 := x / d, x % d;
    assert x == q1 * d + r1 by { DivModEquation(x, d); }
    if q1 < q {
      MulMonotone(q1, q, d);
    } else if q < q1 {
      MulMonotone(q, q1, d);
    }
  }

  lemma DivModEquation(x: nat, d: nat)
    requires d > 0
    ensures x == (x / d) * d + x % d && x % d < d
  {
  }

  lemma MultipleMod(q: nat, d: nat)
    requires d > 0
    ensures (q * d) % d == 0 && (q * d) / d == q
  {
    DivModUnique(q * d, d, q, 0);
  }

  /** Adding to a reduced value and reducing again loses nothing. */
  lemma ModAdd(a: nat, b: nat, m: nat)
    requires m > 0
    ensures (a % m + b) % m == (a + b) % m
  {
    var q := a / m;
    var p := (a % m + b) / m;
    var r := (a % m + b) % m;
    DivModEquation(a, m);
    DivModEquation(a % m + b, m);
    Distribute(q, p, m);
    DivModUnique(a + b, m, q + p, r);
  }

  lemma Distribute(q: nat, p: nat, m: nat)
    ensures (q + p) * m == q * m + p * m
  {
  }

  /** r is the least multiple of d that is not below value. */
  ghost predicate IsLeastMultiple(r: int, value: nat, d: nat)
    requires d > 0
  {
    && r % d == 0
    && value <= r < value + d
    && forall m: nat :: m % d == 0 && value <= m ==> r <= m
  }

  /** Rounding value + d - 1 down to a multiple of d gives the least multiple of d not below value. */
  lemma RoundUp(value: nat, d: nat, biased: nat)
    requires d > 0 && biased == value + d - 1
    ensures IsLeastMultiple(biased - biased % d, value, d)
  {
    var q := biased / d;
    DivModEquation(biased, d);
    MultipleMod(q, d);
    forall m: nat | m % d == 0 && value <= m ensures q * d <= m {
      MultipleAtLeast(value, d, biased, m);
    }
  }

  lemma MultipleAtLeast(value: nat, d: nat, biased: nat, m: nat)
    requires d > 0 && biased == value + d - 1 && m % d == 0 && value <= m
    ensures (biased / d) * d <= m
  {
    var q, p := biased / d, m / d;
    DivModEquation(biased, d);
    DivModEquation(m, d);
    if p < q {
      MulMonotone(p, q, d);
    } else {
      MulMonotone(q, p, d);
    }
  }

  /** A multiple of a multiple of d is a multiple of d. */
  lemma MultipleOfMultiple(x: nat, m: nat, d: nat)
    requires d > 0 && m > 0 && m % d == 0 && x % m == 0
    ensures x % d == 0
  {
    var q, p := x / m, m / d;
    DivModEquation(x, m);
    DivModEquation(m, d);
    Reassociate(q, p, d);
    MultipleMod(q * p, d);
  }

  lemma Reassociate(q: nat, p: nat, d: nat)
    ensures q * (p * d) == (q * p) * d
  {
  }
}
