/** Weighted totals over sequences: the shared vocabulary of the conservation proofs. */
module Sums {

  function Total<T>(s: seq<T>, w: T -> nat): nat {
    if s == [] then 0 else w(s[0]) + Total(s[1..], w)
  }

  lemma {:induction false} TotalConcat<T>(a: seq<T>, b: seq<T>, w: T -> nat)
    ensures Total(a + b, w) == Total(a, w) + Total(b, w)
  {
    if a == [] {
      assert a + b == b;
    } else {
      TotalConcat(a[1..], b, w);
      assert (a + b)[1..] == a[1..] + b;
    }
  }

  lemma TotalSplit<T>(s: seq<T>, i: nat, w: T -> nat)
    requires i < |s|
    ensures Total(s, w) == Total(s[..i], w) + w(s[i]) + Total(s[i + 1..], w)
  {
    assert s == s[..i] + ([s[i]] + s[i + 1..]);
    TotalConcat(s[..i], [s[i]] + s[i + 1..], w);
    assert ([s[i]] + s[i + 1..])[1..] == s[i + 1..];
  }

  lemma TotalUpdate<T>(s: seq<T>, i: nat, x: T, w: T -> nat)
    requires i < |s|
    ensures Total(s[i := x], w) + w(s[i]) == Total(s, w) + w(x)
  {
    TotalSplit(s, i, w);
    TotalSplit(s[i := x], i, w);
    assert s[i := x][..i] == s[..i];
    assert s[i := x][i + 1..] == s[i + 1..];
  }

  lemma TotalAppend<T>(s: seq<T>, x: T, w: T -> nat)
    ensures Total(s + [x], w) == Total(s, w) + w(x)
  {
    TotalConcat(s, [x], w);
    assert [x][1..] == [];
  }

  lemma {:induction false} TotalZeroIff<T>(s: seq<T>, w: T -> nat)
    ensures Total(s, w) == 0 <==> forall i :: 0 <= i < |s| ==> w(s[i]) == 0
  {
    if s != [] {
      TotalZeroIff(s[1..], w);
      if Total(s, w) == 0 {
        forall i | 0 <= i < |s| ensures w(s[i]) == 0 {
          if i > 0 {
            assert s[i] == s[1..][i - 1];
          }
        }
      } else if w(s[0]) == 0 {
        var j :| 0 <= j < |s[1..]| && w(s[1..][j]) != 0;
        assert w(s[j + 1]) != 0;
      }
    }
  }

  /** A total is bounded by the total of a pointwise larger weight. */
  lemma {:induction false} TotalMonotone<T>(s: seq<T>, w: T -> nat, v: T -> nat)
    requires forall i :: 0 <= i < |s| ==> w(s[i]) <= v(s[i])
    ensures Total(s, w) <= Total(s, v)
  {
    if s != [] {
      assert forall i :: 0 <= i < |s[1..]| ==> s[1..][i] == s[i + 1];
      TotalMonotone(s[1..], w, v);
    }
  }
}
