/** Small facts about integer multiplication and Euclidean division that the index layouts need. */
module IntArith {

  /** Dividing i * d + j by d recovers the row i and the column j. */
  lemma DivModOf(i: int, j: int, d: int)
    requires d > 0 && 0 <= j < d
    ensures (i * d + j) / d == i && (i * d + j) % d == j
  {
    var n := i * d + j;
    var q, r := n / d, n % d;
    assert n == q * d + r && 0 <= r < d;
    assert (q - i) * d == j - r by {
      assert q * d - i * d == (q - i) * d;
    }
    if q > i {
      MulAtLeast(q - i, d);
    } else if q < i {
      MulAtLeast(i - q, d);
    }
  }

  lemma MulAtLeast(a: int, d: int)
    requires a >= 1 && d > 0
    ensures a * d >= d
  {
    assert a * d == (a - 1) * d + d;
    assert (a - 1) * d >= 0;
  }

  lemma MulMonotone(a: int, b: int, d: int)
    requires 0 <= a <= b && d >= 0
    ensures a * d <= b * d
  {
    assert b * d - a * d == (b - a) * d;
    assert (b - a) * d >= 0;
  }

  /** A quotient below n: from k < n * d follows k / d < n. */
  lemma QuotientBelow(k: int, n: int, d: int)
    requires d > 0 && 0 <= k < n * d
    ensures 0 <= k / d < n
  {
    var q := k / d;
    assert k == q * d + k % d;
    if q >= n {
      MulMonotone(n, q, d);
    }
  }
}
