/** Facts about integer multiplication and Euclidean remainder shared by the
    carousel and the scroller proofs. */
module IntArith {

  lemma AtLeastOneMultiple(d: int, n: int)
    requires d >= 1 && n > 0
    ensures d * n >= n
  {
  }

  /** `x / n` and `x % n` are the quotient and remainder of any decomposition
      `x == q * n + r` with `0 <= r < n`. */
  lemma RemainderOfDecomposition(x: int, n: int, q: int, r: int)
    requires n > 0 && 0 <= r < n
    requires x == q * n + r
    ensures x % n == r
    ensures x / n == q
  {
    var q', r' := x / n, x % n;
    assert x == q' * n + r';
    if q > q' {
      AtLeastOneMultiple(q - q', n);
    } else if q < q' {
      AtLeastOneMultiple(q' - q, n);
    }
  }

  lemma MultiplyMonotone(w: int, a: int, b: int)
    requires w > 0 && a <= b
    ensures w * a <= w * b
  {
  }

  lemma MultiplyCancels(w: int, a: int, b: int)
    requires w > 0 && w * a < w * b
    ensures a < b
  {
  }

  /** `x` less its remainder is a multiple of `n`. */
  lemma LessRemainderIsMultiple(x: int, n: int)
    requires n > 0
    ensures (x - x % n) % n == 0
  {
    var q := x / n;
    assert x == q * n + x % n;
    RemainderOfDecomposition(x - x % n, n, q, 0);
  }

  /** The negation of `x` less its remainder is a multiple of `n`. */
  lemma NegatedMultiple(x: int, n: int)
    requires n > 0
    ensures (-(x - x % n)) % n == 0
  {
    var q := x / n;
    assert x == q * n + x % n;
    RemainderOfDecomposition(-(x - x % n), n, -q, 0);
  }
}
