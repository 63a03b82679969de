/** Small facts of integer arithmetic the averaging and scoring proofs need. */
module Arith {

  lemma MulBounds(n: int, k: int)
    requires n >= 1
    ensures k >= 1 ==> n * k >= n
    ensures k <= -1 ==> n * k <= -n
  {
  }

  /** Exact division: (n v) / n == v. */
  lemma DivExact(n: int, v: int)
    requires n >= 1
    ensures (n * v) / n == v
  {
    var t := n * v;
    var q, r := t / n, t % n;
    assert t == n * q + r && 0 <= r < n;
    assert n * (v - q) == r by {
      assert n * v - n * q == n * (v - q);
    }
    MulBounds(n, v - q);
  }

  /** A floor mean of at most 255 per sample stays a byte. */
  lemma MeanBound(t: nat, n: int)
    requires n >= 1 && t <= 255 * n
    ensures 0 <= t / n < 256
  {
    assert n * (t / n) <= t;
  }

  lemma Distribute(c: int, a: int, b: int)
    ensures c * (a + b) == c * a + c * b
  {
  }
}
