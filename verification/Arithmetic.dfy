/** Quotient and remainder of a number given by them. */
module Arithmetic {
  lemma DivMod(q: int, n: int, r: int)
    requires 0 <= r < n
    ensures (q * n + r) / n == q && (q * n + r) % n == r
  {
    var a := q * n + r;
    assert (a / n - q) * n == r - a % n;
    Multiple(a / n - q, n);
  }

  lemma Multiple(k: int, n: int)
    requires n > 0
    ensures k >= 1 ==> k * n >= n
    ensures k <= -1 ==> k * n <= -n
  {
  }
}
