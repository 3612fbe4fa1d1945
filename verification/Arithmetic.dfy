/** Whole numbers in 64-bit words, and division by numbers that are not
    constant. */
module Arithmetic {
  const TWO32: nat := 0x1_0000_0000
  const TWO64: nat := 0x1_0000_0000_0000_0000

  function Add64(x: nat, y: nat): (r: nat)
    ensures x + y < TWO64 ==> r == x + y
  {
    (x + y) % TWO64
  }

  lemma DivMod(n: nat, d: nat)
    requires d > 0
    ensures n / d * d + n % d == n && 0 <= n % d < d
  {
  }

  lemma Times(a: nat, b: nat, n: nat)
    requires a >= b
    ensures a * n >= b * n
  {
  }

  /** c lies in the q-th stretch of length n. */
  lemma Quotient(n: nat, c: nat, q: nat)
    requires n > 0
    ensures c / n == q <==> q * n <= c < q * n + n
  {
    var p := c / n;
    DivMod(c, n);
    if p < q { Times(q, p + 1, n); }
    if q < p { Times(p, q + 1, n); }
    assert (p + 1) * n == p * n + n && (q + 1) * n == q * n + n;
  }

  lemma EightTimes(k: nat, m: nat)
    ensures k * (m * 8) == 8 * (k * m)
  {
  }
}
