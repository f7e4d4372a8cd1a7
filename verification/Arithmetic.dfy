/** Division with remainder of natural numbers. */
module Arithmetic {

  lemma DivMod(x: nat, m: nat)
    requires m > 0
    ensures x == x / m * m + x % m && 0 <= x % m < m
  {
  }

  lemma {:induction false} MulLess(a: nat, b: nat, m: nat)
    requires a < b
    ensures a * m + m <= b * m
  {
    if a + 1 < b { MulLess(a, b - 1, m); }
  }

  lemma Quotient(x: nat, m: nat, q: nat, r: nat)
    requires m > 0 && x == q * m + r && r < m
    ensures x / m == q && x % m == r
  {
    DivMod(x, m);
    if x / m < q { MulLess(x / m, q, m); } else if q < x / m { MulLess(q, x / m, m); }
  }
}
