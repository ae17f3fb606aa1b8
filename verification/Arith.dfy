/**
 Division and multiplication facts shared by the other modules.
 */
module Arith {

  /** Quotient and remainder are the only ones. */
  lemma DivMod(x: int, q: int, r: int, m: int)
    requires m > 0 && x == q * m + r && 0 <= r < m
    ensures x / m == q && x % m == r
  {
    var q', r' := x / m, x % m;
    assert x == q' * m + r' && 0 <= r' < m;
    if q > q' { Mono(q' + 1, q, m); } else if q < q' { Mono(q + 1, q', m); }
  }

  lemma Mono(a: int, b: int, k: int)
    requires a <= b && k > 0
    ensures a * k <= b * k && a * k == (a - 1) * k + k
  {
    assert (b - a) * k >= 0;
  }

  lemma DivNat(v: int, m: int)
    requires v >= 0 && m > 0
    ensures v / m >= 0 && v == v / m * m + v % m && 0 <= v % m < m
  {
  }

  lemma Double(x: int, p: int)
    ensures x * (2 * p) == 2 * (x * p)
  {
  }

  lemma Twice(p: int, x: int)
    ensures (2 * p) * x == 2 * (p * x)
  {
  }

  lemma ModShift(x: int, m: int, k: int)
    requires k > 0
    ensures (x + m * k) % k == x % k && (x + m * k) / k == x / k + m
  {
    var q, r := x / k, x % k;
    assert x + m * k == (q + m) * k + r;
    DivMod(x + m * k, q + m, r, k);
  }
}
