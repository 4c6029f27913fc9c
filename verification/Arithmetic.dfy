/** Facts about products, quotients and remainders of naturals. */
module Arithmetic {

  lemma NonNegative(d: nat, n: nat)
    ensures d * n >= 0
  {
  }

  lemma MulLess(a: nat, b: nat, n: nat)
    requires a < b
    ensures a * n + n <= b * n
  {
    var d: nat := b - a - 1;
    NonNegative(d, n);
    assert b * n == a * n + n + d * n;
  }

  lemma MulBounds(i: nat, m: nat, j: nat, n: nat)
    requires i < m && j < n
    ensures i * n + j < m * n
  {
    MulLess(i, m, n);
  }

  lemma DivModUnique(q: nat, n: nat, r: nat)
    requires r < n
    ensures (q * n + r) / n == q && (q * n + r) % n == r
  {
    var x := q * n + r;
    var q' := x / n;
    assert x == q' * n + x % n;
    if q' < q {
      MulLess(q', q, n);
    } else if q < q' {
      MulLess(q, q', n);
    }
  }

  lemma DivBound(x: nat, m: nat, n: nat)
    requires x < m * n
    ensures n > 0 && x / n < m && x % n < n && x == (x / n) * n + x % n
  {
    assert n > 0;
    if m < x / n {
      MulLess(m, x / n, n);
    }
  }

  lemma DivModNegative(i: int, n: nat)
    requires i < 0 <= i + n
    ensures i % n == i + n
  {
    var q := i / n;
    assert i == q * n + i % n;
    if q > -1 {
      MulLess(0, q + 1, n);
    } else if q < -1 {
      MulLess(1, -q, n);
    }
  }
}
