/** Facts about products and remainders that the solver does not find by itself. */
module Arithmetic {
  lemma MulMono(a: nat, b: nat, c: nat)
    requires a <= b
    ensures 0 <= a * c <= b * c
  {
  }

  lemma MulNonNegative(a: int, b: int)
    requires a >= 0 && b >= 0
    ensures a * b >= 0
  {
  }

  lemma Distribute(a: int, b: int, c: int)
    ensures (a + b) * c == a * c + b * c
  {
  }

  lemma MultipleSize(m: int, d: int)
    requires m >= 0
    ensures d == 0 || m * d >= m || m * d <= -m
  {
    if d > 0 {
      MulNonNegative(m, d - 1);
      assert m * d == m * (d - 1) + m;
    } else if d < 0 {
      MulNonNegative(m, -d - 1);
      assert m * (-d - 1) == -(m * d) - m;
    }
  }

  /** Quotient and remainder are unique. */
  lemma ModIs(x: nat, m: nat, q: int, r: nat)
    requires m > 0 && x == m * q + r && r < m
    ensures x % m == r && x / m == q
  {
    MultipleSize(m, x / m - q);
    assert m * (x / m - q) == r - x % m;
  }

  lemma DivBelow(k: nat, n: nat, m: nat)
    requires m > 0 && k < n * m
    ensures k / m < n && k == k / m * m + k % m
  {
    if k / m >= n {
      MulMono(n, k / m, m);
    }
  }
}
