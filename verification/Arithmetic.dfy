/** Facts about products and quotients that the solver does not find on its own. */
module Arithmetic {

  lemma MulOrder(m: nat, a: int, b: int)
    requires a >= b
    ensures m * a >= m * b
  {
  }

  lemma EqualFactors(d: nat, m: int, n: int)
    requires d > 0 && d * m == d * n
    ensures m == n
  {
    if m < n {
      MulOrder(d, n, m + 1);
    } else if n < m {
      MulOrder(d, m, n + 1);
    }
  }

  lemma CancelOrder(d: nat, m: int, n: int)
    requires d > 0 && d * m >= d * n
    ensures m >= n
  {
    if m < n {
      MulOrder(d, n, m + 1);
    }
  }

  lemma Associate(a: int, b: int, c: int)
    ensures (a * b) * c == a * (b * c) == b * (a * c)
  {
  }

  lemma Distribute(a: int, b: int, c: int)
    ensures (a + b) * c == a * c + b * c
  {
  }

  /** Scaling a number before dividing it scales the quotient and what the remainder still yields. */
  lemma SplitQuotient(n: nat, d: nat, p: nat)
    requires d > 0
    ensures n * p / d == n / d * p + n % d * p / d
  {
    ScaledParts(n / d, d, n % d, p);
    assert n == n / d * d + n % d;
  }

  lemma ScaledParts(q: nat, d: nat, rest: nat, p: nat)
    requires d > 0
    ensures (q * d + rest) * p / d == q * p + rest * p / d
  {
    Distribute(q * d, rest, p);
    Associate(q, d, p);
    Associate(q, p, d);
    DivideSum(q * p, d, rest * p);
  }

  lemma DivideSum(a: nat, d: nat, b: nat)
    requires d > 0
    ensures (a * d + b) / d == a + b / d
  {
    Distribute(a, b / d, d);
    QuotientIs(a * d + b, d, a + b / d);
  }

  lemma QuotientAtLeast(n: nat, d: nat, q: nat)
    requires d > 0 && q * d <= n
    ensures n / d >= q
  {
    if n / d < q {
      MulOrder(d, q, n / d + 1);
    }
  }

  lemma QuotientIs(n: nat, d: nat, q: nat)
    requires d > 0 && q * d <= n < q * d + d
    ensures n / d == q
  {
    QuotientAtLeast(n, d, q);
    if n / d > q {
      MulOrder(d, n / d, q + 1);
    }
  }
}
