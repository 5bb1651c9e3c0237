/** Exact non-negative rationals, reduced by the greatest common divisor. */
module Rationals {
  import opened Arithmetic
  import opened Outcomes

  datatype Rational = Rational(numerator: nat, denominator: nat)

  // ---------------------------------------------------------------------------
  // Divisibility
  // ---------------------------------------------------------------------------

  ghost predicate Divides(d: int, n: int) {
    exists k: int :: n == d * k
  }

  /** One is the only positive common divisor. */
  ghost predicate Coprime(a: nat, b: nat) {
    forall d: nat :: d > 0 && Divides(d, a) && Divides(d, b) ==> d == 1
  }

  function Gcd(a: nat, b: nat): nat
    decreases b
  {
    if b == 0 then a else Gcd(b, a % b)
  }

  lemma Multiple(d: int, k: int, n: int)
    requires n == d * k
    ensures Divides(d, n)
  {
  }

  lemma DividesCombination(d: int, a: int, b: int, x: int, y: int)
    requires Divides(d, a) && Divides(d, b)
    ensures Divides(d, a * x + b * y)
  {
    var k :| a == d * k;
    var l :| b == d * l;
    assert a * x + b * y == d * (k * x + l * y);
  }

  lemma {:induction false} GcdDividesBoth(a: nat, b: nat)
    ensures Divides(Gcd(a, b), a) && Divides(Gcd(a, b), b)
    ensures a > 0 || b > 0 ==> Gcd(a, b) > 0
    decreases b
  {
    if b == 0 {
      Multiple(a, 1, a);
      Multiple(a, 0, 0);
    } else {
      GcdDividesBoth(b, a % b);
      DividesCombination(Gcd(a, b), b, a % b, a / b, 1);
      QuotientAndRest(a, b);
    }
  }

  lemma QuotientAndRest(a: nat, b: nat)
    requires b > 0
    ensures a == b * (a / b) + a % b * 1
  {
  }

  /** The greatest common divisor is an integer combination of its arguments. */
  lemma {:induction false} Bezout(a: nat, b: nat) returns (x: int, y: int)
    ensures Gcd(a, b) == a * x + b * y
    decreases b
  {
    if b == 0 {
      x, y := 1, 0;
    } else {
      var x', y' := Bezout(b, a % b);
      x, y := y', x' - a / b * y';
      assert a == b * (a / b) + a % b;
      assert b * x' + (a - b * (a / b)) * y' == a * y' + b * (x' - a / b * y');
    }
  }

  /** A divisor of a product that is coprime to one factor divides the other. */
  lemma EuclidsLemma(d: nat, a: nat, b: nat)
    requires d > 0 && Coprime(d, a) && Divides(d, a * b)
    ensures Divides(d, b)
  {
    GcdDividesBoth(d, a);
    var x, y := Bezout(d, a);
    assert Gcd(d, a) == 1;
    assert b == (d * x + a * y) * b;
    assert b == d * (x * b) + (a * b) * y;
    Multiple(d, 1, d);
    DividesCombination(d, d, a * b, x * b, y);
  }

  lemma DivisorBound(d: nat, n: nat)
    requires n > 0 && Divides(d, n)
    ensures 0 < d <= n
  {
    var k :| n == d * k;
    if k < 1 {
      MulOrder(d, 0, k);
    } else {
      MulOrder(d, k, 1);
    }
  }

  // ---------------------------------------------------------------------------
  // Reduced ratios
  // ---------------------------------------------------------------------------

  /** Reduced form: the denominator is positive and shares no factor with the numerator. */
  ghost predicate Canonical(r: Rational) {
    r.denominator > 0 && Coprime(r.numerator, r.denominator)
  }

  /** `r` is the ratio of `numerator` to `denominator`. */
  predicate HasValue(r: Rational, numerator: nat, denominator: nat) {
    r.numerator * denominator == numerator * r.denominator
  }

  function Reduce(numerator: nat, denominator: nat): (r: Rational)
    requires denominator > 0
    ensures Canonical(r) && HasValue(r, numerator, denominator)
  {
    GcdDividesBoth(numerator, denominator);
    var divisor := Gcd(numerator, denominator);
    ReducedIsCanonical(numerator, denominator);
    Rational(numerator / divisor, denominator / divisor)
  }

  lemma ExactQuotient(n: nat, d: nat)
    requires d > 0 && Divides(d, n)
    ensures n == d * (n / d)
  {
    var k :| n == d * k;
    assert n == d * (n / d) + n % d;
    if k < n / d {
      MulOrder(d, n / d, k + 1);
    } else if k > n / d {
      MulOrder(d, k, n / d + 1);
    }
  }

  lemma CofactorsCombine(g: nat, p: nat, q: nat, x: int, y: int)
    requires g > 0 && g == (g * p) * x + (g * q) * y
    ensures p * x + q * y == 1
  {
    assert g * 1 == g * (p * x + q * y);
    EqualFactors(g, 1, p * x + q * y);
  }

  lemma CombinationIsCoprime(p: nat, q: nat, x: int, y: int)
    requires p * x + q * y == 1
    ensures Coprime(p, q)
  {
    forall d: nat | d > 0 && Divides(d, p) && Divides(d, q) ensures d == 1 {
      DividesCombination(d, p, q, x, y);
      DivisorBound(d, 1);
    }
  }

  lemma ReducedIsCanonical(numerator: nat, denominator: nat)
    requires denominator > 0
    ensures var g := Gcd(numerator, denominator);
            g > 0 && denominator / g > 0 && Coprime(numerator / g, denominator / g)
            && HasValue(Rational(numerator / g, denominator / g), numerator, denominator)
  {
    hide Gcd, Coprime, HasValue;
    var g := Gcd(numerator, denominator);
    GcdDividesBoth(numerator, denominator);
    ExactQuotient(numerator, g);
    ExactQuotient(denominator, g);
    ReducedPair(numerator, denominator, g, numerator / g, denominator / g);
  }

  lemma ReducedPair(numerator: nat, denominator: nat, g: nat, p: nat, q: nat)
    requires denominator > 0 && g > 0 && g == Gcd(numerator, denominator)
    requires numerator == g * p && denominator == g * q
    ensures q > 0 && Coprime(p, q) && HasValue(Rational(p, q), numerator, denominator)
  {
    hide Gcd, Coprime;
    Associate(p, g, q);
    var x, y := Bezout(numerator, denominator);
    CofactorsCombine(g, p, q, x, y);
    CombinationIsCoprime(p, q, x, y);
  }

  lemma CoprimeSymmetric(a: nat, b: nat)
    ensures Coprime(a, b) <==> Coprime(b, a)
  {
  }

  /** Equal values have equal reduced representations. */
  lemma CanonicalUnique(r: Rational, s: Rational)
    requires Canonical(r) && Canonical(s)
    requires r.numerator * s.denominator == s.numerator * r.denominator
    ensures r == s
  {
    CoprimeSymmetric(r.numerator, r.denominator);
    CoprimeSymmetric(s.numerator, s.denominator);
    Multiple(r.denominator, s.numerator, r.numerator * s.denominator);
    EuclidsLemma(r.denominator, r.numerator, s.denominator);
    Multiple(s.denominator, r.numerator, s.numerator * r.denominator);
    EuclidsLemma(s.denominator, s.numerator, r.denominator);
    DivisorBound(r.denominator, s.denominator);
    DivisorBound(s.denominator, r.denominator);
    EqualFactors(r.denominator, r.numerator, s.numerator);
  }

  lemma ReduceIsCanonicalForm(r: Rational, numerator: nat, denominator: nat)
    requires denominator > 0 && Canonical(r)
    ensures r == Reduce(numerator, denominator) <==> HasValue(r, numerator, denominator)
  {
    var s := Reduce(numerator, denominator);
    if HasValue(r, numerator, denominator) {
      CrossEqual(r, s, numerator, denominator);
      CanonicalUnique(r, s);
    }
  }

  lemma CrossEqual(r: Rational, s: Rational, numerator: nat, denominator: nat)
    requires denominator > 0
    requires HasValue(r, numerator, denominator) && HasValue(s, numerator, denominator)
    ensures r.numerator * s.denominator == s.numerator * r.denominator
  {
    assert r.numerator * s.denominator * denominator == (r.numerator * denominator) * s.denominator;
    assert s.numerator * r.denominator * denominator == (s.numerator * denominator) * r.denominator;
    EqualFactors(denominator, r.numerator * s.denominator, s.numerator * r.denominator);
  }

  /** The loop both services run; the eligibility service turns a zero result into one. */
  method GcdLoop(left: nat, right: nat) returns (g: nat)
    ensures g == Gcd(left, right)
  {
    var a, b := left, right;
    while b != 0
      invariant Gcd(a, b) == Gcd(left, right)
      decreases b
    {
      a, b := b, a % b;
    }
    return a;
  }

  method MakeRatio(numerator: int, denominator: int) returns (r: Outcome<Rational>)
    ensures r.Ok? <==> denominator > 0 && numerator >= 0
    ensures r.Ok? ==> Canonical(r.value) && HasValue(r.value, numerator, denominator)
  {
    if denominator <= 0 {
      return Fail("ratio_denominator_invalid");
    }
    if numerator < 0 {
      return Fail("ratio_negative");
    }
    var g := GcdLoop(numerator, denominator);
    ReducedIsCanonical(numerator, denominator);
    var divisor := if g == 0 then 1 else g;
    return Ok(Rational(numerator / divisor, denominator / divisor));
  }
}
