/** Prices, ceiling amounts and the executable-depth decision of the quote-token eligibility service. */
module Eligibility {
  import opened Arithmetic
  import opened Outcomes
  import opened Rationals

  const Q192: nat := 0x1_0000_0000_0000_0000_0000_0000_0000_0000_0000_0000_0000_0000
  const BPS: nat := 10_000

  function Pow10(n: nat): (p: nat)
    ensures p > 0
  {
    if n == 0 then 1 else 10 * Pow10(n - 1)
  }

  /** The sign of left - right, decided by cross multiplication. */
  function CompareRatio(left: Rational, right: Rational): int {
    var lhs := left.numerator * right.denominator;
    var rhs := right.numerator * left.denominator;
    if lhs == rhs then 0 else if lhs < rhs then -1 else 1
  }

  function InverseRatio(r: Rational): (inverse: Outcome<Rational>)
    requires r.denominator > 0
  {
    if r.numerator == 0 then Fail("ratio_zero_inverse") else Ok(Reduce(r.denominator, r.numerator))
  }

  function MultiplyRatio(left: Rational, right: Rational): (r: Rational)
    requires left.denominator > 0 && right.denominator > 0
    ensures r.denominator > 0
  {
    assert left.denominator * right.denominator > 0;
    Reduce(left.numerator * right.numerator, left.denominator * right.denominator)
  }

  function MinRatio(left: Rational, right: Rational): Rational {
    if CompareRatio(left, right) <= 0 then left else right
  }

  function RatioByBps(r: Rational, bps: nat): (scaled: Rational)
    requires r.denominator > 0
    ensures scaled.denominator > 0 && HasValue(scaled, r.numerator * bps, r.denominator * 10_000)
  {
    Reduce(r.numerator * bps, r.denominator * BPS)
  }

  // ---------------------------------------------------------------------------
  // Order on values
  // ---------------------------------------------------------------------------

  /** Comparing a reduced ratio is comparing any ratio it was reduced from. */
  lemma CompareReduced(r: Rational, numerator: nat, denominator: nat, bound: Rational)
    requires denominator > 0 && r.denominator > 0 && bound.denominator > 0
    requires HasValue(r, numerator, denominator)
    ensures CompareRatio(r, bound) >= 0 <==> numerator * bound.denominator >= bound.numerator * denominator
    ensures CompareRatio(bound, r) >= 0 <==> bound.numerator * denominator >= numerator * bound.denominator
  {
    var p, q, b, c := r.numerator, r.denominator, bound.numerator, bound.denominator;
    Associate(p, denominator, c);
    Associate(numerator, q, c);
    Associate(denominator, b, q);
    Associate(q, b, denominator);
    SameSign(denominator, q, p * c, b * q, numerator * c, b * denominator);
  }

  lemma SameSign(d: nat, q: nat, x: nat, y: nat, u: nat, v: nat)
    requires d > 0 && q > 0 && d * x == q * u && d * y == q * v
    ensures x >= y <==> u >= v
  {
    if x >= y {
      MulOrder(d, x, y);
      if u < v {
        MulOrder(q, v, u + 1);
      }
    } else {
      MulOrder(d, y, x + 1);
      if u >= v {
        MulOrder(q, u, v);
      }
    }
  }

  lemma MinRatioIsLeast(left: Rational, right: Rational)
    ensures MinRatio(left, right) == left || MinRatio(left, right) == right
    ensures CompareRatio(MinRatio(left, right), left) <= 0
    ensures CompareRatio(MinRatio(left, right), right) <= 0
  {
  }

  // ---------------------------------------------------------------------------
  // The pool price, read from either side
  // ---------------------------------------------------------------------------

  function ReferencePerQuotePrice(sqrtPriceX96: int, quoteIsToken0: bool, quoteDecimals: nat, referenceDecimals: nat)
    : (price: Outcome<Rational>)
    ensures price.Ok? <==> sqrtPriceX96 > 0
    ensures price.Ok? ==> Canonical(price.value) && price.value.numerator > 0
  {
    if sqrtPriceX96 <= 0 then
      Fail("sqrt_price_zero")
    else
      var squared := sqrtPriceX96 * sqrtPriceX96;
      assert squared > 0;
      ProductsPositive(squared, Pow10(quoteDecimals), Pow10(referenceDecimals));
      if quoteIsToken0 then
        NumeratorPositive(squared * Pow10(quoteDecimals), Q192 * Pow10(referenceDecimals));
        Ok(Reduce(squared * Pow10(quoteDecimals), Q192 * Pow10(referenceDecimals)))
      else
        NumeratorPositive(Q192 * Pow10(quoteDecimals), squared * Pow10(referenceDecimals));
        Ok(Reduce(Q192 * Pow10(quoteDecimals), squared * Pow10(referenceDecimals)))
  }

  /** The price of token 0 in token 1 is the square of the square-root price; the other side's is its inverse, and both
      are scaled from raw amounts to whole tokens. */
  lemma PriceIsSquared(sqrtPriceX96: int, quoteIsToken0: bool, quoteDecimals: nat, referenceDecimals: nat)
    requires sqrtPriceX96 > 0
    ensures var price := ReferencePerQuotePrice(sqrtPriceX96, quoteIsToken0, quoteDecimals, referenceDecimals).value;
            var squared := sqrtPriceX96 * sqrtPriceX96;
            HasValue(price, (if quoteIsToken0 then squared else Q192) * Pow10(quoteDecimals),
                     (if quoteIsToken0 then Q192 else squared) * Pow10(referenceDecimals))
  {
    hide Reduce, Canonical, HasValue;
    ProductsPositive(sqrtPriceX96 * sqrtPriceX96, Pow10(quoteDecimals), Pow10(referenceDecimals));
  }

  /** Two tokens of as many decimals at the square-root price of one are worth one another. */
  lemma PriceOfOne(quoteIsToken0: bool, decimals: nat)
    ensures ReferencePerQuotePrice(0x1_0000_0000_0000_0000_0000_0000, quoteIsToken0, decimals, decimals)
            == Ok(Rational(1, 1))
  {
    hide Reduce, Pow10;
    var one := Rational(1, 1);
    OneIsCanonical();
    ReduceIsCanonicalForm(one, Q192 * Pow10(decimals), Q192 * Pow10(decimals));
  }

  lemma OneIsCanonical()
    ensures Canonical(Rational(1, 1))
  {
    forall d: nat | d > 0 && Divides(d, 1) ensures d == 1 {
      var k: int :| 1 == d * k;
      if d > 1 {
        MulOrder(d, k, 1);
      }
    }
  }

  lemma ProductsPositive(a: nat, b: nat, c: nat)
    requires a > 0 && b > 0 && c > 0
    ensures a * b > 0 && a * c > 0
  {
  }

  lemma NumeratorPositive(numerator: nat, denominator: nat)
    requires numerator > 0 && denominator > 0
    ensures Reduce(numerator, denominator).numerator > 0
  {
    var r := Reduce(numerator, denominator);
    MulOrder(r.denominator, numerator, 1);
  }

  /** Reduction commutes with inversion. */
  lemma InverseOfReduced(numerator: nat, denominator: nat)
    requires numerator > 0 && denominator > 0
    ensures InverseRatio(Reduce(numerator, denominator)) == Ok(Reduce(denominator, numerator))
  {
    var r := Reduce(numerator, denominator);
    NumeratorPositive(numerator, denominator);
    CoprimeSymmetric(r.numerator, r.denominator);
    var swapped := Rational(r.denominator, r.numerator);
    ReduceIsCanonicalForm(swapped, r.denominator, r.numerator);
    ReduceIsCanonicalForm(swapped, denominator, numerator);
  }

  /** Reading the pool from the other token's side gives, as a structure, the inverse price. */
  lemma PriceFromOtherSide(sqrtPriceX96: int, quoteIsToken0: bool, quoteDecimals: nat, referenceDecimals: nat)
    requires sqrtPriceX96 > 0
    ensures InverseRatio(ReferencePerQuotePrice(sqrtPriceX96, quoteIsToken0, quoteDecimals, referenceDecimals).value)
         == ReferencePerQuotePrice(sqrtPriceX96, !quoteIsToken0, referenceDecimals, quoteDecimals)
  {
    hide Reduce, InverseRatio;
    var squared := sqrtPriceX96 * sqrtPriceX96;
    assert squared > 0;
    ProductsPositive(squared, Pow10(quoteDecimals), Pow10(referenceDecimals));
    if quoteIsToken0 {
      InverseOfReduced(squared * Pow10(quoteDecimals), Q192 * Pow10(referenceDecimals));
    } else {
      InverseOfReduced(Q192 * Pow10(quoteDecimals), squared * Pow10(referenceDecimals));
    }
  }

  // ---------------------------------------------------------------------------
  // Ceiling amounts
  // ---------------------------------------------------------------------------

  function CeilDiv(numerator: nat, denominator: nat): nat
    requires denominator > 0
  {
    if numerator == 0 then 0 else (numerator - 1) / denominator + 1
  }

  lemma CeilDivGalois(numerator: nat, denominator: nat, x: nat)
    requires denominator > 0
    ensures x >= CeilDiv(numerator, denominator) <==> x * denominator >= numerator
  {
    if numerator > 0 {
      var q := (numerator - 1) / denominator;
      assert numerator - 1 == q * denominator + (numerator - 1) % denominator;
      if x >= q + 1 {
        MulOrder(denominator, x, q + 1);
      } else {
        MulOrder(denominator, q, x);
      }
    }
  }

  function RawAmountForUsd(usd: Rational, tokenUsd: Rational, decimals: nat): Outcome<nat>
    requires usd.denominator > 0
  {
    if tokenUsd.numerator == 0 then
      Fail("token_usd_zero")
    else
      assert usd.denominator * tokenUsd.numerator > 0;
      Ok(CeilDiv(usd.numerator * tokenUsd.denominator * Pow10(decimals), usd.denominator * tokenUsd.numerator))
  }

  function TokenRawValueUsd(raw: nat, decimals: nat, tokenUsd: Rational): (value: Rational)
    requires tokenUsd.denominator > 0
    ensures value.denominator > 0
  {
    MultiplyRatio(Reduce(raw, Pow10(decimals)), tokenUsd)
  }

  lemma RawValue(raw: nat, decimals: nat, tokenUsd: Rational)
    requires tokenUsd.denominator > 0
    ensures HasValue(TokenRawValueUsd(raw, decimals, tokenUsd),
                     raw * tokenUsd.numerator, Pow10(decimals) * tokenUsd.denominator)
  {
    hide Reduce;
    var r := Reduce(raw, Pow10(decimals));
    var value := TokenRawValueUsd(raw, decimals, tokenUsd);
    assert HasValue(value, r.numerator * tokenUsd.numerator, r.denominator * tokenUsd.denominator);
    ChainValue(value, r, raw, Pow10(decimals), tokenUsd);
  }

  lemma ChainValue(value: Rational, r: Rational, raw: nat, scale: nat, tokenUsd: Rational)
    requires r.denominator > 0 && HasValue(r, raw, scale)
    requires HasValue(value, r.numerator * tokenUsd.numerator, r.denominator * tokenUsd.denominator)
    ensures HasValue(value, raw * tokenUsd.numerator, scale * tokenUsd.denominator)
  {
    var v, w, p, q := value.numerator, value.denominator, tokenUsd.numerator, tokenUsd.denominator;
    assert r.denominator * (v * (scale * q)) == scale * (v * (r.denominator * q));
    assert scale * ((r.numerator * p) * w) == (r.numerator * scale) * (p * w);
    assert (raw * r.denominator) * (p * w) == r.denominator * ((raw * p) * w);
    EqualFactors(r.denominator, v * (scale * q), (raw * p) * w);
  }

  /** The ceiling amount is the least raw amount worth at least `usd`. */
  lemma RawAmountGalois(usd: Rational, tokenUsd: Rational, decimals: nat, raw: nat)
    requires usd.denominator > 0 && tokenUsd.denominator > 0 && tokenUsd.numerator > 0
    ensures raw >= RawAmountForUsd(usd, tokenUsd, decimals).value
       <==> CompareRatio(TokenRawValueUsd(raw, decimals, tokenUsd), usd) >= 0
  {
    hide TokenRawValueUsd, CeilDiv, CompareRatio, HasValue;
    var p, q, m, n, scale := tokenUsd.numerator, tokenUsd.denominator, usd.numerator, usd.denominator, Pow10(decimals);
    assert n * p > 0;
    CeilDivGalois(m * q * scale, n * p, raw);
    RawValue(raw, decimals, tokenUsd);
    assert scale * q > 0;
    CompareReduced(TokenRawValueUsd(raw, decimals, tokenUsd), raw * p, scale * q, usd);
    assert raw * (n * p) == (raw * p) * n;
    assert m * q * scale == m * (scale * q);
  }

  // ---------------------------------------------------------------------------
  // The depth decision
  // ---------------------------------------------------------------------------

  /** What the service has read before it decides: prices, the pool's quote balance and the two quoter answers. */
  datatype DepthReading = DepthReading(
    quoteUsdCurrent: Rational, quoteUsdTwap: Rational, referenceUsd: Rational,
    minQuoteDepthUsd: Rational, maxPriceImpactBps: nat,
    quoteDecimals: nat, referenceDecimals: nat,
    quotePoolBalanceRaw: nat, referenceInputRaw: nat, referenceOutputRaw: nat)
  {
    predicate WellFormed() {
      && quoteUsdCurrent.denominator > 0 && quoteUsdTwap.denominator > 0
      && referenceUsd.denominator > 0 && minQuoteDepthUsd.denominator > 0
      && maxPriceImpactBps <= BPS
    }

    function ConservativeQuoteUsd(): Rational {
      MinRatio(quoteUsdCurrent, quoteUsdTwap)
    }
  }

  /** True means eligible; a failure is one of the reasons for which depth cannot be quoted. */
  method DecideDepth(reading: DepthReading) returns (eligible: Outcome<bool>)
    requires reading.WellFormed()
    ensures eligible.Ok? <==> reading.ConservativeQuoteUsd().numerator > 0 && reading.minQuoteDepthUsd.numerator > 0
    ensures eligible.Ok? ==>
      (eligible.value <==>
        && CompareRatio(TokenRawValueUsd(reading.quotePoolBalanceRaw, reading.quoteDecimals,
                                         reading.ConservativeQuoteUsd()), reading.minQuoteDepthUsd) >= 0
        && CompareRatio(TokenRawValueUsd(reading.referenceInputRaw, reading.referenceDecimals, reading.referenceUsd),
                        RatioByBps(reading.minQuoteDepthUsd, 10_000 + reading.maxPriceImpactBps)) <= 0
        && CompareRatio(TokenRawValueUsd(reading.referenceOutputRaw, reading.referenceDecimals, reading.referenceUsd),
                        RatioByBps(reading.minQuoteDepthUsd, 10_000 - reading.maxPriceImpactBps)) >= 0)
  {
    hide TokenRawValueUsd, CompareRatio, RatioByBps, RawAmountForUsd;
    var conservativeQuoteUsd := reading.ConservativeQuoteUsd();
    var target := TargetRaw(reading.minQuoteDepthUsd, conservativeQuoteUsd, reading.quoteDecimals);
    if target.Fail? {
      return Fail(target.error);
    }
    var referenceInputUsd := TokenRawValueUsd(reading.referenceInputRaw, reading.referenceDecimals, reading.referenceUsd);
    var referenceOutputUsd := TokenRawValueUsd(reading.referenceOutputRaw, reading.referenceDecimals, reading.referenceUsd);
    var maxInputUsd := RatioByBps(reading.minQuoteDepthUsd, BPS + reading.maxPriceImpactBps);
    var minOutputUsd := RatioByBps(reading.minQuoteDepthUsd, BPS - reading.maxPriceImpactBps);
    var inputOverMax := CompareRatio(referenceInputUsd, maxInputUsd) > 0;
    var outputUnderMin := CompareRatio(referenceOutputUsd, minOutputUsd) < 0;
    var balanceUnderTarget := reading.quotePoolBalanceRaw < target.value;
    RawAmountGalois(reading.minQuoteDepthUsd, conservativeQuoteUsd, reading.quoteDecimals, reading.quotePoolBalanceRaw);
    return Ok(!(inputOverMax || outputUnderMin || balanceUnderTarget));
  }

  method TargetRaw(usd: Rational, tokenUsd: Rational, decimals: nat) returns (target: Outcome<nat>)
    requires usd.denominator > 0 && tokenUsd.denominator > 0
    ensures target.Ok? <==> tokenUsd.numerator > 0 && usd.numerator > 0
    ensures target.Ok? ==> target == RawAmountForUsd(usd, tokenUsd, decimals)
  {
    var raw := RawAmountForUsd(usd, tokenUsd, decimals);
    if raw.Fail? {
      return raw;
    }
    PositiveTarget(usd, tokenUsd, decimals);
    if raw.value <= 0 {
      return Fail("target_quote_raw_zero");
    }
    return raw;
  }

  lemma PositiveTarget(usd: Rational, tokenUsd: Rational, decimals: nat)
    requires usd.denominator > 0 && tokenUsd.denominator > 0 && tokenUsd.numerator > 0
    ensures RawAmountForUsd(usd, tokenUsd, decimals).value > 0 <==> usd.numerator > 0
  {
    assert usd.denominator * tokenUsd.numerator > 0;
    CeilDivGalois(usd.numerator * tokenUsd.denominator * Pow10(decimals), usd.denominator * tokenUsd.numerator, 0);
    assert tokenUsd.denominator * Pow10(decimals) > 0;
    assert usd.numerator * tokenUsd.denominator * Pow10(decimals) == usd.numerator * (tokenUsd.denominator * Pow10(decimals));
  }

  /** A balance that passes at the conservative price passes at the current and at the mean price. */
  lemma ConservativePriceIsSafe(reading: DepthReading)
    requires reading.WellFormed()
    ensures CompareRatio(reading.ConservativeQuoteUsd(), reading.quoteUsdCurrent) <= 0
    ensures CompareRatio(reading.ConservativeQuoteUsd(), reading.quoteUsdTwap) <= 0
    ensures CompareRatio(TokenRawValueUsd(reading.quotePoolBalanceRaw, reading.quoteDecimals,
                                          reading.ConservativeQuoteUsd()), reading.minQuoteDepthUsd) >= 0 ==>
      && CompareRatio(TokenRawValueUsd(reading.quotePoolBalanceRaw, reading.quoteDecimals, reading.quoteUsdCurrent),
                      reading.minQuoteDepthUsd) >= 0
      && CompareRatio(TokenRawValueUsd(reading.quotePoolBalanceRaw, reading.quoteDecimals, reading.quoteUsdTwap),
                      reading.minQuoteDepthUsd) >= 0
  {
    hide TokenRawValueUsd, CompareRatio, MinRatio;
    var raw, decimals, usd := reading.quotePoolBalanceRaw, reading.quoteDecimals, reading.minQuoteDepthUsd;
    var price := reading.ConservativeQuoteUsd();
    MinRatioIsLeast(reading.quoteUsdCurrent, reading.quoteUsdTwap);
    if CompareRatio(TokenRawValueUsd(raw, decimals, price), usd) >= 0 {
      ValueMonotone(raw, decimals, price, reading.quoteUsdCurrent, usd);
      ValueMonotone(raw, decimals, price, reading.quoteUsdTwap, usd);
    }
  }

  lemma ValueMonotone(raw: nat, decimals: nat, low: Rational, high: Rational, bound: Rational)
    requires low.denominator > 0 && high.denominator > 0 && bound.denominator > 0
    requires CompareRatio(low, high) <= 0
    requires CompareRatio(TokenRawValueUsd(raw, decimals, low), bound) >= 0
    ensures CompareRatio(TokenRawValueUsd(raw, decimals, high), bound) >= 0
  {
    hide TokenRawValueUsd, HasValue;
    var scale := Pow10(decimals);
    RawValue(raw, decimals, low);
    RawValue(raw, decimals, high);
    CompareReduced(TokenRawValueUsd(raw, decimals, low), raw * low.numerator, scale * low.denominator, bound);
    CompareReduced(TokenRawValueUsd(raw, decimals, high), raw * high.numerator, scale * high.denominator, bound);
    CrossMonotone(raw, scale, low, high, bound);
  }

  lemma CrossMonotone(raw: nat, scale: nat, low: Rational, high: Rational, bound: Rational)
    requires low.denominator > 0 && high.denominator > 0
    requires low.numerator * high.denominator <= high.numerator * low.denominator
    requires (raw * low.numerator) * bound.denominator >= bound.numerator * (scale * low.denominator)
    ensures (raw * high.numerator) * bound.denominator >= bound.numerator * (scale * high.denominator)
  {
    var a, b, c, d := low.numerator, low.denominator, high.numerator, high.denominator;
    assert b * ((raw * c) * bound.denominator) >= d * ((raw * a) * bound.denominator) by {
      MulOrder(raw * bound.denominator, c * b, a * d);
      Regroup(b, raw, c, bound.denominator);
      Regroup(d, raw, a, bound.denominator);
    }
    MulOrder(d, (raw * a) * bound.denominator, bound.numerator * (scale * b));
    SwapOuter(d, bound.numerator, scale, b);
    CancelOrder(b, (raw * c) * bound.denominator, bound.numerator * (scale * d));
  }

  lemma Regroup(x: nat, y: nat, z: nat, w: nat)
    ensures x * ((y * z) * w) == (y * w) * (z * x)
  {
    assert (y * z) * w == (y * w) * z;
  }

  lemma SwapOuter(x: nat, y: nat, z: nat, w: nat)
    ensures x * (y * (z * w)) == w * (y * (z * x))
  {
    assert y * (z * w) == (y * z) * w;
    assert y * (z * x) == (y * z) * x;
  }

  // ---------------------------------------------------------------------------
  // The mean tick
  // ---------------------------------------------------------------------------

  /** The language's integer quotient, which truncates toward zero. */
  function TruncDiv(a: int, d: nat): int
    requires d > 0
  {
    if a >= 0 then a / d else -(-a / d)
  }

  const MAX_SAFE_INTEGER: int := 9_007_199_254_740_991

  /** The floor of the mean, unless it is no safe integer. */
  method ArithmeticMeanTick(delta: int, windowSeconds: nat) returns (mean: Outcome<int>)
    requires windowSeconds > 0
    ensures mean.Ok? <==> -9_007_199_254_740_991 * windowSeconds <= delta < 9_007_199_254_740_992 * windowSeconds
    ensures mean.Ok? ==> mean.value * windowSeconds <= delta < (mean.value + 1) * windowSeconds
  {
    var floor := TruncDiv(delta, windowSeconds);
    var remainder := delta - floor * windowSeconds;
    if delta < 0 {
      assert -delta == windowSeconds * (-delta / windowSeconds) + -delta % windowSeconds;
      if remainder != 0 {
        floor := floor - 1;
      }
    }
    FloorWithin(delta, windowSeconds, floor, -MAX_SAFE_INTEGER);
    FloorWithin(delta, windowSeconds, floor, MAX_SAFE_INTEGER + 1);
    if floor < -MAX_SAFE_INTEGER || floor > MAX_SAFE_INTEGER {
      return Fail("twap.meanTick_invalid");
    }
    return Ok(floor);
  }

  lemma FloorWithin(delta: int, divisor: nat, floor: int, bound: int)
    requires divisor > 0 && floor * divisor <= delta < (floor + 1) * divisor
    ensures bound <= floor <==> bound * divisor <= delta
  {
    if bound <= floor {
      MulOrder(divisor, floor, bound);
    } else {
      MulOrder(divisor, bound, floor + 1);
    }
  }
}
