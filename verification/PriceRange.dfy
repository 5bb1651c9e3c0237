/** The price-range builder of the launch form: integer square root, tick search and range alignment. */
module PriceRange {
  import opened Arithmetic
  import opened Outcomes
  import opened TickMath

  const Q192: nat := Q128 * 0x1_0000_0000_0000_0000
  const ONE_TOKEN: nat := 1_000_000_000_000_000_000

  // ---------------------------------------------------------------------------
  // Newton's integer square root
  // ---------------------------------------------------------------------------

  predicate IsFloorSqrt(value: nat, root: nat) {
    root * root <= value < (root + 1) * (root + 1)
  }

  /** The number of binary digits of a positive value. */
  function BitLength(value: nat): nat {
    if value == 0 then 0 else 1 + BitLength(value / 2)
  }

  lemma {:induction false} BitLengthBound(value: nat)
    ensures value < Pow2(BitLength(value))
  {
    if value > 0 {
      BitLengthBound(value / 2);
    }
  }

  lemma {:induction false} Pow2Sum(m: nat, n: nat)
    ensures Pow2(m) * Pow2(n) == Pow2(m + n)
  {
    if m > 0 {
      Pow2Sum(m - 1, n);
      assert Pow2(m) * Pow2(n) == 2 * (Pow2(m - 1) * Pow2(n));
    }
  }

  lemma {:induction false} Pow2Order(m: nat, n: nat)
    requires m <= n
    ensures Pow2(m) <= Pow2(n)
  {
    if m < n {
      Pow2Order(m, n - 1);
    }
  }

  predicate AtOrAboveRoot(value: nat, x: nat) {
    x > 0 && (x + 1) * (x + 1) > value
  }

  lemma SquareAboveIsAbove(value: nat, x: nat)
    requires x > 0 && x * x > value
    ensures AtOrAboveRoot(value, x)
  {
    SquareOrder(x, x + 1);
  }

  lemma FirstGuess(value: nat, half: nat)
    requires BitLength(value) <= 2 * half
    ensures AtOrAboveRoot(value, Pow2(half))
  {
    BitLengthBound(value);
    Pow2Sum(half, half);
    Pow2Order(BitLength(value), half + half);
    SquareAboveIsAbove(value, Pow2(half));
  }

  lemma SquareOrder(a: nat, b: nat)
    requires a <= b
    ensures a * a <= b * b
  {
  }

  lemma MeanSquare(a: int, b: int)
    ensures 4 * (a * b) <= (a + b) * (a + b)
  {
    assert (a + b) * (a + b) == (a - b) * (a - b) + 4 * (a * b);
  }

  lemma QuotientRoundedUp(value: nat, x: nat)
    requires x > 0
    ensures value < x * (value / x + 1)
  {
    assert value == x * (value / x) + value % x;
  }

  /** A Newton step never falls below the root, whatever it starts from. */
  lemma NewtonStepAboveRoot(value: nat, x: nat)
    requires x > 0 && value >= 2
    ensures AtOrAboveRoot(value, (x + value / x) / 2)
  {
    var q := value / x + 1;
    var y := (x + value / x) / 2;
    QuotientRoundedUp(value, x);
    MeanSquare(x, q);
    SquareOrder(x + q, 2 * (y + 1));
    assert (2 * (y + 1)) * (2 * (y + 1)) == 4 * ((y + 1) * (y + 1));
  }

  lemma NewtonFixpoint(value: nat, x: nat)
    requires AtOrAboveRoot(value, x) && (x + value / x) / 2 >= x
    ensures IsFloorSqrt(value, x)
  {
    assert value / x >= x;
    assert x * (value / x) <= value;
    MulOrder(x, value / x, x);
  }

  method IntegerSqrt(value: int) returns (r: Outcome<nat>)
    ensures r.Fail? <==> value < 0
    ensures r.Ok? ==> IsFloorSqrt(value, r.value)
  {
    if value < 0 {
      return Fail("negative_sqrt");
    }
    if value < 2 {
      assert value == 0 || value == 1;
      return Ok(value);
    }
    var x0 := Pow2((BitLength(value) + 1) / 2);
    FirstGuess(value, (BitLength(value) + 1) / 2);
    var x1 := (x0 + value / x0) / 2;
    while x1 < x0
      invariant 0 < x0 && AtOrAboveRoot(value, x0)
      invariant x1 == (x0 + value / x0) / 2
      decreases x0
    {
      NewtonStepAboveRoot(value, x0);
      x0 := x1;
      x1 := (x0 + value / x0) / 2;
    }
    NewtonFixpoint(value, x0);
    return Ok(x0);
  }

  // ---------------------------------------------------------------------------
  // Ticks and square-root prices
  // ---------------------------------------------------------------------------

  /** `tick` is where a square-root price lies: at or above its ratio, below the next one. */
  predicate IsTickOf(sqrtPriceX96: nat, tick: int) {
    MIN_TICK <= tick < MAX_TICK && SqrtRatio(tick) <= sqrtPriceX96 < SqrtRatio(tick + 1)
  }

  lemma TickOfUnique(sqrtPriceX96: nat, t: int, u: int)
    requires IsTickOf(sqrtPriceX96, t) && IsTickOf(sqrtPriceX96, u)
    ensures t == u
  {
    hide SqrtRatio;
    if t + 1 < u {
      SqrtRatioStrictlyIncreasing(t + 1, u);
    } else if u + 1 < t {
      SqrtRatioStrictlyIncreasing(u + 1, t);
    }
  }

  lemma TickOfInvertsRatio(tick: int, found: int)
    requires MIN_TICK <= tick < MAX_TICK
    ensures IsTickOf(SqrtRatio(tick), found) <==> found == tick
  {
    SqrtRatioStep(tick);
    if IsTickOf(SqrtRatio(tick), found) {
      TickOfUnique(SqrtRatio(tick), tick, found);
    }
  }

  /** The ticks at or below a price's tick are those whose ratio is at or below the price. */
  lemma TickGalois(sqrtPriceX96: nat, tick: int, other: int)
    requires IsTickOf(sqrtPriceX96, tick) && TickInRange(other)
    ensures other <= tick <==> SqrtRatio(other) <= sqrtPriceX96
  {
    hide SqrtRatio;
    if other < tick {
      SqrtRatioStrictlyIncreasing(other, tick);
    } else if tick + 1 < other {
      SqrtRatioStrictlyIncreasing(tick + 1, other);
    }
  }

  method SqrtRatioAtTick(tick: int) returns (r: Outcome<nat>)
    ensures r.Ok? <==> TickInRange(tick)
    ensures r.Ok? ==> r.value == SqrtRatio(tick) && IsRootOf(r.value, tick)
  {
    if tick < MIN_TICK || tick > MAX_TICK {
      return Fail("tick_out_of_range");
    }
    hide ScaledBelow, Ratio, Product, MulShift, Reciprocal, RoundUp, IsRootOf;
    var absoluteTick := Magnitude(tick);
    var ratio: nat := Q128;
    ScaledStart(absoluteTick, 0, ratio);
    for bit := 0 to TICK_BITS
      invariant ScaledBelow(absoluteTick, bit, ratio)
    {
      ScaledStep(absoluteTick, bit, ratio);
      if BitSet(absoluteTick, bit) {
        ratio := MulShift(ratio, TICK_MULTIPLIERS[bit]);
      }
    }
    ScaledEnd(absoluteTick, TICK_BITS, ratio);
    if tick > 0 {
      ratio := Reciprocal(ratio);
    }
    SqrtRatioIsRoot(tick, RoundUp(ratio));
    return Ok(RoundUp(ratio));
  }

  method GetTickAtSqrtRatio(sqrtPriceX96: nat) returns (r: Outcome<int>)
    ensures r.Ok? <==> MIN_SQRT_RATIO <= sqrtPriceX96 < MAX_SQRT_RATIO
    ensures r.Ok? ==> IsTickOf(sqrtPriceX96, r.value)
  {
    hide SqrtRatio, IsRootOf;
    var low, high := MIN_TICK, MAX_TICK - 1;
    ExtremeRatios(low, high + 1);
    var least := SqrtRatioAtTick(low);
    var greatest := SqrtRatioAtTick(high + 1);
    if sqrtPriceX96 < least.value || sqrtPriceX96 >= greatest.value {
      return Fail("price_out_of_range");
    }
    while low < high
      invariant MIN_TICK <= low <= high < MAX_TICK
      invariant SqrtRatio(low) <= sqrtPriceX96 < SqrtRatio(high + 1)
    {
      var middle := (low + high + 1) / 2;
      var ratio := SqrtRatioAtTick(middle);
      if ratio.value <= sqrtPriceX96 {
        low := middle;
      } else {
        high := middle - 1;
      }
    }
    return Ok(low);
  }

  // ---------------------------------------------------------------------------
  // The price range
  // ---------------------------------------------------------------------------

  datatype Range = Range(sqrtPriceX96: nat, tickLower: int, tickUpper: int)

  function FloorTo(tick: int, spacing: nat): int
    requires spacing > 0
  {
    tick / spacing * spacing
  }

  function CeilTo(tick: int, spacing: nat): int
    requires spacing > 0
  {
    -FloorTo(-tick, spacing)
  }

  /** `boundary` is the multiple of `spacing` nearest to `tick` among those at or below it. */
  predicate NearestBelow(boundary: int, tick: int, spacing: nat)
    requires spacing > 0
  {
    boundary % spacing == 0 && boundary <= tick < boundary + spacing
  }

  predicate NearestAbove(boundary: int, tick: int, spacing: nat)
    requires spacing > 0
  {
    boundary % spacing == 0 && boundary - spacing < tick <= boundary
  }

  lemma MultipleRemainder(k: int, d: nat)
    requires d > 0
    ensures (k * d) % d == 0
  {
    var q, r := (k * d) / d, (k * d) % d;
    assert k * d == q * d + r;
    assert (k - q) * d == r;
    if k - q >= 1 {
      MulOrder(d, k - q, 1);
    } else if k - q <= -1 {
      MulOrder(d, -1, k - q);
    }
  }

  lemma FloorIsNearest(tick: int, spacing: nat)
    requires spacing > 0
    ensures NearestBelow(FloorTo(tick, spacing), tick, spacing)
  {
    MultipleRemainder(tick / spacing, spacing);
  }

  lemma CeilIsNearest(tick: int, spacing: nat)
    requires spacing > 0
    ensures NearestAbove(CeilTo(tick, spacing), tick, spacing)
  {
    var k := -tick / spacing;
    FloorIsNearest(-tick, spacing);
    assert CeilTo(tick, spacing) == (-k) * spacing;
    MultipleRemainder(-k, spacing);
  }

  lemma MultiplesApart(a: int, b: int, d: nat)
    requires d > 0 && a % d == 0 && b % d == 0 && a < b + d
    ensures a <= b
  {
    var k, l := a / d, b / d;
    assert a == k * d && b == l * d;
    if l < k {
      MulOrder(d, k, l + 1);
    }
  }

  lemma NearestAreFloorAndCeil(boundary: int, tick: int, spacing: nat)
    requires spacing > 0
    ensures NearestBelow(boundary, tick, spacing) <==> boundary == FloorTo(tick, spacing)
    ensures NearestAbove(boundary, tick, spacing) <==> boundary == CeilTo(tick, spacing)
  {
    hide FloorTo, CeilTo;
    FloorIsNearest(tick, spacing);
    CeilIsNearest(tick, spacing);
    if NearestBelow(boundary, tick, spacing) {
      MultiplesApart(boundary, FloorTo(tick, spacing), spacing);
      MultiplesApart(FloorTo(tick, spacing), boundary, spacing);
    }
    if NearestAbove(boundary, tick, spacing) {
      MultiplesApart(boundary, CeilTo(tick, spacing), spacing);
      MultiplesApart(CeilTo(tick, spacing), boundary, spacing);
    }
  }

  /** Zero is aligned, so the last usable ticks lie on either side of it. */
  lemma UsableEndsAreTicks(spacing: nat)
    requires spacing > 0
    ensures MIN_TICK <= CeilTo(MIN_TICK, spacing) <= 0 <= FloorTo(MAX_TICK, spacing) <= MAX_TICK
  {
    hide FloorTo, CeilTo;
    CeilIsNearest(MIN_TICK, spacing);
    FloorIsNearest(MAX_TICK, spacing);
    MultiplesApart(CeilTo(MIN_TICK, spacing), 0, spacing);
    MultiplesApart(0, FloorTo(MAX_TICK, spacing), spacing);
  }

  /** Rounding a tick down gives a tick exactly from the lowest usable tick on. */
  lemma FloorIsTick(tick: int, spacing: nat)
    requires spacing > 0 && TickInRange(tick)
    ensures TickInRange(FloorTo(tick, spacing)) <==> CeilTo(MIN_TICK, spacing) <= tick
  {
    hide FloorTo, CeilTo;
    FloorIsNearest(tick, spacing);
    CeilIsNearest(MIN_TICK, spacing);
    var floor, usable := FloorTo(tick, spacing), CeilTo(MIN_TICK, spacing);
    if usable <= tick {
      MultiplesApart(usable, floor, spacing);
    } else if MIN_TICK <= floor {
      MultiplesApart(usable, floor, spacing);
    }
  }

  /** Rounding a tick up gives a tick exactly up to the highest usable tick. */
  lemma CeilIsTick(tick: int, spacing: nat)
    requires spacing > 0 && TickInRange(tick)
    ensures TickInRange(CeilTo(tick, spacing)) <==> tick <= FloorTo(MAX_TICK, spacing)
  {
    hide FloorTo, CeilTo;
    CeilIsNearest(tick, spacing);
    FloorIsNearest(MAX_TICK, spacing);
    var ceil, usable := CeilTo(tick, spacing), FloorTo(MAX_TICK, spacing);
    if tick <= usable {
      MultiplesApart(ceil, usable, spacing);
    } else if ceil <= MAX_TICK {
      MultiplesApart(ceil, usable, spacing);
    }
  }

  /** The exact ratio behind the rounded square-root price. */
  predicate IsSqrtPriceOf(sqrtPriceX96: nat, numerator: nat, denominator: nat) {
    sqrtPriceX96 * sqrtPriceX96 * denominator <= numerator * Q192
      < (sqrtPriceX96 + 1) * (sqrtPriceX96 + 1) * denominator
  }

  function ScaledQuotient(numerator: nat, denominator: nat): nat
    requires denominator > 0
  {
    numerator * Q192 / denominator
  }

  lemma FloorSqrtOfQuotient(numerator: nat, denominator: nat, root: nat)
    requires denominator > 0 && IsFloorSqrt(ScaledQuotient(numerator, denominator), root)
    ensures IsSqrtPriceOf(root, numerator, denominator)
  {
    var n := numerator * Q192;
    MulOrder(denominator, n / denominator, root * root);
    MulOrder(denominator, (root + 1) * (root + 1), n / denominator + 1);
  }

  function PriceNumerator(quoteForOneToken: nat, launchTokenIsToken0: bool): nat {
    if launchTokenIsToken0 then quoteForOneToken else ONE_TOKEN
  }

  function PriceDenominator(quoteForOneToken: nat, launchTokenIsToken0: bool): nat {
    if launchTokenIsToken0 then ONE_TOKEN else quoteForOneToken
  }

  /** Exactly the prices whose rounded root lies strictly between the extreme ratios. */
  ghost predicate PriceAccepted(quoteForOneToken: nat, launchTokenIsToken0: bool) {
    exists root: nat ::
      && IsSqrtPriceOf(root, PriceNumerator(quoteForOneToken, launchTokenIsToken0),
                       PriceDenominator(quoteForOneToken, launchTokenIsToken0))
      && MIN_SQRT_RATIO < root < MAX_SQRT_RATIO
  }

  lemma SqrtPriceUnique(n: nat, d: nat, r: nat, s: nat)
    requires d > 0 && IsSqrtPriceOf(r, n, d) && IsSqrtPriceOf(s, n, d)
    ensures r == s
  {
    if r < s {
      SquareOrder(r + 1, s);
      MulOrder(d, s * s, (r + 1) * (r + 1));
    } else if s < r {
      SquareOrder(s + 1, r);
      MulOrder(d, r * r, (s + 1) * (s + 1));
    }
  }

  lemma AcceptedByRoot(quoteForOneToken: nat, launchTokenIsToken0: bool, root: nat)
    requires quoteForOneToken > 0
    requires IsSqrtPriceOf(root, PriceNumerator(quoteForOneToken, launchTokenIsToken0),
                           PriceDenominator(quoteForOneToken, launchTokenIsToken0))
    ensures PriceAccepted(quoteForOneToken, launchTokenIsToken0) <==> MIN_SQRT_RATIO < root < MAX_SQRT_RATIO
  {
    var n := PriceNumerator(quoteForOneToken, launchTokenIsToken0);
    var d := PriceDenominator(quoteForOneToken, launchTokenIsToken0);
    forall other: nat | IsSqrtPriceOf(other, n, d) ensures other == root {
      SqrtPriceUnique(n, d, other, root);
    }
  }

  /** The boundary next to the price is the aligned tick nearest to it; the other is the last usable one. */
  predicate AlignedAround(range: Range, tick: int, launchTokenIsToken0: bool, spacing: nat)
    requires spacing > 0
  {
    if launchTokenIsToken0 then
      NearestAbove(range.tickLower, tick, spacing) && NearestBelow(range.tickUpper, MAX_TICK, spacing)
    else
      NearestAbove(range.tickLower, MIN_TICK, spacing) && NearestBelow(range.tickUpper, tick, spacing)
  }

  function AlignRange(sqrtPriceX96: nat, tick: int, launchTokenIsToken0: bool, spacing: nat): (range: Range)
    requires spacing > 0
    ensures range.sqrtPriceX96 == sqrtPriceX96 && AlignedAround(range, tick, launchTokenIsToken0, spacing)
  {
    FloorIsNearest(tick, spacing);
    FloorIsNearest(MAX_TICK, spacing);
    CeilIsNearest(tick, spacing);
    CeilIsNearest(MIN_TICK, spacing);
    if launchTokenIsToken0 then
      Range(sqrtPriceX96, CeilTo(tick, spacing), FloorTo(MAX_TICK, spacing))
    else
      Range(sqrtPriceX96, CeilTo(MIN_TICK, spacing), FloorTo(tick, spacing))
  }

  /** The square-root prices for which both ends of the range are ticks: from the ratio of the lowest usable tick on, or
      below the ratio that follows the highest. */
  predicate UsablePrice(sqrtPriceX96: nat, launchTokenIsToken0: bool, spacing: nat)
    requires spacing > 0
  {
    UsableEndsAreTicks(spacing);
    if launchTokenIsToken0 then
      var last := FloorTo(MAX_TICK, spacing);
      last == MAX_TICK || sqrtPriceX96 < SqrtRatio(last + 1)
    else
      SqrtRatio(CeilTo(MIN_TICK, spacing)) <= sqrtPriceX96
  }

  /** Both ends of an aligned range are ticks exactly for the usable prices. */
  lemma RangeIsTicksExactly(range: Range, tick: int, launchTokenIsToken0: bool, spacing: nat)
    requires spacing > 0 && IsTickOf(range.sqrtPriceX96, tick) && AlignedAround(range, tick, launchTokenIsToken0, spacing)
    ensures TickInRange(range.tickLower) && TickInRange(range.tickUpper)
            <==> UsablePrice(range.sqrtPriceX96, launchTokenIsToken0, spacing)
  {
    hide FloorTo, CeilTo, SqrtRatio, NearestBelow, NearestAbove;
    UsableEndsAreTicks(spacing);
    if launchTokenIsToken0 {
      var last := FloorTo(MAX_TICK, spacing);
      NearestAreFloorAndCeil(range.tickLower, tick, spacing);
      NearestAreFloorAndCeil(range.tickUpper, MAX_TICK, spacing);
      CeilIsTick(tick, spacing);
      if last < MAX_TICK {
        TickGalois(range.sqrtPriceX96, tick, last + 1);
      }
    } else {
      NearestAreFloorAndCeil(range.tickLower, MIN_TICK, spacing);
      NearestAreFloorAndCeil(range.tickUpper, tick, spacing);
      FloorIsTick(tick, spacing);
      TickGalois(range.sqrtPriceX96, tick, CeilTo(MIN_TICK, spacing));
    }
  }

  /** `quoteForOneToken` is the price text already scaled to the quote token's decimals. */
  method BuildPriceRange(quoteForOneToken: int, quoteDecimals: int, launchTokenIsToken0: bool, tickSpacing: nat)
    returns (r: Outcome<Range>)
    requires tickSpacing > 0
    ensures r.Ok? <==> 0 <= quoteDecimals <= 36 && quoteForOneToken > 0
                       && PriceAccepted(quoteForOneToken, launchTokenIsToken0)
    ensures r.Ok? ==> IsSqrtPriceOf(r.value.sqrtPriceX96, PriceNumerator(quoteForOneToken, launchTokenIsToken0),
                                    PriceDenominator(quoteForOneToken, launchTokenIsToken0))
    ensures r.Ok? ==> exists tick :: IsTickOf(r.value.sqrtPriceX96, tick)
                                     && AlignedAround(r.value, tick, launchTokenIsToken0, tickSpacing)
    ensures r.Ok? ==> (TickInRange(r.value.tickLower) && TickInRange(r.value.tickUpper)
                       <==> UsablePrice(r.value.sqrtPriceX96, launchTokenIsToken0, tickSpacing))
  {
    hide UsablePrice, TickInRange;
    hide IsFloorSqrt, IsSqrtPriceOf, IsTickOf, AlignedAround, AlignRange, ScaledQuotient, PriceAccepted;
    if quoteDecimals < 0 || quoteDecimals > 36 {
      return Fail("unsupported_decimals");
    }
    if quoteForOneToken <= 0 {
      return Fail("zero_price");
    }
    var numerator := PriceNumerator(quoteForOneToken, launchTokenIsToken0);
    var denominator := PriceDenominator(quoteForOneToken, launchTokenIsToken0);
    var root := IntegerSqrt(ScaledQuotient(numerator, denominator));
    var sqrtPriceX96 := root.value;
    FloorSqrtOfQuotient(numerator, denominator, sqrtPriceX96);
    AcceptedByRoot(quoteForOneToken, launchTokenIsToken0, sqrtPriceX96);
    if sqrtPriceX96 <= 4_295_128_739
       || sqrtPriceX96 >= 1_461_446_703_485_210_103_287_273_052_203_988_822_378_723_970_342 {
      return Fail("price_out_of_range");
    }
    var current := GetTickAtSqrtRatio(sqrtPriceX96);
    var range := AlignRange(sqrtPriceX96, current.value, launchTokenIsToken0, tickSpacing);
    RangeIsTicksExactly(range, current.value, launchTokenIsToken0, tickSpacing);
    return Ok(range);
  }

  /** The range of a launch token that is token1 ends at a tick at or below the price exactly when the price's tick is
      not below the lowest usable one. */
  lemma UpperBoundaryAtOrBelowPrice(sqrtPriceX96: nat, tick: int, tickUpper: int, spacing: nat)
    requires spacing > 0 && IsTickOf(sqrtPriceX96, tick) && NearestBelow(tickUpper, tick, spacing)
    ensures TickInRange(tickUpper) && SqrtRatio(tickUpper) <= sqrtPriceX96 <==> CeilTo(MIN_TICK, spacing) <= tick
  {
    hide FloorTo, CeilTo, SqrtRatio;
    NearestAreFloorAndCeil(tickUpper, tick, spacing);
    FloorIsTick(tick, spacing);
    if TickInRange(tickUpper) {
      TickGalois(sqrtPriceX96, tick, tickUpper);
    }
  }

  /** The range of a launch token that is token0 starts at a tick at or above the price exactly when the price's tick is
      not above the highest usable one, and is not aligned unless the price is exactly on it. */
  lemma LowerBoundaryAtOrAbovePrice(sqrtPriceX96: nat, tick: int, tickLower: int, spacing: nat)
    requires spacing > 0 && IsTickOf(sqrtPriceX96, tick) && NearestAbove(tickLower, tick, spacing)
    ensures TickInRange(tickLower) && sqrtPriceX96 <= SqrtRatio(tickLower)
            <==> tick <= FloorTo(MAX_TICK, spacing) && (tick % spacing != 0 || sqrtPriceX96 == SqrtRatio(tick))
  {
    hide FloorTo, CeilTo, SqrtRatio;
    NearestAreFloorAndCeil(tickLower, tick, spacing);
    CeilIsTick(tick, spacing);
    AlignedNeighbours(tickLower, tick, spacing);
    if TickInRange(tickLower) && tick < tickLower {
      TickGalois(sqrtPriceX96, tick, tickLower);
    }
  }

  lemma AlignedNeighbours(tickLower: int, tick: int, spacing: nat)
    requires spacing > 0 && NearestAbove(tickLower, tick, spacing)
    ensures tick % spacing == 0 <==> tick == tickLower
  {
    if tick % spacing == 0 {
      MultiplesApart(tickLower, tick, spacing);
    }
  }

  /** The range is non-empty unless the price lies within one spacing of the usable end. */
  lemma RangeNonEmpty(tick: int, boundary: int, usable: int, spacing: nat)
    requires spacing > 0 && usable % spacing == 0
    ensures NearestBelow(boundary, tick, spacing) ==> (usable < boundary <==> usable + spacing <= tick)
    ensures NearestAbove(boundary, tick, spacing) ==> (boundary < usable <==> tick <= usable - spacing)
  {
    if boundary % spacing == 0 && boundary < usable + spacing {
      MultiplesApart(boundary, usable, spacing);
    }
    if boundary % spacing == 0 && usable < boundary + spacing {
      MultiplesApart(usable, boundary, spacing);
    }
  }

  // ---------------------------------------------------------------------------
  // Inputs on which a boundary is no tick or lies on the wrong side
  // ---------------------------------------------------------------------------

  const LOWEST_PRICE: nat := 340_256_786_540_325_221_128_184_995_839_410_440_609_792_047_863_013_514_991
  const HIGHEST_PRICE: nat := 340_256_786_836_388_094_070_642_339_899_681_172_762_184_831_912_254_825_632
  const OFF_TICK_PRICE: nat := 1_000_000_000_000_000_001
  const OFF_TICK_ROOT: nat := 79_228_162_514_264_337_633_158_031_593

  /** An accepted price, and its square root and tick. */
  predicate AcceptedAt(quoteForOneToken: nat, launchTokenIsToken0: bool, sqrtPriceX96: nat, tick: int) {
    && quoteForOneToken > 0 && IsTickOf(sqrtPriceX96, tick) && MIN_SQRT_RATIO < sqrtPriceX96 < MAX_SQRT_RATIO
    && IsSqrtPriceOf(sqrtPriceX96, PriceNumerator(quoteForOneToken, launchTokenIsToken0),
                     PriceDenominator(quoteForOneToken, launchTokenIsToken0))
  }

  lemma AcceptedAtIsAccepted(quoteForOneToken: nat, launchTokenIsToken0: bool, sqrtPriceX96: nat, tick: int)
    requires AcceptedAt(quoteForOneToken, launchTokenIsToken0, sqrtPriceX96, tick)
    ensures PriceAccepted(quoteForOneToken, launchTokenIsToken0)
  {
    hide IsSqrtPriceOf, IsTickOf;
    AcceptedByRoot(quoteForOneToken, launchTokenIsToken0, sqrtPriceX96);
  }

  /** A token1 price at the lowest tick: with the default spacing the upper boundary is no tick, and lies below the
      lower one. */
  lemma UpperBoundaryCanLeaveTickRange(tick: int, spacing: nat)
    requires tick == MIN_TICK && spacing == 200
    ensures AcceptedAt(LOWEST_PRICE, false, MIN_SQRT_RATIO + 1, tick) && PriceAccepted(LOWEST_PRICE, false)
    ensures !TickInRange(FloorTo(tick, spacing)) && FloorTo(tick, spacing) < CeilTo(MIN_TICK, spacing)
  {
    hide IsSqrtPriceOf, Ratio;
    LowestPriceRoot();
    ExtremeRatios(tick, MAX_TICK);
    RatioTwoSteps(887271);
    AcceptedAtIsAccepted(LOWEST_PRICE, false, MIN_SQRT_RATIO + 1, tick);
  }

  lemma LowestPriceRoot()
    ensures IsSqrtPriceOf(MIN_SQRT_RATIO + 1, ONE_TOKEN, LOWEST_PRICE)
  {
  }

  /** A token0 price at the highest tick that has prices: with the default spacing the lower boundary is no tick, and
      lies above the upper one. */
  lemma LowerBoundaryCanLeaveTickRange(tick: int, spacing: nat)
    requires tick == MAX_TICK - 1 && spacing == 200
    ensures AcceptedAt(HIGHEST_PRICE, true, MAX_SQRT_RATIO - 1, tick) && PriceAccepted(HIGHEST_PRICE, true)
    ensures !TickInRange(CeilTo(tick, spacing)) && FloorTo(MAX_TICK, spacing) < CeilTo(tick, spacing)
  {
    hide IsSqrtPriceOf, SqrtRatio;
    HighestPriceRoot();
    ExtremeRatios(MIN_TICK, tick + 1);
    SqrtRatioStep(tick);
    AcceptedAtIsAccepted(HIGHEST_PRICE, true, MAX_SQRT_RATIO - 1, tick);
  }

  lemma HighestPriceRoot()
    ensures IsSqrtPriceOf(MAX_SQRT_RATIO - 1, HIGHEST_PRICE, ONE_TOKEN)
  {
  }

  /** A token0 price just above an aligned tick: the range starts at the tick, below the price. */
  lemma LowerBoundaryCanLieBelowPrice(tick: int, spacing: nat)
    requires tick == 0 && spacing == 200
    ensures AcceptedAt(OFF_TICK_PRICE, true, OFF_TICK_ROOT, tick) && PriceAccepted(OFF_TICK_PRICE, true)
    ensures CeilTo(tick, spacing) == tick && SqrtRatio(tick) < OFF_TICK_ROOT
  {
    hide IsSqrtPriceOf, Ratio;
    OffTickRoot();
    RatioOfZero(tick);
    RatioOfOne(tick + 1);
    OffTickRatios(Ratio(tick), Ratio(tick + 1));
    assert IsTickOf(OFF_TICK_ROOT, tick);
    AcceptedAtIsAccepted(OFF_TICK_PRICE, true, OFF_TICK_ROOT, tick);
  }

  lemma OffTickRoot()
    ensures IsSqrtPriceOf(OFF_TICK_ROOT, OFF_TICK_PRICE, ONE_TOKEN)
  {
  }

  lemma RatioOfOne(magnitude: nat)
    requires magnitude == 1
    ensures Ratio(magnitude) == TICK_MULTIPLIERS[0]
  {
    ProductUnfold(magnitude, 0, Q128);
    ProductOfZero(magnitude / 2, 1, Scale(Q128, 0));
  }

  lemma OffTickRatios(zero: nat, one: nat)
    requires zero == Q128 && one == TICK_MULTIPLIERS[0]
    ensures RoundUp(zero) < OFF_TICK_ROOT < RoundUp(Reciprocal(one))
  {
  }

  lemma RatioTwoSteps(magnitude: nat)
    requires 0 < magnitude < MAX_TICK
    ensures RoundUp(Ratio(magnitude + 1)) + 1 < RoundUp(Ratio(magnitude))
  {
    RatioStep(magnitude);
  }
}
