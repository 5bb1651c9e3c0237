/** The fixed-point tick ratio, its strict monotonicity and the binary search over it. */
module TickMath {
  import opened Arithmetic

  const Q32: nat := 0x1_0000_0000
  const Q128: nat := 0x1_0000_0000_0000_0000_0000_0000_0000_0000
  const MAX_UINT256: nat := Q128 * Q128 - 1
  const MIN_TICK: int := -887272
  const MAX_TICK: int := 887272
  const TICK_BITS: nat := 20

  const TICK_MULTIPLIERS: seq<nat> := [
    0xfffcb933bd6fad37aa2d162d1a594001,
    0xfff97272373d413259a46990580e213a,
    0xfff2e50f5f656932ef12357cf3c7fdcc,
    0xffe5caca7e10e4e61c3624eaa0941cd0,
    0xffcb9843d60f6159c9db58835c926644,
    0xff973b41fa98c081472e6896dfb254c0,
    0xff2ea16466c96a3843ec78b326b52861,
    0xfe5dee046a99a2a811c461f1969c3053,
    0xfcbe86c7900a88aedcffc83b479aa3a4,
    0xf987a7253ac413176f2b074cf7815e54,
    0xf3392b0822b70005940c7a398e4b70f3,
    0xe7159475a2c29b7443b29c7fa6e889d9,
    0xd097f3bdfd2022b8845ad8f792aa5825,
    0xa9f746462d870fdf8a65dc1f90e061e5,
    0x70d869a156d2a1b890bb3df62baf32f7,
    0x31be135f97d08fd981231505542fcfa6,
    0x9aa508b5b7a84e1c677de54f3e99bc9,
    0x5d6af8dedb81196699c329225ee604,
    0x2216e584f5fa1ea926041bedfe98,
    0x48a170391f7dc42444e8fa2
  ]

  /** Entry k is the truncated product of the first k multipliers: the ratio of tick 2^k - 1. */
  const LOW_PRODUCTS: seq<nat> := [
    0x100000000000000000000000000000000,
    0xfffcb933bd6fad37aa2d162d1a594001,
    0xfff62bbb6d458ec3c792106391dc463e,
    0xffe9114b9cf28d394c3203dbd44eb085,
    0xffcede6f1d8be90b88f350424e84e5b7,
    0xff9a80c1ada7480b1daa871d7c4d9b36,
    0xff31e58d5a53c84fc142023ec1b1dfd7,
    0xfe612f8183b1ea21b72fb71b03542ae4,
    0xfcc1c2f380536bc67ee1ff564d1080b2,
    0xf98ad8c8d7ecc0a3f8a42c9724cffb6a,
    0xf33c480189b415235ad119427d89a1f6,
    0xe71889a85903fd03cb7cc40bdf371a9c,
    0xd09a9f3e93db5812d4820c2fc67a3e3a,
    0xa9f973345b9e647c4163af91d00b255f,
    0x70d9db6485f04ddd567e07c7b89f8e7c,
    0x31beb65d91af63ae717a760be3b374dc,
    0x9aa7036fd2355429c4030b032e1cf71,
    0x5d6c2af97aaa8de0e5a6bf23f5e547,
    0x221755388a6658e120f4a3c503cf,
    0x48a25e36942a4fc0c1f899f,
    0x149b7873d84d48
  ]

  /** The ratios at the extreme ticks, as the price-range builder writes them. */
  const MIN_SQRT_RATIO: nat := 4_295_128_739
  const MAX_SQRT_RATIO: nat := 1_461_446_703_485_210_103_287_273_052_203_988_822_378_723_970_342

  /** A tick step changes the ratio by at least one part in STEP_PARTS, up to truncation. */
  const STEP_PARTS: nat := 20001

  function Pow2(n: nat): (p: nat)
    ensures p >= 1
  {
    if n == 0 then 1 else 2 * Pow2(n - 1)
  }

  function ShiftRight(n: nat, bits: nat): nat {
    if bits == 0 then n else ShiftRight(n, bits - 1) / 2
  }

  predicate BitSet(n: nat, bit: nat) {
    ShiftRight(n, bit) % 2 == 1
  }

  predicate TickInRange(tick: int) {
    MIN_TICK <= tick <= MAX_TICK
  }

  function Magnitude(tick: int): nat {
    if tick < 0 then -tick else tick
  }

  /** A product of fixed-point numbers with 128 fractional bits, truncated. */
  function MulShift(ratio: nat, multiplier: nat): nat {
    ratio * multiplier / Q128
  }

  function Scale(ratio: nat, bit: nat): nat
    requires bit < TICK_BITS
  {
    MulShift(ratio, TICK_MULTIPLIERS[bit])
  }

  /** `ratio` scaled by the multipliers of the bits of `rest`, whose lowest bit is number `bit`. */
  function Product(rest: nat, bit: nat, ratio: nat): nat
    requires bit <= TICK_BITS
    decreases TICK_BITS - bit
  {
    if bit == TICK_BITS then ratio
    else Product(rest / 2, bit + 1, if rest % 2 == 1 then Scale(ratio, bit) else ratio)
  }

  function Ratio(magnitude: nat): (ratio: nat)
    ensures 1_000_000_000_000_000 < ratio <= Q128
  {
    RatioBounds(magnitude);
    Product(magnitude, 0, Q128)
  }

  function RoundUp(ratio: nat): nat {
    ratio / Q32 + if ratio % Q32 == 0 then 0 else 1
  }

  function Reciprocal(ratio: nat): nat
    requires ratio > 0
  {
    MAX_UINT256 / ratio
  }

  /** The square-root price at a tick, in units of 2^-96. */
  function SqrtRatio(tick: int): nat
    requires TickInRange(tick)
  {
    var ratio := Ratio(Magnitude(tick));
    RoundUp(if tick > 0 then Reciprocal(ratio) else ratio)
  }

  // ---------------------------------------------------------------------------
  // Numeric facts about the table
  // ---------------------------------------------------------------------------

  lemma MultiplierBounds(k: nat)
    requires k < TICK_BITS
    ensures 0 < TICK_MULTIPLIERS[k] < Q128
  {
  }

  lemma LowProductStep(k: nat)
    requires k < TICK_BITS
    ensures LOW_PRODUCTS[k + 1] == Scale(LOW_PRODUCTS[k], k)
  {
    assert k == 0 || k == 1 || k == 2 || k == 3 || k == 4 || k == 5 || k == 6 || k == 7 || k == 8 || k == 9
        || k == 10 || k == 11 || k == 12 || k == 13 || k == 14 || k == 15 || k == 16 || k == 17 || k == 18 || k == 19;
  }

  /** Tick 2^k lies below tick 2^k - 1 by one part in STEP_PARTS. */
  lemma PowerOfTwoGap(k: nat)
    requires k < TICK_BITS
    ensures Scale(Q128, k) == TICK_MULTIPLIERS[k]
    ensures Gap(LOW_PRODUCTS[k], TICK_MULTIPLIERS[k], 0)
  {
    assert k == 0 || k == 1 || k == 2 || k == 3 || k == 4 || k == 5 || k == 6 || k == 7 || k == 8 || k == 9
        || k == 10 || k == 11 || k == 12 || k == 13 || k == 14 || k == 15 || k == 16 || k == 17 || k == 18 || k == 19;
  }

  // ---------------------------------------------------------------------------
  // Strict monotonicity: the carry argument
  // ---------------------------------------------------------------------------

  /** `high` exceeds `low` by one part in STEP_PARTS, give or take one unit for each truncation. */
  predicate Gap(high: nat, low: nat, truncations: nat) {
    STEP_PARTS * (high - low) >= low - STEP_PARTS * truncations
  }

  lemma ScaleKeepsOrder(high: nat, low: nat, bit: nat)
    requires bit < TICK_BITS && low <= high
    ensures Scale(low, bit) <= Scale(high, bit) <= high
  {
    MultiplierBounds(bit);
    var m := TICK_MULTIPLIERS[bit];
    assert low * m <= high * m <= high * Q128;
    DivOrder(low * m, high * m);
    DivOrder(high * m, high * Q128);
  }

  lemma DivOrder(a: nat, b: nat)
    requires a <= b
    ensures a / Q128 <= b / Q128
  {
  }

  lemma ScaleKeepsGap(high: nat, low: nat, truncations: nat, bit: nat)
    requires bit < TICK_BITS && Gap(high, low, truncations)
    ensures Gap(Scale(high, bit), Scale(low, bit), truncations + 1)
  {
    MultiplierBounds(bit);
    var m := TICK_MULTIPLIERS[bit];
    var high', low' := Scale(high, bit), Scale(low, bit);
    ScaledGap(high, low, truncations, m);
    assert high' * Q128 > high * m - Q128;
    assert low' * Q128 <= low * m;
    assert STEP_PARTS * (high' - low') * Q128 > m * (low - STEP_PARTS * truncations) - STEP_PARTS * Q128;
    assert m * (low - STEP_PARTS * truncations) >= low' * Q128 - STEP_PARTS * truncations * Q128;
  }

  lemma ScaledGap(high: nat, low: nat, truncations: nat, m: nat)
    requires Gap(high, low, truncations) && 0 < m < Q128
    ensures STEP_PARTS * (high * m) - STEP_PARTS * (low * m) >= m * (low - STEP_PARTS * truncations)
    ensures m * (low - STEP_PARTS * truncations) >= low * m - STEP_PARTS * truncations * Q128
  {
    MulOrder(m, STEP_PARTS * (high - low), low - STEP_PARTS * truncations);
    assert m * (STEP_PARTS * (high - low)) == STEP_PARTS * (high * m) - STEP_PARTS * (low * m);
    var t := STEP_PARTS * truncations;
    assert m * (low - t) == low * m - m * t;
    MulOrder(t, Q128, m);
  }

  lemma {:induction false} ProductKeepsGap(rest: nat, bit: nat, high: nat, low: nat)
    requires bit <= TICK_BITS && Gap(high, low, bit)
    ensures Gap(Product(rest, bit, high), Product(rest, bit, low), TICK_BITS)
    decreases TICK_BITS - bit
  {
    if bit < TICK_BITS {
      if rest % 2 == 1 {
        ScaleKeepsGap(high, low, bit, bit);
        ProductKeepsGap(rest / 2, bit + 1, Scale(high, bit), Scale(low, bit));
      } else {
        ProductKeepsGap(rest / 2, bit + 1, high, low);
      }
    }
  }

  lemma ProductUnfold(rest: nat, bit: nat, ratio: nat)
    requires bit < TICK_BITS
    ensures Product(rest, bit, ratio)
         == Product(rest / 2, bit + 1, if rest % 2 == 1 then Scale(ratio, bit) else ratio)
  {
  }

  /** Adding one clears a run of low set bits and sets the next; the bits above it are shared. */
  lemma {:induction false} CarryGap(rest: nat, bit: nat)
    requires bit < TICK_BITS && rest + 1 < Pow2(TICK_BITS - bit)
    ensures Gap(Product(rest, bit, LOW_PRODUCTS[bit]), Product(rest + 1, bit, Q128), TICK_BITS)
    decreases TICK_BITS - bit
  {
    hide Gap, Scale, Product;
    LowProductStep(bit);
    ProductUnfold(rest, bit, LOW_PRODUCTS[bit]);
    ProductUnfold(rest + 1, bit, Q128);
    if rest % 2 == 0 {
      assert (rest + 1) / 2 == rest / 2;
      PowerOfTwoGap(bit);
      ProductKeepsGap(rest / 2, bit + 1, LOW_PRODUCTS[bit], TICK_MULTIPLIERS[bit]);
    } else {
      assert (rest + 1) / 2 == rest / 2 + 1;
      CarryGap(rest / 2, bit + 1);
    }
  }

  lemma {:induction false} ProductAboveFloor(rest: nat, bit: nat, ratio: nat)
    requires bit <= TICK_BITS && LOW_PRODUCTS[bit] <= ratio
    ensures LOW_PRODUCTS[TICK_BITS] <= Product(rest, bit, ratio)
    decreases TICK_BITS - bit
  {
    if bit < TICK_BITS {
      LowProductStep(bit);
      ScaleKeepsOrder(ratio, LOW_PRODUCTS[bit], bit);
      ProductAboveFloor(rest / 2, bit + 1, if rest % 2 == 1 then Scale(ratio, bit) else ratio);
    }
  }

  lemma {:induction false} ProductBelowStart(rest: nat, bit: nat, ratio: nat)
    requires bit <= TICK_BITS
    ensures Product(rest, bit, ratio) <= ratio
    decreases TICK_BITS - bit
  {
    if bit < TICK_BITS {
      ScaleKeepsOrder(ratio, ratio, bit);
      ProductBelowStart(rest / 2, bit + 1, if rest % 2 == 1 then Scale(ratio, bit) else ratio);
    }
  }

  /** `ratio` has been scaled by the multipliers of the bits below `bit` of `magnitude`. */
  ghost predicate ScaledBelow(magnitude: nat, bit: nat, ratio: nat)
    requires bit <= TICK_BITS
  {
    Product(ShiftRight(magnitude, bit), bit, ratio) == Ratio(magnitude)
  }

  lemma ScaledStart(magnitude: nat, bit: nat, ratio: nat)
    requires bit == 0 && ratio == Q128
    ensures ScaledBelow(magnitude, bit, ratio)
  {
  }

  lemma ScaledStep(magnitude: nat, bit: nat, ratio: nat)
    requires bit < TICK_BITS && ScaledBelow(magnitude, bit, ratio)
    ensures ScaledBelow(magnitude, bit + 1, if BitSet(magnitude, bit) then Scale(ratio, bit) else ratio)
  {
    ProductUnfold(ShiftRight(magnitude, bit), bit, ratio);
  }

  lemma ScaledEnd(magnitude: nat, bit: nat, ratio: nat)
    requires bit == TICK_BITS && ScaledBelow(magnitude, bit, ratio)
    ensures ratio == Ratio(magnitude)
  {
  }

  lemma RatioBounds(magnitude: nat)
    ensures 1_000_000_000_000_000 < LOW_PRODUCTS[TICK_BITS] <= Product(magnitude, 0, Q128) <= Q128
  {
    ProductAboveFloor(magnitude, 0, Q128);
    ProductBelowStart(magnitude, 0, Q128);
  }

  /** Successive magnitudes have ratios far enough apart for both final roundings. */
  lemma RatioStep(magnitude: nat)
    requires magnitude < MAX_TICK
    ensures Ratio(magnitude) - Ratio(magnitude + 1) >= Q32
    ensures 2 * STEP_PARTS * (Ratio(magnitude) - Ratio(magnitude + 1)) >= Ratio(magnitude + 1)
  {
    Pow2OfTickBits();
    CarryGap(magnitude, 0);
  }

  lemma Pow2OfTickBits()
    ensures Pow2(TICK_BITS) == 1_048_576
  {
    assert Pow2(10) == 1024;
    assert Pow2(15) == 32 * Pow2(10);
    assert Pow2(20) == 32 * Pow2(15);
  }

  lemma RoundUpStep(low: nat, high: nat)
    requires high - low >= Q32
    ensures RoundUp(low) < RoundUp(high)
  {
  }

  /** A quotient grows by at least `k` when the divisor shrinks by enough. */
  lemma QuotientGrows(n: nat, high: nat, low: nat, k: nat)
    requires 0 < low < high && (high - low) * (n / high) >= k * low
    ensures n / low >= n / high + k
  {
    var u := n / high;
    Distribute(u, k, low);
    Distribute(high - low, low, u);
    QuotientAtLeast(n, low, u + k);
  }

  lemma LargeFactor(gap: nat, low: nat, parts: nat, k: nat, u: nat)
    requires parts * gap >= low && u >= parts * k
    ensures gap * u >= k * low
  {
    MulOrder(gap, u, parts * k);
    Associate(parts, gap, k);
    MulOrder(k, parts * gap, low);
  }

  lemma ReciprocalStep(high: nat, low: nat)
    requires 0 < low < high <= Q128
    requires 2 * STEP_PARTS * (high - low) >= low
    ensures Reciprocal(low) - Reciprocal(high) >= 2 * Q32
  {
    MulOrder(Q128 - 1, Q128, high);
    QuotientAtLeast(MAX_UINT256, high, Q128 - 1);
    LargeFactor(high - low, low, 2 * STEP_PARTS, 2 * Q32, MAX_UINT256 / high);
    QuotientGrows(MAX_UINT256, high, low, 2 * Q32);
  }

  lemma DescendingStep(magnitude: nat)
    requires magnitude < MAX_TICK
    ensures RoundUp(Ratio(magnitude + 1)) < RoundUp(Ratio(magnitude))
  {
    RatioStep(magnitude);
    RoundUpStep(Ratio(magnitude + 1), Ratio(magnitude));
  }

  lemma AscendingStep(magnitude: nat)
    requires magnitude < MAX_TICK
    ensures RoundUp(Reciprocal(Ratio(magnitude))) < RoundUp(Reciprocal(Ratio(magnitude + 1)))
    ensures magnitude == 0 ==> RoundUp(Ratio(magnitude)) < RoundUp(Reciprocal(Ratio(magnitude + 1)))
  {
    hide RoundUp, Reciprocal, Ratio;
    RatioStep(magnitude);
    ReciprocalStep(Ratio(magnitude), Ratio(magnitude + 1));
    ReciprocalGap(Ratio(magnitude), Ratio(magnitude + 1));
    if magnitude == 0 {
      RatioOfZero(magnitude);
    }
  }

  lemma ReciprocalGap(high: nat, low: nat)
    requires 0 < low && 0 < high
    requires Reciprocal(low) - Reciprocal(high) >= 2 * Q32
    ensures RoundUp(Reciprocal(high)) < RoundUp(Reciprocal(low))
    ensures high == Q128 ==> RoundUp(high) < RoundUp(Reciprocal(low))
  {
    RoundUpStep(Reciprocal(high), Reciprocal(low));
    if high == Q128 {
      assert Reciprocal(high) == Q128 - 1;
      RoundUpStep(high, Reciprocal(low));
    }
  }

  lemma SqrtRatioStep(tick: int)
    requires MIN_TICK <= tick < MAX_TICK
    ensures SqrtRatio(tick) < SqrtRatio(tick + 1)
  {
    hide Ratio;
    if tick < 0 {
      DescendingStep(-tick - 1);
    } else {
      AscendingStep(tick);
    }
  }

  /** The rounding is the ceiling. */
  lemma RoundUpIsCeiling(ratio: nat, q: nat)
    ensures RoundUp(ratio) <= q <==> ratio <= q * Q32
  {
  }

  /** `root` is the least number of units of 2^-96 that is not below the tick's 128-bit ratio, which for a positive tick
      is the truncated quotient of the largest 256-bit number by the ratio of its magnitude. */
  predicate IsRootOf(root: nat, tick: int) {
    var ratio := Ratio(Magnitude(tick));
    if tick > 0 then
      ((root - 1) * Q32 + 1) * ratio <= MAX_UINT256 < (root * Q32 + 1) * ratio
    else
      (root - 1) * Q32 < ratio <= root * Q32
  }

  lemma SqrtRatioIsRoot(tick: int, root: nat)
    requires TickInRange(tick)
    ensures IsRootOf(root, tick) <==> root == SqrtRatio(tick)
  {
    hide Ratio, RoundUp, Reciprocal;
    var ratio := Ratio(Magnitude(tick));
    if tick > 0 {
      QuotientReaches(MAX_UINT256, ratio, root * Q32);
      QuotientReaches(MAX_UINT256, ratio, (root - 1) * Q32);
      ReciprocalIsQuotient(ratio);
      CeilingBracket(Reciprocal(ratio), root);
    } else {
      CeilingBracket(ratio, root);
    }
  }

  lemma ReciprocalIsQuotient(ratio: nat)
    requires ratio > 0
    ensures Reciprocal(ratio) == MAX_UINT256 / ratio
  {
  }

  lemma CeilingBracket(ratio: nat, root: nat)
    ensures (root - 1) * Q32 < ratio <= root * Q32 <==> root == RoundUp(ratio)
  {
  }

  lemma QuotientReaches(n: nat, d: nat, q: int)
    requires d > 0
    ensures n / d <= q <==> n < (q + 1) * d
  {
    assert n == d * (n / d) + n % d;
    if n / d <= q {
      MulOrder(d, q, n / d);
    } else {
      MulOrder(d, n / d, q + 1);
    }
  }

  lemma MiddleRatio(tick: int)
    requires tick == 0
    ensures SqrtRatio(tick) == 0x1_0000_0000_0000_0000_0000_0000
  {
    RatioOfZero(tick);
  }

  lemma RatioOfZero(magnitude: nat)
    requires magnitude == 0
    ensures Ratio(magnitude) == Q128
  {
    ProductOfZero(magnitude, 0, Q128);
  }

  lemma {:induction false} ProductOfZero(rest: nat, bit: nat, ratio: nat)
    requires bit <= TICK_BITS && rest == 0
    ensures Product(rest, bit, ratio) == ratio
    decreases TICK_BITS - bit
  {
    if bit < TICK_BITS {
      ProductOfZero(rest / 2, bit + 1, ratio);
    }
  }

  lemma {:induction false} SqrtRatioStrictlyIncreasing(low: int, high: int)
    requires MIN_TICK <= low < high <= MAX_TICK
    ensures SqrtRatio(low) < SqrtRatio(high)
    decreases high - low
  {
    SqrtRatioStep(high - 1);
    if low < high - 1 {
      SqrtRatioStrictlyIncreasing(low, high - 1);
    }
  }

  // The run of the multiplier loop on the extreme magnitude: the remaining bits and the ratio before each bit.

  const EXTREME_RESTS: seq<nat> := [
    887272, 443636, 221818, 110909, 55454, 27727, 13863, 6931, 3465, 1732, 866,
    433, 216, 108, 54, 27, 13, 6, 3, 1, 0
  ]

  const EXTREME_RATIOS: seq<nat> := [
    0x100000000000000000000000000000000, 0x100000000000000000000000000000000, 0x100000000000000000000000000000000,
    0x100000000000000000000000000000000, 0xffe5caca7e10e4e61c3624eaa0941cd0, 0xffe5caca7e10e4e61c3624eaa0941cd0,
    0xff7d10c63a977157da4140deb6f31a7b, 0xfeac1d4052f7714818b490c1138ea058, 0xfd0c3654da9e033741d1a9f93707f6f6,
    0xf9d459c5817dbafa9e376ae84dcfeb8b, 0xf9d459c5817dbafa9e376ae84dcfeb8b, 0xf9d459c5817dbafa9e376ae84dcfeb8b,
    0xe183ac4e25d5949966242a64e9c80e2f, 0xe183ac4e25d5949966242a64e9c80e2f, 0xe183ac4e25d5949966242a64e9c80e2f,
    0xe183ac4e25d5949966242a64e9c80e2f, 0x2bd1a4c5d2a1181aca1ef15e64c2e3cf, 0x1a785cbbdc050483e3be5812760be73,
    0x1a785cbbdc050483e3be5812760be73, 0x3865a6455d07d2bc87c5956d2e, 0x1000276a221a17501
  ]

  lemma ExtremeStep(k: nat)
    requires k < TICK_BITS
    ensures EXTREME_RESTS[k + 1] == EXTREME_RESTS[k] / 2
    ensures EXTREME_RATIOS[k + 1] == if EXTREME_RESTS[k] % 2 == 1 then Scale(EXTREME_RATIOS[k], k) else EXTREME_RATIOS[k]
  {
    assert k == 0 || k == 1 || k == 2 || k == 3 || k == 4 || k == 5 || k == 6 || k == 7 || k == 8 || k == 9
        || k == 10 || k == 11 || k == 12 || k == 13 || k == 14 || k == 15 || k == 16 || k == 17 || k == 18 || k == 19;
  }

  lemma {:induction false} ExtremeProduct(k: nat)
    requires k <= TICK_BITS
    ensures Product(EXTREME_RESTS[k], k, EXTREME_RATIOS[k]) == EXTREME_RATIOS[TICK_BITS]
    decreases TICK_BITS - k
  {
    if k < TICK_BITS {
      ExtremeStep(k);
      ExtremeProduct(k + 1);
    }
  }

  lemma ExtremeRatio(magnitude: nat)
    requires magnitude == 887272
    ensures Ratio(magnitude) == EXTREME_RATIOS[TICK_BITS]
  {
    ExtremeProduct(0);
  }

  lemma ExtremeRoundings(ratio: nat)
    requires ratio == EXTREME_RATIOS[TICK_BITS]
    ensures RoundUp(ratio) == MIN_SQRT_RATIO
    ensures RoundUp(Reciprocal(ratio)) == MAX_SQRT_RATIO
  {
  }

  lemma ExtremeRatios(low: int, high: int)
    requires low == MIN_TICK && high == MAX_TICK
    ensures SqrtRatio(low) == MIN_SQRT_RATIO
    ensures SqrtRatio(high) == MAX_SQRT_RATIO
  {
    ExtremeRatio(high);
    ExtremeRoundings(Ratio(high));
  }
}
