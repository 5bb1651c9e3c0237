/** Decimal text of exact ratios: the digit-by-digit printer, the strict parser and what they say to each other. */
module DecimalText {
  import opened Arithmetic
  import opened Eligibility
  import opened Outcomes
  import opened Rationals

  const MAX_FRACTION_DIGITS: nat := 18

  predicate IsDigit(c: char) {
    '0' <= c <= '9'
  }

  predicate AllDigits(s: string) {
    forall i :: 0 <= i < |s| ==> IsDigit(s[i])
  }

  function DigitChar(d: nat): (c: char)
    requires d < 10
    ensures IsDigit(c) && DigitValue(c) == d
  {
    '0' + d as char
  }

  function DigitValue(c: char): nat
    requires IsDigit(c)
  {
    (c - '0') as nat
  }

  /** The number a run of digits denotes. */
  function DigitsValue(s: string): nat
    requires AllDigits(s)
  {
    if s == "" then 0 else 10 * DigitsValue(s[..|s| - 1]) + DigitValue(s[|s| - 1])
  }

  function ToDecimal(n: nat): (s: string)
    ensures s != "" && AllDigits(s) && DigitsValue(s) == n
    ensures n > 0 ==> s[0] != '0'
    ensures n == 0 ==> s == "0"
  {
    if n < 10 then
      var s := [DigitChar(n)];
      assert s[..|s| - 1] == "";
      s
    else
      var s := ToDecimal(n / 10) + [DigitChar(n % 10)];
      assert s[..|s| - 1] == ToDecimal(n / 10);
      s
  }

  lemma {:induction false} DigitsValueAppend(s: string, t: string)
    requires AllDigits(s) && AllDigits(t)
    ensures AllDigits(s + t) && DigitsValue(s + t) == DigitsValue(s) * Pow10(|t|) + DigitsValue(t)
  {
    if t == "" {
      assert s + t == s;
    } else {
      var t' := t[..|t| - 1];
      DigitsValueAppend(s, t');
      assert (s + t)[..|s + t| - 1] == s + t';
      assert DigitsValue(s) * Pow10(|t|) == 10 * (DigitsValue(s) * Pow10(|t'|));
    }
  }

  lemma {:induction false} Pow10Sum(m: nat, n: nat)
    ensures Pow10(m) * Pow10(n) == Pow10(m + n)
  {
    if m > 0 {
      Pow10Sum(m - 1, n);
      assert Pow10(m) * Pow10(n) == 10 * (Pow10(m - 1) * Pow10(n));
    }
  }

  // ---------------------------------------------------------------------------
  // Serialised rationals
  // ---------------------------------------------------------------------------

  datatype SerializedRational = SerializedRational(numerator: string, denominator: string)

  function SerializeBaseRatio(r: Rational): SerializedRational {
    SerializedRational(ToDecimal(r.numerator), ToDecimal(r.denominator))
  }

  function ParseSerialized(s: SerializedRational): Outcome<Rational>
    requires AllDigits(s.numerator) && AllDigits(s.denominator)
  {
    if DigitsValue(s.denominator) == 0 then Fail("ratio_denominator_invalid")
    else Ok(Reduce(DigitsValue(s.numerator), DigitsValue(s.denominator)))
  }

  lemma SerializationRoundTrip(r: Rational)
    requires r.denominator > 0
    ensures ParseSerialized(SerializeBaseRatio(r)) == Ok(r) <==> Canonical(r)
  {
    if Canonical(r) {
      ReduceIsCanonicalForm(r, r.numerator, r.denominator);
    }
  }

  // ---------------------------------------------------------------------------
  // The parser
  // ---------------------------------------------------------------------------

  function DotIndex(s: string): (i: nat)
    ensures i <= |s| && (i < |s| ==> s[i] == '.') && '.' !in s[..i]
  {
    if s == "" || s[0] == '.' then 0 else 1 + DotIndex(s[1..])
  }

  /** Digits, optionally followed by a dot and one to eighteen more. The text is already trimmed. */
  function ParseDecimalRational(text: string): (r: Outcome<Rational>)
    ensures r.Ok? ==> Canonical(r.value)
  {
    var i := DotIndex(text);
    var whole := text[..i];
    if whole == "" || !AllDigits(whole) then
      Fail("invalid")
    else if i == |text| then
      Ok(Reduce(DigitsValue(whole), 1))
    else
      var fraction := text[i + 1..];
      if 1 <= |fraction| <= MAX_FRACTION_DIGITS && AllDigits(fraction) then
        DigitsValueAppend(whole, fraction);
        Ok(Reduce(DigitsValue(whole + fraction), Pow10(|fraction|)))
      else
        Fail("invalid")
  }

  /** `text` writes the number `scaled` / 10^`places` with exactly `places` digits after the dot. */
  ghost predicate Denotes(text: string, scaled: nat, places: nat) {
    exists whole: string, fraction: string ::
      && text == (if places == 0 then whole else whole + "." + fraction)
      && whole != "" && |fraction| == places && AllDigits(whole) && AllDigits(fraction) && AllDigits(whole + fraction)
      && DigitsValue(whole + fraction) == scaled
  }

  lemma ParseOfDenoted(text: string, scaled: nat, places: nat)
    requires Denotes(text, scaled, places) && places <= MAX_FRACTION_DIGITS
    ensures ParseDecimalRational(text) == Ok(Reduce(scaled, Pow10(places)))
  {
    var whole, fraction :|
      && text == (if places == 0 then whole else whole + "." + fraction)
      && whole != "" && |fraction| == places && AllDigits(whole) && AllDigits(fraction) && AllDigits(whole + fraction)
      && DigitsValue(whole + fraction) == scaled;
    FirstDot(text, |whole|);
    assert text[..|whole|] == whole;
    if places == 0 {
      assert whole + fraction == whole;
    } else {
      assert text[|whole| + 1..] == fraction;
    }
  }

  /** A text is accepted exactly when it writes a number with at most eighteen digits after the dot. */
  lemma ParseAcceptsExactly(text: string)
    ensures ParseDecimalRational(text).Ok? <==> exists scaled, places :: Denotes(text, scaled, places) && places <= 18
  {
    hide Denotes, ParseDecimalRational;
    if ParseDecimalRational(text).Ok? {
      AcceptedDenotes(text);
    }
    forall scaled, places | Denotes(text, scaled, places) && places <= 18 ensures ParseDecimalRational(text).Ok? {
      ParseOfDenoted(text, scaled, places);
    }
  }

  lemma AcceptedDenotes(text: string)
    requires ParseDecimalRational(text).Ok?
    ensures exists scaled, places :: Denotes(text, scaled, places) && places <= 18
  {
    hide Reduce, Denotes;
    var i := DotIndex(text);
    var whole := text[..i];
    if i == |text| {
      assert text == whole;
      WholeDenotes(text);
    } else {
      var fraction := text[i + 1..];
      assert text == whole + "." + fraction;
      PartsDenote(whole, fraction);
    }
  }

  lemma WholeDenotes(whole: string)
    requires whole != "" && AllDigits(whole)
    ensures Denotes(whole, DigitsValue(whole), 0)
  {
    assert whole + "" == whole;
  }

  lemma PartsDenote(whole: string, fraction: string)
    requires whole != "" && fraction != "" && AllDigits(whole) && AllDigits(fraction)
    ensures AllDigits(whole + fraction) && Denotes(whole + "." + fraction, DigitsValue(whole + fraction), |fraction|)
  {
  }

  lemma DigitIsNoDot(s: string, i: nat)
    requires i < |s| && AllDigits(s)
    ensures s[i] != '.'
  {
  }

  lemma {:induction false} FirstDot(text: string, i: nat)
    requires i <= |text| && AllDigits(text[..i]) && (i < |text| ==> text[i] == '.')
    ensures DotIndex(text) == i
  {
    if i > 0 {
      DigitIsNoDot(text[..i], 0);
      assert text[1..][..i - 1] == text[..i][1..];
      FirstDot(text[1..], i - 1);
    }
  }

  // ---------------------------------------------------------------------------
  // The printer
  // ---------------------------------------------------------------------------

  /** Long division: at most `count` digits of remainder / denominator, stopping early when it is exact. */
  function FractionDigits(remainder: nat, denominator: nat, count: nat): (s: string)
    requires remainder < denominator
    ensures |s| <= count && AllDigits(s)
    decreases count
  {
    if count == 0 || remainder == 0 then ""
    else [DigitChar(remainder * 10 / denominator)] + FractionDigits(remainder * 10 % denominator, denominator, count - 1)
  }

  function StripZeros(s: string): (t: string)
    requires AllDigits(s)
    ensures |t| <= |s| && AllDigits(t)
  {
    if s != "" && s[|s| - 1] == '0' then StripZeros(s[..|s| - 1]) else s
  }

  function FormatRatio(r: Rational, precision: nat): string
    requires r.denominator > 0
  {
    var integer, remainder := r.numerator / r.denominator, r.numerator % r.denominator;
    if remainder == 0 || precision == 0 then
      ToDecimal(integer)
    else
      var fraction := StripZeros(FractionDigits(remainder, r.denominator, precision));
      ToDecimal(integer) + "." + if fraction == "" then "0" else fraction
  }

  /** The shortest text: a fraction is printed exactly when there is one to print, and it has no final zero unless it is
      that zero alone; the integer has no zero in front unless it is zero. */
  lemma PrintedShape(r: Rational, precision: nat)
    requires r.denominator > 0
    ensures var text := FormatRatio(r, precision);
            && ('.' in text <==> r.numerator % r.denominator != 0 && precision > 0)
            && ('.' in text && text[|text| - 1] == '0' ==> |text| >= 3 && text[|text| - 2] == '.')
            && |text| > 0 && (text[0] == '0' <==> r.numerator < r.denominator)
            && (text[0] == '0' && |text| > 1 ==> text[1] == '.')
  {
    hide DigitsValue, FractionDigits, StripZeros, ToDecimal;
    var integer, remainder := r.numerator / r.denominator, r.numerator % r.denominator;
    var whole := ToDecimal(integer);
    assert integer == 0 <==> r.numerator < r.denominator;
    forall i | 0 <= i < |whole| ensures whole[i] != '.' {
      DigitIsNoDot(whole, i);
    }
    if remainder != 0 && precision > 0 {
      var fraction := StripZeros(FractionDigits(remainder, r.denominator, precision));
      StripZerosStrips(FractionDigits(remainder, r.denominator, precision));
      var text := FormatRatio(r, precision);
      assert text[|whole|] == '.';
    }
  }

  lemma {:induction false} StripZerosStrips(s: string)
    requires AllDigits(s)
    ensures var t := StripZeros(s); t != "" ==> t[|t| - 1] != '0'
  {
    if s != "" && s[|s| - 1] == '0' {
      StripZerosStrips(s[..|s| - 1]);
    }
  }

  lemma {:induction false} StripZerosValue(s: string)
    requires AllDigits(s)
    ensures DigitsValue(s) == DigitsValue(StripZeros(s)) * Pow10(|s| - |StripZeros(s)|)
  {
    if s != "" && s[|s| - 1] == '0' {
      var t := s[..|s| - 1];
      StripZerosValue(t);
      var z := |t| - |StripZeros(t)|;
      assert 10 * (DigitsValue(StripZeros(t)) * Pow10(z)) == DigitsValue(StripZeros(t)) * Pow10(z + 1);
    }
  }

  lemma Pow10Step(n: nat)
    requires n > 0
    ensures Pow10(n) == 10 * Pow10(n - 1)
  {
  }

  lemma AppendScaled(d: nat, a: nat, v: nat, q: nat, p: nat)
    requires a * q == p
    ensures (d * a + v) * q == d * p + v * q
  {
    Distribute(d * a, v, q);
    Associate(d, a, q);
  }

  /** A fraction scaled by 10^places and truncated. */
  function TruncatedAt(numerator: nat, denominator: nat, places: nat): nat
    requires denominator > 0
  {
    numerator * Pow10(places) / denominator
  }

  lemma TruncatedStep(remainder: nat, denominator: nat, places: nat)
    requires denominator > 0 && places > 0
    ensures TruncatedAt(remainder, denominator, places)
         == remainder * 10 / denominator * Pow10(places - 1)
            + TruncatedAt(remainder * 10 % denominator, denominator, places - 1)
  {
    hide Pow10;
    Pow10Step(places);
    Associate(remainder, 10, Pow10(places - 1));
    SplitQuotient(remainder * 10, denominator, Pow10(places - 1));
  }

  lemma PrependDigit(d: nat, s: string, places: nat, value: nat)
    requires d < 10 && |s| <= places && AllDigits(s)
    requires value == DigitsValue(s) * Pow10(places - |s|)
    ensures AllDigits([DigitChar(d)] + s)
    ensures d * Pow10(places) + value == DigitsValue([DigitChar(d)] + s) * Pow10(places - |s|)
  {
    hide DigitsValue, Pow10;
    LeadingDigit(d, s);
    Pow10Sum(|s|, places - |s|);
    AppendScaled(d, Pow10(|s|), DigitsValue(s), Pow10(places - |s|), Pow10(places));
  }

  /** The digits are the truncation of the fraction at `count` places. */
  lemma {:induction false} FractionDigitsValue(remainder: nat, denominator: nat, count: nat)
    requires remainder < denominator
    ensures var s := FractionDigits(remainder, denominator, count);
            TruncatedAt(remainder, denominator, count) == DigitsValue(s) * Pow10(count - |s|)
    decreases count
  {
    if count == 0 || remainder == 0 {
      NothingLeft(remainder, denominator, count);
    } else {
      hide DigitsValue, Pow10, TruncatedAt, FractionDigits;
      FractionDigitsStep(remainder, denominator, count);
      var d, rest := remainder * 10 / denominator, remainder * 10 % denominator;
      FractionDigitsValue(rest, denominator, count - 1);
      TruncatedStep(remainder, denominator, count);
      PrependDigit(d, FractionDigits(rest, denominator, count - 1), count - 1,
                   TruncatedAt(rest, denominator, count - 1));
    }
  }

  lemma FractionDigitsStep(remainder: nat, denominator: nat, count: nat)
    requires 0 < remainder < denominator && count > 0
    ensures remainder * 10 / denominator < 10 && remainder * 10 % denominator < denominator
    ensures FractionDigits(remainder, denominator, count)
         == [DigitChar(remainder * 10 / denominator)]
            + FractionDigits(remainder * 10 % denominator, denominator, count - 1)
  {
    hide DigitChar, AllDigits, DigitValue, IsDigit;
    NextDigit(remainder, denominator);
  }

  lemma NextDigit(remainder: nat, denominator: nat)
    requires remainder < denominator
    ensures remainder * 10 / denominator < 10 && remainder * 10 % denominator < denominator
  {
    if remainder * 10 / denominator >= 10 {
      MulOrder(denominator, remainder * 10 / denominator, 10);
    }
  }

  lemma NothingLeft(remainder: nat, denominator: nat, places: nat)
    requires remainder < denominator && (places == 0 || remainder == 0)
    ensures TruncatedAt(remainder, denominator, places) == 0
  {
    if remainder == 0 {
      assert remainder * Pow10(places) == 0;
    } else {
      assert remainder * Pow10(places) == remainder;
    }
  }

  lemma LeadingDigit(d: nat, s: string)
    requires d < 10 && AllDigits(s)
    ensures AllDigits([DigitChar(d)] + s) && DigitsValue([DigitChar(d)] + s) == d * Pow10(|s|) + DigitsValue(s)
  {
    DigitsValueAppend([DigitChar(d)], s);
    assert [DigitChar(d)][..0] == "";
  }

  lemma TruncatedParts(r: Rational, precision: nat)
    requires r.denominator > 0
    ensures TruncatedAt(r.numerator, r.denominator, precision)
         == r.numerator / r.denominator * Pow10(precision)
            + TruncatedAt(r.numerator % r.denominator, r.denominator, precision)
  {
    SplitQuotient(r.numerator, r.denominator, Pow10(precision));
  }

  /** What the printed fraction adds to the printed integer, at the printer's precision. */
  lemma PrintedFraction(remainder: nat, denominator: nat, precision: nat) returns (fraction: string)
    requires remainder < denominator && precision > 0
    ensures var stripped := StripZeros(FractionDigits(remainder, denominator, precision));
            fraction == if stripped == "" then "0" else stripped
    ensures 1 <= |fraction| <= precision && AllDigits(fraction)
    ensures TruncatedAt(remainder, denominator, precision) * Pow10(|fraction|) == DigitsValue(fraction) * Pow10(precision)
  {
    var digits := FractionDigits(remainder, denominator, precision);
    var stripped := StripZeros(digits);
    FractionDigitsValue(remainder, denominator, precision);
    StripZerosValue(digits);
    fraction := if stripped == "" then "0" else stripped;
    if stripped == "" {
      assert "0"[..0] == "";
      assert DigitsValue(digits) == 0;
    } else {
      ScaleDigits(DigitsValue(stripped), |digits| - |stripped|, precision - |digits|, |stripped|);
    }
  }

  lemma ScaleDigits(v: nat, a: nat, b: nat, c: nat)
    ensures v * Pow10(a) * Pow10(b) * Pow10(c) == v * Pow10(a + b + c)
  {
    Pow10Sum(a, b);
    Pow10Sum(a + b, c);
    Associate(v, Pow10(a), Pow10(b));
    Associate(v, Pow10(a + b), Pow10(c));
  }

  lemma IntegerDenotes(integer: nat)
    ensures Denotes(ToDecimal(integer), integer, 0)
  {
    var whole := ToDecimal(integer);
    assert whole + "" == whole;
  }

  lemma JoinedDenotes(integer: nat, fraction: string)
    requires fraction != "" && AllDigits(fraction)
    ensures Denotes(ToDecimal(integer) + "." + fraction,
                    integer * Pow10(|fraction|) + DigitsValue(fraction), |fraction|)
  {
    DigitsValueAppend(ToDecimal(integer), fraction);
  }

  /** The printed text denotes the ratio truncated at the requested precision. */
  lemma FormatDenotesTruncation(r: Rational, precision: nat) returns (scaled: nat, places: nat)
    requires r.denominator > 0
    ensures Denotes(FormatRatio(r, precision), scaled, places) && places <= precision
    ensures scaled * Pow10(precision) == TruncatedAt(r.numerator, r.denominator, precision) * Pow10(places)
  {
    hide TruncatedAt, DigitsValue, StripZeros, FractionDigits, ToDecimal, Denotes, Pow10;
    var integer, remainder := r.numerator / r.denominator, r.numerator % r.denominator;
    TruncatedParts(r, precision);
    if remainder == 0 || precision == 0 {
      scaled, places := integer, 0;
      IntegerDenotes(integer);
      NothingLeft(remainder, r.denominator, precision);
      assert Pow10(0) == 1 by { Pow10Zero(); }
    } else {
      var fraction := PrintedFraction(remainder, r.denominator, precision);
      scaled, places := integer * Pow10(|fraction|) + DigitsValue(fraction), |fraction|;
      JoinedDenotes(integer, fraction);
      JoinParts(integer, DigitsValue(fraction), TruncatedAt(remainder, r.denominator, precision),
                Pow10(places), Pow10(precision));
    }
  }

  lemma Pow10Zero()
    ensures Pow10(0) == 1
  {
  }

  lemma JoinParts(integer: nat, fraction: nat, truncated: nat, k: nat, p: nat)
    requires truncated * k == fraction * p
    ensures (integer * k + fraction) * p == (integer * p + truncated) * k
  {
    Distribute(integer * k, fraction, p);
    Distribute(integer * p, truncated, k);
    Associate(integer, k, p);
    Associate(integer, p, k);
  }

  /** Comparing n / d with s / k is comparing n * p / d with t, when s / k and t / p are the same number. */
  lemma CrossScale(n: nat, d: nat, t: nat, k: nat, p: nat, s: nat)
    requires k > 0 && p > 0 && s * p == t * k
    ensures n * k == s * d <==> n * p == d * t
    ensures n * k >= s * d <==> n * p >= d * t
  {
    Associate(p, n, k);
    Associate(n, p, k);
    Associate(k, n, p);
    assert p * (n * k) == k * (n * p);
    Associate(s, p, d);
    Associate(t, k, d);
    Associate(d, t, k);
    assert p * (s * d) == k * (d * t);
    if n * p >= d * t {
      MulOrder(k, n * p, d * t);
      CancelOrder(p, n * k, s * d);
    }
    if n * k >= s * d {
      MulOrder(p, n * k, s * d);
      CancelOrder(k, n * p, d * t);
    }
    if d * t >= n * p {
      MulOrder(k, d * t, n * p);
      CancelOrder(p, s * d, n * k);
    }
    if s * d >= n * k {
      MulOrder(p, s * d, n * k);
      CancelOrder(k, d * t, n * p);
    }
  }

  /** The printed decimal d satisfies d <= r < d + 10^-precision. */
  lemma PrintedDecimalBounds(r: Rational, precision: nat) returns (scaled: nat, places: nat)
    requires r.denominator > 0
    ensures Denotes(FormatRatio(r, precision), scaled, places)
    ensures scaled * r.denominator <= r.numerator * Pow10(places)
    ensures r.numerator * Pow10(places) * Pow10(precision) < (scaled * Pow10(precision) + Pow10(places)) * r.denominator
  {
    hide Denotes, FormatRatio;
    scaled, places := FormatDenotesTruncation(r, precision);
    var t, d := TruncatedAt(r.numerator, r.denominator, precision), r.denominator;
    CrossScale(r.numerator, d, t, Pow10(places), Pow10(precision), scaled);
    assert d * t <= r.numerator * Pow10(precision) < d * t + d;
    UpperBound(r.numerator, d, t, Pow10(places), Pow10(precision));
  }

  lemma UpperBound(n: nat, d: nat, t: nat, k: nat, p: nat)
    requires k > 0 && n * p < d * t + d
    ensures n * k * p < (t * k + k) * d
  {
    MulOrder(k, d * t + d, n * p + 1);
    Distribute(n * p, 1, k);
    Associate(n, k, p);
    Associate(n, p, k);
    Distribute(d * t, d, k);
    Distribute(t * k, k, d);
    Associate(t, k, d);
    Associate(d, t, k);
  }

  /** Printing with eighteen digits and parsing back is the identity exactly on the ratios that need no more digits. */
  lemma PrintThenParse(r: Rational)
    requires Canonical(r)
    ensures ParseDecimalRational(FormatRatio(r, 18)) == Ok(r) <==> Divides(r.denominator, r.numerator * Pow10(18))
  {
    hide FormatRatio, ParseDecimalRational, Reduce, Denotes, HasValue;
    var scaled, places := FormatDenotesTruncation(r, MAX_FRACTION_DIGITS);
    ParseOfDenoted(FormatRatio(r, MAX_FRACTION_DIGITS), scaled, places);
    ReduceIsCanonicalForm(r, scaled, Pow10(places));
    ExactTruncation(r, MAX_FRACTION_DIGITS, scaled, places);
  }

  lemma ExactTruncation(r: Rational, precision: nat, scaled: nat, places: nat)
    requires r.denominator > 0
    requires scaled * Pow10(precision) == TruncatedAt(r.numerator, r.denominator, precision) * Pow10(places)
    ensures HasValue(r, scaled, Pow10(places)) <==> Divides(r.denominator, r.numerator * Pow10(precision))
  {
    var t, n := TruncatedAt(r.numerator, r.denominator, precision), r.numerator * Pow10(precision);
    CrossScale(r.numerator, r.denominator, t, Pow10(places), Pow10(precision), scaled);
    if n == r.denominator * t {
      Multiple(r.denominator, t, n);
    }
    if Divides(r.denominator, n) {
      ExactQuotient(n, r.denominator);
    }
  }

  method FormatRatioLoop(r: Rational, precision: nat) returns (text: string)
    requires r.denominator > 0
    ensures text == FormatRatio(r, precision)
  {
    var integer := r.numerator / r.denominator;
    var remainder := r.numerator % r.denominator;
    if remainder == 0 || precision == 0 {
      return ToDecimal(integer);
    }
    var fraction: string := "";
    var i := 0;
    ghost var first: nat := remainder;
    while i < precision && remainder != 0
      invariant i <= precision && 0 <= remainder < r.denominator && AllDigits(fraction)
      invariant FractionDigits(first, r.denominator, precision)
             == fraction + FractionDigits(remainder, r.denominator, precision - i)
      decreases precision - i
    {
      fraction := fraction + [DigitChar(remainder * 10 / r.denominator)];
      remainder := remainder * 10 % r.denominator;
      i := i + 1;
    }
    assert fraction + "" == fraction;
    while fraction != "" && fraction[|fraction| - 1] == '0'
      invariant AllDigits(fraction)
      invariant StripZeros(fraction) == StripZeros(FractionDigits(first, r.denominator, precision))
      decreases |fraction|
    {
      fraction := fraction[..|fraction| - 1];
    }
    return ToDecimal(integer) + "." + if fraction == "" then "0" else fraction;
  }
}
