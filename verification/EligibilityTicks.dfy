/** The eligibility service's own copy of the tick ratio, unrolled over the twenty multipliers. */
module EligibilityTicks {
  import opened Outcomes
  import opened TickMath

  function TableEntry(bit: nat): nat
    requires bit < TICK_BITS
  {
    TICK_MULTIPLIERS[bit]
  }

  /** The constants of the unrolled copy are the entries of the table. */
  lemma UnrolledConstants()
    ensures TableEntry(0) == 0xfffcb933bd6fad37aa2d162d1a594001 && TableEntry(1) == 0xfff97272373d413259a46990580e213a
    ensures TableEntry(2) == 0xfff2e50f5f656932ef12357cf3c7fdcc && TableEntry(3) == 0xffe5caca7e10e4e61c3624eaa0941cd0
    ensures TableEntry(4) == 0xffcb9843d60f6159c9db58835c926644 && TableEntry(5) == 0xff973b41fa98c081472e6896dfb254c0
    ensures TableEntry(6) == 0xff2ea16466c96a3843ec78b326b52861 && TableEntry(7) == 0xfe5dee046a99a2a811c461f1969c3053
    ensures TableEntry(8) == 0xfcbe86c7900a88aedcffc83b479aa3a4 && TableEntry(9) == 0xf987a7253ac413176f2b074cf7815e54
    ensures TableEntry(10) == 0xf3392b0822b70005940c7a398e4b70f3 && TableEntry(11) == 0xe7159475a2c29b7443b29c7fa6e889d9
    ensures TableEntry(12) == 0xd097f3bdfd2022b8845ad8f792aa5825 && TableEntry(13) == 0xa9f746462d870fdf8a65dc1f90e061e5
    ensures TableEntry(14) == 0x70d869a156d2a1b890bb3df62baf32f7 && TableEntry(15) == 0x31be135f97d08fd981231505542fcfa6
    ensures TableEntry(16) == 0x9aa508b5b7a84e1c677de54f3e99bc9 && TableEntry(17) == 0x5d6af8dedb81196699c329225ee604
    ensures TableEntry(18) == 0x2216e584f5fa1ea926041bedfe98 && TableEntry(19) == 0x48a170391f7dc42444e8fa2
  {
  }

  lemma UnrolledStep(magnitude: nat, bit: nat, ratio: nat)
    requires bit < TICK_BITS && ScaledBelow(magnitude, bit, ratio)
    ensures BitSet(magnitude, bit) ==> ScaledBelow(magnitude, bit + 1, MulShift(ratio, TableEntry(bit)))
    ensures !BitSet(magnitude, bit) ==> ScaledBelow(magnitude, bit + 1, ratio)
  {
    ScaledStep(magnitude, bit, ratio);
  }

  method MultiplySetBits(absTick: nat) returns (ratio: nat)
    ensures ratio == Ratio(absTick)
  {
    hide ScaledBelow, Ratio, Product, BitSet, MulShift, TableEntry;
    UnrolledConstants();
    ratio := Q128;
    ScaledStart(absTick, 0, ratio);
    FirstMultiplication();
    UnrolledStep(absTick, 0, ratio);
    ratio := if BitSet(absTick, 0) then 0xfffcb933bd6fad37aa2d162d1a594001 else 0x1_0000_0000_0000_0000_0000_0000_0000_0000;
    UnrolledStep(absTick, 1, ratio);
    if BitSet(absTick, 1) { ratio := MulShift(ratio, 0xfff97272373d413259a46990580e213a); }
    UnrolledStep(absTick, 2, ratio);
    if BitSet(absTick, 2) { ratio := MulShift(ratio, 0xfff2e50f5f656932ef12357cf3c7fdcc); }
    UnrolledStep(absTick, 3, ratio);
    if BitSet(absTick, 3) { ratio := MulShift(ratio, 0xffe5caca7e10e4e61c3624eaa0941cd0); }
    UnrolledStep(absTick, 4, ratio);
    if BitSet(absTick, 4) { ratio := MulShift(ratio, 0xffcb9843d60f6159c9db58835c926644); }
    UnrolledStep(absTick, 5, ratio);
    if BitSet(absTick, 5) { ratio := MulShift(ratio, 0xff973b41fa98c081472e6896dfb254c0); }
    UnrolledStep(absTick, 6, ratio);
    if BitSet(absTick, 6) { ratio := MulShift(ratio, 0xff2ea16466c96a3843ec78b326b52861); }
    UnrolledStep(absTick, 7, ratio);
    if BitSet(absTick, 7) { ratio := MulShift(ratio, 0xfe5dee046a99a2a811c461f1969c3053); }
    UnrolledStep(absTick, 8, ratio);
    if BitSet(absTick, 8) { ratio := MulShift(ratio, 0xfcbe86c7900a88aedcffc83b479aa3a4); }
    UnrolledStep(absTick, 9, ratio);
    if BitSet(absTick, 9) { ratio := MulShift(ratio, 0xf987a7253ac413176f2b074cf7815e54); }
    UnrolledStep(absTick, 10, ratio);
    if BitSet(absTick, 10) { ratio := MulShift(ratio, 0xf3392b0822b70005940c7a398e4b70f3); }
    UnrolledStep(absTick, 11, ratio);
    if BitSet(absTick, 11) { ratio := MulShift(ratio, 0xe7159475a2c29b7443b29c7fa6e889d9); }
    UnrolledStep(absTick, 12, ratio);
    if BitSet(absTick, 12) { ratio := MulShift(ratio, 0xd097f3bdfd2022b8845ad8f792aa5825); }
    UnrolledStep(absTick, 13, ratio);
    if BitSet(absTick, 13) { ratio := MulShift(ratio, 0xa9f746462d870fdf8a65dc1f90e061e5); }
    UnrolledStep(absTick, 14, ratio);
    if BitSet(absTick, 14) { ratio := MulShift(ratio, 0x70d869a156d2a1b890bb3df62baf32f7); }
    UnrolledStep(absTick, 15, ratio);
    if BitSet(absTick, 15) { ratio := MulShift(ratio, 0x31be135f97d08fd981231505542fcfa6); }
    UnrolledStep(absTick, 16, ratio);
    if BitSet(absTick, 16) { ratio := MulShift(ratio, 0x9aa508b5b7a84e1c677de54f3e99bc9); }
    UnrolledStep(absTick, 17, ratio);
    if BitSet(absTick, 17) { ratio := MulShift(ratio, 0x5d6af8dedb81196699c329225ee604); }
    UnrolledStep(absTick, 18, ratio);
    if BitSet(absTick, 18) { ratio := MulShift(ratio, 0x2216e584f5fa1ea926041bedfe98); }
    UnrolledStep(absTick, 19, ratio);
    if BitSet(absTick, 19) { ratio := MulShift(ratio, 0x48a170391f7dc42444e8fa2); }
    ScaledEnd(absTick, TICK_BITS, ratio);
  }

  method GetSqrtRatioAtTick(tick: int) returns (r: Outcome<nat>)
    ensures r.Ok? <==> TickInRange(tick)
    ensures r.Ok? ==> r.value == SqrtRatio(tick) && IsRootOf(r.value, tick)
  {
    hide Ratio, Reciprocal, RoundUp, IsRootOf;
    if tick < MIN_TICK || tick > MAX_TICK {
      return Fail("tick_out_of_range");
    }
    var ratio := MultiplySetBits(Magnitude(tick));
    if tick > 0 {
      ratio := Reciprocal(ratio);
    }
    SqrtRatioIsRoot(tick, RoundUp(ratio));
    return Ok(RoundUp(ratio));
  }

  lemma FirstMultiplication()
    ensures MulShift(Q128, TableEntry(0)) == TableEntry(0)
  {
  }
}
