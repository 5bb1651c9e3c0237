/** The projection of a pool's Swap event onto a trade of the launch token. */
module PancakeTrades {
  import opened Arithmetic
  import opened Outcomes
  import opened Rationals

  /** A twenty-byte address; lower-cased hexadecimal text orders as the number it writes. */
  type Address = nat

  datatype DirectMarket = DirectMarket(launchpad: Address, launchId: nat, token: Address, quoteToken: Address, pool: Address)

  datatype SwapLog = SwapLog(pool: Address, sender: Address, recipient: Address, amount0: int, amount1: int)

  datatype TradeType = Buy | Sell

  datatype Trade = Trade(
    launchpad: Address, launchId: nat, tradeType: TradeType, venue: Address, trader: Address, recipient: Address,
    tokenIn: Address, tokenOut: Address, amountIn: nat, amountOut: nat,
    tokenAmount: nat, quoteAmount: nat, tokenAmountSigned: int, quoteAmountSigned: int, price: Rational)

  function Abs(n: int): nat {
    if n < 0 then -n else n
  }

  predicate SameSign(left: int, right: int) {
    (left > 0 && right > 0) || (left < 0 && right < 0)
  }

  function ProjectSwap(log: SwapLog, market: DirectMarket): (r: Outcome<Trade>)
    ensures r.Ok? <==> log.pool == market.pool && (log.amount0 < 0 < log.amount1 || log.amount1 < 0 < log.amount0)
  {
    if log.pool != market.pool then
      Fail("pancake_v3_swap_market_mismatch")
    else if log.amount0 == 0 || log.amount1 == 0 || SameSign(log.amount0, log.amount1) then
      Fail("pancake_v3_swap_invalid_amounts")
    else
      var tokenIsToken0 := market.token < market.quoteToken;
      var tokenDelta := if tokenIsToken0 then log.amount0 else log.amount1;
      var quoteDelta := if tokenIsToken0 then log.amount1 else log.amount0;
      var tokenAbs, quoteAbs := Abs(tokenDelta), Abs(quoteDelta);
      var price := Reduce(quoteAbs, tokenAbs);
      if quoteDelta > 0 then
        Ok(Trade(market.launchpad, market.launchId, Buy, market.pool, log.sender, log.recipient,
                 market.quoteToken, market.token, quoteAbs, tokenAbs, tokenAbs, quoteAbs, tokenDelta, quoteDelta, price))
      else
        Ok(Trade(market.launchpad, market.launchId, Sell, market.pool, log.sender, log.recipient,
                 market.token, market.quoteToken, tokenAbs, quoteAbs, tokenAbs, quoteAbs, tokenDelta, quoteDelta, price))
  }

  /** What the trade table's checks demand, and what a trade means for its two tokens. */
  predicate TradeConsistent(t: Trade) {
    && t.tokenAmount == Abs(t.tokenAmountSigned) > 0
    && t.quoteAmount == Abs(t.quoteAmountSigned) > 0
    && match t.tradeType
       case Buy => t.tokenAmountSigned < 0 < t.quoteAmountSigned
                   && t.amountIn == t.quoteAmount && t.amountOut == t.tokenAmount
       case Sell => t.quoteAmountSigned < 0 < t.tokenAmountSigned
                    && t.amountIn == t.tokenAmount && t.amountOut == t.quoteAmount
  }

  /** The trade is consistent, priced in reduced form, and says of the log and the market what they are: the lower
      address is the pool's token 0, whose amount is `amount0`. */
  lemma ProjectedTradeConsistent(log: SwapLog, market: DirectMarket)
    requires ProjectSwap(log, market).Ok?
    ensures var t := ProjectSwap(log, market).value;
            && TradeConsistent(t) && Canonical(t.price) && t.price.numerator > 0
            && HasValue(t.price, t.quoteAmount, t.tokenAmount)
            && (market.token < market.quoteToken ==> t.tokenAmountSigned == log.amount0 && t.quoteAmountSigned == log.amount1)
            && (market.quoteToken < market.token ==> t.quoteAmountSigned == log.amount0 && t.tokenAmountSigned == log.amount1)
            && (t.tradeType == Buy ==> t.tokenOut == market.token && t.tokenIn == market.quoteToken)
            && (t.tradeType == Sell ==> t.tokenIn == market.token && t.tokenOut == market.quoteToken)
            && t.venue == log.pool && t.trader == log.sender && t.recipient == log.recipient
            && t.launchpad == market.launchpad && t.launchId == market.launchId
  {
    var t := ProjectSwap(log, market).value;
    MulOrder(t.price.denominator, t.quoteAmount, 1);
  }

  /** The same pool with its two tokens, and with them its two amounts, in the other order. */
  function Mirrored(log: SwapLog): SwapLog {
    log.(amount0 := log.amount1, amount1 := log.amount0)
  }

  /** Addresses that order the two tokens the other way, with the pool's amounts exchanged, give the same trade. */
  lemma MirroredSwap(log: SwapLog, market: DirectMarket, mirror: DirectMarket)
    requires market.token < market.quoteToken && mirror.quoteToken < mirror.token
    requires mirror == market.(token := mirror.token, quoteToken := mirror.quoteToken)
    ensures ProjectSwap(log, market).Ok? == ProjectSwap(Mirrored(log), mirror).Ok?
    ensures ProjectSwap(log, market).Ok? ==>
      var (there, back) := (ProjectSwap(log, market).value, ProjectSwap(Mirrored(log), mirror).value);
      && back == there.(tokenIn := back.tokenIn, tokenOut := back.tokenOut)
      && (there.tokenIn, back.tokenIn) ==
           (if there.tradeType == Buy then (market.quoteToken, mirror.quoteToken) else (market.token, mirror.token))
      && (there.tokenOut, back.tokenOut) ==
           (if there.tradeType == Buy then (market.token, mirror.token) else (market.quoteToken, mirror.quoteToken))
  {
    hide Reduce, HasValue, Canonical;
    assert Mirrored(log).pool == log.pool;
    assert SameSign(log.amount0, log.amount1) == SameSign(log.amount1, log.amount0);
  }
}
