/** The PumpSwap quotes of pkg/trade/swap.go. big.Int.Div is Euclidean, as Dafny's `/` is;
    the slippage factor of the sell side is taken as an exact fraction. */
module PumpSwapQuote {
  import opened Rounding
  import opened Wrappers

  datatype QuoteError = DivisionByZero | NotPositive

  /** What is left of a gross input after the floored fee. */
  function Net(gross: int, feeRate: nat, baseRate: nat): int
    requires baseRate != 0
  {
    gross - gross * feeRate / baseRate
  }

  /** What a pool holding `reserveIn` and `reserveOut` gives for a net input. */
  function Received(reserveIn: nat, reserveOut: nat, net: int): int
    requires reserveIn + net != 0
  {
    reserveOut - reserveOut * reserveIn / (reserveIn + net)
  }

  function CalcPSBaseAmountOut(quote: nat, base: nat, solAmountIn: int, feeRate: nat, baseRate: nat)
    : (r: Result<int, QuoteError>)
  {
    if baseRate == 0 || quote + Net(solAmountIn, feeRate, baseRate) == 0 then
      Failure(DivisionByZero)
    else
      var tokens := Received(quote, base, Net(solAmountIn, feeRate, baseRate));
      if tokens <= 0 then Failure(NotPositive) else Success(tokens)
  }

  function CalcPSMinQuoteAmountOut(quote: nat, base: nat, baseAmountIn: int, slippage: nat, feeRate: nat, baseRate: nat)
    : (r: Result<int, QuoteError>)
  {
    if baseRate == 0 || base + Net(baseAmountIn, feeRate, baseRate) == 0 then
      Failure(DivisionByZero)
    else
      var sol := Received(base, quote, Net(baseAmountIn, feeRate, baseRate));
      var minQuote := TruncDiv(sol * (100 - slippage), 100);
      if minQuote <= 0 then Failure(NotPositive) else Success(minQuote)
  }

  // ---------- the two nested floors ----------

  /** A floored fee leaves a rounded-up net amount; nothing is left exactly for no input or a full fee. */
  lemma NetRoundsUp(gross: nat, feeRate: nat, baseRate: nat)
    requires 0 < baseRate && feeRate <= baseRate
    ensures Net(gross, feeRate, baseRate) == CeilDiv(gross * (baseRate - feeRate), baseRate)
    ensures 0 <= Net(gross, feeRate, baseRate) <= gross
    ensures Net(gross, feeRate, baseRate) == 0 <==> gross == 0 || feeRate == baseRate
  {
    ProductSign(gross, feeRate);
    ProductSign(gross, baseRate - feeRate);
    assert gross * (baseRate - feeRate) + gross * feeRate == gross * baseRate;
    ShareBounds(gross * (baseRate - feeRate), gross * feeRate, baseRate, gross);
  }

  lemma NetMono(less: nat, more: nat, feeRate: nat, baseRate: nat)
    requires 0 < baseRate && feeRate <= baseRate && less <= more
    ensures Net(less, feeRate, baseRate) <= Net(more, feeRate, baseRate)
  {
    NetRoundsUp(less, feeRate, baseRate);
    NetRoundsUp(more, feeRate, baseRate);
    MulMono(less, more, baseRate - feeRate);
    DivMono(-(more * (baseRate - feeRate)), -(less * (baseRate - feeRate)), baseRate);
  }

  /** The pool gives out reserveOut * net / (reserveIn + net), rounded up: at least one unit for any
      input, at most its reserve, and all of it exactly when the input dwarfs the product. */
  lemma ReceivedRoundsUp(reserveIn: nat, reserveOut: nat, net: nat)
    requires 0 < reserveIn && 0 < reserveOut
    ensures var r := Received(reserveIn, reserveOut, net);
            && r == CeilDiv(reserveOut * net, reserveIn + net)
            && 0 <= r <= reserveOut
            && (r == 0 <==> net == 0)
            && (r == reserveOut <==> reserveOut * reserveIn < reserveIn + net)
  {
    ProductSign(reserveOut, net);
    ProductSign(reserveOut, reserveIn);
    assert reserveOut * net + reserveOut * reserveIn == reserveOut * (reserveIn + net);
    ShareBounds(reserveOut * net, reserveOut * reserveIn, reserveIn + net, reserveOut);
  }

  lemma ReceivedMono(reserveIn: nat, reserveOut: nat, less: nat, more: nat)
    requires 0 < reserveIn && less <= more
    ensures Received(reserveIn, reserveOut, less) <= Received(reserveIn, reserveOut, more)
  {
    MulMono(0, reserveOut, reserveIn);
    DivAntitone(reserveOut * reserveIn, reserveIn + less, reserveIn + more);
  }

  /** Rounding favours the trader: the pool's product never grows, and it falls by less than
      the new input reserve. */
  lemma ProductAfterSwap(reserveIn: nat, reserveOut: nat, net: nat)
    requires 0 < reserveIn
    ensures var kept := (reserveIn + net) * (reserveOut - Received(reserveIn, reserveOut, net));
            kept <= reserveIn * reserveOut < kept + (reserveIn + net)
  {
    var d := reserveIn + net;
    var q := reserveOut * reserveIn / d;
    DivBounds(reserveOut * reserveIn, d);
    assert d * q == q * d && (q + 1) * d == q * d + d;
  }

  // ---------- main results ----------

  /** A buy on a funded pool: the rounded-up constant-product share of the net input. */
  lemma BaseAmountOut(quote: nat, base: nat, gross: nat, feeRate: nat, baseRate: nat)
    requires 0 < quote && 0 < base && 0 < baseRate && feeRate <= baseRate
    ensures var r := CalcPSBaseAmountOut(quote, base, gross, feeRate, baseRate);
            var net := CeilDiv(gross * (baseRate - feeRate), baseRate);
            && net >= 0
            && (r.Failure? <==> gross == 0 || feeRate == baseRate)
            && (r.Success? ==> r.value == CeilDiv(base * net, quote + net) && 1 <= r.value <= base)
            && (r.Success? ==> (r.value == base <==> base * quote < quote + net))
  {
    NetRoundsUp(gross, feeRate, baseRate);
    ReceivedRoundsUp(quote, base, Net(gross, feeRate, baseRate));
  }

  /** Paying more never buys less, through both floors. */
  lemma BaseAmountOutMono(quote: nat, base: nat, less: nat, more: nat, feeRate: nat, baseRate: nat)
    requires 0 < quote && 0 < base && 0 < baseRate && feeRate <= baseRate && less <= more
    ensures var q := CalcPSBaseAmountOut(quote, base, less, feeRate, baseRate);
            var r := CalcPSBaseAmountOut(quote, base, more, feeRate, baseRate);
            q.Success? ==> r.Success? && q.value <= r.value
  {
    NetMono(less, more, feeRate, baseRate);
    NetRoundsUp(less, feeRate, baseRate);
    NetRoundsUp(more, feeRate, baseRate);
    ReceivedMono(quote, base, Net(less, feeRate, baseRate), Net(more, feeRate, baseRate));
  }

  /** The sell side: the same share of the quote reserve, less the slippage percentage, rounded
      down; it fails exactly when that is below one unit. */
  lemma MinQuoteAmountOut(quote: nat, base: nat, gross: nat, slippage: nat, feeRate: nat, baseRate: nat)
    requires 0 < quote && 0 < base && 0 < baseRate && feeRate <= baseRate
    ensures var r := CalcPSMinQuoteAmountOut(quote, base, gross, slippage, feeRate, baseRate);
            var net := CeilDiv(gross * (baseRate - feeRate), baseRate);
            && net >= 0
            && var sol := CeilDiv(quote * net, base + net);
            && 0 <= sol <= quote
            && (r.Failure? <==> sol * (100 - slippage) < 100)
            && (r.Success? ==> 1 <= r.value <= quote
                               && r.value * 100 <= sol * (100 - slippage) < (r.value + 1) * 100)
  {
    NetRoundsUp(gross, feeRate, baseRate);
    var net := Net(gross, feeRate, baseRate);
    ReceivedRoundsUp(base, quote, net);
    var sol := Received(base, quote, net);
    if slippage > 100 {
      MulMono(100 - slippage, 0, sol);
    } else {
      MulMono(100 - slippage, 100, sol);
      MulMono(0, 100 - slippage, sol);
    }
  }
}
