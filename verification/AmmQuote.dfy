/** The constant-product quote of pkg/trade/swap.go over 18-digit decimals.

    A decimal value is held as its integer coefficient at a fixed number of digits, as the
    decimal package holds it: additions and products are exact, and a quotient keeps
    18 digits (DivisionPrecision), rounded half away from zero. */
module AmmQuote {
  import opened Rounding
  import opened Wrappers

  const FEE_UNIT := 1_000_000
  const BP_UNIT := 10_000
  const ONE18 := 1_000_000_000_000_000_000
  const ONE36 := ONE18 * ONE18

  datatype Quote = Quote(minOut: int, out: int)
  datatype QuoteError = DivisionByZero

  /** The input left after the fee, at 18 digits. */
  function NetInput(amountIn: nat, feeRate: nat): int {
    var feeRate18 := RoundDiv(feeRate * ONE18, FEE_UNIT);
    amountIn * ONE18 - amountIn * feeRate18
  }

  /** The untruncated output at 18 digits, for a non-zero new input reserve. */
  function Output18(amountIn: nat, totalIn: nat, totalOut: nat, feeRate: nat): int
    requires totalIn * ONE18 + NetInput(amountIn, feeRate) != 0
  {
    totalOut * ONE18 - RoundDiv(totalIn * totalOut * ONE36, totalIn * ONE18 + NetInput(amountIn, feeRate))
  }

  /** The output and its slippage bound, both cut to whole units; nothing when either is not positive. */
  function Payout(out18: int, slippageBp: nat): Quote {
    var min36 := out18 * RoundDiv((BP_UNIT - slippageBp) * ONE18, BP_UNIT);
    if min36 <= 0 || out18 <= 0 then Quote(0, 0)
    else Quote(TruncDiv(min36, ONE36), TruncDiv(out18, ONE18))
  }

  function CalcMinAmountOutBySwap(slippageBp: nat, amountIn: nat, totalIn: nat, totalOut: nat, feeRate: nat)
    : (r: Result<Quote, QuoteError>)
  {
    if totalIn * ONE18 + NetInput(amountIn, feeRate) == 0 then
      Failure(DivisionByZero)
    else
      Success(Payout(Output18(amountIn, totalIn, totalOut, feeRate), slippageBp))
  }

  function CalcMinAmountOutByAmm(slippageBp: nat, amountIn: nat, isBuy: bool, tokenAmount: nat, baseAmount: nat,
                                 feeRate: nat)
    : (r: Result<Quote, QuoteError>)
  {
    if isBuy then CalcMinAmountOutBySwap(slippageBp, amountIn, baseAmount, tokenAmount, feeRate)
    else CalcMinAmountOutBySwap(slippageBp, amountIn, tokenAmount, baseAmount, feeRate)
  }

  // ---------- the quote in exact integers ----------

  /** The net input in millionths of a unit. */
  function NetMillionths(amountIn: nat, feeRate: nat): int {
    amountIn * (FEE_UNIT - feeRate)
  }

  /** The new input reserve in millionths of a unit. */
  function NewReserve(amountIn: nat, totalIn: nat, feeRate: nat): int {
    totalIn * FEE_UNIT + NetMillionths(amountIn, feeRate)
  }

  /** The output a constant-product pool owes: totalOut * net / newReserve, rounded down. */
  function ExactOut(amountIn: nat, totalIn: nat, totalOut: nat, feeRate: nat): int
    requires NewReserve(amountIn, totalIn, feeRate) > 0
  {
    totalOut * NetMillionths(amountIn, feeRate) / NewReserve(amountIn, totalIn, feeRate)
  }

  /** What is left over when the old product is divided by the new input reserve. */
  function Leftover(amountIn: nat, totalIn: nat, totalOut: nat, feeRate: nat): int
    requires NewReserve(amountIn, totalIn, feeRate) > 0
  {
    totalIn * totalOut * FEE_UNIT % NewReserve(amountIn, totalIn, feeRate)
  }

  /** The leftover is too small for 18 digits: less than half a unit of the last digit. */
  predicate RoundsAway(amountIn: nat, totalIn: nat, totalOut: nat, feeRate: nat)
    requires NewReserve(amountIn, totalIn, feeRate) > 0
  {
    var rho := Leftover(amountIn, totalIn, totalOut, feeRate);
    0 < rho && 2 * rho * ONE18 < NewReserve(amountIn, totalIn, feeRate)
  }

  lemma FeeIsExact(feeRate: nat)
    ensures RoundDiv(feeRate * ONE18, FEE_UNIT) == feeRate * 1_000_000_000_000
  {
  }

  lemma SlippageIsExact(slippageBp: nat)
    ensures RoundDiv((BP_UNIT - slippageBp) * ONE18, BP_UNIT) == (BP_UNIT - slippageBp) * 100_000_000_000_000
  {
  }

  /** The fee is taken without rounding: the 18-digit reserve is 10^12 times the millionths one. */
  lemma ReserveIsExact(amountIn: nat, totalIn: nat, feeRate: nat)
    ensures totalIn * ONE18 + NetInput(amountIn, feeRate) == 1_000_000_000_000 * NewReserve(amountIn, totalIn, feeRate)
  {
    FeeIsExact(feeRate);
    assert amountIn * (feeRate * 1_000_000_000_000) == 1_000_000_000_000 * (amountIn * feeRate);
    assert amountIn * (FEE_UNIT - feeRate) == amountIn * FEE_UNIT - amountIn * feeRate;
  }

  lemma Output18Shape(amountIn: nat, totalIn: nat, totalOut: nat, feeRate: nat)
    requires NewReserve(amountIn, totalIn, feeRate) > 0
    ensures totalIn * ONE18 + NetInput(amountIn, feeRate) > 0
    ensures totalIn * totalOut >= 0
    ensures Output18(amountIn, totalIn, totalOut, feeRate)
         == totalOut * ONE18 - RoundDiv(totalIn * totalOut * (FEE_UNIT * ONE18), NewReserve(amountIn, totalIn, feeRate))
  {
    ReserveIsExact(amountIn, totalIn, feeRate);
    MulMono(0, totalIn, totalOut);
    var p := totalIn * totalOut;
    assert p * ONE36 == 1_000_000_000_000 * (p * (FEE_UNIT * ONE18));
    RoundCancel(p * (FEE_UNIT * ONE18), NewReserve(amountIn, totalIn, feeRate), 1_000_000_000_000);
  }

  /** Splitting the product by the new reserve: the part that leaves the pool and the leftover. */
  lemma Split(amountIn: nat, totalIn: nat, totalOut: nat, feeRate: nat)
    requires NewReserve(amountIn, totalIn, feeRate) > 0
    ensures var n := NewReserve(amountIn, totalIn, feeRate);
            var rho := Leftover(amountIn, totalIn, totalOut, feeRate);
            var kept := totalOut - ExactOut(amountIn, totalIn, totalOut, feeRate) - (if rho > 0 then 1 else 0);
            totalIn * totalOut * FEE_UNIT == kept * n + rho && 0 <= rho < n
  {
    var a := NetMillionths(amountIn, feeRate);
    Expand(totalIn, totalOut, a);
    Complement(totalOut, totalOut * a, NewReserve(amountIn, totalIn, feeRate));
  }

  lemma Expand(totalIn: int, totalOut: int, a: int)
    ensures totalOut * (totalIn * FEE_UNIT + a) - totalOut * a == totalIn * totalOut * FEE_UNIT
  {
    assert totalOut * (totalIn * FEE_UNIT) == totalIn * totalOut * FEE_UNIT;
  }

  /** The output never leaves the range the pool can pay. */
  lemma ExactOutRange(amountIn: nat, totalIn: nat, totalOut: nat, feeRate: nat)
    requires feeRate <= FEE_UNIT
    requires NewReserve(amountIn, totalIn, feeRate) > 0
    ensures 0 <= ExactOut(amountIn, totalIn, totalOut, feeRate) <= totalOut
    ensures Leftover(amountIn, totalIn, totalOut, feeRate) > 0
            ==> ExactOut(amountIn, totalIn, totalOut, feeRate) < totalOut
  {
    var n := NewReserve(amountIn, totalIn, feeRate);
    var a := NetMillionths(amountIn, feeRate);
    var rho := Leftover(amountIn, totalIn, totalOut, feeRate);
    MulMono(0, FEE_UNIT - feeRate, amountIn);
    MulMono(0, a, totalOut);
    DivAtLeast(totalOut * a, n, 0);
    Split(amountIn, totalIn, totalOut, feeRate);
    var kept := totalOut - ExactOut(amountIn, totalIn, totalOut, feeRate) - (if rho > 0 then 1 else 0);
    MulMono(0, totalIn, totalOut);
    if kept < 0 {
      MulMono(kept + 1, 0, n);
    }
  }

  lemma RoundedProduct(n: int, kept: nat, rho: nat)
    requires n > 0
    ensures kept * n >= 0
    ensures RoundDiv((kept * n + rho) * ONE18, n) == kept * ONE18 + RoundDiv(rho * ONE18, n)
  {
    MulMono(0, kept, n);
    assert (kept * n + rho) * ONE18 == rho * ONE18 + (kept * ONE18) * n;
    RoundShift(rho * ONE18, n, kept * ONE18);
  }

  /** The quoted output is the exact one, plus one when the leftover rounds away. */
  lemma OutputValue(amountIn: nat, totalIn: nat, totalOut: nat, feeRate: nat)
    requires feeRate <= FEE_UNIT
    requires NewReserve(amountIn, totalIn, feeRate) > 0
    ensures totalIn * ONE18 + NetInput(amountIn, feeRate) > 0
    ensures var out18 := Output18(amountIn, totalIn, totalOut, feeRate);
            && 0 <= out18 <= totalOut * ONE18
            && out18 / ONE18 == ExactOut(amountIn, totalIn, totalOut, feeRate)
                                + (if RoundsAway(amountIn, totalIn, totalOut, feeRate) then 1 else 0)
  {
    var n := NewReserve(amountIn, totalIn, feeRate);
    var rho := Leftover(amountIn, totalIn, totalOut, feeRate);
    var k := ExactOut(amountIn, totalIn, totalOut, feeRate);
    Output18Shape(amountIn, totalIn, totalOut, feeRate);
    Split(amountIn, totalIn, totalOut, feeRate);
    ExactOutRange(amountIn, totalIn, totalOut, feeRate);
    var kept := totalOut - k - (if rho > 0 then 1 else 0);
    var p := totalIn * totalOut;
    assert p * (FEE_UNIT * ONE18) == (kept * n + rho) * ONE18;
    RoundedProduct(n, kept, rho);
    LeftoverRounding(rho, n);
    FloorUnits(k, rho, RoundDiv(rho * ONE18, n), Output18(amountIn, totalIn, totalOut, feeRate));
  }

  lemma FloorUnits(k: int, rho: nat, s: int, out18: int)
    requires 0 <= s <= ONE18
    requires rho == 0 ==> s == 0
    requires out18 == (k + (if rho > 0 then 1 else 0)) * ONE18 - s
    ensures out18 / ONE18 == k + (if rho > 0 && s == 0 then 1 else 0)
  {
  }

  lemma LeftoverRounding(rho: nat, n: int)
    requires rho < n
    ensures 0 <= RoundDiv(rho * ONE18, n) <= ONE18
    ensures RoundDiv(rho * ONE18, n) == 0 <==> 2 * rho * ONE18 < n
    ensures rho == 0 ==> RoundDiv(rho * ONE18, n) == 0
  {
    RoundBounds(rho * ONE18, n);
    var s := RoundDiv(rho * ONE18, n);
    if s > ONE18 {
      MulMono(ONE18 + 1, s, 2 * n);
    }
    if s >= 1 {
      MulMono(1, s, 2 * n);
    }
  }

  // ---------- main results ----------

  /** What the call returns, for every slippage: the exact output or one more, and nothing at all
      once the slippage reaches 100%. */
  lemma QuotedOutput(slippageBp: nat, amountIn: nat, totalIn: nat, totalOut: nat, feeRate: nat)
    requires feeRate <= FEE_UNIT
    requires NewReserve(amountIn, totalIn, feeRate) > 0
    ensures var r := CalcMinAmountOutBySwap(slippageBp, amountIn, totalIn, totalOut, feeRate);
            && r.Success?
            && (slippageBp >= BP_UNIT ==> r.value == Quote(0, 0))
            && (slippageBp < BP_UNIT ==>
                  r.value.out == ExactOut(amountIn, totalIn, totalOut, feeRate)
                                 + (if RoundsAway(amountIn, totalIn, totalOut, feeRate) then 1 else 0))
  {
    OutputValue(amountIn, totalIn, totalOut, feeRate);
    SlippageIsExact(slippageBp);
    var out18 := Output18(amountIn, totalIn, totalOut, feeRate);
    SignOfProduct(out18, (BP_UNIT - slippageBp) * 100_000_000_000_000);
  }

  lemma SignOfProduct(x: nat, y: int)
    ensures x * y > 0 <==> x > 0 && y > 0
  {
    if y <= 0 {
      MulMono(y, 0, x);
    } else if x > 0 {
      MulMono(1, x, y);
    }
  }

  /** The quote is exact, and the pool keeps its product, exactly when the leftover does not round away. */
  lemma ExactIff(slippageBp: nat, amountIn: nat, totalIn: nat, totalOut: nat, feeRate: nat)
    requires feeRate <= FEE_UNIT && slippageBp < BP_UNIT
    requires NewReserve(amountIn, totalIn, feeRate) > 0
    ensures var r := CalcMinAmountOutBySwap(slippageBp, amountIn, totalIn, totalOut, feeRate);
            && r.Success?
            && (r.value.out == ExactOut(amountIn, totalIn, totalOut, feeRate)
                <==> !RoundsAway(amountIn, totalIn, totalOut, feeRate))
            && (NewReserve(amountIn, totalIn, feeRate) * (totalOut - r.value.out) >= totalIn * totalOut * FEE_UNIT
                <==> !RoundsAway(amountIn, totalIn, totalOut, feeRate))
  {
    QuotedOutput(slippageBp, amountIn, totalIn, totalOut, feeRate);
    Split(amountIn, totalIn, totalOut, feeRate);
    KeptProduct(NewReserve(amountIn, totalIn, feeRate), totalOut - ExactOut(amountIn, totalIn, totalOut, feeRate),
                Leftover(amountIn, totalIn, totalOut, feeRate), totalIn * totalOut * FEE_UNIT);
  }

  lemma KeptProduct(n: int, kept: int, rho: nat, product: int)
    requires rho < n
    requires product == (kept - (if rho > 0 then 1 else 0)) * n + rho
    ensures n * kept >= product
    ensures rho > 0 ==> n * (kept - 1) < product
  {
    assert n * (kept - 1) == (kept - 1) * n;
    assert n * kept == (kept - 1) * n + n;
  }

  /** A new input reserve of at most 2 * 10^18 millionths leaves no room for the overshoot. */
  lemma SmallReserveIsExact(slippageBp: nat, amountIn: nat, totalIn: nat, totalOut: nat, feeRate: nat)
    requires feeRate <= FEE_UNIT && slippageBp < BP_UNIT
    requires 0 < NewReserve(amountIn, totalIn, feeRate) <= 2 * ONE18
    ensures var r := CalcMinAmountOutBySwap(slippageBp, amountIn, totalIn, totalOut, feeRate);
            && r.Success?
            && r.value.out == ExactOut(amountIn, totalIn, totalOut, feeRate) <= totalOut
            && NewReserve(amountIn, totalIn, feeRate) * (totalOut - r.value.out) >= totalIn * totalOut * FEE_UNIT
  {
    ExactOutRange(amountIn, totalIn, totalOut, feeRate);
    ExactIff(slippageBp, amountIn, totalIn, totalOut, feeRate);
  }

  /** Beyond that bound the quote can hand out the whole output reserve. */
  lemma LargeReserveOvershoots()
    ensures var amountIn := 3 * ONE18 - 1;
            CalcMinAmountOutBySwap(0, amountIn, 1, 1, 0) == Success(Quote(1, 1))
            && NewReserve(amountIn, 1, 0) > 0
            && ExactOut(amountIn, 1, 1, 0) == 0
  {
  }

  /** Slippage keeps its promise to within one unit: the minimum is the quoted output less
      the allowed share, rounded down, and it never exceeds the output. */
  lemma MinimumOutput(slippageBp: nat, amountIn: nat, totalIn: nat, totalOut: nat, feeRate: nat)
    requires feeRate <= FEE_UNIT && slippageBp < BP_UNIT
    requires NewReserve(amountIn, totalIn, feeRate) > 0
    ensures var r := CalcMinAmountOutBySwap(slippageBp, amountIn, totalIn, totalOut, feeRate);
            && r.Success?
            && 0 <= r.value.minOut <= r.value.out
            && r.value.out * (BP_UNIT - slippageBp) / BP_UNIT <= r.value.minOut
            && r.value.minOut * BP_UNIT < (r.value.out + 1) * (BP_UNIT - slippageBp)
  {
    OutputValue(amountIn, totalIn, totalOut, feeRate);
    SlippageIsExact(slippageBp);
    var out18 := Output18(amountIn, totalIn, totalOut, feeRate);
    var keep := BP_UNIT - slippageBp;
    SignOfProduct(out18, keep * 100_000_000_000_000);
    KeptShare(out18, keep);
  }

  lemma KeptShare(out18: nat, keep: nat)
    requires 0 < keep <= BP_UNIT
    ensures var out := out18 / ONE18;
            var minOut := out18 * (keep * 100_000_000_000_000) / ONE36;
            && 0 <= minOut <= out
            && out * keep / BP_UNIT <= minOut
            && minOut * BP_UNIT < (out + 1) * keep
  {
    var out, r := out18 / ONE18, out18 % ONE18;
    ShareSplit(out, r, keep);
    assert (out + 1) * keep == out * keep + keep;
    assert out18 * (keep * 100_000_000_000_000) == (out18 * keep) * 100_000_000_000_000;
    KeptShareLinear(out18, out, keep, out * keep, out18 * keep);
  }

  lemma ShareSplit(out: nat, r: nat, keep: nat)
    requires r < ONE18 && 0 < keep <= BP_UNIT
    ensures (out * keep) * ONE18 <= (out * ONE18 + r) * keep < (out * keep) * ONE18 + keep * ONE18
    ensures (out * ONE18 + r) * keep <= (out * ONE18 + r) * BP_UNIT
  {
    assert (out * ONE18 + r) * keep == (out * keep) * ONE18 + r * keep;
    MulMono(0, r, keep);
    MulMono(r, ONE18 - 1, keep);
    MulMono(keep, BP_UNIT, out * ONE18 + r);
  }

  lemma KeptShareLinear(out18: nat, out: int, keep: nat, y: int, x: nat)
    requires out == out18 / ONE18
    requires y * ONE18 <= x < y * ONE18 + keep * ONE18
    requires x <= out18 * BP_UNIT
    ensures 0 <= x / (ONE18 * BP_UNIT) <= out
    ensures y / BP_UNIT <= x / (ONE18 * BP_UNIT)
    ensures x / (ONE18 * BP_UNIT) * BP_UNIT < y + keep
  {
  }

  /** Paying more never quotes less. */
  lemma MoreInMoreOut(slippageBp: nat, less: nat, more: nat, totalIn: nat, totalOut: nat, feeRate: nat)
    requires feeRate <= FEE_UNIT && less <= more
    requires NewReserve(less, totalIn, feeRate) > 0
    ensures NewReserve(more, totalIn, feeRate) > 0
    ensures var q := CalcMinAmountOutBySwap(slippageBp, less, totalIn, totalOut, feeRate);
            var r := CalcMinAmountOutBySwap(slippageBp, more, totalIn, totalOut, feeRate);
            q.Success? && r.Success? && q.value.out <= r.value.out && q.value.minOut <= r.value.minOut
  {
    hide Output18, Payout, NewReserve;
    OutputMono(less, more, totalIn, totalOut, feeRate);
    PayoutMono(Output18(less, totalIn, totalOut, feeRate), Output18(more, totalIn, totalOut, feeRate), slippageBp);
  }

  lemma OutputMono(less: nat, more: nat, totalIn: nat, totalOut: nat, feeRate: nat)
    requires feeRate <= FEE_UNIT && less <= more
    requires NewReserve(less, totalIn, feeRate) > 0
    ensures NewReserve(more, totalIn, feeRate) > 0
    ensures totalIn * ONE18 + NetInput(less, feeRate) > 0 && totalIn * ONE18 + NetInput(more, feeRate) > 0
    ensures 0 <= Output18(less, totalIn, totalOut, feeRate) <= Output18(more, totalIn, totalOut, feeRate)
  {
    hide RoundDiv, ExactOut, RoundsAway, Output18;
    MulMono(less, more, FEE_UNIT - feeRate);
    OutputValue(less, totalIn, totalOut, feeRate);
    Output18Shape(less, totalIn, totalOut, feeRate);
    Output18Shape(more, totalIn, totalOut, feeRate);
    RoundAntitone(totalIn * totalOut * (FEE_UNIT * ONE18),
                  NewReserve(less, totalIn, feeRate), NewReserve(more, totalIn, feeRate));
  }

  lemma PayoutMono(x: nat, y: nat, slippageBp: nat)
    requires x <= y
    ensures Payout(x, slippageBp).out <= Payout(y, slippageBp).out
    ensures Payout(x, slippageBp).minOut <= Payout(y, slippageBp).minOut
  {
    SlippageIsExact(slippageBp);
    var s := (BP_UNIT - slippageBp) * 100_000_000_000_000;
    SignOfProduct(x, s);
    SignOfProduct(y, s);
    if s > 0 {
      MulMono(x, y, s);
    }
  }

  lemma RoundAntitone(a: nat, d: int, e: int)
    requires 0 < d <= e
    ensures RoundDiv(a, e) <= RoundDiv(a, d)
  {
    hide RoundDiv;
    RoundBounds(a, d);
    RoundBounds(a, e);
    NearestAntitone(a, d, e, RoundDiv(a, d), RoundDiv(a, e));
  }

  lemma NearestAntitone(a: nat, d: int, e: int, p: nat, q: int)
    requires 0 < d <= e
    requires 2 * a + d < 2 * d * p + 2 * d && 2 * e * q <= 2 * a + e
    ensures q <= p
  {
    if q > p {
      OddTimes(p, d);
      OddTimes(p, e);
      MulMono(d, e, 2 * p + 1);
      MulMono(p + 1, q, 2 * e);
      OneMoreTimes(p, q, e);
    }
  }

  lemma OddTimes(p: int, d: int)
    ensures d * (2 * p + 1) == 2 * d * p + d
  {
  }

  lemma OneMoreTimes(p: int, q: int, e: int)
    ensures (p + 1) * (2 * e) == 2 * e * p + 2 * e && q * (2 * e) == 2 * e * q
  {
  }

  /** A fee above 100% never pays out while the reserve stays positive. */
  lemma ExcessFeePaysNothing(slippageBp: nat, amountIn: nat, totalIn: nat, totalOut: nat, feeRate: nat)
    requires feeRate > FEE_UNIT
    requires NewReserve(amountIn, totalIn, feeRate) > 0
    ensures CalcMinAmountOutBySwap(slippageBp, amountIn, totalIn, totalOut, feeRate) == Success(Quote(0, 0))
  {
    Output18Shape(amountIn, totalIn, totalOut, feeRate);
    var n := NewReserve(amountIn, totalIn, feeRate);
    var p := totalIn * totalOut;
    MulMono(FEE_UNIT - feeRate, 0, amountIn);
    MulMono(n, totalIn * FEE_UNIT, totalOut);
    assert (totalIn * FEE_UNIT) * totalOut == p * FEE_UNIT;
    var extra := p * FEE_UNIT - totalOut * n;
    assert p * (FEE_UNIT * ONE18) == extra * ONE18 + (totalOut * ONE18) * n by {
      assert (totalOut * ONE18) * n == (totalOut * n) * ONE18;
    }
    RoundShift(extra * ONE18, n, totalOut * ONE18);
    RoundBounds(extra * ONE18, n);
  }

  /** The call divides by zero exactly when nothing is left on the input side. */
  lemma FailsOnlyOnEmptyReserve(slippageBp: nat, amountIn: nat, totalIn: nat, totalOut: nat, feeRate: nat)
    ensures CalcMinAmountOutBySwap(slippageBp, amountIn, totalIn, totalOut, feeRate).Failure?
       <==> NewReserve(amountIn, totalIn, feeRate) == 0
  {
    ReserveIsExact(amountIn, totalIn, feeRate);
  }

  /** A buy pays base tokens in and takes tokens out; a sell is the mirror image. */
  lemma AmmDirection(slippageBp: nat, amountIn: nat, isBuy: bool, tokenAmount: nat, baseAmount: nat, feeRate: nat)
    requires feeRate <= FEE_UNIT && slippageBp < BP_UNIT
    requires 0 < NewReserve(amountIn, if isBuy then baseAmount else tokenAmount, feeRate) <= 2 * ONE18
    ensures var r := CalcMinAmountOutByAmm(slippageBp, amountIn, isBuy, tokenAmount, baseAmount, feeRate);
            var paidIn := if isBuy then baseAmount else tokenAmount;
            var paidOut := if isBuy then tokenAmount else baseAmount;
            && r.Success?
            && r.value.out <= paidOut
            && NewReserve(amountIn, paidIn, feeRate) * (paidOut - r.value.out) >= tokenAmount * baseAmount * FEE_UNIT
  {
    var paidIn := if isBuy then baseAmount else tokenAmount;
    var paidOut := if isBuy then tokenAmount else baseAmount;
    SmallReserveIsExact(slippageBp, amountIn, paidIn, paidOut, feeRate);
    assert paidIn * paidOut == tokenAmount * baseAmount;
  }
}
