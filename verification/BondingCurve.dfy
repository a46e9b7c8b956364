/** The Pump.fun bonding curve quotes (pkg/pumpfun/pump/buy.go and sell.go) over the virtual
    reserves. The slippage multiplier is an exact real. */
module BondingCurve {
  import opened Rounding
  import opened Wrappers

  datatype Curve = Curve(sol: nat, token: nat)

  datatype QuoteError = DivisionByZero

  /** The reserve on the other side once `amount` is added to `reserveIn`. */
  function NewReserve(reserveIn: nat, reserveOut: nat, amount: nat): (r: int)
    requires reserveIn + amount > 0
  {
    reserveIn * reserveOut / (reserveIn + amount)
  }

  /** What leaves the other side. */
  function Swapped(reserveIn: nat, reserveOut: nat, amount: nat): int
    requires reserveIn + amount > 0
  {
    reserveOut - NewReserve(reserveIn, reserveOut, amount)
  }

  function Share(n: int, percentage: real): real {
    n as real * percentage
  }

  function CalculateBuyQuote(solAmount: nat, c: Curve, percentage: real): (r: Result<int, QuoteError>)
  {
    if c.sol + solAmount == 0 then Failure(DivisionByZero)
    else Success(Truncate(Share(Swapped(c.sol, c.token, solAmount), percentage)))
  }

  /** The quote after slippage and the quote before it. */
  function CalculateSellQuote(tokenAmount: nat, c: Curve, percentage: real): (r: Result<(int, int), QuoteError>)
  {
    if c.token + tokenAmount == 0 then Failure(DivisionByZero)
    else
      var out := Swapped(c.token, c.sol, tokenAmount);
      Success((Truncate(Share(out, percentage)), out))
  }

  // ---------- one step on the curve ----------

  /** A step pays out between nothing and the reserve, and the product falls by less than the new reserve. */
  lemma StepBounds(reserveIn: nat, reserveOut: nat, amount: nat)
    requires reserveIn + amount > 0
    ensures var after := NewReserve(reserveIn, reserveOut, amount);
            && 0 <= after <= reserveOut
            && (reserveIn + amount) * after <= reserveIn * reserveOut < (reserveIn + amount) * (after + 1)
  {
    var d := reserveIn + amount;
    MulMono(0, reserveIn, reserveOut);
    DivAtLeast(reserveIn * reserveOut, d, 0);
    DivBounds(reserveIn * reserveOut, d);
    MulMono(reserveIn, d, reserveOut);
    if NewReserve(reserveIn, reserveOut, amount) > reserveOut {
      MulMono(reserveOut + 1, NewReserve(reserveIn, reserveOut, amount), d);
    }
  }

  /** The curve after a buy. */
  function AfterBuy(c: Curve, solAmount: nat): (r: Curve)
    requires c.sol + solAmount > 0
  {
    StepBounds(c.sol, c.token, solAmount);
    Curve(c.sol + solAmount, NewReserve(c.sol, c.token, solAmount))
  }

  // ---------- splitting a buy ----------

  predicate Positive(xs: seq<nat>) {
    forall i :: 0 <= i < |xs| ==> xs[i] > 0
  }

  function Sum(xs: seq<nat>): nat {
    if xs == [] then 0 else xs[0] + Sum(xs[1..])
  }

  /** Tokens bought by paying the amounts one after another, each on the curve the last one left. */
  function SplitTokens(c: Curve, xs: seq<nat>): int
    requires Positive(xs)
    decreases |xs|
  {
    if xs == [] then 0
    else Swapped(c.sol, c.token, xs[0]) + SplitTokens(AfterBuy(c, xs[0]), xs[1..])
  }

  /** Losing fewer than d units of the product costs at most one unit of the quotient by a larger divisor. */
  lemma QuotientDrop(p: int, p': int, d: int, e: int)
    requires 0 < d <= e
    requires p - d < p' <= p
    ensures p / e - 1 <= p' / e <= p / e
  {
    DivMono(p', p, e);
    DivMono(p - e, p', e);
    DivShift(p, e, -1);
  }

  /** Splitting one payment into n never buys less than paying at once and gains at most n - 1 tokens. */
  lemma {:induction false} SplitBuy(c: Curve, xs: seq<nat>)
    requires xs != [] && Positive(xs)
    ensures var total := Swapped(c.sol, c.token, Sum(xs));
            total <= SplitTokens(c, xs) <= total + |xs| - 1
    decreases |xs|
  {
    var x, rest := xs[0], xs[1..];
    if rest == [] {
      assert Sum(xs) == x;
    } else {
      var next := AfterBuy(c, x);
      SplitBuy(next, rest);
      StepBounds(c.sol, c.token, x);
      QuotientDrop(c.sol * c.token, next.sol * next.token, c.sol + x, c.sol + Sum(xs));
    }
  }

  // ---------- buying and selling back ----------

  /** What the floor lost when the buy was quoted. */
  function Dust(c: Curve, solAmount: nat): int
    requires c.sol + solAmount > 0
  {
    c.sol * c.token % (c.sol + solAmount)
  }

  /** Selling back exactly the tokens bought returns the payment plus the rounded-up share of the dust. */
  lemma RoundTrip(c: Curve, solAmount: nat)
    requires c.sol > 0 && c.token > 0
    ensures var bought := Swapped(c.sol, c.token, solAmount);
            && bought >= 0
            && var back := CalculateSellQuote(bought, AfterBuy(c, solAmount), 1.0);
            && back.Success?
            && back.value.1 == solAmount + CeilDiv(Dust(c, solAmount), c.token)
            && back.value.0 == back.value.1
            && solAmount <= back.value.1 <= solAmount + CeilDiv(c.sol + solAmount - 1, c.token)
            && (back.value.1 == solAmount <==> c.sol * c.token % (c.sol + solAmount) == 0)
            && (c.sol + solAmount <= c.token ==> back.value.1 <= solAmount + 1)
  {
    var d := c.sol + solAmount;
    var after := AfterBuy(c, solAmount);
    var bought := Swapped(c.sol, c.token, solAmount);
    StepBounds(c.sol, c.token, solAmount);
    DivBounds(c.sol * c.token, d);
    var rho := Dust(c, solAmount);
    assert after.token + bought == c.token;
    assert after.token * after.sol == -rho + c.sol * c.token;
    DivShift(-rho, c.token, c.sol);
    assert Swapped(after.token, after.sol, bought) == solAmount + CeilDiv(rho, c.token);
    CeilAtMost(rho, c.token, 0);
    CeilAtMost(rho, c.token, CeilDiv(d - 1, c.token));
    CeilAtMost(d - 1, c.token, CeilDiv(d - 1, c.token));
    CeilAtMost(rho, c.token, 1);
    CeilAtMost(rho, c.token, -1);
    WholeFloor(Swapped(after.token, after.sol, bought));
  }

  lemma WholeFloor(n: int)
    ensures Truncate(Share(n, 1.0)) == n
  {
  }

  /** A round trip can return more than was paid: 1 for nothing is not possible, but 2 for 1 is. */
  lemma RoundTripCanGain()
    ensures CalculateBuyQuote(1, Curve(1, 3), 1.0) == Success(2)
    ensures AfterBuy(Curve(1, 3), 1) == Curve(2, 1)
    ensures CalculateSellQuote(2, Curve(2, 1), 1.0) == Success((2, 2))
  {
  }

  /** Selling is buying with the two reserves exchanged, and fails exactly when no tokens are on either side; whatever
      the percentage, the second number is what leaves the curve before slippage. */
  lemma SellMirrorsBuy(amount: nat, c: Curve, percentage: real)
    ensures var s := CalculateSellQuote(amount, c, percentage);
            var b := CalculateBuyQuote(amount, Curve(c.token, c.sol), percentage);
            && (s.Failure? <==> c.token + amount == 0) && (b.Failure? <==> c.token + amount == 0)
            && (s.Success? ==>
                  && s.value.0 == b.value && 0 <= s.value.1 <= c.sol
                  && (c.token + amount) * (c.sol - s.value.1) <= c.token * c.sol
                  && c.token * c.sol < (c.token + amount) * (c.sol - s.value.1 + 1))
  {
    if c.token + amount > 0 {
      StepBounds(c.token, c.sol, amount);
    }
  }

  /** Slippage takes its share and less than one unit more, whatever the percentage; a share of at most the whole keeps
      the quote within what leaves the reserve. */
  lemma BuyQuoteBounds(solAmount: nat, c: Curve, percentage: real)
    requires c.sol + solAmount > 0
    ensures var r := CalculateBuyQuote(solAmount, c, percentage);
            var full := Swapped(c.sol, c.token, solAmount);
            var exact := full as real * percentage;
            && r.Success? && 0 <= full <= c.token
            && (percentage >= 0.0 ==> r.value >= 0 && exact - 1.0 < r.value as real <= exact)
            && (percentage <= 0.0 ==> r.value <= 0 && exact <= r.value as real < exact + 1.0)
            && (percentage <= 1.0 ==> r.value <= full)
  {
    StepBounds(c.sol, c.token, solAmount);
    var full := Swapped(c.sol, c.token, solAmount);
    assert Share(full, percentage) == full as real * percentage;
    hide Swapped, Truncate, Share;
    ShareBounds(full, percentage);
    TruncateBounds(Share(full, percentage), full);
  }

  lemma TruncateBounds(x: real, n: nat)
    ensures x >= 0.0 ==> Truncate(x) >= 0 && x - 1.0 < Truncate(x) as real <= x
    ensures x <= 0.0 ==> Truncate(x) <= 0 && x <= Truncate(x) as real < x + 1.0
    ensures x <= n as real ==> Truncate(x) <= n
  {
  }

  lemma ShareBounds(n: nat, p: real)
    ensures p >= 0.0 ==> Share(n, p) >= 0.0
    ensures p <= 0.0 ==> Share(n, p) <= 0.0
    ensures p <= 1.0 ==> Share(n, p) <= n as real
  {
    ProductSigns(n as real, p);
    ProductSigns(n as real, 1.0 - p);
    assert Share(n, p) + n as real * (1.0 - p) == n as real;
  }

  lemma ProductSigns(x: real, y: real)
    requires x >= 0.0
    ensures y >= 0.0 ==> x * y >= 0.0
    ensures y <= 0.0 ==> x * y <= 0.0
  {
  }
}
