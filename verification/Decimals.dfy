/** Quotients of the decimal package over exact reals: a division keeps as many digits as the process has set, rounded
    half away from zero. */
module Decimals {
  import opened Rounding

  function Pow10(n: nat): (p: real)
    ensures p > 0.0
  {
    if n == 0 then 1.0 else 10.0 * Pow10(n - 1)
  }

  /** The nearest integer, halves away from zero. */
  function Nearest(x: real): int {
    if x < 0.0 then -((0.5 - x).Floor) else (x + 0.5).Floor
  }

  /** The nearest number of whole p-th parts. */
  function Rounded(x: real, p: real): real
    requires p > 0.0
  {
    Nearest(x * p) as real / p
  }

  /** The quotient at the given number of digits. */
  function Div(x: real, y: real, digits: nat): real
    requires y != 0.0
  {
    Rounded(x / y, Pow10(digits))
  }

  /** Half of the last digit kept. */
  function HalfUnit(digits: nat): real {
    0.5 / Pow10(digits)
  }

  lemma NearestBounds(x: real)
    ensures -0.5 <= Nearest(x) as real - x <= 0.5
    ensures Nearest(x) == 0 <==> -0.5 < x < 0.5
  {
  }

  lemma NearestIs(x: real, q: int)
    requires x >= 0.0 && q as real <= x + 0.5 < q as real + 1.0
    ensures Nearest(x) == q
  {
  }

  /** Integers divide to the same nearest integer. */
  lemma NearestQuotient(a: nat, d: int)
    requires d > 0
    ensures Nearest(a as real / d as real) == RoundDiv(a, d)
  {
    hide RoundDiv, Nearest;
    RoundBounds(a, d);
    var q, n := RoundDiv(a, d), d as real;
    QuotientTimes(a as real, n);
    WithinUnit(a as real / n, q, d);
    assert a as real / n >= 0.0;
    NearestIs(a as real / n, q);
  }

  lemma QuotientTimes(x: real, n: real)
    requires n > 0.0
    ensures n * (x / n) == x
    ensures x >= 0.0 ==> x / n >= 0.0
  {
  }

  lemma WithinUnit(x: real, q: int, d: int)
    requires d > 0
    requires (2 * d * q) as real <= 2.0 * (d as real * x) + d as real < (2 * d * q + 2 * d) as real
    ensures q as real <= x + 0.5 < q as real + 1.0
  {
    var n := d as real;
    assert (2 * d * q) as real == 2.0 * (n * q as real);
    Distribute(n, x, 0.5);
    Distribute(n, q as real, 1.0);
    Below(q as real, x + 0.5, n);
    Below(x + 0.5, q as real + 1.0, n);
  }

  lemma Distribute(n: real, x: real, y: real)
    ensures n * (x + y) == n * x + n * y && n * (x - y) == n * x - n * y && n * -y == -(n * y)
  {
  }

  /** A positive factor keeps comparisons. */
  lemma Below(x: real, y: real, n: real)
    requires n > 0.0
    ensures n * x <= n * y <==> x <= y
    ensures n * x < n * y <==> x < y
  {
    assert n * (y - x) == n * y - n * x;
  }

  /** A quotient is off by half of its last digit at most, and vanishes exactly when it is below that. */
  lemma DivBounds(x: real, y: real, digits: nat)
    requires y != 0.0
    ensures x / y - HalfUnit(digits) <= Div(x, y, digits) <= x / y + HalfUnit(digits)
    ensures Div(x, y, digits) == 0.0 <==> -HalfUnit(digits) < x / y < HalfUnit(digits)
  {
    hide Rounded;
    RoundedBounds(x / y, Pow10(digits));
  }

  lemma RoundedBounds(z: real, p: real)
    requires p > 0.0
    ensures z - 0.5 / p <= Rounded(z, p) <= z + 0.5 / p
    ensures Rounded(z, p) == 0.0 <==> -(0.5 / p) < z < 0.5 / p
  {
    hide Nearest;
    NearestBounds(z * p);
    Unscale(z, Nearest(z * p) as real, 0.5, p);
  }

  lemma Unscale(z: real, n: real, half: real, p: real)
    requires p > 0.0 && -half <= n - z * p <= half
    requires n == 0.0 <==> -half < z * p < half
    ensures z - half / p <= n / p <= z + half / p
    ensures n / p == 0.0 <==> -(half / p) < z < half / p
  {
    hide Scaled;
    Multiplied(z, n, p);
    Multiplied(z, half, p);
    Shrink(z, n / p, half / p, p);
  }

  function Scaled(p: real, x: real): real {
    p * x
  }

  lemma Multiplied(z: real, x: real, p: real)
    requires p > 0.0
    ensures Scaled(p, x / p) == x && Scaled(p, z) == z * p
  {
  }

  lemma Shrink(z: real, q: real, h: real, p: real)
    requires p > 0.0 && -Scaled(p, h) <= Scaled(p, q) - Scaled(p, z) <= Scaled(p, h)
    requires Scaled(p, q) == 0.0 <==> -Scaled(p, h) < Scaled(p, z) < Scaled(p, h)
    ensures z - h <= q <= z + h
    ensures q == 0.0 <==> -h < z < h
  {
    Distribute(p, z, h);
    Below(z - h, q, p);
    Below(q, z + h, p);
    Above(z, h, p);
    Zero(q, p);
  }

  lemma Above(z: real, h: real, p: real)
    requires p > 0.0
    ensures -(p * h) < p * z < p * h <==> -h < z < h
  {
    Distribute(p, 0.0, h);
    Below(-h, z, p);
    Below(z, h, p);
  }

  lemma Zero(q: real, p: real)
    requires p > 0.0
    ensures p * q == 0.0 <==> q == 0.0
  {
    Below(q, 0.0, p);
    Below(0.0, q, p);
  }

  /** Multiplying back: what a quotient misses of its dividend. */
  lemma DivTimes(x: real, y: real, digits: nat)
    requires y > 0.0
    ensures x - y * HalfUnit(digits) <= y * Div(x, y, digits) <= x + y * HalfUnit(digits)
    ensures Div(x, y, digits) == 0.0 <==> -(y * HalfUnit(digits)) < x < y * HalfUnit(digits)
  {
    hide Div, HalfUnit;
    DivBounds(x, y, digits);
    QuotientTimes(x, y);
    Widen(x, x / y, Div(x, y, digits), HalfUnit(digits), y);
  }

  lemma DivNotNegative(x: real, y: real, digits: nat)
    requires x >= 0.0 && y > 0.0
    ensures Div(x, y, digits) >= 0.0
  {
    QuotientTimes(x, y);
    RoundedNotNegative(x / y, Pow10(digits));
  }

  lemma RoundedNotNegative(z: real, p: real)
    requires z >= 0.0 && p > 0.0
    ensures Rounded(z, p) >= 0.0
  {
    assert z * p >= 0.0;
    QuotientTimes(Nearest(z * p) as real, p);
  }

  lemma Widen(x: real, z: real, q: real, h: real, y: real)
    requires y > 0.0 && y * z == x && z - h <= q <= z + h
    ensures x - y * h <= y * q <= x + y * h
    ensures -h < z < h <==> -(y * h) < x < y * h
  {
    Distribute(y, z, h);
    Below(z - h, q, y);
    Below(q, z + h, y);
    Above(z, h, y);
  }
}
