/** Integer divisions with their rounding written out: the floor of big.Int.Div on a
    positive divisor is Dafny's `/`; Go's int division truncates toward zero; the decimal
    package rounds a quotient to the nearest unit, halves away from zero. */
module Rounding {

  function Abs(x: int): nat {
    if x < 0 then -x else x
  }

  /** Go's `/` on signed ints. */
  function TruncDiv(a: int, d: int): int
    requires d != 0
  {
    var q := Abs(a) / Abs(d);
    if (a < 0) == (d < 0) then q else -q
  }

  /** Go's `%` on signed ints: the sign follows the dividend. */
  function TruncMod(a: int, d: int): int
    requires d != 0
  {
    a - TruncDiv(a, d) * d
  }

  /** The smallest integer at or above a / d. */
  function CeilDiv(a: int, d: int): int
    requires d > 0
  {
    -((-a) / d)
  }

  /** a / d to the nearest integer, halves away from zero. */
  function RoundDiv(a: int, d: int): int
    requires d != 0
  {
    var q := (2 * Abs(a) + Abs(d)) / (2 * Abs(d));
    if (a < 0) == (d < 0) then q else -q
  }

  lemma MulMono(a: int, b: int, c: nat)
    requires a <= b
    ensures a * c <= b * c
  {
  }

  /** The defining bounds of a floored quotient. */
  lemma DivBounds(a: int, d: int)
    requires d > 0
    ensures (a / d) * d <= a < (a / d + 1) * d
    ensures a == (a / d) * d + a % d && 0 <= a % d < d
  {
  }

  /** A quotient is fixed by its defining bounds. */
  lemma DivUnique(a: int, d: int, q: int)
    requires d > 0
    requires q * d <= a < (q + 1) * d
    ensures a / d == q
  {
    DivBounds(a, d);
    if a / d < q {
      MulMono(a / d + 1, q, d);
    } else if q < a / d {
      MulMono(q + 1, a / d, d);
    }
  }

  lemma DivMono(a: int, b: int, d: int)
    requires d > 0 && a <= b
    ensures a / d <= b / d
  {
    DivBounds(a, d);
    DivBounds(b, d);
    if b / d < a / d {
      MulMono(b / d + 1, a / d, d);
    }
  }

  /** Galois connection of the floored quotient. */
  lemma DivAtLeast(a: int, d: int, q: int)
    requires d > 0
    ensures q <= a / d <==> q * d <= a
  {
    DivBounds(a, d);
    if q <= a / d {
      MulMono(q, a / d, d);
    } else {
      MulMono(a / d + 1, q, d);
    }
  }

  lemma DivAntitone(a: int, d: int, e: int)
    requires 0 <= a && 0 < d <= e
    ensures a / e <= a / d
  {
    DivAtLeast(a, e, a / e);
    DivBounds(a, e);
    if a / e < 0 {
      MulMono(a / e + 1, 0, e);
    }
    MulMono(d, e, a / e);
    DivAtLeast(a, d, a / e);
  }

  /** Adding a multiple of the divisor adds the multiplier to the quotient. */
  lemma DivShift(a: int, d: int, k: int)
    requires d > 0
    ensures (a + k * d) / d == a / d + k
    ensures (a + k * d) % d == a % d
  {
    DivBounds(a, d);
    var q := a / d + k;
    assert q * d == (a / d) * d + k * d;
    assert (q + 1) * d == (a / d + 1) * d + k * d;
    DivUnique(a + k * d, d, q);
    DivBounds(a + k * d, d);
  }

  lemma DivMultiple(d: int, k: int)
    requires d > 0
    ensures k * d / d == k && k * d % d == 0
  {
    DivShift(0, d, k);
  }

  /** A common positive factor cancels from a floored quotient. */
  lemma DivCancel(a: int, d: int, k: int)
    requires d > 0 && k > 0
    ensures k * d > 0
    ensures (k * a) / (k * d) == a / d
  {
    DivBounds(a, d);
    var q := a / d;
    MulMono(1, d, k);
    MulMono(q * d, a, k);
    assert q * (k * d) == (q * d) * k;
    assert a + 1 <= (q + 1) * d;
    MulMono(a + 1, (q + 1) * d, k);
    assert (q + 1) * (k * d) == ((q + 1) * d) * k;
    DivUnique(k * a, k * d, q);
  }

  /** Dividing twice is dividing once by the product. */
  lemma DivDiv(a: int, d: int, e: int)
    requires d > 0 && e > 0
    ensures d * e > 0
    ensures (a / d) / e == a / (d * e)
  {
    MulMono(1, d, e);
    var q := a / (d * e);
    DivAtLeast(a, d * e, q);
    DivAtLeast(a, d * e, q + 1);
    assert q * (d * e) == (q * e) * d;
    assert (q + 1) * (d * e) == ((q + 1) * e) * d;
    DivAtLeast(a, d, q * e);
    DivAtLeast(a, d, (q + 1) * e);
    DivUnique(a / d, e, q);
  }

  /** Taking w away from t whole divisors: the quotient and the remainder of what is left. */
  lemma Complement(t: int, w: int, n: int)
    requires n > 0
    ensures (t * n - w) / n == t - w / n - (if w % n > 0 then 1 else 0)
    ensures (t * n - w) % n == (if w % n > 0 then n - w % n else 0)
    ensures t * n - w == (t - w / n - (if w % n > 0 then 1 else 0)) * n + (t * n - w) % n
  {
    DivBounds(w, n);
    var k, r := w / n, w % n;
    var q := t - k - (if r > 0 then 1 else 0);
    assert q * n == t * n - k * n - (if r > 0 then n else 0);
    assert (q + 1) * n == q * n + n;
    DivUnique(t * n - w, n, q);
    DivBounds(t * n - w, n);
  }

  /** A floored share leaves a rounded-up share. */
  lemma CeilComplement(x: int, y: int, d: int, k: int)
    requires d > 0 && x + y == k * d
    ensures CeilDiv(x, d) == k - y / d
  {
    assert (0 - k) * d == -(k * d);
    DivShift(y, d, 0 - k);
  }

  /** A rounded-up quotient is the least integer whose multiple reaches the dividend. */
  lemma CeilAtMost(a: int, d: int, q: int)
    requires d > 0
    ensures CeilDiv(a, d) <= q <==> a <= q * d
  {
    DivAtLeast(-a, d, -q);
    assert (-q) * d == -(q * d);
  }

  /** k whole units split into the shares x and y of k * d: the floored share of y leaves the rounded-up
      share of x, which is nothing only for x = 0 and everything only when y is below one unit. */
  lemma ShareBounds(x: nat, y: nat, d: int, k: nat)
    requires d > 0 && x + y == k * d
    ensures k - y / d == CeilDiv(x, d)
    ensures 0 <= k - y / d <= k
    ensures k - y / d == 0 <==> x == 0
    ensures k - y / d == k <==> y < d
  {
    CeilComplement(x, y, d, k);
    DivAtLeast(y, d, 0);
    DivAtLeast(y, d, 1);
    CeilAtMost(x, d, 0);
    CeilAtMost(x, d, -1);
  }

  lemma ProductSign(a: nat, b: nat)
    ensures a * b >= 0
    ensures a * b == 0 <==> a == 0 || b == 0
  {
    MulMono(0, a, b);
    if a > 0 && b > 0 {
      MulMono(1, a, b);
    }
  }

  /** The nearest integer lies within half a unit of the quotient, and a tie goes up. */
  lemma RoundBounds(a: nat, d: int)
    requires d > 0
    ensures 2 * d * RoundDiv(a, d) <= 2 * a + d < 2 * d * RoundDiv(a, d) + 2 * d
    ensures RoundDiv(a, d) >= 0
  {
    DivBounds(2 * a + d, 2 * d);
    DivAtLeast(2 * a + d, 2 * d, 0);
    var q := RoundDiv(a, d);
    assert q * (2 * d) == 2 * d * q;
    assert (q + 1) * (2 * d) == 2 * d * q + 2 * d;
  }

  lemma RoundShift(a: nat, d: int, k: nat)
    requires d > 0
    ensures a + k * d >= 0
    ensures RoundDiv(a + k * d, d) == RoundDiv(a, d) + k
  {
    assert 2 * (a + k * d) + d == (2 * a + d) + k * (2 * d);
    DivShift(2 * a + d, 2 * d, k);
  }

  lemma RoundCancel(a: nat, d: int, k: int)
    requires d > 0 && k > 0
    ensures k * d > 0 && k * a >= 0
    ensures RoundDiv(k * a, k * d) == RoundDiv(a, d)
  {
    MulMono(1, d, k);
    MulMono(0, a, k);
    assert 2 * (k * a) + k * d == k * (2 * a + d);
    assert 2 * (k * d) == k * (2 * d);
    DivCancel(2 * a + d, 2 * d, k);
  }

  /** Conversion of a float to an integer, in Go and in big.Float: toward zero. */
  function Truncate(x: real): int {
    if x < 0.0 then -((-x).Floor) else x.Floor
  }
}
