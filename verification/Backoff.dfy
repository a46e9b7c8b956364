/** The exponential backoff of pkg/backoff/backoff.go over exact reals; the random draw is a parameter
    and a delay is cut to whole nanoseconds. */
module Backoff {
  import opened Rounding

  datatype Config = Config(baseDelay: nat, multiplier: real, jitter: real, maxDelay: nat)

  function Pow(x: real, n: nat): real {
    if n == 0 then 1.0 else Pow(x, n - 1) * x
  }

  function Min(x: real, y: real): real {
    if x <= y then x else y
  }

  function Grown(c: Config, n: nat): real {
    c.baseDelay as real * Pow(c.multiplier, n)
  }

  function Count(retries: int): nat {
    if retries < 0 then 0 else retries
  }

  /** The promised delay before jitter: base * multiplier^retries, up to the ceiling. */
  function Capped(c: Config, retries: int): real {
    Min(c.maxDelay as real, Grown(c, Count(retries)))
  }

  /** How often the early-exit loop multiplies in n retries: until the ceiling is reached for the first time. */
  function Steps(c: Config, n: nat): (steps: nat)
    ensures steps <= n
    ensures steps < n ==> Grown(c, steps) >= c.maxDelay as real
    ensures forall k :: 0 <= k < steps ==> Grown(c, k) < c.maxDelay as real
  {
    if n == 0 then 0
    else
      var before := Steps(c, n - 1);
      if before < n - 1 || Grown(c, n - 1) >= c.maxDelay as real then before else n
  }

  /** The delay the loop ends with. */
  function Reached(c: Config, retries: int): real {
    Min(c.maxDelay as real, Grown(c, Steps(c, Count(retries))))
  }

  function Stretch(jitter: real, draw: real): real {
    1.0 + jitter * (draw * 2.0 - 1.0)
  }

  /** A delay stretched by the jitter: a draw of 0 shortens it most, a draw of 1 lengthens it most. */
  function Jittered(delay: real, jitter: real, draw: real): real {
    delay * Stretch(jitter, draw)
  }

  function Drawn(delay: real, jitter: real, draw: real): (nanos: nat) {
    if Jittered(delay, jitter, draw) < 0.0 then 0 else Truncate(Jittered(delay, jitter, draw))
  }

  /** The range announced for a delay. */
  function Announced(delay: real, jitter: real): (int, int) {
    if Jittered(delay, jitter, 0.0) < 0.0 then (0, 0)
    else (Truncate(Jittered(delay, jitter, 0.0)), Truncate(Jittered(delay, jitter, 1.0)))
  }

  // ---------- the three operations ----------

  lemma StepsStop(c: Config, done: nat, n: nat)
    requires done <= n && Grown(c, done) >= c.maxDelay as real
    requires forall k :: 0 <= k < done ==> Grown(c, k) < c.maxDelay as real
    ensures Steps(c, n) == done
  {
  }

  /** The loop shared by both operations: it stops multiplying as soon as the ceiling is reached. */
  method Grow(c: Config, retries: int) returns (delay: real)
    ensures delay == Reached(c, retries)
  {
    var max := c.maxDelay as real;
    delay := c.baseDelay as real;
    var left := retries;
    ghost var done := 0;
    while delay < max && left > 0
      invariant 0 <= done <= Count(retries) && left == retries - done
      invariant delay == Grown(c, done)
      invariant forall k :: 0 <= k < done ==> Grown(c, k) < max
      decreases left
    {
      delay := delay * c.multiplier;
      left, done := left - 1, done + 1;
    }
    if delay >= max {
      StepsStop(c, done, Count(retries));
    }
    if delay > max {
      delay := max;
    }
  }

  /** The delay before one retry, for a random draw. */
  method Delay(c: Config, retries: int, draw: real) returns (nanos: nat)
    ensures nanos == Drawn(Reached(c, retries), c.jitter, draw)
  {
    var delay := Grow(c, retries);
    delay := Jittered(delay, c.jitter, draw);
    if delay < 0.0 {
      return 0;
    }
    nanos := Truncate(delay);
  }

  /** The range a delay is announced to lie in. */
  method Range(c: Config, retries: int) returns (low: int, high: int)
    ensures (low, high) == Announced(Reached(c, retries), c.jitter)
  {
    var delay := Grow(c, retries);
    var min := Jittered(delay, c.jitter, 0.0);
    var max := Jittered(delay, c.jitter, 1.0);
    if min < 0.0 {
      return 0, 0;
    }
    low, high := Truncate(min), Truncate(max);
  }

  // ---------- the loop against its promise ----------

  lemma ScaleMono(a: real, p: real, q: real)
    requires a >= 0.0 && p <= q
    ensures a * p <= a * q
  {
    assert a * q == a * p + a * (q - p);
  }

  lemma Share(a: real, p: real)
    requires a >= 0.0 && 0.0 <= p <= 1.0
    ensures 0.0 <= a * p <= a
  {
    assert a * p + a * (1.0 - p) == a;
  }

  lemma {:induction false} PowGrows(x: real, m: nat, n: nat)
    requires x >= 1.0 && m <= n
    ensures 1.0 <= Pow(x, m) <= Pow(x, n)
    decreases n
  {
    if n == 0 {
    } else if m == n {
      PowGrows(x, n - 1, n - 1);
      ScaleMono(Pow(x, n - 1), 1.0, x);
    } else {
      PowGrows(x, m, n - 1);
      ScaleMono(Pow(x, n - 1), 1.0, x);
    }
  }

  lemma {:induction false} PowShrinks(x: real, n: nat)
    requires 0.0 <= x <= 1.0
    ensures 0.0 <= Pow(x, n) <= 1.0
  {
    if n > 0 {
      PowShrinks(x, n - 1);
      Share(Pow(x, n - 1), x);
    }
  }

  /** Once the ceiling is reached, further retries stay on it. */
  lemma CappedStays(c: Config, done: nat, retries: nat)
    requires c.multiplier >= 1.0 && done <= retries && Grown(c, done) >= c.maxDelay as real
    ensures Capped(c, retries) == c.maxDelay as real
  {
    hide Grown;
    GrownMono(c, done, retries);
  }

  lemma GrownMono(c: Config, m: nat, n: nat)
    requires c.multiplier >= 1.0 && m <= n
    ensures 0.0 <= Grown(c, m) <= Grown(c, n)
  {
    PowGrows(c.multiplier, m, n);
    ScaleMono(c.baseDelay as real, Pow(c.multiplier, m), Pow(c.multiplier, n));
    ScaleMono(c.baseDelay as real, 0.0, Pow(c.multiplier, m));
  }

  lemma CappedMonotone(c: Config, m: int, n: int)
    requires c.multiplier >= 1.0 && m <= n
    ensures 0.0 <= Capped(c, m) <= Capped(c, n) <= c.maxDelay as real
  {
    hide Grown;
    GrownMono(c, Count(m), Count(n));
  }

  /** The early-exit loop computes min(max, base * multiplier^retries) exactly when the multiplier does not shrink the
      delay, or it does and the base is below the ceiling or the shrunk delay is not. */
  lemma ReachedIsCappedIff(c: Config, retries: int)
    requires c.multiplier >= 0.0
    ensures Reached(c, retries) == Capped(c, retries) <==>
              c.multiplier >= 1.0 || c.baseDelay < c.maxDelay || Grown(c, Count(retries)) >= c.maxDelay as real
  {
    var n := Count(retries);
    var steps := Steps(c, n);
    if c.multiplier >= 1.0 {
      if steps < n {
        CappedStays(c, steps, n);
      }
    } else {
      assert Grown(c, 0) == c.baseDelay as real * 1.0;
      ShrunkBelowBase(c, n);
      ShrunkBelowBase(c, steps);
      if c.baseDelay >= c.maxDelay {
        StepsStop(c, 0, n);
      }
    }
  }

  lemma ShrunkBelowBase(c: Config, n: nat)
    requires 0.0 <= c.multiplier <= 1.0
    ensures 0.0 <= Grown(c, n) <= c.baseDelay as real
  {
    PowShrinks(c.multiplier, n);
    ScaleMono(c.baseDelay as real, Pow(c.multiplier, n), 1.0);
    ScaleMono(c.baseDelay as real, 0.0, Pow(c.multiplier, n));
  }

  lemma ReachedIsDelay(c: Config, retries: int)
    requires c.multiplier >= 0.0
    ensures 0.0 <= Reached(c, retries) <= c.maxDelay as real
  {
    var steps := Steps(c, Count(retries));
    if c.multiplier >= 1.0 {
      PowGrows(c.multiplier, steps, steps);
      ScaleMono(c.baseDelay as real, 0.0, Pow(c.multiplier, steps));
    } else {
      ShrunkBelowBase(c, steps);
    }
  }

  // ---------- draws against the announced range ----------

  predicate Lands(delay: real, jitter: real, draw: real) {
    Announced(delay, jitter).0 <= Drawn(delay, jitter, draw) <= Announced(delay, jitter).1
  }

  /** A jitter of either sign moves the delay monotonically with the draw. */
  lemma JitterBounds(delay: real, jitter: real, draw: real)
    requires delay >= 0.0 && 0.0 <= draw <= 1.0
    ensures jitter >= 0.0 ==>
              Jittered(delay, jitter, 0.0) <= Jittered(delay, jitter, draw) <= Jittered(delay, jitter, 1.0)
    ensures jitter <= 0.0 ==>
              Jittered(delay, jitter, 1.0) <= Jittered(delay, jitter, draw) <= Jittered(delay, jitter, 0.0)
    ensures jitter <= 1.0 ==> Jittered(delay, jitter, 0.0) >= 0.0
  {
    hide Stretch, Jittered;
    StretchBounds(jitter, draw);
    if jitter >= 0.0 {
      Stretched(delay, jitter, 0.0, draw);
      Stretched(delay, jitter, draw, 1.0);
    }
    if jitter <= 0.0 {
      Stretched(delay, jitter, 1.0, draw);
      Stretched(delay, jitter, draw, 0.0);
    }
    if jitter <= 1.0 {
      StretchedSign(delay, jitter, 0.0);
    }
  }

  lemma Stretched(delay: real, jitter: real, a: real, b: real)
    requires delay >= 0.0 && Stretch(jitter, a) <= Stretch(jitter, b)
    ensures Jittered(delay, jitter, a) <= Jittered(delay, jitter, b)
  {
    hide Stretch;
    ScaleMono(delay, Stretch(jitter, a), Stretch(jitter, b));
  }

  lemma StretchedSign(delay: real, jitter: real, a: real)
    requires delay >= 0.0 && Stretch(jitter, a) >= 0.0
    ensures Jittered(delay, jitter, a) >= 0.0
  {
    hide Stretch;
    ScaleMono(delay, 0.0, Stretch(jitter, a));
  }

  lemma StretchBounds(jitter: real, draw: real)
    requires 0.0 <= draw <= 1.0
    ensures jitter >= 0.0 ==> Stretch(jitter, 0.0) <= Stretch(jitter, draw) <= Stretch(jitter, 1.0)
    ensures jitter <= 0.0 ==> Stretch(jitter, 1.0) <= Stretch(jitter, draw) <= Stretch(jitter, 0.0)
    ensures Stretch(jitter, 0.0) == 1.0 - jitter
  {
    var x := draw * 2.0 - 1.0;
    assert Stretch(jitter, 1.0) == 1.0 + jitter && Stretch(jitter, 0.0) == 1.0 - jitter;
    assert Stretch(jitter, draw) == 1.0 + jitter * x;
    if jitter >= 0.0 {
      Share(jitter, draw);
    } else {
      Share(-jitter, draw);
      assert (-jitter) * draw == -(jitter * draw);
    }
    assert jitter * x == 2.0 * (jitter * draw) - jitter;
  }

  lemma TruncateMono(x: real, y: real)
    requires x <= y
    ensures Truncate(x) <= Truncate(y)
  {
  }

  /** The formulas behind both: a draw gives the whole nanoseconds of delay * (1 + jitter * (2 * draw - 1)), and the
      announced ends are the extreme draws. */
  lemma DrawnIs(delay: real, jitter: real, draw: real)
    requires delay >= 0.0 && 0.0 <= jitter <= 1.0 && 0.0 <= draw <= 1.0
    ensures var exact := delay * (1.0 + jitter * (draw * 2.0 - 1.0));
            exact >= 0.0 && Drawn(delay, jitter, draw) as real <= exact < Drawn(delay, jitter, draw) as real + 1.0
    ensures Announced(delay, jitter) == (Drawn(delay, jitter, 0.0), Drawn(delay, jitter, 1.0))
  {
    JitterBounds(delay, jitter, draw);
    JitterBounds(delay, jitter, 1.0);
  }

  /** With a jitter of at most the whole delay, every draw lands in the announced range. */
  method DelayInRange(c: Config, retries: int, draw: real) returns (low: int, nanos: nat, high: int)
    requires c.multiplier >= 0.0 && 0.0 <= c.jitter <= 1.0
    requires 0.0 <= draw < 1.0
    ensures low <= nanos <= high
  {
    low, high := Range(c, retries);
    nanos := Delay(c, retries, draw);
    ReachedIsDelay(c, retries);
    DrawLands(Reached(c, retries), c.jitter, draw);
  }

  lemma DrawLands(delay: real, jitter: real, draw: real)
    requires delay >= 0.0 && 0.0 <= jitter <= 1.0 && 0.0 <= draw < 1.0
    ensures Lands(delay, jitter, draw)
  {
    hide Jittered, Truncate;
    JitterBounds(delay, jitter, draw);
    TruncateMono(Jittered(delay, jitter, 0.0), Jittered(delay, jitter, draw));
    TruncateMono(Jittered(delay, jitter, draw), Jittered(delay, jitter, 1.0));
  }

  /** A negative jitter announces the range the wrong way round: every draw lies between the upper and the lower end. */
  lemma NegativeJitterInverts(delay: real, jitter: real, draw: real)
    requires delay >= 0.0 && jitter < 0.0 && 0.0 <= draw < 1.0
    ensures Announced(delay, jitter).1 <= Drawn(delay, jitter, draw) <= Announced(delay, jitter).0
  {
    JitterBounds(delay, jitter, draw);
    hide Jittered, Truncate;
    TruncateMono(Jittered(delay, jitter, 1.0), Jittered(delay, jitter, draw));
    TruncateMono(Jittered(delay, jitter, draw), Jittered(delay, jitter, 0.0));
    ZeroCut();
    TruncateMono(0.0, Jittered(delay, jitter, 0.0));
    if Jittered(delay, jitter, draw) < 0.0 {
      TruncateMono(Jittered(delay, jitter, 1.0), 0.0);
    }
  }

  lemma ZeroCut()
    ensures Truncate(0.0) == 0
  {
  }

  /** A jitter above one collapses the range to nothing while a draw of three quarters does not. */
  lemma WideJitterMisses(delay: real, jitter: real)
    requires delay >= 1.0 && jitter > 1.0
    ensures Announced(delay, jitter) == (0, 0) && Drawn(delay, jitter, 0.75) > 0
  {
    StretchBounds(jitter, 0.75);
    assert Stretch(jitter, 0.75) == 1.0 + jitter * 0.5;
    assert Stretch(jitter, 0.0) < 0.0;
    NegativeProduct(delay, Stretch(jitter, 0.0));
    ScaleMono(delay, 1.0, Stretch(jitter, 0.75));
    assert Jittered(delay, jitter, 0.75) >= 1.0;
  }

  lemma NegativeProduct(a: real, b: real)
    requires a > 0.0 && b < 0.0
    ensures a * b < 0.0
  {
  }

  /** Exactly when every draw lands in the announced range of a delay of at least a nanosecond: a jitter between nothing
      and the whole delay, or a negative one too small to move the delay by a nanosecond. */
  lemma DrawsLandIff(delay: real, jitter: real)
    requires delay >= 1.0
    ensures (forall draw: real :: 0.0 <= draw < 1.0 ==> Lands(delay, jitter, draw)) <==>
              0.0 <= jitter <= 1.0 || (jitter < 0.0 && Announced(delay, jitter).0 == Announced(delay, jitter).1)
  {
    hide Announced, Drawn;
    if 0.0 <= jitter <= 1.0 {
      forall draw: real | 0.0 <= draw < 1.0
        ensures Lands(delay, jitter, draw)
      {
        DrawLands(delay, jitter, draw);
      }
    } else if jitter < 0.0 {
      forall draw: real | 0.0 <= draw < 1.0
        ensures Lands(delay, jitter, draw) <==> Announced(delay, jitter).0 == Announced(delay, jitter).1
      {
        NegativeJitterInverts(delay, jitter, draw);
      }
      assert Lands(delay, jitter, 0.5) <==> Announced(delay, jitter).0 == Announced(delay, jitter).1;
    } else {
      WideJitterMisses(delay, jitter);
      assert !Lands(delay, jitter, 0.75);
    }
  }
}
