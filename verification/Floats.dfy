/** The values of a float64 as the price oracle meets them: exact reals, the infinity of a division by zero, and no
    number at all. */
module Floats {
  datatype Float = Finite(value: real) | Infinite | NotANumber

  const ZERO := Finite(0.0)

  /** `f > 0`: an infinity passes, no number does not. */
  predicate Positive(f: Float) {
    f.Infinite? || (f.Finite? && f.value > 0.0)
  }
}
