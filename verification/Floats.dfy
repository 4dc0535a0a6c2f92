/** Floating-point numbers without rounding: finite values are reals, and the
    infinities and NaN are kept because the source's branches can see them. */
module Floats {
  datatype Float = Finite(r: real) | PosInf | NegInf | NaN

  predicate Less(a: Float, b: Float) {
    match (a, b)
    case (Finite(x), Finite(y)) => x < y
    case (NegInf, Finite(_)) => true
    case (NegInf, PosInf) => true
    case (Finite(_), PosInf) => true
    case _ => false
  }

  predicate AtMost(a: Float, b: Float) {
    Less(a, b) || (a == b && a != NaN)
  }

  /** |a - b| < 1e-9; the difference of two equal infinities is NaN. */
  predicate Near(a: Float, b: Float) {
    a.Finite? && b.Finite? && -0.000000001 < a.r - b.r < 0.000000001
  }

  /** |a - b| >= 1e-9; false when the difference is NaN. */
  predicate Apart(a: Float, b: Float) {
    if a == NaN || b == NaN then false
    else if a.Finite? && b.Finite? then !Near(a, b)
    else a != b
  }
}
