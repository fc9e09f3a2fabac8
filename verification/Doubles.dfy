/** Floating-point numbers as the scores use them: exact numbers, the infinities that a
    division by zero gives, and NaN.  No divisor is a negative zero. */
module Doubles {

  datatype Double = Finite(value: real) | PosInf | NegInf | NaN

  function Quotient(a: real, b: real): Double {
    if b != 0.0 then Finite(a / b)
    else if a > 0.0 then PosInf
    else if a < 0.0 then NegInf
    else NaN
  }

  function Over(a: Double, b: real): Double {
    match a
    case Finite(v) => Quotient(v, b)
    case PosInf => if b < 0.0 then NegInf else PosInf
    case NegInf => if b < 0.0 then PosInf else NegInf
    case NaN => NaN
  }

  function Plus(a: Double, b: Double): Double {
    if a.NaN? || b.NaN? || (a.PosInf? && b.NegInf?) || (a.NegInf? && b.PosInf?) then NaN
    else if a.PosInf? || b.PosInf? then PosInf
    else if a.NegInf? || b.NegInf? then NegInf
    else Finite(a.value + b.value)
  }

  /** Every comparison with NaN is false. */
  predicate Less(a: Double, b: Double) {
    match (a, b)
    case (NaN, _) => false
    case (_, NaN) => false
    case (Finite(v), Finite(w)) => v < w
    case (NegInf, _) => !b.NegInf?
    case (_, PosInf) => !a.PosInf?
    case _ => false
  }
}
