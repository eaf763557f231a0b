/**
 * Double-precision values without rounding. A finite double is a
 * mathematical real; the special values that the coherence code can produce
 * (f64::INFINITY as the cut of a graph without a cut, and what subtracting
 * it yields) are kept as their own constructors so that their arithmetic
 * follows IEEE 754.
 */
module Floats {

  datatype Float = Finite(value: real) | PosInf | NegInf | NaN

  /** a - b with the IEEE 754 rules for infinities and NaN */
  function Sub(a: Float, b: Float): (r: Float)
    ensures r.NaN? <==> a.NaN? || b.NaN? || (a.PosInf? && b.PosInf?) || (a.NegInf? && b.NegInf?)
    ensures r.Finite? <==> a.Finite? && b.Finite?
    ensures r.Finite? ==> r.value + b.value == a.value
    ensures a.PosInf? && (b.Finite? || b.NegInf?) ==> r.PosInf?
    ensures a.NegInf? && (b.Finite? || b.PosInf?) ==> r.NegInf?
    ensures a.Finite? && b.PosInf? ==> r.NegInf?
    ensures a.Finite? && b.NegInf? ==> r.PosInf?
  {
    match (a, b)
    case (NaN, _) => NaN
    case (_, NaN) => NaN
    case (PosInf, PosInf) => NaN
    case (NegInf, NegInf) => NaN
    case (PosInf, _) => PosInf
    case (NegInf, _) => NegInf
    case (Finite(_), PosInf) => NegInf
    case (Finite(_), NegInf) => PosInf
    case (Finite(x), Finite(y)) => Finite(x - y)
  }

  /** f64::abs: the magnitude, infinite for both infinities, NaN for NaN */
  function Abs(a: Float): (r: Float)
    ensures r.NaN? <==> a.NaN?
    ensures r.Finite? <==> a.Finite?
    ensures !r.NegInf?
    ensures a.Finite? ==> r.value >= 0.0 && (r.value == a.value || r.value == -a.value)
  {
    match a
    case Finite(x) => Finite(if x < 0.0 then -x else x)
    case NaN => NaN
    case _ => PosInf
  }

  /** The comparison `a > t` of a double with a finite double: false whenever a is NaN */
  predicate Greater(a: Float, t: real)
  {
    match a
    case Finite(x) => x > t
    case PosInf => true
    case NegInf => false
    case NaN => false
  }
}
