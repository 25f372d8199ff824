/**
 * The only floating-point values the search code uses are `float('inf')` and
 * `float('-inf')`, compared against Python integers. They are modelled as an
 * integer extended with the two infinities.
 */
module ExtendedInt {
  datatype ExtInt = NegInf | Fin(value: int) | PosInf

  /** Python's `a > b` between two values that are each an int or an infinity. */
  predicate Greater(a: ExtInt, b: ExtInt)
  {
    match (a, b)
    case (NegInf, _) => false
    case (PosInf, PosInf) => false
    case (PosInf, _) => true
    case (Fin(_), NegInf) => true
    case (Fin(_), PosInf) => false
    case (Fin(x), Fin(y)) => x > y
  }
}
