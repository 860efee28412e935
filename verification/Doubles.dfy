/** Doubles as far as the battery daemon can tell them apart: exact reals, and NaN. An infinite current
    is represented by any number of its sign beyond the overcurrent limit; the guard treats them alike. */
module Doubles {
  import opened Reals

  datatype Num = Fin(x: real) | NaN

  // ----- Arithmetic: NaN in, NaN out -----

  function Plus(a: Num, b: Num): Num { if a.Fin? && b.Fin? then Fin(a.x + b.x) else NaN }

  function Scale(c: real, a: Num): Num { if a.Fin? then Fin(c * a.x) else NaN }

  // ----- Comparisons: false on NaN -----

  predicate Above(a: Num, limit: real) { a.Fin? && a.x > limit }

  predicate Below(a: Num, limit: real) { a.Fin? && a.x < limit }

  predicate AtLeast(a: Num, limit: real) { a.Fin? && a.x >= limit }

  predicate AtMost(a: Num, limit: real) { a.Fin? && a.x <= limit }

  /** `std::abs(a) > limit`. */
  predicate Exceeds(a: Num, limit: real) { a.Fin? && Abs(a.x) > limit }
}
