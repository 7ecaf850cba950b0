/**
 The slice of JavaScript number semantics that the loan-amount handler relies on:
 the value `Number(...)` produces, truthiness and `||`, and `Math.max` / `Math.min`.

 Finite values are exact reals; IEEE-754 rounding and the sign of zero are not
 modelled (`-0` and `0` are the same `Finite(0.0)`, and both are falsy).
 */
module JsNumber {

  /** A JavaScript number: NaN, one of the two infinities, or a finite value. */
  datatype Number = NaN | NegInfinity | Finite(value: real) | PosInfinity

  /** JavaScript truthiness of a number: everything except NaN and zero. */
  predicate Truthy(x: Number) {
    !x.NaN? && x != Finite(0.0)
  }

  /** `x || y` on numbers: `x` when it is truthy, otherwise `y`. */
  function Or(x: Number, y: Number): Number {
    if Truthy(x) then x else y
  }

  /** The order on non-NaN numbers: -Infinity below every finite value, +Infinity above. */
  predicate AtMost(a: Number, b: Number) {
    && !a.NaN?
    && !b.NaN?
    && (a.NegInfinity? || b.PosInfinity? || (a.Finite? && b.Finite? && a.value <= b.value))
  }

  /** `Math.max(a, b)`: NaN if either argument is NaN, otherwise the larger argument. */
  function Max(a: Number, b: Number): (r: Number)
    ensures r.NaN? <==> a.NaN? || b.NaN?
    ensures !r.NaN? ==> (r == a || r == b) && AtMost(a, r) && AtMost(b, r)
  {
    if a.NaN? || b.NaN? then NaN
    else if AtMost(a, b) then b
    else a
  }

  /** `Math.min(a, b)`: NaN if either argument is NaN, otherwise the smaller argument. */
  function Min(a: Number, b: Number): (r: Number)
    ensures r.NaN? <==> a.NaN? || b.NaN?
    ensures !r.NaN? ==> (r == a || r == b) && AtMost(r, a) && AtMost(r, b)
  {
    if a.NaN? || b.NaN? then NaN
    else if AtMost(a, b) then a
    else b
  }
}
