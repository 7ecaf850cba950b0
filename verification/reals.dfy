/** Order and cancellation facts about real multiplication, stated once so that proofs can cite them. */
module Reals {

  /** Multiplying by a non-negative factor preserves order. */
  lemma MulLeft(c: real, x: real, y: real)
    requires c >= 0.0
    requires x <= y
    ensures c * x <= c * y
  {
  }

  /** A positive common factor can be cancelled from both sides of an inequality. */
  lemma MulCancel(c: real, x: real, y: real)
    requires c > 0.0
    requires c * x <= c * y
    ensures x <= y
  {
  }

  /** The product of two positive values is positive. */
  lemma MulPositive(x: real, y: real)
    requires x > 0.0 && y > 0.0
    ensures x * y > 0.0
  {
  }

  /** Dividing by a non-zero value and multiplying back gives the original value. */
  lemma DivMul(x: real, d: real)
    requires d != 0.0
    ensures (x / d) * d == x
  {
  }
}
