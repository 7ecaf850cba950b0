/**
 Normalisation of the loan amount typed into the calculator's number field:
 the raw input is coerced to a number, a falsy number (NaN or zero) falls back
 to the default amount, and the result is clamped to the advertised range.
 */
module LoanAmount {
  import opened JsNumber

  /** Smallest loan amount the calculator offers. */
  const MinAmount: real := 1000.0

  /** Largest loan amount the calculator offers. */
  const MaxAmount: real := 500000.0

  /** Amount used when the input is not a usable number. */
  const DefaultAmount: real := 1000.0

  /** The amount lies in the advertised range. */
  predicate InRange(x: real) {
    MinAmount <= x <= MaxAmount
  }

  /**
   The amount stored after an edit of the number field, given the value
   `Number(input)` produced: `min(max(raw || 1000, 1000), 500000)`.
   */
  function Normalise(raw: Number): (amount: real)
    ensures InRange(amount)
    ensures !Truthy(raw) ==> amount == DefaultAmount
    ensures raw.NegInfinity? ==> amount == MinAmount
    ensures raw.PosInfinity? ==> amount == MaxAmount
    ensures raw.Finite? && raw.value != 0.0 && raw.value < MinAmount ==> amount == MinAmount
    ensures raw.Finite? && raw.value > MaxAmount ==> amount == MaxAmount
    ensures raw.Finite? && InRange(raw.value) ==> amount == raw.value
  {
    match Min(Max(Or(raw, Finite(DefaultAmount)), Finite(MinAmount)), Finite(MaxAmount))
    case Finite(v) => v
    case _ => assert false; MinAmount
  }

  /** Normalising an amount that was already normalised changes nothing. */
  lemma NormaliseIdempotent(raw: Number)
    ensures Normalise(Finite(Normalise(raw))) == Normalise(raw)
  {
  }

  /** The amounts left unchanged by normalisation are exactly those in the advertised range. */
  lemma NormaliseFixedPoints(x: real)
    ensures Normalise(Finite(x)) == x <==> InRange(x)
  {
  }

  /** A few boundary cases of the clamp. */
  lemma NormaliseExamples()
    ensures Normalise(Finite(999.0)) == 1000.0
    ensures Normalise(Finite(600000.0)) == 500000.0
    ensures Normalise(Finite(-5.0)) == 1000.0
    ensures Normalise(Finite(0.0)) == 1000.0
    ensures Normalise(NaN) == 1000.0
    ensures Normalise(Finite(250000.0)) == 250000.0
  {
  }
}
