/**
 The two payment formulas of the loan calculator, over exact reals.

 Rates are annual percentages; durations are whole months. `Math.pow` becomes
 the recursive `Pow` below, and the division by zero the formulas would
 perform for a zero duration (both models) or a zero rate (compound model)
 is excluded by the preconditions, as the calculator's sliders exclude it.
 */
module Interest {
  import opened Reals

  /** The interest model chosen in the calculator's select box. */
  datatype InterestType = Simple | Compound

  /** What the calculator displays: the payment due each month and the sum of all payments. */
  datatype Payments = Payments(monthly: real, total: real)

  /** `x` raised to the whole power `n`. */
  function Pow(x: real, n: nat): real {
    if n == 0 then 1.0 else x * Pow(x, n - 1)
  }

  /**
   The annuity factor `v + v^2 + ... + v^n`: the present value of one unit
   paid at the end of each of `n` months, each discounted by `v` per month.
   */
  function AnnuityFactor(v: real, n: nat): real {
    if n == 0 then 0.0 else v * (1.0 + AnnuityFactor(v, n - 1))
  }

  /** The monthly rate, as a fraction, that corresponds to an annual rate in percent. */
  function MonthlyRate(ratePercent: real): real {
    ratePercent / 100.0 / 12.0
  }

  /** The one-month discount factor `1 / (1 + r)` for a non-negative annual rate in percent. */
  function Discount(ratePercent: real): real
    requires ratePercent >= 0.0
  {
    1.0 / (1.0 + MonthlyRate(ratePercent))
  }

  // ---------------------------------------------------------------------------
  // Facts about powers and annuity factors

  /** A base above 1 raised to a positive power stays above 1. */
  lemma {:induction false} PowAboveOne(x: real, n: nat)
    requires x > 1.0
    requires n >= 1
    ensures Pow(x, n) > 1.0
  {
    if n > 1 {
      PowAboveOne(x, n - 1);
      MulLeft(Pow(x, n - 1), 1.0, x);
    }
  }

  /**
   With `v` the discount factor of the monthly rate `r`, the growth `(1+r)^n`
   less one is `r` times the growth times the annuity factor: the interest on
   `v + ... + v^n` grown for `n` months.
   */
  lemma {:induction false} GrowthIdentity(r: real, v: real, n: nat)
    requires (1.0 + r) * v == 1.0
    ensures Pow(1.0 + r, n) - 1.0 == r * (Pow(1.0 + r, n) * AnnuityFactor(v, n))
  {
    if n > 0 {
      GrowthIdentity(r, v, n - 1);
      GrowthIdentityStep(r, v, n);
    }
  }

  /** The inductive step of `GrowthIdentity`: unfolds one month of the growth and the annuity factor. */
  lemma GrowthIdentityStep(r: real, v: real, n: nat)
    requires n > 0
    requires (1.0 + r) * v == 1.0
    requires Pow(1.0 + r, n - 1) - 1.0 == r * (Pow(1.0 + r, n - 1) * AnnuityFactor(v, n - 1))
    ensures Pow(1.0 + r, n) - 1.0 == r * (Pow(1.0 + r, n) * AnnuityFactor(v, n))
  {
    var p, a := Pow(1.0 + r, n - 1), AnnuityFactor(v, n - 1);
    assert ((1.0 + r) * p) * (v * (1.0 + a)) == ((1.0 + r) * v) * (p + p * a);
  }

  /** The annuity factor of a positive discount factor is positive once there is a month to pay. */
  lemma {:induction false} AnnuityFactorPositive(v: real, n: nat)
    requires v > 0.0
    ensures AnnuityFactor(v, n) >= 0.0
    ensures n >= 1 ==> AnnuityFactor(v, n) > 0.0
  {
    if n > 0 {
      AnnuityFactorPositive(v, n - 1);
      MulPositive(v, 1.0 + AnnuityFactor(v, n - 1));
    }
  }

  /** With a discount factor of at most 1, each of the `n` discounted units is worth at most 1. */
  lemma {:induction false} AnnuityFactorAtMostMonths(v: real, n: nat)
    requires 0.0 < v <= 1.0
    ensures AnnuityFactor(v, n) <= n as real
  {
    if n > 0 {
      AnnuityFactorAtMostMonths(v, n - 1);
      AnnuityFactorPositive(v, n - 1);
      MulLeft(1.0 + AnnuityFactor(v, n - 1), v, 1.0);
    }
  }

  /** A larger discount factor gives a larger annuity factor. */
  lemma {:induction false} AnnuityFactorMonotone(v1: real, v2: real, n: nat)
    requires 0.0 < v1 <= v2
    ensures AnnuityFactor(v1, n) <= AnnuityFactor(v2, n)
  {
    if n > 0 {
      AnnuityFactorMonotone(v1, v2, n - 1);
      AnnuityFactorPositive(v1, n - 1);
      AnnuityFactorStepOrder(v1, v2, n);
    }
  }

  /** The inductive step of `AnnuityFactorMonotone`: unfolds one month of both factors. */
  lemma AnnuityFactorStepOrder(v1: real, v2: real, n: nat)
    requires n > 0
    requires 0.0 < v1 <= v2
    requires 0.0 <= AnnuityFactor(v1, n - 1) <= AnnuityFactor(v2, n - 1)
    ensures AnnuityFactor(v1, n) <= AnnuityFactor(v2, n)
  {
    var a1, a2 := AnnuityFactor(v1, n - 1), AnnuityFactor(v2, n - 1);
    assert AnnuityFactor(v1, n) == v1 * (1.0 + a1);
    assert AnnuityFactor(v2, n) == v2 * (1.0 + a2);
    MonotoneStep(v1, v2, a1, a2);
  }

  /** The inductive step of `AnnuityFactorMonotone`, on plain values. */
  lemma MonotoneStep(v1: real, v2: real, a1: real, a2: real)
    requires 0.0 < v1 <= v2
    requires 0.0 <= a1 <= a2
    ensures v1 * (1.0 + a1) <= v2 * (1.0 + a2)
  {
    MulLeft(1.0 + a1, v1, v2);
    MulLeft(v2, 1.0 + a1, 1.0 + a2);
  }

  // ---------------------------------------------------------------------------
  // Simple interest

  /**
   Simple interest: the total is `P * (1 + rate/100 * months/12)`, the interest
   is the total less the principal, and the monthly payment is the principal
   plus the interest spread evenly over the months.
   */
  function SimpleLoan(principal: real, ratePercent: real, duration: nat): (p: Payments)
    requires duration >= 1
    ensures p.total == p.monthly * duration as real
    ensures p.total - principal == principal * (ratePercent / 100.0) * (duration as real / 12.0)
    ensures principal >= 0.0 && ratePercent >= 0.0 ==> p.total >= principal
    ensures ratePercent == 0.0 ==> p.total == principal
  {
    var ratePerYear := ratePercent / 100.0;
    var timeInYears := duration as real / 12.0;
    var totalAmount := principal * (1.0 + ratePerYear * timeInYears);
    var interest := totalAmount - principal;
    Payments((principal + interest) / duration as real, totalAmount)
  }

  /** Under simple interest a higher rate never lowers the total nor the monthly payment. */
  lemma SimpleMonotoneInRate(principal: real, rate1: real, rate2: real, duration: nat)
    requires principal >= 0.0
    requires rate1 <= rate2
    requires duration >= 1
    ensures SimpleLoan(principal, rate1, duration).total <= SimpleLoan(principal, rate2, duration).total
    ensures SimpleLoan(principal, rate1, duration).monthly <= SimpleLoan(principal, rate2, duration).monthly
  {
    var t := duration as real / 12.0;
    assert principal * (rate2 - rate1) * t >= 0.0;
    var p1, p2 := SimpleLoan(principal, rate1, duration), SimpleLoan(principal, rate2, duration);
    assert p1.monthly * duration as real <= p2.monthly * duration as real;
  }

  // ---------------------------------------------------------------------------
  // Compound interest

  /**
   The level monthly payment `P * (r * g) / (g - 1)` of the annuity formula,
   with `g` the growth `(1+r)^n` of one unit over the whole loan.
   */
  function AnnuityPayment(principal: real, r: real, growth: real): real
    requires growth > 1.0
  {
    principal * (r * growth) / (growth - 1.0)
  }

  /**
   Compound interest, monthly: with `r` the monthly rate and `n` the number of
   months, the monthly payment is the annuity `P * r * (1+r)^n / ((1+r)^n - 1)`
   and the total is that payment times `n`.

   The annuity is the level payment whose present value, each instalment
   discounted by `1 / (1+r)` per month, is exactly the principal.
   */
  function CompoundLoan(principal: real, ratePercent: real, duration: nat): (p: Payments)
    requires ratePercent > 0.0
    requires duration >= 1
    ensures p.total == p.monthly * duration as real
    ensures p.monthly * AnnuityFactor(Discount(ratePercent), duration) == principal
  {
    var monthlyRate := MonthlyRate(ratePercent);
    var growth := Pow(1.0 + monthlyRate, duration);
    DiscountUndoesGrowth(ratePercent);
    AnnuityHasPrincipalAsPresentValue(principal, monthlyRate, Discount(ratePercent), duration);
    var monthlyPaymentAmount := AnnuityPayment(principal, monthlyRate, growth);
    Payments(monthlyPaymentAmount, monthlyPaymentAmount * duration as real)
  }

  /** Discounting by `Discount(rate)` undoes one month of growth at that rate. */
  lemma DiscountUndoesGrowth(ratePercent: real)
    requires ratePercent >= 0.0
    ensures (1.0 + MonthlyRate(ratePercent)) * Discount(ratePercent) == 1.0
  {
    DivMul(1.0, 1.0 + MonthlyRate(ratePercent));
  }

  /**
   For a positive monthly rate `r` and at least one month, the annuity formula
   is well defined, and its payments, each discounted by `v == 1 / (1 + r)` per
   month, are worth exactly the principal.
   */
  lemma AnnuityHasPrincipalAsPresentValue(principal: real, r: real, v: real, n: nat)
    requires r > 0.0
    requires n >= 1
    requires (1.0 + r) * v == 1.0
    ensures Pow(1.0 + r, n) > 1.0
    ensures AnnuityPayment(principal, r, Pow(1.0 + r, n)) * AnnuityFactor(v, n) == principal
  {
    PowAboveOne(1.0 + r, n);
    GrowthIdentity(r, v, n);
    AnnuityAlgebra(principal, r, Pow(1.0 + r, n), AnnuityFactor(v, n));
  }

  /** The algebra behind the annuity: with `g - 1 == r * g * a`, the annuity payment times `a` is `P`. */
  lemma AnnuityAlgebra(principal: real, r: real, g: real, a: real)
    requires r > 0.0 && g > 1.0
    requires g - 1.0 == r * (g * a)
    ensures AnnuityPayment(principal, r, g) * a == principal
  {
    var m := principal * (r * g) / (g - 1.0);
    DivMul(principal * (r * g), g - 1.0);
    assert m * (g - 1.0) == principal * (r * g);
    assert m * (r * g * a) == principal * (r * g);
    assert (r * g) * (m * a) == (r * g) * principal;
    MulPositive(r, g);
  }

  /** A positive principal gives a positive monthly payment; a non-negative one a non-negative payment. */
  lemma CompoundMonthlyPositive(principal: real, ratePercent: real, duration: nat)
    requires principal >= 0.0
    requires ratePercent > 0.0
    requires duration >= 1
    ensures CompoundLoan(principal, ratePercent, duration).monthly >= 0.0
    ensures principal > 0.0 ==> CompoundLoan(principal, ratePercent, duration).monthly > 0.0
  {
    AnnuityFactorPositive(Discount(ratePercent), duration);
    SignOfQuotient(principal, CompoundLoan(principal, ratePercent, duration).monthly,
                   AnnuityFactor(Discount(ratePercent), duration));
  }

  /** If `m * a == P` with `a` positive, then `m` has the sign of `P`. */
  lemma SignOfQuotient(principal: real, m: real, a: real)
    requires a > 0.0
    requires m * a == principal
    ensures principal >= 0.0 ==> m >= 0.0
    ensures principal > 0.0 ==> m > 0.0
  {
    if m < 0.0 {
      MulLeft(a, m, 0.0);
    }
  }

  /** With a positive rate, the compound total repays at least the principal. */
  lemma CompoundTotalAtLeastPrincipal(principal: real, ratePercent: real, duration: nat)
    requires principal >= 0.0
    requires ratePercent > 0.0
    requires duration >= 1
    ensures CompoundLoan(principal, ratePercent, duration).total >= principal
  {
    var p := CompoundLoan(principal, ratePercent, duration);
    var v := Discount(ratePercent);
    CompoundMonthlyPositive(principal, ratePercent, duration);
    DiscountDecreasing(0.0, ratePercent);
    AnnuityFactorAtMostMonths(v, duration);
    MulLeft(p.monthly, AnnuityFactor(v, duration), duration as real);
  }

  /** Under compound interest a higher rate never lowers the monthly payment. */
  lemma CompoundMonthlyMonotoneInRate(principal: real, rate1: real, rate2: real, duration: nat)
    requires principal >= 0.0
    requires 0.0 < rate1 <= rate2
    requires duration >= 1
    ensures CompoundLoan(principal, rate1, duration).monthly <= CompoundLoan(principal, rate2, duration).monthly
  {
    var v1, v2 := Discount(rate1), Discount(rate2);
    DiscountDecreasing(rate1, rate2);
    AnnuityFactorMonotone(v2, v1, duration);
    AnnuityFactorPositive(v2, duration);
    CompoundMonthlyPositive(principal, rate1, duration);
    LevelPaymentOrder(principal, CompoundLoan(principal, rate1, duration).monthly,
                      CompoundLoan(principal, rate2, duration).monthly,
                      AnnuityFactor(v1, duration), AnnuityFactor(v2, duration));
  }

  /** A higher rate discounts more: `1 / (1 + r)` shrinks as `r` grows. */
  lemma DiscountDecreasing(rate1: real, rate2: real)
    requires 0.0 <= rate1 <= rate2
    ensures 0.0 < Discount(rate2) <= Discount(rate1) <= 1.0
  {
    ReciprocalOrder(1.0 + MonthlyRate(rate1), 1.0 + MonthlyRate(rate2));
  }

  /** For `1 <= q1 <= q2`: `0 < 1/q2 <= 1/q1 <= 1`. */
  lemma ReciprocalOrder(q1: real, q2: real)
    requires 1.0 <= q1 <= q2
    ensures 0.0 < 1.0 / q2 <= 1.0 / q1 <= 1.0
  {
    DivMul(1.0, q1);
    DivMul(1.0, q2);
    MulLeft(1.0 / q2, q1, q2);
    MulLeft(1.0 / q1, 1.0, q1);
  }

  /**
   Two level payments with the same present value: the one discounted by the
   smaller factor is the larger payment.
   */
  lemma LevelPaymentOrder(principal: real, m1: real, m2: real, a1: real, a2: real)
    requires m1 >= 0.0
    requires 0.0 < a2 <= a1
    requires m1 * a1 == principal && m2 * a2 == principal
    ensures m1 <= m2
  {
    MulLeft(m1, a2, a1);
    MulCancel(a2, m1, m2);
  }

  /** Under compound interest a higher rate never lowers the total. */
  lemma CompoundTotalMonotoneInRate(principal: real, rate1: real, rate2: real, duration: nat)
    requires principal >= 0.0
    requires 0.0 < rate1 <= rate2
    requires duration >= 1
    ensures CompoundLoan(principal, rate1, duration).total <= CompoundLoan(principal, rate2, duration).total
  {
    CompoundMonthlyMonotoneInRate(principal, rate1, rate2, duration);
    MulLeft(duration as real, CompoundLoan(principal, rate1, duration).monthly,
            CompoundLoan(principal, rate2, duration).monthly);
  }
}
