/**
 Month-by-month schedules: reference definitions of what the two formulas are
 meant to compute.

 Under compound interest, each month the outstanding balance grows by the
 monthly rate and then one payment is subtracted; the compound payment is the
 one level payment that leaves nothing owed after the last month. Under simple
 interest, each month adds interest on the original principal only.
 */
module Amortisation {
  import opened Reals
  import opened Interest

  /** The balance still owed after `k` monthly payments of `payment` at monthly rate `r`. */
  function Balance(principal: real, r: real, payment: real, k: nat): real {
    if k == 0 then principal else Balance(principal, r, payment, k - 1) * (1.0 + r) - payment
  }

  /**
   What `k` payments of one unit are worth after `k` months: each month the sum
   paid so far grows by the monthly rate and one more unit is paid.
   */
  function AccumulatedUnits(r: real, k: nat): real {
    if k == 0 then 0.0 else AccumulatedUnits(r, k - 1) * (1.0 + r) + 1.0
  }

  /**
   Closed form of the schedule: after `k` months the balance is the principal
   grown for `k` months less the payments made, each grown from its month on.
   */
  lemma {:induction false} BalanceClosedForm(principal: real, r: real, payment: real, k: nat)
    ensures Balance(principal, r, payment, k)
         == principal * Pow(1.0 + r, k) - payment * AccumulatedUnits(r, k)
  {
    if k > 0 {
      BalanceClosedForm(principal, r, payment, k - 1);
      BalanceClosedFormStep(principal, r, payment, k);
    }
  }

  /** The inductive step of `BalanceClosedForm`: unfolds one month of each function. */
  lemma BalanceClosedFormStep(principal: real, r: real, payment: real, k: nat)
    requires k > 0
    requires Balance(principal, r, payment, k - 1)
          == principal * Pow(1.0 + r, k - 1) - payment * AccumulatedUnits(r, k - 1)
    ensures Balance(principal, r, payment, k)
         == principal * Pow(1.0 + r, k) - payment * AccumulatedUnits(r, k)
  {
    var p, u := Pow(1.0 + r, k - 1), AccumulatedUnits(r, k - 1);
    assert (principal * p - payment * u) * (1.0 + r) - payment
        == principal * ((1.0 + r) * p) - payment * (u * (1.0 + r) + 1.0);
  }

  /** One unit a month for `k` months, at monthly rate `r`, earns exactly the growth `(1+r)^k - 1` in interest. */
  lemma {:induction false} AccumulatedUnitsInterest(r: real, k: nat)
    ensures r * AccumulatedUnits(r, k) == Pow(1.0 + r, k) - 1.0
  {
    if k > 0 {
      AccumulatedUnitsInterest(r, k - 1);
      AccumulatedUnitsInterestStep(r, k);
    }
  }

  /** The inductive step of `AccumulatedUnitsInterest`: unfolds one month of each function. */
  lemma AccumulatedUnitsInterestStep(r: real, k: nat)
    requires k > 0
    requires r * AccumulatedUnits(r, k - 1) == Pow(1.0 + r, k - 1) - 1.0
    ensures r * AccumulatedUnits(r, k) == Pow(1.0 + r, k) - 1.0
  {
    var u := AccumulatedUnits(r, k - 1);
    assert r * (u * (1.0 + r)) == (r * u) * (1.0 + r);
  }

  /** With a non-negative rate, `k >= 1` payments of one unit are worth at least one unit. */
  lemma {:induction false} AccumulatedUnitsPositive(r: real, k: nat)
    requires r >= 0.0
    ensures AccumulatedUnits(r, k) >= 0.0
    ensures k >= 1 ==> AccumulatedUnits(r, k) >= 1.0
  {
    if k > 0 {
      AccumulatedUnitsPositive(r, k - 1);
      MulLeft(AccumulatedUnits(r, k - 1), 0.0, 1.0 + r);
    }
  }

  /**
   The annuity payment for growth `g == (1+r)^n`, paid for `n` months, grows to
   exactly what the principal grows to.
   */
  lemma AnnuityPaymentAccumulates(principal: real, r: real, n: nat)
    requires r > 0.0
    requires n >= 1
    ensures Pow(1.0 + r, n) > 1.0
    ensures AnnuityPayment(principal, r, Pow(1.0 + r, n)) * AccumulatedUnits(r, n) == principal * Pow(1.0 + r, n)
  {
    PowAboveOne(1.0 + r, n);
    AccumulatedUnitsInterest(r, n);
    PaymentCancel(principal, r, Pow(1.0 + r, n), AccumulatedUnits(r, n));
  }

  /** The algebra of `AnnuityPaymentAccumulates`: with `r * s == g - 1`, the payment times `s` is `P * g`. */
  lemma PaymentCancel(principal: real, r: real, g: real, s: real)
    requires r > 0.0 && g > 1.0
    requires r * s == g - 1.0
    ensures AnnuityPayment(principal, r, g) * s == principal * g
  {
    var m := AnnuityPayment(principal, r, g);
    DivMul(principal * (r * g), g - 1.0);
    assert r * (m * s) == r * (principal * g);
    MulCancel(r, m * s, principal * g);
    MulCancel(r, principal * g, m * s);
  }

  /** Paying the compound monthly payment for the whole duration leaves nothing owed. */
  lemma CompoundLoanRepaid(principal: real, ratePercent: real, duration: nat)
    requires ratePercent > 0.0
    requires duration >= 1
    ensures Balance(principal, MonthlyRate(ratePercent), CompoundLoan(principal, ratePercent, duration).monthly, duration) == 0.0
  {
    var r := MonthlyRate(ratePercent);
    var m := CompoundLoan(principal, ratePercent, duration).monthly;
    BalanceClosedForm(principal, r, m, duration);
    AnnuityPaymentAccumulates(principal, r, duration);
  }

  /**
   The compound monthly payment is the only level payment that leaves nothing
   owed after the last month.
   */
  lemma CompoundPaymentUnique(principal: real, ratePercent: real, duration: nat, payment: real)
    requires ratePercent > 0.0
    requires duration >= 1
    ensures Balance(principal, MonthlyRate(ratePercent), payment, duration) == 0.0
        <==> payment == CompoundLoan(principal, ratePercent, duration).monthly
  {
    var r := MonthlyRate(ratePercent);
    var m := CompoundLoan(principal, ratePercent, duration).monthly;
    BalanceClosedForm(principal, r, payment, duration);
    AnnuityPaymentAccumulates(principal, r, duration);
    AccumulatedUnitsPositive(r, duration);
    ZeroBalanceIff(Balance(principal, r, payment, duration), principal * Pow(1.0 + r, duration),
                   AccumulatedUnits(r, duration), payment, m);
  }

  /**
   The algebra of `CompoundPaymentUnique`: when `x` payments of accumulated
   worth `s > 0` leave `b` owed and `m` is the payment that matches what is owed,
   nothing is left owed exactly when `x == m`.
   */
  lemma ZeroBalanceIff(b: real, owed: real, s: real, x: real, m: real)
    requires s > 0.0
    requires b == owed - x * s
    requires m * s == owed
    ensures b == 0.0 <==> x == m
  {
    SameProduct(s, x, m);
  }

  /** Multiplying by a positive factor is injective. */
  lemma SameProduct(a: real, x: real, y: real)
    requires a > 0.0
    ensures x * a == y * a <==> x == y
  {
    if x * a == y * a {
      if x < y {
        MulLeft(a, x, y);
        MulCancel(a, y, x);
      } else if y < x {
        MulLeft(a, y, x);
        MulCancel(a, x, y);
      }
    }
  }

  // ---------------------------------------------------------------------------
  // Simple interest, month by month

  /** What is owed after `k` months when each month adds interest at monthly rate `r` on the original principal only. */
  function SimpleAccrual(principal: real, r: real, k: nat): real {
    if k == 0 then principal else SimpleAccrual(principal, r, k - 1) + principal * r
  }

  /** After `k` months of simple accrual, `k` months of interest on the principal have been added. */
  lemma {:induction false} SimpleAccrualClosedForm(principal: real, r: real, k: nat)
    ensures SimpleAccrual(principal, r, k) == principal + k as real * (principal * r)
  {
    if k > 0 {
      SimpleAccrualClosedForm(principal, r, k - 1);
    }
  }

  /** The simple-interest total is the principal with one month of interest on it added for every month of the loan. */
  lemma SimpleLoanAccrues(principal: real, ratePercent: real, duration: nat)
    requires duration >= 1
    ensures SimpleLoan(principal, ratePercent, duration).total == SimpleAccrual(principal, MonthlyRate(ratePercent), duration)
  {
    SimpleAccrualClosedForm(principal, MonthlyRate(ratePercent), duration);
  }
}
