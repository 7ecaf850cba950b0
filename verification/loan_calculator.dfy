/**
 The calculator as a whole: the four inputs it keeps, the edit of the amount
 field, and `calculateLoan`, which picks the simple or the compound formula.

 The displayed payments are recomputed after every change of an input, so
 what is on screen is always `CalculateLoan` of the current inputs; the
 recomputation trigger itself is React plumbing and is not part of the model.
 */
module LoanCalculator {
  import opened JsNumber
  import opened LoanAmount
  import opened Interest

  /** The inputs the calculator keeps: amount, annual rate in percent, months and interest model. */
  datatype Inputs = Inputs(amount: real, interestRate: real, duration: nat, interestType: InterestType)

  /** The inputs before any edit: 1000 at 5% over 12 months, simple interest. */
  const Initial: Inputs := Inputs(1000.0, 5.0, 12, Simple)

  /**
   The inputs for which `calculateLoan` does not divide by zero: at least one
   month and, under compound interest, a positive rate. The duration slider
   starts at 1 month and the rate slider at 1%.
   */
  predicate Computable(s: Inputs) {
    s.duration >= 1 && (s.interestType == Compound ==> s.interestRate > 0.0)
  }

  /** An edit of the amount field: the amount becomes the normalised value, nothing else changes. */
  function OnAmountInput(s: Inputs, raw: Number): (s': Inputs)
    ensures InRange(s'.amount)
    ensures !Truthy(raw) ==> s'.amount == DefaultAmount
    ensures raw.Finite? && InRange(raw.value) ==> s'.amount == raw.value
    ensures s'.interestRate == s.interestRate && s'.duration == s.duration
    ensures s'.interestType == s.interestType
    ensures Computable(s) ==> Computable(s')
  {
    s.(amount := Normalise(raw))
  }

  /** `calculateLoan`: the payments shown for the current inputs. */
  function CalculateLoan(s: Inputs): (p: Payments)
    requires Computable(s)
    ensures p.total == p.monthly * s.duration as real
    ensures s.interestType == Simple ==>
              p.total - s.amount == s.amount * (s.interestRate / 100.0) * (s.duration as real / 12.0)
    ensures s.interestType == Compound ==>
              p.monthly * AnnuityFactor(Discount(s.interestRate), s.duration) == s.amount
  {
    if s.interestType == Simple then SimpleLoan(s.amount, s.interestRate, s.duration)
    else CompoundLoan(s.amount, s.interestRate, s.duration)
  }

  /** With a non-negative principal and rate, the borrower repays at least the principal. */
  lemma RepaysAtLeastPrincipal(s: Inputs)
    requires Computable(s)
    requires s.amount >= 0.0 && s.interestRate >= 0.0
    ensures CalculateLoan(s).total >= s.amount
  {
    if s.interestType == Compound {
      CompoundTotalAtLeastPrincipal(s.amount, s.interestRate, s.duration);
    }
  }

  /**
   Raising the rate, everything else unchanged, never lowers the monthly
   payment nor the total, under either interest model.
   */
  lemma MonotoneInRate(s: Inputs, rate: real)
    requires Computable(s)
    requires s.amount >= 0.0
    requires s.interestRate <= rate
    ensures Computable(s.(interestRate := rate))
    ensures CalculateLoan(s).monthly <= CalculateLoan(s.(interestRate := rate)).monthly
    ensures CalculateLoan(s).total <= CalculateLoan(s.(interestRate := rate)).total
  {
    match s.interestType
    case Simple =>
      SimpleMonotoneInRate(s.amount, s.interestRate, rate, s.duration);
    case Compound =>
      CompoundMonthlyMonotoneInRate(s.amount, s.interestRate, rate, s.duration);
      CompoundTotalMonotoneInRate(s.amount, s.interestRate, rate, s.duration);
  }

  /**
   Any amount edit of computable inputs with a non-negative rate keeps them
   computable, and the total shown afterwards is at least the smallest amount.
   */
  lemma AmountEditKeepsComputable(s: Inputs, raw: Number)
    requires Computable(s) && s.interestRate >= 0.0
    ensures Computable(OnAmountInput(s, raw))
    ensures CalculateLoan(OnAmountInput(s, raw)).total >= MinAmount
  {
    RepaysAtLeastPrincipal(OnAmountInput(s, raw));
  }

  /** What the calculator shows before any edit: 87.5 a month, 1050 in all. */
  lemma InitialPayments()
    ensures Computable(Initial)
    ensures CalculateLoan(Initial) == Payments(87.5, 1050.0)
  {
  }

  /** Simple interest on 100000 at 10% over 12 months: 110000 in all, 110000/12 a month. */
  lemma SimpleExample()
    ensures CalculateLoan(Inputs(100000.0, 10.0, 12, Simple)) == Payments(110000.0 / 12.0, 110000.0)
  {
  }

  /**
   Compound interest on 100000 at 12% over 12 months (1% a month): about
   8884.88 a month and 106618.55 in all: each lies within half a cent of that figure.
   */
  lemma CompoundExample()
    ensures 8884.875 < CalculateLoan(Inputs(100000.0, 12.0, 12, Compound)).monthly < 8884.885
    ensures 106618.545 < CalculateLoan(Inputs(100000.0, 12.0, 12, Compound)).total < 106618.555
  {
    var growth := Pow(1.01, 12);
    assert Pow(1.01, 12) == 1.126825030131969720661201 by {
      PowOfOnePointZeroOne();
    }
    assert MonthlyRate(12.0) == 0.01;
    var m := AnnuityPayment(100000.0, 0.01, growth);
    assert m == 100000.0 * (0.01 * 1.126825030131969720661201) / 0.126825030131969720661201;
  }

  /** `1.01^12`, evaluated exactly. */
  lemma PowOfOnePointZeroOne()
    ensures Pow(1.01, 12) == 1.126825030131969720661201
  {
    assert Pow(1.01, 3) == 1.030301;
    assert Pow(1.01, 6) == 1.061520150601;
    assert Pow(1.01, 9) == 1.093685272684360901;
  }
}
