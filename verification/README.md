# Loan calculator: a Dafny model

This project models the arithmetic core of the website's loan calculator
component (`src/components/LoanCalculator.tsx`). The model has two parts.

- **Amount normalisation.** `handleAmountChange` turns whatever was typed into the
  amount field into a loan amount. It coerces the text to a number, replaces a
  falsy number (NaN or 0) by 1000 and clamps the result to [1000, 500000].
- **Payment calculation.** `calculateLoan` computes the monthly payment and the
  total payment from four inputs: the amount, the annual rate in percent, the
  duration in months and the interest model.
  - Simple interest: the total is `P * (1 + rate/100 * months/12)` and the
    monthly payment is that total spread over the months.
  - Compound interest: the monthly payment is the annuity
    `P * r * (1+r)^n / ((1+r)^n - 1)` with the monthly rate `r = rate/100/12`,
    and the total is `n` times that payment.

Modules, one per concern:

- `JsNumber` (`js_number.dfy`): the JavaScript numbers the amount handler
  sees. A number is NaN, one of the two infinities or a finite value. The
  module also defines truthiness, `||`, `Math.max` and `Math.min`, with NaN
  propagation.
- `LoanAmount` (`loan_amount.dfy`): the normaliser, its bounds and its fixed
  points.
- `Interest` (`interest.dfy`):
  - both formulas, with `Math.pow` replaced by a recursive `Pow`;
  - the annuity factor `v + v^2 + ... + v^n`, the present value of one unit a
    month, where `v = 1/(1+r)`.

  The compound payment is characterised as the level payment whose present
  value is the principal. This characterisation gives positivity, "repays at
  least the principal" and monotonicity in the rate.
- `Amortisation` (`amortisation.dfy`): month-by-month reference schedules.
  - Compound: the balance grows by the monthly rate and then one payment is
    subtracted. The compound payment is proved to clear the loan in exactly
    `n` months, and to be the only level payment that does.
  - Simple: each month adds interest on the original principal. The simple
    total is proved to be what that accrual reaches.
- `LoanCalculator` (`loan_calculator.dfy`):
  - the calculator's inputs and their initial values;
  - the amount edit, and `calculateLoan` choosing between the two formulas;
  - properties across both models;
  - the displayed figures for a few concrete inputs.
- `Reals` (`reals.dfy`): order and cancellation facts about real
  multiplication that the proofs cite.

All arithmetic is over exact reals. The source computes in IEEE-754 doubles.
The model states what the formulas mean and leaves out the rounding error of
evaluating them in floating point.

The code has no guard for a zero duration or a zero compound rate. It
divides by the duration at line 35, and by `(1+r)^n - 1` at line 42, which is
zero when the rate is zero. The model excludes those inputs with the
`Computable` precondition (`duration >= 1`, and `rate > 0` under compound
interest). The slider minimums guarantee it: the rate slider starts at 1
(line 97) and the duration slider at 1 (line 112).

For 100000 at 12% over 12 months, compound, the formula gives a total of
106618.546…, shown as 106618.55 (`CompoundExample`).

## Model

| member | source | states |
|---|---|---|
| JsNumber.Max | src/components/LoanCalculator.tsx:17 | `Math.max` is NaN exactly when an argument is NaN; otherwise it is one of its arguments and no smaller than either |
| JsNumber.Min | src/components/LoanCalculator.tsx:17 | `Math.min` is NaN exactly when an argument is NaN; otherwise it is one of its arguments and no larger than either |
| LoanAmount.Normalise | src/components/LoanCalculator.tsx:16-19 | the stored amount is always in [1000, 500000]; NaN and 0 give 1000; -Infinity and finite values below 1000 give 1000; +Infinity and values above 500000 give 500000; values in range are kept |
| LoanAmount.NormaliseIdempotent | src/components/LoanCalculator.tsx:17 | normalising an already normalised amount changes nothing |
| LoanAmount.NormaliseFixedPoints | src/components/LoanCalculator.tsx:17 | a finite amount is left unchanged if and only if it lies in [1000, 500000] |
| LoanAmount.NormaliseExamples | src/components/LoanCalculator.tsx:17 | 999 gives 1000, 600000 gives 500000, -5 gives 1000, 0 gives 1000, NaN gives 1000, 250000 stays |
| Interest.SimpleLoan | src/components/LoanCalculator.tsx:25-35 | under simple interest the total is monthly payment times months; the interest is `P * rate/100 * months/12`; with non-negative principal and rate the total is at least the principal; a zero rate gives total = principal |
| Interest.SimpleMonotoneInRate | src/components/LoanCalculator.tsx:32-35 | under simple interest a higher rate never lowers the total or the monthly payment (non-negative principal) |
| Interest.CompoundLoan | src/components/LoanCalculator.tsx:36-46 | for a positive rate and at least one month: the total is monthly payment times months, and the monthly payments, discounted by `1/(1+r)` per month, are worth exactly the principal |
| Interest.PowAboveOne | src/components/LoanCalculator.tsx:42 | `(1+r)^n > 1` for `r > 0` and `n >= 1`, so the annuity's denominator is positive |
| Interest.GrowthIdentity | src/components/LoanCalculator.tsx:40-42 | `(1+r)^n - 1 == r * (1+r)^n * (v + ... + v^n)` with `v = 1/(1+r)`: the identity that links the closed-form annuity to the present value of its payments |
| Interest.AnnuityHasPrincipalAsPresentValue | src/components/LoanCalculator.tsx:40-42 | the closed-form payment `P * (r * g) / (g - 1)` with `g = (1+r)^n` is well defined, and `n` such payments discounted by `1/(1+r)` are worth `P` |
| Interest.CompoundMonthlyPositive | src/components/LoanCalculator.tsx:39-42 | a non-negative principal gives a non-negative compound payment, and a positive principal a positive one |
| Interest.CompoundTotalAtLeastPrincipal | src/components/LoanCalculator.tsx:45 | with a positive rate the compound total is at least the principal |
| Interest.CompoundMonthlyMonotoneInRate | src/components/LoanCalculator.tsx:39-42 | under compound interest a higher rate never lowers the monthly payment |
| Interest.CompoundTotalMonotoneInRate | src/components/LoanCalculator.tsx:45 | under compound interest a higher rate never lowers the total |
| Amortisation.BalanceClosedForm | src/components/LoanCalculator.tsx:40-42 | after `k` months of growth at `r` and one payment each, the balance is `P * (1+r)^k` less the grown payments |
| Amortisation.AnnuityPaymentAccumulates | src/components/LoanCalculator.tsx:40-42 | `n` closed-form payments, each grown from its month on, reach what the principal grows to in `n` months |
| Amortisation.CompoundLoanRepaid | src/components/LoanCalculator.tsx:39-45 | paying the compound monthly payment for the whole duration leaves a balance of exactly zero |
| Amortisation.CompoundPaymentUnique | src/components/LoanCalculator.tsx:39-45 | a level payment clears the loan in exactly `n` months if and only if it equals the compound monthly payment |
| Amortisation.SimpleLoanAccrues | src/components/LoanCalculator.tsx:27-32 | the simple total equals the principal plus one month of interest on the original principal for every month |
| LoanCalculator.OnAmountInput | src/components/LoanCalculator.tsx:16-19 | an amount edit stores an amount in [1000, 500000] (1000 for NaN or 0, the value itself when in range) and leaves rate, duration and interest model unchanged |
| LoanCalculator.CalculateLoan | src/components/LoanCalculator.tsx:25-47 | for computable inputs the total is monthly times months; simple interest adds `P * rate/100 * months/12`; compound payments have the principal as present value |
| LoanCalculator.RepaysAtLeastPrincipal | src/components/LoanCalculator.tsx:25-47 | with non-negative amount and rate the displayed total is at least the amount, under either model |
| LoanCalculator.MonotoneInRate | src/components/LoanCalculator.tsx:25-47 | raising the rate with everything else fixed never lowers the displayed monthly payment or total, under either model |
| LoanCalculator.AmountEditKeepsComputable | src/components/LoanCalculator.tsx:16-23 | from any computable inputs with a non-negative rate (the initial inputs among them), an amount edit keeps the payments computable and the total is at least 1000 |
| LoanCalculator.InitialPayments | src/components/LoanCalculator.tsx:9-35 | the initial inputs (1000, 5%, 12 months, simple) show 87.5 a month and 1050 in all |
| LoanCalculator.SimpleExample | src/components/LoanCalculator.tsx:30-35 | 100000 at 10% over 12 months, simple: 110000 in all and 110000/12 a month |
| LoanCalculator.CompoundExample | src/components/LoanCalculator.tsx:36-46 | 100000 at 12% over 12 months, compound: within half a cent of 8884.88 a month and of 106618.55 in all, so these are the figures shown at two fraction digits |

## Left out

- React state and rendering. The input hooks (lines 9-12) become the
  `Inputs` record and its `Initial` value; the output hooks (lines 13-14)
  hold the `Payments` shown. The `useEffect` recomputation
  trigger (lines 21-23) is not modelled: the payments shown are
  `CalculateLoan` of the current inputs. The JSX markup is not modelled.
- Currency formatting with `toLocaleString` and at most two fraction digits
  (lines 125, 131). It depends on the host's locale library.
- IEEE-754 rounding. Values are exact reals, and `-0` is not distinguished
  from `0`.
- NaN and Infinity results. These come from the zero-duration and zero-rate
  divisions, and are excluded by the `Computable` precondition.
- Parsing of the field's text by `Number(...)`. The model starts from the
  number that parsing produced.
- The three range-slider handlers (lines 85, 101, 115) and the select handler
  for the interest model. They store the control's value directly. Their only
  effect on the core is the lower bounds of the duration and rate sliders,
  which appear as the `Computable` precondition.
- Negative rates under compound interest. The rate slider never produces
  them. The compound results are modelled for positive rates only.
- `src/components/Services.tsx` is static markup and links, with nothing to
  model.
- `LoanCalculator.CompoundExample`: the total and the monthly payment are
  bounded to within half a cent of the displayed figures, not given exactly.
  The exact values are quotients of 25-digit integers.
