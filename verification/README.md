# Loan calculator amortisation engine, in Dafny

This project models the amortisation engine of the `caas-loan-calculator` web
component and proves properties of it. The engine turns a loan into a schedule
of payment records. The loan has a type (`'linear'` or `'annuity'`), a principal,
a payment interval and a term in months, a grace period and an interest rate. Each
record gives the interest and principal paid in one period, as percentages of a
capitalised base and as rounded amounts.

Everything is computed over exact reals (`real`), so there is no floating-point
error. The modules follow the engine's pieces:

- `Numeric` (numeric.dfy): `Math.pow` for a whole exponent (`Pow`), `Math.round`
  as `(x + 0.5).Floor` (`Round`), and `parseInt` applied to a number, which
  truncates toward zero (`Trunc`).
- `Terms` (terms.dfy): `computeNumberOfTerms`. Its result `terms` is a real. The
  driver loop runs `IterationCount(terms)` times, which is ⌈terms⌉ for a
  positive `terms` and 0 otherwise. The formulas
  divide by `n = parseInt(terms)`, which is ⌊terms⌋. The model keeps these two
  numbers separate.
- `Policies` (policies.dfy): the formulas of one period, as unrounded
  percentages. For the linear policy: `A_k = T/n` and `R_k = (T − k·A_k)·i`. For
  the annuity: a fixed payment `J = i(1+i)^n/((1+i)^n − 1)·T`, with `R_k = i·T_{k−1}`,
  `A_k = J − R_k` and `T_k = T_{k−1} − A_k`. This module also defines the
  capitalised base `T`.
- `Records` (records.dfy): `_createSinglePaymentObject`, which rounds every field
  and numbers the period from one.
- `Calculator` (calculator.dfy): the `loanType` dispatch of
  `_createSinglePayment`, and `_computeRepayments` as a fold (`Run`). The source
  keeps two instance fields that every iteration mutates. The fold passes them
  from one iteration to the next as an explicit `Fields` value.
- `Schedule` (schedule.dfy): for each policy, proves that record `k` of the fold
  is the rounded form of the policy's period-`k` formula. It also proves the
  properties of whole schedules.
- `Loop` (loop.dfy): the same driver loop written as the source writes it: a
  `while` loop against the real bound, mutating the fields in place. It is proved
  equal to the fold.
- `Chart` (chart.dfy): `parseChartRows`.
- `Scenarios` (scenarios.dfy): concrete loans worked through the model.

The grace-period factor `Math.pow(1 + i, grace / 12)` has a fractional exponent,
which has no exact real value here. It is a parameter `growth`. The predicate
`IsGraceGrowth` says what is known about it:

- it is positive;
- it is at least 1 for a non-negative grace period;
- it is exactly 1 at rate 0;
- it is exactly `(1+i)^(grace/12)` when the grace period is a whole number of years.

In particular, a grace period of 0 gives a base of exactly 100.

Points where the code is followed literally:

- No input is validated.
- A zero-month term gives one record, because the loop bound is `0 / interval + 1 = 1`.
  See `Scenarios.ZeroTermSingleRecord`.
- An unknown loan type gives an array of `undefined` entries, not an error.
- For a positive interval and a non-negative term that the interval does not
  divide, the loop runs `n + 1` times. A linear schedule then repays `1 + 1/n`
  times the base (`Schedule.FractionalTermsOverpay`). The extra annuity record
  comes after the debt is cleared: it charges no interest and pays the whole
  payment `J` again as principal (`Schedule.FractionalAnnuityExtraRecord`).

## Model

| member | source | states |
|---|---|---|
| Numeric.Round | caas-loan-calculator.js:169-173 | `Math.round`: the result is the integer within half a unit of `x`, with halves rounded up |
| Numeric.RoundOfSumWithinOne | caas-loan-calculator.js:171-173 | rounding a sum differs from summing the rounded parts by at most one |
| Numeric.Trunc | caas-loan-calculator.js:83-88 | `parseInt` of a number truncates toward zero: the result is the integer next to `x` on the side of zero |
| Terms.NumberOfTerms | caas-loan-calculator.js:74-77 | `terms · interval = term + interval`; when the interval divides the term, `terms` is exactly `term/interval + 1`, and it is at least 1 for a non-negative term and positive interval |
| Terms.IterationCount | caas-loan-calculator.js:81 | the loop `iteration = 0; iteration < terms` runs exactly the least natural number of times that is not below `terms` |
| Terms.IterationsExceedPeriodsByAtMostOne | caas-loan-calculator.js:81-86 | once `terms ≥ 1`, the loop runs `n = parseInt(terms)` or `n + 1` times |
| Terms.WholeAndFractionalTerms | caas-loan-calculator.js:74-86 | `n` is `term/interval + 1` rounded down; the loop runs exactly `n` times when the interval divides the term and `n + 1` times otherwise |
| Policies.CapitalisedBase | caas-loan-calculator.js:106-110 | the base is positive, exactly 100 with grace 0 or rate 0, at least 100 for a non-negative grace period, and `100·(1+i)^(grace/12)` for whole grace years |
| Policies.LinearSplitClosedForm | caas-loan-calculator.js:112-115 | the linear principal share is the `n`-th part of the base; the interest share is the rate applied to the `(n−k)/n` of the base still owed |
| Policies.LinearPrincipalConstant | caas-loan-calculator.js:114 | the linear principal share is the same in every period |
| Policies.LinearInterestDeclines | caas-loan-calculator.js:115 | for `0 ≤ j ≤ k ≤ n` and non-negative base and rate: `0 ≤ R_k ≤ R_j ≤ T·i`, and `R_k = 0` at rate 0 |
| Policies.LinearPrincipalPaidIs | caas-loan-calculator.js:114 | `m` linear periods retire `m/n` of the base |
| Policies.LinearRepaysBase | caas-loan-calculator.js:112-114 | `n` linear periods retire exactly the base; `n + 1` periods retire `1/n` too much |
| Policies.AnnuityPayment | caas-loan-calculator.js:157-165 | `J·((1+i)^n − 1) = i·(1+i)^n·T`; for a positive base `J` exceeds the interest `i·T` on the whole base, and it is 0 for a zero base |
| Policies.AnnuityDebtClosedForm | caas-loan-calculator.js:141-145 | the remaining-debt recurrence has the closed form `i·T_k = (1+i)^k·(i·T − J) + J` |
| Policies.AnnuityMargin | caas-loan-calculator.js:141-145 | `i·T_k = J − (1+i)^k·(J − i·T)`, and the principal share `AnnuitySplit` gives period `k` (what is left of `J` after interest on the remaining debt) is `(1+i)^k·(J − i·T)`: it grows geometrically |
| Policies.AnnuityPaysOff | caas-loan-calculator.js:138-145 | at a positive rate, the payment `J` of `n` periods brings the remaining debt to exactly 0 after `n` periods |
| Policies.AnnuityDebtFalls | caas-loan-calculator.js:141-145 | a payment that covers the interest on the base never lets the remaining debt rise from one period to the next |
| Policies.DebtNonNegativeUntilCleared | caas-loan-calculator.js:141-145 | such a payment, clearing the debt after `n` periods, leaves a non-negative debt before every period up to `n` |
| Policies.AnnuityDebtNonNegative | caas-loan-calculator.js:138-145 | for a non-negative base and `k ≤ n`, the remaining debt before period `k` is non-negative |
| Policies.AnnuitySharesNonNegative | caas-loan-calculator.js:141-142 | for a non-negative base and `k ≤ n`, both shares of period `k` are non-negative |
| Policies.AnnuityPrincipalPaidIs | caas-loan-calculator.js:142-145 | the principal retired so far plus the remaining debt always equals the base |
| Policies.AnnuityRepaysBase | caas-loan-calculator.js:138-145 | at a positive rate, the `n` annuity principal shares add up to exactly the base |
| Records.PaymentObject | caas-loan-calculator.js:167-176 | each field is `Math.round` of its unrounded value; the total is rounded from the unrounded sum of the two amounts and is within one of the sum of the rounded amounts; `iteration = k + 1` |
| Records.PaymentObjectNonNegative | caas-loan-calculator.js:169-172 | for a non-negative principal, non-negative shares give non-negative percentages and amounts |
| Records.PaymentObjectInterestMonotone | caas-loan-calculator.js:169-171 | for a non-negative principal, a smaller interest share never gives a larger rounded interest percentage or amount |
| Calculator.LinearPeriod | caas-loan-calculator.js:105-126 | iteration 0 sets the base field and no later period changes either field; the remaining-debt field is never touched; the principal percentage is the rounded `n`-th part of the base; the record is numbered `k + 1` |
| Calculator.AnnuityPeriod | caas-loan-calculator.js:130-155 | iteration 0 sets both fields to the base; the interest percentage is the rounded rate on the remaining debt; the debt follows `T_k = (1+i)·T_{k−1} − J` with `J` of the base field; the total is the rounded amount of `J` |
| Calculator.SinglePayment | caas-loan-calculator.js:94-103 | the `switch` on the loan type (`PolicyOf`: `'linear'`, `'annuity'`, anything else) gives a record exactly when the loan type is known, numbered `k + 1`; the base field is set at iteration 0 and never changed after; only the annuity touches the remaining-debt field |
| Calculator.Run | caas-loan-calculator.js:81-91 | iterations `k .. count−1` give `count − k` entries, records exactly when the type is known, entry `j` numbered `k + j + 1` |
| Calculator.Repayments | caas-loan-calculator.js:79-92 | one entry per whole `iteration` in `[0, terms)`, in order; record `k` has `iteration = k + 1`; `undefined` entries exactly when `PolicyOf` finds no policy for the loan type |
| Schedule.LinearStep | caas-loan-calculator.js:105-126 | one linear iteration reads the base that iteration 0 set and leaves it in place |
| Schedule.LinearRun | caas-loan-calculator.js:105-126 | every linear iteration is the rounded linear share of its period over the base fixed at iteration 0 |
| Schedule.AnnuityRun | caas-loan-calculator.js:130-155 | every annuity iteration is the rounded annuity share of its period, with `J` from the fixed base and the debt left after the earlier periods |
| Schedule.LoanFacts | caas-loan-calculator.js:81-88 | for a computable loan the base is positive and the rate non-negative; if there is a record, the formulas are defined and there are at most `n + 1` records |
| Schedule.LinearSchedule | caas-loan-calculator.js:79-126 | record `k` of a linear schedule is the rounded `LinearSplit` of period `k` |
| Schedule.AnnuitySchedule | caas-loan-calculator.js:79-155 | record `k` of an annuity schedule is the rounded `AnnuitySplit` of period `k` against the closed-form debt `AnnuityDebt` |
| Schedule.RepaymentsIgnoreStaleFields | caas-loan-calculator.js:108-110 | whatever the instance fields held before, the schedule is the same, because iteration 0 resets everything a policy reads |
| Schedule.LinearPrincipalIdentical | caas-loan-calculator.js:114-121 | in a linear schedule, `principlePercentage` and `principleAmount` are the same in every record |
| Schedule.LinearPrincipalNonNegative | caas-loan-calculator.js:112-121 | in a linear schedule with a non-negative principal, no principal percentage or amount is negative |
| Schedule.LinearInterestDeclining | caas-loan-calculator.js:115-122 | in a linear schedule with a non-negative principal, the interest percentage and amount are non-negative and never grow from a record to a later one; all are 0 at rate 0 |
| Schedule.AnnuityTotalConstant | caas-loan-calculator.js:139-143 | in an annuity schedule every `totalCurrentPayment` is the rounded amount of the one payment `J` |
| Schedule.AnnuityNothingNegative | caas-loan-calculator.js:138-150 | in an annuity schedule with a non-negative principal, no percentage or amount is negative |
| Schedule.WholeTermsRepayBase | caas-loan-calculator.js:74-145 | when the interval divides a non-negative term, there are exactly `n` records, and their unrounded principal shares add up to exactly the base under either policy |
| Schedule.FractionalTermsOverpay | caas-loan-calculator.js:74-115 | when the interval does not divide the term, there are `n + 1` records, and the linear principal shares add up to `1 + 1/n` times the base |
| Policies.AnnuityExtraPeriod | caas-loan-calculator.js:138-145 | a period after the `n` that clear the debt charges no interest, and its principal share is the whole payment `J` |
| Schedule.FractionalAnnuityExtraRecord | caas-loan-calculator.js:74-145 | when the interval does not divide a non-negative term, an annuity schedule has `n + 1` records, and the last one is the rounded split of interest 0 and principal `J` |
| Loop.ComputeRepayments | caas-loan-calculator.js:79-92 | the imperative loop, started from any stale field values, returns exactly `Repayments` |
| Chart.ChartRows | caas-loan-calculator.js:182-187 | there are rows exactly when every entry is a record; one row per entry, in order: iteration, interest + principal amount, principal amount |
| Chart.ScheduleCharts | caas-loan-calculator.js:173-184 | a schedule of a known type always charts; row `k` is numbered `k + 1`, and its repayment column is within one of `totalCurrentPayment` |
| Scenarios.ZeroRateLinearExample | caas-loan-calculator.js:74-175 | a linear loan of 12000, term 12, interval 12, no grace, rate 0: two records, each with principal 6000 and interest 0 |
| Scenarios.DefaultAnnuityExample | caas-loan-calculator.js:14-40 | the default annuity has 6 records, numbered from 1; its 24-month grace period forces a factor of 1.21 and raises the first interest amount from 10000 to 12100 and the second from 8704 to 10532 |
| Scenarios.ZeroTermSingleRecord | caas-loan-calculator.js:74-122 | a zero-month linear term without grace gives one record that retires the whole base and charges the truncated rate |
| Scenarios.UnknownLoanTypeExample | caas-loan-calculator.js:94-103 | an unknown loan type gives `undefined` entries, and the chart cannot read them |

## Left out

- The Polymer property declarations are not modelled. This covers `notify`,
  `observer` and `computed`, and `customElements.define` (lines 9-68 and 190).
  They are framework reactivity, not logic.
- `_log` is not modelled because it is console output.
- `parseChartColumns` is not modelled: it returns three constant labels.
- IEEE-754 doubles are not modelled. Every quantity is an exact real, so
  `Infinity`, `NaN` and floating-point rounding error do not occur.
- `Math.pow(1 + i, grace / 12)` with a fractional exponent is the parameter
  `growth`. `IsGraceGrowth` constrains it but does not determine it unless the
  grace period is a whole number of years or the rate is 0.
- The payment interval, the loan term and the grace period are taken as whole
  numbers of months (`int`). The source also truncates fractional values of
  them with `parseInt`; for example, a grace period of 6.5 becomes 6. The model
  cannot take such values.
- `parseInt` is modelled as truncation of a number. The source's detour through
  the number's string form is not modelled. That detour differs for numbers
  written in exponent notation, such as `1e21` or `1e-7`.
- `Calculator.Computable` excludes these inputs:
  - a zero payment interval. For a positive term the source's bound is
    `Infinity` and its loop never ends. For a term of 0 or below the bound is
    `NaN` or `-Infinity`, and the source returns an empty schedule. The model's
    bound is a real number, so it covers neither.
  - a bound strictly between 0 and 1 for a known loan type. The loop then runs
    once with `n = 0`, and `T / n` or the annuity formula gives `Infinity` or
    `NaN`. For an unknown loan type this bound is allowed: it gives one
    `undefined` entry.
  - an annuity at truncated rate 0 whose loop runs at least once. Its payment
    formula is then `0 / 0`. When the loop does not run, the schedule is empty
    and the input is allowed.
  - a negative truncated rate. The source computes finite numbers for rates
    above −100 (the linear interest shares are then negative). At −100 the base
    `1 + i` is 0: `Math.pow` gives 0 for a positive `grace / 12`, 1 for 0 and
    `Infinity` for a negative one. Below −100 the base is negative: `Math.pow`
    gives `NaN` for a fractional `grace / 12` and a finite power for a whole
    one. The model leaves negative rates out
    because `IsGraceGrowth` and `AnnuityPayment` describe a non-negative rate
    only.
- The unused locals are not modelled, because nothing reads them. They are `J` and
  `totalCurrentPayment` in the linear policy, and `T_k` and `totalCurrentPayment`
  in the annuity.
- Calling the engine twice with the same inputs gives the same schedule because
  every member is a pure function. No lemma states this.
  `Schedule.RepaymentsIgnoreStaleFields` covers the one way state could carry over
  between calls.
- Schedule.AnnuityTotalConstant: states the constant total for the rounded
  amounts only. It does not state that the rounded percentages add up to a
  constant, because two independently rounded percentages can differ in their sum
  by one from record to record.
