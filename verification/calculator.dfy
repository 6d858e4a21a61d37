/** `_computeRepayments` and `_createSinglePayment`: the driver loop that builds the
    schedule one period at a time, dispatching on the loan type and threading the
    two instance fields the policies mutate from one iteration to the next. */
module Calculator {
  import opened Numeric
  import opened Outcomes
  import opened Terms
  import opened Policies
  import opened Records

  /** The element's inputs. The loan term, the payment interval and the grace
      period are whole months; the principal and the rate are numbers the
      calculator truncates. */
  datatype Loan = Loan(
    loanType: string,
    principle: real,
    annuityIntervalInMonths: int,
    loanTermInMonths: int,
    gracePeriod: int,
    interestRate: real)

  /** The two repayment policies `_createSinglePayment` knows. */
  datatype Policy = Linear | Annuity

  /** The `switch (loanType)`: `'linear'`, `'annuity'`, and nothing for any other string. */
  function PolicyOf(loanType: string): (p: Option<Policy>)
    ensures p == Some(Linear) <==> loanType == "linear"
    ensures p == Some(Annuity) <==> loanType == "annuity"
    ensures p == None <==> loanType != "linear" && loanType != "annuity"
  {
    if loanType == "linear" then Some(Linear)
    else if loanType == "annuity" then Some(Annuity)
    else None
  }

  /** One element of the `repayments` array: a payment record, or `undefined`
      when the loan type is unknown. */
  datatype Entry = Undefined | Record(payment: Payment)

  /** The instance fields `_principleDebtPercentage` and `_remainingDebtPercentage`. */
  datatype Fields = Fields(principleDebtPercentage: real, remainingDebtPercentage: real)

  /** What every `_createSinglePayment` call receives: the truncated principal,
      the period count `n = parseInt(terms)`, the periodic rate `i` of the
      truncated percentage, and the capitalised base the policies compute at
      iteration 0. */
  datatype Args = Args(principle: int, n: int, i: real, base: real)

  /** The formulas of a known policy are defined: a whole period to divide by,
      and for the annuity a positive rate (at rate zero its payment formula is
      `0 / 0`). An unknown loan type computes nothing. */
  predicate Sound(p: Option<Policy>, a: Args)
  {
    p.Some? ==> a.n >= 1 && (p == Some(Annuity) ==> a.i > 0.0)
  }

  /** `_createSingleLinearLoanPayment`: iteration 0 sets the base field; every
      period reads it, and no period after the first changes either field. The
      record's principal percentage is the rounded `n`-th part of that base. */
  function LinearPeriod(a: Args, k: nat, f: Fields): (r: (Payment, Fields))
    requires a.n != 0
    ensures r.0.iteration == k + 1
    ensures k == 0 ==> r.1 == Fields(a.base, f.remainingDebtPercentage)
    ensures k > 0 ==> r.1 == f
    ensures IsRounding(r.0.principlePercentage, r.1.principleDebtPercentage / a.n as real)
  {
    var t := if k == 0 then a.base else f.principleDebtPercentage;
    var s := LinearSplit(t, a.n, a.i, k);
    var f' := Fields(t, f.remainingDebtPercentage);
    (PaymentObject(s, a.principle, k), f')
  }

  /** `_createSingleAnnuityLoanPayment`: iteration 0 sets both fields to the
      base; every period computes `J` from the base field, pays interest on the
      remaining-debt field, and lowers that field by the principal share. So
      the debt grows by its interest and falls by `J`, `T_k = (1+i)·T_{k-1} − J`,
      and the record's total is the rounded amount of `J` alone. */
  function AnnuityPeriod(a: Args, k: nat, f: Fields): (r: (Payment, Fields))
    requires a.n >= 1 && a.i > 0.0
    ensures r.0.iteration == k + 1
    ensures r.1.principleDebtPercentage == if k == 0 then a.base else f.principleDebtPercentage
    ensures var debt := if k == 0 then a.base else f.remainingDebtPercentage;
      && IsRounding(r.0.interestPercentage, a.i * debt)
      && r.1.remainingDebtPercentage
         == (1.0 + a.i) * debt - AnnuityPayment(a.n, a.i, r.1.principleDebtPercentage)
    ensures IsRounding(r.0.totalCurrentPayment,
                       AmountOf(a.principle, AnnuityPayment(a.n, a.i, r.1.principleDebtPercentage)))
  {
    var f' := if k == 0 then Fields(a.base, a.base) else f;
    var j := AnnuityPayment(a.n, a.i, f'.principleDebtPercentage);
    var s := AnnuitySplit(j, a.i, f'.remainingDebtPercentage);
    (PaymentObject(s, a.principle, k),
     f'.(remainingDebtPercentage := f'.remainingDebtPercentage - s.principalPct))
  }

  /** The rounded total of a record is within one of the sum of its rounded amounts. */
  predicate WithinRounding(p: Payment)
  {
    -1 <= p.totalCurrentPayment - (p.interestAmount + p.principleAmount) <= 1
  }

  /** `_createSinglePayment` for zero-based iteration `k`: a record exactly when
      the loan type is known, numbered `k + 1`; the base field is set at
      iteration 0 and never changed afterwards, and only the annuity touches the
      remaining-debt field; every record's total is within one of the sum of
      its amounts. */
  function SinglePayment(p: Option<Policy>, a: Args, k: nat, f: Fields): (r: (Entry, Fields))
    requires Sound(p, a)
    ensures r.0.Record? <==> p.Some?
    ensures r.0.Record? ==> r.0.payment.iteration == k + 1
    ensures r.0.Record? ==> WithinRounding(r.0.payment)
    ensures r.1.principleDebtPercentage
         == if p.Some? && k == 0 then a.base else f.principleDebtPercentage
    ensures p != Some(Annuity) ==> r.1.remainingDebtPercentage == f.remainingDebtPercentage
  {
    match p
    case None => (Undefined, f)
    case Some(Linear) =>
      var (pay, f') := LinearPeriod(a, k, f);
      (Record(pay), f')
    case Some(Annuity) =>
      var (pay, f') := AnnuityPeriod(a, k, f);
      (Record(pay), f')
  }

  /** The iterations `k .. count - 1` of the driver loop, from fields `f`: one
      entry per iteration, in order, each record numbered after its iteration. */
  function Run(p: Option<Policy>, a: Args, k: nat, count: nat, f: Fields): (es: seq<Entry>)
    requires k <= count
    requires k == count || Sound(p, a)
    decreases count - k
    ensures |es| == count - k
    ensures forall j :: 0 <= j < |es| ==> (es[j].Record? <==> p.Some?)
    ensures forall j :: 0 <= j < |es| && es[j].Record? ==> es[j].payment.iteration == k + j + 1
    ensures forall j :: 0 <= j < |es| && es[j].Record? ==> WithinRounding(es[j].payment)
  {
    if k == count then []
    else
      var (e, f') := SinglePayment(p, a, k, f);
      [e] + Run(p, a, k + 1, count, f')
  }

  /** The loans the model covers. A zero interval makes the loop bound
      infinite or `NaN`. A known loan type with a bound strictly between 0 and
      1 runs once with `n = parseInt(terms) = 0` as a divisor, and an annuity
      at truncated rate 0 whose loop runs at all computes `J` as `0 / 0`; the
      source yields `Infinity` or `NaN` there. A negative truncated rate is
      outside the model: the grace factor `growth` and the annuity payment are
      described for a non-negative rate only. `growth` must agree with
      `Math.pow(1 + i, grace / 12)` as far as `IsGraceGrowth` determines it. */
  predicate Computable(loan: Loan, growth: real)
  {
    && loan.annuityIntervalInMonths != 0
    && Trunc(loan.interestRate) >= 0
    && IsGraceGrowth(Trunc(loan.interestRate) as real / 100.0, loan.gracePeriod, growth)
    && (var terms := NumberOfTerms(loan.annuityIntervalInMonths, loan.loanTermInMonths);
        && (PolicyOf(loan.loanType).Some? ==> !(0.0 < terms < 1.0))
        && (loan.loanType == "annuity" && terms > 0.0 ==> Trunc(loan.interestRate) > 0))
  }

  /** The loop bound `terms` of a loan. */
  function TermsOf(loan: Loan): real
    requires loan.annuityIntervalInMonths != 0
  {
    NumberOfTerms(loan.annuityIntervalInMonths, loan.loanTermInMonths)
  }

  /** The values `_computeRepayments` passes on after `parseInt`. */
  function ArgsOf(loan: Loan, growth: real): (a: Args)
    requires Computable(loan, growth)
  {
    var i := Trunc(loan.interestRate) as real / 100.0;
    Args(Trunc(loan.principle), Trunc(TermsOf(loan)), i,
         CapitalisedBase(i, loan.gracePeriod, growth))
  }

  /** `_computeRepayments(loanType, principle, computeNumberOfTerms(...),
      gracePeriod, interestRate)`: one entry for every whole `iteration` with
      `0 <= iteration < terms`, in order, record `k` numbered `k + 1`, records
      exactly when the loan type is known. In the source the fields start out
      `undefined`, or stale from an earlier run; here they start at 0, and
      `RepaymentsIgnoreStaleFields` shows the start value is irrelevant. */
  function Repayments(loan: Loan, growth: real): (es: seq<Entry>)
    requires Computable(loan, growth)
    ensures |es| == IterationCount(TermsOf(loan))
    ensures forall k :: 0 <= k < |es| ==> (es[k].Record? <==> PolicyOf(loan.loanType).Some?)
    ensures forall k :: 0 <= k < |es| && es[k].Record? ==> es[k].payment.iteration == k + 1
    ensures forall k :: 0 <= k < |es| && es[k].Record? ==> WithinRounding(es[k].payment)
  {
    RunFrom(loan, growth, Fields(0.0, 0.0))
  }

  /** The driver loop started from whatever the fields held before. */
  function RunFrom(loan: Loan, growth: real, f: Fields): seq<Entry>
    requires Computable(loan, growth)
  {
    var count := IterationCount(TermsOf(loan));
    var a := ArgsOf(loan, growth);
    assert count > 0 ==> Sound(PolicyOf(loan.loanType), a) by {
      if count > 0 && PolicyOf(loan.loanType).Some? {
        IterationsExceedPeriodsByAtMostOne(TermsOf(loan));
      }
    }
    Run(PolicyOf(loan.loanType), a, 0, count, f)
  }
}
