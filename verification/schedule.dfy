/** What the schedule built by `Repayments` promises, policy by policy: each
    record is the rounded form of a reference per-period formula evaluated from
    the base fixed at iteration 0, and those formulas repay the base. */
module Schedule {
  import opened Numeric
  import opened Outcomes
  import opened Terms
  import opened Policies
  import opened Records
  import opened Calculator

  /** One linear iteration reads the base field that iteration 0 set. */
  lemma LinearStep(a: Args, k: nat, f: Fields)
    requires Sound(Some(Linear), a)
    requires k == 0 || f.principleDebtPercentage == a.base
    ensures SinglePayment(Some(Linear), a, k, f).0
         == Record(PaymentObject(LinearSplit(a.base, a.n, a.i, k), a.principle, k))
    ensures SinglePayment(Some(Linear), a, k, f).1.principleDebtPercentage == a.base
  {
    var f0 := if k == 0 then f.(principleDebtPercentage := a.base) else f;
    assert LinearPeriod(a, k, f)
        == (PaymentObject(LinearSplit(a.base, a.n, a.i, k), a.principle, k), f0);
  }

  /** One step of the driver fold: the entry of iteration `k`, then the
      iterations after it from the fields iteration `k` leaves. */
  lemma RunStep(p: Option<Policy>, a: Args, k: nat, count: nat, f: Fields)
    requires k < count && Sound(p, a)
    ensures Run(p, a, k, count, f)
         == [SinglePayment(p, a, k, f).0] + Run(p, a, k + 1, count, SinglePayment(p, a, k, f).1)
  {
  }

  /** The record of linear period `k` over the base fixed at iteration 0. */
  function LinearEntry(a: Args, k: nat): Entry
    requires a.n != 0
  {
    Record(PaymentObject(LinearSplit(a.base, a.n, a.i, k), a.principle, k))
  }

  /** Linear iterations `k ..` with the base field already set (or about to be,
      at iteration 0) are the rounded linear shares of their periods. */
  lemma {:induction false} LinearRun(a: Args, k: nat, count: nat, f: Fields)
    requires k <= count
    requires k == count || Sound(Some(Linear), a)
    requires k == 0 || f.principleDebtPercentage == a.base
    decreases count - k
    ensures forall j :: 0 <= j < count - k ==>
      Run(Some(Linear), a, k, count, f)[j] == LinearEntry(a, k + j)
  {
    if k < count {
      var (e, f') := SinglePayment(Some(Linear), a, k, f);
      LinearStep(a, k, f);
      LinearRun(a, k + 1, count, f');
      var rest := Run(Some(Linear), a, k + 1, count, f');
      var es := Run(Some(Linear), a, k, count, f);
      RunStep(Some(Linear), a, k, count, f);
      assert e == LinearEntry(a, k);
      forall j | 0 <= j < count - k
        ensures es[j] == LinearEntry(a, k + j)
      {
        if j == 0 {
          assert es[0] == e;
        } else {
          assert es[j] == rest[j - 1];
          assert k + j == (k + 1) + (j - 1);
        }
      }
    }
  }

  /** Annuity iterations `k ..` whose fields hold the base and the debt left
      after `k` periods (or are about to, at iteration 0) are the rounded
      annuity shares of their periods, all computed with the one payment `J`
      of the base. */
  lemma {:induction false} AnnuityRun(a: Args, k: nat, count: nat, f: Fields)
    requires k <= count
    requires k == count || Sound(Some(Annuity), a)
    requires k == 0 || (k < count ==> f == Fields(a.base, AnnuityDebt(a.base, AnnuityPayment(a.n, a.i, a.base), a.i, k)))
    decreases count - k
    ensures forall j :: 0 <= j < count - k ==>
      Run(Some(Annuity), a, k, count, f)[j]
        == Record(PaymentObject(
             AnnuitySplit(AnnuityPayment(a.n, a.i, a.base), a.i,
                          AnnuityDebt(a.base, AnnuityPayment(a.n, a.i, a.base), a.i, k + j)),
             a.principle, k + j))
  {
    if k < count {
      var (e, f') := SinglePayment(Some(Annuity), a, k, f);
      var pay := AnnuityPayment(a.n, a.i, a.base);
      assert f' == Fields(a.base, AnnuityDebt(a.base, pay, a.i, k + 1));
      AnnuityRun(a, k + 1, count, f');
      assert Run(Some(Annuity), a, k, count, f) == [e] + Run(Some(Annuity), a, k + 1, count, f');
    }
  }

  /** Facts about a computable loan every schedule lemma needs: a positive
      base, a non-negative rate, and, once there is a record, sound formulas and
      at most one record more than the period count. */
  lemma LoanFacts(loan: Loan, growth: real)
    requires Computable(loan, growth)
    ensures ArgsOf(loan, growth).base > 0.0 && ArgsOf(loan, growth).i >= 0.0
    ensures |Repayments(loan, growth)| > 0 ==>
      && Sound(PolicyOf(loan.loanType), ArgsOf(loan, growth))
      && |Repayments(loan, growth)| <= ArgsOf(loan, growth).n + 1
  {
    if |Repayments(loan, growth)| > 0 && TermsOf(loan) >= 1.0 {
      IterationsExceedPeriodsByAtMostOne(TermsOf(loan));
    }
  }

  /** Record `k` of a linear schedule is the rounded linear share of period `k`
      of the capitalised base. */
  lemma LinearSchedule(loan: Loan, growth: real)
    requires Computable(loan, growth) && loan.loanType == "linear"
    ensures var a := ArgsOf(loan, growth);
      forall k :: 0 <= k < |Repayments(loan, growth)| ==>
        Repayments(loan, growth)[k]
          == Record(PaymentObject(LinearSplit(a.base, a.n, a.i, k), a.principle, k))
  {
    LoanFacts(loan, growth);
    var a := ArgsOf(loan, growth);
    LinearRun(a, 0, IterationCount(TermsOf(loan)), Fields(0.0, 0.0));
    forall k | 0 <= k < |Repayments(loan, growth)|
      ensures Repayments(loan, growth)[k]
           == Record(PaymentObject(LinearSplit(a.base, a.n, a.i, k), a.principle, k))
    {
      assert Repayments(loan, growth)[k] == LinearEntry(a, 0 + k);
    }
  }

  /** Record `k` of an annuity schedule is the rounded annuity share of period
      `k`: the payment `J` of the capitalised base, split against the debt left
      after `k` periods. */
  lemma AnnuitySchedule(loan: Loan, growth: real)
    requires Computable(loan, growth) && loan.loanType == "annuity"
    ensures var a := ArgsOf(loan, growth);
      forall k :: 0 <= k < |Repayments(loan, growth)| ==>
        Repayments(loan, growth)[k]
          == Record(PaymentObject(
               AnnuitySplit(AnnuityPayment(a.n, a.i, a.base), a.i,
                            AnnuityDebt(a.base, AnnuityPayment(a.n, a.i, a.base), a.i, k)),
               a.principle, k))
  {
    LoanFacts(loan, growth);
    AnnuityRun(ArgsOf(loan, growth), 0, IterationCount(TermsOf(loan)), Fields(0.0, 0.0));
  }

  /** Whatever the instance fields held before, the schedule is the same:
      iteration 0 resets everything a policy reads. */
  lemma RepaymentsIgnoreStaleFields(loan: Loan, growth: real, stale: Fields)
    requires Computable(loan, growth)
    ensures RunFrom(loan, growth, stale) == Repayments(loan, growth)
  {
    LoanFacts(loan, growth);
    var a := ArgsOf(loan, growth);
    var count := IterationCount(TermsOf(loan));
    var es := RunFrom(loan, growth, stale);
    var clean := Repayments(loan, growth);
    match PolicyOf(loan.loanType)
    case None =>
      assert forall k :: 0 <= k < count ==> es[k] == Undefined && clean[k] == Undefined;
    case Some(Linear) =>
      LinearRun(a, 0, count, stale);
      LinearSchedule(loan, growth);
    case Some(Annuity) =>
      AnnuityRun(a, 0, count, stale);
      AnnuitySchedule(loan, growth);
  }

  /** Linear: every record carries the same principal percentage and amount. */
  lemma LinearPrincipalIdentical(loan: Loan, growth: real)
    requires Computable(loan, growth) && loan.loanType == "linear"
    ensures var es := Repayments(loan, growth);
      forall j, k :: 0 <= j < |es| && 0 <= k < |es| ==>
        && es[j].payment.principlePercentage == es[k].payment.principlePercentage
        && es[j].payment.principleAmount == es[k].payment.principleAmount
  {
    LinearSchedule(loan, growth);
  }

  /** A linear period over a non-negative base, for a non-negative principal,
      has a non-negative rounded principal percentage and amount. */
  lemma LinearPrincipalShareNonNegative(t: real, n: int, i: real, k: int, principle: int)
    requires t >= 0.0 && n >= 1 && principle >= 0
    ensures var p := PaymentObject(LinearSplit(t, n, i, k), principle, k);
      p.principlePercentage >= 0 && p.principleAmount >= 0
  {
    var s := LinearSplit(t, n, i, k);
    DivideOrdered(0.0, t, n as real);
    assert s.principalPct >= 0.0;
    ScaleNonNegative(0.0, s.principalPct, principle as real);
    DivideOrdered(0.0, principle as real * s.principalPct, 100.0);
  }

  /** Linear, non-negative principal: no record carries a negative principal
      percentage or amount. */
  lemma LinearPrincipalNonNegative(loan: Loan, growth: real)
    requires Computable(loan, growth) && loan.loanType == "linear"
    requires loan.principle >= 0.0
    ensures var es := Repayments(loan, growth);
      forall k :: 0 <= k < |es| ==>
        es[k].payment.principlePercentage >= 0 && es[k].payment.principleAmount >= 0
  {
    LoanFacts(loan, growth);
    LinearSchedule(loan, growth);
    var es := Repayments(loan, growth);
    var a := ArgsOf(loan, growth);
    forall k | 0 <= k < |es|
      ensures es[k].payment.principlePercentage >= 0 && es[k].payment.principleAmount >= 0
    {
      LinearPrincipalShareNonNegative(a.base, a.n, a.i, k, a.principle);
    }
  }

  /** Linear, non-negative principal: the interest percentage and amount are
      non-negative and never grow from one record to a later one, and they are
      zero in every record when the truncated rate is zero. */
  lemma LinearInterestDeclining(loan: Loan, growth: real)
    requires Computable(loan, growth) && loan.loanType == "linear"
    requires loan.principle >= 0.0
    ensures var es := Repayments(loan, growth);
      forall j, k :: 0 <= j <= k < |es| ==>
        && 0 <= es[k].payment.interestPercentage <= es[j].payment.interestPercentage
        && 0 <= es[k].payment.interestAmount <= es[j].payment.interestAmount
    ensures var es := Repayments(loan, growth);
      Trunc(loan.interestRate) == 0 ==>
        forall k :: 0 <= k < |es| ==>
          es[k].payment.interestPercentage == 0 && es[k].payment.interestAmount == 0
  {
    LoanFacts(loan, growth);
    LinearSchedule(loan, growth);
    var es := Repayments(loan, growth);
    var a := ArgsOf(loan, growth);
    forall j, k | 0 <= j <= k < |es|
      ensures && 0 <= es[k].payment.interestPercentage <= es[j].payment.interestPercentage
              && 0 <= es[k].payment.interestAmount <= es[j].payment.interestAmount
    {
      LinearInterestDeclines(a.base, a.n, a.i, j, k);
      PaymentObjectInterestMonotone(
        LinearSplit(a.base, a.n, a.i, j), LinearSplit(a.base, a.n, a.i, k), a.principle, j, k);
    }
    if Trunc(loan.interestRate) == 0 {
      forall k | 0 <= k < |es|
        ensures es[k].payment.interestPercentage == 0 && es[k].payment.interestAmount == 0
      {
        LinearInterestDeclines(a.base, a.n, a.i, k, k);
      }
    }
  }

  /** Annuity: every record's total is the rounded amount of the one payment
      `J` of the capitalised base, so the total is the same in every record. */
  lemma AnnuityTotalConstant(loan: Loan, growth: real)
    requires Computable(loan, growth) && loan.loanType == "annuity"
    ensures var es := Repayments(loan, growth);
      |es| > 0 ==>
        var a := ArgsOf(loan, growth);
        forall k :: 0 <= k < |es| ==>
          es[k].payment.totalCurrentPayment == Round(AmountOf(a.principle, AnnuityPayment(a.n, a.i, a.base)))
  {
    LoanFacts(loan, growth);
    AnnuitySchedule(loan, growth);
    var es := Repayments(loan, growth);
    var a := ArgsOf(loan, growth);
    if |es| > 0 {
      var pay := AnnuityPayment(a.n, a.i, a.base);
      forall k | 0 <= k < |es|
        ensures es[k].payment.totalCurrentPayment == Round(AmountOf(a.principle, pay))
      {
        var s := AnnuitySplit(pay, a.i, AnnuityDebt(a.base, pay, a.i, k));
        assert s.interestPct + s.principalPct == pay;
        var p := PaymentObject(s, a.principle, k);
        assert IsRounding(p.totalCurrentPayment, AmountOf(a.principle, pay));
      }
    }
  }

  /** Annuity, non-negative principal: no record carries a negative interest or
      principal percentage or amount. */
  lemma AnnuityNothingNegative(loan: Loan, growth: real)
    requires Computable(loan, growth) && loan.loanType == "annuity"
    requires loan.principle >= 0.0
    ensures var es := Repayments(loan, growth);
      forall k :: 0 <= k < |es| ==>
        && es[k].payment.interestPercentage >= 0 && es[k].payment.principlePercentage >= 0
        && es[k].payment.interestAmount >= 0 && es[k].payment.principleAmount >= 0
  {
    LoanFacts(loan, growth);
    AnnuitySchedule(loan, growth);
    var es := Repayments(loan, growth);
    var a := ArgsOf(loan, growth);
    forall k | 0 <= k < |es|
      ensures && es[k].payment.interestPercentage >= 0 && es[k].payment.principlePercentage >= 0
              && es[k].payment.interestAmount >= 0 && es[k].payment.principleAmount >= 0
    {
      var pay := AnnuityPayment(a.n, a.i, a.base);
      var s := AnnuitySplit(pay, a.i, AnnuityDebt(a.base, pay, a.i, k));
      AnnuitySharesNonNegative(a.base, a.n, a.i, k);
      PaymentObjectNonNegative(s, a.principle, k);
    }
  }

  /** When the interval divides a non-negative term, the schedule has exactly
      `n` records, and their unrounded principal shares repay the capitalised
      base exactly: under either policy. */
  lemma WholeTermsRepayBase(loan: Loan, growth: real)
    requires Computable(loan, growth) && loan.loanType in {"linear", "annuity"}
    requires loan.annuityIntervalInMonths > 0 && loan.loanTermInMonths >= 0
    requires loan.loanTermInMonths % loan.annuityIntervalInMonths == 0
    ensures var a := ArgsOf(loan, growth);
      |Repayments(loan, growth)| == a.n
    ensures var a := ArgsOf(loan, growth);
      loan.loanType == "linear" ==> LinearPrincipalPaid(a.base, a.n, a.i, a.n) == a.base
    ensures var a := ArgsOf(loan, growth);
      loan.loanType == "annuity" ==>
        AnnuityPrincipalPaid(a.base, AnnuityPayment(a.n, a.i, a.base), a.i, a.n) == a.base
  {
    WholeAndFractionalTerms(loan.annuityIntervalInMonths, loan.loanTermInMonths);
    LoanFacts(loan, growth);
    var a := ArgsOf(loan, growth);
    if loan.loanType == "linear" {
      LinearRepaysBase(a.base, a.n, a.i);
    } else {
      AnnuityRepaysBase(a.base, a.n, a.i);
    }
  }

  /** When the interval does not divide a non-negative term, the loop runs once
      more than the period count `n`, and a linear schedule's unrounded
      principal shares add up to `1 + 1/n` times the base. */
  lemma FractionalTermsOverpay(loan: Loan, growth: real)
    requires Computable(loan, growth) && loan.loanType == "linear"
    requires loan.annuityIntervalInMonths > 0 && loan.loanTermInMonths >= 0
    requires loan.loanTermInMonths % loan.annuityIntervalInMonths != 0
    ensures var a := ArgsOf(loan, growth);
      |Repayments(loan, growth)| == a.n + 1
    ensures var a := ArgsOf(loan, growth);
      LinearPrincipalPaid(a.base, a.n, a.i, a.n + 1) == a.base + a.base / a.n as real
  {
    WholeAndFractionalTerms(loan.annuityIntervalInMonths, loan.loanTermInMonths);
    LoanFacts(loan, growth);
    var a := ArgsOf(loan, growth);
    LinearRepaysBase(a.base, a.n, a.i);
  }

  /** When the interval does not divide a non-negative term, the annuity loop
      also runs once more than `n`: the extra record comes after the debt is
      cleared, so it charges no interest and retires the whole payment `J`
      again as principal. */
  lemma FractionalAnnuityExtraRecord(loan: Loan, growth: real)
    requires Computable(loan, growth) && loan.loanType == "annuity"
    requires loan.annuityIntervalInMonths > 0 && loan.loanTermInMonths >= 0
    requires loan.loanTermInMonths % loan.annuityIntervalInMonths != 0
    ensures var a := ArgsOf(loan, growth);
      |Repayments(loan, growth)| == a.n + 1
    ensures var a := ArgsOf(loan, growth);
      Repayments(loan, growth)[a.n]
        == Record(PaymentObject(Split(0.0, AnnuityPayment(a.n, a.i, a.base)), a.principle, a.n))
  {
    WholeAndFractionalTerms(loan.annuityIntervalInMonths, loan.loanTermInMonths);
    LoanFacts(loan, growth);
    AnnuitySchedule(loan, growth);
    var a := ArgsOf(loan, growth);
    AnnuityExtraPeriod(a.base, a.n, a.i);
  }
}
