/** Concrete loans worked through the model. */
module Scenarios {
  import opened Numeric
  import opened Outcomes
  import opened Terms
  import opened Policies
  import opened Records
  import opened Calculator
  import opened Schedule
  import opened Chart

  /** A zero-rate linear loan of 12000 over 12 months, paid yearly, without grace:
      two records, each retiring half of the base and charging no interest. */
  lemma ZeroRateLinearExample()
    ensures Computable(Loan("linear", 12000.0, 12, 12, 0, 0.0), 1.0)
    ensures Repayments(Loan("linear", 12000.0, 12, 12, 0, 0.0), 1.0)
         == [Record(Payment(0, 50, 0, 6000, 6000, 1)), Record(Payment(0, 50, 0, 6000, 6000, 2))]
  {
    var loan := Loan("linear", 12000.0, 12, 12, 0, 0.0);
    assert TermsOf(loan) == 2.0;
    assert Trunc(2.0) == 2;
    var a := ArgsOf(loan, 1.0);
    assert a == Args(12000, 2, 0.0, 100.0);
    LinearSchedule(loan, 1.0);
    var es := Repayments(loan, 1.0);
    assert |es| == 2;
    assert LinearSplit(100.0, 2, 0.0, 0) == Split(0.0, 50.0);
    assert LinearSplit(100.0, 2, 0.0, 1) == Split(0.0, 50.0);
    assert AmountOf(12000, 50.0) == 6000.0;
    assert AmountOf(12000, 0.0) == 0.0;
    assert Round(6000.0 + 0.0) == 6000;
    assert es[0] == Record(Payment(0, 50, 0, 6000, 6000, 1));
    assert es[1] == Record(Payment(0, 50, 0, 6000, 6000, 2));
  }

  /** The element's default loan: an annuity of 100000 over 60 months, paid
      yearly, at 10%, with a 24-month grace period. */
  function DefaultLoan(gracePeriod: int): Loan
  {
    Loan("annuity", 100000.0, 12, 60, gracePeriod, 10.0)
  }

  /** The default loan has six records numbered from one; its two-year grace
      period pins the growth factor to `1.1^2` and raises the first interest
      share from 10% of the principal to 12.1%. */
  lemma DefaultAnnuityExample(growth: real)
    requires Computable(DefaultLoan(24), growth)
    ensures growth == 1.21
    ensures Computable(DefaultLoan(0), 1.0)
    ensures var es := Repayments(DefaultLoan(24), growth);
      && |es| == 6
      && es[0].payment.iteration == 1
      && es[0].payment.interestPercentage == 12
      && es[0].payment.interestAmount == 12100
      && es[1].payment.iteration == 2
      && es[1].payment.interestPercentage == 11
      && es[1].payment.interestAmount == 10532
    ensures var es := Repayments(DefaultLoan(0), 1.0);
      && |es| == 6
      && es[0].payment.interestPercentage == 10
      && es[0].payment.interestAmount == 10000
      && es[1].payment.interestPercentage == 9
      && es[1].payment.interestAmount == 8704
  {
    assert Pow(1.1, 2) == 1.21;
    WholeAndFractionalTerms(12, 60);
    assert TermsOf(DefaultLoan(24)) == 6.0;
    assert IsGraceGrowth(0.1, 0, 1.0);
    AnnuitySchedule(DefaultLoan(24), growth);
    AnnuitySchedule(DefaultLoan(0), 1.0);
    var a := ArgsOf(DefaultLoan(24), growth);
    assert a.base == 121.0 && a.i == 0.1;
    var s := AnnuitySplit(AnnuityPayment(a.n, a.i, a.base), a.i, a.base);
    assert s.interestPct == 12.1;
    assert AmountOf(100000, 12.1) == 12100.0;
    var a0 := ArgsOf(DefaultLoan(0), 1.0);
    assert a0.base == 100.0 && a0.i == 0.1;
    var s0 := AnnuitySplit(AnnuityPayment(a0.n, a0.i, a0.base), a0.i, a0.base);
    assert s0.interestPct == 10.0;
    assert AmountOf(100000, 10.0) == 10000.0;
    assert Pow(1.1, 6) == 1.771561;
    SecondAnnuityInterest(a);
    SecondAnnuityInterest(a0);
  }

  /** The second record of a six-period annuity at 10% over base `t`: the debt
      after one period is `1.1·t − J`, and the rate applies to that. */
  lemma SecondAnnuityInterest(a: Args)
    requires a.n == 6 && a.i == 0.1 && a.principle == 100000
    requires a.base == 121.0 || a.base == 100.0
    ensures var pay := AnnuityPayment(a.n, a.i, a.base);
      var p := PaymentObject(AnnuitySplit(pay, a.i, AnnuityDebt(a.base, pay, a.i, 1)), a.principle, 1);
      && (a.base == 121.0 ==> p.interestPercentage == 11 && p.interestAmount == 10532)
      && (a.base == 100.0 ==> p.interestPercentage == 9 && p.interestAmount == 8704)
  {
    assert Pow(1.1, 6) == 1.771561;
    var pay := AnnuityPayment(a.n, a.i, a.base);
    assert pay * 0.771561 == 0.1771561 * a.base;
    var debt := AnnuityDebt(a.base, pay, a.i, 1);
    assert debt == 1.1 * a.base - pay;
    var s := AnnuitySplit(pay, a.i, debt);
    assert AmountOf(a.principle, s.interestPct) == 1000.0 * s.interestPct;
  }

  /** A linear loan with a zero-month term and no grace period still gets one
      record: the loop bound is `0 / interval + 1`. That record retires the
      whole base and charges the truncated rate on it. */
  lemma ZeroTermSingleRecord(principle: int, interval: int, rate: int)
    requires interval > 0 && principle >= 0 && rate >= 0
    ensures Computable(Loan("linear", principle as real, interval, 0, 0, rate as real), 1.0)
    ensures var es := Repayments(Loan("linear", principle as real, interval, 0, 0, rate as real), 1.0);
      && |es| == 1
      && es[0].payment.principlePercentage == 100
      && es[0].payment.principleAmount == principle
      && es[0].payment.interestPercentage == rate
  {
    var loan := Loan("linear", principle as real, interval, 0, 0, rate as real);
    assert TermsOf(loan) == 1.0;
    LinearSchedule(loan, 1.0);
    var a := ArgsOf(loan, 1.0);
    assert a.n == 1 && a.base == 100.0 && a.principle == principle;
    assert LinearSplit(100.0, 1, a.i, 0) == Split(100.0 * a.i, 100.0);
    assert 100.0 * a.i == rate as real;
    assert AmountOf(principle, 100.0) == principle as real;
  }

  /** An unknown loan type yields `undefined` entries, which the chart cannot read. */
  lemma UnknownLoanTypeExample()
    ensures Computable(Loan("balloon", 12000.0, 12, 12, 0, 5.0), 1.0)
    ensures Repayments(Loan("balloon", 12000.0, 12, 12, 0, 5.0), 1.0) == [Undefined, Undefined]
    ensures ChartRows(Repayments(Loan("balloon", 12000.0, 12, 12, 0, 5.0), 1.0)) == None
  {
    var loan := Loan("balloon", 12000.0, 12, 12, 0, 5.0);
    assert TermsOf(loan) == 2.0;
    var es := Repayments(loan, 1.0);
    assert |es| == 2 && es[0] == Undefined && es[1] == Undefined;
  }
}
