/** The driver loop of `_computeRepayments` written as the source writes it: a
    `for` loop against the real bound `terms` that pushes one entry per
    iteration and mutates the two instance fields in place. */
module Loop {
  import opened Terms
  import opened Calculator
  import opened Schedule

  /** Starting from whatever the instance fields held before (`stale`), the loop
      builds exactly the schedule `Repayments` describes. */
  method ComputeRepayments(loan: Loan, growth: real, stale: Fields) returns (repayments: seq<Entry>)
    requires Computable(loan, growth)
    ensures repayments == Repayments(loan, growth)
  {
    var terms := NumberOfTerms(loan.annuityIntervalInMonths, loan.loanTermInMonths);
    var policy := PolicyOf(loan.loanType);
    var args := ArgsOf(loan, growth);
    var fields := stale;
    ghost var count := IterationCount(terms);
    LoanFacts(loan, growth);
    repayments := [];
    var iteration := 0;
    while (iteration as real) < terms
      invariant 0 <= iteration <= count
      invariant repayments + Run(policy, args, iteration, count, fields) == RunFrom(loan, growth, stale)
      decreases count - iteration
    {
      var (entry, fields') := SinglePayment(policy, args, iteration, fields);
      assert Run(policy, args, iteration, count, fields)
          == [entry] + Run(policy, args, iteration + 1, count, fields');
      repayments := repayments + [entry];
      fields := fields';
      iteration := iteration + 1;
    }
    RepaymentsIgnoreStaleFields(loan, growth, stale);
  }
}
