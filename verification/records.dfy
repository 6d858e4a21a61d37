/** `_createSinglePaymentObject`: the rounded record one period contributes to the schedule. */
module Records {
  import opened Numeric
  import opened Policies

  /** One payment record. Field names follow the objects the calculator emits. */
  datatype Payment = Payment(
    interestPercentage: int,
    principlePercentage: int,
    interestAmount: int,
    principleAmount: int,
    totalCurrentPayment: int,
    iteration: int)

  /** The amount a percentage of the base stands for: `(principle * pct) / 100`. */
  function AmountOf(principle: int, pct: real): real
  {
    principle as real * pct / 100.0
  }

  /** The record for zero-based period `k` with unrounded shares `s`: every field
      is `Math.round` of its unrounded value, the total is rounded from the
      unrounded sum of the two amounts (so it may differ from the sum of the
      rounded amounts by one), and the period is numbered from one. */
  function PaymentObject(s: Split, principle: int, k: int): (p: Payment)
    ensures p.iteration == k + 1
    ensures IsRounding(p.interestPercentage, s.interestPct)
    ensures IsRounding(p.principlePercentage, s.principalPct)
    ensures IsRounding(p.interestAmount, AmountOf(principle, s.interestPct))
    ensures IsRounding(p.principleAmount, AmountOf(principle, s.principalPct))
    ensures IsRounding(p.totalCurrentPayment, AmountOf(principle, s.interestPct + s.principalPct))
    ensures -1 <= p.totalCurrentPayment - (p.interestAmount + p.principleAmount) <= 1
  {
    var principleAmount := AmountOf(principle, s.principalPct);
    var interestAmount := AmountOf(principle, s.interestPct);
    assert principleAmount + interestAmount == AmountOf(principle, s.interestPct + s.principalPct);
    RoundOfSumWithinOne(interestAmount, principleAmount);
    Payment(
      Round(s.interestPct),
      Round(s.principalPct),
      Round(interestAmount),
      Round(principleAmount),
      Round(principleAmount + interestAmount),
      k + 1)
  }

  /** For a non-negative principal, non-negative shares give non-negative
      percentages and amounts. */
  lemma PaymentObjectNonNegative(s: Split, principle: int, k: int)
    requires principle >= 0 && s.interestPct >= 0.0 && s.principalPct >= 0.0
    ensures var p := PaymentObject(s, principle, k);
      && p.interestPercentage >= 0 && p.principlePercentage >= 0
      && p.interestAmount >= 0 && p.principleAmount >= 0
  {
    ScaleNonNegative(0.0, s.interestPct, principle as real);
    ScaleNonNegative(0.0, s.principalPct, principle as real);
  }

  /** For a non-negative principal, a smaller non-negative interest share never
      gives a larger interest percentage or amount. */
  lemma PaymentObjectInterestMonotone(s: Split, s': Split, principle: int, k: int, k': int)
    requires principle >= 0 && 0.0 <= s'.interestPct <= s.interestPct
    ensures var p := PaymentObject(s, principle, k);
      var p' := PaymentObject(s', principle, k');
      && 0 <= p'.interestPercentage <= p.interestPercentage
      && 0 <= p'.interestAmount <= p.interestAmount
  {
    ScaleNonNegative(0.0, s'.interestPct, principle as real);
    ScaleNonNegative(s'.interestPct, s.interestPct, principle as real);
    RoundMonotone(0.0, s'.interestPct);
    RoundMonotone(s'.interestPct, s.interestPct);
    RoundMonotone(0.0, AmountOf(principle, s'.interestPct));
    RoundMonotone(AmountOf(principle, s'.interestPct), AmountOf(principle, s.interestPct));
  }
}
