/** The per-period formulas of the two repayment policies, over percentages of the
    capitalised base `T`. Nothing here is rounded. */
module Policies {
  import opened Numeric

  /** What one period pays, as unrounded percentages of the capitalised base:
      interest `R_k` and principal `A_k`. */
  datatype Split = Split(interestPct: real, principalPct: real)

  /** What is known of `Math.pow(1 + i, grace / 12)` for a non-negative periodic
      rate `i`: it is positive, at least one when the grace period is not
      negative, at most one when it is not positive, one at rate zero, and an exact whole power of `1 + i` when the
      grace period is a whole number of years. */
  predicate IsGraceGrowth(i: real, grace: int, g: real)
  {
    && g > 0.0
    && (grace >= 0 ==> g >= 1.0)
    && (grace <= 0 ==> g <= 1.0)
    && (i == 0.0 ==> g == 1.0)
    && (grace % 12 == 0 && grace >= 0 ==> g == Pow(1.0 + i, grace / 12))
    && (grace % 12 == 0 && grace < 0 ==> g * Pow(1.0 + i, -grace / 12) == 1.0)
  }

  /** The capitalised base `T = Math.pow(1 + i, grace / 12) * 100` both policies
      set up at iteration 0, given the growth factor `g`. */
  function CapitalisedBase(i: real, grace: int, g: real): (t: real)
    requires i >= 0.0 && IsGraceGrowth(i, grace, g)
    ensures t > 0.0
    ensures grace == 0 ==> t == 100.0
    ensures i == 0.0 ==> t == 100.0
    ensures grace >= 0 ==> t >= 100.0
    ensures grace % 12 == 0 && grace >= 0 ==> t == 100.0 * Pow(1.0 + i, grace / 12)
  {
    g * 100.0
  }

  // ---------------------------------------------------------------- linear

  /** One period `k` of `_createSingleLinearLoanPayment` over base `t`, period
      count `n` and rate `i`: principal `A_k = t / n`, and interest on what is
      left of the base before this payment. */
  function LinearSplit(t: real, n: int, i: real, k: int): Split
    requires n != 0
  {
    var a := t / n as real;
    Split((t - k as real * a) * i, a)
  }

  /** The principal share is the `n`-th part of the base, and the interest
      share is the rate applied to the `(n - k) / n` of the base still owed. */
  lemma LinearSplitClosedForm(t: real, n: int, i: real, k: int)
    requires n != 0
    ensures LinearSplit(t, n, i, k).principalPct * n as real == t
    ensures LinearSplit(t, n, i, k).interestPct == t * i * (n - k) as real / n as real
  {
    var a := t / n as real;
    assert t - k as real * a == t * (n - k) as real / n as real;
  }

  /** The principal share does not depend on the period. */
  lemma LinearPrincipalConstant(t: real, n: int, i: real, j: int, k: int)
    requires n != 0
    ensures LinearSplit(t, n, i, j).principalPct == LinearSplit(t, n, i, k).principalPct
  {
  }

  /** For periods `0 <= j <= k <= n`, a non-negative base and rate, the interest
      share is non-negative, never grows from one period to a later one, and is
      zero at rate zero. */
  lemma LinearInterestDeclines(t: real, n: int, i: real, j: int, k: int)
    requires n >= 1 && t >= 0.0 && i >= 0.0
    requires 0 <= j <= k <= n
    ensures 0.0 <= LinearSplit(t, n, i, k).interestPct <= LinearSplit(t, n, i, j).interestPct
    ensures LinearSplit(t, n, i, j).interestPct <= t * i
    ensures i == 0.0 ==> LinearSplit(t, n, i, k).interestPct == 0.0
  {
    LinearSplitClosedForm(t, n, i, j);
    LinearSplitClosedForm(t, n, i, k);
    ScaledFractionsOrdered(t * i, (n - k) as real, (n - j) as real, n as real);
  }

  /** The principal retired over the first `m` linear periods. */
  function LinearPrincipalPaid(t: real, n: int, i: real, m: nat): real
    requires n != 0
  {
    if m == 0 then 0.0 else LinearPrincipalPaid(t, n, i, m - 1) + LinearSplit(t, n, i, m - 1).principalPct
  }

  /** `m` linear periods retire `m / n` of the base: all of it after `n`
      periods, and `1 / n` too much after `n + 1`. */
  lemma {:induction false} LinearPrincipalPaidIs(t: real, n: int, i: real, m: nat)
    requires n != 0
    ensures LinearPrincipalPaid(t, n, i, m) * n as real == m as real * t
  {
    if m > 0 {
      LinearPrincipalPaidIs(t, n, i, m - 1);
      LinearSplitClosedForm(t, n, i, m - 1);
      var prev := LinearPrincipalPaid(t, n, i, m - 1);
      var a := LinearSplit(t, n, i, m - 1).principalPct;
      assert (prev + a) * n as real == prev * n as real + a * n as real;
      assert prev * n as real == (m - 1) as real * t;
      assert a * n as real == t;
      assert (m - 1) as real * t + t == m as real * t;
    }
  }

  lemma LinearRepaysBase(t: real, n: nat, i: real)
    requires n >= 1
    ensures LinearPrincipalPaid(t, n, i, n) == t
    ensures LinearPrincipalPaid(t, n, i, n + 1) == t + t / n as real
  {
    LinearPrincipalPaidIs(t, n, i, n);
    LinearPrincipalPaidIs(t, n, i, n + 1);
    assert LinearPrincipalPaid(t, n, i, n + 1) * n as real == n as real * t + t;
  }

  // --------------------------------------------------------------- annuity

  /** `calculatePeriodicPaymentPercentageForAnnuityLoan`: the constant payment
      percentage `J = i (1+i)^n / ((1+i)^n - 1) * t` of the standard annuity
      formula. It exceeds the interest on the full base, so the first period
      already retires principal. */
  function AnnuityPayment(n: nat, i: real, t: real): (j: real)
    requires n >= 1 && i > 0.0
    ensures j * (Pow(1.0 + i, n) - 1.0) == i * Pow(1.0 + i, n) * t
    ensures t > 0.0 ==> j > i * t
    ensures t == 0.0 ==> j == 0.0
  {
    PowAboveOne(1.0 + i, n);
    var q := Pow(1.0 + i, n);
    var c := i * q / (q - 1.0);
    assert c * (q - 1.0) == i * q;
    assert c > i by {
      var e := c - i;
      assert e * (q - 1.0) == i;
      QuotientPositive(e, q - 1.0, i);
    }
    assert c * t * (q - 1.0) == i * q * t;
    assert t > 0.0 ==> c * t > i * t;
    c * t
  }

  /** One period of `_createSingleAnnuityLoanPayment` with payment `j`, rate `i`
      and remaining debt `remaining`: interest on the remaining debt, and the
      rest of `j` retires principal. */
  function AnnuitySplit(j: real, i: real, remaining: real): (s: Split)
    ensures s.interestPct + s.principalPct == j
    ensures s.interestPct == i * remaining
  {
    var r := i * remaining;
    Split(r, j - r)
  }

  /** `_remainingDebtPercentage` after `k` annuity periods that started from base `t`. */
  function AnnuityDebt(t: real, j: real, i: real, k: nat): real
  {
    if k == 0 then t
    else
      var prev := AnnuityDebt(t, j, i, k - 1);
      prev - AnnuitySplit(j, i, prev).principalPct
  }

  /** The closed form of the debt recurrence `T_k = (1+i) T_{k-1} - j`, scaled by `i`. */
  lemma {:induction false} AnnuityDebtClosedForm(t: real, j: real, i: real, k: nat)
    ensures i * AnnuityDebt(t, j, i, k) == Pow(1.0 + i, k) * (i * t - j) + j
  {
    if k > 0 {
      AnnuityDebtClosedForm(t, j, i, k - 1);
      var prev := AnnuityDebt(t, j, i, k - 1);
      var p := Pow(1.0 + i, k - 1);
      var x := i * t - j;
      assert AnnuityDebt(t, j, i, k) == (1.0 + i) * prev - j;
      assert i * AnnuityDebt(t, j, i, k) == (1.0 + i) * (i * prev) - i * j;
      assert (1.0 + i) * (p * x + j) - i * j == ((1.0 + i) * p) * x + j;
    }
  }

  /** With a positive rate, the payment `J` of `n` periods brings the remaining
      debt to exactly zero after `n` periods. */
  lemma AnnuityPaysOff(t: real, n: nat, i: real)
    requires n >= 1 && i > 0.0
    ensures AnnuityDebt(t, AnnuityPayment(n, i, t), i, n) == 0.0
  {
    var j := AnnuityPayment(n, i, t);
    var q := Pow(1.0 + i, n);
    AnnuityDebtClosedForm(t, j, i, n);
    assert q * (i * t - j) + j == i * q * t - (j * (q - 1.0));
    assert i * AnnuityDebt(t, j, i, n) == 0.0;
  }
  /** A period after the debt is cleared: no interest is due, and the whole
      payment `J` retires principal that is no longer owed. */
  lemma AnnuityExtraPeriod(t: real, n: nat, i: real)
    requires n >= 1 && i > 0.0
    ensures var j := AnnuityPayment(n, i, t);
      AnnuitySplit(j, i, AnnuityDebt(t, j, i, n)) == Split(0.0, j)
  {
    AnnuityPaysOff(t, n, i);
  }


  /** The closed form restated around the margin `j - i t` by which the payment
      exceeds the interest on the base: the debt before period `k`, times `i`, is
      `j - (1+i)^k (j - i t)`, and the principal share of period `k` is
      `(1+i)^k (j - i t)`, growing geometrically. */
  lemma AnnuityMargin(t: real, j: real, i: real, k: nat)
    ensures i * AnnuityDebt(t, j, i, k) == j - Pow(1.0 + i, k) * (j - i * t)
    ensures AnnuitySplit(j, i, AnnuityDebt(t, j, i, k)).principalPct == Pow(1.0 + i, k) * (j - i * t)
  {
    AnnuityDebtClosedForm(t, j, i, k);
    var pk := Pow(1.0 + i, k);
    assert pk * (i * t - j) == -(pk * (j - i * t));
  }

  /** A payment `j` that covers at least the interest on the base retires a
      non-negative share in every period, so the debt never rises. */
  lemma AnnuityDebtFalls(t: real, j: real, i: real, k: nat)
    requires i >= 0.0 && j - i * t >= 0.0
    ensures AnnuityDebt(t, j, i, k + 1) <= AnnuityDebt(t, j, i, k)
  {
    var share := AnnuitySplit(j, i, AnnuityDebt(t, j, i, k)).principalPct;
    assert AnnuityDebt(t, j, i, k + 1) == AnnuityDebt(t, j, i, k) - share;
    AnnuityMargin(t, j, i, k);
    PowAtLeastOne(1.0 + i, k);
    ScaleNonNegative(0.0, Pow(1.0 + i, k), j - i * t);
  }

  /** Such a payment, if it clears the debt after `n` periods, leaves a
      non-negative debt before every period up to `n`. */
  lemma {:induction false} DebtNonNegativeUntilCleared(t: real, j: real, i: real, n: nat, k: nat)
    requires i >= 0.0 && j - i * t >= 0.0 && k <= n
    requires AnnuityDebt(t, j, i, n) == 0.0
    decreases n - k
    ensures AnnuityDebt(t, j, i, k) >= 0.0
  {
    if k < n {
      DebtNonNegativeUntilCleared(t, j, i, n, k + 1);
      AnnuityDebtFalls(t, j, i, k);
    }
  }

  /** Over periods `0 <= k <= n` of a non-negative base, the remaining debt
      before period `k` is non-negative. */
  lemma AnnuityDebtNonNegative(t: real, n: nat, i: real, k: nat)
    requires n >= 1 && i > 0.0 && t >= 0.0 && k <= n
    ensures AnnuityDebt(t, AnnuityPayment(n, i, t), i, k) >= 0.0
  {
    AnnuityPaysOff(t, n, i);
    DebtNonNegativeUntilCleared(t, AnnuityPayment(n, i, t), i, n, k);
  }

  /** Over periods `0 <= k <= n` of a non-negative base, both shares of period
      `k` are non-negative. */
  lemma AnnuitySharesNonNegative(t: real, n: nat, i: real, k: nat)
    requires n >= 1 && i > 0.0 && t >= 0.0 && k <= n
    ensures AnnuitySplit(AnnuityPayment(n, i, t), i, AnnuityDebt(t, AnnuityPayment(n, i, t), i, k)).interestPct >= 0.0
    ensures AnnuitySplit(AnnuityPayment(n, i, t), i, AnnuityDebt(t, AnnuityPayment(n, i, t), i, k)).principalPct >= 0.0
  {
    var j := AnnuityPayment(n, i, t);
    AnnuityDebtNonNegative(t, n, i, k);
    AnnuityMargin(t, j, i, k);
    PowAtLeastOne(1.0 + i, k);
    ScaleNonNegative(0.0, Pow(1.0 + i, k), j - i * t);
  }

  /** The principal retired over the first `m` annuity periods. */
  function AnnuityPrincipalPaid(t: real, j: real, i: real, m: nat): real
  {
    if m == 0 then 0.0
    else AnnuityPrincipalPaid(t, j, i, m - 1) + AnnuitySplit(j, i, AnnuityDebt(t, j, i, m - 1)).principalPct
  }

  /** What has been retired and what remains always add up to the base. */
  lemma {:induction false} AnnuityPrincipalPaidIs(t: real, j: real, i: real, m: nat)
    ensures AnnuityPrincipalPaid(t, j, i, m) + AnnuityDebt(t, j, i, m) == t
  {
    if m > 0 {
      AnnuityPrincipalPaidIs(t, j, i, m - 1);
    }
  }

  /** With a positive rate the `n` annuity principal shares add up to the base. */
  lemma AnnuityRepaysBase(t: real, n: nat, i: real)
    requires n >= 1 && i > 0.0
    ensures AnnuityPrincipalPaid(t, AnnuityPayment(n, i, t), i, n) == t
  {
    AnnuityPrincipalPaidIs(t, AnnuityPayment(n, i, t), i, n);
    AnnuityPaysOff(t, n, i);
  }
}
