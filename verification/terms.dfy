/** `computeNumberOfTerms` and the two period counts derived from it: how many
    times the driver loop runs, and the `n` the formulas divide by. */
module Terms {
  import opened Numeric

  /** `computeNumberOfTerms`: the loan term divided by the payment interval, plus
      one. The result is a real number and need not be whole. */
  function NumberOfTerms(interval: int, term: int): (terms: real)
    requires interval != 0
    ensures terms * interval as real == (term + interval) as real
    ensures interval > 0 && term % interval == 0 ==> terms == (term / interval + 1) as real
    ensures interval > 0 && term >= 0 ==> terms >= 1.0
  {
    var q := term / interval;
    var r := term % interval;
    assert term == q * interval + r;
    var terms := term as real / interval as real + 1.0;
    assert terms * interval as real == (term + interval) as real;
    assert interval > 0 && r == 0 ==> terms == (q + 1) as real by {
      if interval > 0 && r == 0 {
        assert (q * interval) as real == q as real * interval as real;
      }
    }
    terms
  }

  /** How many times `for (iteration = 0; iteration < terms; iteration++)` runs:
      the least natural number that is not below `terms`. */
  function IterationCount(terms: real): (c: nat)
    ensures terms <= c as real
    ensures c > 0 ==> (c - 1) as real < terms
  {
    if terms <= 0.0 then 0 else -((-terms).Floor)
  }

  /** Once there is at least one whole period, the loop runs at most once more
      than the period count `n = parseInt(terms)`. */
  lemma IterationsExceedPeriodsByAtMostOne(terms: real)
    requires terms >= 1.0
    ensures Trunc(terms) <= IterationCount(terms) <= Trunc(terms) + 1
  {
  }

  /** For a non-negative term and positive interval, `n` is the whole quotient plus
      one, and the loop runs exactly `n` times when the interval divides the term
      and `n + 1` times otherwise. */
  lemma {:induction false} WholeAndFractionalTerms(interval: int, term: int)
    requires interval > 0 && term >= 0
    ensures Trunc(NumberOfTerms(interval, term)) == term / interval + 1
    ensures IterationCount(NumberOfTerms(interval, term))
         == Trunc(NumberOfTerms(interval, term)) + (if term % interval == 0 then 0 else 1)
  {
    var terms := NumberOfTerms(interval, term);
    var q := term / interval;
    var r := term % interval;
    assert term == q * interval + r;
    var f := r as real / interval as real;
    assert 0.0 <= f < 1.0;
    assert (q * interval) as real == q as real * interval as real;
    assert term as real / interval as real == q as real + f;
    assert terms == (q + 1) as real + f;
    assert q >= 0;
    if r == 0 {
      assert terms == (q + 1) as real;
    } else {
      assert 0.0 < f;
      assert (q + 1) as real < terms < (q + 2) as real;
      assert IterationCount(terms) == q + 2;
    }
  }
}
