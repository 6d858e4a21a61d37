/** `parseChartRows`: the projection of the schedule the chart displays. */
module Chart {
  import opened Outcomes
  import opened Records
  import opened Calculator

  /** One chart row `[iteration, interestAmount + principleAmount, principleAmount]`. */
  datatype ChartRow = ChartRow(iteration: int, repayment: int, principalShare: int)

  /** `parseChartRows`: one row per entry, in order. Reading a field of an
      `undefined` entry throws, so there are rows exactly when every entry is a
      record. */
  function ChartRows(es: seq<Entry>): (rows: Option<seq<ChartRow>>)
    ensures rows.Some? <==> forall k :: 0 <= k < |es| ==> es[k].Record?
    ensures rows.Some? ==> |rows.value| == |es|
    ensures rows.Some? ==> forall k :: 0 <= k < |es| ==>
      && rows.value[k].iteration == es[k].payment.iteration
      && rows.value[k].repayment == es[k].payment.interestAmount + es[k].payment.principleAmount
      && rows.value[k].principalShare == es[k].payment.principleAmount
  {
    if |es| == 0 then Some([])
    else
      match es[0]
      case Undefined => None
      case Record(p) =>
        match ChartRows(es[1..])
        case None => None
        case Some(rest) =>
          Some([ChartRow(p.iteration, p.interestAmount + p.principleAmount, p.principleAmount)] + rest)
  }

  /** A schedule of a known loan type always charts: row `k` is numbered
      `k + 1`, and its repayment column is within one of the record's
      `totalCurrentPayment`, the two being rounded differently. */
  lemma ScheduleCharts(loan: Loan, growth: real)
    requires Computable(loan, growth) && PolicyOf(loan.loanType).Some?
    ensures ChartRows(Repayments(loan, growth)).Some?
    ensures var es := Repayments(loan, growth);
      var rows := ChartRows(es).value;
      forall k :: 0 <= k < |rows| ==>
        && rows[k].iteration == k + 1
        && -1 <= es[k].payment.totalCurrentPayment - rows[k].repayment <= 1
  {
  }
}
