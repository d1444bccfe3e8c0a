/** From recurring items, loans and personal debts to the forecast: nothing is lost, and everything has its sign. */
module CashflowProjection {
  import opened Calendar
  import opened Forecast
  import opened CashflowItems
  import opened CashflowDays

  /** Everything due in the window is in the table, on its day, and the last day closes at opening plus net flow. */
  method Project(incomes: seq<Recurring>, expenses: seq<Recurring>, loans: seq<Loan>, debts: seq<Event>,
                 today: Date, end: Date, horizon: nat, opening: int, threshold: int) returns (r: Report)
    requires Valid(today) && Valid(end) && Ordinal(end) == Ordinal(today) + horizon - 1
    requires DaysOk(incomes) && DaysOk(expenses) && LoansOk(loans) && Dated(debts)
    ensures Dated(Collected(incomes, expenses, loans, debts, today, end))
    ensures |r.days| == horizon
    ensures var events := Collected(incomes, expenses, loans, debts, today, end);
            && (forall i :: 0 <= i < horizon ==> RowOk(events, today, opening, threshold, i, r.days[i]))
            && r.netFlow == Total(events)
    ensures horizon > 0 ==> r.days[horizon - 1].closing == opening + r.netFlow
    ensures horizon == 0 ==> r.netFlow == 0
    ensures LowestOk(r.days, opening, r.lowest, r.lowestDay) && r.crunchDays == CrunchOf(r.days)
    ensures r.netFlow == DueWithin(incomes, today, end) - DueWithin(expenses, today, end)
                           - RepaidWithin(loans, today, end) + SettledWithin(debts, today, end)
    ensures forall d :: Valid(d) && NotAfter(today, d) && NotAfter(d, end) ==>
      DayShows(incomes, expenses, loans, debts, today, end, r.days, d)
  {
    hide Ordinal, Valid, NotAfter, LowestOk, Between, Total, TotalIn, Repeated, Repaid, DueIn, CrunchOf;
    hide DueWithin, RepaidWithin, SettledWithin, DayShows;
    var a := Repeating(incomes, 1, today, end);
    var b := Repeating(expenses, -1, today, end);
    var c := Repaying(loans, today, end);
    var d := Due(debts, today, end);
    var events := a + b + c + d;
    assert InWindowOnly(events, today, end);
    r := Generate(events, today, horizon, opening, threshold);
    LastBalance(events, today, end, horizon, opening);
    if horizon == 0 {
      NoDaysYet(events, today, opening);
    } else {
      assert RowOk(events, today, opening, threshold, horizon - 1, r.days[horizon - 1]);
    }
    NetFlow(incomes, expenses, loans, debts, today, end);
    forall d | Valid(d) && NotAfter(today, d) && NotAfter(d, end)
      ensures DayShows(incomes, expenses, loans, debts, today, end, r.days, d)
    {
      DayIsShown(incomes, expenses, loans, debts, today, end, opening, threshold, r.days, d);
    }
  }
}
