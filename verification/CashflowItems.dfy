/** Recurring items, loans and personal debts turned into dated events: what is collected, and nothing else. */
module CashflowItems {
  import opened Calendar
  import opened Options
  import opened CashflowDates
  import opened Forecast

  datatype Recurring = Recurring(amount: int, day: int)

  datatype Loan = Loan(next: Option<Date>, payment: int, remaining: Option<int>)

  predicate DaysOk(items: seq<Recurring>) {
    forall k :: 0 <= k < |items| ==> items[k].day >= 1
  }

  predicate LoansOk(loans: seq<Loan>) {
    forall k :: 0 <= k < |loans| && loans[k].next.Some? ==> Valid(loans[k].next.value)
  }

  predicate InWindowOnly(events: seq<Event>, today: Date, end: Date) {
    forall k :: 0 <= k < |events| ==>
      Valid(events[k].date) && NotAfter(today, events[k].date) && NotAfter(events[k].date, end)
  }

  // ---- What is to be collected ----

  /** The same amount on every date. */
  function Each(dates: seq<Date>, amount: int): (events: seq<Event>)
    ensures |events| == |dates|
  {
    seq(|dates|, k requires 0 <= k < |dates| => Event(dates[k], amount))
  }

  function Repeated(items: seq<Recurring>, sign: int, today: Date, end: Date): seq<Event>
    requires DaysOk(items)
  {
    if items == [] then []
    else
      var last := items[|items| - 1];
      Repeated(items[..|items| - 1], sign, today, end)
        + Each(Occurrences(MonthIndex(today), today, end, last.day), sign * last.amount)
  }

  function Repaid(loans: seq<Loan>, today: Date, end: Date): seq<Event>
    requires Valid(today) && Valid(end) && LoansOk(loans)
  {
    if loans == [] then []
    else
      var last := loans[|loans| - 1];
      Repaid(loans[..|loans| - 1], today, end)
        + if last.next.None? || last.payment == 0 then []
          else
            var first := Later(last.next.value, today);
            Each(Instalments(first, Expected(last.remaining, first, end)), -last.payment)
  }

  function DueIn(debts: seq<Event>, today: Date, end: Date): seq<Event> {
    if debts == [] then []
    else
      var last := debts[|debts| - 1];
      DueIn(debts[..|debts| - 1], today, end)
        + if NotAfter(today, last.date) && NotAfter(last.date, end) then [last] else []
  }

  function Collected(incomes: seq<Recurring>, expenses: seq<Recurring>, loans: seq<Loan>, debts: seq<Event>,
                     today: Date, end: Date): seq<Event>
    requires Valid(today) && Valid(end) && DaysOk(incomes) && DaysOk(expenses) && LoansOk(loans)
  {
    Repeated(incomes, 1, today, end) + Repeated(expenses, -1, today, end) + Repaid(loans, today, end)
      + DueIn(debts, today, end)
  }

  // ---- Collecting it ----

  method Payments(dates: seq<Date>, amount: int) returns (events: seq<Event>)
    ensures events == Each(dates, amount)
  {
    events := [];
    for i := 0 to |dates|
      invariant events == Each(dates, amount)[..i]
    {
      events := events + [Event(dates[i], amount)];
    }
  }

  method Repeating(items: seq<Recurring>, sign: int, today: Date, end: Date) returns (events: seq<Event>)
    requires Valid(today) && Valid(end) && DaysOk(items)
    ensures events == Repeated(items, sign, today, end) && InWindowOnly(events, today, end)
  {
    hide Valid, NotAfter, Clamped, Occurrences, MonthIndex;
    events := [];
    for i := 0 to |items|
      invariant events == Repeated(items[..i], sign, today, end) && InWindowOnly(events, today, end)
    {
      assert items[..i + 1][..i] == items[..i];
      var dates := MonthOccurrences(today, end, items[i].day);
      assert forall k :: 0 <= k < |dates| ==> dates[k] in dates && Occurs(dates[k], today, end, items[i].day);
      var more := Payments(dates, sign * items[i].amount);
      events := events + more;
    }
    assert items[..|items|] == items;
  }

  method Repaying(loans: seq<Loan>, today: Date, end: Date) returns (events: seq<Event>)
    requires Valid(today) && Valid(end) && LoansOk(loans)
    ensures events == Repaid(loans, today, end) && InWindowOnly(events, today, end)
  {
    hide Valid, NotAfter, Clamped, Expected, MonthIndex, AddMonths, Before, Instalments;
    events := [];
    for i := 0 to |loans|
      invariant events == Repaid(loans[..i], today, end) && InWindowOnly(events, today, end)
    {
      assert loans[..i + 1][..i] == loans[..i];
      var dates := LoanPayments(true, loans[i].next, loans[i].payment, loans[i].remaining, today, end);
      var more := Payments(dates, -loans[i].payment);
      events := events + more;
    }
    assert loans[..|loans|] == loans;
  }

  /** Only debts due in the window are read. */
  method Due(debts: seq<Event>, today: Date, end: Date) returns (events: seq<Event>)
    requires Dated(debts)
    ensures events == DueIn(debts, today, end) && InWindowOnly(events, today, end)
  {
    hide NotAfter, Valid;
    events := [];
    for i := 0 to |debts|
      invariant events == DueIn(debts[..i], today, end) && InWindowOnly(events, today, end)
    {
      assert debts[..i + 1][..i] == debts[..i];
      if NotAfter(today, debts[i].date) && NotAfter(debts[i].date, end) {
        events := events + [debts[i]];
      }
    }
    assert debts[..|debts|] == debts;
  }
}
