/** What a day and the whole window of a projection come to, read off the items and not off the events. */
module CashflowDays {
  import opened Calendar
  import opened Options
  import opened CashflowDates
  import opened Forecast
  import opened CashflowItems

  // ---- What one day and the whole window come to, read off the items ----

  /** On the item's day of the month, or on the last day of a month that is shorter. */
  predicate FallsOn(day: int, d: Date) {
    d.day == day || (d.day < day && d.day == MonthDays(d.year, d.month))
  }

  /** What the items come to on one day. */
  function DueOn(items: seq<Recurring>, d: Date): int {
    if items == [] then 0
    else
      var last := items[|items| - 1];
      DueOn(items[..|items| - 1], d) + if FallsOn(last.day, d) then last.amount else 0
  }

  /** The loan is paid on that day: a whole number of months after its first payment, as often as expected. */
  ghost predicate PaidOn(loan: Loan, today: Date, end: Date, d: Date)
    requires Valid(today) && Valid(end) && (loan.next.Some? ==> Valid(loan.next.value))
  {
    loan.next.Some? && loan.payment != 0 &&
    var first := Later(loan.next.value, today);
    exists k :: 0 <= k < Expected(loan.remaining, first, end) && AddMonths(first, k) == d
  }

  ghost function RepaidOn(loans: seq<Loan>, today: Date, end: Date, d: Date): int
    requires Valid(today) && Valid(end) && LoansOk(loans)
  {
    if loans == [] then 0
    else
      var last := loans[|loans| - 1];
      RepaidOn(loans[..|loans| - 1], today, end, d) + if PaidOn(last, today, end, d) then last.payment else 0
  }

  function SettledOn(debts: seq<Event>, d: Date): int {
    if debts == [] then 0
    else
      var last := debts[|debts| - 1];
      SettledOn(debts[..|debts| - 1], d) + if last.date == d then last.amount else 0
  }

  /** What the items come to in the window: each as often as its day occurs there. */
  function DueWithin(items: seq<Recurring>, today: Date, end: Date): int
    requires DaysOk(items)
  {
    if items == [] then 0
    else
      var last := items[|items| - 1];
      DueWithin(items[..|items| - 1], today, end)
        + last.amount * |Occurrences(MonthIndex(today), today, end, last.day)|
  }

  function RepaidWithin(loans: seq<Loan>, today: Date, end: Date): int
    requires Valid(today) && Valid(end) && LoansOk(loans)
  {
    if loans == [] then 0
    else
      var last := loans[|loans| - 1];
      RepaidWithin(loans[..|loans| - 1], today, end)
        + if last.next.None? then 0
          else last.payment * Expected(last.remaining, Later(last.next.value, today), end)
  }

  function SettledWithin(debts: seq<Event>, today: Date, end: Date): int {
    if debts == [] then 0
    else
      var last := debts[|debts| - 1];
      SettledWithin(debts[..|debts| - 1], today, end)
        + if Before(last.date, today) || Before(end, last.date) then 0 else last.amount
  }

  lemma {:induction false} TotalSplit(a: seq<Event>, b: seq<Event>)
    ensures Total(a + b) == Total(a) + Total(b)
  {
    if b == [] {
      assert a + b == a;
    } else {
      assert (a + b)[..|a + b| - 1] == a + b[..|b| - 1];
      TotalSplit(a, b[..|b| - 1]);
    }
  }

  lemma {:induction false} BetweenSplit(a: seq<Event>, b: seq<Event>, x: int, y: int)
    requires Dated(a) && Dated(b)
    ensures Dated(a + b) && Between(a + b, x, y) == Between(a, x, y) + Between(b, x, y)
  {
    hide Ordinal;
    if b == [] {
      assert a + b == a;
    } else {
      assert (a + b)[..|a + b| - 1] == a + b[..|b| - 1];
      BetweenSplit(a, b[..|b| - 1], x, y);
    }
  }

  lemma {:induction false} EachTotal(dates: seq<Date>, amount: int)
    ensures Total(Each(dates, amount)) == amount * |dates|
  {
    if dates != [] {
      var n := |dates| - 1;
      assert Each(dates, amount)[..n] == Each(dates[..n], amount);
      EachTotal(dates[..n], amount);
    }
  }

  lemma {:induction false} EachOn(dates: seq<Date>, amount: int, d: Date)
    requires Valid(d) && Ascending(dates) && forall k :: 0 <= k < |dates| ==> Valid(dates[k])
    ensures Dated(Each(dates, amount))
    ensures Between(Each(dates, amount), Ordinal(d), Ordinal(d)) == if d in dates then amount else 0
  {
    hide Ordinal, Valid;
    if dates != [] {
      var n := |dates| - 1;
      assert Each(dates, amount)[..n] == Each(dates[..n], amount);
      assert dates == dates[..n] + [dates[n]];
      EachOn(dates[..n], amount, d);
      OrdinalOrders(dates[n], d);
      assert dates[n] !in dates[..n];
    }
  }

  lemma ClampedIffFalls(d: Date, day: int)
    requires Valid(d) && day >= 1
    ensures d == Clamped(MonthIndex(d), day) <==> FallsOn(day, d)
  {
  }

  lemma {:induction false} RepeatedAdds(items: seq<Recurring>, sign: int, today: Date, end: Date)
    requires Valid(today) && Valid(end) && DaysOk(items)
    ensures Total(Repeated(items, sign, today, end)) == sign * DueWithin(items, today, end)
  {
    hide Occurrences, Valid, MonthIndex, Total;
    if items == [] {
      EachTotal([], 0);
    } else {
      var rest, last := items[..|items| - 1], items[|items| - 1];
      RepeatedAdds(rest, sign, today, end);
      var dates := Occurrences(MonthIndex(today), today, end, last.day);
      EachTotal(dates, sign * last.amount);
      TotalSplit(Repeated(rest, sign, today, end), Each(dates, sign * last.amount));
      assert (sign * last.amount) * |dates| == sign * (last.amount * |dates|);
    }
  }

  lemma ItemOn(item: Recurring, amount: int, today: Date, end: Date, d: Date)
    requires Valid(today) && Valid(end) && item.day >= 1
    requires Valid(d) && NotAfter(today, d) && NotAfter(d, end)
    ensures var events := Each(Occurrences(MonthIndex(today), today, end, item.day), amount);
            Dated(events) && Between(events, Ordinal(d), Ordinal(d)) == if FallsOn(item.day, d) then amount else 0
  {
    hide Occurrences, Valid, MonthIndex, Ordinal, Clamped, NotAfter, FallsOn, Each, Between;
    var dates := Occurrences(MonthIndex(today), today, end, item.day);
    OccurrencesExact(MonthIndex(today), today, end, item.day);
    NothingBefore(today, end, item.day);
    ClampedIffFalls(d, item.day);
    EachOn(dates, amount, d);
  }

  lemma {:induction false} RepeatedOn(items: seq<Recurring>, sign: int, today: Date, end: Date, d: Date)
    requires Valid(today) && Valid(end) && DaysOk(items)
    requires Valid(d) && NotAfter(today, d) && NotAfter(d, end)
    ensures var events := Repeated(items, sign, today, end);
            Dated(events) && Between(events, Ordinal(d), Ordinal(d)) == sign * DueOn(items, d)
  {
    hide Occurrences, Valid, MonthIndex, Ordinal, NotAfter, FallsOn, Each;
    if items != [] {
      var rest, last := items[..|items| - 1], items[|items| - 1];
      RepeatedOn(rest, sign, today, end, d);
      var dates := Occurrences(MonthIndex(today), today, end, last.day);
      ItemOn(last, sign * last.amount, today, end, d);
      BetweenSplit(Repeated(rest, sign, today, end), Each(dates, sign * last.amount), Ordinal(d), Ordinal(d));
    }
  }

  lemma {:induction false} RepaidAdds(loans: seq<Loan>, today: Date, end: Date)
    requires Valid(today) && Valid(end) && LoansOk(loans)
    ensures Total(Repaid(loans, today, end)) == -RepaidWithin(loans, today, end)
  {
    hide Valid, Expected, Instalments, Total;
    if loans == [] {
      EachTotal([], 0);
    } else {
      var rest, last := loans[..|loans| - 1], loans[|loans| - 1];
      RepaidAdds(rest, today, end);
      if last.next.Some? && last.payment != 0 {
        var first := Later(last.next.value, today);
        var dates := Instalments(first, Expected(last.remaining, first, end));
        EachTotal(dates, -last.payment);
        TotalSplit(Repaid(rest, today, end), Each(dates, -last.payment));
      } else {
        assert Repaid(rest, today, end) + [] == Repaid(rest, today, end);
      }
    }
  }

  lemma LoanOn(loan: Loan, amount: int, today: Date, end: Date, d: Date)
    requires Valid(today) && Valid(end) && Valid(d) && loan.next.Some? && Valid(loan.next.value) && loan.payment != 0
    ensures var first := Later(loan.next.value, today);
            var events := Each(Instalments(first, Expected(loan.remaining, first, end)), amount);
            && Dated(events)
            && Between(events, Ordinal(d), Ordinal(d)) == if PaidOn(loan, today, end, d) then amount else 0
  {
    hide Valid, Expected, Ordinal, AddMonths, Each, Between;
    var first := Later(loan.next.value, today);
    var dates := Instalments(first, Expected(loan.remaining, first, end));
    InstalmentsAscend(first, |dates|);
    EachOn(dates, amount, d);
    if PaidOn(loan, today, end, d) {
      var k :| 0 <= k < |dates| && AddMonths(first, k) == d;
      assert dates[k] == d;
    }
  }

  lemma {:induction false} RepaidOnDay(loans: seq<Loan>, today: Date, end: Date, d: Date)
    requires Valid(today) && Valid(end) && LoansOk(loans) && Valid(d)
    ensures var events := Repaid(loans, today, end);
            Dated(events) && Between(events, Ordinal(d), Ordinal(d)) == -RepaidOn(loans, today, end, d)
  {
    hide Valid, Expected, Ordinal, AddMonths, Each, Instalments;
    if loans != [] {
      var rest, last := loans[..|loans| - 1], loans[|loans| - 1];
      RepaidOnDay(rest, today, end, d);
      var before := Repaid(rest, today, end);
      if last.next.Some? && last.payment != 0 {
        var first := Later(last.next.value, today);
        LoanOn(last, -last.payment, today, end, d);
        var dates := Instalments(first, Expected(last.remaining, first, end));
        BetweenSplit(before, Each(dates, -last.payment), Ordinal(d), Ordinal(d));
      } else {
        assert Repaid(loans, today, end) == before + [] == before;
      }
    }
  }

  lemma {:induction false} DueAdds(debts: seq<Event>, today: Date, end: Date)
    requires Dated(debts)
    ensures Total(DueIn(debts, today, end)) == SettledWithin(debts, today, end)
  {
    hide Before;
    if debts != [] {
      var rest, last := debts[..|debts| - 1], debts[|debts| - 1];
      DueAdds(rest, today, end);
      TotalSplit(DueIn(rest, today, end), [last]);
      TotalSplit([], [last]);
      assert DueIn(rest, today, end) + [] == DueIn(rest, today, end);
    }
  }

  lemma {:induction false} DueOnDay(debts: seq<Event>, today: Date, end: Date, d: Date)
    requires Dated(debts) && Valid(d) && NotAfter(today, d) && NotAfter(d, end)
    ensures var events := DueIn(debts, today, end);
            Dated(events) && Between(events, Ordinal(d), Ordinal(d)) == SettledOn(debts, d)
  {
    hide Ordinal, NotAfter, Valid;
    if debts != [] {
      var rest, last := debts[..|debts| - 1], debts[|debts| - 1];
      DueOnDay(rest, today, end, d);
      OrdinalOrders(last.date, d);
      var events := DueIn(rest, today, end);
      assert (events + [last])[..|events|] == events;
      assert events + [] == events;
    }
  }

  lemma NetFlow(incomes: seq<Recurring>, expenses: seq<Recurring>, loans: seq<Loan>, debts: seq<Event>,
                today: Date, end: Date)
    requires Valid(today) && Valid(end) && DaysOk(incomes) && DaysOk(expenses) && LoansOk(loans) && Dated(debts)
    ensures Total(Collected(incomes, expenses, loans, debts, today, end))
         == DueWithin(incomes, today, end) - DueWithin(expenses, today, end)
              - RepaidWithin(loans, today, end) + SettledWithin(debts, today, end)
  {
    hide Repeated, Repaid, DueIn, Total, Valid, DueWithin, RepaidWithin, SettledWithin;
    var a, b := Repeated(incomes, 1, today, end), Repeated(expenses, -1, today, end);
    var c, d := Repaid(loans, today, end), DueIn(debts, today, end);
    RepeatedAdds(incomes, 1, today, end);
    RepeatedAdds(expenses, -1, today, end);
    RepaidAdds(loans, today, end);
    DueAdds(debts, today, end);
    TotalSplit(a, b);
    TotalSplit(a + b, c);
    TotalSplit(a + b + c, d);
  }

  /** From one closing to the next the balance moves by what falls on that day. */
  lemma DayFlow(incomes: seq<Recurring>, expenses: seq<Recurring>, loans: seq<Loan>, debts: seq<Event>,
                today: Date, end: Date, opening: int, d: Date)
    requires Valid(today) && Valid(end) && DaysOk(incomes) && DaysOk(expenses) && LoansOk(loans) && Dated(debts)
    requires Valid(d) && NotAfter(today, d) && NotAfter(d, end)
    ensures var events, i := Collected(incomes, expenses, loans, debts, today, end), Ordinal(d) - Ordinal(today);
            && Dated(events)
            && (i >= 0 ==>
                 BalanceAt(events, today, opening, i) - BalanceAt(events, today, opening, i - 1)
                   == DueOn(incomes, d) - DueOn(expenses, d) - RepaidOn(loans, today, end, d) + SettledOn(debts, d))
  {
    hide Repeated, Repaid, DueIn, Between, Valid, NotAfter, Ordinal, DueOn, RepaidOn, SettledOn, On, Total;
    var a, b := Repeated(incomes, 1, today, end), Repeated(expenses, -1, today, end);
    var c, e := Repaid(loans, today, end), DueIn(debts, today, end);
    var day := Ordinal(d);
    RepeatedOn(incomes, 1, today, end, d);
    RepeatedOn(expenses, -1, today, end, d);
    RepaidOnDay(loans, today, end, d);
    DueOnDay(debts, today, end, d);
    BetweenSplit(a, b, day, day);
    BetweenSplit(a + b, c, day, day);
    BetweenSplit(a + b + c, e, day, day);
    var events := a + b + c + e;
    EmptyWindow(events, day);
    OneMoreDay(events, day, day - 1);
    if day >= Ordinal(today) {
      OneMoreDay(events, Ordinal(today), day - 1);
    }
  }

  // ---- Every single item is on its row ----

  lemma {:induction false} RepeatedHas(items: seq<Recurring>, sign: int, today: Date, end: Date, item: Recurring,
                                       d: Date)
    requires Valid(today) && Valid(end) && DaysOk(items) && item in items
    requires Valid(d) && NotAfter(today, d) && NotAfter(d, end) && FallsOn(item.day, d)
    ensures Event(d, sign * item.amount) in Repeated(items, sign, today, end)
  {
    hide Occurrences, Valid, MonthIndex, NotAfter, FallsOn, Clamped;
    var rest, last := items[..|items| - 1], items[|items| - 1];
    if item in rest {
      RepeatedHas(rest, sign, today, end, item, d);
    } else {
      var dates := Occurrences(MonthIndex(today), today, end, item.day);
      OccurrencesExact(MonthIndex(today), today, end, item.day);
      NothingBefore(today, end, item.day);
      ClampedIffFalls(d, item.day);
      EachHas(dates, sign * item.amount, d);
    }
  }

  lemma EachHas(dates: seq<Date>, amount: int, d: Date)
    requires d in dates
    ensures Event(d, amount) in Each(dates, amount)
  {
    var k :| 0 <= k < |dates| && dates[k] == d;
    assert Each(dates, amount)[k] == Event(d, amount);
  }

  lemma {:induction false} RepaidHas(loans: seq<Loan>, today: Date, end: Date, loan: Loan, d: Date)
    requires Valid(today) && Valid(end) && LoansOk(loans) && loan in loans
    requires loan.next.Some? ==> Valid(loan.next.value)
    requires PaidOn(loan, today, end, d)
    ensures Event(d, -loan.payment) in Repaid(loans, today, end)
  {
    hide Valid, Expected, AddMonths;
    var rest, last := loans[..|loans| - 1], loans[|loans| - 1];
    if loan in rest {
      RepaidHas(rest, today, end, loan, d);
    } else {
      var first := Later(loan.next.value, today);
      var dates := Instalments(first, Expected(loan.remaining, first, end));
      var k :| 0 <= k < |dates| && AddMonths(first, k) == d;
      assert dates[k] == d;
      EachHas(dates, -loan.payment, d);
    }
  }

  lemma {:induction false} DueHas(debts: seq<Event>, today: Date, end: Date, debt: Event)
    requires debt in debts && NotAfter(today, debt.date) && NotAfter(debt.date, end)
    ensures debt in DueIn(debts, today, end)
  {
    hide NotAfter;
    if debt in debts[..|debts| - 1] {
      DueHas(debts[..|debts| - 1], today, end, debt);
    }
  }

  /** The event stands on the row of its date. */
  ghost predicate OnRow(days: seq<Day>, today: Date, e: Event)
    requires Valid(today)
  {
    && Valid(e.date) && 0 <= Ordinal(e.date) - Ordinal(today) < |days|
    && e in days[Ordinal(e.date) - Ordinal(today)].events
  }

  lemma CollectedOnRow(events: seq<Event>, today: Date, end: Date, opening: int, threshold: int, days: seq<Day>,
                       e: Event)
    requires Valid(today) && Valid(end) && Dated(events) && Ordinal(end) == Ordinal(today) + |days| - 1
    requires forall i :: 0 <= i < |days| ==> RowOk(events, today, opening, threshold, i, days[i])
    requires e in events && NotAfter(today, e.date) && NotAfter(e.date, end)
    ensures OnRow(days, today, e)
  {
    hide Ordinal, NotAfter, On, Valid, RowOk;
    assert Valid(e.date);
    InWindow(today, e.date, end);
    var i := Ordinal(e.date) - Ordinal(today);
    OnItsDay(events, e, Ordinal(e.date));
    RowEvents(events, today, opening, threshold, i, days[i]);
  }

  lemma RowEvents(events: seq<Event>, today: Date, opening: int, threshold: int, i: nat, row: Day)
    requires Valid(today) && Dated(events) && RowOk(events, today, opening, threshold, i, row)
    ensures row.events == On(events, Ordinal(today) + i)
  {
  }

  lemma RowBalances(events: seq<Event>, today: Date, opening: int, threshold: int, i: nat, row: Day)
    requires Valid(today) && Dated(events) && RowOk(events, today, opening, threshold, i, row)
    ensures row.opening == BalanceAt(events, today, opening, i - 1)
    ensures row.closing == BalanceAt(events, today, opening, i)
  {
  }

  /**
   * The row of a day in the window: its balance moves by the incomes of that day less its expenses
   * and instalments, plus the debts due then, and every one of them is listed on it with its sign.
   */
  ghost predicate DayShows(incomes: seq<Recurring>, expenses: seq<Recurring>, loans: seq<Loan>, debts: seq<Event>,
                           today: Date, end: Date, days: seq<Day>, d: Date)
    requires Valid(today) && Valid(end) && Valid(d) && LoansOk(loans)
  {
    var i := Ordinal(d) - Ordinal(today);
    && 0 <= i < |days|
    && days[i].closing - days[i].opening
         == DueOn(incomes, d) - DueOn(expenses, d) - RepaidOn(loans, today, end, d) + SettledOn(debts, d)
    && (forall item :: item in incomes && FallsOn(item.day, d) ==> OnRow(days, today, Event(d, item.amount)))
    && (forall item :: item in expenses && FallsOn(item.day, d) ==> OnRow(days, today, Event(d, -item.amount)))
    && (forall k :: 0 <= k < |loans| && PaidOn(loans[k], today, end, d) ==>
          OnRow(days, today, Event(d, -loans[k].payment)))
    && (forall debt :: debt in debts && debt.date == d ==> OnRow(days, today, debt))
  }

  lemma DayIsShown(incomes: seq<Recurring>, expenses: seq<Recurring>, loans: seq<Loan>, debts: seq<Event>,
                   today: Date, end: Date, opening: int, threshold: int, days: seq<Day>, d: Date)
    requires Valid(today) && Valid(end) && DaysOk(incomes) && DaysOk(expenses) && LoansOk(loans) && Dated(debts)
    requires var events := Collected(incomes, expenses, loans, debts, today, end);
             && Dated(events) && Ordinal(end) == Ordinal(today) + |days| - 1
             && forall i :: 0 <= i < |days| ==> RowOk(events, today, opening, threshold, i, days[i])
    requires Valid(d) && NotAfter(today, d) && NotAfter(d, end)
    ensures DayShows(incomes, expenses, loans, debts, today, end, days, d)
  {
    hide Ordinal, Valid, NotAfter, FallsOn, PaidOn, OnRow, RowOk, Repeated, Repaid, DueIn, DueOn, RepaidOn, SettledOn;
    var events := Collected(incomes, expenses, loans, debts, today, end);
    InWindow(today, d, end);
    var i := Ordinal(d) - Ordinal(today);
    DayFlow(incomes, expenses, loans, debts, today, end, opening, d);
    RowBalances(events, today, opening, threshold, i, days[i]);
    forall item | item in incomes && FallsOn(item.day, d)
      ensures OnRow(days, today, Event(d, item.amount))
    {
      RepeatedHas(incomes, 1, today, end, item, d);
      CollectedOnRow(events, today, end, opening, threshold, days, Event(d, item.amount));
    }
    forall item | item in expenses && FallsOn(item.day, d)
      ensures OnRow(days, today, Event(d, -item.amount))
    {
      RepeatedHas(expenses, -1, today, end, item, d);
      CollectedOnRow(events, today, end, opening, threshold, days, Event(d, -item.amount));
    }
    forall k | 0 <= k < |loans| && PaidOn(loans[k], today, end, d)
      ensures OnRow(days, today, Event(d, -loans[k].payment))
    {
      RepaidHas(loans, today, end, loans[k], d);
      CollectedOnRow(events, today, end, opening, threshold, days, Event(d, -loans[k].payment));
    }
    forall debt | debt in debts && debt.date == d
      ensures OnRow(days, today, debt)
    {
      DueHas(debts, today, end, debt);
      CollectedOnRow(events, today, end, opening, threshold, days, debt);
    }
  }
}
