/** The dates on which recurring items and loan instalments fall. */
module CashflowDates {
  import opened Calendar
  import opened Options

  /** The date is its month's (clamped) day and lies in the window. */
  predicate Occurs(d: Date, start: Date, end: Date, day: int)
    requires day >= 1
  {
    NotAfter(start, d) && NotAfter(d, end) && d == Clamped(MonthIndex(d), day)
  }

  ghost predicate Ascending(dates: seq<Date>) {
    forall i, j :: 0 <= i < j < |dates| ==> Before(dates[i], dates[j])
  }

  /** The occurrences from a month on, month by month. */
  function Occurrences(index: int, start: Date, end: Date, day: int): seq<Date>
    requires day >= 1
    decreases MonthIndex(end) + 1 - index
  {
    if index > MonthIndex(end) then []
    else
      var d := Clamped(index, day);
      (if NotAfter(start, d) && NotAfter(d, end) then [d] else []) + Occurrences(index + 1, start, end, day)
  }

  /** The occurrences from a month on are exactly the item's clamped days in the window, in order. */
  lemma {:induction false} OccurrencesExact(index: int, start: Date, end: Date, day: int)
    requires Valid(end) && day >= 1
    ensures forall d :: d in Occurrences(index, start, end, day) <==>
      Occurs(d, start, end, day) && index <= MonthIndex(d)
    ensures Ascending(Occurrences(index, start, end, day))
    ensures forall d :: d in Occurrences(index, start, end, day) ==> Valid(d)
    decreases MonthIndex(end) + 1 - index
  {
    hide Clamped, MonthDays, Leap, Before;
    var all := Occurrences(index, start, end, day);
    if index > MonthIndex(end) {
      NoneAfter(index, start, end, day);
    } else {
      OccurrencesExact(index + 1, start, end, day);
      var d, rest := Clamped(index, day), Occurrences(index + 1, start, end, day);
      forall i | 0 <= i < |rest|
        ensures Before(d, rest[i])
      {
        assert rest[i] in rest;
        LaterIndexIsLater(d, rest[i]);
      }
    }
  }

  lemma NoneAfter(index: int, start: Date, end: Date, day: int)
    requires Valid(end) && day >= 1 && index > MonthIndex(end)
    ensures forall d :: Occurs(d, start, end, day) ==> MonthIndex(d) < index
  {
    forall d | Occurs(d, start, end, day)
      ensures MonthIndex(d) < index
    {
      if MonthIndex(end) < MonthIndex(d) {
        LaterIndexIsLater(end, d);
      }
    }
  }

  /** Every occurrence of a monthly item, once and in order. */
  method MonthOccurrences(start: Date, end: Date, day: int) returns (results: seq<Date>)
    requires Valid(start) && Valid(end) && day >= 1
    ensures forall d :: d in results <==> Occurs(d, start, end, day)
    ensures Ascending(results)
    ensures results == Occurrences(MonthIndex(start), start, end, day)
  {
    hide MonthIndex, Clamped, Before, MonthDays, Leap;
    results := [];
    var cur := Date(start.year, start.month, 1);
    FirstOfMonth(start);
    NothingBefore(start, end, day);
    while NotAfter(cur, end)
      invariant Valid(cur) && cur.day == 1 && MonthIndex(cur) >= MonthIndex(start)
      invariant forall d :: d in results <==> Occurs(d, start, end, day) && MonthIndex(d) < MonthIndex(cur)
      invariant Ascending(results)
      invariant Occurrences(MonthIndex(start), start, end, day)
             == results + Occurrences(MonthIndex(cur), start, end, day)
      decreases MonthIndex(end) + 1 - MonthIndex(cur)
    {
      var candidate := Date(cur.year, cur.month, MinInt(day, MonthDays(cur.year, cur.month)));
      ghost var at := MonthIndex(cur);
      DayOfMonth(cur, day);
      ghost var before := results;
      if NotAfter(start, candidate) && NotAfter(candidate, end) {
        Appended(results, candidate, at);
        results := results + [candidate];
      }
      NotPast(cur, end);
      assert results == before + if NotAfter(start, candidate) && NotAfter(candidate, end) then [candidate] else [];
      NextFirst(cur);
      cur := Date(cur.year + (if cur.month == 12 then 1 else 0), cur.month % 12 + 1, 1);
    }
    forall d | Occurs(d, start, end, day)
      ensures MonthIndex(d) < MonthIndex(cur)
    {
      InTime(d, cur, end);
    }
    NoneLeft(cur, start, end, day);
  }

  /** Past the last month, or at most a date after the end, nothing occurs any more. */
  lemma NoneLeft(cur: Date, start: Date, end: Date, day: int)
    requires Valid(cur) && cur.day == 1 && Valid(end) && Before(end, cur) && day >= 1
    ensures Occurrences(MonthIndex(cur), start, end, day) == []
  {
    if MonthIndex(cur) < MonthIndex(end) {
      LaterIndexIsLater(cur, end);
    }
  }

  lemma FirstOfMonth(d: Date)
    requires Valid(d)
    ensures var f := Date(d.year, d.month, 1); Valid(f) && MonthIndex(f) == MonthIndex(d)
  {
  }

  lemma NothingBefore(start: Date, end: Date, day: int)
    requires Valid(start) && day >= 1
    ensures forall d :: Occurs(d, start, end, day) ==> MonthIndex(d) >= MonthIndex(start)
  {
    forall d | Occurs(d, start, end, day)
      ensures MonthIndex(d) >= MonthIndex(start)
    {
      if MonthIndex(d) < MonthIndex(start) {
        LaterIndexIsLater(d, start);
      }
    }
  }

  lemma DayOfMonth(cur: Date, day: int)
    requires Valid(cur) && day >= 1
    ensures Date(cur.year, cur.month, MinInt(day, MonthDays(cur.year, cur.month))) == Clamped(MonthIndex(cur), day)
  {
  }

  lemma NextFirst(cur: Date)
    requires Valid(cur)
    ensures var n := Date(cur.year + (if cur.month == 12 then 1 else 0), cur.month % 12 + 1, 1);
            Valid(n) && MonthIndex(n) == MonthIndex(cur) + 1
  {
  }

  lemma NotPast(cur: Date, end: Date)
    requires Valid(cur) && Valid(end) && NotAfter(cur, end)
    ensures MonthIndex(cur) <= MonthIndex(end)
  {
    if MonthIndex(end) < MonthIndex(cur) {
      LaterIndexIsLater(end, cur);
    }
  }

  lemma Appended(dates: seq<Date>, last: Date, at: int)
    requires Ascending(dates) && Valid(last) && MonthIndex(last) == at
    requires forall d :: d in dates ==> Valid(d) && MonthIndex(d) < at
    ensures Ascending(dates + [last])
  {
    var all := dates + [last];
    forall i, j | 0 <= i < j < |all|
      ensures Before(all[i], all[j])
    {
      if j == |dates| {
        assert all[i] in dates;
        LaterIndexIsLater(all[i], last);
      }
    }
  }

  lemma InTime(d: Date, cur: Date, end: Date)
    requires Valid(d) && Valid(end) && Valid(cur) && cur.day == 1 && Before(end, cur) && NotAfter(d, end)
    ensures MonthIndex(d) < MonthIndex(cur)
  {
    if MonthIndex(cur) <= MonthIndex(d) {
      if MonthIndex(cur) < MonthIndex(d) {
        LaterIndexIsLater(cur, d);
      }
    }
  }

  // ---- Loan instalments ----

  function Later(a: Date, b: Date): Date { if Before(a, b) then b else a }

  /** How many of first, first + 1 month, first + 2 months, ... fall on or before the end. */
  function InHorizon(first: Date, end: Date): nat
    requires Valid(first) && Valid(end)
  {
    var months := MonthIndex(end) - MonthIndex(first);
    if months < 0 then 0
    else if NotAfter(Clamped(MonthIndex(end), first.day), end) then months + 1
    else months
  }

  /** The dates inside the horizon are the first ones and no others. */
  lemma HorizonIsExact(first: Date, end: Date, k: nat)
    requires Valid(first) && Valid(end)
    ensures NotAfter(AddMonths(first, k), end) <==> k < InHorizon(first, end)
  {
    var d := AddMonths(first, k);
    if MonthIndex(d) < MonthIndex(end) {
      LaterIndexIsLater(d, end);
    } else if MonthIndex(end) < MonthIndex(d) {
      LaterIndexIsLater(end, d);
    }
  }

  /** No limit when the number of instalments left is unknown. */
  function Expected(remaining: Option<int>, first: Date, end: Date): nat
    requires Valid(first) && Valid(end)
  {
    match remaining
    case None => InHorizon(first, end)
    case Some(r) => if r <= 0 then 0 else MinInt(r, InHorizon(first, end))
  }

  /** The dates of a loan's instalments. */
  function Instalments(first: Date, n: nat): (dates: seq<Date>)
    requires Valid(first)
    ensures |dates| == n
  {
    seq(n, k requires 0 <= k < n => AddMonths(first, k))
  }

  lemma InstalmentsAscend(first: Date, n: nat)
    requires Valid(first)
    ensures Ascending(Instalments(first, n))
  {
    hide Before, Clamped;
    forall i: nat, j: nat | i < j < n
      ensures Before(AddMonths(first, i), AddMonths(first, j))
    {
      LaterIndexIsLater(AddMonths(first, i), AddMonths(first, j));
    }
  }

  lemma InstalmentsAre(first: Date, n: nat)
    requires Valid(first)
    ensures forall k :: 0 <= k < n ==> Instalments(first, n)[k] == AddMonths(first, k)
  {
  }

  lemma NotAfterIff(a: Date, b: Date)
    ensures NotAfter(a, b) <==> !Before(b, a)
  {
  }

  lemma OneMoreInstalment(first: Date, n: nat)
    requires Valid(first)
    ensures Instalments(first, n + 1) == Instalments(first, n) + [AddMonths(first, n)]
  {
  }

  /** The k-th instalment is k months after the first: no drift, no month skipped. */
  method LoanPayments(isLoan: bool, next: Option<Date>, payment: int, remaining: Option<int>, start: Date, end: Date)
    returns (dates: seq<Date>)
    requires Valid(start) && Valid(end) && (next.Some? ==> Valid(next.value))
    ensures !isLoan || next.None? || payment == 0 ==> dates == []
    ensures isLoan && next.Some? && payment != 0 ==>
      var first := if Before(next.value, start) then start else next.value;
      && (forall k :: 0 <= k < |dates| ==> dates[k] == AddMonths(first, k))
      && (remaining.Some? && |dates| > 0 ==> |dates| <= remaining.value)
      && (remaining.None? || |dates| < remaining.value ==> Before(end, AddMonths(first, |dates|)))
    ensures isLoan && next.Some? && payment != 0 ==>
      var first := Later(next.value, start);
      && dates == Instalments(first, Expected(remaining, first, end))
      && forall k :: 0 <= k < |dates| ==>
           NotAfter(start, dates[k]) && NotAfter(dates[k], end)
  {
    hide MonthIndex, Clamped, NotAfter, MonthDays, InHorizon, AddMonths, Instalments;
    dates := [];
    if !isLoan || next.None? || payment == 0 {
      return;
    }
    var first := Later(next.value, start);
    if remaining == Some(0) {
      return;
    }
    var current := next.value;
    if Before(current, start) {
      current := start;
    }
    var anchor := current.day;
    var idx := 0;
    HorizonIsExact(first, end, 0);
    NotBeforeItself(start);
    FirstPayment(first);
    while NotAfter(current, end) && (remaining.None? || idx < remaining.value)
      invariant 0 <= idx && dates == Instalments(first, idx) && current == AddMonths(first, idx)
      invariant NotAfter(current, end) <==> idx < InHorizon(first, end)
      invariant idx <= Expected(remaining, first, end)
      invariant forall k :: 0 <= k < |dates| ==> NotAfter(start, dates[k]) && NotAfter(dates[k], end)
      decreases InHorizon(first, end) - idx
    {
      NotBeforeFirst(first, start, idx);
      OneMoreInstalment(first, idx);
      dates := dates + [current];
      var y := current.year + (if current.month == 12 then 1 else 0);
      var m := current.month % 12 + 1;
      NextMonth(first, idx);
      HorizonIsExact(first, end, idx + 1);
      current := Date(y, m, MinInt(anchor, MonthDays(y, m)));
      idx := idx + 1;
    }
    InstalmentsAre(first, idx);
    NotAfterIff(current, end);
  }

  lemma NotBeforeItself(d: Date)
    ensures NotAfter(d, d)
  {
  }

  lemma FirstPayment(first: Date)
    requires Valid(first)
    ensures AddMonths(first, 0) == first
  {
  }

  lemma NotBeforeFirst(first: Date, start: Date, k: nat)
    requires Valid(first) && Valid(start) && NotAfter(start, first)
    ensures NotAfter(start, AddMonths(first, k))
  {
    if k > 0 {
      LaterIndexIsLater(first, AddMonths(first, k));
    }
  }

  lemma NextMonth(first: Date, k: nat)
    requires Valid(first)
    ensures var d := AddMonths(first, k);
            var y, m := d.year + (if d.month == 12 then 1 else 0), d.month % 12 + 1;
            AddMonths(first, k + 1) == Date(y, m, MinInt(first.day, MonthDays(y, m)))
  {
    var d := AddMonths(first, k);
    var y, m := d.year + (if d.month == 12 then 1 else 0), d.month % 12 + 1;
    assert 12 * y + m - 1 == MonthIndex(first) + k + 1;
    assert (12 * y + m - 1) / 12 == y && (12 * y + m - 1) % 12 == m - 1;
  }

  // ---- Stepping from the last date instead of the first ----

  /** One month on from a date, keeping that date's day if it can. */
  function AdvanceMonth(d: Date): (r: Date)
    requires Valid(d)
    ensures Valid(r)
  {
    var m := d.month % 12 + 1;
    var y := d.year + d.month / 12;
    Date(y, m, MinInt(d.day, MonthDays(y, m)))
  }

  function Advanced(d: Date, k: nat): (r: Date)
    requires Valid(d)
    ensures Valid(r)
  {
    if k == 0 then d else AdvanceMonth(Advanced(d, k - 1))
  }

  lemma AdvanceSmall(d: Date)
    requires Valid(d) && d.day <= 28
    ensures AdvanceMonth(d).day == d.day
    ensures var y, m := d.year + (if d.month == 12 then 1 else 0), d.month % 12 + 1;
            AdvanceMonth(d) == Date(y, m, MinInt(d.day, MonthDays(y, m)))
  {
  }

  lemma {:induction false} AdvancedKeepsSmallDays(d: Date, k: nat)
    requires Valid(d) && d.day <= 28
    ensures Advanced(d, k) == AddMonths(d, k) && Advanced(d, k).day == d.day
  {
    hide AdvanceMonth, AddMonths, Valid, MonthDays;
    if k == 0 {
      FirstPayment(d);
    } else {
      AdvancedKeepsSmallDays(d, k - 1);
      AdvanceSmall(Advanced(d, k - 1));
      NextMonth(d, k - 1);
    }
  }

  lemma {:induction false} AdvancedIndex(d: Date, k: nat)
    requires Valid(d)
    ensures MonthIndex(Advanced(d, k)) == MonthIndex(d) + k
  {
    if k > 0 {
      AdvancedIndex(d, k - 1);
    }
  }

  /** A day after the 28th does not come back from February. */
  lemma FebruaryShortens(d: Date) returns (k: nat)
    requires Valid(d) && d.day > 28
    ensures Advanced(d, k) != AddMonths(d, k)
  {
    hide AdvanceMonth, AddMonths, Advanced;
    var year := if Leap(d.year + 1) then d.year + 2 else d.year + 1;
    var before := 12 * year + 1 - MonthIndex(d);
    AdvancedIndex(d, before);
    var february := Advanced(d, before);
    assert february.month == 2 && february.year == year;
    k := before + 1;
    AfterFebruary(february);
    AdvancedMore(d, before);
    MarchOf(d, k, year);
  }

  lemma AdvancedMore(d: Date, k: nat)
    requires Valid(d)
    ensures Advanced(d, k + 1) == AdvanceMonth(Advanced(d, k))
  {
  }

  lemma AfterFebruary(february: Date)
    requires Valid(february) && february.month == 2 && !Leap(february.year)
    ensures AdvanceMonth(february).day <= 28
  {
  }

  lemma MarchOf(d: Date, k: nat, year: int)
    requires Valid(d) && MonthIndex(d) + k == 12 * year + 2
    ensures AddMonths(d, k).day == d.day
  {
  }

  /** Stepping month by month from the previous date drifts exactly for days after the 28th. */
  lemma DriftFreeIffSmallDay(d: Date)
    requires Valid(d)
    ensures (forall k: nat :: Advanced(d, k) == AddMonths(d, k)) <==> d.day <= 28
  {
    hide AddMonths, Advanced, Valid;
    if d.day <= 28 {
      forall k: nat
        ensures Advanced(d, k) == AddMonths(d, k)
      {
        AdvancedKeepsSmallDays(d, k);
      }
    } else {
      var k := FebruaryShortens(d);
    }
  }
}
