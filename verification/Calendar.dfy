/** Proleptic Gregorian dates, as far as the engine steps through months. */
module Calendar {
  datatype Date = Date(year: int, month: int, day: int)

  predicate Leap(y: int) { y % 4 == 0 && (y % 100 != 0 || y % 400 == 0) }

  function MonthDays(y: int, m: int): (n: int)
    ensures 28 <= n <= 31
  {
    if m == 2 then (if Leap(y) then 29 else 28)
    else if m == 4 || m == 6 || m == 9 || m == 11 then 30
    else 31
  }

  predicate Valid(d: Date) {
    1 <= d.month <= 12 && 1 <= d.day <= MonthDays(d.year, d.month)
  }

  function MinInt(a: int, b: int): int { if a <= b then a else b }

  /** Months since year 0; consecutive months have consecutive indices. */
  function MonthIndex(d: Date): int { 12 * d.year + d.month - 1 }

  /** The given day of a month, moved back to the month's last day if there is no such day. */
  function Clamped(index: int, day: int): (d: Date)
    requires day >= 1
    ensures Valid(d) && MonthIndex(d) == index
  {
    var y, m := index / 12, index % 12 + 1;
    Date(y, m, MinInt(day, MonthDays(y, m)))
  }

  function AddMonths(d: Date, months: nat): (r: Date)
    requires Valid(d)
    ensures r == Clamped(MonthIndex(d) + months, d.day)
  {
    var total := d.month - 1 + months;
    var year := d.year + total / 12;
    var month := total % 12 + 1;
    Date(year, month, MinInt(d.day, MonthDays(year, month)))
  }

  predicate Before(a: Date, b: Date) {
    a.year < b.year || (a.year == b.year && (a.month < b.month || (a.month == b.month && a.day < b.day)))
  }

  predicate NotAfter(a: Date, b: Date) { !Before(b, a) }

  // ---- day numbers ----

  function DaysBeforeYear(y: int): int { 365 * (y - 1) + (y - 1) / 4 - (y - 1) / 100 + (y - 1) / 400 }

  function DaysBeforeMonth(y: int, m: int): int
    requires m >= 1
    decreases m
  {
    if m == 1 then 0 else DaysBeforeMonth(y, m - 1) + MonthDays(y, m - 1)
  }

  /** The day number of a date; consecutive days have consecutive numbers. */
  function Ordinal(d: Date): int
    requires Valid(d)
  {
    DaysBeforeYear(d.year) + DaysBeforeMonth(d.year, d.month) + d.day
  }

  /** The Gregorian calendar: 31 and 30 days alternate, with a break between July and August. */
  lemma MonthLengths(y: int, m: int)
    requires 1 <= m <= 12
    ensures m == 2 || MonthDays(y, m) == 30 + if m <= 7 then m % 2 else 1 - m % 2
    ensures DaysBeforeMonth(y, 13) == 365 + if MonthDays(y, 2) == 29 then 1 else 0
  {
    hide Leap;
    MonthTable(y);
  }

  /** February has 29 days every fourth year, but of the centuries only in every fourth. */
  lemma LeapYears(y: int)
    ensures MonthDays(4 * y, 2) == 29 <==> y % 25 != 0 || y % 100 == 0
    ensures y % 4 != 0 ==> MonthDays(y, 2) == 28
  {
    assert 4 * y % 100 == 0 <==> y % 25 == 0;
    assert 4 * y % 400 == 0 <==> y % 100 == 0;
  }

  /** Day numbers count from the first day of year 1. */
  lemma FirstDay()
    ensures Ordinal(Date(1, 1, 1)) == 1
  {
  }

  lemma MonthTable(y: int)
    ensures DaysBeforeMonth(y, 13) == 337 + MonthDays(y, 2)
  {
    assert DaysBeforeMonth(y, 3) == 31 + MonthDays(y, 2);
    assert DaysBeforeMonth(y, 5) == 92 + MonthDays(y, 2);
    assert DaysBeforeMonth(y, 7) == 153 + MonthDays(y, 2);
    assert DaysBeforeMonth(y, 9) == 215 + MonthDays(y, 2);
    assert DaysBeforeMonth(y, 11) == 276 + MonthDays(y, 2);
  }

  lemma YearLength(y: int)
    ensures DaysBeforeYear(y + 1) == DaysBeforeYear(y) + DaysBeforeMonth(y, 13)
  {
    assert y / 4 - (y - 1) / 4 == if y % 4 == 0 then 1 else 0;
    assert y / 100 - (y - 1) / 100 == if y % 100 == 0 then 1 else 0;
    assert y / 400 - (y - 1) / 400 == if y % 400 == 0 then 1 else 0;
    MonthTable(y);
  }

  lemma {:induction false} LaterMonth(y: int, m: int, n: int)
    requires 1 <= m < n
    ensures DaysBeforeMonth(y, m) + MonthDays(y, m) <= DaysBeforeMonth(y, n)
    decreases n
  {
    if m + 1 < n {
      LaterMonth(y, m, n - 1);
    }
  }

  lemma {:induction false} LaterYear(y: int, z: int)
    requires y < z
    ensures DaysBeforeYear(y) + DaysBeforeMonth(y, 13) <= DaysBeforeYear(z)
    decreases z - y
  {
    hide DaysBeforeYear, DaysBeforeMonth, MonthDays;
    YearLength(y);
    if y + 1 < z {
      LaterYear(y + 1, z);
      MonthTable(y + 1);
    }
  }

  lemma BeforeRaisesOrdinal(a: Date, b: Date)
    requires Valid(a) && Valid(b) && Before(a, b)
    ensures Ordinal(a) < Ordinal(b)
  {
    if a.year < b.year {
      LaterYear(a.year, b.year);
      LaterMonth(a.year, a.month, 13);
      if b.month > 1 {
        LaterMonth(b.year, 1, b.month);
      }
    } else if a.month < b.month {
      LaterMonth(a.year, a.month, b.month);
    }
  }

  /** Day numbers order dates, and no two dates share one. */
  lemma OrdinalOrders(a: Date, b: Date)
    requires Valid(a) && Valid(b)
    ensures Before(a, b) <==> Ordinal(a) < Ordinal(b)
    ensures a == b <==> Ordinal(a) == Ordinal(b)
  {
    if Before(a, b) {
      BeforeRaisesOrdinal(a, b);
    } else if a != b {
      BeforeRaisesOrdinal(b, a);
    }
  }

  /** A later month's clamped day is later. */
  lemma LaterIndexIsLater(a: Date, b: Date)
    requires Valid(a) && Valid(b) && MonthIndex(a) < MonthIndex(b)
    ensures Before(a, b)
  {
  }
}
