/** The simulation's report agrees with itself: every month with the one before, and the totals with the months. */
module DebtReport {
  import opened Calendar
  import opened Options
  import opened DebtPlan
  import opened DebtLedger
  import opened DebtPriority
  import opened DebtBooks
  import opened DebtSimulator

  /** What a month's dictionary says of an account; nothing recorded is nothing. */
  function At(m: map<int, real>, id: int): real { if id in m then m[id] else 0.0 }

  lemma NothingOnClosed(ds: seq<DebtItem>, bs: seq<real>, extra: real, k: nat)
    requires |ds| == |bs| && k < |ds| && !Open(Accrued(ds, bs)[k])
    ensures PaidInMonth(ds, bs, extra, k) == 0.0
  {
  }

  /** One month's entries are what the plan adds in that month. */
  lemma MonthEntries(ds: seq<DebtItem>, extra: real, m: nat, s: MonthSnapshot, k: nat)
    requires ScheduledMonth(ds, extra, m, s) && k < |ds|
    ensures var p, q, id := After(ds, extra, m), After(ds, extra, m + 1), ds[k].accountId;
            && s.monthIndex == m + 1 && id in s.debtBalances && s.debtBalances[id] == q.balances[k]
            && q.interest[k] == p.interest[k] + At(s.interestThisMonth, id)
            && q.paid[k] == p.paid[k] + At(s.paidThisMonth, id)
            && (id in s.payoffEvents <==> PaidOffIn(ds, extra, m + 1, k))
  {
    hide MonthEnd, Freed, PaysOff, PaidInMonth, Accrued, IdSet, NoRepeats, OnlyThese;
    var p, q := After(ds, extra, m), After(ds, extra, m + 1);
    assert q == Step(ds, p, m + 1);
    assert SnapshotLine(ds, p, s, k);
    if !Open(Accrued(ds, p.balances)[k]) {
      NothingOnClosed(ds, p.balances, p.extra, k);
    }
  }

  /** Every reported balance is the one reported before it, with the month's interest and without its payments. */
  lemma BalancesAddUp(ds: seq<DebtItem>, extra: real, today: Date, r: StrategyResult, m: nat, k: nat)
    requires Valid(today) && ResultOf(ds, extra, today, r) && m < |r.schedule| && k < |ds|
    ensures var s, id := r.schedule[m], ds[k].accountId;
            && s.monthIndex == m + 1 && id in s.debtBalances && (m > 0 ==> id in r.schedule[m - 1].debtBalances)
            && s.debtBalances[id]
                 == (if m == 0 then ds[k].balance else r.schedule[m - 1].debtBalances[id])
                      + At(s.interestThisMonth, id) - At(s.paidThisMonth, id)
  {
    hide ScheduledMonth, After, Months, Sum, AddMonths, Ids, IdSet;
    MonthEntries(ds, extra, m, r.schedule[m], k);
    EachDebtConserved(ds, extra, m, k);
    EachDebtConserved(ds, extra, m + 1, k);
    if m > 0 {
      MonthEntries(ds, extra, m - 1, r.schedule[m - 1], k);
    } else {
      StartOf(ds, extra, k);
    }
  }

  lemma StartOf(ds: seq<DebtItem>, extra: real, k: nat)
    requires k < |ds|
    ensures After(ds, extra, 0).balances[k] == ds[k].balance
  {
  }

  /**
   * An account is on the list of payoffs of exactly the month recorded for it, once, and on no list
   * without a record; no list holds anything but accounts of the debts.
   */
  lemma PayoffsAgree(ds: seq<DebtItem>, extra: real, today: Date, r: StrategyResult, m: nat, k: nat)
    requires Valid(today) && ResultOf(ds, extra, today, r) && m < |r.schedule| && k < |ds|
    ensures var events, id := r.schedule[m].payoffEvents, ds[k].accountId;
            && (id in events <==> id in r.debtPayoffMonths && r.debtPayoffMonths[id] == m + 1)
            && (forall i, j :: 0 <= i < j < |events| ==> events[i] != events[j])
            && forall i :: 0 <= i < |events| ==> Of(ds, events[i])
  {
    hide ScheduledMonth, After, Months, Sum, AddMonths, Ids, IdSet, PaidOffIn;
    MonthEntries(ds, extra, m, r.schedule[m], k);
    RecordedMonth(ds, extra, r.monthsToFreedom, m + 1, k);
    ListsAccounts(ds, extra, m, r.schedule[m]);
  }

  /** The account of one of the debts. */
  ghost predicate Of(ds: seq<DebtItem>, id: int) {
    exists l :: 0 <= l < |ds| && ds[l].accountId == id
  }

  lemma ListsAccounts(ds: seq<DebtItem>, extra: real, m: nat, s: MonthSnapshot)
    requires ScheduledMonth(ds, extra, m, s)
    ensures forall i, j :: 0 <= i < j < |s.payoffEvents| ==> s.payoffEvents[i] != s.payoffEvents[j]
    ensures forall i :: 0 <= i < |s.payoffEvents| ==> Of(ds, s.payoffEvents[i])
  {
    hide After;
    forall i | 0 <= i < |s.payoffEvents|
      ensures Of(ds, s.payoffEvents[i])
    {
      assert s.payoffEvents[i] in IdSet(ds);
      var d :| d in ds && d.accountId == s.payoffEvents[i];
      var l :| 0 <= l < |ds| && ds[l] == d;
    }
  }

  // ---- The totals ----

  function Column(ds: seq<DebtItem>, m: map<int, real>): (c: seq<real>)
    ensures |c| == |ds|
  {
    seq(|ds|, k requires 0 <= k < |ds| => At(m, ds[k].accountId))
  }

  function PaidUpTo(ds: seq<DebtItem>, schedule: seq<MonthSnapshot>): real {
    if schedule == [] then 0.0
    else PaidUpTo(ds, schedule[..|schedule| - 1]) + Sum(Column(ds, schedule[|schedule| - 1].paidThisMonth))
  }

  function InterestUpTo(ds: seq<DebtItem>, schedule: seq<MonthSnapshot>): real {
    if schedule == [] then 0.0
    else InterestUpTo(ds, schedule[..|schedule| - 1]) + Sum(Column(ds, schedule[|schedule| - 1].interestThisMonth))
  }

  lemma {:induction false} TotalsUpTo(ds: seq<DebtItem>, extra: real, schedule: seq<MonthSnapshot>)
    requires forall m :: 0 <= m < |schedule| ==> ScheduledMonth(ds, extra, m, schedule[m])
    ensures Sum(After(ds, extra, |schedule|).paid) == PaidUpTo(ds, schedule)
    ensures Sum(After(ds, extra, |schedule|).interest) == InterestUpTo(ds, schedule)
  {
    hide ScheduledMonth, Sum, After;
    if schedule == [] {
      NothingYet(ds, extra);
    } else {
      var m := |schedule| - 1;
      TotalsUpTo(ds, extra, schedule[..m]);
      var p, q := After(ds, extra, m), After(ds, extra, m + 1);
      forall k | 0 <= k < |ds|
        ensures q.paid[k] == p.paid[k] + Column(ds, schedule[m].paidThisMonth)[k]
        ensures q.interest[k] == p.interest[k] + Column(ds, schedule[m].interestThisMonth)[k]
      {
        MonthEntries(ds, extra, m, schedule[m], k);
      }
      SumAdds(p.paid, Column(ds, schedule[m].paidThisMonth), q.paid);
      SumAdds(p.interest, Column(ds, schedule[m].interestThisMonth), q.interest);
    }
  }

  lemma NothingYet(ds: seq<DebtItem>, extra: real)
    ensures Sum(After(ds, extra, 0).paid) == 0.0 && Sum(After(ds, extra, 0).interest) == 0.0
  {
    SumOfZeros(After(ds, extra, 0).paid);
    SumOfZeros(After(ds, extra, 0).interest);
  }

  /** The totals reported are the sums of what the months report. */
  lemma TotalsAddUp(ds: seq<DebtItem>, extra: real, today: Date, r: StrategyResult)
    requires Valid(today) && ResultOf(ds, extra, today, r)
    ensures |r.schedule| == r.monthsToFreedom
    ensures r.totalPaid == PaidUpTo(ds, r.schedule) && r.totalInterest == InterestUpTo(ds, r.schedule)
  {
    hide ScheduledMonth, After, Months, Sum, AddMonths, Ids, IdSet;
    TotalsUpTo(ds, extra, r.schedule);
  }
}
