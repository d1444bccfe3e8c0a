/** Payoff events, rollover of freed minimums, and the order in which extra money is spent. */
module DebtPriority {
  import opened DebtPlan

  /** The k-th debt is paid off in month m of the run. */
  predicate PaidOffIn(ds: seq<DebtItem>, extra: real, m: nat, k: nat)
    requires k < |ds|
  {
    m > 0 && (var p := After(ds, extra, m - 1); PaysOff(ds, p.balances, p.extra, k))
  }

  /** A month does not touch a debt that is not open. */
  lemma ClosedStays(ds: seq<DebtItem>, p: Plan, month: nat, k: nat)
    requires Shaped(ds, p) && k < |ds| && !Open(p.balances[k])
    ensures Step(ds, p, month).balances[k] == p.balances[k]
    ensures !PaysOff(ds, p.balances, p.extra, k)
  {
  }

  /** From its payoff on, a debt's balance is exactly zero. */
  lemma {:induction false} ZeroEverAfter(ds: seq<DebtItem>, extra: real, m: nat, n: nat, k: nat)
    requires k < |ds| && m <= n && PaidOffIn(ds, extra, m, k)
    ensures After(ds, extra, n).balances[k] == 0.0
    decreases n
  {
    if m < n {
      hide Step, PaidOffIn;
      ZeroEverAfter(ds, extra, m, n - 1, k);
      ClosedStays(ds, After(ds, extra, n - 1), n, k);
    } else {
      hide MonthEnd, Freed, PaidInMonth, Accrued, BaseMin;
    }
  }

  lemma NotPaidOffLater(ds: seq<DebtItem>, extra: real, i: nat, j: nat, k: nat)
    requires k < |ds| && i < j && PaidOffIn(ds, extra, i, k)
    ensures !PaidOffIn(ds, extra, j, k)
  {
    hide After;
    ZeroEverAfter(ds, extra, i, j - 1, k);
    ClosedStays(ds, After(ds, extra, j - 1), j, k);
  }

  /** No debt is paid off twice. */
  lemma PaidOffOnce(ds: seq<DebtItem>, extra: real, i: nat, j: nat, k: nat)
    requires k < |ds| && PaidOffIn(ds, extra, i, k) && PaidOffIn(ds, extra, j, k)
    ensures i == j
  {
    hide PaidOffIn;
    if i < j {
      NotPaidOffLater(ds, extra, i, j, k);
    } else if j < i {
      NotPaidOffLater(ds, extra, j, i, k);
    }
  }

  lemma RecordStep(ds: seq<DebtItem>, extra: real, n: nat, k: nat)
    requires k < |ds| && n > 0
    ensures var p, q := After(ds, extra, n - 1), After(ds, extra, n);
            q.closedIn[k] == if PaidOffIn(ds, extra, n, k) && p.closedIn[k] == 0 then n else p.closedIn[k]
  {
    hide MonthEnd, Freed, PaysOff, PaidInMonth, Accrued, Interest, BaseMin;
  }

  /** The recorded month is the month of the payoff. */
  lemma {:induction false} RecordedMonth(ds: seq<DebtItem>, extra: real, n: nat, m: nat, k: nat)
    requires k < |ds| && m > 0
    ensures After(ds, extra, n).closedIn[k] == m <==> m <= n && PaidOffIn(ds, extra, m, k)
  {
    hide Step, PaidOffIn;
    if n > 0 {
      RecordStep(ds, extra, n, k);
      RecordedMonth(ds, extra, n - 1, m, k);
      if PaidOffIn(ds, extra, n, k) {
        var c := After(ds, extra, n - 1).closedIn[k];
        if c != 0 {
          RecordedMonth(ds, extra, n - 1, c, k);
          PaidOffOnce(ds, extra, n, c, k);
        }
        if m < n && PaidOffIn(ds, extra, m, k) {
          PaidOffOnce(ds, extra, n, m, k);
        }
      }
    }
  }

  /** A debt that started above zero is recorded as paid off exactly when its balance is zero. */
  lemma {:induction false} RecordedIffZero(ds: seq<DebtItem>, extra: real, n: nat, k: nat)
    requires k < |ds| && ds[k].balance > 0.0 && ds[k].monthlyRate >= 0.0
    ensures After(ds, extra, n).closedIn[k] > 0 <==> After(ds, extra, n).balances[k] == 0.0
  {
    hide MonthEnd, Freed, PaysOff, PaidInMonth, Accrued, Interest, BaseMin;
    if n > 0 {
      RecordStep(ds, extra, n, k);
      RecordedIffZero(ds, extra, n - 1, k);
      var p := After(ds, extra, n - 1);
      if Open(p.balances[k]) {
        OpenPaysOff(ds, p, n, k);
      } else {
        ClosedStays(ds, p, n, k);
      }
    }
  }

  lemma OpenPaysOff(ds: seq<DebtItem>, p: Plan, month: nat, k: nat)
    requires Shaped(ds, p) && k < |ds| && Open(p.balances[k]) && ds[k].monthlyRate >= 0.0
    ensures PaysOff(ds, p.balances, p.extra, k) <==> Step(ds, p, month).balances[k] == 0.0
  {
    assert Interest(ds[k], p.balances[k]) >= 0.0;
    assert Open(Accrued(ds, p.balances)[k]);
  }

  /** Last minimums of the first n debts, as far as these are paid off. */
  function FreedSoFar(p: Plan, n: nat): real
    requires n <= |p.closedIn| == |p.lastBase|
  {
    if n == 0 then 0.0 else
      FreedSoFar(p, n - 1) + if p.closedIn[n - 1] > 0 then p.lastBase[n - 1] else 0.0
  }

  lemma LastBaseStep(ds: seq<DebtItem>, p: Plan, month: nat, k: nat)
    requires Shaped(ds, p) && k < |ds|
    ensures var a := Accrued(ds, p.balances)[k];
            Step(ds, p, month).lastBase[k] == if Open(a) then BaseMin(ds[k], a) else p.lastBase[k]
    ensures !Open(p.balances[k]) ==> !Open(Accrued(ds, p.balances)[k])
  {
  }

  lemma FreedOne(ds: seq<DebtItem>, p: Plan, month: nat, k: nat)
    requires Shaped(ds, p) && k < |ds| && month > 0
    requires p.closedIn[k] > 0 ==> !Open(p.balances[k])
    ensures var q := Step(ds, p, month);
            (if q.closedIn[k] > 0 then q.lastBase[k] else 0.0)
            == (if p.closedIn[k] > 0 then p.lastBase[k] else 0.0)
               + if PaysOff(ds, p.balances, p.extra, k) then BaseMin(ds[k], Accrued(ds, p.balances)[k]) else 0.0
  {
    LastBaseStep(ds, p, month, k);
    if !Open(p.balances[k]) {
      ClosedStays(ds, p, month, k);
    }
  }

  lemma {:induction false} FreedStep(ds: seq<DebtItem>, p: Plan, month: nat, n: nat)
    requires Shaped(ds, p) && n <= |ds| && month > 0
    requires forall k :: 0 <= k < n && p.closedIn[k] > 0 ==> !Open(p.balances[k])
    ensures FreedSoFar(Step(ds, p, month), n) == FreedSoFar(p, n) + Freed(ds, p.balances, p.extra, n)
  {
    if n > 0 {
      FreedStep(ds, p, month, n - 1);
      FreedOne(ds, p, month, n - 1);
    }
  }

  lemma RecordedIsClosed(ds: seq<DebtItem>, extra: real, n: nat, k: nat)
    requires k < |ds| && After(ds, extra, n).closedIn[k] > 0
    ensures After(ds, extra, n).balances[k] == 0.0
  {
    var m := After(ds, extra, n).closedIn[k];
    RecordedMonth(ds, extra, n, m, k);
    ZeroEverAfter(ds, extra, m, n, k);
  }

  lemma RolloverStep(ds: seq<DebtItem>, p: Plan, month: nat)
    requires Shaped(ds, p) && month > 0
    requires forall k :: 0 <= k < |ds| && p.closedIn[k] > 0 ==> !Open(p.balances[k])
    ensures var q := Step(ds, p, month);
            q.extra - FreedSoFar(q, |ds|) == p.extra - FreedSoFar(p, |ds|)
  {
    FreedStep(ds, p, month, |ds|);
  }

  /** Rollover: the working extra is the starting extra plus the last minimum of every debt
      paid off so far, each counted once. */
  lemma {:induction false} WorkingExtra(ds: seq<DebtItem>, extra: real, n: nat)
    ensures After(ds, extra, n).extra == extra + FreedSoFar(After(ds, extra, n), |ds|)
  {
    hide Step;
    if n == 0 {
      NothingFreed(Initial(ds, extra), |ds|);
    } else {
      var p := After(ds, extra, n - 1);
      WorkingExtra(ds, extra, n - 1);
      forall k | 0 <= k < |ds| && p.closedIn[k] > 0 ensures !Open(p.balances[k]) {
        RecordedIsClosed(ds, extra, n - 1, k);
      }
      RolloverStep(ds, p, n);
    }
  }

  lemma {:induction false} NothingFreed(p: Plan, n: nat)
    requires n <= |p.closedIn| == |p.lastBase|
    requires forall k :: 0 <= k < n ==> p.closedIn[k] == 0
    ensures FreedSoFar(p, n) == 0.0
  {
    if n > 0 {
      NothingFreed(p, n - 1);
    }
  }

  // ---- where the extra money goes ----

  lemma {:induction false} RemainingFalls(owed: seq<real>, extra: real, i: nat, j: nat)
    requires i <= j <= |owed|
    ensures Remaining(owed, extra, j) <= Remaining(owed, extra, i)
    ensures Remaining(owed, extra, i) <= 0.01 ==> Remaining(owed, extra, j) == Remaining(owed, extra, i)
    decreases j
  {
    if i < j {
      RemainingFalls(owed, extra, i, j - 1);
    }
  }

  /** Extra money reaches a debt only if every earlier debt ends the month closed. */
  lemma ExtraInPriorityOrder(ds: seq<DebtItem>, bs: seq<real>, extra: real, i: nat, j: nat)
    requires |ds| == |bs| && i < j < |ds|
    requires ExtraPaid(AfterMinimums(ds, bs), extra, j) != 0.0
    ensures MonthEnd(ds, bs, extra)[i] <= 0.01
  {
    var owed := AfterMinimums(ds, bs);
    RemainingFalls(owed, extra, i, j);
    RemainingFalls(owed, extra, i + 1, j);
  }

  /** Extra money is not left idle: a debt still open at month end has exhausted it. */
  lemma OpenDebtExhaustsExtra(ds: seq<DebtItem>, bs: seq<real>, extra: real, k: nat)
    requires |ds| == |bs| && k < |ds|
    requires Open(MonthEnd(ds, bs, extra)[k])
    ensures Remaining(AfterMinimums(ds, bs), extra, |ds|) <= 0.01
  {
    RemainingFalls(AfterMinimums(ds, bs), extra, k + 1, |ds|);
  }

  lemma {:induction false} OverspendUnderOneCent(owed: seq<real>, extra: real, k: nat)
    requires k <= |owed|
    ensures Remaining(owed, extra, k) > -0.01 || Remaining(owed, extra, k) == extra
  {
    if k > 0 {
      OverspendUnderOneCent(owed, extra, k - 1);
    }
  }

  function OpenMinimums(ds: seq<DebtItem>, bs: seq<real>, n: nat): real
    requires |ds| == |bs| && n <= |ds|
  {
    if n == 0 then 0.0 else
      OpenMinimums(ds, bs, n - 1) +
      var a := Accrued(ds, bs)[n - 1];
      if Open(a) then BaseMin(ds[n - 1], a) else 0.0
  }

  function OpenCount(ds: seq<DebtItem>, bs: seq<real>, n: nat): nat
    requires |ds| == |bs| && n <= |ds|
  {
    if n == 0 then 0 else
      OpenCount(ds, bs, n - 1) + if Open(Accrued(ds, bs)[n - 1]) then 1 else 0
  }

  /** The budget counts the debts that are open once interest is added, and what each of them is asked for. */
  lemma {:induction false} BudgetCounts(ds: seq<DebtItem>, bs: seq<real>, open: set<nat>, asked: seq<real>)
    requires |ds| == |bs| && |asked| <= |ds|
    requires forall k :: k in open <==> 0 <= k < |asked| && Open(Accrued(ds, bs)[k])
    requires forall k :: 0 <= k < |asked| ==> asked[k] == if k in open then BaseMin(ds[k], Accrued(ds, bs)[k]) else 0.0
    ensures OpenCount(ds, bs, |asked|) == |open| && OpenMinimums(ds, bs, |asked|) == Sum(asked)
    decreases |asked|
  {
    hide BaseMin, Accrued, Open;
    if asked == [] {
      assert open == {};
    } else {
      var n := |asked| - 1;
      BudgetCounts(ds, bs, open - {n}, asked[..n]);
      if n in open {
        assert open == (open - {n}) + {n};
      } else {
        assert open == open - {n};
      }
    }
  }

  function MonthTotal(ds: seq<DebtItem>, bs: seq<real>, extra: real, n: nat): real
    requires |ds| == |bs| && n <= |ds|
  {
    if n == 0 then 0.0 else MonthTotal(ds, bs, extra, n - 1) + PaidInMonth(ds, bs, extra, n - 1)
  }

  lemma {:induction false} MonthTotalUpTo(ds: seq<DebtItem>, bs: seq<real>, extra: real, n: nat)
    requires |ds| == |bs| && n <= |ds|
    ensures MonthTotal(ds, bs, extra, n)
         <= OpenMinimums(ds, bs, n) + 0.01 * OpenCount(ds, bs, n) as real
            + (extra - Remaining(AfterMinimums(ds, bs), extra, n))
  {
    if n > 0 {
      MonthTotalUpTo(ds, bs, extra, n - 1);
    }
  }

  /** A month never pays more than the open minimums and the extra, but for one cent a debt. */
  lemma MonthBudget(ds: seq<DebtItem>, bs: seq<real>, extra: real)
    requires |ds| == |bs| && extra >= 0.0
    ensures MonthTotal(ds, bs, extra, |ds|)
         <= OpenMinimums(ds, bs, |ds|) + extra + 0.01 * (OpenCount(ds, bs, |ds|) + 1) as real
  {
    MonthTotalUpTo(ds, bs, extra, |ds|);
    OverspendUnderOneCent(AfterMinimums(ds, bs), extra, |ds|);
  }
}
