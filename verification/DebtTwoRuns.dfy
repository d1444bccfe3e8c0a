/** The same debts with less and with more extra money, month by month. */
module DebtTwoRuns {
  import opened DebtPlan
  import opened DebtLedger
  import opened DebtPriority
  import opened DebtMonotone

  /** A debt that is not open keeps its balance for the rest of the run. */
  lemma {:induction false} ClosedForGood(ds: seq<DebtItem>, e: real, m: nat, n: nat, k: nat)
    requires k < |ds| && m <= n && !Open(After(ds, e, m).balances[k])
    ensures After(ds, e, n).balances[k] == After(ds, e, m).balances[k]
    decreases n
  {
    if m < n {
      ClosedForGood(ds, e, m, n - 1, k);
      ClosedStays(ds, After(ds, e, n - 1), n, k);
    }
  }

  lemma {:induction false} NoCentLostBefore(ds: seq<DebtItem>, ex: real, ey: real, m: nat, n: nat)
    requires m <= n && NoCentLost(After(ds, ex, n).balances, After(ds, ey, n).balances)
    ensures NoCentLost(After(ds, ex, m).balances, After(ds, ey, m).balances)
  {
    forall k | 0 <= k < |ds| ensures !CentLost(After(ds, ex, m).balances[k], After(ds, ey, m).balances[k]) {
      if CentLost(After(ds, ex, m).balances[k], After(ds, ey, m).balances[k]) {
        ClosedForGood(ds, ex, m, n, k);
        ClosedForGood(ds, ey, m, n, k);
        assert CentLost(After(ds, ex, n).balances[k], After(ds, ey, n).balances[k]);
      }
    }
  }

  lemma {:induction false} RunBelow(ds: seq<DebtItem>, ex: real, ey: real, m: nat, n: nat)
    requires Sane(ds) && Loans(ds) && ex <= ey && m <= n
    requires NoCentLost(After(ds, ex, n).balances, After(ds, ey, n).balances)
    ensures AllBelow(After(ds, ex, m).balances, After(ds, ey, m).balances)
    decreases m
  {
    hide Step, NoCentLost;
    if m > 0 {
      RunBelow(ds, ex, ey, m - 1, n);
      NoCentLostBefore(ds, ex, ey, m, n);
      var p, q := After(ds, ex, m - 1), After(ds, ey, m - 1);
      forall k | 0 <= k < |ds|
        ensures Booked(ds[k], p, k) && Booked(ds[k], q, k)
      {
        RunIsBooked(ds, ex, m - 1, k);
        RunIsBooked(ds, ey, m - 1, k);
      }
      WorkingExtra(ds, ex, m - 1);
      WorkingExtra(ds, ey, m - 1);
      ExtraStaysAhead(ds, p, q, ex, ey);
      StepBelow(ds, p, q, m);
    }
  }

  lemma StepBelow(ds: seq<DebtItem>, p: Plan, q: Plan, month: nat)
    requires Sane(ds) && Loans(ds) && Shaped(ds, p) && Shaped(ds, q) && p.extra <= q.extra
    requires AllBelow(p.balances, q.balances)
    requires NoCentLost(Step(ds, p, month).balances, Step(ds, q, month).balances)
    ensures AllBelow(Step(ds, p, month).balances, Step(ds, q, month).balances)
  {
    MonthBelow(ds, p.balances, q.balances, p.extra, q.extra);
  }

  /** More extra money leaves no balance higher in any of the first n months, if and only if
      it leaves no single cent, at the end of them, on a debt that less money has paid off. */
  lemma {:induction false} MoreExtraNeverWorse(ds: seq<DebtItem>, ex: real, ey: real, n: nat)
    requires Sane(ds) && Loans(ds) && ex <= ey
    ensures NoCentLost(After(ds, ex, n).balances, After(ds, ey, n).balances)
       <==> forall m, k :: 0 <= m <= n && 0 <= k < |ds| ==>
              After(ds, ey, m).balances[k] <= After(ds, ex, m).balances[k]
  {
    if NoCentLost(After(ds, ex, n).balances, After(ds, ey, n).balances) {
      forall m, k | 0 <= m <= n && 0 <= k < |ds|
        ensures After(ds, ey, m).balances[k] <= After(ds, ex, m).balances[k]
      {
        RunBelow(ds, ex, ey, m, n);
        assert Below(After(ds, ex, m).balances[k], After(ds, ey, m).balances[k]);
      }
    }
  }

  /** In particular it does so when the richer run ends with no balance of exactly one cent. */
  lemma NoCentMeansNoneLost(xs: seq<real>, ys: seq<real>)
    requires |xs| == |ys| && forall k :: 0 <= k < |ys| ==> ys[k] != 0.01
    ensures NoCentLost(xs, ys)
  {
  }

  lemma StepInterest(ds: seq<DebtItem>, p: Plan, q: Plan, month: nat, k: nat)
    requires Sane(ds) && Shaped(ds, p) && Shaped(ds, q) && k < |ds|
    requires Below(p.balances[k], q.balances[k]) && q.interest[k] <= p.interest[k]
    ensures Step(ds, q, month).interest[k] <= Step(ds, p, month).interest[k]
  {
    hide MonthEnd, Freed, PaysOff, PaidInMonth, Accrued, BaseMin;
    var x, y, r := p.balances[k], q.balances[k], ds[k].monthlyRate / 100.0;
    Product(x - y, r);
    Product(x, r);
    assert (x - y) * r == x * r - y * r;
  }

  lemma {:induction false} InterestBelow(ds: seq<DebtItem>, ex: real, ey: real, m: nat, n: nat, k: nat)
    requires Sane(ds) && Loans(ds) && ex <= ey && m <= n && k < |ds|
    requires NoCentLost(After(ds, ex, n).balances, After(ds, ey, n).balances)
    ensures After(ds, ey, m).interest[k] <= After(ds, ex, m).interest[k]
    decreases m
  {
    hide Step, NoCentLost, Sane, Loans, Below;
    if m > 0 {
      InterestBelow(ds, ex, ey, m - 1, n, k);
      RunBelow(ds, ex, ey, m - 1, n);
      var p, q := After(ds, ex, m - 1), After(ds, ey, m - 1);
      assert Below(p.balances[k], q.balances[k]);
      StepInterest(ds, p, q, m, k);
    }
  }

  lemma {:induction false} InterestGrows(ds: seq<DebtItem>, e: real, m: nat, n: nat, k: nat)
    requires Sane(ds) && m <= n && k < |ds|
    ensures After(ds, e, m).interest[k] <= After(ds, e, n).interest[k]
    decreases n
  {
    hide MonthEnd, Freed, PaysOff, PaidInMonth, Accrued, BaseMin;
    if m < n {
      InterestGrows(ds, e, m, n - 1, k);
      var b := After(ds, e, n - 1).balances[k];
      if Open(b) {
        Product(b, ds[k].monthlyRate / 100.0);
      }
    }
  }

  lemma {:induction false} SumBelow(a: seq<real>, b: seq<real>)
    requires |a| == |b| && forall k :: 0 <= k < |a| ==> a[k] <= b[k]
    ensures Sum(a) <= Sum(b)
  {
    if a != [] {
      SumBelow(a[..|a| - 1], b[..|b| - 1]);
    }
  }

  /** Unless a cent is lost, more extra money is free of debt no later and pays no more interest. */
  lemma MoreExtraFinishesNoLater(ds: seq<DebtItem>, ex: real, ey: real)
    requires Sane(ds) && Loans(ds) && ex <= ey
    ensures var m, n := Months(ds, ey), Months(ds, ex);
            NoCentLost(After(ds, ex, n).balances, After(ds, ey, n).balances) ==>
              m <= n && Sum(After(ds, ey, m).interest) <= Sum(After(ds, ex, n).interest)
  {
    hide After, NoCentLost, AllBelow, Sum, Sane, Loans, Done;
    var n := Months(ds, ex);
    if !NoCentLost(After(ds, ex, n).balances, After(ds, ey, n).balances) {
      return;
    }
    var xs, ys := After(ds, ex, n).balances, After(ds, ey, n).balances;
    RunBelow(ds, ex, ey, n, n);
    if n < MAX_MONTHS {
      DoneBelow(xs, ys);
    }
    assert Months(ds, ey) <= n;
    forall k | 0 <= k < |ds|
      ensures After(ds, ey, Months(ds, ey)).interest[k] <= After(ds, ex, n).interest[k]
    {
      InterestGrows(ds, ey, Months(ds, ey), n, k);
      InterestBelow(ds, ex, ey, n, n, k);
    }
    SumBelow(After(ds, ey, Months(ds, ey)).interest, After(ds, ex, n).interest);
  }

  lemma DoneBelow(xs: seq<real>, ys: seq<real>)
    requires |xs| == |ys| && AllBelow(xs, ys) && Done(xs)
    ensures Done(ys)
  {
    forall k | 0 <= k < |ys| ensures !Open(ys[k]) {
      assert Below(xs[k], ys[k]) && !Open(xs[k]);
    }
  }
}
