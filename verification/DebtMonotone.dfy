/** Two runs over the same loans in the same order, one with more extra money a month.
    More money can leave a balance higher in exactly one way: a payment of the richer run
    leaves one cent, which is never paid again and never frees its instalment. */
module DebtMonotone {
  import opened DebtPlan
  import opened DebtLedger
  import opened DebtPriority

  predicate Loans(ds: seq<DebtItem>) {
    forall k :: 0 <= k < |ds| ==> ds[k].accountType == Loan
  }

  /** y is the richer run's balance of a debt, x the other run's. */
  predicate Below(x: real, y: real) {
    0.0 <= y <= x && (y == 0.0 || y >= 0.01 || y == x)
  }

  predicate AllBelow(xs: seq<real>, ys: seq<real>)
    requires |xs| == |ys|
  {
    forall k :: 0 <= k < |xs| ==> Below(xs[k], ys[k])
  }

  /** The richer run keeps one cent on a debt that the other run has paid off. */
  predicate CentLost(x: real, y: real) {
    x == 0.0 && y == 0.01
  }

  predicate NoCentLost(xs: seq<real>, ys: seq<real>)
    requires |xs| == |ys|
  {
    forall k :: 0 <= k < |xs| ==> !CentLost(xs[k], ys[k])
  }

  // ---- one month ----

  lemma AccruedBelow(d: DebtItem, x: real, y: real)
    requires d.monthlyRate >= 0.0 && Below(x, y)
    ensures Below(x + Interest(d, x), y + Interest(d, y))
  {
    var r := d.monthlyRate / 100.0;
    Product(x - y, r);
    Product(y, r);
    assert (x - y) * r == x * r - y * r;
  }

  lemma Product(a: real, b: real)
    requires a >= 0.0 && b >= 0.0
    ensures a * b >= 0.0
  {
  }

  lemma MinimumBelow(d: DebtItem, x: real, y: real)
    requires d.accountType == Loan && d.minPayment > 0.0 && Below(x, y)
    requires !CentLost(x - MinimumPaid(d, x), y - MinimumPaid(d, y))
    ensures Below(x - MinimumPaid(d, x), y - MinimumPaid(d, y))
  {
  }

  /** The richer run has at least as much extra left at every debt, or the other has none. */
  lemma {:induction false} ExtraBelow(xs: seq<real>, ys: seq<real>, ex: real, ey: real, k: nat)
    requires k <= |xs| == |ys| && ex <= ey && AllBelow(xs, ys)
    requires forall i :: 0 <= i < |xs| ==> !CentLost(xs[i] - ExtraPaid(xs, ex, i), ys[i] - ExtraPaid(ys, ey, i))
    ensures Remaining(xs, ex, k) <= 0.01 || Remaining(xs, ex, k) <= Remaining(ys, ey, k)
    ensures k < |xs| ==> Below(xs[k] - ExtraPaid(xs, ex, k), ys[k] - ExtraPaid(ys, ey, k))
  {
    if k > 0 {
      ExtraBelow(xs, ys, ex, ey, k - 1);
      var x, y, rx, ry := xs[k - 1], ys[k - 1], Remaining(xs, ex, k - 1), Remaining(ys, ey, k - 1);
      assert Below(x, y) && !CentLost(x - ExtraPaid(xs, ex, k - 1), y - ExtraPaid(ys, ey, k - 1));
    }
    if k < |xs| {
      assert Below(xs[k], ys[k]) && !CentLost(xs[k] - ExtraPaid(xs, ex, k), ys[k] - ExtraPaid(ys, ey, k));
    }
  }

  lemma ZeroStaysInMonth(ds: seq<DebtItem>, bs: seq<real>, e: real, k: nat)
    requires |ds| == |bs| && k < |ds|
    ensures !Open(AfterMinimums(ds, bs)[k]) ==> MonthEnd(ds, bs, e)[k] == AfterMinimums(ds, bs)[k]
  {
  }

  lemma MinimumsBelow(ds: seq<DebtItem>, xs: seq<real>, ys: seq<real>, ex: real, ey: real)
    requires Sane(ds) && Loans(ds) && |ds| == |xs| == |ys| && AllBelow(xs, ys)
    requires NoCentLost(MonthEnd(ds, xs, ex), MonthEnd(ds, ys, ey))
    ensures AllBelow(AfterMinimums(ds, xs), AfterMinimums(ds, ys))
  {
    forall k | 0 <= k < |ds| ensures Below(AfterMinimums(ds, xs)[k], AfterMinimums(ds, ys)[k]) {
      AccruedBelow(ds[k], xs[k], ys[k]);
      ZeroStaysInMonth(ds, xs, ex, k);
      ZeroStaysInMonth(ds, ys, ey, k);
      assert !CentLost(MonthEnd(ds, xs, ex)[k], MonthEnd(ds, ys, ey)[k]);
      MinimumBelow(ds[k], Accrued(ds, xs)[k], Accrued(ds, ys)[k]);
    }
  }

  lemma MonthBelow(ds: seq<DebtItem>, xs: seq<real>, ys: seq<real>, ex: real, ey: real)
    requires Sane(ds) && Loans(ds) && |ds| == |xs| == |ys| && AllBelow(xs, ys) && ex <= ey
    requires NoCentLost(MonthEnd(ds, xs, ex), MonthEnd(ds, ys, ey))
    ensures AllBelow(MonthEnd(ds, xs, ex), MonthEnd(ds, ys, ey))
  {
    MinimumsBelow(ds, xs, ys, ex, ey);
    var ox, oy := AfterMinimums(ds, xs), AfterMinimums(ds, ys);
    forall i | 0 <= i < |ds| ensures !CentLost(ox[i] - ExtraPaid(ox, ex, i), oy[i] - ExtraPaid(oy, ey, i)) {
      assert !CentLost(MonthEnd(ds, xs, ex)[i], MonthEnd(ds, ys, ey)[i]);
    }
    forall k | 0 <= k < |ds| ensures Below(MonthEnd(ds, xs, ex)[k], MonthEnd(ds, ys, ey)[k]) {
      ExtraBelow(ox, oy, ex, ey, k);
    }
  }

  // ---- the working extra ----

  lemma {:induction false} LastBaseOfLoan(ds: seq<DebtItem>, e: real, n: nat, k: nat)
    requires k < |ds| && ds[k].accountType == Loan
    ensures After(ds, e, n).closedIn[k] > 0 ==> After(ds, e, n).lastBase[k] == ds[k].minPayment
  {
    hide MonthEnd, Freed, PaidInMonth, Interest;
    if n > 0 {
      LastBaseOfLoan(ds, e, n - 1, k);
      RecordStep(ds, e, n, k);
      LastBaseStep(ds, After(ds, e, n - 1), n, k);
    }
  }

  lemma {:induction false} FreedAtLeast(ds: seq<DebtItem>, p: Plan, q: Plan, n: nat)
    requires Shaped(ds, p) && Shaped(ds, q) && n <= |ds|
    requires forall k :: 0 <= k < n ==>
               && (p.closedIn[k] > 0 ==> q.closedIn[k] > 0 && p.lastBase[k] == q.lastBase[k])
               && (q.closedIn[k] > 0 ==> q.lastBase[k] >= 0.0)
    ensures FreedSoFar(p, n) <= FreedSoFar(q, n)
  {
    if n > 0 {
      FreedAtLeast(ds, p, q, n - 1);
    }
  }

  /** What the books say of one debt: recorded when cleared, and its last minimum is its instalment. */
  predicate Booked(d: DebtItem, p: Plan, k: nat)
    requires k < |p.balances| == |p.closedIn| == |p.lastBase|
  {
    && (p.closedIn[k] > 0 <==> p.balances[k] == 0.0)
    && (p.closedIn[k] > 0 ==> p.lastBase[k] == d.minPayment)
  }

  lemma RunIsBooked(ds: seq<DebtItem>, e: real, n: nat, k: nat)
    requires k < |ds| && ds[k].accountType == Loan && ds[k].balance > 0.0 && ds[k].monthlyRate >= 0.0
    ensures Booked(ds[k], After(ds, e, n), k)
  {
    hide After;
    LastBaseOfLoan(ds, e, n, k);
    RecordedIffZero(ds, e, n, k);
  }

  /** With every balance below, at least as much has been freed. */
  lemma ExtraStaysAhead(ds: seq<DebtItem>, p: Plan, q: Plan, ex: real, ey: real)
    requires Sane(ds) && Loans(ds) && ex <= ey && Shaped(ds, p) && Shaped(ds, q) && AllBelow(p.balances, q.balances)
    requires p.extra == ex + FreedSoFar(p, |ds|) && q.extra == ey + FreedSoFar(q, |ds|)
    requires forall k :: 0 <= k < |ds| ==> Booked(ds[k], p, k) && Booked(ds[k], q, k)
    ensures p.extra <= q.extra
  {
    hide FreedSoFar;
    forall k | 0 <= k < |ds|
      ensures p.closedIn[k] > 0 ==> q.closedIn[k] > 0 && p.lastBase[k] == q.lastBase[k]
      ensures q.closedIn[k] > 0 ==> q.lastBase[k] >= 0.0
    {
      assert Below(p.balances[k], q.balances[k]) && Booked(ds[k], p, k) && Booked(ds[k], q, k);
    }
    FreedAtLeast(ds, p, q, |ds|);
  }
}
