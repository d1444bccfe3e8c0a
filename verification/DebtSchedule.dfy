/** A run in which every loan is still open: each is on its own schedule, the extra works on the first. */
module DebtSchedule {
  import opened DebtPlan
  import opened DebtPriority
  import opened DebtMonotone

  predicate AllOpen(bs: seq<real>) {
    forall k :: 0 <= k < |bs| ==> Open(bs[k])
  }

  function Rate(d: DebtItem): real { d.monthlyRate / 100.0 }

  /** Extra money of at most a cent is not spent. */
  function Used(extra: real): real { if extra > 0.01 then extra else 0.0 }

  // ---- One month ----

  /** One loan that stays open: it is asked for its instalment, and for all the extra that reaches it. */
  lemma StaysOpen(d: DebtItem, a: real, owed: real, available: real, x: real)
    requires d.accountType == Loan && owed == a - MinimumPaid(d, a)
    requires x == if available > 0.01 && Open(owed) then Settle(Min(available, owed), owed) else 0.0
    requires Open(owed - x)
    ensures MinimumPaid(d, a) == d.minPayment && x == Used(available) && Open(a)
  {
  }

  /** A debt that stays open owes its interest more and its instalment less; the first one also the extra. */
  lemma {:induction false} OpenMonth(ds: seq<DebtItem>, bs: seq<real>, extra: real, k: nat)
    requires |ds| == |bs| && Loans(ds) && k < |ds|
    requires AllOpen(bs) && AllOpen(MonthEnd(ds, bs, extra))
    ensures Remaining(AfterMinimums(ds, bs), extra, k) == if k == 0 then extra else extra - Used(extra)
    ensures ExtraPaid(AfterMinimums(ds, bs), extra, k) == if k == 0 then Used(extra) else 0.0
    ensures var x := if k == 0 then Used(extra) else 0.0;
            && MonthEnd(ds, bs, extra)[k] == bs[k] + bs[k] * Rate(ds[k]) - ds[k].minPayment - x
            && PaidInMonth(ds, bs, extra, k) == ds[k].minPayment + x && !PaysOff(ds, bs, extra, k)
  {
    hide MinimumPaid, Settle;
    var owed := AfterMinimums(ds, bs);
    if k > 0 {
      OpenMonth(ds, bs, extra, k - 1);
    }
    assert Open(MonthEnd(ds, bs, extra)[k]) && Open(bs[k]);
    var available := Remaining(owed, extra, k);
    StaysOpen(ds[k], Accrued(ds, bs)[k], owed[k], available, ExtraPaid(owed, extra, k));
  }

  lemma {:induction false} NothingPaidOff(ds: seq<DebtItem>, bs: seq<real>, extra: real, n: nat)
    requires |ds| == |bs| && n <= |ds| && forall k :: 0 <= k < n ==> !PaysOff(ds, bs, extra, k)
    ensures Freed(ds, bs, extra, n) == 0.0
  {
    hide PaysOff;
    if n > 0 {
      NothingPaidOff(ds, bs, extra, n - 1);
    }
  }

  // ---- The run so far ----

  /** What a loan owes after n months of instalments alone. */
  function Scheduled(d: DebtItem, n: nat): real {
    if n == 0 then d.balance else Scheduled(d, n - 1) + Scheduled(d, n - 1) * Rate(d) - d.minPayment
  }

  /** What one paid in each of n months has grown to. */
  function Grown(r: real, n: nat): real {
    if n == 0 then 0.0 else Grown(r, n - 1) + Grown(r, n - 1) * r + 1.0
  }

  function Times(n: nat, x: real): real { n as real * x }

  function FirstOnly(k: nat, x: real): real { if k == 0 then x else 0.0 }

  lemma CourseOfBalance(k: nat, b: real, s: real, u: real, g: real, r: real, p: real)
    requires b == s - FirstOnly(k, u * g)
    ensures b + b * r - p - FirstOnly(k, u) == (s + s * r - p) - FirstOnly(k, u * (g + g * r + 1.0))
  {
    if k == 0 {
      Spread(s, u * g, r);
      assert u * (g + g * r + 1.0) == u * g + (u * g) * r + u;
    }
  }

  lemma Spread(s: real, x: real, r: real)
    ensures (s - x) * r == s * r - x * r
  {
  }

  lemma NextOnSchedule(d: DebtItem, n: nat)
    ensures Scheduled(d, n + 1) == Scheduled(d, n) + Scheduled(d, n) * Rate(d) - d.minPayment
    ensures Grown(Rate(d), n + 1) == Grown(Rate(d), n) + Grown(Rate(d), n) * Rate(d) + 1.0
  {
  }

  /** While all debts are open, every one is on its own schedule, and the extra has worked on the first. */
  ghost predicate OnCourse(ds: seq<DebtItem>, extra: real, n: nat, p: Plan, k: nat)
    requires Shaped(ds, p) && k < |ds|
  {
    && p.balances[k] == Scheduled(ds[k], n) - FirstOnly(k, Used(extra) * Grown(Rate(ds[k]), n))
    && p.paid[k] == Times(n, ds[k].minPayment) + FirstOnly(k, Times(n, Used(extra)))
  }

  lemma OpenBefore(ds: seq<DebtItem>, p: Plan, month: nat)
    requires Shaped(ds, p) && AllOpen(Step(ds, p, month).balances)
    ensures AllOpen(p.balances)
  {
    hide Step;
    forall k | 0 <= k < |ds|
      ensures Open(p.balances[k])
    {
      if !Open(p.balances[k]) {
        ClosedStays(ds, p, month, k);
      }
    }
  }

  lemma CourseStep(ds: seq<DebtItem>, extra: real, n: nat, p: Plan, k: nat)
    requires Shaped(ds, p) && Loans(ds) && k < |ds| && p.extra == extra
    requires AllOpen(p.balances) && AllOpen(Step(ds, p, n + 1).balances) && OnCourse(ds, extra, n, p, k)
    ensures OnCourse(ds, extra, n + 1, Step(ds, p, n + 1), k)
    ensures !PaysOff(ds, p.balances, p.extra, k)
  {
    hide MonthEnd, PaysOff, PaidInMonth, Accrued, Interest, BaseMin, Freed, AllOpen;
    hide Used, Scheduled, Grown, Rate, Times;
    var q, d := Step(ds, p, n + 1), ds[k];
    assert q.balances == MonthEnd(ds, p.balances, extra);
    OpenMonth(ds, p.balances, extra, k);
    var u := Used(extra);
    NextOnSchedule(d, n);
    CourseOfBalance(k, p.balances[k], Scheduled(d, n), u, Grown(Rate(d), n), Rate(d), d.minPayment);
    OneMonthMore(n, d.minPayment);
    OneMonthMore(n, u);
  }

  lemma OneMonthMore(n: nat, x: real)
    ensures Times(n + 1, x) == Times(n, x) + x
  {
    assert (n + 1) as real == n as real + 1.0;
  }

  lemma {:induction false} OpenRun(ds: seq<DebtItem>, extra: real, n: nat)
    requires Loans(ds) && AllOpen(After(ds, extra, n).balances)
    ensures After(ds, extra, n).extra == extra
    ensures forall k :: 0 <= k < |ds| ==> OnCourse(ds, extra, n, After(ds, extra, n), k)
  {
    hide Step, OnCourse, AllOpen, PaysOff, Freed;
    if n == 0 {
      AtStart(ds, extra);
    } else {
      var p := After(ds, extra, n - 1);
      OpenBefore(ds, p, n);
      OpenRun(ds, extra, n - 1);
      forall k | 0 <= k < |ds|
        ensures OnCourse(ds, extra, n, After(ds, extra, n), k) && !PaysOff(ds, p.balances, p.extra, k)
      {
        CourseStep(ds, extra, n - 1, p, k);
      }
      NothingPaidOff(ds, p.balances, extra, |ds|);
      ExtraStep(ds, p, n);
    }
  }

  lemma ExtraStep(ds: seq<DebtItem>, p: Plan, month: nat)
    requires Shaped(ds, p)
    ensures Step(ds, p, month).extra == p.extra + Freed(ds, p.balances, p.extra, |ds|)
  {
  }

  lemma AtStart(ds: seq<DebtItem>, extra: real)
    ensures After(ds, extra, 0).extra == extra
    ensures forall k :: 0 <= k < |ds| ==> OnCourse(ds, extra, 0, After(ds, extra, 0), k)
  {
    forall k | 0 <= k < |ds|
      ensures OnCourse(ds, extra, 0, After(ds, extra, 0), k)
    {
      assert Times(0, ds[k].minPayment) == 0.0 && Times(0, Used(extra)) == 0.0;
      assert Used(extra) * Grown(Rate(ds[k]), 0) == 0.0;
    }
  }
}
