/** How fast a payoff plan ends when every debt's payment beats its first month's interest. */
module DebtHalting {
  import opened DebtPlan

  /** The least a debt is asked for in any month. */
  function LeastPayment(d: DebtItem): real {
    match d.accountType
    case CreditCard => CARD_MINIMUM
    case Loan => d.minPayment
  }

  /** Every month's payment exceeds the first month's interest by delta. */
  predicate Outpaces(ds: seq<DebtItem>, delta: real) {
    forall k :: 0 <= k < |ds| ==>
      && ds[k].monthlyRate >= 0.0
      && LeastPayment(ds[k]) >= ds[k].balance * (ds[k].monthlyRate / 100.0) + delta
  }

  lemma InterestAtMostFirst(d: DebtItem, b: real)
    requires d.monthlyRate >= 0.0 && Open(b) && b <= d.balance
    ensures 0.0 <= Interest(d, b) <= d.balance * (d.monthlyRate / 100.0)
  {
    var r := d.monthlyRate / 100.0;
    assert r >= 0.0;
    assert b * r >= 0.0;
    assert (d.balance - b) * r >= 0.0;
    assert (d.balance - b) * r == d.balance * r - b * r;
  }

  /** What the minimum leaves of an accrued balance a, if it is at least `least`. */
  lemma MinimumLeaves(d: DebtItem, a: real, least: real)
    requires Open(a) && least <= BaseMin(d, a) && least > 0.0
    ensures 0.0 <= a - MinimumPaid(d, a)
    ensures a - MinimumPaid(d, a) <= a - least || a - MinimumPaid(d, a) == 0.0
  {
  }

  lemma ExtraOnlyHelps(owed: seq<real>, extra: real, k: nat)
    requires k < |owed| && owed[k] >= 0.0
    ensures 0.0 <= owed[k] - ExtraPaid(owed, extra, k) <= owed[k]
  {
  }

  lemma MonthFalls(ds: seq<DebtItem>, bs: seq<real>, extra: real, delta: real, k: nat)
    requires |ds| == |bs| && k < |ds| && delta > 0.0 && Outpaces(ds, delta)
    requires Open(bs[k]) && bs[k] <= ds[k].balance
    ensures MonthEnd(ds, bs, extra)[k] <= bs[k] - delta || MonthEnd(ds, bs, extra)[k] == 0.0
    ensures MonthEnd(ds, bs, extra)[k] <= bs[k]
  {
    var a := Accrued(ds, bs)[k];
    InterestAtMostFirst(ds[k], bs[k]);
    MinimumLeaves(ds[k], a, LeastPayment(ds[k]));
    ExtraOnlyHelps(AfterMinimums(ds, bs), extra, k);
  }

  lemma ClosedHolds(ds: seq<DebtItem>, bs: seq<real>, extra: real, k: nat)
    requires |ds| == |bs| && k < |ds| && !Open(bs[k])
    ensures MonthEnd(ds, bs, extra)[k] == bs[k]
  {
  }

  /** No balance rises, and an open one has fallen by delta a month. */
  lemma {:induction false} FallsEveryMonth(ds: seq<DebtItem>, extra: real, delta: real, n: nat, k: nat)
    requires k < |ds| && delta > 0.0 && Outpaces(ds, delta)
    ensures After(ds, extra, n).balances[k] <= ds[k].balance
    ensures n > 0 ==> After(ds, extra, n).balances[k] <= After(ds, extra, n - 1).balances[k]
    ensures Open(After(ds, extra, n).balances[k]) ==>
              After(ds, extra, n).balances[k] <= ds[k].balance - n as real * delta
  {
    hide MonthEnd, Freed, PaysOff, PaidInMonth, Accrued, Interest, BaseMin, Outpaces;
    if n > 0 {
      FallsEveryMonth(ds, extra, delta, n - 1, k);
      var p := After(ds, extra, n - 1);
      if Open(p.balances[k]) {
        MonthFalls(ds, p.balances, p.extra, delta, k);
      } else {
        ClosedHolds(ds, p.balances, p.extra, k);
      }
      assert n as real * delta == (n - 1) as real * delta + delta;
    }
  }

  function Ceil(x: real): int { -((-x).Floor) }

  /** The plan ends within the largest balance over delta, rounded up: a real bound below the cap. */
  lemma EndsInTime(ds: seq<DebtItem>, extra: real, delta: real, largest: real)
    requires delta > 0.0 && Outpaces(ds, delta) && largest >= 0.0
    requires forall k :: 0 <= k < |ds| ==> ds[k].balance <= largest
    ensures 0 <= Ceil(largest / delta)
    ensures Done(After(ds, extra, Ceil(largest / delta)).balances)
    ensures Months(ds, extra) <= Ceil(largest / delta)
  {
    assert largest / delta >= 0.0;
    var n := Ceil(largest / delta);
    Reaches(largest, delta, n);
    forall k | 0 <= k < |ds| ensures !Open(After(ds, extra, n).balances[k]) {
      FallsEveryMonth(ds, extra, delta, n, k);
    }
  }

  lemma Reaches(x: real, delta: real, n: int)
    requires delta > 0.0 && n as real >= x / delta
    ensures n as real * delta >= x
  {
    assert x / delta * delta == x;
    assert (n as real - x / delta) * delta >= 0.0;
  }
}
