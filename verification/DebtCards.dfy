/**
 * A card's minimum follows its balance: a share of what is owed this month, never less than 50. So a
 * card left to its minimum shrinks geometrically, and ends like a loan of 50 a month.
 */
module DebtCards {
  import opened DebtPlan
  import opened DebtAnnuity

  /** What a month makes of an open balance is owed on it before any payment. */
  function WithInterest(d: DebtItem, b: real): real { b * (1.0 + d.monthlyRate / 100.0) }

  /** Without extra money to spend none is paid. */
  lemma {:induction false} NoExtra(owed: seq<real>, extra: real, k: nat)
    requires k < |owed| && extra <= 0.01
    ensures Remaining(owed, extra, k) == extra && ExtraPaid(owed, extra, k) == 0.0
  {
    if k > 0 {
      NoExtra(owed, extra, k - 1);
    }
  }

  /** A card's month at its minimum: the share of the balance owed this month, or 50, or all of it. */
  lemma CardMonth(ds: seq<DebtItem>, bs: seq<real>, extra: real, k: nat)
    requires |ds| == |bs| && k < |ds| && extra <= 0.01
    requires ds[k].accountType == CreditCard && ds[k].monthlyRate >= 0.0 && bs[k] > 0.01
    ensures var a, ratio, after := WithInterest(ds[k], bs[k]), ds[k].minRatio, MonthEnd(ds, bs, extra)[k];
            && (a * ratio >= 50.0 && a * (1.0 - ratio) >= 0.01 ==> after == a * (1.0 - ratio))
            && (a * ratio >= 50.0 && a * (1.0 - ratio) < 0.01 ==> after == 0.0)
            && (a * ratio <= 50.0 && a >= 50.01 ==> after == a - 50.0)
            && (a * ratio <= 50.0 && a < 50.01 ==> after == 0.0)
  {
    NoExtra(AfterMinimums(ds, bs), extra, k);
    AtLeast(ds[k], bs[k]);
    var a, ratio := WithInterest(ds[k], bs[k]), ds[k].minRatio;
    assert Accrued(ds, bs)[k] == a;
    assert a * (1.0 - ratio) == a - a * ratio;
  }

  lemma AtLeast(d: DebtItem, b: real)
    requires d.monthlyRate >= 0.0 && b > 0.01
    ensures WithInterest(d, b) == b + b * (d.monthlyRate / 100.0) && WithInterest(d, b) >= b
  {
    assert b * (d.monthlyRate / 100.0) >= 0.0;
  }

  /** A loan's month at its instalment. */
  lemma LoanMonth(ds: seq<DebtItem>, bs: seq<real>, extra: real, k: nat)
    requires |ds| == |bs| && k < |ds| && extra <= 0.01
    requires ds[k].accountType == Loan && ds[k].monthlyRate >= 0.0 && bs[k] > 0.01
    ensures var a, after := WithInterest(ds[k], bs[k]), MonthEnd(ds, bs, extra)[k];
            after == if a - ds[k].minPayment >= 0.01 then a - ds[k].minPayment else 0.0
  {
    NoExtra(AfterMinimums(ds, bs), extra, k);
    AtLeast(ds[k], bs[k]);
  }

  /** The first debt takes the extra on top, and all that is owed if less than a cent would remain. */
  lemma FirstTakesExtra(ds: seq<DebtItem>, bs: seq<real>, extra: real)
    requires |ds| == |bs| > 0 && extra > 0.01
    ensures var left, after := MonthEnd(ds, bs, 0.0)[0], MonthEnd(ds, bs, extra)[0];
            after == if left <= 0.01 then left else if left - extra >= 0.01 then left - extra else 0.0
  {
    NoExtra(AfterMinimums(ds, bs), 0.0, 0);
  }

  /** What is freed when a debt is paid off is the minimum last asked of it, whatever was left to pay then. */
  lemma LastMinimumAsked(ds: seq<DebtItem>, extra: real, n: nat, k: nat)
    requires k < |ds| && ds[k].monthlyRate >= 0.0
    ensures var p, q, d := After(ds, extra, n), After(ds, extra, n + 1), ds[k];
            && (p.balances[k] <= 0.01 ==> q.lastBase[k] == p.lastBase[k])
            && (p.balances[k] > 0.01 && d.accountType == Loan ==> q.lastBase[k] == d.minPayment)
            && (p.balances[k] > 0.01 && d.accountType == CreditCard ==>
                 var share := WithInterest(d, p.balances[k]) * d.minRatio;
                 q.lastBase[k] == if share >= 50.0 then share else 50.0)
  {
    hide MonthEnd, Freed, PaidInMonth, PaysOff, After;
    var p, d := After(ds, extra, n), ds[k];
    assert After(ds, extra, n + 1) == Step(ds, p, n + 1) by { NextPlan(ds, extra, n); }
    if p.balances[k] > 0.01 {
      AtLeast(d, p.balances[k]);
      var a := WithInterest(d, p.balances[k]);
      assert Accrued(ds, p.balances)[k] == a;
      if d.accountType == CreditCard {
        Asked(d, a);
      }
    } else {
      assert Accrued(ds, p.balances)[k] == p.balances[k];
    }
  }

  lemma Asked(d: DebtItem, a: real)
    requires d.accountType == CreditCard
    ensures var share := a * d.minRatio; BaseMin(d, a) == if share >= 50.0 then share else 50.0
  {
    assert BaseMin(d, a) >= 50.0;
  }

  lemma NextPlan(ds: seq<DebtItem>, extra: real, n: nat)
    ensures After(ds, extra, n + 1) == Step(ds, After(ds, extra, n), n + 1)
  {
  }

  // ---- A card left to its minimum ----

  /** Interest and the share together multiply the balance by this. */
  function Factor(d: DebtItem): real { (1.0 + d.monthlyRate / 100.0) * (1.0 - d.minRatio) }

  /** The balance after n months of paying the share. */
  function Shrunk(d: DebtItem, n: nat): real { d.balance * Pow(Factor(d), n) }

  /** Alone, a debt pays from its own money until it is closed. */
  lemma AloneStep(d: DebtItem, n: nat)
    ensures After([d], 0.0, n).extra == 0.0 || After([d], 0.0, n).balances[0] <= 0.01
    ensures After([d], 0.0, n + 1).balances == MonthEnd([d], After([d], 0.0, n).balances, After([d], 0.0, n).extra)
  {
    if n > 0 {
      AloneStep(d, n - 1);
      var p := After([d], 0.0, n - 1);
      assert Freed([d], p.balances, p.extra, 1)
        == Freed([d], p.balances, p.extra, 0)
           + if PaysOff([d], p.balances, p.extra, 0) then BaseMin(d, Accrued([d], p.balances)[0]) else 0.0;
    }
  }

  /** As long as the minimum is the share, n months leave the n-th power of one factor. */
  lemma {:induction false} ShareShrinks(d: DebtItem, n: nat)
    requires d.accountType == CreditCard && d.monthlyRate >= 0.0 && d.balance > 0.01
    requires forall j :: 0 <= j < n ==>
      var a := WithInterest(d, Shrunk(d, j));
      a * d.minRatio >= 50.0 && a * (1.0 - d.minRatio) > 0.01
    ensures After([d], 0.0, n).balances == [Shrunk(d, n)]
    ensures After([d], 0.0, n).balances[0] > 0.01
  {
    hide After, MonthEnd, Step, WithInterest, Shrunk;
    if n == 0 {
      StartsAt(d);
    } else {
      ShareShrinks(d, n - 1);
      AloneStep(d, n - 1);
      var p := After([d], 0.0, n - 1);
      assert p.balances == [p.balances[0]];
      ShareMonth(d, p.balances[0], p.extra);
      OnePower(d, p.balances[0], n - 1);
      assert After([d], 0.0, n).balances[0] == Shrunk(d, n);
    }
  }

  lemma ShareMonth(d: DebtItem, b: real, extra: real)
    requires d.accountType == CreditCard && d.monthlyRate >= 0.0 && b > 0.01 && extra == 0.0
    requires WithInterest(d, b) * d.minRatio >= 50.0 && WithInterest(d, b) * (1.0 - d.minRatio) > 0.01
    ensures MonthEnd([d], [b], extra)[0] == WithInterest(d, b) * (1.0 - d.minRatio) > 0.01
  {
    hide MonthEnd, WithInterest;
    CardMonth([d], [b], extra, 0);
  }

  lemma StartsAt(d: DebtItem)
    ensures After([d], 0.0, 0).balances == [Shrunk(d, 0)] == [d.balance]
  {
  }

  lemma OnePower(d: DebtItem, b: real, n: nat)
    requires b == Shrunk(d, n)
    ensures WithInterest(d, b) * (1.0 - d.minRatio) == Shrunk(d, n + 1)
  {
    var i, s := 1.0 + d.monthlyRate / 100.0, 1.0 - d.minRatio;
    assert WithInterest(d, b) == b * i && Factor(d) == i * s;
    Regroup(d.balance, Pow(Factor(d), n), i, s);
  }

  lemma Regroup(b: real, p: real, i: real, s: real)
    ensures ((b * p) * i) * s == b * ((i * s) * p)
  {
    assert ((b * p) * i) * s == (b * p) * (i * s);
    assert (b * p) * (i * s) == b * (p * (i * s));
  }

  // ---- And then like a loan ----

  lemma ClosedMonth(d: DebtItem, b: real, extra: real)
    requires b <= 0.01
    ensures MonthEnd([d], [b], extra) == [b]
  {
  }

  /** The less is owed, the less is the share. */
  lemma ShareFalls(d: DebtItem, b: real, c: real)
    requires d.monthlyRate >= 0.0 && d.minRatio >= 0.0 && c <= b
    ensures WithInterest(d, c) * d.minRatio <= WithInterest(d, b) * d.minRatio
    ensures WithInterest(d, c) - c <= WithInterest(d, b) - b
  {
    var r := d.monthlyRate / 100.0;
    assert (b - c) * r >= 0.0;
    var more := WithInterest(d, b) - WithInterest(d, c);
    assert more == (b - c) + (b - c) * r;
    assert more * d.minRatio >= 0.0;
  }

  /** A month of a card whose share is below 50 is a month of a loan of 50. */
  lemma SameMonth(d: DebtItem, l: DebtItem, c: real, extra: real, other: real)
    requires d.accountType == CreditCard && l == d.(accountType := Loan, balance := l.balance, minPayment := 50.0)
    requires d.monthlyRate >= 0.0 && WithInterest(d, c) * d.minRatio <= 50.0 && WithInterest(d, c) - c <= 50.0
    requires (extra == 0.0 && other == 0.0) || c <= 0.01
    ensures MonthEnd([d], [c], extra) == MonthEnd([l], [c], other)
    ensures MonthEnd([d], [c], extra)[0] <= c
  {
    hide MonthEnd;
    if c <= 0.01 {
      ClosedMonth(d, c, extra);
      ClosedMonth(l, c, other);
    } else {
      CardMonth([d], [c], extra, 0);
      LoanMonth([l], [c], other, 0);
      assert MonthEnd([d], [c], extra)[0] == MonthEnd([l], [c], other)[0];
    }
  }

  /**
   * From the month on in which a card's share has come down to 50, and its interest with it, its
   * balances are those of a loan of 50 a month.
   */
  lemma {:induction false} EndsLikeLoan(d: DebtItem, n: nat, m: nat, l: DebtItem)
    requires d.accountType == CreditCard && d.monthlyRate >= 0.0 && d.minRatio >= 0.0
    requires var b := After([d], 0.0, n).balances[0];
             && WithInterest(d, b) * d.minRatio <= 50.0 && WithInterest(d, b) - b <= 50.0
             && l == d.(accountType := Loan, balance := b, minPayment := 50.0)
    ensures After([d], 0.0, n + m).balances == After([l], 0.0, m).balances
    ensures After([l], 0.0, m).balances[0] <= l.balance
  {
    hide After, MonthEnd, Step, WithInterest;
    if m == 0 {
      StartsAt(l);
      assert After([d], 0.0, n).balances == [l.balance];
    } else {
      EndsLikeLoan(d, n, m - 1, l);
      AloneStep(d, n + m - 1);
      AloneStep(l, m - 1);
      var p, q := After([d], 0.0, n + m - 1), After([l], 0.0, m - 1);
      var c := q.balances[0];
      assert p.balances == [c] && q.balances == [c];
      ShareFalls(d, l.balance, c);
      SameMonth(d, l, c, p.extra, q.extra);
    }
  }
}
