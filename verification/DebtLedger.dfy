/** Conservation of money over a payoff run. */
module DebtLedger {
  import opened DebtPlan

  lemma {:induction false} SumAdds(a: seq<real>, b: seq<real>, c: seq<real>)
    requires |a| == |b| == |c|
    requires forall k :: 0 <= k < |a| ==> c[k] == a[k] + b[k]
    ensures Sum(c) == Sum(a) + Sum(b)
  {
    if a != [] {
      var n := |a| - 1;
      SumAdds(a[..n], b[..n], c[..n]);
    }
  }

  lemma {:induction false} SumOfNonNegative(s: seq<real>)
    requires forall k :: 0 <= k < |s| ==> s[k] >= 0.0
    ensures Sum(s) >= 0.0
    ensures Sum(s) == 0.0 <==> forall k :: 0 <= k < |s| ==> s[k] == 0.0
  {
    if s != [] {
      var n := |s| - 1;
      SumOfNonNegative(s[..n]);
      if Sum(s) == 0.0 {
        forall k | 0 <= k < |s| ensures s[k] == 0.0 {
          assert k < n ==> s[k] == s[..n][k];
        }
      }
    }
  }

  /** For each debt: what is owed and what was paid make up the principal and the interest. */
  lemma {:induction false} EachDebtConserved(ds: seq<DebtItem>, extra: real, n: nat, k: nat)
    requires k < |ds|
    ensures var p := After(ds, extra, n);
            p.balances[k] + p.paid[k] == ds[k].balance + p.interest[k]
  {
    if n > 0 {
      EachDebtConserved(ds, extra, n - 1, k);
    }
  }

  function Principal(ds: seq<DebtItem>): seq<real> {
    seq(|ds|, k requires 0 <= k < |ds| => ds[k].balance)
  }

  /** The same in total, at every month end. */
  lemma {:induction false} TotalConserved(ds: seq<DebtItem>, extra: real, n: nat)
    ensures var p := After(ds, extra, n);
            Sum(p.balances) + Sum(p.paid) == Sum(Principal(ds)) + Sum(p.interest)
  {
    var p := After(ds, extra, n);
    var both := seq(|ds|, k requires 0 <= k < |ds| => p.balances[k] + p.paid[k]);
    forall k | 0 <= k < |ds| ensures both[k] == Principal(ds)[k] + p.interest[k] {
      EachDebtConserved(ds, extra, n, k);
    }
    SumAdds(p.balances, p.paid, both);
    SumAdds(Principal(ds), p.interest, both);
  }

  lemma MonthRange(ds: seq<DebtItem>, bs: seq<real>, extra: real, k: nat)
    requires |ds| == |bs| && k < |ds| && ds[k].monthlyRate >= 0.0
    ensures var b := MonthEnd(ds, bs, extra)[k];
            if Open(bs[k]) then b == 0.0 || b >= 0.01 else b == bs[k]
  {
    if Open(bs[k]) {
      assert bs[k] * (ds[k].monthlyRate / 100.0) >= 0.0;
    }
  }

  /** A balance a month can end on: paid off, at least one cent, or too small to start with. */
  lemma {:induction false} BalanceRange(ds: seq<DebtItem>, extra: real, n: nat, k: nat)
    requires k < |ds| && ds[k].balance > 0.0 && ds[k].monthlyRate >= 0.0
    ensures var b := After(ds, extra, n).balances[k];
            b == 0.0 || b >= 0.01 || b == ds[k].balance
    ensures After(ds, extra, n).balances[k] >= 0.0
  {
    hide MonthEnd, Freed, PaysOff, PaidInMonth, Accrued, Interest, BaseMin;
    if n > 0 {
      BalanceRange(ds, extra, n - 1, k);
      var p := After(ds, extra, n - 1);
      MonthRange(ds, p.balances, p.extra, k);
    }
  }

  /** A finished run paid exactly principal plus interest if and only if nothing is left,
      and what it leaves on a debt is nothing, one frozen cent, or a start of at most a cent. */
  lemma {:induction false} FinishedRunPaysPrincipalAndInterest(ds: seq<DebtItem>, extra: real, n: nat)
    requires Sane(ds) && Done(After(ds, extra, n).balances)
    ensures var p := After(ds, extra, n);
            && (Sum(p.paid) == Sum(Principal(ds)) + Sum(p.interest)
                <==> forall k :: 0 <= k < |ds| ==> p.balances[k] == 0.0)
            && forall k :: 0 <= k < |ds| ==>
                 p.balances[k] == 0.0 || p.balances[k] == 0.01 || p.balances[k] == ds[k].balance
  {
    var p := After(ds, extra, n);
    forall k | 0 <= k < |ds|
      ensures p.balances[k] >= 0.0
      ensures p.balances[k] == 0.0 || p.balances[k] == 0.01 || p.balances[k] == ds[k].balance
    {
      BalanceRange(ds, extra, n, k);
    }
    TotalConserved(ds, extra, n);
    SumOfNonNegative(p.balances);
  }
}
