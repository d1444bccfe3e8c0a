/**
 * What the order of payment does to the total, as long as no debt is cleared: the dearer the debt
 * that comes first, the less is owed. After the first payoff this fails (module DebtExamples).
 */
module DebtAvalanche {
  import opened DebtPlan
  import opened DebtMonotone
  import opened DebtSchedule
  import opened DebtTotals
  import opened DebtStrategies

  lemma {:induction false} GrownPositive(r: real, n: nat)
    requires r >= 0.0
    ensures Grown(r, n) >= 0.0 && (n > 0 ==> Grown(r, n) >= 1.0)
  {
    if n > 0 {
      GrownPositive(r, n - 1);
      Product(Grown(r, n - 1), r);
    }
  }

  /** Money grows more at a higher rate, and from the second month on only then. */
  lemma {:induction false} GrownRises(r: real, q: real, n: nat)
    requires 0.0 <= r <= q
    ensures Grown(r, n) <= Grown(q, n)
    ensures n >= 2 && r < q ==> Grown(r, n) < Grown(q, n)
  {
    if n > 0 {
      GrownRises(r, q, n - 1);
      GrownPositive(r, n - 1);
      GrownPositive(q, n - 1);
      ProductRises(Grown(r, n - 1), Grown(q, n - 1), r, q);
    }
  }

  lemma ProductRises(a: real, b: real, r: real, q: real)
    requires 0.0 <= a <= b && 0.0 <= r <= q
    ensures a * r <= b * q
    ensures a >= 1.0 && r < q ==> a * r < b * q
  {
    assert b * q - a * r == (b - a) * q + a * (q - r);
    Product(b - a, q);
    Product(a, q - r);
    if a >= 1.0 && r < q {
      Product(a - 1.0, q - r);
      assert a * (q - r) == (a - 1.0) * (q - r) + (q - r);
    }
  }

  lemma SamePeople(ds: seq<DebtItem>, es: seq<DebtItem>)
    requires multiset(ds) == multiset(es) && Sane(ds) && Loans(ds)
    ensures |es| == |ds| && Sane(es) && Loans(es)
  {
    assert |ds| == |multiset(ds)| && |es| == |multiset(es)|;
    forall k | 0 <= k < |es|
      ensures es[k] in ds
    {
      assert es[k] in multiset(ds);
    }
  }

  /**
   * Two orders of the same loans, all of them still open after n months under both: the order that
   * starts with the dearer loan owes no more in total and has accrued no more interest. From the
   * second month on, with extra money to spend, only that order does.
   */
  lemma DearerFirstOwesLess(ds: seq<DebtItem>, es: seq<DebtItem>, extra: real, n: nat)
    requires ds != [] && multiset(ds) == multiset(es) && Sane(ds) && Loans(ds)
    requires AllOpen(After(ds, extra, n).balances) && AllOpen(After(es, extra, n).balances)
    ensures es != []
    ensures var p, q := After(ds, extra, n), After(es, extra, n);
            && (ds[0].monthlyRate >= es[0].monthlyRate ==>
                 Sum(p.balances) <= Sum(q.balances) && Sum(p.interest) <= Sum(q.interest))
            && (n >= 2 && extra > 0.01 ==>
                 && (Sum(p.balances) <= Sum(q.balances) <==> ds[0].monthlyRate >= es[0].monthlyRate)
                 && (Sum(p.interest) <= Sum(q.interest) <==> ds[0].monthlyRate >= es[0].monthlyRate))
  {
    hide After, Scheduled, Grown, AllOpen, SumOf, Sum, Times;
    SamePeople(ds, es);
    TotalsWhileOpen(ds, extra, n);
    TotalsWhileOpen(es, extra, n);
    SumOfAnyOrder(ds, es, ScheduledAt(n));
    SumOfAnyOrder(ds, es, Instalments(n));
    SumOfAnyOrder(ds, es, Balance());
    var r, q, u := Rate(ds[0]), Rate(es[0]), Used(extra);
    GrownPositive(r, n);
    GrownPositive(q, n);
    if r >= q {
      GrownRises(q, r, n);
      ProductRises(u, u, Grown(q, n), Grown(r, n));
    } else {
      GrownRises(r, q, n);
      if n >= 2 && extra > 0.01 {
        Scaled(u, Grown(r, n), Grown(q, n));
      }
    }
  }

  lemma Scaled(u: real, a: real, b: real)
    requires u > 0.0 && a < b
    ensures u * a < u * b
  {
    assert u * b - u * a == u * (b - a);
  }

  /** No order of the same loans owes less than the avalanche while every loan is open under both. */
  lemma AvalancheOwesLeast(debts: seq<DebtItem>, es: seq<DebtItem>, extra: real, n: nat)
    requires debts != [] && multiset(debts) == multiset(es) && Sane(debts) && Loans(debts)
    requires AllOpen(After(Sorted(Avalanche, debts), extra, n).balances) && AllOpen(After(es, extra, n).balances)
    ensures var p, q := After(Sorted(Avalanche, debts), extra, n), After(es, extra, n);
            Sum(p.balances) <= Sum(q.balances) && Sum(p.interest) <= Sum(q.interest)
  {
    hide After, AllOpen, Sum, Sorted;
    var ds := Sorted(Avalanche, debts);
    SortedIsInOrder(Avalanche, debts);
    SamePeople(debts, ds);
    DearerFirstOwesLess(ds, es, extra, n);
    assert es[0] in multiset(ds);
    var i :| 0 <= i < |ds| && ds[i] == es[0];
    assert i == 0 || Precedes(Avalanche, ds[0], ds[i]);
  }
}
