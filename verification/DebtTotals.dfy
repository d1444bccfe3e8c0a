/** What a set of loans owes in total while all are open, apart from the order of payment. */
module DebtTotals {
  import opened DebtPlan
  import opened DebtLedger
  import opened DebtMonotone
  import opened DebtSchedule
  import opened DebtSimulator

  function SumOf(ds: seq<DebtItem>, f: DebtItem -> real): real {
    if ds == [] then 0.0 else SumOf(ds[..|ds| - 1], f) + f(ds[|ds| - 1])
  }

  lemma {:induction false} SumOfWithout(ds: seq<DebtItem>, f: DebtItem -> real, i: nat)
    requires i < |ds|
    ensures SumOf(ds, f) == SumOf(ds[..i] + ds[i + 1..], f) + f(ds[i])
  {
    var n := |ds| - 1;
    if i == n {
      assert ds[..i] + ds[i + 1..] == ds[..n];
    } else {
      SumOfWithout(ds[..n], f, i);
      var t := ds[..i] + ds[i + 1..];
      assert t[..|t| - 1] == ds[..n][..i] + ds[..n][i + 1..];
    }
  }

  lemma Find(es: seq<DebtItem>, d: DebtItem) returns (i: nat)
    requires d in multiset(es)
    ensures i < |es| && es[i] == d
  {
    i :| 0 <= i < |es| && es[i] == d;
  }

  lemma WithoutFirst(ds: seq<DebtItem>)
    requires ds != []
    ensures multiset(ds[1..]) == multiset(ds) - multiset{ds[0]} && ds[0] in multiset(ds)
  {
    assert ds == [ds[0]] + ds[1..];
  }

  lemma {:induction false} SumOfAnyOrder(ds: seq<DebtItem>, es: seq<DebtItem>, f: DebtItem -> real)
    requires multiset(ds) == multiset(es)
    ensures SumOf(ds, f) == SumOf(es, f)
    decreases |ds|
  {
    hide SumOf;
    if ds == [] {
      assert |multiset(es)| == |es|;
    } else {
      WithoutFirst(ds);
      var i := Find(es, ds[0]);
      TakeOut(es, i);
      SumOfAnyOrder(ds[1..], es[..i] + es[i + 1..], f);
      SumOfWithout(ds, f, 0);
      assert ds[..0] + ds[1..] == ds[1..];
      SumOfWithout(es, f, i);
    }
  }

  /** A sum that differs from SumOf at the first debt only. */
  lemma {:induction false} SumBut(ds: seq<DebtItem>, f: DebtItem -> real, s: seq<real>, x: real)
    requires |s| == |ds| > 0 && forall k :: 0 <= k < |ds| ==> s[k] == f(ds[k]) + FirstOnly(k, x)
    ensures Sum(s) == SumOf(ds, f) + x
  {
    var n := |ds| - 1;
    if n > 0 {
      SumBut(ds[..n], f, s[..n], x);
    } else {
      assert s[..0] == [] && ds[..0] == [];
    }
  }

  function ScheduledAt(n: nat): DebtItem -> real { d => Scheduled(d, n) }

  function Instalments(n: nat): DebtItem -> real { (d: DebtItem) => Times(n, d.minPayment) }

  function Balance(): DebtItem -> real { (d: DebtItem) => d.balance }

  /** Owed in total, and interest in total, after n months with all debts open. */
  lemma TotalsWhileOpen(ds: seq<DebtItem>, extra: real, n: nat)
    requires ds != [] && Loans(ds) && AllOpen(After(ds, extra, n).balances)
    ensures var p := After(ds, extra, n);
            && Sum(p.balances) == SumOf(ds, ScheduledAt(n)) - Used(extra) * Grown(Rate(ds[0]), n)
            && Sum(p.interest)
                 == Sum(p.balances) + SumOf(ds, Instalments(n)) + Times(n, Used(extra)) - SumOf(ds, Balance())
  {
    hide After, Scheduled, Grown, Used, AllOpen, SumOf, Sum, Times;
    OpenRun(ds, extra, n);
    var p := After(ds, extra, n);
    var grown := Used(extra) * Grown(Rate(ds[0]), n);
    forall k | 0 <= k < |ds|
      ensures p.balances[k] == ScheduledAt(n)(ds[k]) + FirstOnly(k, -grown)
      ensures p.paid[k] == Instalments(n)(ds[k]) + FirstOnly(k, Times(n, Used(extra)))
    {
      assert OnCourse(ds, extra, n, p, k);
    }
    SumBut(ds, ScheduledAt(n), p.balances, -grown);
    SumBut(ds, Instalments(n), p.paid, Times(n, Used(extra)));
    SumBut(ds, Balance(), Principal(ds), 0.0);
    TotalConserved(ds, extra, n);
  }
}
