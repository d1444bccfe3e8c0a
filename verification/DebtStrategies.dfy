/** The two payoff strategies: the simulator run in order of size or in order of cost. */
module DebtStrategies {
  import opened DebtPlan
  import opened DebtBooks
  import opened DebtSimulator
  import opened Calendar
  import opened Options
  import opened DebtAnnuity

  datatype Strategy = Snowball | Avalanche

  /** Snowball: smallest balance first. Avalanche: dearest first. Ties go to the smaller account id. */
  predicate Precedes(s: Strategy, a: DebtItem, b: DebtItem) {
    match s
    case Snowball => a.balance < b.balance || (a.balance == b.balance && a.accountId <= b.accountId)
    case Avalanche => a.monthlyRate > b.monthlyRate || (a.monthlyRate == b.monthlyRate && a.accountId <= b.accountId)
  }

  /** Every debt's account once, in the strategy's order. */
  predicate ByKey(s: Strategy, debts: seq<DebtItem>, order: seq<int>) {
    && |order| == |debts| && (forall d :: d in debts ==> d.accountId in order)
    && forall i, j, x, y ::
         0 <= i < j < |order| && x in debts && y in debts && order[i] == x.accountId && order[j] == y.accountId
         ==> match s
             case Snowball => x.balance <= y.balance && (x.balance == y.balance ==> x.accountId < y.accountId)
             case Avalanche =>
               x.monthlyRate >= y.monthlyRate && (x.monthlyRate == y.monthlyRate ==> x.accountId < y.accountId)
  }

  predicate InOrder(s: Strategy, ds: seq<DebtItem>) {
    forall i, j :: 0 <= i < j < |ds| ==> Precedes(s, ds[i], ds[j])
  }

  function Insert(s: Strategy, d: DebtItem, ds: seq<DebtItem>): seq<DebtItem> {
    if ds == [] then [d]
    else if Precedes(s, d, ds[0]) then [d] + ds
    else [ds[0]] + Insert(s, d, ds[1..])
  }

  /** The engine's sort by the strategy's key. */
  function Sorted(s: Strategy, ds: seq<DebtItem>): seq<DebtItem> {
    if ds == [] then [] else Insert(s, ds[|ds| - 1], Sorted(s, ds[..|ds| - 1]))
  }

  lemma Total(s: Strategy, a: DebtItem, b: DebtItem, c: DebtItem)
    ensures Precedes(s, a, b) || Precedes(s, b, a)
    ensures Precedes(s, a, b) && Precedes(s, b, c) ==> Precedes(s, a, c)
    ensures Precedes(s, a, b) && Precedes(s, b, a) ==> a.accountId == b.accountId
  {
  }

  lemma {:induction false} InsertAdds(s: Strategy, d: DebtItem, ds: seq<DebtItem>)
    ensures multiset(Insert(s, d, ds)) == multiset(ds) + multiset{d}
  {
    if ds != [] {
      assert ds == [ds[0]] + ds[1..];
      if !Precedes(s, d, ds[0]) {
        InsertAdds(s, d, ds[1..]);
      }
    }
  }

  /** A debt that precedes the first of an ordered list precedes all of it. */
  lemma FirstPrecedesAll(s: Strategy, d: DebtItem, ds: seq<DebtItem>)
    requires InOrder(s, ds) && (ds == [] || Precedes(s, d, ds[0]))
    ensures InOrder(s, [d] + ds)
  {
    hide Precedes;
    forall j | 0 <= j < |ds| ensures Precedes(s, d, ds[j]) {
      Total(s, d, ds[0], ds[j]);
    }
  }

  lemma {:induction false} InsertKeepsOrder(s: Strategy, d: DebtItem, ds: seq<DebtItem>)
    requires InOrder(s, ds)
    ensures InOrder(s, Insert(s, d, ds))
    ensures Insert(s, d, ds)[0] == d || (ds != [] && Insert(s, d, ds)[0] == ds[0])
  {
    hide Precedes;
    if ds == [] || Precedes(s, d, ds[0]) {
      FirstPrecedesAll(s, d, ds);
    } else {
      InsertKeepsOrder(s, d, ds[1..]);
      Total(s, d, ds[0], d);
      FirstPrecedesAll(s, ds[0], Insert(s, d, ds[1..]));
    }
  }

  lemma {:induction false} SortedIsInOrder(s: Strategy, ds: seq<DebtItem>)
    ensures InOrder(s, Sorted(s, ds)) && multiset(Sorted(s, ds)) == multiset(ds)
  {
    if ds != [] {
      var n := |ds| - 1;
      SortedIsInOrder(s, ds[..n]);
      InsertAdds(s, ds[n], Sorted(s, ds[..n]));
      InsertKeepsOrder(s, ds[n], Sorted(s, ds[..n]));
      assert ds == ds[..n] + [ds[n]];
    }
  }

  lemma SameFirst(s: Strategy, a: seq<DebtItem>, b: seq<DebtItem>)
    requires InOrder(s, a) && InOrder(s, b) && multiset(a) == multiset(b) && DistinctIds(a) && a != []
    ensures b != [] && a[0] == b[0]
  {
    hide Precedes;
    assert a[0] in multiset(b);
    var i :| 0 <= i < |b| && b[i] == a[0];
    assert b[0] in multiset(a);
    var j :| 0 <= j < |a| && a[j] == b[0];
    assert i == 0 || Precedes(s, b[0], b[i]);
    assert j == 0 || Precedes(s, a[0], a[j]);
    Total(s, a[0], b[0], a[0]);
  }

  lemma {:induction false} OrderIsUnique(s: Strategy, a: seq<DebtItem>, b: seq<DebtItem>)
    requires InOrder(s, a) && InOrder(s, b) && multiset(a) == multiset(b) && DistinctIds(a)
    ensures a == b
  {
    hide Precedes;
    if a == [] {
      assert |multiset(b)| == |b|;
    } else {
      SameFirst(s, a, b);
      SameRest(a, b);
      OrderIsUnique(s, a[1..], b[1..]);
    }
  }

  lemma SameRest(a: seq<DebtItem>, b: seq<DebtItem>)
    requires a != [] && b != [] && a[0] == b[0] && multiset(a) == multiset(b)
    ensures multiset(a[1..]) == multiset(b[1..])
  {
    assert a == [a[0]] + a[1..] && b == [b[0]] + b[1..];
    assert multiset(a[1..]) == multiset(a) - multiset{a[0]};
    assert multiset(b[1..]) == multiset(b) - multiset{b[0]};
  }

  /** The order in which the accounts were collected does not influence the plan. */
  lemma CollectionOrderIrrelevant(s: Strategy, debts: seq<DebtItem>, shuffled: seq<DebtItem>)
    requires DistinctIds(debts) && multiset(debts) == multiset(shuffled)
    ensures Sorted(s, debts) == Sorted(s, shuffled)
  {
    SortedIsInOrder(s, debts);
    SortedIsInOrder(s, shuffled);
    StillDistinct(Sorted(s, debts), debts);
    OrderIsUnique(s, Sorted(s, debts), Sorted(s, shuffled));
  }

  /**
   * Snowball goes from the smallest balance to the largest, avalanche from the highest rate to the
   * lowest; among equals the smaller account id is first.
   */
  lemma SortedByKey(s: Strategy, debts: seq<DebtItem>, i: nat, j: nat)
    requires DistinctIds(debts) && i < j < |debts|
    ensures |Sorted(s, debts)| == |debts|
    ensures var x, y := Sorted(s, debts)[i], Sorted(s, debts)[j];
            match s
            case Snowball => x.balance <= y.balance && (x.balance == y.balance ==> x.accountId < y.accountId)
            case Avalanche =>
              x.monthlyRate >= y.monthlyRate && (x.monthlyRate == y.monthlyRate ==> x.accountId < y.accountId)
  {
    hide Sorted;
    var ds := Sorted(s, debts);
    SortedIsInOrder(s, debts);
    StillDistinct(ds, debts);
    assert |multiset(ds)| == |ds| && |multiset(debts)| == |debts|;
    assert Precedes(s, ds[i], ds[j]);
  }

  /** The account ids in the order of payment: each debt once, sorted by the strategy's key. */
  lemma OrderOfIds(s: Strategy, debts: seq<DebtItem>)
    requires DistinctIds(debts)
    ensures ByKey(s, debts, Ids(Sorted(s, debts)))
  {
    hide Sorted, Precedes;
    var ds, order := Sorted(s, debts), Ids(Sorted(s, debts));
    SortedIsInOrder(s, debts);
    assert |multiset(ds)| == |ds| && |multiset(debts)| == |debts|;
    forall d | d in debts
      ensures d.accountId in order
    {
      assert d in multiset(ds);
      var k :| 0 <= k < |ds| && ds[k] == d;
      assert order[k] == d.accountId;
    }
    forall i, j, x, y |
      0 <= i < j < |order| && x in debts && y in debts && order[i] == x.accountId && order[j] == y.accountId
      ensures match s
              case Snowball => x.balance <= y.balance && (x.balance == y.balance ==> x.accountId < y.accountId)
              case Avalanche =>
                x.monthlyRate >= y.monthlyRate && (x.monthlyRate == y.monthlyRate ==> x.accountId < y.accountId)
    {
      ByItsId(ds, debts, i, x);
      ByItsId(ds, debts, j, y);
      SortedByKey(s, debts, i, j);
    }
  }

  lemma ByItsId(ds: seq<DebtItem>, debts: seq<DebtItem>, i: nat, x: DebtItem)
    requires multiset(ds) == multiset(debts) && DistinctIds(debts) && i < |ds|
    requires x in debts && ds[i].accountId == x.accountId
    ensures ds[i] == x
  {
    assert ds[i] in multiset(debts);
    var j :| 0 <= j < |debts| && debts[j] == ds[i];
    var k :| 0 <= k < |debts| && debts[k] == x;
  }

  method CalcStrategy(s: Strategy, debts: seq<DebtItem>, extraMonthly: real, today: Date) returns (r: StrategyResult)
    requires DistinctIds(debts) && Valid(today)
    ensures ResultOf(Sorted(s, debts), extraMonthly, today, r)
    ensures ByKey(s, debts, r.order)
  {
    var ordered := Sorted(s, debts);
    SortedIsInOrder(s, debts);
    r := Simulate(debts, Ids(ordered), extraMonthly, today, ordered);
    OrderOfIds(s, debts);
  }

  /**
   * There is a payoff date exactly when some month before the cap ends with nothing open, and it is
   * as many months from today as the first such month.
   */
  lemma DatedIff(ds: seq<DebtItem>, extra: real, today: Date, r: StrategyResult)
    requires Valid(today)
    ensures ResultOf(ds, extra, today, r) ==>
      && (r.payoffDate.Some? <==> ds != [] && exists m :: 0 <= m < MAX_MONTHS && Done(After(ds, extra, m).balances))
      && (r.payoffDate.Some? ==>
           exists m :: 0 <= m < MAX_MONTHS && r.payoffDate.value == AddMonths(today, m)
             && Done(After(ds, extra, m).balances) && forall j :: 0 <= j < m ==> !Done(After(ds, extra, j).balances))
  {
    hide After, ScheduledMonth, Sum, AddMonths, Done;
    var n := Months(ds, extra);
    if n < MAX_MONTHS {
      assert Done(After(ds, extra, n).balances);
    }
  }

  /**
   * A loan at its annuity instalment has a payoff date exactly when its term is shorter than the
   * cap: cleared in the very last month, it is reported like one that is never cleared.
   */
  lemma LastMonthLosesItsDate(d: DebtItem, n: nat, today: Date, r: StrategyResult)
    requires Valid(today) && AnnuityLoan(d, n) && d.minPayment / (1.0 + d.monthlyRate / 100.0) > 0.01
    ensures ResultOf([d], 0.0, today, r) ==>
      && (r.payoffDate.Some? <==> n < MAX_MONTHS)
      && (r.payoffDate.Some? ==> r.payoffDate.value == AddMonths(today, n))
      && (After([d], 0.0, r.monthsToFreedom).balances == [0.0] <==> n <= MAX_MONTHS)
  {
    hide After, Months, ScheduledMonth, Sum, Owed, AddMonths, AnnuityLoan;
    if n <= MAX_MONTHS {
      AnnuityAgreesWithSimulation(d, n);
    } else {
      LongTermHitsCap(d, n);
    }
  }
}
