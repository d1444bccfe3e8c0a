/** Concrete plans on which a natural expectation about the simulator fails. */
module DebtExamples {
  import opened DebtPlan

  /** What a plan over two debts owes, its working extra, and the interest so far. */
  datatype Two = Two(b0: real, b1: real, extra: real, interest: real)

  function Next(d0: DebtItem, d1: DebtItem, s: Two): Two {
    var a0, a1 := s.b0 + Interest(d0, s.b0), s.b1 + Interest(d1, s.b1);
    var o0, o1 := a0 - MinimumPaid(d0, a0), a1 - MinimumPaid(d1, a1);
    var x0 := if s.extra > 0.01 && Open(o0) then Settle(Min(s.extra, o0), o0) else 0.0;
    var left := s.extra - x0;
    var x1 := if left > 0.01 && Open(o1) then Settle(Min(left, o1), o1) else 0.0;
    Two(o0 - x0, o1 - x1,
        s.extra + (if Open(a0) && o0 - x0 == 0.0 then BaseMin(d0, a0) else 0.0)
                + (if Open(a1) && o1 - x1 == 0.0 then BaseMin(d1, a1) else 0.0),
        s.interest + Interest(d0, s.b0) + Interest(d1, s.b1))
  }

  ghost predicate Shows(p: Plan, s: Two) {
    && p.balances == [s.b0, s.b1] && p.extra == s.extra
    && |p.interest| == 2 && p.interest[0] + p.interest[1] == s.interest
  }

  lemma BalancesShow(ds: seq<DebtItem>, p: Plan, s: Two)
    requires |ds| == 2 && Shaped(ds, p) && Shows(p, s)
    ensures var next := Next(ds[0], ds[1], s);
            MonthEnd(ds, p.balances, p.extra) == [next.b0, next.b1]
  {
    var owed := AfterMinimums(ds, p.balances);
    assert Remaining(owed, p.extra, 0) == p.extra;
    assert Remaining(owed, p.extra, 1) == p.extra - ExtraPaid(owed, p.extra, 0);
  }

  lemma FreedOfTwo(ds: seq<DebtItem>, bs: seq<real>, e: real)
    requires |ds| == |bs| == 2
    ensures Freed(ds, bs, e, 2)
         == (if PaysOff(ds, bs, e, 0) then BaseMin(ds[0], Accrued(ds, bs)[0]) else 0.0)
          + (if PaysOff(ds, bs, e, 1) then BaseMin(ds[1], Accrued(ds, bs)[1]) else 0.0)
  {
    assert Freed(ds, bs, e, 1) == if PaysOff(ds, bs, e, 0) then BaseMin(ds[0], Accrued(ds, bs)[0]) else 0.0;
  }

  lemma StepShows(ds: seq<DebtItem>, p: Plan, s: Two, month: nat)
    requires |ds| == 2 && Shaped(ds, p) && Shows(p, s)
    ensures Shows(Step(ds, p, month), Next(ds[0], ds[1], s))
  {
    BalancesShow(ds, p, s);
    FreedOfTwo(ds, p.balances, p.extra);
  }

  function Run(d0: DebtItem, d1: DebtItem, extra: real, n: nat): Two {
    if n == 0 then Two(d0.balance, d1.balance, extra, 0.0) else Next(d0, d1, Run(d0, d1, extra, n - 1))
  }

  lemma {:induction false} RunShows(d0: DebtItem, d1: DebtItem, extra: real, n: nat)
    ensures Shows(After([d0, d1], extra, n), Run(d0, d1, extra, n))
  {
    if n > 0 {
      RunShows(d0, d1, extra, n - 1);
      StepShows([d0, d1], After([d0, d1], extra, n - 1), Run(d0, d1, extra, n - 1), n);
    }
  }

  predicate Over(s: Two) { !Open(s.b0) && !Open(s.b1) }

  lemma DoneIffOver(d0: DebtItem, d1: DebtItem, extra: real, n: nat)
    ensures Done(After([d0, d1], extra, n).balances) <==> Over(Run(d0, d1, extra, n))
  {
    RunShows(d0, d1, extra, n);
    DoneOfTwo(After([d0, d1], extra, n).balances);
  }

  lemma DoneOfTwo(bs: seq<real>)
    requires |bs| == 2
    ensures Done(bs) <==> !Open(bs[0]) && !Open(bs[1])
  {
  }

  lemma MonthsOfTwo(d0: DebtItem, d1: DebtItem, extra: real, m: nat)
    requires m <= MAX_MONTHS && Over(Run(d0, d1, extra, m))
    requires forall j :: 0 <= j < m ==> !Over(Run(d0, d1, extra, j))
    ensures Months([d0, d1], extra) == m
  {
    DoneIffOver(d0, d1, extra, m);
    forall j | 0 <= j < m ensures !Done(After([d0, d1], extra, j).balances) {
      DoneIffOver(d0, d1, extra, j);
    }
    MonthsUnique([d0, d1], extra, m);
  }

  /** Each state of the trace is the month after the one before; nothing is open in the last. */
  predicate IsTrace(d0: DebtItem, d1: DebtItem, extra: real, trace: seq<Two>) {
    && trace != [] && trace[0] == Two(d0.balance, d1.balance, extra, 0.0)
    && (forall j :: 0 < j < |trace| ==> trace[j] == Next(d0, d1, trace[j - 1]))
    && (forall j :: 0 <= j < |trace| ==> (Over(trace[j]) <==> j == |trace| - 1))
  }

  lemma {:induction false} TraceIsRun(d0: DebtItem, d1: DebtItem, extra: real, trace: seq<Two>, n: nat)
    requires IsTrace(d0, d1, extra, trace) && n < |trace|
    ensures Run(d0, d1, extra, n) == trace[n]
  {
    if n > 0 {
      TraceIsRun(d0, d1, extra, trace, n - 1);
      assert trace[n] == Next(d0, d1, trace[n - 1]);
    }
  }

  lemma MonthsOfTrace(d0: DebtItem, d1: DebtItem, extra: real, trace: seq<Two>)
    requires IsTrace(d0, d1, extra, trace) && |trace| <= MAX_MONTHS
    ensures Months([d0, d1], extra) == |trace| - 1
    ensures Shows(After([d0, d1], extra, |trace| - 1), trace[|trace| - 1])
  {
    forall n | 0 <= n < |trace| ensures Run(d0, d1, extra, n) == trace[n] {
      TraceIsRun(d0, d1, extra, trace, n);
    }
    MonthsOfTwo(d0, d1, extra, |trace| - 1);
    RunShows(d0, d1, extra, |trace| - 1);
  }

  /** Two loans at one percent: 60 at 50 a month, 100 at 10 a month. */
  predicate StrandsCent(d0: DebtItem, d1: DebtItem) {
    && d0 == DebtItem(1, Loan, 60.0, 1.0, 50.0, 0.0)
    && d1 == DebtItem(2, Loan, 100.0, 1.0, 10.0, 0.0)
  }

  lemma Less(d0: DebtItem, d1: DebtItem)
    requires StrandsCent(d0, d1)
    ensures Run(d0, d1, 0.0, 3) == Two(0.0, 22.7291, 50.0, 3.4351)
  {
    var s0 := Run(d0, d1, 0.0, 0);
    var s1 := Next(d0, d1, s0);
    assert s1 == Two(10.6, 91.0, 0.0, 1.6);
    var s2 := Next(d0, d1, s1);
    assert s2 == Two(0.0, 81.91, 50.0, 2.616);
    var s3 := Next(d0, d1, s2);
    assert s3 == Two(0.0, 22.7291, 50.0, 3.4351);
  }

  lemma More(d0: DebtItem, d1: DebtItem)
    requires StrandsCent(d0, d1)
    ensures Run(d0, d1, 10.59, 3) == Two(0.01, 51.4432, 10.59, 3.2232)
  {
    var s0 := Run(d0, d1, 10.59, 0);
    var s1 := Next(d0, d1, s0);
    assert s1 == Two(0.01, 91.0, 10.59, 1.6);
    var s2 := Next(d0, d1, s1);
    assert s2 == Two(0.01, 71.32, 10.59, 2.51);
    var s3 := Next(d0, d1, s2);
    assert s3 == Two(0.01, 51.4432, 10.59, 3.2232);
  }

  /** 10.59 more a month leaves the second loan higher: the first payment strands one cent on
      the first loan, whose instalment is then never freed. The amounts are exact reals; in binary
      floating point this remainder comes out just above a cent and is paid the month after. */
  lemma MoreExtraCanBeWorse(d0: DebtItem, d1: DebtItem)
    requires StrandsCent(d0, d1)
    ensures After([d0, d1], 0.0, 3).balances == [0.0, 22.7291]
    ensures After([d0, d1], 10.59, 3).balances == [0.01, 51.4432]
  {
    Less(d0, d1);
    RunShows(d0, d1, 0.0, 3);
    More(d0, d1);
    RunShows(d0, d1, 10.59, 3);
  }

  /** 100 without interest at 99 a month, and 110 at one percent and 10 a month. */
  predicate SmallAndDear(small: DebtItem, dear: DebtItem) {
    && small == DebtItem(1, Loan, 100.0, 0.0, 99.0, 0.0)
    && dear == DebtItem(2, Loan, 110.0, 1.0, 10.0, 0.0)
  }

  lemma SmallestFirst(small: DebtItem, dear: DebtItem) returns (trace: seq<Two>)
    requires SmallAndDear(small, dear)
    ensures |trace| == 3 && IsTrace(small, dear, 1.0, trace) && trace[2].interest == 2.111
  {
    var s0 := Two(100.0, 110.0, 1.0, 0.0);
    var s1 := Next(small, dear, s0);
    assert s1 == Two(0.0, 101.1, 100.0, 1.1);
    var s2 := Next(small, dear, s1);
    assert Over(s2) && s2.interest == 2.111;
    trace := [s0, s1, s2];
  }

  lemma DearestFirst(small: DebtItem, dear: DebtItem) returns (trace: seq<Two>)
    requires SmallAndDear(small, dear)
    ensures |trace| == 4 && IsTrace(dear, small, 1.0, trace) && trace[3].interest > 3.0
  {
    var s0 := Two(110.0, 100.0, 1.0, 0.0);
    var s1 := Next(dear, small, s0);
    assert s1 == Two(100.1, 1.0, 1.0, 1.1);
    var s2 := Next(dear, small, s1);
    assert s2 == Two(90.101, 0.0, 100.0, 2.101);
    var s3 := Next(dear, small, s2);
    assert Over(s3) && s3.interest > 3.0;
    trace := [s0, s1, s2, s3];
  }

  /** Paying the dearer debt first can take longer and cost more interest. */
  lemma DearestFirstCanCostMore(small: DebtItem, dear: DebtItem)
    requires SmallAndDear(small, dear)
    ensures Months([small, dear], 1.0) == 2 && Months([dear, small], 1.0) == 3
    ensures var p, q := After([small, dear], 1.0, 2).interest, After([dear, small], 1.0, 3).interest;
            p[0] + p[1] < q[0] + q[1]
  {
    var smallFirst := SmallestFirst(small, dear);
    MonthsOfTrace(small, dear, 1.0, smallFirst);
    var dearFirst := DearestFirst(small, dear);
    MonthsOfTrace(dear, small, 1.0, dearFirst);
  }
}
