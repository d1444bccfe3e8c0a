/** The payoff simulator as the engine runs it: dictionaries keyed by account, updated month by
    month. Each phase, and then the whole run, is proved equal to module DebtPlan. */
module DebtSimulator {
  import opened DebtPlan
  import opened DebtLedger
  import opened DebtPriority
  import opened DebtBooks
  import opened Calendar
  import opened Options

  datatype MonthSnapshot = MonthSnapshot(
    monthIndex: nat,
    debtBalances: map<int, real>,
    paidThisMonth: map<int, real>,
    interestThisMonth: map<int, real>,
    payoffEvents: seq<int>)

  datatype StrategyResult = StrategyResult(
    order: seq<int>,
    monthsToFreedom: nat,
    totalInterest: real,
    totalPaid: real,
    payoffDate: Option<Date>,
    schedule: seq<MonthSnapshot>,
    debtPayoffMonths: map<int, nat>)

  function Ids(ds: seq<DebtItem>): (ids: seq<int>)
    ensures |ids| == |ds|
  {
    seq(|ds|, k requires 0 <= k < |ds| => ds[k].accountId)
  }

  // ---- phase 1: interest, in the order the debts were collected ----

  function InterestOn(state: map<int, real>, s: seq<DebtItem>): real {
    if s == [] then 0.0 else
      var d := s[|s| - 1];
      InterestOn(state, s[..|s| - 1]) + if d.accountId in state then Interest(d, state[d.accountId]) else 0.0
  }

  lemma {:induction false} InterestWithout(state: map<int, real>, s: seq<DebtItem>, i: nat)
    requires i < |s|
    ensures InterestOn(state, s) == InterestOn(state, s[..i] + s[i + 1..])
                                  + if s[i].accountId in state then Interest(s[i], state[s[i].accountId]) else 0.0
  {
    var n := |s| - 1;
    if i == n {
      assert s[..i] + s[i + 1..] == s[..n];
    } else {
      InterestWithout(state, s[..n], i);
      var t := s[..i] + s[i + 1..];
      assert t[..|t| - 1] == s[..n][..i] + s[..n][i + 1..];
    }
  }

  lemma TakeOut(s: seq<DebtItem>, i: nat)
    requires i < |s|
    ensures multiset(s[..i] + s[i + 1..]) == multiset(s) - multiset{s[i]}
  {
    assert s == s[..i] + [s[i]] + s[i + 1..];
  }

  /** The month's interest does not depend on the order in which it is added up. */
  lemma {:induction false} InterestInAnyOrder(state: map<int, real>, s: seq<DebtItem>, t: seq<DebtItem>)
    requires multiset(s) == multiset(t)
    ensures InterestOn(state, s) == InterestOn(state, t)
  {
    hide InterestOn;
    if s == [] {
      assert multiset(t) == multiset{};
      assert t == [];
    } else {
      assert s[0] in multiset(t);
      var i :| 0 <= i < |t| && t[i] == s[0];
      TakeOut(s, 0);
      TakeOut(t, i);
      InterestInAnyOrder(state, s[..0] + s[1..], t[..i] + t[i + 1..]);
      InterestWithout(state, s, 0);
      InterestWithout(state, t, i);
    }
  }

  lemma InterestNext(state: map<int, real>, s: seq<DebtItem>, n: nat)
    requires n < |s| && s[n].accountId in state
    ensures InterestOn(state, s[..n + 1]) == InterestOn(state, s[..n]) + Interest(s[n], state[s[n].accountId])
  {
    assert s[..n + 1][..n] == s[..n];
  }

  lemma AllKeyed(debts: seq<DebtItem>)
    ensures forall i :: 0 <= i < |debts| ==> debts[i].accountId in IdSet(debts)
  {
    assert forall i :: 0 <= i < |debts| ==> debts[i] in debts;
  }

  lemma NothingYet(state: map<int, real>)
    ensures InterestOn(state, []) == 0.0
  {
  }

  lemma NoInterest(d: DebtItem, b: real)
    requires !Open(b)
    ensures Interest(d, b) == 0.0
  {
  }

  predicate InterestCharged(d: DebtItem, before: map<int, real>, after: map<int, real>, interest: map<int, real>)
    requires d.accountId in before && d.accountId in after
  {
    var b := before[d.accountId];
    && after[d.accountId] == b + Interest(d, b)
    && (d.accountId in interest <==> Open(b))
    && (d.accountId in interest ==> interest[d.accountId] == Interest(d, b))
  }

  method AccrueInterest(debts: seq<DebtItem>, state: map<int, real>)
    returns (accrued: map<int, real>, interest: map<int, real>, total: real)
    requires DistinctIds(debts) && state.Keys == IdSet(debts)
    ensures accrued.Keys == state.Keys && interest.Keys <= state.Keys
    ensures forall i :: 0 <= i < |debts| ==>
      debts[i].accountId in state && InterestCharged(debts[i], state, accrued, interest)
    ensures total == InterestOn(state, debts)
  {
    hide Interest, InterestOn, IdSet;
    accrued, interest, total := state, map[], 0.0;
    NothingYet(state);
    assert forall i :: 0 <= i < |debts| ==> debts[i].accountId in state by {
      AllKeyed(debts);
    }
    for n := 0 to |debts|
      invariant accrued.Keys == state.Keys && interest.Keys <= state.Keys
      invariant forall i :: 0 <= i < n ==> InterestCharged(debts[i], state, accrued, interest)
      invariant forall i :: n <= i < |debts| ==>
                  var id := debts[i].accountId; accrued[id] == state[id] && id !in interest
      invariant total == InterestOn(state, debts[..n])
    {
      var d := debts[n];
      var bal := accrued[d.accountId];
      InterestNext(state, debts, n);
      if bal > 0.01 {
        var i := Interest(d, bal);
        accrued := accrued[d.accountId := bal + i];
        total := total + i;
        interest := interest[d.accountId := i];
      } else {
        NoInterest(d, bal);
      }
    }
    assert debts[..|debts|] == debts;
  }

  // ---- phases 2 and 3: payments, in priority order ----

  method PayMinimums(order: seq<int>, debtById: map<int, DebtItem>, month: nat, ghost ds: seq<DebtItem>, b: Books)
    returns (r: Books)
    requires order == Ids(ds) && Covers(b, ds)
    requires forall k :: 0 <= k < |ds| ==> ds[k].accountId in debtById && debtById[ds[k].accountId] == ds[k]
    ensures r == MinimumsOver(ds, |ds|, month, b)
  {
    hide IdSet, BaseMin;
    var state, paid, lastBase, events, total := b.state, b.paid, b.lastBase, b.events, b.total;
    var closedIn: map<int, nat> := b.closedIn;
    for n := 0 to |order|
      invariant Books(state, paid, lastBase, closedIn, events, total, b.available) == MinimumsOver(ds, n, month, b)
    {
      var aid := order[n];
      CoversEach(MinimumsOver(ds, n, month, b), ds, n);
      if state[aid] > 0.01 {
        var baseMin := BaseMin(debtById[aid], state[aid]);
        lastBase := lastBase[aid := baseMin];
        var minPay := Min(baseMin, state[aid]);
        if state[aid] - minPay < 0.01 {
          minPay := state[aid];
        }
        var left := state[aid] - minPay;
        state := state[aid := if left <= 0.0 then 0.0 else left];
        total := total + minPay;
        paid := paid[aid := minPay];
        if left <= 0.0 {
          events := events + [aid];
          if aid !in closedIn {
            closedIn := closedIn[aid := month];
          }
        }
      }
    }
    r := Books(state, paid, lastBase, closedIn, events, total, b.available);
  }

  lemma {:induction false} NothingLeftToSpend(ds: seq<DebtItem>, m: nat, n: nat, month: nat, b: Books)
    requires m <= n <= |ds| && Covers(b, ds) && ExtrasOver(ds, m, month, b).available <= 0.01
    ensures ExtrasOver(ds, n, month, b) == ExtrasOver(ds, m, month, b)
    decreases n
  {
    hide IdSet;
    if m < n {
      NothingLeftToSpend(ds, m, n - 1, month, b);
    }
  }

  lemma ExtrasNone(ds: seq<DebtItem>, month: nat, b: Books)
    requires Covers(b, ds)
    ensures ExtrasOver(ds, 0, month, b) == b
  {
  }

  lemma ExtrasNext(ds: seq<DebtItem>, n: nat, month: nat, b: Books) returns (c: Books)
    requires n < |ds| && Covers(b, ds)
    ensures c == ExtrasOver(ds, n, month, b) && ds[n].accountId in c.state
    ensures ExtrasOver(ds, n + 1, month, b) == ExtraFor(ds[n], month, c)
  {
    c := ExtrasOver(ds, n, month, b);
    CoversEach(c, ds, n);
  }

  method PayExtra(order: seq<int>, month: nat, ghost ds: seq<DebtItem>, b: Books)
    returns (r: Books)
    requires order == Ids(ds) && Covers(b, ds)
    ensures r == ExtrasOver(ds, |ds|, month, b)
  {
    hide IdSet, ExtrasOver;
    ExtrasNone(ds, month, b);
    var state, paid, events, total, available := b.state, b.paid, b.events, b.total, b.available;
    var closedIn: map<int, nat> := b.closedIn;
    var n := 0;
    while n < |order|
      invariant n <= |order|
      invariant Books(state, paid, b.lastBase, closedIn, events, total, available) == ExtrasOver(ds, n, month, b)
    {
      if available <= 0.01 {
        NothingLeftToSpend(ds, n, |ds|, month, b);
        break;
      }
      var aid := order[n];
      ghost var c := ExtrasNext(ds, n, month, b);
      assert c == Books(state, paid, b.lastBase, closedIn, events, total, available);
      if state[aid] > 0.01 {
        var pay := Min(available, state[aid]);
        if state[aid] - pay < 0.01 {
          pay := state[aid];
        }
        var left := state[aid] - pay;
        state := state[aid := if left <= 0.0 then 0.0 else left];
        available := available - pay;
        total := total + pay;
        paid := paid[aid := (if aid in paid then paid[aid] else 0.0) + pay];
        if left <= 0.0 {
          if aid !in events {
            events := events + [aid];
          }
          if aid !in closedIn {
            closedIn := closedIn[aid := month];
          }
        }
      }
      n := n + 1;
    }
    r := Books(state, paid, b.lastBase, closedIn, events, total, available);
  }

  /** Add the last minimums of the debts just paid off to the next month's extra. */
  method RollOver(events: seq<int>, lastBase: map<int, real>, extra: real) returns (next: real)
    requires forall i :: 0 <= i < |events| ==> events[i] in lastBase
    ensures next == extra + SumOf(lastBase, events)
  {
    next := extra;
    for i := 0 to |events|
      invariant next == extra + SumOf(lastBase, events[..i])
    {
      assert events[..i + 1][..i] == events[..i];
      next := next + lastBase[events[i]];
    }
    assert events[..|events|] == events;
  }

  // ---- the whole run ----

  /** The snapshot of a month, from the plan before it and the plan after it. */
  ghost predicate SnapshotOf(ds: seq<DebtItem>, p: Plan, q: Plan, month: nat, s: MonthSnapshot) {
    && Shaped(ds, p) && Shaped(ds, q)
    && s.monthIndex == month && Reads(ds, s.debtBalances, q.balances)
    && NoRepeats(s.payoffEvents) && OnlyThese(s.payoffEvents, ds)
    && forall k :: 0 <= k < |ds| ==> SnapshotLine(ds, p, s, k)
  }

  ghost predicate SnapshotLine(ds: seq<DebtItem>, p: Plan, s: MonthSnapshot, k: nat)
    requires Shaped(ds, p) && k < |ds|
  {
    var id, bs, e := ds[k].accountId, p.balances, p.extra;
    && Get(s.interestThisMonth, id) == (if Open(bs[k]) then Some(Interest(ds[k], bs[k])) else None)
    && Get(s.paidThisMonth, id) == (if Open(Accrued(ds, bs)[k]) then Some(PaidInMonth(ds, bs, e, k)) else None)
    && (id in s.payoffEvents <==> PaysOff(ds, bs, e, k))
  }

  /** Everything the loop carries from month to month. */
  ghost predicate Carries(ds: seq<DebtItem>, p: Plan, state: map<int, real>, lastBase: map<int, real>,
                          closedIn: map<int, nat>, extra: real, totalInterest: real, totalPaid: real) {
    && Follows(ds, p, state, lastBase, closedIn)
    && p.extra == extra && totalInterest == Sum(p.interest) && totalPaid == Sum(p.paid)
  }

  lemma AccruedBooksOpen(ds: seq<DebtItem>, debts: seq<DebtItem>, p: Plan, state: map<int, real>,
                         lastBase: map<int, real>, closedIn: map<int, nat>, accrued: map<int, real>,
                         interest: map<int, real>, b: Books)
    requires multiset(ds) == multiset(debts) && Follows(ds, p, state, lastBase, closedIn)
    requires accrued.Keys == state.Keys
    requires forall i :: 0 <= i < |debts| ==>
      debts[i].accountId in state && InterestCharged(debts[i], state, accrued, interest)
    requires b.state == accrued && b.paid == map[] && b.events == [] && b.available == p.extra
    requires b.lastBase == lastBase && b.closedIn == closedIn
    ensures Opens(ds, p, b)
    ensures forall k :: 0 <= k < |ds| ==>
              Get(interest, ds[k].accountId)
                == if Open(p.balances[k]) then Some(Interest(ds[k], p.balances[k])) else None
  {
    hide Interest, AccountFollows, IdSet;
    forall k | 0 <= k < |ds|
      ensures ds[k].accountId in state && InterestCharged(ds[k], state, accrued, interest)
    {
      assert ds[k] in multiset(debts);
      var i :| 0 <= i < |debts| && debts[i] == ds[k];
    }
  }

  lemma {:induction false} InterestTotal(ds: seq<DebtItem>, p: Plan, month: nat, state: map<int, real>, n: nat)
    requires Shaped(ds, p) && Reads(ds, state, p.balances) && n <= |ds|
    ensures Sum(Step(ds, p, month).interest[..n]) == Sum(p.interest[..n]) + InterestOn(state, ds[..n])
  {
    hide Interest, MonthEnd, Freed, PaysOff, PaidInMonth, Accrued, BaseMin, IdSet;
    if n > 0 {
      InterestTotal(ds, p, month, state, n - 1);
      var q := Step(ds, p, month);
      assert q.interest[..n][..n - 1] == q.interest[..n - 1];
      assert p.interest[..n][..n - 1] == p.interest[..n - 1];
      assert ds[..n][..n - 1] == ds[..n - 1];
    }
  }

  /** One month: the three phases in the engine's order, and the rollover. */
  method RunMonth(debts: seq<DebtItem>, order: seq<int>, debtById: map<int, DebtItem>, month: nat,
                  state: map<int, real>, lastBase: map<int, real>, closedIn: map<int, nat>,
                  extra: real, totalInterest: real, totalPaid: real,
                  ghost ds: seq<DebtItem>, ghost p: Plan)
    returns (b: Books, interestTotal: real, nextExtra: real, snapshot: MonthSnapshot)
    requires DistinctIds(debts) && DistinctIds(ds) && multiset(ds) == multiset(debts) && IdSet(ds) == IdSet(debts)
    requires order == Ids(ds) && month > 0 && closedIn.Keys <= IdSet(ds)
    requires forall k :: 0 <= k < |ds| ==> ds[k].accountId in debtById && debtById[ds[k].accountId] == ds[k]
    requires Carries(ds, p, state, lastBase, closedIn, extra, totalInterest, totalPaid)
    ensures Carries(ds, Step(ds, p, month), b.state, b.lastBase, b.closedIn, nextExtra, interestTotal, b.total)
    ensures SnapshotOf(ds, p, Step(ds, p, month), month, snapshot)
    ensures snapshot.paidThisMonth.Keys <= IdSet(ds) && snapshot.interestThisMonth.Keys <= IdSet(ds)
    ensures b.closedIn.Keys <= IdSet(ds)
  {
    hide IdSet, InterestCharged, InterestOn, SumOf, MinimumsOver, ExtrasOver, AccountFollows, PaysOff, MonthEnd,
         Freed, PaidInMonth, Accrued, Interest, BaseMin, Sum, NoRepeats, OnlyThese;
    var accrued, interest, charged := AccrueInterest(debts, state);
    var atStart := Books(accrued, map[], lastBase, closedIn, [], totalPaid, extra);
    AccruedBooksOpen(ds, debts, p, state, lastBase, closedIn, accrued, interest, atStart);
    var afterMinimums := PayMinimums(order, debtById, month, ds, atStart);
    b := PayExtra(order, month, ds, afterMinimums);
    assert b == MonthOver(ds, month, atStart);
    WithinMinimums(ds, |ds|, month, atStart);
    WithinExtras(ds, |ds|, month, afterMinimums);
    MonthFollows(ds, p, month, atStart);
    MonthFrees(ds, p, month, atStart);
    MonthPays(ds, p, month, atStart);
    snapshot := MonthSnapshot(month, b.state, b.paid, interest, b.events);
    SnapshotHolds(ds, p, month, atStart, interest);
    nextExtra := RollOver(b.events, b.lastBase, extra);
    interestTotal := totalInterest + charged;
    InterestAdds(ds, debts, p, month, state);
  }

  lemma SnapshotHolds(ds: seq<DebtItem>, p: Plan, month: nat, b: Books, interest: map<int, real>)
    requires DistinctIds(ds) && Opens(ds, p, b) && month > 0
    requires forall k :: 0 <= k < |ds| ==>
               Get(interest, ds[k].accountId)
                == if Open(p.balances[k]) then Some(Interest(ds[k], p.balances[k])) else None
    ensures var c := MonthOver(ds, month, b);
            SnapshotOf(ds, p, Step(ds, p, month), month, MonthSnapshot(month, c.state, c.paid, interest, c.events))
  {
    hide IdSet, MonthOver, PaysOff, MonthEnd, Freed, PaidInMonth, Accrued, Interest, BaseMin;
    var c := MonthOver(ds, month, b);
    MonthFollows(ds, p, month, b);
    MonthFrees(ds, p, month, b);
    var s := MonthSnapshot(month, c.state, c.paid, interest, c.events);
    forall k | 0 <= k < |ds| ensures SnapshotLine(ds, p, s, k) {
      MonthOfAccount(ds, p, month, b, k);
    }
  }

  lemma InterestAdds(ds: seq<DebtItem>, debts: seq<DebtItem>, p: Plan, month: nat, state: map<int, real>)
    requires multiset(ds) == multiset(debts) && Shaped(ds, p) && Reads(ds, state, p.balances)
    ensures Sum(Step(ds, p, month).interest) == Sum(p.interest) + InterestOn(state, debts)
  {
    hide InterestOn, Step, Sum, IdSet;
    InterestTotal(ds, p, month, state, |ds|);
    InterestInAnyOrder(state, ds, debts);
    assert p.interest[..|ds|] == p.interest;
    assert ds[..|ds|] == ds;
    assert Step(ds, p, month).interest[..|ds|] == Step(ds, p, month).interest;
  }

  lemma SameAccounts(ds: seq<DebtItem>, debts: seq<DebtItem>)
    requires multiset(ds) == multiset(debts)
    ensures IdSet(ds) == IdSet(debts)
  {
    forall d ensures d in ds <==> d in debts {
      assert d in ds <==> d in multiset(ds);
    }
  }

  lemma {:induction false} StillDistinct(ds: seq<DebtItem>, debts: seq<DebtItem>)
    requires multiset(ds) == multiset(debts) && DistinctIds(debts)
    ensures DistinctIds(ds)
  {
    forall i, j | 0 <= i < j < |ds| ensures ds[i].accountId != ds[j].accountId {
      if ds[i].accountId == ds[j].accountId {
        assert ds[i] in multiset(debts) && ds[j] in multiset(debts);
        assert ds[i] == ds[j];
        assert ds == ds[..i] + [ds[i]] + ds[i + 1..j] + [ds[j]] + ds[j + 1..];
        assert multiset(ds)[ds[i]] >= 2;
        OccursOnce(debts, ds[i]);
      }
    }
  }

  lemma {:induction false} OccursOnce(debts: seq<DebtItem>, d: DebtItem)
    requires DistinctIds(debts)
    ensures multiset(debts)[d] <= 1
  {
    if debts != [] {
      var n := |debts| - 1;
      assert debts == debts[..n] + [debts[n]];
      OccursOnce(debts[..n], d);
      assert forall i :: 0 <= i < n ==> debts[i] != debts[n];
    }
  }

  /** The result of a run, as the plan describes it. */
  ghost predicate ResultOf(ds: seq<DebtItem>, extra: real, today: Date, r: StrategyResult)
    requires Valid(today)
  {
    var n := Months(ds, extra);
    var last := After(ds, extra, n);
    && r.order == Ids(ds) && r.monthsToFreedom == n
    && r.totalInterest == Sum(last.interest) && r.totalPaid == Sum(last.paid)
    && r.payoffDate == (if ds == [] || n >= MAX_MONTHS then None else Some(AddMonths(today, n)))
    && |r.schedule| == n
    && (forall m :: 0 <= m < n ==> ScheduledMonth(ds, extra, m, r.schedule[m]))
    && r.debtPayoffMonths.Keys <= IdSet(ds)
    && (forall k :: 0 <= k < |ds| ==>
          Get(r.debtPayoffMonths, ds[k].accountId) == if last.closedIn[k] > 0 then Some(last.closedIn[k]) else None)
  }

  ghost predicate ScheduledMonth(ds: seq<DebtItem>, extra: real, m: nat, s: MonthSnapshot) {
    && SnapshotOf(ds, After(ds, extra, m), After(ds, extra, m + 1), m + 1, s)
    && s.paidThisMonth.Keys <= IdSet(ds) && s.interestThisMonth.Keys <= IdSet(ds)
  }

  lemma {:induction false} SumOfZeros(s: seq<real>)
    requires forall k :: 0 <= k < |s| ==> s[k] == 0.0
    ensures Sum(s) == 0.0
  {
    if s != [] {
      SumOfZeros(s[..|s| - 1]);
    }
  }

  lemma StartCarries(ds: seq<DebtItem>, debts: seq<DebtItem>, extra: real, state: map<int, real>)
    requires multiset(ds) == multiset(debts) && state.Keys == IdSet(debts)
    requires forall i :: 0 <= i < |debts| ==>
      debts[i].accountId in state && state[debts[i].accountId] == debts[i].balance
    ensures Carries(ds, After(ds, extra, 0), state, map[], map[], extra, 0.0, 0.0)
  {
    SameAccounts(ds, debts);
    var p := After(ds, extra, 0);
    forall k | 0 <= k < |ds| ensures ds[k].accountId in state && state[ds[k].accountId] == ds[k].balance {
      assert ds[k] in multiset(debts);
      var i :| 0 <= i < |debts| && debts[i] == ds[k];
    }
    SumOfZeros(p.interest);
    SumOfZeros(p.paid);
  }

  predicate AnyOpen(state: map<int, real>) {
    exists aid :: aid in state && state[aid] > 0.01
  }

  lemma DoneIffNothingOpen(ds: seq<DebtItem>, state: map<int, real>, v: seq<real>)
    requires Reads(ds, state, v)
    ensures Done(v) <==> !AnyOpen(state)
  {
    if aid :| aid in state && state[aid] > 0.01 {
      assert aid in IdSet(ds);
      var k :| 0 <= k < |ds| && ds[k].accountId == aid;
    }
    if !Done(v) {
      var k :| 0 <= k < |v| && Open(v[k]);
      assert ds[k].accountId in state && Open(state[ds[k].accountId]);
    }
  }

  function BalanceById(debts: seq<DebtItem>): (m: map<int, real>)
    requires DistinctIds(debts)
    ensures forall i :: 0 <= i < |debts| ==> debts[i].accountId in m && m[debts[i].accountId] == debts[i].balance
    ensures forall id :: id in m <==> exists i :: 0 <= i < |debts| && debts[i].accountId == id
  {
    map i | 0 <= i < |debts| :: debts[i].accountId := debts[i].balance
  }

  function DebtById(debts: seq<DebtItem>): (m: map<int, DebtItem>)
    requires DistinctIds(debts)
    ensures forall i :: 0 <= i < |debts| ==> debts[i].accountId in m && m[debts[i].accountId] == debts[i]
  {
    map i | 0 <= i < |debts| :: debts[i].accountId := debts[i]
  }

  /** The simulation. `ds` is the debts in the order of the ids in `order`. */
  method Simulate(debts: seq<DebtItem>, order: seq<int>, extraMonthly: real, today: Date, ghost ds: seq<DebtItem>)
    returns (r: StrategyResult)
    requires DistinctIds(debts) && multiset(ds) == multiset(debts) && order == Ids(ds) && Valid(today)
    ensures ResultOf(ds, extraMonthly, today, r)
  {
    hide Carries, ScheduledMonth, SnapshotOf, After, Step, AnyOpen, Done;
    hide IdSet, Ids, DistinctIds, ResultOf, Months, Reads;
    if debts == [] {
      r := StrategyResult([], 0, 0.0, 0.0, None, [], map[]);
      EmptyRun(ds, extraMonthly, today, r);
      return;
    }
    SameAccounts(ds, debts);
    StillDistinct(ds, debts);
    var state, debtById := BalanceById(debts), DebtById(debts);
    LooksUp(ds, debts, state, debtById);
    var extra, totalInterest, totalPaid, month := extraMonthly, 0.0, 0.0, 0;
    var schedule: seq<MonthSnapshot> := [];
    var closedIn: map<int, nat>, lastBase: map<int, real> := map[], map[];
    StartCarries(ds, debts, extraMonthly, state);
    ghost var p := After(ds, extraMonthly, 0);
    OpenTest(ds, p, state, lastBase, closedIn, extra, totalInterest, totalPaid);
    while AnyOpen(state) && month < MAX_MONTHS
      invariant month <= MAX_MONTHS && |schedule| == month && p == After(ds, extraMonthly, month)
      invariant Carries(ds, p, state, lastBase, closedIn, extra, totalInterest, totalPaid)
      invariant Done(p.balances) <==> !AnyOpen(state)
      invariant closedIn.Keys <= IdSet(ds)
      invariant forall m :: 0 <= m < month ==> ScheduledMonth(ds, extraMonthly, m, schedule[m])
      invariant forall m :: 0 <= m < month ==> !Done(After(ds, extraMonthly, m).balances)
      decreases MAX_MONTHS - month
    {
      month := month + 1;
      var b, interestTotal, nextExtra, snapshot :=
        RunMonth(debts, order, debtById, month, state, lastBase, closedIn, extra, totalInterest, totalPaid, ds, p);
      NextMonth(ds, extraMonthly, month, snapshot);
      schedule := schedule + [snapshot];
      state, lastBase, closedIn := b.state, b.lastBase, b.closedIn;
      extra, totalInterest, totalPaid := nextExtra, interestTotal, b.total;
      p := Step(ds, p, month);
      OpenTest(ds, p, state, lastBase, closedIn, extra, totalInterest, totalPaid);
    }
    MonthsUnique(ds, extraMonthly, month);
    var payoff := if month >= MAX_MONTHS then None else Some(AddMonths(today, month));
    r := StrategyResult(order, month, totalInterest, totalPaid, payoff, schedule, closedIn);
    NotEmpty(ds, debts);
    Finished(ds, extraMonthly, today, state, lastBase, extra, r, p);
  }

  lemma NotEmpty(ds: seq<DebtItem>, debts: seq<DebtItem>)
    requires multiset(ds) == multiset(debts) && debts != []
    ensures ds != []
  {
    assert debts[0] in multiset(ds);
  }

  lemma Finished(ds: seq<DebtItem>, extraMonthly: real, today: Date, state: map<int, real>, lastBase: map<int, real>,
                 extra: real, r: StrategyResult, p: Plan)
    requires ds != [] && Valid(today) && r.order == Ids(ds)
    requires r.payoffDate
          == (if r.monthsToFreedom >= MAX_MONTHS then None else Some(AddMonths(today, r.monthsToFreedom)))
    requires |r.schedule| == r.monthsToFreedom && r.debtPayoffMonths.Keys <= IdSet(ds)
    requires Carries(ds, p, state, lastBase, r.debtPayoffMonths, extra, r.totalInterest, r.totalPaid)
    ensures && r.monthsToFreedom == Months(ds, extraMonthly) && p == After(ds, extraMonthly, r.monthsToFreedom)
            && (forall m :: 0 <= m < r.monthsToFreedom ==> ScheduledMonth(ds, extraMonthly, m, r.schedule[m]))
            ==> ResultOf(ds, extraMonthly, today, r)
  {
    hide Carries, ScheduledMonth, After, IdSet;
    PayoffMonths(ds, p, state, lastBase, r.debtPayoffMonths, extra, r.totalInterest, r.totalPaid);
  }

  lemma OpenTest(ds: seq<DebtItem>, p: Plan, state: map<int, real>, lastBase: map<int, real>,
                 closedIn: map<int, nat>, extra: real, totalInterest: real, totalPaid: real)
    requires Carries(ds, p, state, lastBase, closedIn, extra, totalInterest, totalPaid)
    ensures Done(p.balances) <==> !AnyOpen(state)
  {
    DoneIffNothingOpen(ds, state, p.balances);
  }

  lemma NextMonth(ds: seq<DebtItem>, extra: real, month: nat, s: MonthSnapshot)
    requires month > 0
    requires SnapshotOf(ds, After(ds, extra, month - 1), Step(ds, After(ds, extra, month - 1), month), month, s)
    requires s.paidThisMonth.Keys <= IdSet(ds) && s.interestThisMonth.Keys <= IdSet(ds)
    ensures After(ds, extra, month) == Step(ds, After(ds, extra, month - 1), month)
    ensures ScheduledMonth(ds, extra, month - 1, s)
  {
    hide SnapshotOf, Step;
  }

  lemma PayoffMonths(ds: seq<DebtItem>, p: Plan, state: map<int, real>, lastBase: map<int, real>,
                     closedIn: map<int, nat>, extra: real, totalInterest: real, totalPaid: real)
    requires Carries(ds, p, state, lastBase, closedIn, extra, totalInterest, totalPaid)
    ensures Shaped(ds, p) && totalInterest == Sum(p.interest) && totalPaid == Sum(p.paid)
    ensures forall k :: 0 <= k < |ds| ==>
              Get(closedIn, ds[k].accountId) == if p.closedIn[k] > 0 then Some(p.closedIn[k]) else None
  {
    forall k | 0 <= k < |ds|
      ensures Get(closedIn, ds[k].accountId) == if p.closedIn[k] > 0 then Some(p.closedIn[k]) else None
    {
      assert AccountFollows(ds[k].accountId, p, lastBase, closedIn, k);
    }
  }

  lemma EmptyRun(ds: seq<DebtItem>, extra: real, today: Date, r: StrategyResult)
    requires multiset(ds) == multiset{} && Valid(today)
    requires r == StrategyResult([], 0, 0.0, 0.0, None, [], map[])
    ensures ResultOf(ds, extra, today, r)
  {
    assert |multiset(ds)| == |ds|;
    assert Done(After(ds, extra, 0).balances);
  }

  lemma LooksUp(ds: seq<DebtItem>, debts: seq<DebtItem>, state: map<int, real>, byId: map<int, DebtItem>)
    requires multiset(ds) == multiset(debts) && DistinctIds(debts)
    requires forall i :: 0 <= i < |debts| ==> debts[i].accountId in byId && byId[debts[i].accountId] == debts[i]
    requires forall id :: id in state <==> exists i :: 0 <= i < |debts| && debts[i].accountId == id
    ensures state.Keys == IdSet(debts)
    ensures forall k :: 0 <= k < |ds| ==> ds[k].accountId in byId && byId[ds[k].accountId] == ds[k]
  {
    forall k | 0 <= k < |ds| ensures ds[k].accountId in byId && byId[ds[k].accountId] == ds[k] {
      assert ds[k] in multiset(debts);
      var i :| 0 <= i < |debts| && debts[i] == ds[k];
    }
    forall id ensures id in state.Keys <==> id in IdSet(debts) {
      if id in IdSet(debts) {
        var d :| d in debts && d.accountId == id;
        var i :| 0 <= i < |debts| && debts[i] == d;
      }
    }
  }
}
