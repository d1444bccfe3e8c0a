/** The dictionaries of one simulated month, debt by debt, and what they hold at its end. */
module DebtBooks {
  import opened DebtPlan
  import opened DebtLedger
  import opened DebtPriority
  import opened Calendar
  import opened Options

  predicate DistinctIds(ds: seq<DebtItem>) {
    forall i, j :: 0 <= i < j < |ds| ==> ds[i].accountId != ds[j].accountId
  }

  function IdSet(ds: seq<DebtItem>): set<int> {
    set d | d in ds :: d.accountId
  }

  datatype Books = Books(
    state: map<int, real>,
    paid: map<int, real>,       // this month
    lastBase: map<int, real>,
    closedIn: map<int, nat>,
    events: seq<int>,           // paid off this month
    total: real,
    available: real)

  /** Pay the minimum of one debt. */
  function MinimumFor(d: DebtItem, month: nat, b: Books): (r: Books)
    requires d.accountId in b.state
    ensures r.state.Keys == b.state.Keys && r.available == b.available
  {
    var id := d.accountId;
    var bal := b.state[id];
    if bal <= 0.01 then b else
      var base := BaseMin(d, bal);
      var pay := Settle(Min(base, bal), bal);
      var closes := bal - pay <= 0.0;
      b.(state := b.state[id := if closes then 0.0 else bal - pay],
         paid := b.paid[id := pay],
         lastBase := b.lastBase[id := base],
         closedIn := if closes && id !in b.closedIn then b.closedIn[id := month] else b.closedIn,
         events := if closes then b.events + [id] else b.events,
         total := b.total + pay)
  }

  /** Pay one debt from the extra money, if any is left. */
  function ExtraFor(d: DebtItem, month: nat, b: Books): (r: Books)
    requires d.accountId in b.state
    ensures r.state.Keys == b.state.Keys && r.lastBase == b.lastBase
  {
    var id := d.accountId;
    var bal := b.state[id];
    if b.available <= 0.01 || bal <= 0.01 then b else
      var pay := Settle(Min(b.available, bal), bal);
      var closes := bal - pay <= 0.0;
      b.(state := b.state[id := if closes then 0.0 else bal - pay],
         paid := b.paid[id := (if id in b.paid then b.paid[id] else 0.0) + pay],
         closedIn := if closes && id !in b.closedIn then b.closedIn[id := month] else b.closedIn,
         events := if closes && id !in b.events then b.events + [id] else b.events,
         total := b.total + pay,
         available := b.available - pay)
  }

  predicate Covers(b: Books, ds: seq<DebtItem>) { b.state.Keys == IdSet(ds) }

  lemma CoversEach(b: Books, ds: seq<DebtItem>, k: nat)
    requires Covers(b, ds) && k < |ds|
    ensures ds[k].accountId in b.state
  {
    assert ds[k] in ds;
  }

  function MinimumsOver(ds: seq<DebtItem>, n: nat, month: nat, b: Books): (r: Books)
    requires n <= |ds| && Covers(b, ds)
    ensures Covers(r, ds) && r.available == b.available
  {
    if n == 0 then b else
      var c := MinimumsOver(ds, n - 1, month, b);
      CoversEach(c, ds, n - 1);
      MinimumFor(ds[n - 1], month, c)
  }

  function ExtrasOver(ds: seq<DebtItem>, n: nat, month: nat, b: Books): (r: Books)
    requires n <= |ds| && Covers(b, ds)
    ensures Covers(r, ds) && r.lastBase == b.lastBase
  {
    if n == 0 then b else
      var c := ExtrasOver(ds, n - 1, month, b);
      CoversEach(c, ds, n - 1);
      ExtraFor(ds[n - 1], month, c)
  }

  // ---- one account's part of the books ----

  function Get<V>(m: map<int, V>, id: int): Option<V> { if id in m then Some(m[id]) else None }

  datatype Account = Account(balance: real, paid: Option<real>, base: Option<real>, closed: Option<nat>, event: bool)

  function View(b: Books, id: int): Account
    requires id in b.state
  {
    Account(b.state[id], Get(b.paid, id), Get(b.lastBase, id), Get(b.closedIn, id), id in b.events)
  }

  function MinimumOn(d: DebtItem, month: nat, c: Account): Account {
    if c.balance <= 0.01 then c else
      var base := BaseMin(d, c.balance);
      var pay := Settle(Min(base, c.balance), c.balance);
      var closes := c.balance - pay <= 0.0;
      Account(if closes then 0.0 else c.balance - pay, Some(pay), Some(base),
              if closes && c.closed.None? then Some(month) else c.closed, c.event || closes)
  }

  function ExtraOn(month: nat, available: real, c: Account): Account {
    if available <= 0.01 || c.balance <= 0.01 then c else
      var pay := Settle(Min(available, c.balance), c.balance);
      var closes := c.balance - pay <= 0.0;
      Account(if closes then 0.0 else c.balance - pay,
              Some((if c.paid.Some? then c.paid.value else 0.0) + pay), c.base,
              if closes && c.closed.None? then Some(month) else c.closed, c.event || closes)
  }

  lemma MinimumTouchesOne(d: DebtItem, month: nat, b: Books, id: int)
    requires d.accountId in b.state && id in b.state
    ensures View(MinimumFor(d, month, b), id)
         == if id == d.accountId then MinimumOn(d, month, View(b, id)) else View(b, id)
  {
    hide BaseMin, Settle;
  }

  lemma ExtraTouchesOne(d: DebtItem, month: nat, b: Books, id: int)
    requires d.accountId in b.state && id in b.state
    ensures View(ExtraFor(d, month, b), id)
         == if id == d.accountId then ExtraOn(month, b.available, View(b, id)) else View(b, id)
  {
    hide Settle;
  }

  lemma {:induction false} ViewAfterMinimums(ds: seq<DebtItem>, n: nat, month: nat, b: Books, k: nat)
    requires DistinctIds(ds) && n <= |ds| && k < |ds| && Covers(b, ds) && ds[k].accountId in b.state
    ensures ds[k].accountId in MinimumsOver(ds, n, month, b).state
    ensures View(MinimumsOver(ds, n, month, b), ds[k].accountId)
         == if k < n then MinimumOn(ds[k], month, View(b, ds[k].accountId)) else View(b, ds[k].accountId)
  {
    hide View, MinimumOn, MinimumFor, IdSet;
    if n > 0 {
      ViewAfterMinimums(ds, n - 1, month, b, k);
      var c := MinimumsOver(ds, n - 1, month, b);
      CoversEach(c, ds, n - 1);
      MinimumTouchesOne(ds[n - 1], month, c, ds[k].accountId);
    }
  }

  lemma {:induction false} ExtraNotYet(ds: seq<DebtItem>, n: nat, month: nat, b: Books, k: nat)
    requires DistinctIds(ds) && n <= k < |ds| && Covers(b, ds) && ds[k].accountId in b.state
    ensures ds[k].accountId in ExtrasOver(ds, n, month, b).state
    ensures View(ExtrasOver(ds, n, month, b), ds[k].accountId) == View(b, ds[k].accountId)
  {
    hide View, ExtraOn, ExtraFor, IdSet;
    if n > 0 {
      ExtraNotYet(ds, n - 1, month, b, k);
      var c := ExtrasOver(ds, n - 1, month, b);
      CoversEach(c, ds, n - 1);
      ExtraTouchesOne(ds[n - 1], month, c, ds[k].accountId);
    }
  }

  lemma MinimumNotYet(ds: seq<DebtItem>, n: nat, month: nat, b: Books, k: nat)
    requires DistinctIds(ds) && n <= k < |ds| && Covers(b, ds) && ds[k].accountId in b.state
    ensures var c, id := MinimumsOver(ds, n, month, b), ds[k].accountId;
            id in c.state && c.state[id] == b.state[id] && (id in c.events <==> id in b.events)
  {
    hide MinimumsOver, MinimumOn;
    ViewAfterMinimums(ds, n, month, b, k);
  }

  lemma BalanceNotYet(ds: seq<DebtItem>, n: nat, month: nat, b: Books, k: nat)
    requires DistinctIds(ds) && n <= k < |ds| && Covers(b, ds) && ds[k].accountId in b.state
    ensures var c, id := ExtrasOver(ds, n, month, b), ds[k].accountId;
            id in c.state && c.state[id] == b.state[id]
  {
    hide ExtrasOver;
    ExtraNotYet(ds, n, month, b, k);
  }

  /** The balances the dictionary holds, in priority order. */
  predicate Reads(ds: seq<DebtItem>, m: map<int, real>, v: seq<real>) {
    && |v| == |ds| && m.Keys == IdSet(ds)
    && forall k :: 0 <= k < |ds| ==> ds[k].accountId in m && m[ds[k].accountId] == v[k]
  }

  lemma {:induction false} AvailableIsRemaining(ds: seq<DebtItem>, n: nat, month: nat, b: Books, owed: seq<real>)
    requires DistinctIds(ds) && n <= |ds| && Reads(ds, b.state, owed)
    ensures ExtrasOver(ds, n, month, b).available == Remaining(owed, b.available, n)
    ensures ExtrasOver(ds, n, month, b).total == b.total + (b.available - Remaining(owed, b.available, n))
  {
    hide View, ExtraOn, MinimumOn, ExtraFor, IdSet;
    if n > 0 {
      AvailableIsRemaining(ds, n - 1, month, b, owed);
      var c := ExtrasOver(ds, n - 1, month, b);
      CoversEach(c, ds, n - 1);
      CoversEach(b, ds, n - 1);
      BalanceNotYet(ds, n - 1, month, b, n - 1);
      ExtraOfOne(ds[n - 1], month, c);
    }
  }

  lemma ExtraOfOne(d: DebtItem, month: nat, b: Books)
    requires d.accountId in b.state
    ensures var bal := b.state[d.accountId];
            var pay := if b.available > 0.01 && Open(bal) then Settle(Min(b.available, bal), bal) else 0.0;
            var r := ExtraFor(d, month, b);
            r.available == b.available - pay && r.total == b.total + pay
  {
  }

  lemma {:induction false} ViewAfterExtras(ds: seq<DebtItem>, n: nat, month: nat, b: Books, owed: seq<real>, k: nat)
    requires DistinctIds(ds) && k < n <= |ds| && Reads(ds, b.state, owed)
    ensures ds[k].accountId in ExtrasOver(ds, n, month, b).state
    ensures View(ExtrasOver(ds, n, month, b), ds[k].accountId)
         == ExtraOn(month, Remaining(owed, b.available, k), View(b, ds[k].accountId))
  {
    hide View, ExtraOn, ExtraFor, Remaining, IdSet;
    var c := ExtrasOver(ds, n - 1, month, b);
    CoversEach(c, ds, n - 1);
    if k == n - 1 {
      ExtraNotYet(ds, n - 1, month, b, k);
      AvailableIsRemaining(ds, n - 1, month, b, owed);
    } else {
      ViewAfterExtras(ds, n - 1, month, b, owed, k);
    }
    ExtraTouchesOne(ds[n - 1], month, c, ds[k].accountId);
  }

  // ---- the month as a whole ----

  function MinimumTotal(ds: seq<DebtItem>, a: seq<real>, n: nat): real
    requires |ds| == |a| && n <= |ds|
  {
    if n == 0 then 0.0 else MinimumTotal(ds, a, n - 1) + MinimumPaid(ds[n - 1], a[n - 1])
  }

  lemma TotalOfOne(d: DebtItem, month: nat, b: Books)
    requires d.accountId in b.state
    ensures MinimumFor(d, month, b).total == b.total + MinimumPaid(d, b.state[d.accountId])
  {
  }

  lemma {:induction false} TotalAfterMinimums(ds: seq<DebtItem>, n: nat, month: nat, b: Books, a: seq<real>)
    requires DistinctIds(ds) && n <= |ds| && Reads(ds, b.state, a)
    ensures MinimumsOver(ds, n, month, b).total == b.total + MinimumTotal(ds, a, n)
  {
    hide View, MinimumOn, MinimumFor, MinimumPaid, IdSet;
    if n > 0 {
      TotalAfterMinimums(ds, n - 1, month, b, a);
      var c := MinimumsOver(ds, n - 1, month, b);
      CoversEach(c, ds, n - 1);
      CoversEach(b, ds, n - 1);
      MinimumNotYet(ds, n - 1, month, b, n - 1);
      TotalOfOne(ds[n - 1], month, c);
    }
  }

  lemma {:induction false} MonthTotalSplits(ds: seq<DebtItem>, bs: seq<real>, extra: real, n: nat)
    requires |ds| == |bs| && n <= |ds|
    ensures MonthTotal(ds, bs, extra, n)
         == MinimumTotal(ds, Accrued(ds, bs), n) + extra - Remaining(AfterMinimums(ds, bs), extra, n)
  {
    hide Accrued, AfterMinimums, MinimumPaid, ExtraPaid;
    if n > 0 {
      MonthTotalSplits(ds, bs, extra, n - 1);
    }
  }

  lemma {:induction false} PaidGrowsByMonthTotal(ds: seq<DebtItem>, p: Plan, month: nat, n: nat)
    requires Shaped(ds, p) && n <= |ds|
    ensures Sum(Step(ds, p, month).paid[..n]) == Sum(p.paid[..n]) + MonthTotal(ds, p.balances, p.extra, n)
  {
    hide PaidInMonth, MonthEnd, Accrued, Freed, PaysOff, BaseMin, Interest;
    if n > 0 {
      PaidGrowsByMonthTotal(ds, p, month, n - 1);
      var q := Step(ds, p, month);
      assert q.paid[..n][..n - 1] == q.paid[..n - 1];
      assert p.paid[..n][..n - 1] == p.paid[..n - 1];
    }
  }

  predicate NoRepeats(s: seq<int>) { forall i, j :: 0 <= i < j < |s| ==> s[i] != s[j] }

  predicate OnlyThese(s: seq<int>, ds: seq<DebtItem>) {
    forall i :: 0 <= i < |s| ==> s[i] in IdSet(ds)
  }

  lemma {:induction false} MinimumEvents(ds: seq<DebtItem>, n: nat, month: nat, b: Books)
    requires DistinctIds(ds) && n <= |ds| && Covers(b, ds) && b.events == []
    ensures NoRepeats(MinimumsOver(ds, n, month, b).events) && OnlyThese(MinimumsOver(ds, n, month, b).events, ds)
  {
    hide View, MinimumOn, MinimumFor, IdSet;
    if n > 0 {
      MinimumEvents(ds, n - 1, month, b);
      var c := MinimumsOver(ds, n - 1, month, b);
      CoversEach(c, ds, n - 1);
      CoversEach(b, ds, n - 1);
      MinimumNotYet(ds, n - 1, month, b, n - 1);
      EventsOfOne(ds[n - 1], month, c);
    }
  }

  lemma EventsOfOne(d: DebtItem, month: nat, b: Books)
    requires d.accountId in b.state
    ensures MinimumFor(d, month, b).events == b.events || MinimumFor(d, month, b).events == b.events + [d.accountId]
  {
  }

  lemma {:induction false} ExtraEvents(ds: seq<DebtItem>, n: nat, month: nat, b: Books)
    requires n <= |ds| && Covers(b, ds) && NoRepeats(b.events) && OnlyThese(b.events, ds)
    ensures NoRepeats(ExtrasOver(ds, n, month, b).events) && OnlyThese(ExtrasOver(ds, n, month, b).events, ds)
  {
    hide Settle;
    if n > 0 {
      ExtraEvents(ds, n - 1, month, b);
      CoversEach(ExtrasOver(ds, n - 1, month, b), ds, n - 1);
    }
  }

  /** The sum, over the listed accounts, of the amounts the dictionary holds for them. */
  function SumOf(m: map<int, real>, ids: seq<int>): real {
    if ids == [] then 0.0 else
      var id := ids[|ids| - 1];
      SumOf(m, ids[..|ids| - 1]) + if id in m then m[id] else 0.0
  }

  /** The same sum taken in priority order. */
  function SumByPriority(ds: seq<DebtItem>, m: map<int, real>, ids: seq<int>, n: nat): real
    requires n <= |ds|
  {
    if n == 0 then 0.0 else
      var id := ds[n - 1].accountId;
      SumByPriority(ds, m, ids, n - 1) + if id in ids && id in m then m[id] else 0.0
  }

  lemma {:induction false} OneMoreByPriority(ds: seq<DebtItem>, m: map<int, real>, ids: seq<int>, j: nat, n: nat)
    requires DistinctIds(ds) && n <= |ds| && j < |ds| && ds[j].accountId !in ids
    ensures var id := ds[j].accountId;
            SumByPriority(ds, m, ids + [id], n)
            == SumByPriority(ds, m, ids, n) + if j < n && id in m then m[id] else 0.0
  {
    if n > 0 {
      OneMoreByPriority(ds, m, ids, j, n - 1);
    }
  }

  lemma {:induction false} NoneByPriority(ds: seq<DebtItem>, m: map<int, real>, n: nat)
    requires n <= |ds|
    ensures SumByPriority(ds, m, [], n) == 0.0
  {
    if n > 0 {
      NoneByPriority(ds, m, n - 1);
    }
  }

  lemma {:induction false} SumInAnyOrder(ds: seq<DebtItem>, m: map<int, real>, ids: seq<int>)
    requires DistinctIds(ds) && NoRepeats(ids) && OnlyThese(ids, ds)
    ensures SumOf(m, ids) == SumByPriority(ds, m, ids, |ds|)
  {
    if ids == [] {
      NoneByPriority(ds, m, |ds|);
    } else {
      var n := |ids| - 1;
      SumInAnyOrder(ds, m, ids[..n]);
      assert ids[n] in IdSet(ds);
      var j :| 0 <= j < |ds| && ds[j].accountId == ids[n];
      assert ids == ids[..n] + [ids[n]];
      OneMoreByPriority(ds, m, ids[..n], j, |ds|);
    }
  }

  lemma {:induction false} SumIsFreed(ds: seq<DebtItem>, bs: seq<real>, extra: real, m: map<int, real>,
                                      ids: seq<int>, n: nat)
    requires |ds| == |bs| && n <= |ds|
    requires forall k :: 0 <= k < n ==> (ds[k].accountId in ids <==> PaysOff(ds, bs, extra, k))
    requires forall k :: 0 <= k < n && PaysOff(ds, bs, extra, k) ==>
               ds[k].accountId in m && m[ds[k].accountId] == BaseMin(ds[k], Accrued(ds, bs)[k])
    ensures SumByPriority(ds, m, ids, n) == Freed(ds, bs, extra, n)
  {
    hide PaysOff, BaseMin, Accrued;
    if n > 0 {
      SumIsFreed(ds, bs, extra, m, ids, n - 1);
    }
  }

  // ---- the month's books agree with the plan ----

  /** The dictionaries kept from month to month hold what the plan says. */
  ghost predicate Follows(ds: seq<DebtItem>, p: Plan, state: map<int, real>, lastBase: map<int, real>,
                          closedIn: map<int, nat>) {
    && Shaped(ds, p) && Reads(ds, state, p.balances)
    && forall k :: 0 <= k < |ds| ==> AccountFollows(ds[k].accountId, p, lastBase, closedIn, k)
  }

  ghost predicate AccountFollows(id: int, p: Plan, lastBase: map<int, real>, closedIn: map<int, nat>, k: nat)
    requires k < |p.closedIn| && k < |p.lastBase|
  {
    && (id in lastBase ==> lastBase[id] == p.lastBase[k])
    && (id in closedIn <==> p.closedIn[k] > 0) && (id in closedIn ==> closedIn[id] == p.closedIn[k])
  }

  ghost predicate Opens(ds: seq<DebtItem>, p: Plan, b: Books) {
    && Shaped(ds, p) && Reads(ds, b.state, Accrued(ds, p.balances))
    && b.paid == map[] && b.events == [] && b.available == p.extra
    && forall k :: 0 <= k < |ds| ==> AccountFollows(ds[k].accountId, p, b.lastBase, b.closedIn, k)
  }

  function MonthOver(ds: seq<DebtItem>, month: nat, b: Books): (r: Books)
    requires Covers(b, ds)
    ensures Covers(r, ds)
  {
    ExtrasOver(ds, |ds|, month, MinimumsOver(ds, |ds|, month, b))
  }

  lemma OwedAfterMinimums(ds: seq<DebtItem>, p: Plan, month: nat, b: Books)
    requires DistinctIds(ds) && Opens(ds, p, b)
    ensures Reads(ds, MinimumsOver(ds, |ds|, month, b).state, AfterMinimums(ds, p.balances))
  {
    hide MinimumsOver, IdSet, BaseMin;
    var c := MinimumsOver(ds, |ds|, month, b);
    forall k | 0 <= k < |ds|
      ensures ds[k].accountId in c.state && c.state[ds[k].accountId] == AfterMinimums(ds, p.balances)[k]
    {
      ViewAfterMinimums(ds, |ds|, month, b, k);
    }
  }

  lemma AccountAfterMonth(ds: seq<DebtItem>, p: Plan, month: nat, b: Books, k: nat)
    requires DistinctIds(ds) && Opens(ds, p, b) && k < |ds|
    ensures ds[k].accountId in MonthOver(ds, month, b).state
    ensures View(MonthOver(ds, month, b), ds[k].accountId)
         == ExtraOn(month, Remaining(AfterMinimums(ds, p.balances), p.extra, k),
                    MinimumOn(ds[k], month, View(b, ds[k].accountId)))
  {
    hide MinimumsOver, ExtrasOver, View, ExtraOn, MinimumOn, AfterMinimums, Remaining, IdSet;
    OwedAfterMinimums(ds, p, month, b);
    ViewAfterMinimums(ds, |ds|, month, b, k);
    ViewAfterExtras(ds, |ds|, month, MinimumsOver(ds, |ds|, month, b), AfterMinimums(ds, p.balances), k);
  }

  /** One account's month in plain numbers: a is its accrued balance. */
  lemma AccountMonth(d: DebtItem, month: nat, available: real, c: Account)
    requires c.paid.None? && !c.event
    ensures var r := ExtraOn(month, available, MinimumOn(d, month, c));
            var a, min := c.balance, MinimumPaid(d, c.balance);
            var extra := if available > 0.01 && Open(a - min) then Settle(Min(available, a - min), a - min) else 0.0;
            && r.balance == a - min - extra
            && (r.event <==> Open(a) && r.balance == 0.0)
            && r.paid == (if Open(a) then Some(min + extra) else None)
            && r.base == (if Open(a) then Some(BaseMin(d, a)) else c.base)
            && r.closed == (if r.event && c.closed.None? then Some(month) else c.closed)
  {
    hide BaseMin;
  }

  /** What the month's dictionaries hold for the k-th debt, in terms of the plan. */
  lemma MonthOfAccount(ds: seq<DebtItem>, p: Plan, month: nat, b: Books, k: nat)
    requires DistinctIds(ds) && Opens(ds, p, b) && k < |ds|
    ensures var c, id, bs, e := MonthOver(ds, month, b), ds[k].accountId, p.balances, p.extra;
            && id in c.state && c.state[id] == MonthEnd(ds, bs, e)[k]
            && (id in c.events <==> PaysOff(ds, bs, e, k))
            && Get(c.paid, id) == (if Open(Accrued(ds, bs)[k]) then Some(PaidInMonth(ds, bs, e, k)) else None)
            && Get(c.lastBase, id) == (if Open(Accrued(ds, bs)[k]) then Some(BaseMin(ds[k], Accrued(ds, bs)[k]))
                                       else Get(b.lastBase, id))
            && Get(c.closedIn, id) == (if PaysOff(ds, bs, e, k) && id !in b.closedIn then Some(month)
                                       else Get(b.closedIn, id))
  {
    hide MonthOver, ExtraOn, MinimumOn, Remaining, IdSet, BaseMin, Settle, Accrued, MinimumPaid;
    AccountAfterMonth(ds, p, month, b, k);
    var owed := AfterMinimums(ds, p.balances);
    AccountMonth(ds[k], month, Remaining(owed, p.extra, k), View(b, ds[k].accountId));
  }

  /** No other account gets into the books. */
  predicate Within(b: Books, ids: set<int>) {
    b.paid.Keys <= ids && b.closedIn.Keys <= ids
  }

  lemma WithinOne(d: DebtItem, month: nat, b: Books, ids: set<int>)
    requires d.accountId in b.state && d.accountId in ids && Within(b, ids)
    ensures Within(MinimumFor(d, month, b), ids) && Within(ExtraFor(d, month, b), ids)
  {
    hide BaseMin, Settle;
  }

  lemma {:induction false} WithinMinimums(ds: seq<DebtItem>, n: nat, month: nat, b: Books)
    requires n <= |ds| && Covers(b, ds) && Within(b, IdSet(ds))
    ensures Within(MinimumsOver(ds, n, month, b), IdSet(ds))
  {
    hide IdSet, Within, MinimumFor;
    if n > 0 {
      WithinMinimums(ds, n - 1, month, b);
      CoversEach(MinimumsOver(ds, n - 1, month, b), ds, n - 1);
      WithinOne(ds[n - 1], month, MinimumsOver(ds, n - 1, month, b), IdSet(ds));
    }
  }

  lemma {:induction false} WithinExtras(ds: seq<DebtItem>, n: nat, month: nat, b: Books)
    requires n <= |ds| && Covers(b, ds) && Within(b, IdSet(ds))
    ensures Within(ExtrasOver(ds, n, month, b), IdSet(ds))
  {
    hide IdSet, Within, ExtraFor;
    if n > 0 {
      WithinExtras(ds, n - 1, month, b);
      CoversEach(ExtrasOver(ds, n - 1, month, b), ds, n - 1);
      WithinOne(ds[n - 1], month, ExtrasOver(ds, n - 1, month, b), IdSet(ds));
    }
  }

  /** The accounts follow the plan's next state. */
  lemma MonthFollows(ds: seq<DebtItem>, p: Plan, month: nat, b: Books)
    requires DistinctIds(ds) && Opens(ds, p, b) && month > 0
    ensures var c := MonthOver(ds, month, b);
            Follows(ds, Step(ds, p, month), c.state, c.lastBase, c.closedIn)
  {
    hide MonthOver, IdSet, PaysOff, Accrued, BaseMin, Freed, PaidInMonth, MonthEnd, Interest;
    var c, q := MonthOver(ds, month, b), Step(ds, p, month);
    forall k | 0 <= k < |ds|
      ensures ds[k].accountId in c.state && c.state[ds[k].accountId] == q.balances[k]
      ensures AccountFollows(ds[k].accountId, q, c.lastBase, c.closedIn, k)
    {
      MonthOfAccount(ds, p, month, b, k);
      assert AccountFollows(ds[k].accountId, p, b.lastBase, b.closedIn, k);
    }
  }

  /** Every account paid off has a last minimum, and these add up to what the month frees. */
  lemma MonthFrees(ds: seq<DebtItem>, p: Plan, month: nat, b: Books)
    requires DistinctIds(ds) && Opens(ds, p, b)
    ensures var c := MonthOver(ds, month, b);
            && NoRepeats(c.events) && OnlyThese(c.events, ds)
            && (forall i :: 0 <= i < |c.events| ==> c.events[i] in c.lastBase)
            && SumOf(c.lastBase, c.events) == Freed(ds, p.balances, p.extra, |ds|)
  {
    hide MonthEnd, Accrued, BaseMin, ExtrasOver, MinimumsOver, Remaining, Freed, SumOf;
    var c := MonthOver(ds, month, b);
    MinimumEvents(ds, |ds|, month, b);
    ExtraEvents(ds, |ds|, month, MinimumsOver(ds, |ds|, month, b));
    forall k | 0 <= k < |ds|
      ensures ds[k].accountId in c.events <==> PaysOff(ds, p.balances, p.extra, k)
      ensures PaysOff(ds, p.balances, p.extra, k) ==>
                && ds[k].accountId in c.lastBase
                && c.lastBase[ds[k].accountId] == BaseMin(ds[k], Accrued(ds, p.balances)[k])
    {
      MonthOfAccount(ds, p, month, b, k);
    }
    forall i | 0 <= i < |c.events| ensures c.events[i] in c.lastBase {
      assert c.events[i] in IdSet(ds);
      var k :| 0 <= k < |ds| && ds[k].accountId == c.events[i];
      assert PaysOff(ds, p.balances, p.extra, k);
    }
    SumInAnyOrder(ds, c.lastBase, c.events);
    SumIsFreed(ds, p.balances, p.extra, c.lastBase, c.events, |ds|);
  }

  /** The month's payments are what the plan adds to each debt's total. */
  lemma MonthPays(ds: seq<DebtItem>, p: Plan, month: nat, b: Books)
    requires DistinctIds(ds) && Opens(ds, p, b)
    ensures MonthOver(ds, month, b).total == b.total + Sum(Step(ds, p, month).paid) - Sum(p.paid)
  {
    hide IdSet, Step, Accrued, AfterMinimums, MinimumTotal, Remaining, MonthTotal, Sum, MinimumsOver, ExtrasOver;
    var c := MinimumsOver(ds, |ds|, month, b);
    OwedAfterMinimums(ds, p, month, b);
    TotalAfterMinimums(ds, |ds|, month, b, Accrued(ds, p.balances));
    AvailableIsRemaining(ds, |ds|, month, c, AfterMinimums(ds, p.balances));
    MonthTotalSplits(ds, p.balances, p.extra, |ds|);
    PaidGrowsByMonthTotal(ds, p, month, |ds|);
    assert p.paid[..|ds|] == p.paid;
    assert Step(ds, p, month).paid[..|ds|] == Step(ds, p, month).paid;
  }
}
