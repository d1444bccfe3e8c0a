/** One month of the debt payoff simulation, and its iteration.

    Debts are listed in priority order; money is an exact real. The imperative simulator
    (module DebtSimulator) is proved equal to the functions of this module. */
module DebtPlan {

  datatype AccountType = CreditCard | Loan

  datatype DebtItem = DebtItem(
    accountId: int,
    accountType: AccountType,
    balance: real,
    monthlyRate: real,  // percent a month
    minPayment: real,
    minRatio: real)     // a card's minimum as a share of its balance

  const CARD_MINIMUM := 50.0
  const MAX_MONTHS := 600

  function Min(a: real, b: real): real { if a <= b then a else b }

  function Max(a: real, b: real): real { if a >= b then a else b }

  /** A balance the simulation still works on. Exactly one cent is not open. */
  predicate Open(b: real) { b > 0.01 }

  function Interest(d: DebtItem, b: real): real {
    if Open(b) then b * (d.monthlyRate / 100.0) else 0.0
  }

  /** The minimum due on an accrued balance: recomputed for a card, fixed for a loan. */
  function BaseMin(d: DebtItem, accrued: real): real {
    match d.accountType
    case CreditCard => Max(accrued * d.minRatio, CARD_MINIMUM)
    case Loan => d.minPayment
  }

  /** A payment that would leave less than one cent takes the whole balance. */
  function Settle(amount: real, b: real): real {
    if b - amount < 0.01 then b else amount
  }

  function MinimumPaid(d: DebtItem, accrued: real): real {
    if Open(accrued) then Settle(Min(BaseMin(d, accrued), accrued), accrued) else 0.0
  }

  // ---- the three phases of a month, on balances in priority order ----

  function Accrued(ds: seq<DebtItem>, bs: seq<real>): (r: seq<real>)
    requires |ds| == |bs|
    ensures |r| == |ds|
  {
    seq(|ds|, k requires 0 <= k < |ds| => bs[k] + Interest(ds[k], bs[k]))
  }

  function AfterMinimums(ds: seq<DebtItem>, bs: seq<real>): (r: seq<real>)
    requires |ds| == |bs|
    ensures |r| == |ds|
  {
    var a := Accrued(ds, bs);
    seq(|ds|, k requires 0 <= k < |ds| => a[k] - MinimumPaid(ds[k], a[k]))
  }

  /** Extra money still unspent when the k-th debt in priority is reached. */
  function Remaining(owed: seq<real>, extra: real, k: nat): real
    requires k <= |owed|
    decreases k, 0
  {
    if k == 0 then extra else Remaining(owed, extra, k - 1) - ExtraPaid(owed, extra, k - 1)
  }

  function ExtraPaid(owed: seq<real>, extra: real, k: nat): real
    requires k < |owed|
    decreases k, 1
  {
    var available := Remaining(owed, extra, k);
    if available > 0.01 && Open(owed[k]) then Settle(Min(available, owed[k]), owed[k]) else 0.0
  }

  function MonthEnd(ds: seq<DebtItem>, bs: seq<real>, extra: real): (r: seq<real>)
    requires |ds| == |bs|
    ensures |r| == |ds|
  {
    var owed := AfterMinimums(ds, bs);
    seq(|ds|, k requires 0 <= k < |ds| => owed[k] - ExtraPaid(owed, extra, k))
  }

  function PaidInMonth(ds: seq<DebtItem>, bs: seq<real>, extra: real, k: nat): real
    requires |ds| == |bs| && k < |ds|
  {
    MinimumPaid(ds[k], Accrued(ds, bs)[k]) + ExtraPaid(AfterMinimums(ds, bs), extra, k)
  }

  /** The k-th debt is paid off in this month. */
  predicate PaysOff(ds: seq<DebtItem>, bs: seq<real>, extra: real, k: nat)
    requires |ds| == |bs| && k < |ds|
  {
    Open(Accrued(ds, bs)[k]) && MonthEnd(ds, bs, extra)[k] == 0.0
  }

  /** Minimums freed by the first n debts, as far as they are paid off in this month. */
  function Freed(ds: seq<DebtItem>, bs: seq<real>, extra: real, n: nat): real
    requires |ds| == |bs| && n <= |ds|
  {
    if n == 0 then 0.0 else
      Freed(ds, bs, extra, n - 1) +
      if PaysOff(ds, bs, extra, n - 1) then BaseMin(ds[n - 1], Accrued(ds, bs)[n - 1]) else 0.0
  }

  // ---- the run ----

  /** State at a month end. closedIn[k] is the month the k-th debt was first paid off, 0 if never;
      lastBase[k] is the minimum last asked of it, 0.0 if none was. */
  datatype Plan = Plan(
    balances: seq<real>,
    extra: real,
    interest: seq<real>,  // accrued so far, per debt
    paid: seq<real>,      // paid so far, per debt
    closedIn: seq<nat>,
    lastBase: seq<real>)

  ghost predicate Shaped(ds: seq<DebtItem>, p: Plan) {
    |p.balances| == |p.interest| == |p.paid| == |p.closedIn| == |p.lastBase| == |ds|
  }

  function Initial(ds: seq<DebtItem>, extra: real): (p: Plan)
    ensures Shaped(ds, p)
  {
    Plan(seq(|ds|, k requires 0 <= k < |ds| => ds[k].balance), extra,
         seq(|ds|, _ => 0.0), seq(|ds|, _ => 0.0), seq(|ds|, _ => 0), seq(|ds|, _ => 0.0))
  }

  function Step(ds: seq<DebtItem>, p: Plan, month: nat): (q: Plan)
    requires Shaped(ds, p)
    ensures Shaped(ds, q)
  {
    var bs, e := p.balances, p.extra;
    Plan(
      MonthEnd(ds, bs, e),
      e + Freed(ds, bs, e, |ds|),
      seq(|ds|, k requires 0 <= k < |ds| => p.interest[k] + Interest(ds[k], bs[k])),
      seq(|ds|, k requires 0 <= k < |ds| => p.paid[k] + PaidInMonth(ds, bs, e, k)),
      seq(|ds|, k requires 0 <= k < |ds| =>
        if PaysOff(ds, bs, e, k) && p.closedIn[k] == 0 then month else p.closedIn[k]),
      seq(|ds|, k requires 0 <= k < |ds| =>
        var a := Accrued(ds, bs)[k];
        if Open(a) then BaseMin(ds[k], a) else p.lastBase[k]))
  }

  /** The plan at the end of month n, months counted from 1. */
  function After(ds: seq<DebtItem>, extra: real, n: nat): (p: Plan)
    ensures Shaped(ds, p)
  {
    if n == 0 then Initial(ds, extra) else Step(ds, After(ds, extra, n - 1), n)
  }

  predicate Done(bs: seq<real>) {
    forall k :: 0 <= k < |bs| ==> !Open(bs[k])
  }

  /** The simulation runs month after month until nothing is open, at most 600 months. */
  function MonthsFrom(ds: seq<DebtItem>, extra: real, n: nat): (m: nat)
    requires n <= MAX_MONTHS
    ensures n <= m <= MAX_MONTHS
    ensures m < MAX_MONTHS ==> Done(After(ds, extra, m).balances)
    ensures forall j :: n <= j < m ==> !Done(After(ds, extra, j).balances)
    decreases MAX_MONTHS - n
  {
    if Done(After(ds, extra, n).balances) || n == MAX_MONTHS then n
    else MonthsFrom(ds, extra, n + 1)
  }

  function Months(ds: seq<DebtItem>, extra: real): (m: nat)
    ensures m <= MAX_MONTHS
    ensures m < MAX_MONTHS ==> Done(After(ds, extra, m).balances)
    ensures forall j :: 0 <= j < m ==> !Done(After(ds, extra, j).balances)
  {
    MonthsFrom(ds, extra, 0)
  }

  /** The run's length is the first month end with nothing open, or the cap. */
  lemma MonthsUnique(ds: seq<DebtItem>, extra: real, m: nat)
    requires m <= MAX_MONTHS && (m < MAX_MONTHS ==> Done(After(ds, extra, m).balances))
    requires forall j :: 0 <= j < m ==> !Done(After(ds, extra, j).balances)
    ensures Months(ds, extra) == m
  {
  }

  /** Sums over a sequence of amounts. */
  function Sum(s: seq<real>): real {
    if s == [] then 0.0 else Sum(s[..|s| - 1]) + s[|s| - 1]
  }

  /** What the lenders' data guarantees: no negative rate or minimum. */
  predicate Sane(ds: seq<DebtItem>) {
    forall k :: 0 <= k < |ds| ==>
      && ds[k].monthlyRate >= 0.0
      && ds[k].balance > 0.0
      && (ds[k].accountType == Loan ==> ds[k].minPayment > 0.0)
      && (ds[k].accountType == CreditCard ==> 0.0 < ds[k].minRatio <= 1.0)
  }
}
