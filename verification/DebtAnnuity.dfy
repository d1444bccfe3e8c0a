/** The closed annuity formula agrees with the month-by-month simulation. */
module DebtAnnuity {
  import opened DebtPlan
  import opened DebtLedger

  function Pow(x: real, n: nat): real {
    if n == 0 then 1.0 else x * Pow(x, n - 1)
  }

  lemma {:induction false} PowAtLeastOne(x: real, n: nat)
    requires x >= 1.0
    ensures Pow(x, n) >= 1.0 && (x > 1.0 && n > 0 ==> Pow(x, n) > 1.0)
  {
    if n > 0 {
      PowAtLeastOne(x, n - 1);
      assert (x - 1.0) * (Pow(x, n - 1) - 1.0) >= 0.0;
      assert (x - 1.0) * (Pow(x, n - 1) - 1.0) == Pow(x, n) - x - Pow(x, n - 1) + 1.0;
    }
  }

  const NEGLIGIBLE_RATE := 0.000001

  function Instalment(principal: real, r: real, factor: real): real
    requires factor > 1.0
  {
    principal * r * factor / (factor - 1.0)
  }

  lemma InstalmentTimes(principal: real, r: real, factor: real)
    requires factor > 1.0
    ensures Instalment(principal, r, factor) * (factor - 1.0) == principal * r * factor
    ensures principal > 0.0 && r > 0.0 ==> Instalment(principal, r, factor) > 0.0
  {
    var x := principal * r * factor;
    DivideBack(x, factor - 1.0);
    if principal > 0.0 && r > 0.0 {
      assert principal * r > 0.0;
      assert x > 0.0;
      assert x / (factor - 1.0) > 0.0;
    }
  }

  /** The fixed instalment that repays `principal` in `term` months. */
  function AnnuityPayment(principal: real, monthlyRate: real, term: int): (p: real)
    ensures term <= 0 ==> p == principal
  {
    if term <= 0 then principal
    else if monthlyRate <= NEGLIGIBLE_RATE then principal / term as real
    else
      var r := monthlyRate / 100.0;
      var factor := Pow(1.0 + r, term);
      PowAtLeastOne(1.0 + r, term);
      Instalment(principal, r, factor)
  }

  /** What a loan of instalment p owes with j instalments to go. */
  function Owed(p: real, r: real, j: nat): real
    requires r >= 0.0
  {
    if j == 0 then 0.0 else (Owed(p, r, j - 1) + p) / (1.0 + r)
  }

  lemma DivideBack(x: real, y: real)
    requires y > 0.0
    ensures x / y * y == x
  {
  }

  lemma OwedStep(p: real, r: real, j: nat)
    requires r >= 0.0 && j > 0
    ensures Owed(p, r, j) * (1.0 + r) == Owed(p, r, j - 1) + p
  {
    DivideBack(Owed(p, r, j - 1) + p, 1.0 + r);
  }

  /** One step of the closed form, on plain numbers: g is f compounded once more. */
  lemma ClosedFormStep(before: real, o: real, p: real, r: real, f: real, g: real)
    requires before * r * f == p * (f - 1.0)
    requires o * (1.0 + r) == before + p
    requires g == (1.0 + r) * f
    ensures o * r * g == p * (g - 1.0)
  {
    calc {
      o * r * g;
      (o * (1.0 + r)) * (r * f);
      (before + p) * (r * f);
      before * r * f + p * r * f;
      p * (f - 1.0) + p * r * f;
      p * (g - 1.0);
    }
  }

  lemma {:induction false} OwedClosedForm(p: real, r: real, j: nat)
    requires r >= 0.0
    ensures Owed(p, r, j) * r * Pow(1.0 + r, j) == p * (Pow(1.0 + r, j) - 1.0)
  {
    if j > 0 {
      OwedClosedForm(p, r, j - 1);
      OwedStep(p, r, j);
      ClosedFormStep(Owed(p, r, j - 1), Owed(p, r, j), p, r, Pow(1.0 + r, j - 1), Pow(1.0 + r, j));
    }
  }

  lemma {:induction false} OwedWithoutInterest(p: real, j: nat)
    ensures Owed(p, 0.0, j) == j as real * p
  {
    if j > 0 {
      OwedWithoutInterest(p, j - 1);
    }
  }

  predicate ExactRate(monthlyRate: real) { monthlyRate == 0.0 || monthlyRate > NEGLIGIBLE_RATE }

  /** The annuity instalment is the one under which the whole term is owed at the start. */
  lemma InstalmentRepaysPrincipal(principal: real, monthlyRate: real, term: nat)
    requires ExactRate(monthlyRate) && term > 0
    ensures Owed(AnnuityPayment(principal, monthlyRate, term), monthlyRate / 100.0, term) == principal
  {
    var p, r := AnnuityPayment(principal, monthlyRate, term), monthlyRate / 100.0;
    hide Instalment, Owed, Pow;
    if monthlyRate == 0.0 {
      OwedWithoutInterest(p, term);
      DivideBack(principal, term as real);
    } else {
      RepaidAtRate(principal, r, term);
    }
  }

  lemma RepaidAtRate(principal: real, r: real, term: nat)
    requires r > 0.0 && term > 0
    ensures Pow(1.0 + r, term) > 1.0
    ensures Owed(Instalment(principal, r, Pow(1.0 + r, term)), r, term) == principal
  {
    hide Instalment, Owed, Pow;
    var f := Pow(1.0 + r, term);
    PowAtLeastOne(1.0 + r, term);
    var p := Instalment(principal, r, f);
    InstalmentTimes(principal, r, f);
    OwedClosedForm(p, r, term);
    EqualByClosedForm(Owed(p, r, term), principal, p, r, f);
  }

  lemma EqualByClosedForm(x: real, y: real, p: real, r: real, f: real)
    requires r > 0.0 && f > 0.0
    requires x * r * f == p * (f - 1.0)
    requires p * (f - 1.0) == y * r * f
    ensures x == y
  {
    var rf := r * f;
    assert rf > 0.0;
    assert x * rf == x * r * f && y * rf == y * r * f;
    DivideOut(x, y, rf);
  }

  lemma DivideOut(x: real, y: real, z: real)
    requires z > 0.0 && x * z == y * z
    ensures x == y
  {
    assert (x - y) * z == 0.0;
  }

  lemma DivideMonotone(x: real, y: real, z: real)
    requires z > 0.0 && x <= y
    ensures x / z <= y / z
  {
    assert (y - x) / z >= 0.0;
    assert y / z - x / z == (y - x) / z;
  }

  /** With any instalment to go, at least the last one's present value is owed. */
  lemma {:induction false} OwedAtLeastLast(p: real, r: real, j: nat)
    requires r >= 0.0 && p > 0.0
    ensures j > 0 ==> Owed(p, r, j) >= Owed(p, r, 1) > 0.0
    ensures Owed(p, r, j) >= 0.0
  {
    if j > 0 {
      OwedAtLeastLast(p, r, j - 1);
      DivideMonotone(p, Owed(p, r, j - 1) + p, 1.0 + r);
      assert Owed(p, r, 1) == p / (1.0 + r);
    }
  }

  // ---- the simulation of one loan ----

  lemma MonthOfOne(d: DebtItem, b: real, extra: real)
    requires d.accountType == Loan && Open(b) && d.monthlyRate >= 0.0 && d.minPayment > 0.0
    ensures var left := b * (1.0 + d.monthlyRate / 100.0) - d.minPayment;
            var end := MonthEnd([d], [b], extra)[0];
            && end <= Max(left, 0.0)
            && (extra == 0.0 && left >= 0.01 ==> end == left)
            && (left < 0.01 ==> end == 0.0)
            && (left == 0.0 ==> PaidInMonth([d], [b], extra, 0) == d.minPayment)
            && (extra == 0.0 && left >= 0.01 ==> PaidInMonth([d], [b], extra, 0) == d.minPayment)
    ensures extra == 0.0 && MonthEnd([d], [b], extra)[0] != 0.0 ==> Freed([d], [b], extra, 1) == 0.0
  {
    var r := d.monthlyRate / 100.0;
    assert b * r >= 0.0;
    assert b * (1.0 + r) == b + b * r;
    var a := Accrued([d], [b])[0];
    assert a == b * (1.0 + r);
    var owed := AfterMinimums([d], [b]);
    assert Remaining(owed, extra, 0) == extra;
  }

  /** A month that meets the schedule: o is owed before it, o * (1 + r) - instalment after it. */
  lemma StepOfOne(d: DebtItem, p: Plan, month: nat, left: real)
    requires d.accountType == Loan && d.monthlyRate >= 0.0 && d.minPayment > 0.0
    requires Shaped([d], p) && Open(p.balances[0]) && p.extra == 0.0
    requires left == p.balances[0] * (1.0 + d.monthlyRate / 100.0) - d.minPayment
    requires left == 0.0 || left > 0.01
    ensures var q := Step([d], p, month);
            && q.balances == [left] && q.paid == [p.paid[0] + d.minPayment]
            && (left > 0.01 ==> q.extra == 0.0)
  {
    hide MonthEnd, Freed, PaysOff, PaidInMonth, Accrued, Interest, BaseMin;
    assert [p.balances[0]] == p.balances;
    MonthOfOne(d, p.balances[0], p.extra);
    var q := Step([d], p, month);
    assert q.balances == MonthEnd([d], p.balances, p.extra);
    assert q.balances[0] == left && q.paid[0] == p.paid[0] + d.minPayment;
  }

  /** The k-th month end owes exactly what the remaining instalments are worth. */
  lemma {:induction false} OnSchedule(d: DebtItem, n: nat, k: nat)
    requires d.accountType == Loan && d.monthlyRate >= 0.0 && d.minPayment > 0.0
    requires var r := d.monthlyRate / 100.0;
             d.balance == Owed(d.minPayment, r, n) && Owed(d.minPayment, r, 1) > 0.01
    requires k <= n
    ensures After([d], 0.0, k).balances == [Owed(d.minPayment, d.monthlyRate / 100.0, n - k)]
    ensures |After([d], 0.0, k).paid| == 1 && After([d], 0.0, k).paid[0] == k as real * d.minPayment
    ensures k < n ==> After([d], 0.0, k).extra == 0.0 && Open(After([d], 0.0, k).balances[0])
  {
    hide Step, Owed;
    var p, r := d.minPayment, d.monthlyRate / 100.0;
    OwedAtLeastLast(p, r, n - k);
    if k > 0 {
      OnSchedule(d, n, k - 1);
      OwedStep(p, r, n - k + 1);
      OwedNone(p, r);
      StepOfOne(d, After([d], 0.0, k - 1), k, Owed(p, r, n - k));
      OneMore(k, p);
      assert After([d], 0.0, k) == Step([d], After([d], 0.0, k - 1), k);
      assert After([d], 0.0, k).paid[0] == After([d], 0.0, k - 1).paid[0] + p;
    } else {
      assert After([d], 0.0, 0).paid == [0.0];
      assert 0 as real * p == 0.0;
    }
  }

  lemma OneMore(k: nat, p: real)
    requires k > 0
    ensures k as real * p == (k - 1) as real * p + p
  {
    assert k as real == (k - 1) as real + 1.0;
  }

  lemma OwedNone(p: real, r: real)
    requires r >= 0.0
    ensures Owed(p, r, 0) == 0.0
  {
  }

  /** Snapping small remainders never leaves more than the schedule. */
  lemma {:induction false} AtMostSchedule(d: DebtItem, n: nat, k: nat)
    requires d.accountType == Loan && d.monthlyRate >= 0.0 && d.minPayment > 0.0 && k <= n
    requires d.balance == Owed(d.minPayment, d.monthlyRate / 100.0, n)
    ensures var b := After([d], 0.0, k).balances[0];
            !Open(b) || b <= Owed(d.minPayment, d.monthlyRate / 100.0, n - k)
  {
    hide MonthEnd, Freed, PaysOff, PaidInMonth, Accrued, Interest, BaseMin, Owed;
    if k > 0 {
      AtMostSchedule(d, n, k - 1);
      var p, r := d.minPayment, d.monthlyRate / 100.0;
      var q := After([d], 0.0, k - 1);
      var b, o := q.balances[0], Owed(p, r, n - k + 1);
      assert [b] == q.balances;
      if Open(b) {
        MonthOfOne(d, b, q.extra);
        OwedStep(p, r, n - k + 1);
        OwedAtLeastLast(p, r, n - k);
        ScaledUp(b, o, 1.0 + r);
      } else {
        ClosedMonth(d, b, q.extra);
      }
    }
  }

  lemma ScaledUp(x: real, y: real, z: real)
    requires x <= y && z >= 0.0
    ensures x * z <= y * z
  {
    assert (y - x) * z >= 0.0;
    assert (y - x) * z == y * z - x * z;
  }

  lemma ClosedMonth(d: DebtItem, b: real, extra: real)
    requires !Open(b)
    ensures MonthEnd([d], [b], extra)[0] == b
  {
  }

  predicate AnnuityLoan(d: DebtItem, n: nat) {
    && d.accountType == Loan && d.balance > 0.0 && ExactRate(d.monthlyRate) && n > 0
    && d.minPayment == AnnuityPayment(d.balance, d.monthlyRate, n)
  }

  lemma InstalmentPositive(principal: real, monthlyRate: real, n: nat)
    requires principal > 0.0 && monthlyRate >= 0.0 && n > 0
    ensures AnnuityPayment(principal, monthlyRate, n) > 0.0
  {
    if monthlyRate > NEGLIGIBLE_RATE {
      var r := monthlyRate / 100.0;
      var f := Pow(1.0 + r, n);
      PowAtLeastOne(1.0 + r, n);
      InstalmentTimes(principal, r, f);
    }
  }

  /** One loan at its annuity instalment, no extra money, a term within the cap: the run takes
      exactly the term, ends at zero and costs term times instalment less the principal, if and
      only if the last instalment's present value is more than a cent. */
  lemma AnnuityAgreesWithSimulation(d: DebtItem, n: nat)
    requires AnnuityLoan(d, n) && n <= MAX_MONTHS
    ensures (&& Months([d], 0.0) == n
             && After([d], 0.0, n).balances == [0.0]
             && After([d], 0.0, n).interest == [n as real * d.minPayment - d.balance])
       <==> d.minPayment / (1.0 + d.monthlyRate / 100.0) > 0.01
  {
    hide After, Owed, Months;
    var p, r := d.minPayment, d.monthlyRate / 100.0;
    InstalmentPositive(d.balance, d.monthlyRate, n);
    InstalmentRepaysPrincipal(d.balance, d.monthlyRate, n);
    LastValue(p, r);
    if p / (1.0 + r) > 0.01 {
      FullTerm(d, n);
    } else {
      AtMostSchedule(d, n, n - 1);
      var left := After([d], 0.0, n - 1).balances;
      assert !Open(left[0]) && Done(left);
    }
  }

  lemma LastValue(p: real, r: real)
    requires r >= 0.0
    ensures Owed(p, r, 1) == p / (1.0 + r)
  {
    OwedNone(p, r);
  }

  lemma FullTerm(d: DebtItem, n: nat)
    requires d.accountType == Loan && d.monthlyRate >= 0.0 && d.minPayment > 0.0 && n <= MAX_MONTHS
    requires var r := d.monthlyRate / 100.0;
             d.balance == Owed(d.minPayment, r, n) && Owed(d.minPayment, r, 1) > 0.01
    ensures Months([d], 0.0) == n
    ensures After([d], 0.0, n).balances == [0.0]
    ensures After([d], 0.0, n).interest == [n as real * d.minPayment - d.balance]
  {
    hide After, Owed;
    forall k | 0 <= k < n ensures !Done(After([d], 0.0, k).balances) {
      OnSchedule(d, n, k);
    }
    OnSchedule(d, n, n);
    OwedNone(d.minPayment, d.monthlyRate / 100.0);
    EachDebtConserved([d], 0.0, n, 0);
    MonthsUnique([d], 0.0, n);
  }

  /** A longer term than the cap is cut off with the rest of the schedule still owed. */
  lemma LongTermHitsCap(d: DebtItem, n: nat)
    requires AnnuityLoan(d, n) && n > MAX_MONTHS
    requires d.minPayment / (1.0 + d.monthlyRate / 100.0) > 0.01
    ensures Months([d], 0.0) == MAX_MONTHS
    ensures var left := After([d], 0.0, MAX_MONTHS).balances;
            left == [Owed(d.minPayment, d.monthlyRate / 100.0, n - MAX_MONTHS)] && Open(left[0])
  {
    hide After, Owed;
    InstalmentPositive(d.balance, d.monthlyRate, n);
    InstalmentRepaysPrincipal(d.balance, d.monthlyRate, n);
    LastValue(d.minPayment, d.monthlyRate / 100.0);
    forall k | 0 <= k <= MAX_MONTHS ensures !Done(After([d], 0.0, k).balances) {
      OnSchedule(d, n, k);
    }
    OnSchedule(d, n, MAX_MONTHS);
    MonthsUnique([d], 0.0, MAX_MONTHS);
  }

  /** Below the negligible rate the formula ignores an interest the simulation still charges. */
  lemma {:induction false} NegligibleRateStillAccrues(d: DebtItem, n: nat)
    requires d.accountType == Loan && d.balance > 0.01 && 0.0 < d.monthlyRate <= NEGLIGIBLE_RATE && n > 0
    requires d.minPayment == AnnuityPayment(d.balance, d.monthlyRate, n)
    ensures After([d], 0.0, n).interest[0] > n as real * d.minPayment - d.balance == 0.0
  {
    hide MonthEnd, Freed, PaysOff, PaidInMonth, Accrued, BaseMin;
    DivideBack(d.balance, n as real);
    FirstInterest(d, n);
  }

  lemma {:induction false} FirstInterest(d: DebtItem, n: nat)
    requires d.balance > 0.01 && d.monthlyRate > 0.0 && n > 0
    ensures After([d], 0.0, n).interest[0] > 0.0
  {
    hide MonthEnd, Freed, PaysOff, PaidInMonth, Accrued, BaseMin;
    if n > 1 {
      FirstInterest(d, n - 1);
      var b := After([d], 0.0, n - 1).balances[0];
      assert Open(b) ==> b * (d.monthlyRate / 100.0) >= 0.0;
    } else {
      assert After([d], 0.0, 0).balances[0] == d.balance;
      assert d.balance * (d.monthlyRate / 100.0) > 0.0;
    }
  }
}
