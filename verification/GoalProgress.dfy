/** How far a savings goal is, in hundredths of a percent, and when it counts as achieved. */
module GoalProgress {

  /** n / d rounded to the nearest whole number, ties to the even one. */
  function RoundHalfEven(n: nat, d: nat): nat
    requires d > 0
  {
    var f, r := n / d, n % d;
    if 2 * r < d || (2 * r == d && f % 2 == 0) then f else f + 1
  }

  /** n / d rounded to the nearest whole number, ties up. */
  function RoundHalfUp(n: nat, d: nat): nat
    requires d > 0
  {
    (2 * n + d) / (2 * d)
  }

  /** Nearest, and of two as near the even one. */
  lemma HalfEvenIsNear(n: nat, d: nat)
    requires d > 0
    ensures var q := RoundHalfEven(n, d);
            && 2 * n - d <= 2 * (d * q) <= 2 * n + d
            && (2 * (d * q) == 2 * n - d || 2 * (d * q) == 2 * n + d ==> q % 2 == 0)
  {
    var f, r := n / d, n % d;
    assert n == d * f + r;
    assert d * (f + 1) == d * f + d;
  }

  /** Nearest, and of two as near the upper one. */
  lemma HalfUpIsNear(n: nat, d: nat)
    requires d > 0
    ensures 2 * n - d < 2 * d * RoundHalfUp(n, d) <= 2 * n + d
  {
    var q := RoundHalfUp(n, d);
    assert 2 * n + d == 2 * d * q + (2 * n + d) % (2 * d);
  }

  /** Saved over target, held within 0 and 100 percent, to two decimals. */
  function Progress(saved: int, target: nat): (p: nat)
    ensures p <= 10000
  {
    if target == 0 || saved <= 0 then 0
    else if saved >= target then 10000
    else
      Below(saved, target);
      RoundHalfEven(saved * 10000, target)
  }

  /** Between nothing and all of it, progress is the share in hundredths of a percent, to the nearest. */
  lemma ProgressIsNear(saved: int, target: nat)
    ensures target == 0 || saved <= 0 ==> Progress(saved, target) == 0
    ensures 0 < target <= saved ==> Progress(saved, target) == 10000
    ensures 0 < saved < target ==>
      20000 * saved - target <= 2 * (target * Progress(saved, target)) <= 20000 * saved + target
  {
    if 0 < saved < target {
      HalfEvenIsNear(saved * 10000, target);
    }
  }

  lemma Below(saved: nat, target: nat)
    requires saved < target
    ensures RoundHalfEven(saved * 10000, target) <= 10000
  {
    var n := saved * 10000;
    DivisionUnder(n, target, 10000);
  }

  lemma DivisionUnder(n: nat, d: nat, q: nat)
    requires d > 0 && n < d * q
    ensures n / d < q
  {
    if n / d >= q {
      Times(d, q, n / d);
    }
  }

  lemma Times(d: nat, q: nat, f: nat)
    requires q <= f
    ensures d * q <= d * f
  {
  }

  /** A goal reads 100 percent from 99.995 percent of its target on, the tie included. */
  lemma FullFrom(saved: int, target: nat)
    ensures Progress(saved, target) == 10000 <==> target > 0 && 20000 * saved >= 19999 * target
  {
    if target > 0 && 0 < saved < target {
      var n := saved * 10000;
      var f, r := n / target, n % target;
      DivisionUnder(n, target, 10000);
      if f == 9999 {
        assert n == 9999 * target + r;
      } else {
        Times(target, f + 1, 9999);
        assert n < target * (f + 1);
      }
    }
  }

  /** More saved never shows as less progress. */
  lemma ProgressGrows(a: int, b: int, target: nat)
    requires a <= b
    ensures Progress(a, target) <= Progress(b, target)
  {
    if target > 0 && 0 < a && b < target {
      HalfEvenGrows(a * 10000, b * 10000, target);
    }
  }

  lemma HalfEvenGrows(m: nat, n: nat, d: nat)
    requires d > 0 && m <= n
    ensures RoundHalfEven(m, d) <= RoundHalfEven(n, d)
  {
    var f, r, g, q := m / d, m % d, n / d, n % d;
    QuotientsOrder(m, n, d, f, r, g, q);
  }

  lemma QuotientsOrder(m: nat, n: nat, d: nat, f: nat, r: nat, g: nat, q: nat)
    requires m <= n && m == d * f + r && n == d * g + q && r < d && q < d
    ensures f < g || (f == g && r <= q)
  {
    if g < f {
      Times(d, g + 1, f);
    }
  }
}
