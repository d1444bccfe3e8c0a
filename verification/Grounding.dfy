/**
 * The grounding decision: every amount in an answer must be near a value the program computed or
 * the user stated.
 */
module Grounding {
  import opened Options
  import opened MoneyText
  import opened MoneyReaders

  const MIN_MAGNITUDE := 100.0
  const REL_TOL := 0.02
  const ABS_TOL := 1.0
  const WEAK_PERCENT := 0.5

  datatype Source = Cockpit | Stated

  /** Why an amount passed: the value it was taken for, where that comes from, and whether it is a weak match. */
  datatype Basis = Basis(amount: real, value: real, source: Source, weak: bool)

  datatype Verdict = Verdict(ok: bool, checked: nat, unverified: seq<real>, untagged: seq<real>, verified: seq<Basis>)

  function Larger(a: real, b: real): real { if a >= b then a else b }

  predicate Near(amount: real, value: real) {
    Abs(amount - value) <= Larger(ABS_TOL, REL_TOL * value)
  }

  predicate Grounded(amount: real, allowed: seq<real>) {
    exists k :: 0 <= k < |allowed| && Near(amount, allowed[k])
  }

  /** The amounts large enough to be checked that no allowed value is near. */
  function Ungrounded(amounts: seq<real>, allowed: seq<real>): seq<real> {
    if amounts == [] then []
    else
      var last := amounts[|amounts| - 1];
      Ungrounded(amounts[..|amounts| - 1], allowed)
        + if last >= MIN_MAGNITUDE && !Grounded(last, allowed) then [last] else []
  }

  function Checked(amounts: seq<real>): nat {
    if amounts == [] then 0
    else Checked(amounts[..|amounts| - 1]) + if amounts[|amounts| - 1] >= MIN_MAGNITUDE then 1 else 0
  }

  predicate WeakMatch(amount: real, value: real) {
    value > 0.0 && Abs(amount - value) / value * 100.0 > WEAK_PERCENT
  }

  /** The basis is a nearest one among those that are near, and the program's own value where it is one. */
  ghost predicate BasisOk(b: Basis, cockpit: seq<real>, allowed: seq<real>) {
    && b.value in allowed && Near(b.amount, b.value)
    && (forall k :: 0 <= k < |allowed| && Near(b.amount, allowed[k]) ==>
         Abs(b.amount - b.value) <= Abs(b.amount - allowed[k]))
    && (b.source == Cockpit <==> b.value in cockpit)
    && (b.weak <==> WeakMatch(b.amount, b.value))
  }

  /** The amounts large enough to be checked that some allowed value is near. */
  function GroundedOnes(amounts: seq<real>, allowed: seq<real>): seq<real> {
    if amounts == [] then []
    else
      var last := amounts[|amounts| - 1];
      GroundedOnes(amounts[..|amounts| - 1], allowed)
        + if last >= MIN_MAGNITUDE && Grounded(last, allowed) then [last] else []
  }

  /** Near means within 1, or within two percent of the value. */
  lemma NearIff(amount: real, value: real)
    ensures Near(amount, value) <==>
      || value - 1.0 <= amount <= value + 1.0
      || value * 0.98 <= amount <= value * 1.02
  {
  }

  /** A match is weak when it is off by more than one part in two hundred of the value. */
  lemma WeakIff(amount: real, value: real)
    requires value > 0.0
    ensures WeakMatch(amount, value) <==> 200.0 * (amount - value) > value || 200.0 * (value - amount) > value
  {
    var off := Abs(amount - value);
    var q := off / value;
    assert q * value == off;
    if q > 0.005 {
      Product(q - 0.005, value);
    } else {
      Product(0.005 - q, value);
    }
  }

  lemma Product(a: real, b: real)
    requires a >= 0.0 && b > 0.0
    ensures a * b >= 0.0 && (a > 0.0 ==> a * b > 0.0)
  {
  }

  lemma CountMore(s: seq<real>, last: real, x: real)
    ensures multiset(s + [last])[x] == multiset(s)[x] + if x == last then 1 else 0
  {
  }

  lemma {:induction false} UngroundedCount(amounts: seq<real>, allowed: seq<real>, x: real)
    ensures multiset(Ungrounded(amounts, allowed))[x]
         == if x >= 100.0 && !Grounded(x, allowed) then multiset(amounts)[x] else 0
  {
    hide Grounded;
    if amounts != [] {
      var rest, last := amounts[..|amounts| - 1], amounts[|amounts| - 1];
      UngroundedCount(rest, allowed, x);
      assert amounts == rest + [last];
      CountMore(rest, last, x);
      if last >= MIN_MAGNITUDE && !Grounded(last, allowed) {
        CountMore(Ungrounded(rest, allowed), last, x);
      } else {
        assert Ungrounded(amounts, allowed) == Ungrounded(rest, allowed);
      }
    }
  }

  lemma {:induction false} GroundedCount(amounts: seq<real>, allowed: seq<real>, x: real)
    ensures multiset(GroundedOnes(amounts, allowed))[x]
         == if x >= 100.0 && Grounded(x, allowed) then multiset(amounts)[x] else 0
  {
    hide Grounded;
    if amounts != [] {
      var rest, last := amounts[..|amounts| - 1], amounts[|amounts| - 1];
      GroundedCount(rest, allowed, x);
      assert amounts == rest + [last];
      CountMore(rest, last, x);
      if last >= MIN_MAGNITUDE && Grounded(last, allowed) {
        CountMore(GroundedOnes(rest, allowed), last, x);
      } else {
        assert GroundedOnes(amounts, allowed) == GroundedOnes(rest, allowed);
      }
    }
  }

  /** Every amount of at least 100 is listed as often as it occurs, on one side; smaller ones are not listed. */
  lemma CheckedIsSplit(amounts: seq<real>, allowed: seq<real>, x: real)
    ensures multiset(GroundedOnes(amounts, allowed))[x]
         == if x >= 100.0 && Grounded(x, allowed) then multiset(amounts)[x] else 0
    ensures multiset(Ungrounded(amounts, allowed))[x]
         == if x >= 100.0 && !Grounded(x, allowed) then multiset(amounts)[x] else 0
  {
    GroundedCount(amounts, allowed, x);
    UngroundedCount(amounts, allowed, x);
  }

  function AmountsOf(bases: seq<Basis>): (r: seq<real>)
    ensures |r| == |bases|
  {
    seq(|bases|, k requires 0 <= k < |bases| => bases[k].amount)
  }

  /** The nearest allowed value within tolerance, whatever order the set is walked in. */
  method Nearest(amount: real, allowed: seq<real>) returns (best: Option<real>)
    ensures best.None? <==> !Grounded(amount, allowed)
    ensures best.Some? ==>
      && best.value in allowed && Near(amount, best.value)
      && forall k :: 0 <= k < |allowed| && Near(amount, allowed[k]) ==>
           Abs(amount - best.value) <= Abs(amount - allowed[k])
  {
    best := None;
    for i := 0 to |allowed|
      invariant best.None? <==> forall k :: 0 <= k < i ==> !Near(amount, allowed[k])
      invariant best.Some? ==>
        && best.value in allowed && Near(amount, best.value)
        && forall k :: 0 <= k < i && Near(amount, allowed[k]) ==>
             Abs(amount - best.value) <= Abs(amount - allowed[k])
    {
      var a := allowed[i];
      if Near(amount, a) && (best.None? || Abs(amount - a) < Abs(amount - best.value)) {
        best := Some(a);
      }
    }
  }

  /** An answer passes exactly when each of its amounts is small or grounded. */
  lemma {:induction false} PassesIff(amounts: seq<real>, allowed: seq<real>)
    ensures Ungrounded(amounts, allowed) == []
      <==> forall k :: 0 <= k < |amounts| ==> amounts[k] < MIN_MAGNITUDE || Grounded(amounts[k], allowed)
  {
    if amounts != [] {
      var n := |amounts| - 1;
      PassesIff(amounts[..n], allowed);
      assert forall k :: 0 <= k < n ==> amounts[..n][k] == amounts[k];
    }
  }

  lemma PassesBoth(tagged: seq<real>, bare: seq<real>, allowed: seq<real>)
    ensures Ungrounded(tagged, allowed) == [] && Ungrounded(bare, allowed) == [] <==>
      forall x :: x in tagged || x in bare ==> x < 100.0 || exists k :: 0 <= k < |allowed| && Near(x, allowed[k])
  {
    hide Near, Ungrounded;
    PassesIff(tagged, allowed);
    PassesIff(bare, allowed);
    if Ungrounded(tagged, allowed) != [] {
      var k :| 0 <= k < |tagged| && !(tagged[k] < MIN_MAGNITUDE || Grounded(tagged[k], allowed));
      assert tagged[k] in tagged;
    } else if Ungrounded(bare, allowed) != [] {
      var k :| 0 <= k < |bare| && !(bare[k] < MIN_MAGNITUDE || Grounded(bare[k], allowed));
      assert bare[k] in bare;
    }
  }

  /** tagged: amounts with a currency name; bare: amounts in money form without one. */
  method Check(tagged: seq<real>, bare: seq<real>, cockpit: seq<real>, stated: seq<real>) returns (v: Verdict)
    requires forall x :: x in cockpit + stated ==> x >= 0.0
    ensures v.unverified == Ungrounded(tagged, cockpit + stated)
    ensures v.untagged == Ungrounded(bare, cockpit + stated)
    ensures v.ok <==> v.unverified == [] && v.untagged == []
    ensures v.ok <==>
      forall x :: x in tagged || x in bare ==>
        x < 100.0 || exists k :: 0 <= k < |cockpit + stated| && Near(x, (cockpit + stated)[k])
    ensures v.checked == Checked(tagged) && |v.verified| + |v.unverified| == v.checked
    ensures AmountsOf(v.verified) == GroundedOnes(tagged, cockpit + stated)
    ensures forall k :: 0 <= k < |v.verified| ==> BasisOk(v.verified[k], cockpit, cockpit + stated)
  {
    hide Near, WeakMatch, Abs;
    var allowed := cockpit + stated;
    var checked: nat, unverified: seq<real>, untagged: seq<real>, verified: seq<Basis> := 0, [], [], [];
    for i := 0 to |tagged|
      invariant unverified == Ungrounded(tagged[..i], allowed)
      invariant checked == Checked(tagged[..i]) && |verified| + |unverified| == checked
      invariant AmountsOf(verified) == GroundedOnes(tagged[..i], allowed)
      invariant forall k :: 0 <= k < |verified| ==> BasisOk(verified[k], cockpit, allowed)
    {
      assert tagged[..i + 1][..i] == tagged[..i];
      if tagged[i] >= MIN_MAGNITUDE {
        checked := checked + 1;
        var best := Nearest(tagged[i], allowed);
        match best {
          case None =>
            unverified := unverified + [tagged[i]];
          case Some(value) =>
            var source := if value in cockpit then Cockpit else Stated;
            var basis := Basis(tagged[i], value, source, WeakMatch(tagged[i], value));
            assert AmountsOf(verified + [basis]) == AmountsOf(verified) + [tagged[i]];
            verified := verified + [basis];
        }
      }
    }
    for i := 0 to |bare|
      invariant untagged == Ungrounded(bare[..i], allowed)
    {
      assert bare[..i + 1][..i] == bare[..i];
      if bare[i] >= MIN_MAGNITUDE {
        var best := Nearest(bare[i], allowed);
        if best.None? {
          untagged := untagged + [bare[i]];
        }
      }
    }
    assert tagged[..|tagged|] == tagged && bare[..|bare|] == bare;
    PassesBoth(tagged, bare, allowed);
    v := Verdict(unverified == [] && untagged == [], checked, unverified, untagged, verified);
  }

  /** More evidence never turns a pass into a failure. */
  lemma MoreEvidenceNeverHurts(amounts: seq<real>, allowed: seq<real>, more: seq<real>)
    requires Ungrounded(amounts, allowed) == []
    ensures Ungrounded(amounts, allowed + more) == []
  {
    PassesIff(amounts, allowed);
    PassesIff(amounts, allowed + more);
    forall k | 0 <= k < |amounts|
      ensures amounts[k] < MIN_MAGNITUDE || Grounded(amounts[k], allowed + more)
    {
      if Grounded(amounts[k], allowed) {
        var i :| 0 <= i < |allowed| && Near(amounts[k], allowed[i]);
        assert (allowed + more)[i] == allowed[i];
      }
    }
  }

  /** Whatever basis the check picks for an allowed value is that value itself, never a weak match. */
  lemma ExactBasis(x: real, cockpit: seq<real>, stated: seq<real>, b: Basis)
    requires x in cockpit + stated && b.amount == x && BasisOk(b, cockpit, cockpit + stated)
    ensures b.value == x && !b.weak && (b.source == Cockpit <==> x in cockpit)
  {
  }

  /** An allowed value that is printed and read back passes, and as itself. */
  lemma PrintedValuePasses(n: nat, d: nat, rest: string, cockpit: seq<real>, stated: seq<real>)
    requires Ends(rest, d) && Amount(n, d) in cockpit + stated
    ensures var text := Turkish(n, d) + rest;
            var read := ToFloat(text[..Matched(text)]);
            read == Some(Amount(n, d)) && Grounded(read.value, cockpit + stated)
  {
    hide Turkish, Matched, ToFloat, Amount, Ends;
    GroundingReadsBack(n, d, rest);
    var x, allowed := Amount(n, d), cockpit + stated;
    var k :| 0 <= k < |allowed| && allowed[k] == x;
    assert Near(x, allowed[k]);
  }
}
