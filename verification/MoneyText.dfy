/** Decimal numerals, and the Turkish form in which every amount is written. */
module MoneyText {
  import opened Options

  // ---- Numerals ----

  predicate Digit(c: char) { '0' <= c <= '9' }

  predicate AllDigits(s: string) {
    forall k :: 0 <= k < |s| ==> Digit(s[k])
  }

  function Value(c: char): (n: nat)
    requires Digit(c)
    ensures n <= 9
  {
    (c - '0') as nat
  }

  function Figure(n: nat): (c: char)
    requires n <= 9
    ensures Digit(c) && Value(c) == n
  {
    '0' + (n as char)
  }

  function Number(s: string): nat
    requires AllDigits(s)
  {
    if s == "" then 0 else Number(s[..|s| - 1]) * 10 + Value(s[|s| - 1])
  }

  function Power(d: nat): (n: nat)
    ensures n > 0
  {
    if d == 0 then 1 else 10 * Power(d - 1)
  }

  function Digits(n: nat): (s: string)
    ensures s != "" && AllDigits(s) && Number(s) == n
  {
    if n < 10 then [Figure(n)] else Digits(n / 10) + [Figure(n % 10)]
  }

  /** Exactly d digits, zeros in front. */
  function Padded(n: nat, d: nat): (s: string)
    requires n < Power(d)
    ensures |s| == d && AllDigits(s) && Number(s) == n
  {
    if d == 0 then "" else Padded(n / 10, d - 1) + [Figure(n % 10)]
  }

  /** Reads `digits`, `digits.digits` and the forms with one side missing; anything else is an error. */
  function Float(s: string): Option<real> {
    var k := Find(s, '.');
    if k == |s| then
      if s != "" && AllDigits(s) then Some(Number(s) as real) else None
    else
      var whole, part := s[..k], s[k + 1..];
      if AllDigits(whole) && AllDigits(part) && (whole != "" || part != "") then
        Some(Mixed(whole, part))
      else None
  }

  /** The value of `whole.part`. */
  function Mixed(whole: string, part: string): real
    requires AllDigits(whole) && AllDigits(part)
  {
    Number(whole) as real + Number(part) as real / Power(|part|) as real
  }

  // ---- Text ----

  function Find(s: string, c: char): (k: nat)
    ensures k <= |s| && (k < |s| ==> s[k] == c)
    ensures forall j :: 0 <= j < k ==> s[j] != c
  {
    if s == "" || s[0] == c then 0 else 1 + Find(s[1..], c)
  }

  function Replace(s: string, from: char, to: char): (r: string)
    ensures |r| == |s| && forall k :: 0 <= k < |s| ==> r[k] == if s[k] == from then to else s[k]
  {
    seq(|s|, i requires 0 <= i < |s| => if s[i] == from then to else s[i])
  }

  function Delete(s: string, drop: set<char>): string {
    if s == "" then ""
    else (if s[0] in drop then "" else [s[0]]) + Delete(s[1..], drop)
  }

  lemma {:induction false} DeleteSplit(a: string, b: string, drop: set<char>)
    ensures Delete(a + b, drop) == Delete(a, drop) + Delete(b, drop)
  {
    if a == "" {
      assert a + b == b;
    } else {
      assert (a + b)[1..] == a[1..] + b;
      DeleteSplit(a[1..], b, drop);
    }
  }

  lemma {:induction false} DeleteNothing(s: string, drop: set<char>)
    requires forall k :: 0 <= k < |s| ==> s[k] !in drop
    ensures Delete(s, drop) == s
  {
    if s != "" {
      DeleteNothing(s[1..], drop);
      assert s == [s[0]] + s[1..];
    }
  }

  // ---- The printer ----

  /** Thousands set apart from the right. */
  function Grouped(s: string, mark: char): string {
    if |s| <= 3 then s else Grouped(s[..|s| - 3], mark) + [mark] + s[|s| - 3..]
  }

  function Quot(n: nat, p: nat): nat
    requires p > 0
  {
    n / p
  }

  function Rem(n: nat, p: nat): (r: nat)
    requires p > 0
    ensures r < p && n == Quot(n, p) * p + r
  {
    n % p
  }

  /** The English fixed-point form with d decimals of an amount counted in units of 10^-d. */
  function English(n: nat, d: nat): string {
    Grouped(Digits(Quot(n, Power(d))), ',') + Decimals(n, d, '.')
  }

  function Decimals(n: nat, d: nat, mark: char): string {
    if d == 0 then "" else [mark] + Padded(Rem(n, Power(d)), d)
  }

  /** The printer: the English form, its two marks swapped through a third character. */
  function TrSayi(amount: int, d: nat): string {
    if amount < 0 then "-" + Swapped(English(-amount, d)) else Swapped(English(amount, d))
  }

  /** With the currency's unit after it. */
  function FormatPara(amount: int, d: nat, unit: string): string {
    TrSayi(amount, d) + " " + unit
  }

  function Swapped(s: string): string {
    Replace(Replace(Replace(s, ',', '\0'), '.', ','), '\0', '.')
  }

  /** What the printer is for: points between thousands, a comma before the decimals. */
  function Turkish(n: nat, d: nat): string {
    Grouped(Digits(Quot(n, Power(d))), '.') + Decimals(n, d, ',')
  }

  lemma {:induction false} SwapGrouped(s: string)
    requires AllDigits(s)
    ensures Swapped(Grouped(s, ',')) == Grouped(s, '.')
  {
    if |s| > 3 {
      SwapGrouped(s[..|s| - 3]);
      SwapSplit(Grouped(s[..|s| - 3], ',') + [','], s[|s| - 3..]);
      SwapSplit(Grouped(s[..|s| - 3], ','), [',']);
      SwapDigits(s[|s| - 3..]);
      assert Swapped([',']) == ['.'];
    } else {
      SwapDigits(s);
    }
  }

  lemma SwapSplit(a: string, b: string)
    ensures Swapped(a + b) == Swapped(a) + Swapped(b)
  {
  }

  lemma SwapDigits(s: string)
    requires AllDigits(s)
    ensures Swapped(s) == s
  {
  }

  function Size(amount: int): nat { if amount < 0 then -amount else amount }

  /** The three replacements write the Turkish form, behind a sign where there is one. */
  lemma WritesTurkish(amount: int, d: nat)
    ensures TrSayi(amount, d) == (if amount < 0 then "-" else "") + Turkish(Size(amount), d)
  {
    hide Swapped, Grouped, Digits, Padded, Power, Quot;
    var n := Size(amount);
    var whole := Digits(Quot(n, Power(d)));
    SwapGrouped(whole);
    SwapSplit(Grouped(whole, ','), Decimals(n, d, '.'));
    if d == 0 {
      SwapDigits("");
    } else {
      var part := Padded(Rem(n, Power(d)), d);
      SwapSplit(".", part);
      SwapDigits(part);
      SwapPoint();
    }
    assert Swapped(English(n, d)) == Turkish(n, d);
    assert "" + Turkish(n, d) == Turkish(n, d);
  }

  lemma SwapPoint()
    ensures Swapped(".") == ","
  {
  }

  // ---- What the marks hide ----

  lemma {:induction false} UngroupedDigits(s: string, drop: set<char>)
    requires AllDigits(s) && '.' in drop && forall c :: c in drop ==> !Digit(c)
    ensures Delete(Grouped(s, '.'), drop) == s
  {
    if |s| > 3 {
      var head, tail := s[..|s| - 3], s[|s| - 3..];
      DeleteSplit(Grouped(head, '.') + ['.'], tail, drop);
      DeleteSplit(Grouped(head, '.'), ['.'], drop);
      UngroupedDigits(head, drop);
      DeleteNothing(tail, drop);
      assert Delete(['.'], drop) == "";
      assert head + tail == s;
    } else {
      DeleteNothing(s, drop);
    }
  }

  /** The amount a printed number stands for. */
  function Amount(n: nat, d: nat): real {
    n as real / Power(d) as real
  }

  lemma PartsMakeWhole(n: nat, p: nat)
    requires p > 0
    ensures Quot(n, p) as real + Rem(n, p) as real / p as real == n as real / p as real
  {
    hide Quot, Rem;
    Cast(Quot(n, p), p);
    Quotient(Quot(n, p) as real, Rem(n, p) as real, p as real);
  }

  lemma Cast(a: nat, b: nat)
    ensures (a * b) as real == a as real * b as real
  {
  }

  lemma Quotient(q: real, r: real, p: real)
    requires p > 0.0
    ensures q + r / p == (q * p + r) / p
  {
  }

  /** Once the thousands are closed up and the comma is a point, the number reads back exactly. */
  lemma ReadsBack(n: nat, d: nat, drop: set<char>)
    requires '.' in drop && ',' !in drop && forall c :: c in drop ==> !Digit(c)
    ensures Float(Replace(Delete(Turkish(n, d), drop), ',', '.')) == Some(Amount(n, d))
  {
    hide Grouped, Digits, Padded, Power, Delete, Quot, Float;
    var whole := Digits(Quot(n, Power(d)));
    UngroupedDigits(whole, drop);
    PartsMakeWhole(n, Power(d));
    DeleteSplit(Grouped(whole, '.'), Decimals(n, d, ','), drop);
    DeleteNothing(Decimals(n, d, ','), drop);
    var text := whole + Decimals(n, d, ',');
    if d == 0 {
      assert Replace(text, ',', '.') == whole;
      NoPoint(whole);
      PowerZero();
      assert Rem(n, 1) == 0;
    } else {
      var part := Padded(Rem(n, Power(d)), d);
      assert Replace(text, ',', '.') == whole + ("." + part);
      PointFound(whole, part);
    }
  }

  lemma PowerZero()
    ensures Power(0) == 1
  {
  }

  lemma NoPoint(whole: string)
    requires AllDigits(whole) && whole != ""
    ensures Float(whole) == Some(Number(whole) as real)
  {
    hide Number;
    assert Find(whole, '.') == |whole|;
  }

  lemma PointFound(whole: string, part: string)
    requires AllDigits(whole) && whole != "" && AllDigits(part)
    ensures Float(whole + ("." + part)) == Some(Mixed(whole, part))
  {
    hide Mixed, Find;
    var s := whole + ("." + part);
    FindPoint(whole, part);
    var k := Find(s, '.');
    assert k < |s|;
    assert s[..k] == whole && s[k + 1..] == part;
  }

  lemma FindPoint(whole: string, part: string)
    requires AllDigits(whole)
    ensures Find(whole + ("." + part), '.') == |whole|
  {
    hide Find;
    var s := whole + ("." + part);
    var k := Find(s, '.');
    assert s[|whole|] == '.';
    assert forall j :: 0 <= j < |whole| ==> s[j] == whole[j] && Digit(s[j]);
  }
}
