/**
 * The two readers of printed amounts: the numeral pattern of the grounding check, and the summary
 * reader that compares what the user read with what will be applied.
 */
module MoneyReaders {
  import opened Options
  import opened MoneyText

  // ---- The grounding check's numeral ----

  const SEPARATORS: set<char> := {'.', ' ', '\U{00A0}', '\U{202F}', '\U{2009}'}

  /** How many digits the text starts with. */
  function Run(text: string): (n: nat)
    ensures n <= |text| && AllDigits(text[..n])
    ensures n < |text| ==> !Digit(text[n])
  {
    if text != "" && Digit(text[0]) then 1 + Run(text[1..]) else 0
  }

  /** The text starts with a separator and three digits. */
  predicate Group(text: string) {
    |text| >= 4 && text[0] in SEPARATORS && Digit(text[1]) && Digit(text[2]) && Digit(text[3])
  }

  function Groups(text: string): (n: nat)
    ensures n <= |text|
  {
    if Group(text) then 4 + Groups(text[4..]) else 0
  }

  /** An optional comma with at least one digit. */
  function DecimalPart(text: string): (n: nat)
    ensures n <= |text|
  {
    if text != "" && text[0] == ',' && Run(text[1..]) > 0 then 1 + Run(text[1..]) else 0
  }

  predicate Leading(text: string, n: nat) {
    n <= |text| && AllDigits(text[..n]) && Group(text[n..])
  }

  function Extended(text: string, n: nat): (m: nat)
    requires n <= |text|
    ensures m <= |text|
  {
    n + DecimalPart(text[n..])
  }

  /**
   * Where the numeral at the start of the text ends: three, two or one digits with groups of
   * three behind them, or else a plain run of digits; then decimals. Zero when there is none.
   */
  function Matched(text: string): (n: nat)
    ensures n <= |text|
  {
    if Leading(text, 3) then Extended(text, 3 + Groups(text[3..]))
    else if Leading(text, 2) then Extended(text, 2 + Groups(text[2..]))
    else if Leading(text, 1) then Extended(text, 1 + Groups(text[1..]))
    else if Run(text) > 0 then Extended(text, Run(text))
    else 0
  }

  // ---- What the pattern takes is a numeral ----

  /** k digits; then, behind at most three of them, separators each with three digits; then comma and digits. */
  predicate IsNumeral(s: string, k: nat, g: nat) {
    && 1 <= k && k + g <= |s| && g % 4 == 0 && (g > 0 ==> k <= 3)
    && (forall i :: 0 <= i < k ==> '0' <= s[i] <= '9')
    && (forall i :: 0 <= i < g ==>
         if i % 4 == 0 then s[k + i] in ". \U{00A0}\U{202F}\U{2009}" else '0' <= s[k + i] <= '9')
    && (|s| > k + g ==> s[k + g] == ',' && |s| > k + g + 1)
    && (forall i :: k + g < i < |s| ==> '0' <= s[i] <= '9')
  }

  lemma {:induction false} GroupsAre(text: string)
    ensures Groups(text) % 4 == 0
    ensures forall i :: 0 <= i < Groups(text) ==> if i % 4 == 0 then text[i] in SEPARATORS else Digit(text[i])
    decreases |text|
  {
    if Group(text) {
      GroupsAre(text[4..]);
      forall i | 4 <= i < Groups(text)
        ensures if i % 4 == 0 then text[i] in SEPARATORS else Digit(text[i])
      {
        assert text[i] == text[4..][i - 4];
      }
    }
  }

  lemma DecimalsAre(text: string)
    ensures DecimalPart(text) > 0 ==> DecimalPart(text) > 1 && text[0] == ','
    ensures forall i :: 0 < i < DecimalPart(text) ==> Digit(text[i])
  {
    if text != "" {
      assert forall i :: 0 < i < DecimalPart(text) ==> text[i] == text[1..][..Run(text[1..])][i - 1];
    }
  }

  lemma HeadIs(text: string, k: nat)
    requires 1 <= k <= |text| && AllDigits(text[..k])
    ensures k <= 3 ==>
      IsNumeral(text[..Extended(text, k + Groups(text[k..]))], k, Groups(text[k..]))
    ensures IsNumeral(text[..Extended(text, k)], k, 0)
  {
    hide Groups, DecimalPart, Digit;
    var g := Groups(text[k..]);
    GroupsAre(text[k..]);
    DecimalsAre(text[k + g..]);
    DecimalsAre(text[k..]);
    var s, t := text[..Extended(text, k + g)], text[..Extended(text, k)];
    assert forall i :: 0 <= i < k ==> s[i] == text[..k][i] && t[i] == text[..k][i];
    assert forall i :: 0 <= i < g ==> s[k + i] == text[k..][i];
    assert forall i :: k + g <= i < |s| ==> s[i] == text[k + g..][i - k - g];
    assert forall i :: k <= i < |t| ==> t[i] == text[k..][i - k];
    forall c: char
      ensures Digit(c) <==> '0' <= c <= '9'
      ensures c in SEPARATORS <==> c in ". \U{00A0}\U{202F}\U{2009}"
    {
      Characters(c);
    }
  }

  lemma Characters(c: char)
    ensures Digit(c) <==> '0' <= c <= '9'
    ensures c in SEPARATORS <==> c in ". \U{00A0}\U{202F}\U{2009}"
  {
  }

  /** Whatever text the pattern is put to, what it takes there is a numeral, or it takes nothing. */
  lemma MatchedIsNumeral(text: string)
    ensures Matched(text) > 0 <==> text != "" && '0' <= text[0] <= '9'
    ensures Matched(text) > 0 ==> exists k: nat, g: nat :: IsNumeral(text[..Matched(text)], k, g)
  {
    hide Groups, DecimalPart, IsNumeral, Group;
    if text != "" && Digit(text[0]) {
      if Leading(text, 3) {
        HeadIs(text, 3);
      } else if Leading(text, 2) {
        HeadIs(text, 2);
      } else if Leading(text, 1) {
        HeadIs(text, 1);
      } else {
        HeadIs(text, Run(text));
      }
    } else {
      assert forall n :: 1 <= n <= |text| ==> text[..n][0] == text[0];
    }
  }

  function ToFloat(token: string): Option<real> {
    Float(Replace(Delete(token, SEPARATORS), ',', '.'))
  }

  // ---- The summary reader ----

  predicate OfRun(c: char) {
    Digit(c) || c == '.' || c == ','
  }

  function RunLength(text: string): (n: nat)
    ensures n <= |text| && forall k :: 0 <= k < n ==> OfRun(text[k])
    ensures n < |text| ==> !OfRun(text[n])
  {
    if text != "" && OfRun(text[0]) then 1 + RunLength(text[1..]) else 0
  }

  /** Every maximal run of digits, points and commas that starts with a digit. */
  function Runs(text: string): seq<string>
    decreases |text|
  {
    if text == "" then []
    else if Digit(text[0]) then [text[..RunLength(text)]] + Runs(text[RunLength(text)..])
    else Runs(text[1..])
  }

  function TrimEnd(s: string): string {
    if s != "" && (s[|s| - 1] == '.' || s[|s| - 1] == ',') then TrimEnd(s[..|s| - 1]) else s
  }

  function Points(s: string): nat {
    if s == "" then 0 else (if s[0] == '.' then 1 else 0) + Points(s[1..])
  }

  /** Which mark is the decimal one: a comma if there is any; a lone point unless three digits follow it. */
  function Reading(raw: string): Option<real> {
    var s := TrimEnd(raw);
    if Find(s, ',') < |s| then Float(Replace(Delete(s, {'.'}), ',', '.'))
    else if Points(s) == 1 && |s| - Find(s, '.') - 1 != 3 then Float(s)
    else Float(Delete(s, {'.'}))
  }

  function Readings(runs: seq<string>): seq<real> {
    if runs == [] then []
    else Readings(runs[..|runs| - 1]) + match Reading(runs[|runs| - 1]) { case None => [] case Some(x) => [x] }
  }

  method NumbersInSummary(text: string) returns (found: seq<real>)
    ensures found == Readings(Runs(text))
  {
    hide Runs, Reading;
    found := [];
    var runs := Runs(text);
    for i := 0 to |runs|
      invariant found == Readings(runs[..i])
    {
      assert runs[..i + 1][..i] == runs[..i];
      var value := Reading(runs[i]);
      if value.Some? {
        found := found + [value.value];
      }
    }
    assert runs[..|runs|] == runs;
  }

  datatype Verdict = Consistent | NoAmount | Mismatch

  function Abs(x: real): real { if x < 0.0 then -x else x }

  predicate AnyNear(numbers: seq<real>, amount: real) {
    exists k :: 0 <= k < |numbers| && Abs(numbers[k] - amount) <= 0.01
  }

  /** The amount the user read against the amount that will be applied; nothing to check without one. */
  method SummaryVerdict(summary: string, amount: Option<real>) returns (v: Verdict)
    ensures amount.None? ==> v == Consistent
    ensures amount.Some? ==>
      var numbers := Readings(Runs(summary));
      v == if numbers == [] then NoAmount else if AnyNear(numbers, amount.value) then Consistent else Mismatch
  {
    hide Runs, Readings;
    if amount.None? {
      return Consistent;
    }
    var numbers := NumbersInSummary(summary);
    if numbers == [] {
      return NoAmount;
    }
    for i := 0 to |numbers|
      invariant forall k :: 0 <= k < i ==> Abs(numbers[k] - amount.value) > 0.01
    {
      if Abs(numbers[i] - amount.value) <= 0.01 {
        return Consistent;
      }
    }
    return Mismatch;
  }

  // ---- The pattern matches what the printer writes ----

  /** A point before every three digits. */
  predicate Stepped(s: string) {
    |s| % 4 == 0 && forall k :: 0 <= k < |s| ==> if k % 4 == 0 then s[k] == '.' else Digit(s[k])
  }

  lemma {:induction false} GroupsWalked(s: string, rest: string)
    requires Stepped(s) && !Group(rest)
    ensures Groups(s + rest) == |s|
    decreases |s|
  {
    if s == "" {
      assert s + rest == rest;
    } else {
      var t := s[4..];
      assert (s + rest)[4..] == t + rest;
      assert s[0] == '.' && Digit(s[1]) && Digit(s[2]) && Digit(s[3]);
      forall k | 0 <= k < |t|
        ensures if k % 4 == 0 then t[k] == '.' else Digit(t[k])
      {
        assert t[k] == s[k + 4];
      }
      GroupsWalked(t, rest);
    }
  }

  /** Grouping from the right leaves one to three digits, then a point before every three. */
  lemma {:induction false} GroupedSteps(s: string)
    requires s != "" && AllDigits(s)
    ensures var k, g := First(|s|), Grouped(s, '.');
            k <= |g| && g[..k] == s[..k] && Stepped(g[k..])
  {
    var k, g := First(|s|), Grouped(s, '.');
    if |s| <= 3 {
      assert k == |s| && g[k..] == "";
    } else {
      var head, tail := s[..|s| - 3], s[|s| - 3..];
      GroupedSteps(head);
      var h := Grouped(head, '.');
      assert g == h + ['.'] + tail && First(|head|) == k;
      var t := g[k..];
      assert t == h[k..] + (['.'] + tail);
      StepMore(h[k..], tail);
      assert head[..k] == s[..k];
    }
  }

  lemma StepMore(s: string, tail: string)
    requires Stepped(s) && |tail| == 3 && AllDigits(tail)
    ensures Stepped(s + (['.'] + tail))
  {
    var t := s + (['.'] + tail);
    forall k | 0 <= k < |t|
      ensures if k % 4 == 0 then t[k] == '.' else Digit(t[k])
    {
      if k < |s| {
        assert t[k] == s[k];
      } else if k > |s| {
        assert t[k] == tail[k - |s| - 1];
      }
    }
  }

  function First(n: nat): (k: nat)
    requires n > 0
    ensures 1 <= k <= 3 && (n - k) % 3 == 0 && k <= n
  {
    (n - 1) % 3 + 1
  }

  lemma {:induction false} RunOf(s: string, rest: string)
    requires AllDigits(s) && (rest == "" || !Digit(rest[0]))
    ensures Run(s + rest) == |s|
  {
    if s == "" {
      assert s + rest == rest;
    } else {
      assert (s + rest)[1..] == s[1..] + rest;
      RunOf(s[1..], rest);
    }
  }

  /** After a numeral the text goes on with something that is not part of it. */
  predicate Ends(rest: string, d: nat) {
    && (rest == "" || !Digit(rest[0]))
    && (d == 0 && |rest| > 1 && (rest[0] == ',' || rest[0] in SEPARATORS) ==> !Digit(rest[1]))
  }

  lemma NothingMore(rest: string)
    requires Ends(rest, 0)
    ensures DecimalPart(rest) == 0 && !Group(rest)
  {
    if rest != "" && rest[0] == ',' && |rest| > 1 {
      assert rest[1..][0] == rest[1];
    }
  }

  lemma CommaAndDigits(part: string, rest: string)
    requires part != "" && AllDigits(part) && (rest == "" || !Digit(rest[0]))
    ensures var text := "," + part + rest;
            DecimalPart(text) == 1 + |part| && !Group(text) && text[0] == ','
  {
    hide Run;
    assert ("," + part + rest)[1..] == part + rest;
    RunOf(part, rest);
  }

  lemma DecimalsMatched(n: nat, d: nat, rest: string)
    requires Ends(rest, d)
    ensures DecimalPart(Decimals(n, d, ',') + rest) == |Decimals(n, d, ',')|
    ensures !Group(Decimals(n, d, ',') + rest)
    ensures Decimals(n, d, ',') + rest == "" || !Digit((Decimals(n, d, ',') + rest)[0])
  {
    hide Padded, Power, Rem, Group, DecimalPart;
    if d == 0 {
      assert Decimals(n, d, ',') + rest == rest;
      NothingMore(rest);
    } else {
      CommaAndDigits(Padded(Rem(n, Power(d)), d), rest);
    }
  }

  /** The pattern takes a printed number in full, whatever follows it, as long as that is not more of a number. */
  lemma MatchedInFull(n: nat, d: nat, rest: string)
    requires Ends(rest, d)
    ensures Matched(Turkish(n, d) + rest) == |Turkish(n, d)|
  {
    hide Decimals, Digits, Grouped, Group, Groups, DecimalPart, Run, Quot, Power;
    var whole := Digits(Quot(n, Power(d)));
    var g, tail := Grouped(whole, '.'), Decimals(n, d, ',') + rest;
    DecimalsMatched(n, d, rest);
    GroupedSteps(whole);
    var k := First(|whole|);
    var text := Turkish(n, d) + rest;
    assert text == g + tail;
    assert g == whole[..k] + g[k..];
    assert text == whole[..k] + (g[k..] + tail);
    HeadMatched(whole[..k], g[k..], tail);
  }

  lemma HeadMatched(head: string, steps: string, tail: string)
    requires AllDigits(head) && 1 <= |head| <= 3 && Stepped(steps)
    requires !Group(tail) && (tail == "" || !Digit(tail[0]))
    ensures Matched(head + (steps + tail)) == |head| + |steps| + DecimalPart(tail)
  {
    hide DecimalPart, Run, Groups;
    var text, k := head + (steps + tail), |head|;
    GroupsWalked(steps, tail);
    assert text[k..] == steps + tail && text[..k] == head;
    assert text[k + |steps|..] == tail;
    if steps == "" {
      assert text == head + tail;
      RunOf(head, tail);
      assert text[k..] == tail;
      NoLonger(head, tail);
    } else {
      assert steps[0] == '.' && Digit(steps[1]) && Digit(steps[2]) && Digit(steps[3]);
      assert text[k] == '.';
      assert Leading(text, k);
      forall j | k < j <= 3
        ensures !Leading(text, j)
      {
        if j <= |text| {
          assert text[..j][k] == '.';
        }
      }
    }
  }

  lemma NoLonger(head: string, tail: string)
    requires AllDigits(head) && 1 <= |head| <= 3 && !Group(tail) && (tail == "" || !Digit(tail[0]))
    ensures forall j :: 1 <= j <= 3 ==> !Leading(head + tail, j)
  {
    var text := head + tail;
    forall j | 1 <= j <= 3
      ensures !Leading(text, j)
    {
      if j < |head| {
        assert text[j..][0] == head[j];
        assert Digit(head[j]);
        DigitSeparatesNothing(head[j]);
      } else if j == |head| {
        assert text[j..] == tail;
      } else if j <= |text| {
        assert text[..j][|head|] == tail[0];
      }
    }
  }

  lemma DigitSeparatesNothing(c: char)
    requires Digit(c)
    ensures c !in SEPARATORS
  {
  }

  /** The grounding check reads a printed number back exactly. */
  lemma GroundingReadsBack(n: nat, d: nat, rest: string)
    requires Ends(rest, d)
    ensures var text := Turkish(n, d) + rest;
            ToFloat(text[..Matched(text)]) == Some(Amount(n, d))
  {
    hide Matched, Turkish, Amount, Float, Delete, Digit;
    var text := Turkish(n, d) + rest;
    MatchedInFull(n, d, rest);
    assert text[..|Turkish(n, d)|] == Turkish(n, d);
    forall c | c in SEPARATORS
      ensures !Digit(c)
    {
      SeparatorNoDigit(c);
    }
    ReadsBack(n, d, SEPARATORS);
  }

  /** So is a full price, label and all. */
  lemma PriceReadsBack(n: nat, d: nat, unit: string)
    requires unit == "" || !Digit(unit[0])
    ensures var text := FormatPara(n, d, unit);
            ToFloat(text[..Matched(text)]) == Some(Amount(n, d))
  {
    hide Matched, Turkish, TrSayi, ToFloat, Amount;
    WritesTurkish(n, d);
    var rest := " " + unit;
    assert rest[0] == ' ' && (unit != "" ==> rest[1] == unit[0]);
    assert FormatPara(n, d, unit) == Turkish(n, d) + rest;
    GroundingReadsBack(n, d, rest);
  }

  lemma SeparatorNoDigit(c: char)
    requires c in SEPARATORS
    ensures !Digit(c)
  {
  }

  // ---- The summary reader undoes the printer ----

  /** A summary: amounts in running text. */
  datatype Summary = End(text: string) | Says(text: string, amount: nat, rest: Summary)

  predicate NoDigit(text: string) {
    forall k :: 0 <= k < |text| ==> !Digit(text[k])
  }

  /** Words hold no digits, and two amounts have more than points and commas between them. */
  predicate Worded(s: Summary) {
    NoDigit(s.text) && (s.Says? ==> Worded(s.rest) && (s.rest.Says? ==> RunLength(s.rest.text) < |s.rest.text|))
  }

  function SummaryText(s: Summary, d: nat): string {
    match s
    case End(text) => text
    case Says(text, n, rest) => text + (Turkish(n, d) + SummaryText(rest, d))
  }

  function Amounts(s: Summary, d: nat): seq<real> {
    match s
    case End(_) => []
    case Says(_, n, rest) => [Amount(n, d)] + Amounts(rest, d)
  }

  lemma {:induction false} WordsSkipped(words: string, rest: string)
    requires NoDigit(words)
    ensures Runs(words + rest) == Runs(rest)
  {
    if words == "" {
      assert words + rest == rest;
    } else {
      assert (words + rest)[1..] == words[1..] + rest;
      WordsSkipped(words[1..], rest);
    }
  }

  lemma {:induction false} RunLengthOf(s: string, rest: string)
    requires forall k :: 0 <= k < |s| ==> OfRun(s[k])
    ensures RunLength(s + rest) == |s| + RunLength(rest)
  {
    if s == "" {
      assert s + rest == rest;
    } else {
      assert (s + rest)[1..] == s[1..] + rest;
      RunLengthOf(s[1..], rest);
    }
  }

  lemma {:induction false} RunStops(words: string, rest: string)
    requires RunLength(words) < |words|
    ensures RunLength(words + rest) == RunLength(words)
  {
    if OfRun(words[0]) {
      assert (words + rest)[1..] == words[1..] + rest;
      RunStops(words[1..], rest);
    }
  }

  lemma {:induction false} Trimmed(s: string, marks: string)
    requires s != "" && Digit(s[|s| - 1])
    requires forall k :: 0 <= k < |marks| ==> marks[k] == '.' || marks[k] == ','
    ensures TrimEnd(s + marks) == s
    decreases |marks|
  {
    if marks == "" {
      assert s + marks == s;
    } else {
      assert (s + marks)[..|s + marks| - 1] == s + marks[..|marks| - 1];
      Trimmed(s, marks[..|marks| - 1]);
    }
  }

  lemma {:induction false} FirstReading(run: string, runs: seq<string>)
    ensures Readings([run] + runs) == Readings([run]) + Readings(runs)
  {
    hide Reading;
    if runs == [] {
      assert [run] + runs == [run];
    } else {
      var all := [run] + runs;
      assert all[..|all| - 1] == [run] + runs[..|runs| - 1];
      FirstReading(run, runs[..|runs| - 1]);
    }
  }

  lemma {:induction false} PointsSplit(a: string, b: string)
    ensures Points(a + b) == Points(a) + Points(b)
  {
    if a == "" {
      assert a + b == b;
    } else {
      assert (a + b)[1..] == a[1..] + b;
      PointsSplit(a[1..], b);
    }
  }

  lemma {:induction false} NoPoints(s: string)
    requires forall k :: 0 <= k < |s| ==> s[k] != '.'
    ensures Points(s) == 0
  {
    if s != "" {
      NoPoints(s[1..]);
    }
  }

  /** A grouped number with one point has three digits behind it, so it is never taken for a decimal. */
  lemma LonePointIsThousands(whole: string)
    requires whole != "" && AllDigits(whole) && Points(Grouped(whole, '.')) == 1
    ensures var g := Grouped(whole, '.'); |g| - Find(g, '.') - 1 == 3
  {
    hide Grouped, Points, Find;
    var g, k := Grouped(whole, '.'), First(|whole|);
    GroupedSteps(whole);
    var steps := g[k..];
    assert g == g[..k] + steps;
    PointsSplit(g[..k], steps);
    NoPoints(g[..k]);
    StepPoints(steps);
    assert steps[0] == '.' && g[k] == steps[0];
    assert forall j :: 0 <= j < k ==> g[j] == whole[..k][j] && Digit(g[j]);
    assert Find(g, '.') == k;
  }

  /** One point in a stepped text means exactly one step. */
  lemma StepPoints(s: string)
    requires Stepped(s)
    ensures Points(s) == 0 ==> s == ""
    ensures Points(s) == 1 ==> |s| == 4
  {
    if s != "" {
      assert s == s[..1] + s[1..];
      PointsSplit(s[..1], s[1..]);
      assert s[0] == '.' && Points(s[..1]) == 1;
      if |s| > 4 {
        assert s[1..] == s[1..4] + s[4..];
        PointsSplit(s[1..4], s[4..]);
        assert s[4] == '.' && s[4..] == [s[4]] + s[5..];
        PointsSplit([s[4]], s[5..]);
      }
    }
  }

  lemma TurkishEnds(n: nat, d: nat)
    ensures var t := Turkish(n, d); t != "" && Digit(t[0]) && Digit(t[|t| - 1])
    ensures forall k :: 0 <= k < |Turkish(n, d)| ==> OfRun(Turkish(n, d)[k])
    ensures d == 0 ==> forall k :: 0 <= k < |Turkish(n, d)| ==> Turkish(n, d)[k] != ','
  {
    hide Digits, Padded, Power, Quot, Rem;
    GroupedEnds(Digits(Quot(n, Power(d))));
  }

  lemma {:induction false} GroupedEnds(s: string)
    requires s != "" && AllDigits(s)
    ensures var g := Grouped(s, '.');
            && g != "" && Digit(g[0]) && Digit(g[|g| - 1])
            && forall k :: 0 <= k < |g| ==> Digit(g[k]) || g[k] == '.'
  {
    if |s| > 3 {
      GroupedEnds(s[..|s| - 3]);
    }
  }

  /** One run: a printed number with the marks of the sentence behind it. */
  lemma RunReadsBack(n: nat, d: nat, marks: string)
    requires forall k :: 0 <= k < |marks| ==> marks[k] == '.' || marks[k] == ','
    ensures Reading(Turkish(n, d) + marks) == Some(Amount(n, d))
  {
    hide Turkish, Float, Delete, Amount, Points, Find, TrimEnd;
    var t := Turkish(n, d);
    TurkishEnds(n, d);
    Trimmed(t, marks);
    ReadsBack(n, d, {'.'});
    if d == 0 {
      DeleteKeepsOut(t, {'.'}, ',');
      assert Replace(Delete(t, {'.'}), ',', '.') == Delete(t, {'.'});
      if Points(t) == 1 {
        WholeTurkish(n);
        LonePointIsThousands(Digits(Quot(n, Power(0))));
      }
    } else {
      CommaFound(n, d);
    }
  }

  // ---- The plain decimal form ----

  /** The same amount with a decimal point and no thousands, as in 19700.50. */
  function Plain(n: nat, d: nat): string
    requires d > 0
  {
    Digits(Quot(n, Power(d))) + ("." + Padded(Rem(n, Power(d)), d))
  }

  lemma PlainShape(n: nat, d: nat)
    requires d > 0
    ensures var s := Plain(n, d);
            && s != "" && Digit(s[|s| - 1]) && Find(s, ',') == |s| && Points(s) == 1 && |s| - Find(s, '.') - 1 == d
  {
    hide Digits, Padded, Power, Quot, Rem, Find, Points;
    var whole, part := Digits(Quot(n, Power(d))), Padded(Rem(n, Power(d)), d);
    var s := whole + ("." + part);
    FindPoint(whole, part);
    assert s[|s| - 1] == part[d - 1];
    assert forall k :: 0 <= k < |s| ==> Digit(s[k]) || s[k] == '.';
    PointsSplit(whole, "." + part);
    PointsSplit(".", part);
    NoPoints(whole);
    NoPoints(part);
    OnePoint();
  }

  lemma OnePoint()
    ensures Points(".") == 1
  {
  }

  lemma {:induction false} NumberSplit(a: string, b: string)
    requires AllDigits(a) && AllDigits(b)
    ensures AllDigits(a + b) && Number(a + b) == Number(a) * Power(|b|) + Number(b)
  {
    hide Value;
    if b == "" {
      assert a + b == a;
    } else {
      var n := |b| - 1;
      assert (a + b)[..|a + b| - 1] == a + b[..n] && (a + b)[|a + b| - 1] == b[n];
      NumberSplit(a, b[..n]);
      Shifted(Number(a), Power(n), Number(b[..n]), Value(b[n]));
    }
  }

  lemma Shifted(x: nat, p: nat, y: nat, v: nat)
    ensures (x * p + y) * 10 + v == x * (10 * p) + (y * 10 + v)
  {
    assert x * (10 * p) == x * p * 10;
  }

  /** With three decimals the point is taken for one between thousands. */
  lemma PlainThousands(n: nat)
    ensures Float(Delete(Plain(n, 3), {'.'})) == Some(n as real)
  {
    hide Digits, Padded, Power, Quot, Rem, Delete, Float, Number;
    var whole, part := Digits(Quot(n, Power(3))), Padded(Rem(n, Power(3)), 3);
    DeleteSplit(whole, "." + part, {'.'});
    DeleteSplit(".", part, {'.'});
    DeleteNothing(whole, {'.'});
    DeleteNothing(part, {'.'});
    assert Delete(".", {'.'}) == "" by { PointDeleted(); }
    NumberSplit(whole, part);
    NoPoint(whole + part);
    assert Delete(Plain(n, 3), {'.'}) == whole + part;
  }

  lemma PointDeleted()
    ensures Delete(".", {'.'}) == ""
  {
  }

  /**
   * The plain decimal form, the sentence's marks behind it, is the same number as the Turkish one
   * exactly when it does not have three decimals; with three it reads a thousand times too high.
   */
  lemma PlainReadsBackIff(n: nat, d: nat, marks: string)
    requires d > 0 && forall k :: 0 <= k < |marks| ==> marks[k] == '.' || marks[k] == ','
    ensures Reading(Plain(n, d) + marks) == Some(if d == 3 then n as real else Amount(n, d))
    ensures Reading(Plain(n, d) + marks) == Reading(Turkish(n, d) + marks) <==> d != 3 || n == 0
  {
    hide Turkish, Float, Delete, Points, Find, TrimEnd, Plain, Digits, Padded, Power, Quot, Rem, Number;
    var s := Plain(n, d);
    PlainShape(n, d);
    Trimmed(s, marks);
    RunReadsBack(n, d, marks);
    if d == 3 {
      PlainThousands(n);
      Thousandth(n);
    } else {
      PlainValue(n, d);
    }
  }

  lemma PlainValue(n: nat, d: nat)
    requires d > 0
    ensures Float(Plain(n, d)) == Some(Amount(n, d))
  {
    hide Float, Digits, Padded, Power, Quot, Rem, Number;
    PointFound(Digits(Quot(n, Power(d))), Padded(Rem(n, Power(d)), d));
    PartsMakeWhole(n, Power(d));
  }

  lemma Thousandth(n: nat)
    ensures n as real == Amount(n, 3) <==> n == 0
  {
    assert Power(3) == 1000;
  }

  lemma WholeTurkish(n: nat)
    ensures Turkish(n, 0) == Grouped(Digits(Quot(n, Power(0))), '.')
  {
  }

  lemma CommaFound(n: nat, d: nat)
    requires d > 0
    ensures Find(Turkish(n, d), ',') < |Turkish(n, d)|
  {
    hide Find, Grouped, Digits, Padded, Power, Quot, Rem;
    var t, k := Turkish(n, d), |Grouped(Digits(Quot(n, Power(d))), '.')|;
    assert t[k] == ',';
  }

  lemma {:induction false} DeleteKeepsOut(s: string, drop: set<char>, c: char)
    requires forall k :: 0 <= k < |s| ==> s[k] != c
    ensures forall k :: 0 <= k < |Delete(s, drop)| ==> Delete(s, drop)[k] != c
  {
    if s != "" {
      DeleteKeepsOut(s[1..], drop, c);
    }
  }

  /** From a printed summary the reader takes exactly its amounts, in order. */
  lemma {:induction false} SummaryReadsBack(s: Summary, d: nat)
    requires Worded(s)
    ensures Readings(Runs(SummaryText(s, d))) == Amounts(s, d)
  {
    hide Turkish, Reading, Amount, RunLength;
    match s
    case End(text) =>
      assert text + "" == text;
      WordsSkipped(text, "");
    case Says(text, n, rest) =>
      var t, r := Turkish(n, d), SummaryText(rest, d);
      SummaryReadsBack(rest, d);
      WordsSkipped(text, t + r);
      TurkishEnds(n, d);
      RunLengthOf(t, r);
      var k := RunLength(r);
      TextOfRest(rest, d);
      var marks := r[..k];
      assert (t + r)[..|t| + k] == t + marks;
      assert (t + r)[|t| + k..] == r[k..];
      assert Runs(t + r) == [t + marks] + Runs(r[k..]);
      RunReadsBack(n, d, marks);
      FirstReading(t + marks, Runs(r[k..]));
      assert Readings([t + marks]) == [Amount(n, d)] by { OneReading(t + marks); }
  }

  lemma OneReading(run: string)
    requires Reading(run).Some?
    ensures Readings([run]) == [Reading(run).value]
  {
    hide Reading;
    assert [run][..0] == [];
  }

  /** The marks that a number's run takes from the words behind it, and what is left. */
  lemma TextOfRest(rest: Summary, d: nat)
    requires NoDigit(rest.text) && (rest.Says? ==> RunLength(rest.text) < |rest.text|)
    ensures var r := SummaryText(rest, d); var k := RunLength(r);
            && (forall j :: 0 <= j < k ==> r[j] == '.' || r[j] == ',')
            && Runs(r[k..]) == Runs(r)
  {
    hide RunLength, Turkish;
    var r := SummaryText(rest, d);
    var tail := if rest.Says? then Turkish(rest.amount, d) + SummaryText(rest.rest, d) else "";
    assert r == rest.text + tail;
    if rest.Says? {
      RunStops(rest.text, tail);
    }
    var k := RunLength(r);
    assert forall j :: 0 <= j < k ==> r[j] == rest.text[j];
    assert r[k..] == rest.text[k..] + tail;
    WordsSkipped(rest.text[k..], tail);
    WordsSkipped(rest.text, tail);
  }

  /** With one amount in the summary, the check passes exactly when it is within a cent of the payload. */
  lemma OneAmountChecked(before: string, n: nat, after: string, d: nat, amount: real)
    requires NoDigit(before) && NoDigit(after)
    ensures var numbers := Readings(Runs(before + (Turkish(n, d) + after)));
            numbers != [] && (AnyNear(numbers, amount) <==> Abs(Amount(n, d) - amount) <= 0.01)
  {
    hide Turkish, Readings, Runs, Amount, Abs;
    var s := Says(before, n, End(after));
    SummaryReadsBack(s, d);
    assert SummaryText(s, d) == before + (Turkish(n, d) + after);
    var numbers := Readings(Runs(SummaryText(s, d)));
    assert Amounts(s, d) == [Amount(n, d)];
    assert |numbers| == 1 && numbers[0] == Amount(n, d);
  }

  /** The sign of a printed amount does not survive reading: what comes back is its size. */
  lemma SignIsLost(amount: int, d: nat)
    ensures Readings(Runs(TrSayi(amount, d))) == [Amount(Size(amount), d)]
    ensures Readings(Runs(TrSayi(amount, d))) == [amount as real / Power(d) as real] <==> amount >= 0
  {
    hide Turkish, Readings, Runs, Power, TrSayi;
    var size := Size(amount);
    WritesTurkish(amount, d);
    var s := Says(if amount < 0 then "-" else "", size, End(""));
    SummaryReadsBack(s, d);
    assert SummaryText(s, d) == TrSayi(amount, d);
    assert Amounts(s, d) == [Amount(size, d)];
    SizeIsValue(amount, Power(d));
  }

  lemma SizeIsValue(amount: int, p: nat)
    requires p > 0
    ensures (if amount < 0 then -amount else amount) as real / p as real == amount as real / p as real <==> amount >= 0
  {
    if amount < 0 {
      assert amount as real / p as real < 0.0;
      assert (-amount) as real / p as real > 0.0;
    }
  }

  /** Nor for the grounding reader: it finds nothing at the sign, and behind it the size. */
  lemma SignIsLostInGrounding(amount: int, d: nat)
    requires amount < 0
    ensures var text := TrSayi(amount, d);
            && Matched(text) == 0 && text != ""
            && ToFloat(text[1..][..Matched(text[1..])]) == Some(Amount(-amount, d))
  {
    hide Turkish, TrSayi, Amount, ToFloat, Groups, DecimalPart;
    var text, printed := TrSayi(amount, d), Turkish(-amount, d);
    WritesTurkish(amount, d);
    assert text == "-" + printed;
    assert text[0] == '-' && !Digit(text[0]);
    forall n | 1 <= n <= 3
      ensures !Leading(text, n)
    {
      if n <= |text| {
        assert text[..n][0] == '-';
      }
    }
    assert text[1..] == printed == printed + "";
    GroundingReadsBack(-amount, d, "");
  }
}
