/**
 * The JSON texts of RFC 8259 (sections 2 to 5 and 7) as trees that keep their whitespace and
 * escapes, and what the brace scanner does on them.
 */
module JsonGrammar {
  import opened JsonScanner

  /** One character of a string: itself, a two-character escape, or \u with four hex digits. */
  datatype Unit = Plain(c: char) | Escape(c: char) | Code(hex: string)

  datatype Value =
    | True
    | False
    | Null
    | Number(digits: string)
    | Str(units: seq<Unit>)
    | Array(pad: string, elements: Elements)
    | Object(pad: string, members: Members)

  datatype Elements = NoElement | Element(before: string, value: Value, after: string, rest: Elements)

  datatype Members =
    | NoMember
    | Member(before: string, name: seq<Unit>, afterName: string,
             beforeValue: string, value: Value, after: string, rest: Members)

  predicate Blank(text: string) {
    forall k :: 0 <= k < |text| ==> text[k] == ' ' || text[k] == '\t' || text[k] == '\n' || text[k] == '\r'
  }

  predicate Hex(c: char) {
    '0' <= c <= '9' || 'a' <= c <= 'f' || 'A' <= c <= 'F'
  }

  predicate OfNumber(c: char) {
    '0' <= c <= '9' || c == '+' || c == '-' || c == '.' || c == 'e' || c == 'E'
  }

  predicate UnitOk(u: Unit) {
    match u
    case Plain(c) => c >= ' ' && c != '"' && c != '\\'
    case Escape(c) => c in {'"', '\\', '/', 'b', 'f', 'n', 'r', 't'}
    case Code(hex) => |hex| == 4 && forall k :: 0 <= k < 4 ==> Hex(hex[k])
  }

  predicate NameOk(units: seq<Unit>) {
    forall u :: u in units ==> UnitOk(u)
  }

  /** Numbers are not taken apart: any text over the characters a number may have. */
  predicate WellFormed(v: Value) {
    match v
    case Number(digits) => forall k :: 0 <= k < |digits| ==> OfNumber(digits[k])
    case Str(units) => NameOk(units)
    case Array(pad, elements) => Blank(pad) && ElementsOk(elements)
    case Object(pad, members) => Blank(pad) && MembersOk(members)
    case _ => true
  }

  predicate ElementsOk(e: Elements) {
    e.Element? ==> Blank(e.before) && Blank(e.after) && WellFormed(e.value) && ElementsOk(e.rest)
  }

  predicate MembersOk(m: Members) {
    m.Member? ==>
      && Blank(m.before) && Blank(m.afterName) && Blank(m.beforeValue) && Blank(m.after)
      && NameOk(m.name) && WellFormed(m.value) && MembersOk(m.rest)
  }

  function UnitText(u: Unit): string {
    match u
    case Plain(c) => [c]
    case Escape(c) => ['\\', c]
    case Code(hex) => ['\\', 'u'] + hex
  }

  function UnitsText(units: seq<Unit>): string {
    if units == [] then "" else UnitText(units[0]) + UnitsText(units[1..])
  }

  function Quoted(units: seq<Unit>): string {
    "\"" + (UnitsText(units) + "\"")
  }

  function Text(v: Value): string
    decreases v, 0
  {
    match v
    case True => "true"
    case False => "false"
    case Null => "null"
    case Number(digits) => digits
    case Str(units) => Quoted(units)
    case Array(pad, elements) => "[" + (pad + (ElementsText(elements) + "]"))
    case Object(pad, members) => ObjectText(pad, members)
  }

  function ObjectText(pad: string, members: Members): string
    decreases members, 1
  {
    "{" + (pad + (MembersText(members) + "}"))
  }

  function Comma(last: bool): string {
    if last then "" else ","
  }

  function ElementsText(e: Elements): string
    decreases e, 0
  {
    match e
    case NoElement => ""
    case Element(before, value, after, rest) =>
      before + (Text(value) + ((after + Comma(rest.NoElement?)) + ElementsText(rest)))
  }

  function NameText(before: string, name: seq<Unit>, colon: string): string {
    before + (Quoted(name) + colon)
  }

  function MembersText(m: Members): string
    decreases m, 0
  {
    match m
    case NoMember => ""
    case Member(before, name, afterName, beforeValue, value, after, rest) =>
      NameText(before, name, afterName + ":" + beforeValue)
        + (Text(value) + ((after + Comma(rest.NoMember?)) + MembersText(rest)))
  }

  // ---- The scanner over a piece of a text ----

  predicate Reads(text: string, i: nat, piece: string) {
    i + |piece| <= |text| && text[i..i + |piece|] == piece
  }

  lemma Split(text: string, i: nat, a: string, b: string)
    requires Reads(text, i, a + b)
    ensures Reads(text, i, a) && Reads(text, i + |a|, b) && i + |a| + |b| <= |text|
  {
    assert text[i..i + |a + b|][..|a|] == a;
    assert text[i..i + |a + b|][|a|..] == b;
  }

  lemma Within(text: string, i: nat, piece: string)
    requires Reads(text, i, piece)
    ensures i + |piece| <= |text|
  {
  }

  lemma One(text: string, i: nat, c: char, rest: string)
    requires Reads(text, i, [c] + rest)
    ensures i < |text| && text[i] == c && Reads(text, i + 1, rest)
  {
    Split(text, i, [c], rest);
    assert text[i] == text[i..i + 1][0];
  }

  /** Nothing changed between i and j: same variables, no block yielded. */
  predicate Passed(text: string, i: nat, j: nat) {
    i <= j <= |text| && At(text, j) == At(text, i) && Spans(text, j) == Spans(text, i)
  }

  predicate Quiet(piece: string) {
    forall k :: 0 <= k < |piece| ==> piece[k] != '"' && piece[k] != '{' && piece[k] != '}'
  }

  lemma QuietStep(text: string, i: nat)
    requires i < |text| && !At(text, i).quoted && Quiet([text[i]])
    ensures Passed(text, i, i + 1)
  {
    assert [text[i]][0] == text[i];
  }

  lemma {:induction false} QuietPasses(text: string, i: nat, piece: string)
    requires Reads(text, i, piece) && !At(text, i).quoted && Quiet(piece)
    ensures Passed(text, i, i + |piece|)
    decreases |piece|
  {
    hide At, Spans, Reads;
    Within(text, i, piece);
    if piece != "" {
      assert piece == [piece[0]] + piece[1..];
      One(text, i, piece[0], piece[1..]);
      QuietStep(text, i);
      QuietPasses(text, i + 1, piece[1..]);
    }
  }

  lemma InQuotes(text: string, i: nat)
    requires i < |text| && At(text, i).quoted && !At(text, i).escaped
    ensures text[i] != '"' && text[i] != '\\' ==> Passed(text, i, i + 1)
    ensures text[i] == '\\' && i + 1 < |text| ==> Passed(text, i, i + 2)
  {
  }

  lemma {:induction false} LettersPass(text: string, i: nat, piece: string)
    requires Reads(text, i, piece) && At(text, i).quoted && !At(text, i).escaped
    requires forall k :: 0 <= k < |piece| ==> piece[k] != '"' && piece[k] != '\\'
    ensures Passed(text, i, i + |piece|)
    decreases |piece|
  {
    hide At, Spans;
    if piece != "" {
      assert piece == [piece[0]] + piece[1..];
      One(text, i, piece[0], piece[1..]);
      InQuotes(text, i);
      LettersPass(text, i + 1, piece[1..]);
    }
  }

  lemma UnitPasses(text: string, i: nat, u: Unit)
    requires UnitOk(u) && Reads(text, i, UnitText(u)) && At(text, i).quoted && !At(text, i).escaped
    ensures Passed(text, i, i + |UnitText(u)|)
  {
    hide At, Spans, Reads;
    match u
    case Plain(c) =>
      LettersPass(text, i, [c]);
    case Escape(c) =>
      assert UnitText(u) == ['\\'] + ([c] + "");
      One(text, i, '\\', [c] + "");
      One(text, i + 1, c, "");
      InQuotes(text, i);
    case Code(hex) =>
      assert UnitText(u) == ['\\'] + (['u'] + hex);
      One(text, i, '\\', ['u'] + hex);
      One(text, i + 1, 'u', hex);
      InQuotes(text, i);
      LettersPass(text, i + 2, hex);
  }

  lemma {:induction false} UnitsPass(text: string, i: nat, units: seq<Unit>)
    requires NameOk(units) && Reads(text, i, UnitsText(units)) && At(text, i).quoted && !At(text, i).escaped
    ensures Passed(text, i, i + |UnitsText(units)|)
    decreases |units|
  {
    hide At, Spans, UnitText, UnitOk, Reads;
    Within(text, i, UnitsText(units));
    assert UnitsText([]) == "";
    if units != [] {
      Split(text, i, UnitText(units[0]), UnitsText(units[1..]));
      UnitPasses(text, i, units[0]);
      UnitsPass(text, i + |UnitText(units[0])|, units[1..]);
    }
  }

  lemma Quote(text: string, i: nat)
    requires i < |text| && text[i] == '"' && !At(text, i).escaped
    ensures At(text, i + 1) == At(text, i).(quoted := !At(text, i).quoted) && Spans(text, i + 1) == Spans(text, i)
  {
  }

  /** A string literal, whatever braces and escapes it holds, leaves the scanner where it was. */
  lemma StringPasses(text: string, i: nat, units: seq<Unit>)
    requires NameOk(units) && Reads(text, i, Quoted(units)) && !At(text, i).quoted
    ensures Passed(text, i, i + |Quoted(units)|)
  {
    hide At, Spans, UnitsText, NameOk, Reads;
    One(text, i, '"', UnitsText(units) + "\"");
    Split(text, i + 1, UnitsText(units), "\"");
    Quote(text, i);
    UnitsPass(text, i + 1, units);
    One(text, i + 1 + |UnitsText(units)|, '"', "");
    Quote(text, i + 1 + |UnitsText(units)|);
  }

  lemma Brace(text: string, i: nat)
    requires i < |text| && !At(text, i).quoted
    ensures text[i] == '{' ==>
      && At(text, i + 1)
           == Scan(At(text, i).depth + 1, if At(text, i).depth == 0 then i else At(text, i).start, false, false)
      && Spans(text, i + 1) == Spans(text, i)
    ensures text[i] == '}' && At(text, i).depth > 1 ==>
      && At(text, i + 1) == At(text, i).(depth := At(text, i).depth - 1)
      && Spans(text, i + 1) == Spans(text, i)
    ensures text[i] == '}' && At(text, i).depth == 1 ==>
      && At(text, i + 1) == IDLE
      && Spans(text, i + 1) == Spans(text, i) + [Span(At(text, i).start, i + 1)]
  {
  }

  // ---- The scanner over a value ----

  /** Inside an object every value leaves the scanner where it was. */
  lemma {:induction false} ValuePasses(text: string, i: nat, v: Value)
    requires WellFormed(v) && Reads(text, i, Text(v)) && !At(text, i).quoted && At(text, i).depth > 0
    ensures Passed(text, i, i + |Text(v)|)
    decreases v, 2
  {
    hide At, Spans, Quoted, ElementsText, ObjectText, Reads, ElementsOk, MembersOk, NameOk, Blank;
    match v
    case Str(units) =>
      StringPasses(text, i, units);
    case Array(pad, elements) =>
      ArrayPasses(text, i, pad, elements);
    case Object(pad, members) =>
      InsideObject(text, i, pad, members);
      Brace(text, i + |ObjectText(pad, members)| - 1);
    case _ =>
      assert Quiet(Text(v));
      QuietPasses(text, i, Text(v));
  }

  lemma {:induction false} ArrayPasses(text: string, i: nat, pad: string, elements: Elements)
    requires Blank(pad) && ElementsOk(elements)
    requires Reads(text, i, "[" + (pad + (ElementsText(elements) + "]")))
    requires !At(text, i).quoted && At(text, i).depth > 0
    ensures Passed(text, i, i + |"[" + (pad + (ElementsText(elements) + "]"))|)
    decreases elements, 1
  {
    hide At, Spans, ElementsText, Reads, ElementsOk;
    Split(text, i, "[", pad + (ElementsText(elements) + "]"));
    Split(text, i + 1, pad, ElementsText(elements) + "]");
    Split(text, i + 1 + |pad|, ElementsText(elements), "]");
    QuietPasses(text, i, "[");
    QuietPasses(text, i + 1, pad);
    ElementsPass(text, i + 1 + |pad|, elements);
    QuietPasses(text, i + 1 + |pad| + |ElementsText(elements)|, "]");
  }

  /** From the opening brace of an object to its closing one. */
  lemma {:induction false} InsideObject(text: string, i: nat, pad: string, members: Members)
    requires Blank(pad) && MembersOk(members) && Reads(text, i, ObjectText(pad, members)) && !At(text, i).quoted
    ensures var j := i + |ObjectText(pad, members)| - 1;
            && i < j < |text| && text[j] == '}'
            && At(text, j)
                 == Scan(At(text, i).depth + 1, if At(text, i).depth == 0 then i else At(text, i).start, false, false)
            && Spans(text, j) == Spans(text, i)
    decreases members, 1
  {
    hide At, Spans, MembersText, MembersOk, Reads;
    One(text, i, '{', pad + (MembersText(members) + "}"));
    Split(text, i + 1, pad, MembersText(members) + "}");
    Split(text, i + 1 + |pad|, MembersText(members), "}");
    Brace(text, i);
    QuietPasses(text, i + 1, pad);
    MembersPass(text, i + 1 + |pad|, members);
    One(text, i + 1 + |pad| + |MembersText(members)|, '}', "");
  }

  lemma SeparatorsQuiet(before: string, after: string, last: bool)
    requires Blank(before) && Blank(after)
    ensures Quiet(before) && Quiet(after + Comma(last))
  {
  }

  lemma ColonQuiet(a: string, b: string)
    requires Blank(a) && Blank(b)
    ensures Quiet(a + ":" + b)
  {
  }

  lemma {:induction false} ElementsPass(text: string, i: nat, e: Elements)
    requires ElementsOk(e) && Reads(text, i, ElementsText(e)) && !At(text, i).quoted && At(text, i).depth > 0
    ensures Passed(text, i, i + |ElementsText(e)|)
    decreases e, 0
  {
    hide At, Spans, Text, WellFormed, Reads, Blank, Quiet, Comma;
    match e
    case NoElement =>
      Within(text, i, "");
    case Element(before, value, after, rest) =>
      var sep := after + Comma(rest.NoElement?);
      SeparatorsQuiet(before, after, rest.NoElement?);
      Split(text, i, before, Text(value) + (sep + ElementsText(rest)));
      var j := i + |before|;
      Split(text, j, Text(value), sep + ElementsText(rest));
      var k := j + |Text(value)|;
      Split(text, k, sep, ElementsText(rest));
      QuietPasses(text, i, before);
      ValuePasses(text, j, value);
      QuietPasses(text, k, sep);
      ElementsPass(text, k + |sep|, rest);
  }

  lemma NamePasses(text: string, i: nat, before: string, name: seq<Unit>, colon: string)
    requires Quiet(before) && NameOk(name) && Quiet(colon)
    requires Reads(text, i, NameText(before, name, colon)) && !At(text, i).quoted
    ensures Passed(text, i, i + |NameText(before, name, colon)|)
  {
    hide At, Spans, Quoted, NameOk, Reads, Quiet;
    Split(text, i, before, Quoted(name) + colon);
    Split(text, i + |before|, Quoted(name), colon);
    QuietPasses(text, i, before);
    StringPasses(text, i + |before|, name);
    QuietPasses(text, i + |before| + |Quoted(name)|, colon);
  }

  lemma {:induction false} MembersPass(text: string, i: nat, m: Members)
    requires MembersOk(m) && Reads(text, i, MembersText(m)) && !At(text, i).quoted && At(text, i).depth > 0
    ensures Passed(text, i, i + |MembersText(m)|)
    decreases m, 0
  {
    hide At, Spans, Text, WellFormed, NameText, NameOk, Reads, Blank, Quiet, Comma;
    match m
    case NoMember =>
      Within(text, i, "");
    case Member(before, name, afterName, beforeValue, value, after, rest) =>
      var colon, sep := afterName + ":" + beforeValue, after + Comma(rest.NoMember?);
      SeparatorsQuiet(before, after, rest.NoMember?);
      ColonQuiet(afterName, beforeValue);
      Split(text, i, NameText(before, name, colon), Text(value) + (sep + MembersText(rest)));
      var l := i + |NameText(before, name, colon)|;
      Split(text, l, Text(value), sep + MembersText(rest));
      var n := l + |Text(value)|;
      Split(text, n, sep, MembersText(rest));
      NamePasses(text, i, before, name, colon);
      ValuePasses(text, l, value);
      QuietPasses(text, n, sep);
      MembersPass(text, n + |sep|, rest);
  }

  /** An object met outside every other is yielded, whole, as one block. */
  lemma ObjectYielded(text: string, i: nat, pad: string, members: Members)
    requires Blank(pad) && MembersOk(members) && Reads(text, i, ObjectText(pad, members)) && At(text, i) == IDLE
    ensures var j := i + |ObjectText(pad, members)|;
            j <= |text| && At(text, j) == IDLE && Spans(text, j) == Spans(text, i) + [Span(i, j)]
  {
    hide At, Spans, ObjectText, MembersOk;
    InsideObject(text, i, pad, members);
    Brace(text, i + |ObjectText(pad, members)| - 1);
  }
}
