/** Opening the envelope a model wraps its JSON in: prose, fences, several objects. */
module JsonEnvelope {
  import opened Options
  import opened JsonScanner
  import opened JsonGrammar

  // ---- Prose around objects ----

  function Quotes(p: string): nat {
    if p == "" then 0 else (if p[0] == '"' then 1 else 0) + Quotes(p[1..])
  }

  predicate Without(p: string, c: char) {
    forall k :: 0 <= k < |p| ==> p[k] != c
  }

  /** No brace opens, and a backslash cannot hide a quote. Stray closing braces are fine. */
  predicate Plainly(p: string) {
    Without(p, '{') && (Without(p, '"') || Without(p, '\\'))
  }

  predicate Prose(p: string) {
    Plainly(p) && Quotes(p) % 2 == 0
  }

  function Waiting(quoted: bool): Scan {
    IDLE.(quoted := quoted)
  }

  lemma WaitingStep(text: string, i: nat, quoted: bool)
    requires i < |text| && At(text, i) == Waiting(quoted) && text[i] != '{' && (quoted ==> text[i] != '\\')
    ensures At(text, i + 1) == Waiting(if text[i] == '"' then !quoted else quoted)
    ensures Spans(text, i + 1) == Spans(text, i)
  {
  }

  /** After prose the scanner is inside a string exactly when the quotes so far are odd. */
  lemma {:induction false} QuotesPair(text: string, i: nat, p: string, quoted: bool)
    requires Reads(text, i, p) && At(text, i) == Waiting(quoted) && Without(p, '{')
    requires (!quoted && Without(p, '"')) || Without(p, '\\')
    ensures i + |p| <= |text| && Spans(text, i + |p|) == Spans(text, i)
    ensures At(text, i + |p|) == Waiting(if quoted then Quotes(p) % 2 == 0 else Quotes(p) % 2 == 1)
    decreases |p|
  {
    hide At, Spans, Reads;
    Within(text, i, p);
    if p != "" {
      assert p == [p[0]] + p[1..];
      One(text, i, p[0], p[1..]);
      WaitingStep(text, i, quoted);
      QuotesPair(text, i + 1, p[1..], if p[0] == '"' then !quoted else quoted);
    }
  }

  /** Text that opens no brace yields no block, whatever its quotes and escapes do. */
  lemma {:induction false} TailYieldsNothing(text: string, i: nat, p: string)
    requires Reads(text, i, p) && At(text, i).depth == 0 && Without(p, '{')
    ensures i + |p| <= |text| && Spans(text, i + |p|) == Spans(text, i)
    decreases |p|
  {
    hide Reads;
    Within(text, i, p);
    if p != "" {
      assert p == [p[0]] + p[1..];
      One(text, i, p[0], p[1..]);
      TailYieldsNothing(text, i + 1, p[1..]);
    }
  }

  /** Prose, then objects separated by prose, then a tail. */
  datatype Answer = Tail(tail: string) | Part(prose: string, pad: string, members: Members, rest: Answer)

  predicate AnswerOk(a: Answer) {
    match a
    case Tail(tail) => Without(tail, '{')
    case Part(prose, pad, members, rest) => Prose(prose) && Blank(pad) && MembersOk(members) && AnswerOk(rest)
  }

  function AnswerText(a: Answer): string {
    match a
    case Tail(tail) => tail
    case Part(prose, pad, members, rest) => prose + (ObjectText(pad, members) + AnswerText(rest))
  }

  function Objects(a: Answer): seq<string> {
    match a
    case Tail(_) => []
    case Part(_, pad, members, rest) => [ObjectText(pad, members)] + Objects(rest)
  }

  lemma {:induction false} AnswerScanned(text: string, i: nat, a: Answer)
    requires AnswerOk(a) && Reads(text, i, AnswerText(a)) && i + |AnswerText(a)| == |text| && At(text, i) == IDLE
    ensures Blocks(text) == Cut(text, Spans(text, i)) + Objects(a)
    decreases a
  {
    hide At, Spans, Reads, Cut, ObjectText, MembersOk, Blank;
    match a
    case Tail(tail) =>
      TailYieldsNothing(text, i, tail);
    case Part(prose, pad, members, rest) =>
      var body := ObjectText(pad, members);
      Split(text, i, prose, body + AnswerText(rest));
      var j := i + |prose|;
      QuotesPair(text, i, prose, false);
      Split(text, j, body, AnswerText(rest));
      ObjectYielded(text, j, pad, members);
      var k := j + |body|;
      AnswerScanned(text, k, rest);
      Extended(text, Spans(text, i), Span(j, k));
      PieceRead(text, j, body);
  }

  lemma PieceRead(text: string, i: nat, piece: string)
    requires Reads(text, i, piece)
    ensures i + |piece| <= |text| && text[i..i + |piece|] == piece
  {
  }

  /** Every object of an answer is found, whole, in order, and nothing else is. */
  lemma EveryObjectFound(a: Answer)
    requires AnswerOk(a)
    ensures Blocks(AnswerText(a)) == Objects(a)
  {
    var text := AnswerText(a);
    assert text[0..0 + |text|] == text;
    AnswerScanned(text, 0, a);
  }

  /** An object after prose is found where it stands exactly when the quotes before it pair up. */
  lemma FoundIffQuotesPair(prose: string, pad: string, members: Members, tail: string)
    requires Plainly(prose) && Blank(pad) && MembersOk(members)
    ensures var body := ObjectText(pad, members);
            var text := prose + (body + tail);
            Span(|prose|, |prose| + |body|) in Spans(text, |text|) <==> Quotes(prose) % 2 == 0
  {
    hide At, Spans, ObjectText, MembersOk;
    var body := ObjectText(pad, members);
    var text := prose + (body + tail);
    var b := Span(|prose|, |prose| + |body|);
    assert text[0..0 + |text|] == text;
    Split(text, 0, prose, body + tail);
    Split(text, |prose|, body, tail);
    AtStart(text);
    QuotesPair(text, 0, prose, false);
    SpansAreTheBlocks(text, |text|, b);
    if Quotes(prose) % 2 == 0 {
      ObjectYielded(text, |prose|, pad, members);
      SpansAreTheBlocks(text, b.to, b);
    }
  }

  lemma {:induction false} SamePrefix(a: string, b: string, i: nat)
    requires i <= |a|
    ensures At(a + b, i) == At(a, i)
  {
    if i > 0 {
      SamePrefix(a, b, i - 1);
    }
  }

  /** After any text at all, an object is found where it stands exactly when no brace and no quote is open there. */
  lemma FoundIffNothingOpen(before: string, pad: string, members: Members, tail: string)
    requires Blank(pad) && MembersOk(members)
    ensures var body := ObjectText(pad, members);
            var text := before + (body + tail);
            (Span(|before|, |before| + |body|) in Spans(text, |text|))
              <==> (At(before, |before|).depth == 0 && !At(before, |before|).quoted)
  {
    hide At, Spans, MembersText, MembersOk;
    var body := ObjectText(pad, members);
    var text := before + (body + tail);
    var b := Span(|before|, |before| + |body|);
    assert text[0..0 + |text|] == text;
    Split(text, 0, before, body + tail);
    Split(text, |before|, body, tail);
    SamePrefix(before, body + tail, |before|);
    SpansAreTheBlocks(text, |text|, b);
    if At(before, |before|).depth == 0 && !At(before, |before|).quoted {
      ObjectYielded(text, |before|, pad, members);
      SpansAreTheBlocks(text, b.to, b);
    }
  }

  lemma AtStart(text: string)
    ensures At(text, 0) == IDLE && Spans(text, 0) == []
  {
  }

  // ---- Candidates ----

  predicate Space(c: char) {
    var n := c as int;
    || 9 <= n <= 13 || 28 <= n <= 32 || n == 0x85 || n == 0xA0 || n == 0x1680 || 0x2000 <= n <= 0x200A
    || n == 0x2028 || n == 0x2029 || n == 0x202F || n == 0x205F || n == 0x3000
  }

  function StripLeft(text: string): string {
    if text != "" && Space(text[0]) then StripLeft(text[1..]) else text
  }

  function StripRight(text: string): string {
    if text != "" && Space(text[|text| - 1]) then StripRight(text[..|text| - 1]) else text
  }

  function Strip(text: string): string {
    StripRight(StripLeft(text))
  }

  /** The first fence mark at or after i. */
  function Mark(text: string, i: nat): (p: Option<nat>)
    ensures p.Some? ==> i <= p.value && p.value + 3 <= |text|
    decreases |text| - i
  {
    if i + 3 > |text| then None
    else if text[i..i + 3] == "```" then Some(i)
    else Mark(text, i + 1)
  }

  predicate OfTag(c: char) {
    'a' <= c <= 'z' || 'A' <= c <= 'Z' || '0' <= c <= '9' || c == '_' || c == '+' || c == '-'
  }

  function PastTag(text: string, i: nat): (j: nat)
    requires i <= |text|
    ensures i <= j <= |text|
    decreases |text| - i
  {
    if i < |text| && OfTag(text[i]) then PastTag(text, i + 1) else i
  }

  function PastSpace(text: string, i: nat): (j: nat)
    requires i <= |text|
    ensures i <= j <= |text|
    decreases |text| - i
  {
    if i < |text| && Space(text[i]) then PastSpace(text, i + 1) else i
  }

  /** What stands inside the fences from i on; the last fence may lack its end. */
  function Fenced(text: string, i: nat): seq<string>
    decreases |text| - i
  {
    match Mark(text, i)
    case None => []
    case Some(p) =>
      var from := PastSpace(text, PastTag(text, p + 3));
      match Mark(text, from)
      case None => [text[from..]]
      case Some(to) => [text[from..to]] + Fenced(text, to + 3)
  }

  function Trimmed(pieces: seq<string>): seq<string> {
    if pieces == [] then []
    else
      var last := Strip(pieces[|pieces| - 1]);
      Trimmed(pieces[..|pieces| - 1]) + if last == "" then [] else [last]
  }

  /** Tried before the blocks: the whole text, then the insides of its fences. */
  function Early(text: string): seq<string> {
    (if Strip(text) == "" then [] else [Strip(text)]) + Trimmed(Fenced(Strip(text), 0))
  }

  lemma TrimmedMore(pieces: seq<string>, i: nat)
    requires i < |pieces|
    ensures Trimmed(pieces[..i + 1]) == Trimmed(pieces[..i]) + if Strip(pieces[i]) == "" then [] else [Strip(pieces[i])]
  {
    assert pieces[..i + 1][..i] == pieces[..i];
  }

  lemma TrimmedNone()
    ensures Trimmed([]) == []
  {
  }

  method Candidates(text: string) returns (found: seq<string>)
    ensures found == Early(text) + Blocks(Strip(text))
  {
    hide Strip, Trimmed, Fenced, Blocks;
    found := [];
    var raw := Strip(text);
    if raw != "" {
      found := found + [raw];
    }
    ghost var whole := found;
    TrimmedNone();
    var fenced := Fenced(raw, 0);
    for i := 0 to |fenced|
      invariant found == whole + Trimmed(fenced[..i])
    {
      TrimmedMore(fenced, i);
      var piece := Strip(fenced[i]);
      if piece != "" {
        found := found + [piece];
      }
    }
    assert fenced[..|fenced|] == fenced;
    ghost var early := found;
    var blocks := BalancedBlocks(raw);
    for i := 0 to |blocks|
      invariant found == early + blocks[..i]
    {
      found := found + [blocks[i]];
    }
  }

  // ---- The choice among the candidates ----

  function Parsed<V>(candidates: seq<string>, loads: string -> Option<V>): seq<V> {
    if candidates == [] then []
    else (match loads(candidates[0]) case None => [] case Some(v) => [v]) + Parsed(candidates[1..], loads)
  }

  function Choose<V>(values: seq<V>, empty: V -> bool, pending: Option<V>): Option<V> {
    if values == [] then pending
    else if empty(values[0]) && pending.None? then Choose(values[1..], empty, Some(values[0]))
    else Some(values[0])
  }

  lemma {:induction false} ParsedSplit<V>(a: seq<string>, b: seq<string>, loads: string -> Option<V>)
    ensures Parsed(a + b, loads) == Parsed(a, loads) + Parsed(b, loads)
  {
    if a == [] {
      assert a + b == b;
    } else {
      assert (a + b)[1..] == a[1..] + b;
      ParsedSplit(a[1..], b, loads);
    }
  }

  /** The first value, unless it is empty and another follows: then the second, whatever it is. */
  lemma ChoiceIs<V>(values: seq<V>, empty: V -> bool)
    ensures Choose(values, empty, None) ==
      if values == [] then None else if empty(values[0]) && |values| > 1 then Some(values[1]) else Some(values[0])
  {
    if values != [] && |values[1..]| > 0 {
      assert values[1..][0] == values[1];
    }
  }

  /** The values are those of the candidates that parse, in the order of the candidates. */
  lemma {:induction false} ParsedAre<V>(candidates: seq<string>, loads: string -> Option<V>, k: nat)
    requires k < |candidates|
    ensures var before := |Parsed(candidates[..k], loads)|;
            && (loads(candidates[k]).Some? ==>
                 && before < |Parsed(candidates, loads)|
                 && Parsed(candidates, loads)[before] == loads(candidates[k]).value)
            && |Parsed(candidates[..k + 1], loads)| == before + if loads(candidates[k]).Some? then 1 else 0
  {
    var rest := candidates[k + 1..];
    assert candidates == candidates[..k] + ([candidates[k]] + rest);
    assert candidates[..k + 1] == candidates[..k] + [candidates[k]];
    ParsedSplit(candidates[..k], [candidates[k]] + rest, loads);
    ParsedSplit([candidates[k]], rest, loads);
    ParsedSplit(candidates[..k], [candidates[k]], loads);
    assert [candidates[k]][1..] == [];
  }

  /** The extraction: parse the candidates in order, hold back one empty container. */
  method Extract<V>(text: string, loads: string -> Option<V>, empty: V -> bool) returns (r: Option<V>)
    ensures r == Choose(Parsed(Early(text) + Blocks(Strip(text)), loads), empty, None)
  {
    hide Early, Blocks, Strip;
    var pending: Option<V> := None;
    var candidates := Candidates(text);
    assert candidates[0..] == candidates;
    for i := 0 to |candidates|
      invariant Choose(Parsed(candidates, loads), empty, None) == Choose(Parsed(candidates[i..], loads), empty, pending)
    {
      assert candidates[i..][1..] == candidates[i + 1..];
      ghost var later := Parsed(candidates[i + 1..], loads);
      var parsed := loads(candidates[i]);
      match parsed {
        case None =>
          assert [] + later == later;
        case Some(v) =>
          assert ([v] + later)[1..] == later;
          if empty(v) && pending.None? {
            pending := Some(v);
          } else {
            return Some(v);
          }
      }
    }
    return pending;
  }

  /** How many empty containers come before the first value that is not one. */
  function Empties<V>(values: seq<V>, empty: V -> bool): (n: nat)
    ensures n <= |values|
    ensures forall k :: 0 <= k < n ==> empty(values[k])
    ensures n < |values| ==> !empty(values[n])
  {
    if values != [] && empty(values[0]) then 1 + Empties(values[1..], empty) else 0
  }

  /** What the extraction is documented to return: the first non-empty value, or else the first one. */
  function Promised<V>(values: seq<V>, empty: V -> bool): Option<V> {
    var n := Empties(values, empty);
    if n < |values| then Some(values[n]) else if n > 0 then Some(values[0]) else None
  }

  /**
   * The choice meets its documentation exactly when fewer than two empty containers lead the
   * candidates, or when nothing else follows and the first two are the same.
   */
  lemma ChoiceMeetsPromise<V>(values: seq<V>, empty: V -> bool)
    ensures Choose(values, empty, None) == Promised(values, empty)
      <==> Empties(values, empty) < 2 || (Empties(values, empty) == |values| && values[0] == values[1])
  {
    if values != [] && empty(values[0]) {
      var rest := values[1..];
      assert Choose(values, empty, None) == Choose(rest, empty, Some(values[0]));
      if rest != [] {
        assert rest[0] == values[1];
        assert Choose(rest, empty, Some(values[0])) == Some(values[1]);
      }
    }
  }

  // ---- Stripping keeps the answer ----

  lemma {:induction false} StripLeftOfProse(p: string, rest: string)
    requires rest != "" && !Space(rest[0]) && Prose(p)
    ensures StripLeft(p + rest) == StripLeft(p) + rest && Prose(StripLeft(p))
    decreases |p|
  {
    hide Space;
    if p == "" {
      assert p + rest == rest;
    } else if Space(p[0]) {
      assert (p + rest)[1..] == p[1..] + rest;
      QuoteIsNoSpace(p[0]);
      StripLeftOfProse(p[1..], rest);
    }
  }

  lemma QuoteIsNoSpace(c: char)
    requires Space(c)
    ensures c != '"'
  {
  }

  lemma {:induction false} StripRightOfTail(head: string, q: string)
    requires head != "" && !Space(head[|head| - 1]) && Without(q, '{')
    ensures StripRight(head + q) == head + StripRight(q) && Without(StripRight(q), '{')
    decreases |q|
  {
    hide Space;
    if q == "" {
      assert head + q == head;
    } else if Space(q[|q| - 1]) {
      assert (head + q)[..|head + q| - 1] == head + q[..|q| - 1];
      StripRightOfTail(head, q[..|q| - 1]);
    }
  }

  lemma StripAnswer(prose: string, pad: string, members: Members, tail: string)
    requires Prose(prose) && Without(tail, '{')
    ensures Strip(prose + (ObjectText(pad, members) + tail))
      == StripLeft(prose) + (ObjectText(pad, members) + StripRight(tail))
    ensures Prose(StripLeft(prose)) && Without(StripRight(tail), '{')
  {
    hide StripLeft, StripRight, Prose, MembersText;
    var body := ObjectText(pad, members);
    assert body[0] == '{' && body[|body| - 1] == '}' && !Space('{') && !Space('}');
    StripLeftOfProse(prose, body + tail);
    var head := StripLeft(prose) + body;
    assert StripLeft(prose) + (body + tail) == head + tail;
    assert head[|head| - 1] == body[|body| - 1];
    StripRightOfTail(head, tail);
    assert head + StripRight(tail) == StripLeft(prose) + (body + StripRight(tail));
  }

  /** An object wrapped in prose comes out, as long as the earlier candidates parse to nothing else. */
  lemma EnvelopeOpened<V>(prose: string, pad: string, members: Members, tail: string,
                          loads: string -> Option<V>, empty: V -> bool, v: V)
    requires Prose(prose) && Blank(pad) && MembersOk(members) && Without(tail, '{')
    requires loads(ObjectText(pad, members)) == Some(v)
    requires var text := prose + (ObjectText(pad, members) + tail);
             forall c :: c in Early(text) ==> loads(c) == None || loads(c) == Some(v)
    ensures var text := prose + (ObjectText(pad, members) + tail);
            Choose(Parsed(Early(text) + Blocks(Strip(text)), loads), empty, None) == Some(v)
  {
    hide Early, Strip, StripLeft, StripRight, Prose, ObjectText, Blank, MembersOk, Blocks, Without;
    var body := ObjectText(pad, members);
    var text := prose + (body + tail);
    StripAnswer(prose, pad, members, tail);
    var a := Part(StripLeft(prose), pad, members, Tail(StripRight(tail)));
    EveryObjectFound(a);
    assert AnswerText(a) == Strip(text);
    assert Blocks(Strip(text)) == [body];
    ParsedSplit(Early(text), [body], loads);
    OnlyOneValue(Early(text), loads, v);
    var early := Parsed(Early(text), loads);
    assert Parsed([body], loads) == [v] + [];
    SameAllThrough(early + [v], empty, v);
  }

  lemma {:induction false} OnlyOneValue<V>(candidates: seq<string>, loads: string -> Option<V>, v: V)
    requires forall c :: c in candidates ==> loads(c) == None || loads(c) == Some(v)
    ensures forall x :: x in Parsed(candidates, loads) ==> x == v
  {
    if candidates != [] {
      assert candidates[0] in candidates;
      OnlyOneValue(candidates[1..], loads, v);
    }
  }

  lemma SameAllThrough<V>(values: seq<V>, empty: V -> bool, v: V)
    requires values != [] && forall x :: x in values ==> x == v
    ensures Choose(values, empty, None) == Some(v)
  {
    assert values[0] in values;
    if |values| > 1 {
      assert values[1] in values;
      assert values[1..][0] == v;
    }
  }

  /** Two empty objects before the real one hide it: the second is returned, whatever follows. */
  lemma TwoEmptyObjectsHideTheRest<V>(pad: string, members: Members, loads: string -> Option<V>, empty: V -> bool, e: V)
    requires Blank(pad) && MembersOk(members)
    requires loads("{}") == Some(e) && empty(e)
    requires var text := AnswerText(TwoThen(pad, members));
             forall c :: c in Early(text) ==> loads(c) == None
    ensures var text := AnswerText(TwoThen(pad, members));
            && Blocks(Strip(text)) == ["{}", "{}", ObjectText(pad, members)]
            && Choose(Parsed(Early(text) + Blocks(Strip(text)), loads), empty, None) == Some(e)
  {
    hide Early, Strip, Blocks, ObjectText, AnswerText, AnswerOk, MembersOk;
    var a := TwoThen(pad, members);
    var blocks := ["{}", "{}", ObjectText(pad, members)];
    TwoThenText(pad, members);
    EveryObjectFound(a);
    NothingToStrip(AnswerText(a));
    NothingParsed(Early(AnswerText(a)), loads);
    ParsedSplit(Early(AnswerText(a)), blocks, loads);
    assert [] + Parsed(blocks, loads) == Parsed(blocks, loads);
    SecondEmptyWins(blocks, loads, empty, e);
  }

  lemma SecondEmptyWins<V>(blocks: seq<string>, loads: string -> Option<V>, empty: V -> bool, e: V)
    requires |blocks| >= 2 && blocks[0] == blocks[1] && loads(blocks[0]) == Some(e) && empty(e)
    ensures Choose(Parsed(blocks, loads), empty, None) == Some(e)
  {
    var one := Parsed(blocks[1..], loads);
    assert one == [e] + Parsed(blocks[1..][1..], loads);
    assert Parsed(blocks, loads) == [e] + one;
    assert Parsed(blocks, loads)[1..] == one;
  }

  lemma TwoThenText(pad: string, members: Members)
    requires Blank(pad) && MembersOk(members)
    ensures var a, text := TwoThen(pad, members), AnswerText(TwoThen(pad, members));
            && AnswerOk(a) && Objects(a) == ["{}", "{}", ObjectText(pad, members)]
            && text != "" && text[0] == '{' && text[|text| - 1] == '}'
  {
    hide AnswerOk, Objects, AnswerText, ObjectText, MembersOk, Blank, Space;
    TwoThenOk(pad, members);
    TwoThenObjects(pad, members);
    TwoThenEnds(pad, members);
  }

  lemma TwoThenOk(pad: string, members: Members)
    requires Blank(pad) && MembersOk(members)
    ensures AnswerOk(TwoThen(pad, members))
  {
    hide MembersOk, Blank;
    NoMemberOk();
    assert Prose("") && Prose(" ");
    var a := TwoThen(pad, members);
    assert AnswerOk(a.rest.rest.rest) && AnswerOk(a.rest.rest) && AnswerOk(a.rest);
  }

  lemma TwoThenObjects(pad: string, members: Members)
    ensures Objects(TwoThen(pad, members)) == ["{}", "{}", ObjectText(pad, members)]
  {
    hide ObjectText;
    var a, body := TwoThen(pad, members), ObjectText(pad, members);
    EmptyText();
    assert Objects(a.rest.rest) == [body] + [];
    assert Objects(a.rest) == ["{}"] + [body];
    assert Objects(a) == ["{}"] + (["{}"] + [body]);
  }

  lemma EmptyText()
    ensures ObjectText("", NoMember) == "{}"
  {
  }

  lemma TwoThenEnds(pad: string, members: Members)
    ensures var text := AnswerText(TwoThen(pad, members));
            text != "" && text[0] == '{' && text[|text| - 1] == '}'
  {
    hide MembersText;
    var a, body := TwoThen(pad, members), ObjectText(pad, members);
    EmptyText();
    var second := AnswerText(a.rest.rest);
    assert AnswerText(Tail("")) == "";
    assert second == " " + (body + AnswerText(a.rest.rest.rest));
    assert second[|second| - 1] == body[|body| - 1] == '}';
    var first := AnswerText(a.rest);
    assert first == " " + ("{}" + second);
    assert AnswerText(a) == "" + ("{}" + first);
  }

  lemma NoMemberOk()
    ensures MembersOk(NoMember) && Blank("")
  {
  }

  function TwoThen(pad: string, members: Members): Answer {
    Part("", "", NoMember, Part(" ", "", NoMember, Part(" ", pad, members, Tail(""))))
  }

  lemma NothingToStrip(text: string)
    requires text != "" && text[0] == '{' && text[|text| - 1] == '}'
    ensures Strip(text) == text
  {
  }

  lemma {:induction false} NothingParsed<V>(candidates: seq<string>, loads: string -> Option<V>)
    requires forall c :: c in candidates ==> loads(c) == None
    ensures Parsed(candidates, loads) == []
  {
    if candidates != [] {
      assert candidates[0] in candidates;
      NothingParsed(candidates[1..], loads);
    }
  }

  // ---- Fences ----

  predicate AllSpace(text: string) {
    forall k :: 0 <= k < |text| ==> Space(text[k])
  }

  predicate AllTag(text: string) {
    forall k :: 0 <= k < |text| ==> OfTag(text[k])
  }

  lemma {:induction false} MarkFound(text: string, i: nat, n: nat)
    requires i <= n && n + 3 <= |text| && text[n..n + 3] == "```"
    requires forall k :: i <= k < n ==> text[k] != '`'
    ensures Mark(text, i) == Some(n)
    decreases n - i
  {
    if i < n {
      assert text[i..i + 3][0] != '`';
      MarkFound(text, i + 1, n);
    }
  }

  lemma {:induction false} MarkMissing(text: string, i: nat)
    requires i <= |text| && forall k :: i <= k < |text| ==> text[k] != '`'
    ensures Mark(text, i) == None
    decreases |text| - i
  {
    if i + 3 <= |text| {
      assert text[i..i + 3][0] != '`';
      MarkMissing(text, i + 1);
    }
  }

  lemma {:induction false} TagPassed(text: string, i: nat, n: nat)
    requires i <= n < |text| && (forall k :: i <= k < n ==> OfTag(text[k])) && !OfTag(text[n])
    ensures PastTag(text, i) == n
    decreases n - i
  {
    hide OfTag;
    if i < n {
      TagPassed(text, i + 1, n);
    }
  }

  lemma {:induction false} SpacePassed(text: string, i: nat, n: nat)
    requires i <= n < |text| && (forall k :: i <= k < n ==> Space(text[k])) && !Space(text[n])
    ensures PastSpace(text, i) == n
    decreases n - i
  {
    hide Space;
    if i < n {
      SpacePassed(text, i + 1, n);
    }
  }

  lemma {:induction false} SpaceStripped(text: string)
    requires AllSpace(text)
    ensures StripRight(text) == ""
    decreases |text|
  {
    hide Space;
    if text != "" {
      SpaceStripped(text[..|text| - 1]);
    }
  }

  lemma {:induction false} TrimmedHas(pieces: seq<string>, k: nat)
    requires k < |pieces| && Strip(pieces[k]) != ""
    ensures Strip(pieces[k]) in Trimmed(pieces)
  {
    hide Strip;
    if k < |pieces| - 1 {
      TrimmedHas(pieces[..|pieces| - 1], k);
    }
  }

  lemma InsideStripped(body: string, trail: string)
    requires body != "" && body[0] == '{' && body[|body| - 1] == '}' && AllSpace(trail) && Without(trail, '{')
    ensures Strip(body + trail) == body
  {
    hide AllSpace;
    assert (body + trail)[0] == '{';
    StripRightOfTail(body, trail);
    SpaceStripped(trail);
    assert body + "" == body;
  }

  /** What stands between the marks, from the first on: prose, mark, tag, blanks, then the body. */
  lemma FenceWalked(prose: string, tag: string, lead: string, body: string, trail: string, end: string)
    requires Without(prose, '`') && AllTag(tag) && AllSpace(lead) && Without(body + trail, '`')
    requires body != "" && body[0] == '{' && (end == "" || (|end| >= 3 && end[..3] == "```"))
    ensures var text := prose + "```" + tag + lead + (body + trail) + end;
            Fenced(text, 0) != [] && Fenced(text, 0)[0] == body + trail
  {
    hide Mark, PastTag, PastSpace, OfTag, Space;
    var text := prose + "```" + tag + lead + (body + trail) + end;
    var a := |prose| + 3;
    var b := a + |tag|;
    var c := b + |lead|;
    var d := c + |body + trail|;
    assert text[a - 3..a] == "```";
    assert forall k :: 0 <= k < a - 3 ==> text[k] == prose[k];
    MarkFound(text, 0, a - 3);
    assert forall k :: a <= k < b ==> text[k] == tag[k - a];
    assert forall k :: b <= k < c ==> text[k] == lead[k - b];
    assert forall k :: c <= k < d ==> text[k] == (body + trail)[k - c];
    assert text[c] == '{';
    BraceIsNeither();
    if lead == "" {
      TagPassed(text, a, b);
    } else {
      SpaceIsNoTag(text[b]);
      TagPassed(text, a, b);
    }
    SpacePassed(text, b, c);
    assert text[c..d] == body + trail;
    if end == "" {
      MarkMissing(text, c);
      assert text[c..] == body + trail;
    } else {
      assert text[d..d + 3] == end[..3];
      MarkFound(text, c, d);
    }
  }

  lemma BraceIsNeither()
    ensures !OfTag('{') && !Space('{')
  {
  }

  lemma SpaceIsNoTag(c: char)
    requires Space(c)
    ensures !OfTag(c)
  {
  }

  lemma {:induction false} StripLeftKeeps(p: string, rest: string)
    requires rest != "" && !Space(rest[0]) && Without(p, '`')
    ensures StripLeft(p + rest) == StripLeft(p) + rest && Without(StripLeft(p), '`')
    decreases |p|
  {
    hide Space;
    if p == "" {
      assert p + rest == rest;
    } else if Space(p[0]) {
      assert (p + rest)[1..] == p[1..] + rest;
      StripLeftKeeps(p[1..], rest);
    }
  }

  lemma {:induction false} StripRightKeeps(head: string, q: string)
    requires head != "" && !Space(head[|head| - 1])
    ensures StripRight(head + q) == head + StripRight(q)
    decreases |q|
  {
    hide Space;
    if q == "" {
      assert head + q == head;
    } else if Space(q[|q| - 1]) {
      assert (head + q)[..|head + q| - 1] == head + q[..|q| - 1];
      StripRightKeeps(head, q[..|q| - 1]);
    }
  }

  function FencedText(prose: string, tag: string, lead: string, body: string, trail: string, end: string): string {
    prose + "```" + tag + lead + (body + trail) + end
  }

  lemma MarksAreNoSpace()
    ensures !Space('`') && !Space('}')
  {
  }

  /** Stripping a fenced text leaves it fenced: only the blanks around it go. */
  lemma FencedStripped(prose: string, tag: string, lead: string, body: string, trail: string, end: string)
    returns (trail': string, end': string)
    requires Without(prose, '`') && AllSpace(trail) && (end == "" || (|end| >= 3 && end[..3] == "```"))
    requires body != "" && body[|body| - 1] == '}'
    ensures Strip(FencedText(prose, tag, lead, body, trail, end))
      == FencedText(StripLeft(prose), tag, lead, body, trail', end')
    ensures trail' == trail || trail' == ""
    ensures end' == "" || (|end'| >= 3 && end'[..3] == "```")
    ensures Without(StripLeft(prose), '`')
  {
    hide Space, StripLeft, StripRight, Without, AllSpace;
    MarksAreNoSpace();
    var rest := "```" + tag + lead + (body + trail) + end;
    assert FencedText(prose, tag, lead, body, trail, end) == prose + rest;
    StripLeftKeeps(prose, rest);
    var p := StripLeft(prose);
    if end == "" {
      var head := p + "```" + tag + lead + body;
      assert p + rest == head + trail;
      assert head[|head| - 1] == body[|body| - 1];
      StripRightKeeps(head, trail);
      SpaceStripped(trail);
      assert head + "" == FencedText(p, tag, lead, body, "", "");
      trail', end' := "", "";
    } else {
      var head, q := p + "```" + tag + lead + (body + trail) + "```", end[3..];
      assert end == "```" + q;
      assert p + rest == head + q;
      StripRightKeeps(head, q);
      trail', end' := trail, "```" + StripRight(q);
      assert head + StripRight(q) == FencedText(p, tag, lead, body, trail, end');
    }
  }

  /** An object in a fence, with or without a language tag or a closing mark, is tried before the blocks. */
  lemma FencedObjectIsTried(prose: string, tag: string, lead: string, pad: string, members: Members,
                            trail: string, end: string)
    requires Without(prose, '`') && AllTag(tag) && AllSpace(lead) && AllSpace(trail) && Without(trail, '{')
    requires Without(ObjectText(pad, members) + trail, '`')
    requires end == "" || (|end| >= 3 && end[..3] == "```")
    ensures ObjectText(pad, members) in Early(FencedText(prose, tag, lead, ObjectText(pad, members), trail, end))
  {
    hide Fenced, Trimmed, Strip, MembersText, Without, AllSpace, AllTag, FencedText, StripLeft;
    var body := ObjectText(pad, members);
    assert body[0] == '{' && body[|body| - 1] == '}';
    var t, e := FencedStripped(prose, tag, lead, body, trail, end);
    PartWithout(body, trail, t);
    var stripped := FencedText(StripLeft(prose), tag, lead, body, t, e);
    FenceWalked(StripLeft(prose), tag, lead, body, t, e);
    InsideStripped(body, t);
    FencedIs(StripLeft(prose), tag, lead, body, t, e);
    TrimmedHas(Fenced(stripped, 0), 0);
  }

  lemma FencedIs(prose: string, tag: string, lead: string, body: string, trail: string, end: string)
    ensures FencedText(prose, tag, lead, body, trail, end) == prose + "```" + tag + lead + (body + trail) + end
  {
  }

  lemma PartWithout(body: string, trail: string, part: string)
    requires Without(body + trail, '`') && AllSpace(trail) && Without(trail, '{') && (part == trail || part == "")
    ensures Without(body + part, '`') && AllSpace(part) && Without(part, '{')
  {
    assert forall k :: 0 <= k < |body| ==> (body + trail)[k] == body[k];
  }
}
