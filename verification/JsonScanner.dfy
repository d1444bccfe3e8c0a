/**
 * Finding JSON objects inside a model's answer: the string-aware brace scanner and the choice
 * among the candidates it yields.
 */
module JsonScanner {
  import opened Options

  // ---- The scanner as a machine over positions ----

  /** depth: open braces; start: where the outermost one opened, or -1; quoted, escaped: inside a string. */
  datatype Scan = Scan(depth: nat, start: int, quoted: bool, escaped: bool)

  datatype Span = Span(from: int, to: int)

  const IDLE := Scan(0, -1, false, false)

  function Next(s: Scan, c: char, i: nat): Scan {
    if s.quoted then
      if s.escaped then s.(escaped := false)
      else if c == '\\' then s.(escaped := true)
      else if c == '"' then s.(quoted := false)
      else s
    else if c == '"' then s.(quoted := true)
    else if c == '{' then Scan(s.depth + 1, if s.depth == 0 then i else s.start, false, s.escaped)
    else if c == '}' && s.depth > 0 then
      Scan(s.depth - 1, if s.depth == 1 && s.start >= 0 then -1 else s.start, false, s.escaped)
    else s
  }

  predicate Closes(s: Scan, c: char) {
    !s.quoted && c == '}' && s.depth == 1 && s.start >= 0
  }

  /** The scanner's variables after the first i characters. */
  function At(text: string, i: nat): (s: Scan)
    requires i <= |text|
    ensures s.depth > 0 <==> s.start >= 0
    ensures -1 <= s.start < i
    ensures s.escaped ==> s.quoted
  {
    if i == 0 then IDLE else Next(At(text, i - 1), text[i - 1], i - 1)
  }

  /** The blocks yielded while reading the first i characters, as half-open spans. */
  function Spans(text: string, i: nat): (spans: seq<Span>)
    requires i <= |text|
    ensures forall k :: 0 <= k < |spans| ==> 0 <= spans[k].from < spans[k].to <= i
  {
    if i == 0 then []
    else
      var s := At(text, i - 1);
      Spans(text, i - 1) + if Closes(s, text[i - 1]) then [Span(s.start, i)] else []
  }

  predicate Inside(text: string, spans: seq<Span>) {
    forall k :: 0 <= k < |spans| ==> 0 <= spans[k].from <= spans[k].to <= |text|
  }

  function Cut(text: string, spans: seq<Span>): (pieces: seq<string>)
    requires Inside(text, spans)
    ensures |pieces| == |spans|
    ensures forall k :: 0 <= k < |spans| ==> pieces[k] == text[spans[k].from..spans[k].to]
  {
    if spans == [] then []
    else Cut(text, spans[..|spans| - 1]) + [text[spans[|spans| - 1].from..spans[|spans| - 1].to]]
  }

  function Blocks(text: string): seq<string> {
    Cut(text, Spans(text, |text|))
  }

  lemma Extended(text: string, spans: seq<Span>, last: Span)
    requires Inside(text, spans) && 0 <= last.from <= last.to <= |text|
    ensures Inside(text, spans + [last])
    ensures Cut(text, spans + [last]) == Cut(text, spans) + [text[last.from..last.to]]
  {
    var longer := spans + [last];
    assert longer[..|spans|] == spans;
  }

  /** The generator: five variables and one pass. */
  method BalancedBlocks(text: string) returns (blocks: seq<string>)
    ensures blocks == Blocks(text)
  {
    var depth, start, quoted, escaped := 0, -1, false, false;
    blocks := [];
    hide Cut;
    assert Cut(text, []) == [];
    for i := 0 to |text|
      invariant 0 <= depth && Scan(depth, start, quoted, escaped) == At(text, i)
      invariant blocks == Cut(text, Spans(text, i))
    {
      var c := text[i];
      ghost var was := At(text, i);
      ghost var spans := Spans(text, i);
      if quoted {
        if escaped {
          escaped := false;
        } else if c == '\\' {
          escaped := true;
        } else if c == '"' {
          quoted := false;
        }
      } else if c == '"' {
        quoted := true;
      } else if c == '{' {
        if depth == 0 {
          start := i;
        }
        depth := depth + 1;
      } else if c == '}' && depth != 0 {
        depth := depth - 1;
        if depth == 0 && start >= 0 {
          Extended(text, spans, Span(start, i + 1));
          blocks := blocks + [text[start..i + 1]];
          start := -1;
        }
      }
    }
  }

  // ---- What the blocks of any text are ----

  /** A block opens at an unquoted brace outside every other and ends where the depth is first zero again. */
  ghost predicate IsBlock(text: string, b: Span) {
    && 0 <= b.from < b.to <= |text|
    && text[b.from] == '{' && At(text, b.from).depth == 0 && !At(text, b.from).quoted
    && (forall k :: b.from < k < b.to ==> At(text, k).depth > 0)
    && At(text, b.to).depth == 0
  }

  /** While a brace is open, `start` is where it opened. */
  lemma {:induction false} OpenSince(text: string, i: nat)
    requires i <= |text| && At(text, i).depth > 0
    ensures var a := At(text, i).start;
            && text[a] == '{' && At(text, a).depth == 0 && !At(text, a).quoted
            && (forall k :: a < k <= i ==> At(text, k).depth > 0 && At(text, k).start == a)
  {
    if At(text, i - 1).depth > 0 {
      OpenSince(text, i - 1);
    }
  }

  lemma {:induction false} StartKept(text: string, a: nat, k: nat)
    requires a < k <= |text| && text[a] == '{' && At(text, a).depth == 0 && !At(text, a).quoted
    requires forall j :: a < j <= k ==> At(text, j).depth > 0
    ensures At(text, k).start == a
  {
    if a + 1 < k {
      StartKept(text, a, k - 1);
    }
  }

  /** A block ends where the scanner closes the one that is open, and nowhere else. */
  lemma BlockEnds(text: string, b: Span)
    requires 0 < b.to <= |text|
    ensures IsBlock(text, b) <==> Closes(At(text, b.to - 1), text[b.to - 1]) && b.from == At(text, b.to - 1).start
  {
    var i := b.to - 1;
    if Closes(At(text, i), text[i]) {
      OpenSince(text, i);
      if IsBlock(text, b) && b.from < i {
        StartKept(text, b.from, i);
      }
    } else {
      assert At(text, i + 1) == Next(At(text, i), text[i], i);
    }
  }

  /** The spans yielded are exactly the blocks of the text, for every text. */
  lemma {:induction false} SpansAreTheBlocks(text: string, i: nat, b: Span)
    requires i <= |text|
    ensures b in Spans(text, i) <==> IsBlock(text, b) && b.to <= i
  {
    hide At, IsBlock, Closes;
    if i > 0 {
      SpansAreTheBlocks(text, i - 1, b);
      assert b in Spans(text, i) <==>
        b in Spans(text, i - 1) || (Closes(At(text, i - 1), text[i - 1]) && b == Span(At(text, i - 1).start, i));
      if b.to == i {
        BlockEnds(text, b);
      }
    } else if IsBlock(text, b) {
      Positive(text, b);
    }
  }

  lemma Positive(text: string, b: Span)
    requires IsBlock(text, b)
    ensures b.to > 0
  {
  }

  /** Blocks come in reading order and do not overlap. */
  lemma {:induction false} SpansInOrder(text: string, i: nat, j: nat, k: nat)
    requires i <= |text| && j < k < |Spans(text, i)|
    ensures Spans(text, i)[j].to <= Spans(text, i)[k].from
  {
    var spans := Spans(text, i);
    if k < |Spans(text, i - 1)| {
      SpansInOrder(text, i - 1, j, k);
    } else {
      assert spans[j] in Spans(text, i);
      assert spans[k] in Spans(text, i);
      SpansAreTheBlocks(text, i, spans[j]);
      SpansAreTheBlocks(text, i, spans[k]);
      assert spans[j] == Spans(text, i - 1)[j] && spans[k].to == i;
      assert At(text, spans[j].to).depth == 0;
    }
  }

  /** The machine does not depend on where it starts, as long as it starts idle. */
  lemma {:induction false} Shifted(text: string, a: nat, b: nat, k: nat)
    requires a <= b <= |text| && k <= b - a && At(text, a) == IDLE
    ensures var here, there := At(text[a..b], k), At(text, a + k);
            && here.depth == there.depth && here.quoted == there.quoted && here.escaped == there.escaped
  {
    if k > 0 {
      Shifted(text, a, b, k - 1);
      assert text[a..b][k - 1] == text[a + k - 1];
    }
  }

  /** A block is self-contained: scanned alone, it is one block, the whole of it. */
  lemma RescanIsIdentity(text: string, b: Span)
    requires b in Spans(text, |text|)
    ensures Blocks(text[b.from..b.to]) == [text[b.from..b.to]]
  {
    hide At, Spans, Blocks;
    SpansAreTheBlocks(text, |text|, b);
    WholeIsBlock(text, b);
    var piece := text[b.from..b.to];
    SpansAreTheBlocks(piece, |piece|, Span(0, |piece|));
    OnlyOne(piece);
  }

  lemma WholeIsBlock(text: string, b: Span)
    requires IsBlock(text, b)
    ensures var piece := text[b.from..b.to]; IsBlock(piece, Span(0, |piece|))
  {
    hide At;
    var piece := text[b.from..b.to];
    forall k | 0 <= k <= |piece|
      ensures At(piece, k).depth == At(text, b.from + k).depth && At(piece, k).quoted == At(text, b.from + k).quoted
    {
      Shifted(text, b.from, b.to, k);
    }
    assert piece[0] == text[b.from];
    forall k | 0 < k < |piece|
      ensures At(piece, k).depth > 0
    {
      assert At(text, b.from + k).depth > 0;
    }
  }

  lemma OnlyOne(piece: string)
    requires Span(0, |piece|) in Spans(piece, |piece|)
    ensures Blocks(piece) == [piece]
  {
    var spans := Spans(piece, |piece|);
    var k :| 0 <= k < |spans| && spans[k] == Span(0, |piece|);
    if k > 0 {
      SpansInOrder(piece, |piece|, 0, k);
      assert false;
    }
    if |spans| > 1 {
      SpansInOrder(piece, |piece|, 0, 1);
      assert false;
    }
    assert piece[0..|piece|] == piece;
  }
}
