/** Every code fence of an answer is opened, not only the first. */
module JsonFences {
  import opened Options
  import opened JsonGrammar
  import opened JsonEnvelope

  /** Text with fences: prose, mark, language tag, blanks, the inside, mark; the last fence may stay open. */
  datatype Doc =
    | Plain(prose: string)
    | Open(prose: string, tag: string, lead: string, body: string)
    | Fence(prose: string, tag: string, lead: string, body: string, rest: Doc)

  function DocText(doc: Doc): string {
    match doc
    case Plain(prose) => prose
    case Open(prose, tag, lead, body) => prose + "```" + tag + lead + body
    case Fence(prose, tag, lead, body, rest) => prose + "```" + tag + lead + body + "```" + DocText(rest)
  }

  /** What stands inside the fences, in order. */
  function Bodies(doc: Doc): seq<string> {
    match doc
    case Plain(_) => []
    case Open(_, _, _, body) => [body]
    case Fence(_, _, _, body, rest) => [body] + Bodies(rest)
  }

  /** The tag ends before the blanks, and the blanks before the inside. */
  predicate Begins(tag: string, lead: string, body: string) {
    && AllTag(tag) && AllSpace(lead) && Without(body, '`')
    && (body != "" ==> !Space(body[0]) && (lead == "" ==> !OfTag(body[0])))
  }

  predicate DocOk(doc: Doc) {
    && Without(doc.prose, '`')
    && (doc.Open? ==> Begins(doc.tag, doc.lead, doc.body) && doc.body != "")
    && (doc.Fence? ==> Begins(doc.tag, doc.lead, doc.body) && DocOk(doc.rest))
  }

  /** Up to the inside of the first fence. */
  lemma InsideReached(text: string, i: nat, prose: string, tag: string, lead: string, body: string, rest: string)
    requires i <= |text| && text[i..] == prose + "```" + tag + lead + body + rest
    requires Without(prose, '`') && Begins(tag, lead, body) && body + rest != ""
    requires rest == "" || rest[0] == '`'
    ensures var p := i + |prose|;
            && Mark(text, i) == Some(p)
            && p + 3 <= |text| && PastSpace(text, PastTag(text, p + 3)) == p + 3 + |tag| + |lead|
  {
    hide Mark, PastTag, PastSpace, OfTag, Space;
    var tail := prose + "```" + tag + lead + body + rest;
    var p := i + |prose|;
    var b := p + 3 + |tag|;
    var c := b + |lead|;
    assert forall k :: i <= k < |text| ==> text[k] == tail[k - i];
    assert text[p..p + 3] == "```";
    MarkFound(text, i, p);
    assert forall k :: p + 3 <= k < b ==> text[k] == tag[k - p - 3];
    assert forall k :: b <= k < c ==> text[k] == lead[k - b];
    assert text[c] == (body + rest)[0];
    TickIsNeither();
    if lead != "" {
      SpaceIsNoTag(text[b]);
    }
    TagPassed(text, p + 3, b);
    SpacePassed(text, b, c);
  }

  lemma TickIsNeither()
    ensures !OfTag('`') && !Space('`')
  {
  }

  /** A closed fence: its inside, and where the text goes on. */
  lemma FenceFound(text: string, i: nat, prose: string, tag: string, lead: string, body: string, rest: string)
    requires i <= |text| && text[i..] == prose + "```" + tag + lead + body + ("```" + rest)
    requires Without(prose, '`') && Begins(tag, lead, body)
    ensures var p, from := i + |prose|, i + |prose| + 3 + |tag| + |lead|;
            var to := from + |body|;
            && to + 3 <= |text| && Mark(text, i) == Some(p) && PastSpace(text, PastTag(text, p + 3)) == from
            && Mark(text, from) == Some(to) && text[from..to] == body && text[to + 3..] == rest
  {
    hide Mark, PastTag, PastSpace, Begins;
    var after := "```" + rest;
    InsideReached(text, i, prose, tag, lead, body, after);
    var from := i + |prose| + 3 + |tag| + |lead|;
    var to := from + |body|;
    assert prose + "```" + tag + lead + (body + after) == prose + "```" + tag + lead + body + after;
    Behind(text, i, prose + "```" + tag + lead, body + after);
    Behind(text, from, body, after);
    Behind(text, to, "```", rest);
    assert text[to..to + 3] == text[to..][..3];
    assert text[from..to] == text[from..][..|body|];
    Ticks(tag, lead, body);
    assert forall k :: from <= k < to ==> text[k] == body[k - from];
    MarkFound(text, from, to);
  }

  lemma OpenFound(text: string, i: nat, prose: string, tag: string, lead: string, body: string)
    requires i <= |text| && text[i..] == prose + "```" + tag + lead + body
    requires Without(prose, '`') && Begins(tag, lead, body) && body != ""
    ensures var p, from := i + |prose|, i + |prose| + 3 + |tag| + |lead|;
            && from <= |text| && Mark(text, i) == Some(p) && PastSpace(text, PastTag(text, p + 3)) == from
            && Mark(text, from) == None && text[from..] == body
  {
    hide Mark, PastTag, PastSpace, Begins;
    assert prose + "```" + tag + lead + body + "" == prose + "```" + tag + lead + body;
    InsideReached(text, i, prose, tag, lead, body, "");
    var from := i + |prose| + 3 + |tag| + |lead|;
    Behind(text, i, prose + "```" + tag + lead, body);
    Ticks(tag, lead, body);
    assert forall k :: from <= k < |text| ==> text[k] == body[k - from];
    MarkMissing(text, from);
  }

  /** From any point on, the insides of the fences are those of the document, all of them, in order. */
  lemma {:induction false} FencesFrom(text: string, i: nat, doc: Doc)
    requires DocOk(doc) && i <= |text| && text[i..] == DocText(doc)
    ensures Fenced(text, i) == Bodies(doc)
    decreases doc
  {
    hide Mark, PastTag, PastSpace, Begins;
    match doc
    case Plain(prose) =>
      assert forall k :: i <= k < |text| ==> text[k] == prose[k - i];
      MarkMissing(text, i);
    case Open(prose, tag, lead, body) =>
      OpenFound(text, i, prose, tag, lead, body);
    case Fence(prose, tag, lead, body, rest) =>
      var tail := DocText(rest);
      assert prose + "```" + tag + lead + body + "```" + tail == prose + "```" + tag + lead + body + ("```" + tail);
      FenceFound(text, i, prose, tag, lead, body, tail);
      FencesFrom(text, i + |prose| + 3 + |tag| + |lead| + |body| + 3, rest);
  }

  lemma Ticks(tag: string, lead: string, body: string)
    requires Begins(tag, lead, body)
    ensures Without(body, '`')
  {
  }

  lemma Behind(text: string, i: nat, a: string, b: string)
    requires i <= |text| && text[i..] == a + b
    ensures i + |a| <= |text| && text[i + |a|..] == b
  {
    assert text[i + |a|..] == text[i..][|a|..];
  }

  /**
   * What an answer is tried for before its blocks: the whole of it, then the inside of every one of
   * its fences in order, blanks around it stripped and empty ones left out.
   */
  lemma EveryFenceIsTried(text: string, doc: Doc, k: nat)
    requires DocOk(doc) && Strip(text) == DocText(doc) && k < |Bodies(doc)| && Strip(Bodies(doc)[k]) != ""
    ensures Early(text) == (if Strip(text) == "" then [] else [Strip(text)]) + Trimmed(Bodies(doc))
    ensures Strip(Bodies(doc)[k]) in Early(text)
  {
    hide Strip, Trimmed, Fenced;
    FencesFrom(Strip(text), 0, doc);
    assert Strip(text)[0..] == Strip(text);
    TrimmedHas(Bodies(doc), k);
  }

  // ---- What is stripped, and what a tag is made of ----

  lemma {:induction false} LeftStripped(lead: string, rest: string)
    requires AllSpace(lead) && (rest == "" || !Space(rest[0]))
    ensures StripLeft(lead + rest) == rest
  {
    hide Space;
    if lead == "" {
      assert lead + rest == rest;
    } else {
      assert (lead + rest)[1..] == lead[1..] + rest;
      LeftStripped(lead[1..], rest);
    }
  }

  lemma {:induction false} RightStripped(core: string, trail: string)
    requires AllSpace(trail) && (core == "" || !Space(core[|core| - 1]))
    ensures StripRight(core + trail) == core
    decreases |trail|
  {
    hide Space;
    if trail == "" {
      assert core + trail == core;
    } else {
      assert (core + trail)[..|core + trail| - 1] == core + trail[..|trail| - 1];
      RightStripped(core, trail[..|trail| - 1]);
    }
  }

  /** Stripping takes the blanks off both ends and nothing else. */
  lemma StripIs(lead: string, core: string, trail: string)
    requires AllSpace(lead) && AllSpace(trail)
    requires core != "" ==> !Space(core[0]) && !Space(core[|core| - 1])
    ensures Strip(lead + core + trail) == core
  {
    hide Space;
    if core == "" {
      assert lead + core + trail == (lead + trail) + "";
      LeftStripped(lead + trail, "");
      assert (lead + trail) + "" == lead + trail;
    } else {
      assert lead + core + trail == lead + (core + trail);
      LeftStripped(lead, core + trail);
      RightStripped(core, trail);
    }
  }

  /** ASCII letters, digits, underscore, plus and minus, by their codes. */
  lemma TagCharacters(c: char)
    ensures var n := c as int;
            OfTag(c) <==>
              0x30 <= n <= 0x39 || 0x41 <= n <= 0x5A || 0x61 <= n <= 0x7A || n == 0x2B || n == 0x2D || n == 0x5F
  {
  }

  /** The blanks of the Unicode standard, and the four information separators. */
  lemma SpaceCharacters(c: char)
    ensures Space(c) <==>
      c as int in [0x09, 0x0A, 0x0B, 0x0C, 0x0D, 0x1C, 0x1D, 0x1E, 0x1F, 0x20, 0x85, 0xA0, 0x1680, 0x2000, 0x2001,
                   0x2002, 0x2003, 0x2004, 0x2005, 0x2006, 0x2007, 0x2008, 0x2009, 0x200A, 0x2028, 0x2029, 0x202F,
                   0x205F, 0x3000]
  {
  }
}
