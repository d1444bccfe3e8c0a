/**
 * Turning stored messages into the provider's format, and why every tool call then has its
 * results right behind it and every result its call in front.
 */
module ChatPairs {
  import opened MoneyText
  import opened ChatHistory

  datatype ApiCall = ApiCall(id: string, name: string, args: string)

  datatype Api =
    | Say(role: Role, content: string)
    | Ask(content: string, calls: seq<ApiCall>)
    | Answer(callId: string, content: string)

  // ---- The conversion ----

  function Listed(m: Message): seq<Call> {
    if m.role == Assistant && m.calls.Calls? then m.calls.list else []
  }

  function Ids(list: seq<Call>): seq<string> {
    seq(|list|, k requires 0 <= k < |list| => list[k].id)
  }

  /** The ids of every call that is still in the window, in order. */
  function CallIds(messages: seq<Message>): seq<string> {
    if messages == [] then [] else CallIds(messages[..|messages| - 1]) + Ids(Listed(messages[|messages| - 1]))
  }

  /** Calls without a name are left out; a missing id is made from the position. */
  function ApiCalls(list: seq<Call>): seq<ApiCall> {
    if list == [] then []
    else
      var i := |list| - 1;
      var c := list[i];
      ApiCalls(list[..i])
        + if c.name == "" then [] else [ApiCall(if c.id == "" then "call_" + Digits(i) else c.id, c.name, c.args)]
  }

  function One(m: Message, valid: set<string>): seq<Api> {
    if m.role == Tool then
      if m.callId in valid then [Answer(m.callId, m.content)] else []
    else if m.role == Assistant && !m.calls.NoCalls? then
      var calls := ApiCalls(Listed(m));
      if calls == [] then [Say(Assistant, m.content)] else [Ask(m.content, calls)]
    else [Say(m.role, m.content)]
  }

  function Converted(messages: seq<Message>, valid: set<string>): seq<Api> {
    if messages == [] then [] else Converted(messages[..|messages| - 1], valid) + One(messages[|messages| - 1], valid)
  }

  function ToSet(ids: seq<string>): set<string> {
    set k | 0 <= k < |ids| :: ids[k]
  }

  method ToOpenAi(messages: seq<Message>) returns (result: seq<Api>)
    ensures result == Converted(messages, ToSet(CallIds(messages)))
  {
    hide ApiCalls;
    var valid: set<string> := {};
    for i := 0 to |messages|
      invariant valid == ToSet(CallIds(messages[..i]))
    {
      assert messages[..i + 1][..i] == messages[..i];
      var list := Listed(messages[i]);
      valid := valid + ToSet(Ids(list));
      SetSplit(CallIds(messages[..i]), Ids(list));
    }
    assert messages[..|messages|] == messages;
    result := [];
    for i := 0 to |messages|
      invariant result == Converted(messages[..i], valid)
    {
      assert messages[..i + 1][..i] == messages[..i];
      result := result + One(messages[i], valid);
    }
  }

  lemma SetSplit(a: seq<string>, b: seq<string>)
    ensures ToSet(a + b) == ToSet(a) + ToSet(b)
  {
    forall x
      ensures x in ToSet(a + b) <==> x in ToSet(a) + ToSet(b)
    {
      if x in ToSet(a) {
        var k :| 0 <= k < |a| && a[k] == x;
        assert (a + b)[k] == x;
      }
      if x in ToSet(b) {
        var k :| 0 <= k < |b| && b[k] == x;
        assert (a + b)[|a| + k] == x;
      }
    }
  }

  predicate Names(c: Call) { c.name != "" }

  function Named(list: seq<Call>): nat {
    if list == [] then 0 else Named(list[..|list| - 1]) + if Names(list[|list| - 1]) then 1 else 0
  }

  /** The call sent stands for the i-th one stored; without an id of its own it has one made from its place. */
  predicate StandsFor(a: ApiCall, c: Call, i: nat) {
    && a.name == c.name && a.args == c.args
    && (c.id != "" ==> a.id == c.id) && (c.id == "" ==> a.id == "call_" + Digits(i))
  }

  /** Every call sent has a name and an id, its own or one made from its place, and none with a name is lost. */
  lemma {:induction false} CallsSent(list: seq<Call>)
    ensures |ApiCalls(list)| == Named(list)
    ensures forall a :: a in ApiCalls(list) ==>
      a.name != "" && a.id != "" && exists i :: 0 <= i < |list| && StandsFor(a, list[i], i)
  {
    hide Digits;
    if list != [] {
      var n := |list| - 1;
      CallsSent(list[..n]);
      forall a | a in ApiCalls(list[..n])
        ensures exists i :: 0 <= i < |list| && StandsFor(a, list[i], i)
      {
        var i :| 0 <= i < n && StandsFor(a, list[..n][i], i);
        assert list[..n][i] == list[i];
      }
      forall a | a in ApiCalls(list) && a !in ApiCalls(list[..n])
        ensures StandsFor(a, list[n], n)
      {
      }
    }
  }

  /**
   * Any message, well formed or not, arrives once with its role and content, but for a result whose
   * call is not in the window; it carries calls exactly when it is an assistant's and one has a name.
   */
  lemma MessageArrives(m: Message, valid: set<string>)
    ensures One(m, valid) == [] <==> m.role == Tool && m.callId !in valid
    ensures One(m, valid) != [] ==>
      var a := One(m, valid)[0];
      && |One(m, valid)| == 1 && RoleOf(a) == m.role && a.content == m.content
      && (a.Answer? <==> m.role == Tool) && (a.Answer? ==> a.callId == m.callId)
      && (a.Ask? <==> m.role == Assistant && m.calls.Calls? && Named(m.calls.list) > 0)
      && (a.Ask? ==> a.calls == ApiCalls(m.calls.list))
  {
    hide ApiCalls, Named;
    CallsSent(Listed(m));
    NoNames();
  }

  lemma NoNames()
    ensures Named([]) == 0
  {
  }

  // ---- Pairing ----

  /** Each ask is followed at once by one answer for each of its calls, in order; no other answers occur. */
  predicate Paired(api: seq<Api>) {
    if api == [] then true
    else match api[0]
      case Say(_, _) => Paired(api[1..])
      case Answer(_, _) => false
      case Ask(_, calls) =>
        && |api| > |calls|
        && (forall k :: 0 <= k < |calls| ==> api[1 + k].Answer? && api[1 + k].callId == calls[k].id)
        && Paired(api[1 + |calls|..])
  }

  /** The answer at i belongs to the ask at j: only answers stand between, and it is the one for that call. */
  predicate Answers(api: seq<Api>, i: nat, j: nat) {
    && j < i < |api| && api[i].Answer? && api[j].Ask? && i - j <= |api[j].calls|
    && api[i].callId == api[j].calls[i - j - 1].id
  }

  /** Behind the ask at j stand the answers to all its calls, in order. */
  predicate Answered(api: seq<Api>, j: nat) {
    && j < |api| && api[j].Ask? && j + |api[j].calls| < |api|
    && forall i :: j < i <= j + |api[j].calls| ==> Answers(api, i, j)
  }

  lemma FirstAnswered(api: seq<Api>)
    requires Paired(api) && api != []
    ensures api[0].Ask? ==> Answered(api, 0)
  {
    if api[0].Ask? {
      forall i | 0 < i <= |api[0].calls|
        ensures Answers(api, i, 0)
      {
        var call := api[0].calls[i - 1];
        assert api[i].Answer? && api[i].callId == call.id;
      }
    }
  }

  lemma AnsweredLater(api: seq<Api>, n: nat, j: nat)
    requires n <= |api| && Answered(api[n..], j)
    ensures Answered(api, n + j)
  {
    var m := n + j;
    assert api[m] == api[n..][j];
    forall i | m < i <= m + |api[m].calls|
      ensures Answers(api, i, m)
    {
      assert Answers(api[n..], i - n, j);
    }
  }

  /** Paired means: behind every ask stand the answers to all its calls in order, and every answer has its ask. */
  lemma {:induction false} PairedMeans(api: seq<Api>)
    requires Paired(api)
    ensures forall j: nat :: j < |api| && api[j].Ask? ==> Answered(api, j)
    ensures forall i: nat :: i < |api| && api[i].Answer? ==> exists j: nat :: Answers(api, i, j)
    decreases |api|
  {
    if api != [] {
      var n := if api[0].Ask? then 1 + |api[0].calls| else 1;
      var rest := api[n..];
      PairedMeans(rest);
      FirstAnswered(api);
      forall j: nat | j < |api| && api[j].Ask?
        ensures Answered(api, j)
      {
        if j < n {
          assert j > 0 ==> Answers(api, j, 0);
        } else {
          assert rest[j - n] == api[j];
          AnsweredLater(api, n, j - n);
        }
      }
      forall i: nat | i < |api| && api[i].Answer?
        ensures exists j: nat :: Answers(api, i, j)
      {
        if i < n {
          assert Answers(api, i, 0);
        } else {
          assert rest[i - n] == api[i];
          var j: nat :| Answers(rest, i - n, j);
          assert Answers(api, i, j + n);
        }
      }
    }
  }

  function RoleOf(a: Api): Role {
    match a
    case Say(role, _) => role
    case Ask(_, _) => Assistant
    case Answer(_, _) => Tool
  }

  /** One for one, role and content unchanged. */
  predicate Renders(api: seq<Api>, messages: seq<Message>) {
    |api| == |messages| && forall i :: 0 <= i < |api| ==>
      RoleOf(api[i]) == messages[i].role && api[i].content == messages[i].content
  }

  lemma RendersJoin(a: seq<Api>, b: seq<Api>, x: seq<Message>, y: seq<Message>)
    requires Renders(a, x) && Renders(b, y)
    ensures Renders(a + b, x + y)
  {
  }

  // ---- What chat writes ----

  /** One exchange; actions are the ids of the actions proposed in it, with payload and summary. */
  datatype Action = Action(id: nat, payload: string, summary: string)

  datatype Turn = Turn(question: string, reply: string, actions: seq<Action>)

  function IdOf(a: Action): string {
    "call_" + Digits(a.id)
  }

  function CallsOf(actions: seq<Action>): seq<Call> {
    seq(|actions|, k requires 0 <= k < |actions| => Call(IdOf(actions[k]), "propose_action", actions[k].payload))
  }

  function ResultsOf(actions: seq<Action>): seq<Message> {
    seq(|actions|, k requires 0 <= k < |actions| =>
      Message(Tool, "action_id=" + Digits(actions[k].id) + ", status=pending, summary=" + actions[k].summary,
              NoCalls, IdOf(actions[k])))
  }

  function Written(t: Turn): seq<Message> {
    [Message(User, t.question, NoCalls, "")]
      + if t.actions == [] then [Message(Assistant, t.reply, NoCalls, "")]
        else [Message(Assistant, t.reply, Calls(CallsOf(t.actions)), "")] + ResultsOf(t.actions)
  }

  function Log(turns: seq<Turn>): seq<Message> {
    if turns == [] then [] else Log(turns[..|turns| - 1]) + Written(turns[|turns| - 1])
  }

  /** An action as the table keeps it: the call with its payload, and the result with its summary under the same id. */
  predicate Stored(a: Action, call: Call, result: Message) {
    && call.name == "propose_action" && call.args == a.payload && call.id == "call_" + Digits(a.id)
    && result.role == Tool && result.callId == call.id
    && result.content == "action_id=" + Digits(a.id) + ", status=pending, summary=" + a.summary
  }

  lemma StoredIs(actions: seq<Action>, k: nat)
    requires k < |actions|
    ensures Stored(actions[k], CallsOf(actions)[k], ResultsOf(actions)[k])
  {
    hide Digits;
  }

  /** The message table of one user. */
  class Memory {
    var rows: seq<Message>

    constructor ()
      ensures rows == []
    {
      rows := [];
    }

    /** One exchange is stored row by row: question, reply with its calls, one result for each. */
    method Save(turn: Turn)
      modifies this
      ensures rows == old(rows) + Written(turn)
      ensures |rows| == |old(rows)| + 2 + |turn.actions|
      ensures var n := |old(rows)|;
              && rows[n].role == User && rows[n].content == turn.question
              && rows[n + 1].role == Assistant && rows[n + 1].content == turn.reply
              && (if turn.actions == [] then rows[n + 1].calls.NoCalls?
                  else rows[n + 1].calls.Calls? && |rows[n + 1].calls.list| == |turn.actions|)
              && forall k :: 0 <= k < |turn.actions| ==>
                   Stored(turn.actions[k], rows[n + 1].calls.list[k], rows[n + 2 + k])
    {
      hide Stored, Digits, IdOf;
      rows := rows + [Message(User, turn.question, NoCalls, "")];
      ghost var asked := rows;
      if turn.actions != [] {
        var calls: seq<Call> := [];
        for i := 0 to |turn.actions|
          invariant calls == CallsOf(turn.actions)[..i] && rows == asked
        {
          calls := calls + [Call(IdOf(turn.actions[i]), "propose_action", turn.actions[i].payload)];
        }
        rows := rows + [Message(Assistant, turn.reply, Calls(calls), "")];
        ghost var before := rows;
        assert CallsOf(turn.actions)[..|turn.actions|] == CallsOf(turn.actions);
        for i := 0 to |turn.actions|
          invariant rows == before + ResultsOf(turn.actions)[..i]
        {
          rows := rows + [ResultsOf(turn.actions)[i]];
        }
        assert ResultsOf(turn.actions)[..|turn.actions|] == ResultsOf(turn.actions);
        assert rows == old(rows) + Written(turn);
        forall k | 0 <= k < |turn.actions|
          ensures Stored(turn.actions[k], CallsOf(turn.actions)[k], ResultsOf(turn.actions)[k])
        {
          StoredIs(turn.actions, k);
        }
      } else {
        rows := rows + [Message(Assistant, turn.reply, NoCalls, "")];
      }
    }
  }

  // ---- The shape of a log ----

  predicate Complete(list: seq<Call>) {
    forall k :: 0 <= k < |list| ==> list[k].id != "" && list[k].name != ""
  }

  predicate Follow(messages: seq<Message>, list: seq<Call>) {
    |messages| >= |list| && forall k :: 0 <= k < |list| ==> messages[k].role == Tool && messages[k].callId == list[k].id
  }

  /** A plain message, or calls with all their results directly behind them. */
  predicate BlockFirst(messages: seq<Message>)
    requires messages != []
  {
    var m := messages[0];
    && m.role != Tool
    && (m.calls.NoCalls? || (m.role == Assistant && m.calls.Calls? && m.calls.list != [] && Complete(m.calls.list)))
    && Follow(messages[1..], Listed(m))
  }

  function BlockSize(messages: seq<Message>): (n: nat)
    requires messages != []
    ensures n > 0
    ensures BlockFirst(messages) ==> n <= |messages|
  {
    1 + |Listed(messages[0])|
  }

  /** Plain messages, and calls with all their results directly behind them. */
  predicate InBlocks(messages: seq<Message>)
    decreases |messages|
  {
    messages == [] || (BlockFirst(messages) && InBlocks(messages[BlockSize(messages)..]))
  }

  predicate Distinct(ids: seq<string>) {
    forall i, j :: 0 <= i < j < |ids| ==> ids[i] != ids[j]
  }

  lemma {:induction false} IdsSplit(a: seq<Message>, b: seq<Message>)
    ensures CallIds(a + b) == CallIds(a) + CallIds(b)
  {
    hide Ids, Listed;
    if b == [] {
      assert a + b == a;
    } else {
      assert (a + b)[..|a + b| - 1] == a + b[..|b| - 1];
      IdsSplit(a, b[..|b| - 1]);
    }
  }

  lemma FirstJoin(a: seq<Message>, b: seq<Message>)
    requires a != [] && BlockFirst(a)
    ensures BlockFirst(a + b) && BlockSize(a + b) == BlockSize(a)
  {
    hide Complete;
    assert (a + b)[1..] == a[1..] + b;
  }

  lemma {:induction false} BlocksJoin(a: seq<Message>, b: seq<Message>)
    requires InBlocks(a) && InBlocks(b)
    ensures InBlocks(a + b)
    decreases |a|
  {
    hide BlockFirst, BlockSize;
    if a == [] {
      assert a + b == b;
    } else {
      var n := BlockSize(a);
      BlocksJoin(a[n..], b);
      FirstJoin(a, b);
      assert (a + b)[n..] == a[n..] + b;
    }
  }

  lemma WrittenInBlocks(t: Turn)
    ensures InBlocks(Written(t))
  {
    hide Digits;
    var w := Written(t);
    var rest := w[1..];
    if t.actions != [] {
      var n := 1 + |t.actions|;
      assert rest[n..] == [];
      assert forall k :: 0 <= k < |t.actions| ==> rest[1..][k] == ResultsOf(t.actions)[k];
    }
    assert InBlocks(rest);
  }

  lemma {:induction false} LogInBlocks(turns: seq<Turn>)
    ensures InBlocks(Log(turns))
  {
    if turns != [] {
      LogInBlocks(turns[..|turns| - 1]);
      WrittenInBlocks(turns[|turns| - 1]);
      BlocksJoin(Log(turns[..|turns| - 1]), Written(turns[|turns| - 1]));
    }
  }

  lemma FirstShort(messages: seq<Message>)
    requires messages != [] && BlockFirst(messages)
    ensures BlockFirst(AllShort(messages)) && BlockSize(AllShort(messages)) == BlockSize(messages)
  {
    hide Complete, Shortened;
    var short := AllShort(messages);
    assert Listed(short[0]) == Listed(messages[0]);
    assert forall k :: 0 <= k < |messages| - 1 ==> short[1..][k] == Short(messages[1..][k]);
  }

  /** Shortening touches contents only. */
  lemma {:induction false} ShortInBlocks(messages: seq<Message>)
    requires InBlocks(messages)
    ensures InBlocks(AllShort(messages))
    decreases |messages|
  {
    hide BlockFirst, BlockSize, Short;
    if messages != [] {
      var n := BlockSize(messages);
      ShortInBlocks(messages[n..]);
      FirstShort(messages);
      assert AllShort(messages)[n..] == AllShort(messages[n..]);
    }
  }

  lemma {:induction false} ShortSameIds(messages: seq<Message>)
    ensures CallIds(AllShort(messages)) == CallIds(messages)
  {
    hide Shortened;
    if messages != [] {
      var n := |messages| - 1;
      ShortSameIds(messages[..n]);
      assert AllShort(messages)[..n] == AllShort(messages[..n]);
    }
  }

  // ---- A window of it ----

  /**
   * A suffix of a log is: results whose calls were cut off, then whole blocks.
   */
  lemma {:induction false} SuffixOfBlocks(messages: seq<Message>, k: nat) returns (j: nat)
    requires InBlocks(messages) && k <= |messages|
    ensures k <= j <= |messages| && InBlocks(messages[j..])
    ensures forall i :: k <= i < j ==> messages[i].role == Tool && messages[i].callId in CallIds(messages[..k])
    decreases |messages|
  {
    hide CallIds, BlockFirst, BlockSize;
    if k == 0 {
      j := 0;
      assert messages[0..] == messages;
    } else {
      var n := BlockSize(messages);
      if k < n {
        j := n;
        CutInBlock(messages, k);
      } else {
        var rest := messages[n..];
        var l := SuffixOfBlocks(rest, k - n);
        j := l + n;
        assert messages[j..] == rest[l..];
        assert messages[..k] == messages[..n] + rest[..k - n];
        IdsSplit(messages[..n], rest[..k - n]);
        assert forall i :: k <= i < j ==> messages[i] == rest[i - n];
      }
    }
  }

  lemma CutInBlock(messages: seq<Message>, k: nat)
    requires messages != [] && BlockFirst(messages) && 0 < k < BlockSize(messages)
    ensures forall i :: k <= i < BlockSize(messages) ==>
      messages[i].role == Tool && messages[i].callId in CallIds(messages[..k])
  {
    hide CallIds, Listed;
    assert messages[..k] == [messages[0]] + messages[1..k];
    IdsSplit([messages[0]], messages[1..k]);
    FirstIds(messages[0]);
    forall i | k <= i < BlockSize(messages)
      ensures messages[i].role == Tool && messages[i].callId in CallIds(messages[..k])
    {
      assert messages[1..][i - 1] == messages[i];
      assert messages[i].callId == Ids(Listed(messages[0]))[i - 1];
    }
  }

  lemma FirstIds(m: Message)
    ensures CallIds([m]) == Ids(Listed(m))
  {
    assert [m][..0] == [];
    assert CallIds([]) + Ids(Listed(m)) == Ids(Listed(m));
  }

  // ---- Converting it ----

  lemma {:induction false} ConvertSplit(a: seq<Message>, b: seq<Message>, valid: set<string>)
    ensures Converted(a + b, valid) == Converted(a, valid) + Converted(b, valid)
  {
    hide One;
    if b == [] {
      assert a + b == a;
    } else {
      assert (a + b)[..|a + b| - 1] == a + b[..|b| - 1];
      ConvertSplit(a, b[..|b| - 1], valid);
    }
  }

  lemma {:induction false} OrphansVanish(messages: seq<Message>, valid: set<string>)
    requires forall i :: 0 <= i < |messages| ==> messages[i].role == Tool && messages[i].callId !in valid
    ensures Converted(messages, valid) == []
  {
    if messages != [] {
      OrphansVanish(messages[..|messages| - 1], valid);
    }
  }

  lemma {:induction false} OrphansCallNothing(messages: seq<Message>)
    requires forall i :: 0 <= i < |messages| ==> messages[i].role == Tool
    ensures CallIds(messages) == []
  {
    if messages != [] {
      OrphansCallNothing(messages[..|messages| - 1]);
    }
  }

  lemma {:induction false} CompleteCalls(list: seq<Call>)
    requires Complete(list)
    ensures |ApiCalls(list)| == |list|
    ensures forall k :: 0 <= k < |list| ==> ApiCalls(list)[k] == ApiCall(list[k].id, list[k].name, list[k].args)
  {
    hide Digits;
    if list != [] {
      CompleteCalls(list[..|list| - 1]);
    }
  }

  lemma {:induction false} ResultsKept(messages: seq<Message>, valid: set<string>)
    requires forall i :: 0 <= i < |messages| ==> messages[i].role == Tool && messages[i].callId in valid
    ensures |Converted(messages, valid)| == |messages|
    ensures forall i :: 0 <= i < |messages| ==>
      Converted(messages, valid)[i] == Answer(messages[i].callId, messages[i].content)
  {
    if messages != [] {
      ResultsKept(messages[..|messages| - 1], valid);
    }
  }

  /** Blocks convert to pairs, one message for each. */
  lemma {:induction false} BlocksConvert(messages: seq<Message>, valid: set<string>)
    requires InBlocks(messages) && ToSet(CallIds(messages)) <= valid
    ensures Paired(Converted(messages, valid)) && Renders(Converted(messages, valid), messages)
    decreases |messages|
  {
    hide ApiCalls, ToSet, CallIds, Converted, Ids, Renders, Paired, Follow;
    if messages == [] {
      NothingConverts(valid);
      RendersNothing();
    } else {
      var m, n := messages[0], BlockSize(messages);
      var results, rest := messages[1..n], messages[n..];
      assert messages == ([m] + results) + rest;
      ResultsFollow(messages);
      ResultsValid(m, results, rest, valid);
      BlocksConvert(rest, valid);
      BlockConverts(m, results, rest, valid);
    }
  }

  lemma ResultsFollow(messages: seq<Message>)
    requires messages != [] && BlockFirst(messages)
    ensures |messages| > |Listed(messages[0])|
    ensures Follow(messages[1..BlockSize(messages)], Listed(messages[0]))
  {
  }

  lemma BlockConverts(m: Message, results: seq<Message>, rest: seq<Message>, valid: set<string>)
    requires m.role != Tool && |results| == |Listed(m)| && Follow(results, Listed(m))
    requires m.calls.NoCalls? || (m.role == Assistant && m.calls.Calls? && m.calls.list != [])
    requires Complete(Listed(m)) && forall i :: 0 <= i < |results| ==> results[i].callId in valid
    requires Paired(Converted(rest, valid)) && Renders(Converted(rest, valid), rest)
    ensures var messages := ([m] + results) + rest;
            Paired(Converted(messages, valid)) && Renders(Converted(messages, valid), messages)
  {
    hide ApiCalls, Converted, Renders, Paired, Complete;
    var list := Listed(m);
    ResultsKept(results, valid);
    ConvertSplit([m] + results, rest, valid);
    ConvertSplit([m], results, valid);
    FirstConverts(m, valid);
    CompleteCalls(list);
    var head, answers, tail := One(m, valid), Converted(results, valid), Converted(rest, valid);
    assert head == [head[0]];
    HeadPairs(head[0], list, answers, tail);
    HeadRenders(head[0], m, list, answers, results);
    RendersJoin([head[0]] + answers, tail, [m] + results, rest);
  }

  lemma RendersNothing()
    ensures Renders([], [])
  {
  }

  lemma HeadRenders(head: Api, m: Message, list: seq<Call>, answers: seq<Api>, results: seq<Message>)
    requires RoleOf(head) == m.role && head.content == m.content && |answers| == |results|
    requires forall i :: 0 <= i < |results| ==>
      answers[i] == Answer(results[i].callId, results[i].content) && results[i].role == Tool
    ensures Renders([head] + answers, [m] + results)
  {
  }

  lemma NothingConverts(valid: set<string>)
    ensures Converted([], valid) == [] && Paired([])
  {
  }

  lemma ResultsValid(m: Message, results: seq<Message>, rest: seq<Message>, valid: set<string>)
    requires ToSet(CallIds(([m] + results) + rest)) <= valid
    requires |results| == |Listed(m)|
    requires forall k :: 0 <= k < |results| ==> results[k].role == Tool && results[k].callId == Listed(m)[k].id
    ensures ToSet(CallIds(rest)) <= valid
    ensures forall k :: 0 <= k < |results| ==> results[k].callId in valid
  {
    hide CallIds, ToSet, Listed;
    IdsSplit([m] + results, rest);
    IdsSplit([m], results);
    FirstIds(m);
    SetSplit(CallIds([m] + results), CallIds(rest));
    SetSplit(Ids(Listed(m)), CallIds(results));
    forall k | 0 <= k < |results|
      ensures results[k].callId in valid
    {
      InSet(Ids(Listed(m)), k);
    }
  }

  lemma InSet(ids: seq<string>, i: nat)
    requires i < |ids|
    ensures ids[i] in ToSet(ids)
  {
  }

  lemma FirstConverts(m: Message, valid: set<string>)
    ensures Converted([m], valid) == One(m, valid)
  {
    assert [m][..0] == [];
  }

  lemma HeadPairs(head: Api, list: seq<Call>, answers: seq<Api>, tail: seq<Api>)
    requires |answers| == |list| && Paired(tail)
    requires if list == [] then head.Say? else head.Ask? && |head.calls| == |list|
    requires forall k :: 0 <= k < |list| ==>
      answers[k].Answer? && answers[k].callId == list[k].id && (head.Ask? ==> head.calls[k].id == list[k].id)
    ensures Paired([head] + answers + tail)
  {
    var api := [head] + answers + tail;
    assert api[1 + |list|..] == tail;
    assert forall k :: 0 <= k < |list| ==> api[1 + k] == answers[k];
  }

  /** A window converts to its blocks alone: the results cut off from their calls drop out, nothing else does. */
  lemma WindowConverts(messages: seq<Message>, k: nat) returns (j: nat)
    requires InBlocks(messages) && Distinct(CallIds(messages)) && k <= |messages|
    ensures k <= j <= |messages| && forall i :: k <= i < j ==> messages[i].role == Tool
    ensures var api := Converted(messages[k..], ToSet(CallIds(messages[k..])));
            Paired(api) && Renders(api, messages[j..])
  {
    hide InBlocks, Converted, CallIds, ToSet, Paired, Distinct, Renders;
    var window := messages[k..];
    j := SuffixOfBlocks(messages, k);
    var orphans, blocks := messages[k..j], messages[j..];
    assert window == orphans + blocks;
    OrphansCallNothing(orphans);
    IdsSplit(orphans, blocks);
    var valid := ToSet(CallIds(window));
    assert CallIds(window) == CallIds(blocks);
    assert messages == messages[..k] + window;
    IdsSplit(messages[..k], window);
    forall i | 0 <= i < |orphans|
      ensures orphans[i].role == Tool && orphans[i].callId !in valid
    {
      assert orphans[i] == messages[k + i];
      Apart(CallIds(messages[..k]), CallIds(window), orphans[i].callId);
    }
    OrphansVanish(orphans, valid);
    BlocksConvert(blocks, valid);
    ConvertSplit(orphans, blocks, valid);
    assert [] + Converted(blocks, valid) == Converted(blocks, valid);
  }

  lemma Apart(a: seq<string>, b: seq<string>, x: string)
    requires Distinct(a + b) && x in a
    ensures x !in ToSet(b)
  {
    var i :| 0 <= i < |a| && a[i] == x;
    assert (a + b)[i] == x;
    forall k | 0 <= k < |b|
      ensures b[k] != x
    {
      assert (a + b)[|a| + k] == b[k];
    }
  }

  // ---- The promise ----

  function ActionIds(turns: seq<Turn>): seq<nat> {
    if turns == [] then []
    else
      var actions := turns[|turns| - 1].actions;
      ActionIds(turns[..|turns| - 1]) + seq(|actions|, k requires 0 <= k < |actions| => actions[k].id)
  }

  predicate DistinctActions(turns: seq<Turn>) {
    forall i, j :: 0 <= i < j < |ActionIds(turns)| ==> ActionIds(turns)[i] != ActionIds(turns)[j]
  }

  lemma {:induction false} LogIds(turns: seq<Turn>)
    ensures |CallIds(Log(turns))| == |ActionIds(turns)|
    ensures forall k :: 0 <= k < |ActionIds(turns)| ==> CallIds(Log(turns))[k] == "call_" + Digits(ActionIds(turns)[k])
  {
    hide Digits, Written, CallIds;
    if turns == [] {
      assert CallIds([]) == [] by { NoIds(); }
    } else {
      var n := |turns| - 1;
      LogIds(turns[..n]);
      IdsSplit(Log(turns[..n]), Written(turns[n]));
      WrittenIds(turns[n]);
    }
  }

  lemma NoIds()
    ensures CallIds([]) == []
  {
  }

  lemma WrittenIds(t: Turn)
    ensures |CallIds(Written(t))| == |t.actions|
    ensures forall k :: 0 <= k < |t.actions| ==> CallIds(Written(t))[k] == IdOf(t.actions[k])
  {
    hide Digits, CallIds;
    var question := Message(User, t.question, NoCalls, "");
    FirstIds(question);
    if t.actions == [] {
      var reply := Message(Assistant, t.reply, NoCalls, "");
      IdsSplit([question], [reply]);
      FirstIds(reply);
    } else {
      var reply := Message(Assistant, t.reply, Calls(CallsOf(t.actions)), "");
      assert Written(t) == [question] + ([reply] + ResultsOf(t.actions));
      IdsSplit([question], [reply] + ResultsOf(t.actions));
      IdsSplit([reply], ResultsOf(t.actions));
      FirstIds(reply);
      OrphansCallNothing(ResultsOf(t.actions));
    }
  }

  lemma NamesApart(a: nat, b: nat)
    requires "call_" + Digits(a) == "call_" + Digits(b)
    ensures a == b
  {
    hide Digits;
    assert ("call_" + Digits(a))[5..] == Digits(a);
    assert ("call_" + Digits(b))[5..] == Digits(b);
  }

  /** Stored calls have distinct ids exactly when the actions behind them do. */
  lemma LogDistinct(turns: seq<Turn>)
    ensures Distinct(CallIds(Log(turns))) <==> DistinctActions(turns)
  {
    hide Digits, CallIds, Log, ActionIds;
    LogIds(turns);
    var ids, actions := CallIds(Log(turns)), ActionIds(turns);
    forall i, j | 0 <= i < j < |ids|
      ensures ids[i] == ids[j] <==> actions[i] == actions[j]
    {
      if ids[i] == ids[j] {
        NamesApart(actions[i], actions[j]);
      }
    }
  }

  /** The longest admissible part of the last `limit` rows begins at row k of the log. */
  ghost predicate IsWindow(rows: seq<Message>, limit: nat, k: nat) {
    var start := if |rows| <= limit then 0 else |rows| - limit;
    start <= k && LongestFrom(Recent(rows, limit), k - start)
  }

  /** The window from row k arrives one for one, but for results at its start, before row j. */
  ghost predicate Delivers(rows: seq<Message>, limit: nat, k: nat, j: nat, api: seq<Api>) {
    && IsWindow(rows, limit, k) && k <= j <= |rows| && Renders(api, AllShort(rows)[j..])
    && forall i :: k <= i < j ==> rows[i].role == Tool
  }

  /**
   * Whatever was said before and however many rows are read: after shortening, trimming and
   * conversion every call is followed by its results and every result follows its call. All of the
   * window arrives, but for results at its start whose call lies before it.
   */
  method HistoryForProvider(turns: seq<Turn>, limit: nat) returns (api: seq<Api>)
    requires DistinctActions(turns)
    ensures Paired(api) && exists k: nat, j: nat :: Delivers(Log(turns), limit, k, j, api)
  {
    hide InBlocks, Converted, CallIds, ToSet, Paired, Distinct, DistinctActions, Log, LongestFrom, Delivers, Recent;
    var rows := Log(turns);
    var window := LoadHistory(rows, limit);
    ghost var l: nat :|
      && l <= |Recent(rows, limit)| && LongestFrom(Recent(rows, limit), l)
      && window == Recent(rows, limit)[l..];
    LogInBlocks(turns);
    LogDistinct(turns);
    ghost var k, j := WindowDelivers(rows, limit, l);
    api := ToOpenAi(window);
  }

  lemma WindowDelivers(rows: seq<Message>, limit: nat, l: nat) returns (k: nat, j: nat)
    requires InBlocks(rows) && Distinct(CallIds(rows))
    requires l <= |Recent(rows, limit)| && LongestFrom(Recent(rows, limit), l)
    ensures var window := Recent(rows, limit)[l..];
            var api := Converted(window, ToSet(CallIds(window)));
            Paired(api) && Delivers(rows, limit, k, j, api)
  {
    hide InBlocks, Converted, CallIds, ToSet, Paired, Distinct, LongestFrom, Renders, Short;
    ShortInBlocks(rows);
    ShortSameIds(rows);
    k := l + if |rows| <= limit then 0 else |rows| - limit;
    assert Recent(rows, limit)[l..] == AllShort(rows)[k..];
    j := WindowConverts(AllShort(rows), k);
    ShortSameRoles(rows);
  }

  lemma ShortSameRoles(messages: seq<Message>)
    ensures forall i :: 0 <= i < |messages| ==> AllShort(messages)[i].role == messages[i].role
  {
    hide Shortened;
  }
}
