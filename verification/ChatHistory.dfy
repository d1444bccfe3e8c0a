/** The coach's stored messages, and the window of them that is sent along with a new question. */
module ChatHistory {

  datatype Role = User | Assistant | Tool

  /** A stored tool call; fields that are missing are empty. */
  datatype Call = Call(id: string, name: string, args: string)

  /** The stored call list of a message: absent, not readable, or read. */
  datatype Calls = NoCalls | Unreadable | Calls(list: seq<Call>)

  datatype Message = Message(role: Role, content: string, calls: Calls, callId: string)

  const MAX_MESSAGE := 1500
  const MAX_TOTAL := 6000
  const MARK := "\n\n[... onceki rapor uzun, ortasi ozetlendi ...]\n\n"

  // ---- Shortening one message ----

  function Shortened(content: string, role: Role): (r: string)
    ensures role == Assistant ==> |r| <= MAX_MESSAGE
    ensures role != Assistant || |content| <= MAX_MESSAGE ==> r == content
    ensures role == Assistant && |content| > MAX_MESSAGE ==>
      && 1300 <= |r| < |content|
      && r[..1000] == content[..1000] && r[|r| - 300..] == content[|content| - 300..]
  {
    if role != Assistant || |content| <= MAX_MESSAGE then content
    else
      var r := content[..1000] + MARK + content[|content| - 300..];
      assert |MARK| < 100;
      r
  }

  function Short(m: Message): Message {
    m.(content := Shortened(m.content, m.role))
  }

  function AllShort(messages: seq<Message>): (r: seq<Message>)
    ensures |r| == |messages| && forall k :: 0 <= k < |r| ==> r[k] == Short(messages[k])
  {
    seq(|messages|, k requires 0 <= k < |messages| => Short(messages[k]))
  }

  // ---- Trimming to size ----

  predicate IsResult(m: Message) {
    m.role == Tool || m.callId != ""
  }

  function Size(messages: seq<Message>): nat {
    if messages == [] then 0 else |messages[0].content| + Size(messages[1..])
  }

  /** A suffix may start at j if j is the very start, the very end, or not in front of a tool result. */
  predicate CutPoint(messages: seq<Message>, j: nat) {
    j <= |messages| && (j == 0 || j == |messages| || !IsResult(messages[j]))
  }

  predicate Admissible(messages: seq<Message>, j: nat) {
    CutPoint(messages, j) && (Size(messages[j..]) <= MAX_TOTAL || |messages| - j <= 1)
  }

  /** The longest admissible suffix. */
  ghost predicate LongestFrom(messages: seq<Message>, k: nat) {
    Admissible(messages, k) && forall j :: 0 <= j < k ==> !Admissible(messages, j)
  }

  /** Where no suffix may start: in front of a tool result, or with too much behind it. */
  lemma NoneBefore(all: seq<Message>, k: nat)
    requires k <= |all| && forall j :: 0 <= j < k ==> !Admissible(all, j)
    ensures forall j :: 0 <= j < k ==>
      || (j > 0 && (all[j].role == Tool || all[j].callId != ""))
      || (Size(all[j..]) > 6000 && |all| - j > 1)
  {
    hide Size;
    forall j | 0 <= j < k
      ensures (j > 0 && (all[j].role == Tool || all[j].callId != ""))
           || (Size(all[j..]) > 6000 && |all| - j > 1)
    {
      assert !Admissible(all, j);
    }
  }

  class History {
    var messages: seq<Message>

    constructor (messages: seq<Message>)
      ensures this.messages == messages
    {
      this.messages := messages;
    }

    /** Drops whole exchanges from the front until the rest fits. */
    method Trim() returns (ghost k: nat)
      modifies this
      ensures k <= |old(messages)| && messages == old(messages)[k..]
      ensures LongestFrom(old(messages), k)
      ensures Size(messages) <= MAX_TOTAL || |messages| <= 1
      ensures k > 0 && messages != [] ==> messages[0].role != Tool && messages[0].callId == ""
      ensures forall j :: 0 <= j < k ==>
        || (j > 0 && (old(messages)[j].role == Tool || old(messages)[j].callId != ""))
        || (Size(old(messages)[j..]) > 6000 && |old(messages)| - j > 1)
    {
      ghost var all := messages;
      k := 0;
      var total := TotalOf(messages);
      while total > MAX_TOTAL && |messages| > 1
        invariant k <= |all| && messages == all[k..] && total == Size(messages)
        invariant CutPoint(all, k)
        invariant forall j :: 0 <= j < k ==> !Admissible(all, j)
        decreases |messages|
      {
        assert !Admissible(all, k);
        total := total - |messages[0].content|;
        messages := messages[1..];
        k := k + 1;
        while messages != [] && IsResult(messages[0])
          invariant 0 < k <= |all| && messages == all[k..] && total == Size(messages)
          invariant forall j :: 0 <= j < k ==> !Admissible(all, j)
          decreases |messages|
        {
          assert !CutPoint(all, k);
          total := total - |messages[0].content|;
          messages := messages[1..];
          k := k + 1;
        }
      }
      NoneBefore(all, k);
    }

    method TotalOf(ms: seq<Message>) returns (total: nat)
      ensures total == Size(ms)
    {
      total := 0;
      var i := |ms|;
      while i > 0
        invariant 0 <= i <= |ms| && total == Size(ms[i..])
      {
        i := i - 1;
        assert ms[i..][1..] == ms[i + 1..];
        total := total + |ms[i].content|;
      }
      assert ms[0..] == ms;
    }
  }

  /** The last `limit` rows, each shortened. */
  function Recent(rows: seq<Message>, limit: nat): seq<Message> {
    AllShort(rows)[(if |rows| <= limit then 0 else |rows| - limit)..]
  }

  /** A long message keeps its first thousand and its last three hundred characters; all else of it stays. */
  lemma ShortKeeps(m: Message)
    ensures Short(m).role == m.role && Short(m).calls == m.calls && Short(m).callId == m.callId
    ensures m.role != Assistant || |m.content| <= 1500 ==> Short(m) == m
    ensures m.role == Assistant && |m.content| > 1500 ==>
      Short(m).content == m.content[..1000] + MARK + m.content[|m.content| - 300..]
  {
  }

  lemma RecentFrom(rows: seq<Message>, limit: nat, k: nat)
    requires k <= |Recent(rows, limit)|
    ensures |Recent(rows, limit)| == if |rows| <= limit then |rows| else limit
    ensures Recent(rows, limit)[k..] == AllShort(rows[|rows| - |Recent(rows, limit)| + k..])
  {
    hide Short;
  }

  /** The last rows, shortened one by one, then trimmed together. */
  method LoadHistory(rows: seq<Message>, limit: nat) returns (window: seq<Message>)
    ensures Size(window) <= 6000 || |window| <= 1
    ensures |window| <= limit && |window| <= |rows|
    ensures window == AllShort(rows[|rows| - |window|..])
    ensures 0 < |window| < limit && |window| < |rows| ==> window[0].role != Tool && window[0].callId == ""
    ensures exists k: nat ::
      && k <= |Recent(rows, limit)| && LongestFrom(Recent(rows, limit), k)
      && window == Recent(rows, limit)[k..]
  {
    hide Short, Size, LongestFrom, Shortened;
    var start := if |rows| <= limit then 0 else |rows| - limit;
    var recent := rows[start..];
    var short: seq<Message> := [];
    for i := 0 to |recent|
      invariant short == AllShort(recent)[..i]
    {
      short := short + [Short(recent[i])];
    }
    assert short == Recent(rows, limit);
    forall k | 0 <= k <= |short|
      ensures short[k..] == AllShort(rows[|rows| - |short| + k..])
    {
      RecentFrom(rows, limit, k);
    }
    var history := new History(short);
    ghost var k := history.Trim();
    window := history.messages;
  }
}
