/**
 * The daily call quota: a call inserts its row, counts the rows up to its own, and takes its row
 * back when the count is over the cap. Any number of calls interleave step by step.
 */
module QuotaProtocol {

  datatype Row = Row(user: nat, day: nat)

  type Rows = map<nat, Row>

  /** The rows one count query sees: the user's rows since the start of `day`, ids up to `id`. */
  function Counted(rows: Rows, user: nat, day: nat, id: nat): set<nat> {
    set j | j in rows && rows[j].user == user && rows[j].day >= day && j <= id
  }

  function Rank(rows: Rows, user: nat, day: nat, id: nat): nat {
    |Counted(rows, user, day, id)|
  }

  /** Ids grow: a new row's id is above every live one (ids of deleted rows may come back). */
  predicate Fresh(rows: Rows, id: nat) {
    forall j :: j in rows ==> j < id
  }

  /** A cap of zero switches the quota off. */
  predicate Within(rows: Rows, user: nat, day: nat, id: nat, cap: nat) {
    cap == 0 || Rank(rows, user, day, id) <= cap
  }

  // ---- The protocol ----

  datatype Phase =
    | Counting   // row written, not yet counted
    | Accepted   // reservation held
    | Refusing   // over the cap, row not yet taken back
    | Refused    // over the cap, done
    | Cancelled  // reservation given back
    | Crashed    // died before its verdict took effect; its row stays

  /** entry: the rank right after insertion. countedOn: the day the count ran. */
  datatype Call = Call(user: nat, cap: nat, id: nat, day: nat, entry: nat, countedOn: nat, phase: Phase)

  datatype State = State(rows: Rows, calls: seq<Call>, today: nat)

  datatype Event =
    | Insert(user: nat, cap: nat, id: nat)
    | Count(k: nat)
    | TakeBack(k: nat, deleted: bool)
    | Cancel(k: nat, deleted: bool)
    | Reconcile(k: nat, ids: set<nat>)
    | Crash(k: nat)
    | Midnight

  const START := State(map[], [], 0)

  predicate Can(s: State, e: Event) {
    match e
    case Insert(_, _, id) => Fresh(s.rows, id)
    case Count(k) => k < |s.calls| && s.calls[k].phase.Counting?
    case TakeBack(k, _) => k < |s.calls| && s.calls[k].phase.Refusing?
    case Cancel(k, _) => k < |s.calls| && s.calls[k].phase.Accepted?
    case Reconcile(k, ids) =>
      k < |s.calls| && s.calls[k].phase.Accepted? && forall id :: id in ids ==> Fresh(s.rows, id)
    case Crash(k) => k < |s.calls| && (s.calls[k].phase.Counting? || s.calls[k].phase.Refusing?)
    case Midnight => true
  }

  function Remove(rows: Rows, id: nat, deleted: bool): Rows {
    if deleted then rows - {id} else rows
  }

  function WithRows(rows: Rows, ids: set<nat>, row: Row): Rows {
    rows + map id | id in ids :: row
  }

  /** A failed delete is rolled back and logged only, so the row stays. */
  function Do(s: State, e: Event): State
    requires Can(s, e)
  {
    match e
    case Insert(user, cap, id) =>
      var rows := s.rows[id := Row(user, s.today)];
      State(rows, s.calls + [Call(user, cap, id, s.today, Rank(rows, user, s.today, id), s.today, Counting)], s.today)
    case Count(k) =>
      var c := s.calls[k];
      var phase := if Within(s.rows, c.user, s.today, c.id, c.cap) then Accepted else Refusing;
      s.(calls := s.calls[k := c.(phase := phase, countedOn := s.today)])
    case TakeBack(k, deleted) =>
      State(Remove(s.rows, s.calls[k].id, deleted), s.calls[k := s.calls[k].(phase := Refused)], s.today)
    case Cancel(k, deleted) =>
      State(Remove(s.rows, s.calls[k].id, deleted), s.calls[k := s.calls[k].(phase := Cancelled)], s.today)
    case Reconcile(k, ids) =>
      s.(rows := WithRows(s.rows, ids, Row(s.calls[k].user, s.today)))
    case Crash(k) =>
      s.(calls := s.calls[k := s.calls[k].(phase := Crashed)])
    case Midnight =>
      s.(today := s.today + 1)
  }

  /** Some interleaving, from an empty log, in which every step could be taken. */
  predicate Possible(events: seq<Event>)
    decreases |events|, 0
  {
    events == [] || (Possible(events[..|events| - 1]) && Can(After(events[..|events| - 1]), events[|events| - 1]))
  }

  function After(events: seq<Event>): State
    requires Possible(events)
    decreases |events|, 1
  {
    if events == [] then START else Do(After(events[..|events| - 1]), events[|events| - 1])
  }

  // ---- What every step keeps ----

  predicate Live(c: Call) {
    c.phase.Counting? || c.phase.Accepted? || c.phase.Refusing?
  }

  /** The row of a call under way exists, is its own, and no other call's. */
  ghost predicate RowsHeld(s: State) {
    && (forall k :: 0 <= k < |s.calls| && Live(s.calls[k]) ==>
         && s.calls[k].id in s.rows && s.rows[s.calls[k].id] == Row(s.calls[k].user, s.calls[k].day)
         && s.calls[k].day <= s.today)
    && (forall k, l :: 0 <= k < l < |s.calls| && Live(s.calls[k]) && Live(s.calls[l]) ==>
         s.calls[k].id != s.calls[l].id)
  }

  ghost predicate CallOk(rows: Rows, c: Call) {
    && (Live(c) ==> Rank(rows, c.user, c.day, c.id) <= c.entry)
    && (c.phase.Accepted? && c.cap > 0 && c.countedOn == c.day ==> Rank(rows, c.user, c.day, c.id) <= c.cap)
    && (c.phase.Refusing? || c.phase.Refused? ==> 0 < c.cap < c.entry)
  }

  ghost predicate Inv(s: State) {
    RowsHeld(s) && forall k :: 0 <= k < |s.calls| ==> CallOk(s.rows, s.calls[k])
  }

  lemma Smaller(a: set<nat>, b: set<nat>)
    requires a <= b
    ensures |a| <= |b|
  {
    if a != b {
      assert b == a + (b - a);
    }
  }

  /** Rows above an id do not change its rank; deletions never raise it. */
  lemma RankNeverRises(before: Rows, after: Rows, user: nat, day: nat, id: nat)
    requires forall j :: j in after && j <= id ==> j in before && after[j] == before[j]
    ensures Rank(after, user, day, id) <= Rank(before, user, day, id)
  {
    Smaller(Counted(after, user, day, id), Counted(before, user, day, id));
  }

  lemma LaterDayCountsFewer(rows: Rows, user: nat, day: nat, later: nat, id: nat)
    requires day <= later
    ensures Rank(rows, user, later, id) <= Rank(rows, user, day, id)
  {
    Smaller(Counted(rows, user, later, id), Counted(rows, user, day, id));
  }

  /** A rank at insertion within the cap is accepted, whatever happens in between. */
  lemma WithinAtEntryIsAccepted(s: State, k: nat)
    requires Inv(s) && Can(s, Count(k)) && s.calls[k].entry <= s.calls[k].cap
    ensures Do(s, Count(k)).calls[k].phase == Accepted
  {
    hide Rank, Counted;
    var c := s.calls[k];
    assert CallOk(s.rows, c) && Live(c);
    LaterDayCountsFewer(s.rows, c.user, c.day, s.today, c.id);
  }

  /** A refusal means that at least `cap` live rows stood before it when it counted. */
  lemma RefusalMeansFull(s: State, k: nat)
    requires Inv(s) && Can(s, Count(k)) && Do(s, Count(k)).calls[k].phase == Refusing
    ensures var c := s.calls[k];
            && c.cap > 0
            && |set j | j in s.rows && s.rows[j].user == c.user && s.rows[j].day >= s.today && j < c.id| >= c.cap
  {
    var c := s.calls[k];
    var before := set j | j in s.rows && s.rows[j].user == c.user && s.rows[j].day >= s.today && j < c.id;
    Smaller(Counted(s.rows, c.user, s.today, c.id), before + {c.id});
    assert |before + {c.id}| <= |before| + 1;
  }

  lemma CountKeeps(s: State, k: nat)
    requires Inv(s) && Can(s, Count(k))
    ensures Inv(Do(s, Count(k)))
  {
    hide Rank, Counted;
    var c := s.calls[k];
    var t := Do(s, Count(k));
    assert Live(c) && CallOk(s.rows, c);
    LaterDayCountsFewer(s.rows, c.user, c.day, s.today, c.id);
    assert CallOk(t.rows, t.calls[k]);
  }

  lemma InsertKeeps(s: State, user: nat, cap: nat, id: nat)
    requires Inv(s) && Fresh(s.rows, id)
    ensures Inv(Do(s, Insert(user, cap, id)))
  {
    hide Rank, Counted;
    var t := Do(s, Insert(user, cap, id));
    forall k | 0 <= k < |s.calls|
      ensures CallOk(t.rows, t.calls[k])
    {
      assert CallOk(s.rows, s.calls[k]);
      if Live(s.calls[k]) {
        assert s.calls[k].id in s.rows;
        RankNeverRises(s.rows, t.rows, s.calls[k].user, s.calls[k].day, s.calls[k].id);
      }
    }
  }

  lemma ReconcileKeeps(s: State, k: nat, ids: set<nat>)
    requires Inv(s) && Can(s, Reconcile(k, ids))
    ensures Inv(Do(s, Reconcile(k, ids)))
  {
    hide Rank, Counted;
    var t := Do(s, Reconcile(k, ids));
    forall i | 0 <= i < |s.calls|
      ensures CallOk(t.rows, t.calls[i])
    {
      assert CallOk(s.rows, s.calls[i]);
      if Live(s.calls[i]) {
        assert s.calls[i].id in s.rows;
        RankNeverRises(s.rows, t.rows, s.calls[i].user, s.calls[i].day, s.calls[i].id);
      }
    }
  }

  lemma RemoveKeeps(s: State, t: State, k: nat, deleted: bool)
    requires Inv(s) && k < |s.calls| && Live(s.calls[k])
    requires k < |t.calls| && t == State(Remove(s.rows, s.calls[k].id, deleted), s.calls[k := t.calls[k]], s.today)
    requires !Live(t.calls[k]) && CallOk(t.rows, t.calls[k])
    ensures Inv(t)
  {
    hide Rank, Counted;
    forall i | 0 <= i < |s.calls| && i != k
      ensures CallOk(t.rows, t.calls[i])
    {
      assert CallOk(s.rows, s.calls[i]);
      RankNeverRises(s.rows, t.rows, s.calls[i].user, s.calls[i].day, s.calls[i].id);
    }
  }

  lemma StepKeeps(s: State, e: Event)
    requires Inv(s) && Can(s, e)
    ensures Inv(Do(s, e))
  {
    hide Rank, Counted;
    match e
    case Insert(user, cap, id) => InsertKeeps(s, user, cap, id);
    case Count(k) => CountKeeps(s, k);
    case TakeBack(k, deleted) =>
      assert CallOk(s.rows, s.calls[k]);
      RemoveKeeps(s, Do(s, e), k, deleted);
    case Cancel(k, deleted) =>
      assert CallOk(s.rows, s.calls[k]);
      RemoveKeeps(s, Do(s, e), k, deleted);
    case Reconcile(k, ids) => ReconcileKeeps(s, k, ids);
    case Crash(k) =>
      assert CallOk(s.rows, s.calls[k]);
    case Midnight =>
  }

  lemma {:induction false} EveryRunKeeps(events: seq<Event>)
    requires Possible(events)
    ensures Inv(After(events))
  {
    hide Inv, Do, Can;
    if events == [] {
      assert Inv(START) by { StartIsFine(); }
    } else {
      EveryRunKeeps(events[..|events| - 1]);
      StepKeeps(After(events[..|events| - 1]), events[|events| - 1]);
    }
  }

  lemma StartIsFine()
    ensures Inv(START)
  {
  }
}
