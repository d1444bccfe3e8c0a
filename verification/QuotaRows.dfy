/** Which rows the call log holds, and what each call can still do. */
module QuotaRows {
  import opened QuotaProtocol

  /** A row nobody takes back: written by a settlement, left by a death or by a failed delete. */
  predicate Leaves(e: Event) {
    e.Reconcile? || e.Crash? || (e.TakeBack? && !e.deleted) || (e.Cancel? && !e.deleted)
  }

  /** The log is the calls under way: one row each, of their user and day, and no other. */
  ghost predicate Exact(s: State) {
    forall id :: id in s.rows ==> exists k :: 0 <= k < |s.calls| && Live(s.calls[k]) && s.calls[k].id == id
  }

  lemma ExactStep(s: State, e: Event)
    requires Inv(s) && Exact(s) && Can(s, e) && !Leaves(e)
    ensures Exact(Do(s, e))
  {
    hide Rank, Counted, Within;
    var t := Do(s, e);
    forall id | id in t.rows
      ensures exists k :: 0 <= k < |t.calls| && Live(t.calls[k]) && t.calls[k].id == id
    {
      if id in s.rows && !(e.Insert? && e.id == id) {
        var k :| 0 <= k < |s.calls| && Live(s.calls[k]) && s.calls[k].id == id;
        assert t.calls[k].id == id && Live(t.calls[k]);
      } else {
        assert t.calls[|s.calls|].id == id && Live(t.calls[|s.calls|]);
      }
    }
  }

  lemma {:induction false} ExactAlways(events: seq<Event>)
    requires Possible(events) && forall i :: 0 <= i < |events| ==> !Leaves(events[i])
    ensures Exact(After(events))
  {
    hide Exact, Do, Can, Inv, Leaves;
    if events == [] {
      assert Exact(START) by { NoRows(); }
    } else {
      ExactAlways(events[..|events| - 1]);
      EveryRunKeeps(events[..|events| - 1]);
      ExactStep(After(events[..|events| - 1]), events[|events| - 1]);
    }
  }

  lemma NoRows()
    ensures Exact(START)
  {
  }

  /**
   * In a run without settlements, deaths and failed deletes the log holds exactly one row for each
   * call that is counting, accepted or about to take its row back: refusals and cancellations leave
   * nothing behind.
   */
  lemma LogIsExact(events: seq<Event>, id: nat, row: Row)
    requires Possible(events) && forall i :: 0 <= i < |events| ==> !Leaves(events[i])
    ensures var s := After(events);
            id in s.rows && s.rows[id] == row <==>
              exists k :: 0 <= k < |s.calls| && s.calls[k].id == id && row == Row(s.calls[k].user, s.calls[k].day)
                && s.calls[k].phase != Refused && s.calls[k].phase != Cancelled && s.calls[k].phase != Crashed
  {
    hide Possible, After, Leaves;
    ExactAlways(events);
    EveryRunKeeps(events);
  }

  /** A settlement's rows stand under today, and the next call of the user ranks behind every one of them. */
  lemma SettledRowsCount(s: State, k: nat, ids: set<nat>, next: nat)
    requires Can(s, Reconcile(k, ids)) && Fresh(Do(s, Reconcile(k, ids)).rows, next)
    ensures var t, user := Do(s, Reconcile(k, ids)), s.calls[k].user;
            && t.calls == s.calls && t.today == s.today
            && (forall id :: id in s.rows && id !in ids ==> id in t.rows && t.rows[id] == s.rows[id])
            && Rank(t.rows, user, s.today, next) == Rank(s.rows, user, s.today, next) + |ids|
  {
    var t, user := Do(s, Reconcile(k, ids)), s.calls[k].user;
    NewRows(s.rows, ids, Row(user, s.today), next);
  }

  /** New rows of a user and day add to the user's count of that day exactly their number. */
  lemma NewRows(rows: Rows, ids: set<nat>, row: Row, next: nat)
    requires (forall id :: id in ids ==> Fresh(rows, id)) && Fresh(WithRows(rows, ids, row), next)
    ensures Rank(WithRows(rows, ids, row), row.user, row.day, next) == Rank(rows, row.user, row.day, next) + |ids|
  {
    var now := WithRows(rows, ids, row);
    var before, after := Counted(rows, row.user, row.day, next), Counted(now, row.user, row.day, next);
    forall id | id in ids
      ensures id in now && id !in before
    {
      assert id in rows ==> id < id;
    }
    assert after == before + ids;
    assert before !! ids;
  }

  // ---- What a call can still do ----

  /** The call that takes this step. */
  function Caller(e: Event): int {
    match e
    case Count(k) => k
    case TakeBack(k, _) => k
    case Cancel(k, _) => k
    case Reconcile(k, _) => k
    case Crash(k) => k
    case _ => -1
  }

  function Ahead(p: Phase): nat {
    match p
    case Counting => 2
    case Accepted => 1
    case Refusing => 1
    case _ => 0
  }

  /** A call's own steps lead forward, but for settlements, which only an accepted call makes; others do not move it. */
  lemma CallsGoForward(s: State, e: Event, k: nat)
    requires Can(s, e) && k < |s.calls|
    ensures var t := Do(s, e);
            && k < |t.calls|
            && (Caller(e) != k ==> t.calls[k] == s.calls[k])
            && (Caller(e) == k && !e.Reconcile? ==> Ahead(t.calls[k].phase) < Ahead(s.calls[k].phase))
            && (Caller(e) == k && e.Reconcile? ==> s.calls[k].phase == Accepted && t.calls[k] == s.calls[k])
  {
    hide Rank, Counted;
  }

  /** A call is finished exactly when it is refused, cancelled or dead; before its verdict it can die at any moment. */
  lemma CallCanGoOn(s: State, k: nat)
    requires k < |s.calls|
    ensures s.calls[k].phase == Refused || s.calls[k].phase == Cancelled || s.calls[k].phase == Crashed
      <==> forall e :: Caller(e) == k ==> !Can(s, e)
    ensures Can(s, Crash(k)) <==> s.calls[k].phase == Counting || s.calls[k].phase == Refusing
    ensures Can(s, Cancel(k, true)) == Can(s, Cancel(k, false)) == Can(s, Reconcile(k, {}))
    ensures Can(s, TakeBack(k, true)) == Can(s, TakeBack(k, false))
  {
    match s.calls[k].phase {
      case Counting => assert Can(s, Count(k)) && Caller(Count(k)) == k;
      case Accepted => assert Can(s, Cancel(k, true)) && Caller(Cancel(k, true)) == k;
      case Refusing => assert Can(s, TakeBack(k, true)) && Caller(TakeBack(k, true)) == k;
      case _ =>
    }
  }
}
