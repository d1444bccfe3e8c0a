/** What the daily quota does when a count runs on a later day than the insertion. */
module QuotaMidnight {
  import opened QuotaCap
  import opened QuotaProtocol

  /** Days grow with ids and never lie ahead. */
  ghost predicate DaysGrow(s: State) {
    && (forall j :: j in s.rows ==> s.rows[j].day <= s.today)
    && (forall i, j :: i in s.rows && j in s.rows && i < j ==> s.rows[i].day <= s.rows[j].day)
  }

  lemma DaysGrowStep(s: State, e: Event)
    requires DaysGrow(s) && Can(s, e)
    ensures DaysGrow(Do(s, e))
  {
    hide Rank, Counted;
    var t := Do(s, e);
    assert forall j :: j in t.rows ==> (j in s.rows && t.rows[j] == s.rows[j]) || t.rows[j].day == s.today;
  }

  lemma {:induction false} DaysGrowAlways(events: seq<Event>)
    requires Possible(events)
    ensures DaysGrow(After(events))
  {
    hide DaysGrow, Do, Can;
    if events == [] {
      assert DaysGrow(START) by { StartDays(); }
    } else {
      DaysGrowAlways(events[..|events| - 1]);
      DaysGrowStep(After(events[..|events| - 1]), events[|events| - 1]);
    }
  }

  lemma StartDays()
    ensures DaysGrow(START)
  {
  }

  /** A count on a later day than the row's own sees no row at all. */
  lemma LateCountSeesNothing(s: State, c: Call)
    requires DaysGrow(s) && c.id in s.rows && s.rows[c.id].day == c.day && c.day < s.today
    ensures Rank(s.rows, c.user, s.today, c.id) == 0
  {
    assert Counted(s.rows, c.user, s.today, c.id) == {};
  }

  /**
   * In every run a count under a cap accepts exactly when it runs on a later day than the row's
   * own, or the row's rank on its own day is within the cap.
   */
  lemma AcceptedIff(events: seq<Event>, k: nat)
    requires Possible(events) && Can(After(events), Count(k)) && After(events).calls[k].cap > 0
    ensures var s := After(events);
            var c := s.calls[k];
            (Do(s, Count(k)).calls[k].phase == Accepted)
              <==> (c.day < s.today || Rank(s.rows, c.user, c.day, c.id) <= c.cap)
  {
    hide Possible, After, Rank, Counted;
    var s := After(events);
    var c := s.calls[k];
    EveryRunKeeps(events);
    DaysGrowAlways(events);
    assert Live(c);
    if c.day < s.today {
      LateCountSeesNothing(s, c);
    }
  }

  /** The live reservations of a user and day, whenever they were counted. */
  function AllHeld(s: State, user: nat, day: nat): set<nat> {
    set k | 0 <= k < |s.calls| && s.calls[k].phase.Accepted? && s.calls[k].user == user && s.calls[k].day == day
  }

  /** Over every run: a day's live reservations exceed the cap by at most those counted on another day. */
  lemma CapHoldsButForLateCounts(events: seq<Event>, user: nat, day: nat, cap: nat)
    requires Possible(events)
    requires forall k :: k in Held(After(events), user, day) ==> 0 < After(events).calls[k].cap <= cap
    ensures var s := After(events);
            |AllHeld(s, user, day)| <= cap + |AllHeld(s, user, day) - Held(s, user, day)|
  {
    hide Possible, After;
    CapHolds(events, user, day, cap);
    var s := After(events);
    var held, late := Held(s, user, day), AllHeld(s, user, day) - Held(s, user, day);
    assert AllHeld(s, user, day) == held + late;
  }

  /** n calls of one user with a cap of one, all inserted on the first day. */
  function Inserts(n: nat): seq<Event> {
    if n == 0 then [] else Inserts(n - 1) + [Insert(7, 1, n)]
  }

  /** The same, then midnight, then the first m of them counted. */
  function Counts(n: nat, m: nat): seq<Event> {
    if m == 0 then Inserts(n) + [Midnight] else Counts(n, m - 1) + [Count(m - 1)]
  }

  ghost predicate Counting7(s: State, n: nat, m: nat, today: nat) {
    && s.today == today && |s.calls| == n && (forall j :: j in s.rows ==> j <= n)
    && forall k :: 0 <= k < n ==>
         && s.calls[k].user == 7 && s.calls[k].day == 0 && s.calls[k].cap == 1
         && s.calls[k].phase == if k < m then Accepted else Counting
  }

  lemma More(events: seq<Event>, e: Event)
    requires Possible(events) && Can(After(events), e)
    ensures Possible(events + [e]) && After(events + [e]) == Do(After(events), e)
  {
    assert (events + [e])[..|events|] == events;
  }

  lemma {:induction false} InsertsRun(n: nat)
    ensures Possible(Inserts(n)) && Counting7(After(Inserts(n)), n, 0, 0)
  {
    hide Possible, After, Rank;
    if n == 0 {
      StartCounting();
    } else {
      InsertsRun(n - 1);
      More(Inserts(n - 1), Insert(7, 1, n));
    }
  }

  lemma StartCounting()
    ensures Possible([]) && Counting7(After([]), 0, 0, 0)
  {
  }

  lemma {:induction false} CountsRun(n: nat, m: nat)
    requires m <= n
    ensures Possible(Counts(n, m)) && Counting7(After(Counts(n, m)), n, m, 1)
    decreases m
  {
    hide Possible, After, Rank, Counted;
    if m == 0 {
      InsertsRun(n);
      More(Inserts(n), Midnight);
    } else {
      var events := Counts(n, m - 1);
      CountsRun(n, m - 1);
      AcceptedIff(events, m - 1);
      More(events, Count(m - 1));
    }
  }

  function FirstOnes(n: nat): (r: set<nat>)
    ensures |r| == n && forall k :: k in r <==> 0 <= k < n
  {
    if n == 0 then {} else FirstOnes(n - 1) + {n - 1}
  }

  /** Across midnight no cap holds: any number of calls of one day pass a cap of one. */
  lemma MidnightLetsMoreThrough(n: nat)
    ensures Possible(Counts(n, n))
    ensures var s := After(Counts(n, n));
            && (forall k :: 0 <= k < |s.calls| ==> s.calls[k].cap == 1)
            && |AllHeld(s, 7, 0)| == n == |s.calls|
            && (forall k :: 0 <= k < n ==>
                 s.calls[k].phase == Accepted && s.calls[k].user == 7 && s.calls[k].day == 0)
  {
    hide Possible, After;
    CountsRun(n, n);
    assert AllHeld(After(Counts(n, n)), 7, 0) == FirstOnes(n);
  }
}
