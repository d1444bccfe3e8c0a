/** What the reservation protocol promises over every run. */
module QuotaCap {
  import opened QuotaProtocol

  /** The live reservations of a user and day whose count ran on that same day. */
  function Held(s: State, user: nat, day: nat): set<nat> {
    set k | 0 <= k < |s.calls| && s.calls[k].phase.Accepted? && s.calls[k].user == user && s.calls[k].day == day
            && s.calls[k].countedOn == day
  }

  lemma {:induction false} Largest(s: State, ks: set<nat>) returns (m: nat)
    requires ks != {} && forall k :: k in ks ==> k < |s.calls|
    ensures m in ks && forall k :: k in ks ==> s.calls[k].id <= s.calls[m].id
    decreases |ks|
  {
    var k :| k in ks;
    if ks == {k} {
      m := k;
    } else {
      assert ks == (ks - {k}) + {k};
      var n := Largest(s, ks - {k});
      m := if s.calls[k].id <= s.calls[n].id then n else k;
    }
  }

  lemma {:induction false} IdsOfCalls(s: State, ks: set<nat>) returns (ids: set<nat>)
    requires forall k :: k in ks ==> k < |s.calls|
    requires forall k, l :: k in ks && l in ks && k != l ==> s.calls[k].id != s.calls[l].id
    ensures |ids| == |ks| && forall j :: j in ids ==> exists k :: k in ks && s.calls[k].id == j
    decreases |ks|
  {
    if ks == {} {
      ids := {};
    } else {
      var k :| k in ks;
      var rest := IdsOfCalls(s, ks - {k});
      ids := rest + {s.calls[k].id};
    }
  }

  /** Over every run: the live reservations of a user and day never exceed the cap. */
  lemma CapHolds(events: seq<Event>, user: nat, day: nat, cap: nat)
    requires Possible(events)
    requires forall k :: k in Held(After(events), user, day) ==> 0 < After(events).calls[k].cap <= cap
    ensures |Held(After(events), user, day)| <= cap
  {
    hide Possible, After;
    var s := After(events);
    var ks := Held(s, user, day);
    EveryRunKeeps(events);
    if ks != {} {
      var m := Largest(s, ks);
      assert CallOk(s.rows, s.calls[m]);
      forall k, l | k in ks && l in ks && k != l
        ensures s.calls[k].id != s.calls[l].id
      {
        assert k < l || l < k;
      }
      var ids := IdsOfCalls(s, ks);
      forall j | j in ids
        ensures j in Counted(s.rows, user, day, s.calls[m].id)
      {
        var k :| k in ks && s.calls[k].id == j;
        assert Live(s.calls[k]);
      }
      Smaller(ids, Counted(s.rows, user, day, s.calls[m].id));
    }
  }

  /** The same, for whichever reservations are picked: same user, same day, counted on it, none over the cap. */
  lemma NoMoreThanCap(events: seq<Event>, user: nat, day: nat, cap: nat, ks: set<nat>)
    requires Possible(events)
    requires forall k :: 0 <= k < |After(events).calls| ==>
      var c := After(events).calls[k];
      c.phase == Accepted && c.user == user && c.day == day && c.countedOn == day ==> 0 < c.cap <= cap
    requires forall k :: k in ks ==>
      && k < |After(events).calls|
      && var c := After(events).calls[k];
         c.phase == Accepted && c.user == user && c.day == day && c.countedOn == day
    ensures |ks| <= cap
  {
    hide Possible, After;
    CapHolds(events, user, day, cap);
    Smaller(ks, Held(After(events), user, day));
  }

  /** No call whose rank at insertion was within the cap is refused, in any run. */
  lemma NeverRefusedWithinCap(events: seq<Event>, k: nat)
    requires Possible(events) && k < |After(events).calls|
    requires After(events).calls[k].phase.Refusing? || After(events).calls[k].phase.Refused?
    ensures 0 < After(events).calls[k].cap < After(events).calls[k].entry
  {
    EveryRunKeeps(events);
    assert CallOk(After(events).rows, After(events).calls[k]);
  }
}
