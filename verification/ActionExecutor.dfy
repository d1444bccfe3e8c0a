/** The pending action's row as one request at a time sees it: approve or reject, then nothing more. */
module ActionExecutor {
  import opened PendingActions

  datatype Reply = Applied | NotApplied | AlreadyHandled

  /** How an approval without rivals ends; recorded: the write of `executed` goes through. */
  function Resolved(usable: bool, outcome: Outcome, recorded: bool): Status {
    if usable && outcome.Success? && recorded then Executed else Failed
  }

  /** The steps of that approval in the interleaved protocol. */
  function Trace(usable: bool, outcome: Outcome, recorded: bool): seq<Event> {
    [Read(0)] + ([Claim(0)] + Following(usable, outcome, recorded))
  }

  /** After the claim. */
  function Following(usable: bool, outcome: Outcome, recorded: bool): seq<Event> {
    if !usable then [Unusable(0)] + ([WriteFailed(0)] + [])
    else if !outcome.Success? then [Run(0, outcome)] + ([WriteFailed(0)] + [])
    else if recorded then [Run(0, outcome)] + ([WriteExecuted(0)] + [])
    else [Run(0, outcome)] + ([WriteFails(0)] + ([WriteFailed(0)] + []))
  }

  class Action {
    var status: Status
    var runs: nat

    constructor ()
      ensures status == Pending && runs == 0
    {
      status, runs := Pending, 0;
    }

    /** Applies the action once: afterwards it is executed or failed, and a second call changes nothing. */
    method Execute(usable: bool, outcome: Outcome, recorded: bool) returns (reply: Reply)
      modifies this
      ensures old(status) != Pending ==> reply == AlreadyHandled && status == old(status) && runs == old(runs)
      ensures old(status) == Pending ==>
        && status == Resolved(usable, outcome, recorded)
        && (status == Executed <==> usable && outcome == Success && recorded)
        && (status != Executed ==> status == Failed)
        && runs == old(runs) + (if usable then 1 else 0)
        && reply == if status == Executed then Applied else NotApplied
      ensures status != Pending
    {
      if status != Pending {
        return AlreadyHandled;
      }
      status := Approved;
      if !usable {
        status := Failed;
        return NotApplied;
      }
      runs := runs + 1;
      if outcome.Success? && recorded {
        status := Executed;
        return Applied;
      }
      status := Failed;
      return NotApplied;
    }

    method Reject() returns (reply: Reply)
      modifies this`status
      ensures old(status) != Pending ==> reply == AlreadyHandled && status == old(status)
      ensures old(status) == Pending ==> reply == Applied && status == Rejected
    {
      if status != Pending {
        return AlreadyHandled;
      }
      status := Rejected;
      return Applied;
    }
  }

  /** Without rivals the interleaved protocol ends where `Execute` does. */
  lemma TraceEnds(usable: bool, outcome: Outcome, recorded: bool)
    ensures Possible(Start(1, 0), Trace(usable, outcome, recorded))
    ensures var t := After(Start(1, 0), Trace(usable, outcome, recorded));
            t.status == Resolved(usable, outcome, recorded) && t.runs == if usable then 1 else 0
  {
    hide Possible, After;
    var s0 := Start(1, 0);
    var s1 := Do(s0, Read(0));
    var s2 := Do(s1, Claim(0));
    assert s1.approvals == [Seen] && s2.approvals == [Claimed];
    ClaimedEnds(s2, usable, outcome, recorded);
    Cons(s1, Claim(0), s2, Following(usable, outcome, recorded));
    Cons(s0, Read(0), s1, [Claim(0)] + Following(usable, outcome, recorded));
  }

  lemma ClaimedEnds(s: State, usable: bool, outcome: Outcome, recorded: bool)
    requires s.approvals == [Claimed] && s.runs == 0
    ensures Possible(s, Following(usable, outcome, recorded))
    ensures var t := After(s, Following(usable, outcome, recorded));
            t.status == Resolved(usable, outcome, recorded) && t.runs == if usable then 1 else 0
  {
    hide Possible, After;
    if !usable {
      var u := Do(s, Unusable(0));
      BrokenEnds(u);
      Cons(s, Unusable(0), u, [WriteFailed(0)] + []);
    } else {
      var u := Do(s, Run(0, outcome));
      if !outcome.Success? {
        BrokenEnds(u);
        Cons(s, Run(0, outcome), u, [WriteFailed(0)] + []);
      } else if recorded {
        var v := Do(u, WriteExecuted(0));
        NoSteps(v);
        Cons(u, WriteExecuted(0), v, []);
        Cons(s, Run(0, outcome), u, [WriteExecuted(0)] + []);
      } else {
        var v := Do(u, WriteFails(0));
        BrokenEnds(v);
        Cons(u, WriteFails(0), v, [WriteFailed(0)] + []);
        Cons(s, Run(0, outcome), u, [WriteFails(0)] + ([WriteFailed(0)] + []));
      }
    }
  }

  lemma BrokenEnds(s: State)
    requires s.approvals == [Broken]
    ensures Possible(s, [WriteFailed(0)] + [])
    ensures After(s, [WriteFailed(0)] + []).status == Failed && After(s, [WriteFailed(0)] + []).runs == s.runs
  {
    var t := Do(s, WriteFailed(0));
    NoSteps(t);
    Cons(s, WriteFailed(0), t, []);
  }
}
