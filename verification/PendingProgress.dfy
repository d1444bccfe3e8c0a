/** How requests on a pending action proceed, and where it ends when nobody dies on the way. */
module PendingProgress {
  import opened PendingActions

  /** The most steps an approving request still has before it. */
  function Ahead(p: Approving): nat {
    match p
    case Fresh => 5
    case Seen => 4
    case Claimed => 3
    case Ran => 2
    case Broken => 1
    case Over => 0
  }

  function AheadRejecting(p: Rejecting): nat {
    match p
    case Asked => 2
    case Looked => 1
    case Done => 0
  }

  function Steps(ps: seq<Approving>): nat {
    if ps == [] then 0 else Steps(ps[..|ps| - 1]) + Ahead(ps[|ps| - 1])
  }

  function StepsRejecting(ps: seq<Rejecting>): nat {
    if ps == [] then 0 else StepsRejecting(ps[..|ps| - 1]) + AheadRejecting(ps[|ps| - 1])
  }

  predicate Dies(e: Event) {
    e.Crash? || e.CrashRejecting?
  }

  lemma {:induction false} StepsChange(ps: seq<Approving>, k: nat, p: Approving)
    requires k < |ps|
    ensures Steps(ps[k := p]) == Steps(ps) + Ahead(p) - Ahead(ps[k])
  {
    hide Ahead;
    var n := |ps| - 1;
    if k == n {
      assert ps[k := p][..n] == ps[..n];
    } else {
      StepsChange(ps[..n], k, p);
      assert ps[k := p][..n] == ps[..n][k := p];
    }
  }

  lemma {:induction false} StepsChangeRejecting(ps: seq<Rejecting>, j: nat, p: Rejecting)
    requires j < |ps|
    ensures StepsRejecting(ps[j := p]) == StepsRejecting(ps) + AheadRejecting(p) - AheadRejecting(ps[j])
  {
    hide AheadRejecting;
    var n := |ps| - 1;
    if j == n {
      assert ps[j := p][..n] == ps[..n];
    } else {
      StepsChangeRejecting(ps[..n], j, p);
      assert ps[j := p][..n] == ps[..n][j := p];
    }
  }

  /** The approving request that takes this step. */
  function Approver(e: Event): int {
    match e
    case Read(k) => k
    case Claim(k) => k
    case Unusable(k) => k
    case Run(k, _) => k
    case WriteExecuted(k) => k
    case WriteFails(k) => k
    case WriteFailed(k) => k
    case Crash(k) => k
    case _ => -1
  }

  /** The rejecting request that takes this step. */
  function Rejecter(e: Event): int {
    match e
    case Look(j) => j
    case WriteRejected(j) => j
    case CrashRejecting(j) => j
    case _ => -1
  }

  /** Each step belongs to one request, brings that one forward, and moves no other. */
  lemma StepMovesOne(s: State, e: Event)
    requires Can(s, e)
    ensures var t, k, j := Do(s, e), Approver(e), Rejecter(e);
            && (k >= 0 <==> j < 0) && k < |s.approvals| == |t.approvals| && j < |s.rejections| == |t.rejections|
            && t.approvals == (if k >= 0 then s.approvals[k := t.approvals[k]] else s.approvals)
            && t.rejections == (if j >= 0 then s.rejections[j := t.rejections[j]] else s.rejections)
            && (k >= 0 && !e.Crash? ==> Ahead(t.approvals[k]) < Ahead(s.approvals[k]))
            && (j >= 0 && !e.CrashRejecting? ==> AheadRejecting(t.rejections[j]) < AheadRejecting(s.rejections[j]))
            && (e.Crash? ==> t.approvals[k] == Over) && (e.CrashRejecting? ==> t.rejections[j] == Done)
  {
  }

  lemma StepCosts(s: State, e: Event)
    requires Can(s, e) && !Dies(e)
    ensures Steps(Do(s, e).approvals) + StepsRejecting(Do(s, e).rejections)
          < Steps(s.approvals) + StepsRejecting(s.rejections)
  {
    hide Do, Can, Ahead, AheadRejecting;
    StepMovesOne(s, e);
    var t, k, j := Do(s, e), Approver(e), Rejecter(e);
    if k >= 0 {
      StepsChange(s.approvals, k, t.approvals[k]);
    } else {
      StepsChangeRejecting(s.rejections, j, t.rejections[j]);
    }
  }

  lemma {:induction false} RunCosts(s: State, events: seq<Event>)
    requires Possible(s, events) && forall i :: 0 <= i < |events| ==> !Dies(events[i])
    ensures |events| <= Steps(s.approvals) + StepsRejecting(s.rejections)
    decreases |events|
  {
    hide Do, Can, Steps, StepsRejecting, Dies;
    if events != [] {
      StepCosts(s, events[0]);
      RunCosts(Do(s, events[0]), events[1..]);
    }
  }

  lemma {:induction false} StepsAtStart(ps: seq<Approving>, rs: seq<Rejecting>)
    requires (forall k :: 0 <= k < |ps| ==> ps[k] == Fresh) && forall j :: 0 <= j < |rs| ==> rs[j] == Asked
    ensures Steps(ps) == 5 * |ps| && StepsRejecting(rs) == 2 * |rs|
    decreases |ps| + |rs|
  {
    if ps != [] {
      StepsAtStart(ps[..|ps| - 1], rs);
    } else if rs != [] {
      StepsAtStart(ps, rs[..|rs| - 1]);
    }
  }

  /** Without deaths a run is over after five steps an approving and two steps a rejecting request. */
  lemma RunsEnd(approvals: nat, rejections: nat, events: seq<Event>)
    requires Possible(Start(approvals, rejections), events)
    requires forall i :: 0 <= i < |events| ==> !Dies(events[i])
    ensures |events| <= 5 * approvals + 2 * rejections
  {
    hide Dies;
    var s := Start(approvals, rejections);
    RunCosts(s, events);
    StepsAtStart(s.approvals, s.rejections);
  }

  /** A request can go on until it is over, and it can die before every step. */
  lemma CanGoOn(s: State, k: nat, j: nat)
    requires k < |s.approvals| && j < |s.rejections|
    ensures Can(s, Crash(k)) && Can(s, CrashRejecting(j))
    ensures s.approvals[k] != Over <==> exists e :: Approver(e) == k && !Dies(e) && Can(s, e)
    ensures s.rejections[j] != Done <==> exists e :: Rejecter(e) == j && !Dies(e) && Can(s, e)
  {
    match s.approvals[k] {
      case Fresh => Steppable(s, Read(k));
      case Seen => Steppable(s, Claim(k));
      case Claimed => Steppable(s, Unusable(k));
      case Ran => Steppable(s, WriteExecuted(k));
      case Broken => Steppable(s, WriteFailed(k));
      case Over =>
    }
    match s.rejections[j] {
      case Asked => Steppable(s, Look(j));
      case Looked => Steppable(s, WriteRejected(j));
      case Done =>
    }
  }

  lemma Steppable(s: State, e: Event)
    requires Can(s, e) && !Dies(e)
    ensures exists f :: Approver(f) == Approver(e) && Rejecter(f) == Rejecter(e) && !Dies(f) && Can(s, f)
  {
  }

  // ---- A request that comes too late ----

  /** Nothing an approving request does from here on but die. */
  ghost predicate OnlyDies(events: seq<Event>, k: nat) {
    forall i :: 0 <= i < |events| && Approver(events[i]) == k ==> events[i] == Crash(k)
  }

  lemma {:induction false} OverDoesNothing(s: State, events: seq<Event>, k: nat)
    requires Possible(s, events) && k < |s.approvals| && s.approvals[k] == Over
    ensures OnlyDies(events, k)
    decreases |events|
  {
    hide Possible;
    if events != [] {
      Unfold(s, events);
      var t := Do(s, events[0]);
      StepMovesOne(s, events[0]);
      OverDoesNothing(t, events[1..], k);
      assert forall i :: 0 < i < |events| ==> events[i] == events[1..][i - 1];
    }
  }

  lemma Unfold(s: State, events: seq<Event>)
    requires Possible(s, events) && events != []
    ensures Can(s, events[0]) && Possible(Do(s, events[0]), events[1..])
  {
  }

  /** An approval that finds the action no longer pending ends at once and never touches it. */
  lemma LateApprovalIsHarmless(s: State, k: nat, more: seq<Event>)
    requires Can(s, Read(k)) && s.status != Pending && Possible(Do(s, Read(k)), more)
    ensures Do(s, Read(k)) == s.(approvals := s.approvals[k := Over])
    ensures OnlyDies(more, k)
  {
    OverDoesNothing(Do(s, Read(k)), more, k);
  }

  /** It is the same when another request claims the action first. */
  lemma LostClaimIsHarmless(s: State, k: nat, more: seq<Event>)
    requires Can(s, Claim(k)) && s.status != Pending && Possible(Do(s, Claim(k)), more)
    ensures Do(s, Claim(k)) == s.(approvals := s.approvals[k := Over])
    ensures OnlyDies(more, k)
  {
    OverDoesNothing(Do(s, Claim(k)), more, k);
  }

  lemma {:induction false} DoneDoesNothing(s: State, events: seq<Event>, j: nat)
    requires Possible(s, events) && j < |s.rejections| && s.rejections[j] == Done
    ensures forall i :: 0 <= i < |events| && Rejecter(events[i]) == j ==> events[i] == CrashRejecting(j)
    decreases |events|
  {
    hide Possible;
    if events != [] {
      Unfold(s, events);
      StepMovesOne(s, events[0]);
      DoneDoesNothing(Do(s, events[0]), events[1..], j);
      assert forall i :: 0 < i < |events| ==> events[i] == events[1..][i - 1];
    }
  }

  /** A rejection that finds the action no longer pending never writes. */
  lemma LateLookNeverWrites(s: State, j: nat, more: seq<Event>)
    requires Can(s, Look(j)) && s.status != Pending && Possible(Do(s, Look(j)), more)
    ensures Do(s, Look(j)) == s.(rejections := s.rejections[j := Done])
    ensures WriteRejected(j) !in more
  {
    DoneDoesNothing(Do(s, Look(j)), more, j);
  }

  // ---- Where it ends ----

  /** While the action is pending nobody is past the claim or the look; while approved somebody holds it. */
  ghost predicate Awaited(s: State) {
    && (s.status == Pending ==>
         && (forall k :: 0 <= k < |s.approvals| ==> s.approvals[k].Fresh? || s.approvals[k].Seen?)
         && (forall j :: 0 <= j < |s.rejections| ==> s.rejections[j].Asked? || s.rejections[j].Looked?))
    && (s.status == Approved ==> exists k :: 0 <= k < |s.approvals| && Holding(s.approvals[k]))
    && (s.status == Rejected ==> s.rejections != [])
  }

  lemma AwaitedStep(s: State, e: Event)
    requires Can(s, e) && !Dies(e) && Awaited(s)
    ensures Awaited(Do(s, e))
  {
    var t, k := Do(s, e), Approver(e);
    if t.status == Approved {
      if s.status == Approved {
        var l :| 0 <= l < |s.approvals| && Holding(s.approvals[l]);
        if l != k {
          assert Holding(t.approvals[l]);
        } else {
          assert Holding(t.approvals[k]);
        }
      } else {
        assert Holding(t.approvals[k]);
      }
    }
  }

  lemma {:induction false} AwaitedAlways(s: State, events: seq<Event>)
    requires Awaited(s) && Possible(s, events)
    requires forall i :: 0 <= i < |events| ==> !Dies(events[i])
    ensures Awaited(After(s, events))
    ensures |After(s, events).approvals| == |s.approvals| && |After(s, events).rejections| == |s.rejections|
    decreases |events|
  {
    hide Do, Can, Awaited, Dies;
    if events != [] {
      AwaitedStep(s, events[0]);
      StepMovesOne(s, events[0]);
      AwaitedAlways(Do(s, events[0]), events[1..]);
    }
  }

  /**
   * When every request has come to its end and none has died, the action is settled: executed or
   * failed, or rejected if anybody asked for that. It is never left pending or approved.
   */
  lemma SettledInTheEnd(approvals: nat, rejections: nat, events: seq<Event>)
    requires Possible(Start(approvals, rejections), events) && approvals + rejections > 0
    requires forall i :: 0 <= i < |events| ==> !Dies(events[i])
    requires var t := After(Start(approvals, rejections), events);
             forall e :: !Dies(e) ==> !Can(t, e)
    ensures var t := After(Start(approvals, rejections), events);
            t.status == Executed || t.status == Failed || (t.status == Rejected && rejections > 0)
  {
    hide Possible, After, Dies, Can;
    var s := Start(approvals, rejections);
    var t := After(s, events);
    AwaitedAlways(s, events);
    assert forall k :: 0 <= k < |t.approvals| ==> t.approvals[k] == Over by { AllOver(t); }
    assert forall j :: 0 <= j < |t.rejections| ==> t.rejections[j] == Rejecting.Done by { AllOver(t); }
    assert approvals > 0 ==> t.approvals[0] == Over;
    assert rejections > 0 ==> t.rejections[0] == Rejecting.Done;
  }

  lemma AllOver(t: State)
    requires forall e :: !Dies(e) ==> !Can(t, e)
    ensures forall k :: 0 <= k < |t.approvals| ==> t.approvals[k] == Over
    ensures forall j :: 0 <= j < |t.rejections| ==> t.rejections[j] == Rejecting.Done
  {
    forall k | 0 <= k < |t.approvals|
      ensures t.approvals[k] == Over
    {
      assert !Can(t, Read(k)) && !Can(t, Claim(k)) && !Can(t, Unusable(k));
      assert !Can(t, WriteExecuted(k)) && !Can(t, WriteFailed(k));
    }
    forall j | 0 <= j < |t.rejections|
      ensures t.rejections[j] == Rejecting.Done
    {
      assert !Can(t, Look(j)) && !Can(t, WriteRejected(j));
    }
  }
}
