/**
 * One pending action under any number of approving and rejecting requests that interleave step by
 * step and may die at any step.
 */
module PendingActions {

  datatype Status = Pending | Approved | Executed | Failed | Rejected

  /** Where an approving request stands. */
  datatype Approving =
    | Fresh    // not yet read
    | Seen     // read the action as pending
    | Claimed  // won the conditional update
    | Ran      // the handler reported success; status not yet written
    | Broken   // to be marked failed
    | Over

  datatype Rejecting = Asked | Looked | Done

  /** How a handler ends. Handlers commit their own work before they return. */
  datatype Outcome = Success | Declined | Raised(committed: bool)

  /**
   * claims, runs, successes, applied: how often the action was claimed, its handler was run, reported
   * success, committed its work. stale: a rejection was written over another status. broke: a
   * handler's committed work was followed by a failure.
   */
  datatype State = State(status: Status, claims: nat, runs: nat, successes: nat, applied: nat,
                         stale: bool, broke: bool, approvals: seq<Approving>, rejections: seq<Rejecting>)

  datatype Event =
    | Read(k: nat)
    | Claim(k: nat)
    | Unusable(k: nat)                // payload, action type or user rule stops it before the handler
    | Run(k: nat, outcome: Outcome)
    | WriteExecuted(k: nat)
    | WriteFails(k: nat)              // the write of `executed` raises
    | WriteFailed(k: nat)
    | Crash(k: nat)
    | Look(j: nat)
    | WriteRejected(j: nat)
    | CrashRejecting(j: nat)

  predicate At(s: State, k: nat, phase: Approving) {
    k < |s.approvals| && s.approvals[k] == phase
  }

  predicate RejectingAt(s: State, j: nat, phase: Rejecting) {
    j < |s.rejections| && s.rejections[j] == phase
  }

  predicate Can(s: State, e: Event) {
    match e
    case Read(k) => At(s, k, Fresh)
    case Claim(k) => At(s, k, Seen)
    case Unusable(k) => At(s, k, Claimed)
    case Run(k, _) => At(s, k, Claimed)
    case WriteExecuted(k) => At(s, k, Ran)
    case WriteFails(k) => At(s, k, Ran)
    case WriteFailed(k) => At(s, k, Broken)
    case Crash(k) => k < |s.approvals|
    case Look(j) => RejectingAt(s, j, Asked)
    case WriteRejected(j) => RejectingAt(s, j, Looked)
    case CrashRejecting(j) => j < |s.rejections|
  }

  function Moved(s: State, k: nat, phase: Approving): State
    requires k < |s.approvals|
  {
    s.(approvals := s.approvals[k := phase])
  }

  function Do(s: State, e: Event): State
    requires Can(s, e)
  {
    match e
    case Read(k) => Moved(s, k, if s.status == Pending then Seen else Over)
    case Claim(k) =>
      if s.status == Pending then Moved(s, k, Claimed).(status := Approved, claims := s.claims + 1)
      else Moved(s, k, Over)
    case Unusable(k) => Moved(s, k, Broken)
    case Run(k, outcome) =>
      var ran := s.(runs := s.runs + 1);
      (match outcome
       case Success => Moved(ran, k, Ran).(successes := s.successes + 1, applied := s.applied + 1)
       case Declined => Moved(ran, k, Broken)
       case Raised(committed) =>
         Moved(ran, k, Broken).(applied := s.applied + (if committed then 1 else 0), broke := s.broke || committed))
    case WriteExecuted(k) => Moved(s, k, Over).(status := Executed)
    case WriteFails(k) => Moved(s, k, Broken).(broke := true)
    case WriteFailed(k) => Moved(s, k, Over).(status := Failed)
    case Crash(k) => Moved(s, k, Over)
    case Look(j) => s.(rejections := s.rejections[j := if s.status == Pending then Looked else Done])
    case WriteRejected(j) =>
      s.(rejections := s.rejections[j := Done], status := Rejected, stale := s.stale || s.status != Pending)
    case CrashRejecting(j) => s.(rejections := s.rejections[j := Done])
  }

  /** The steps can be taken one after the other from s. */
  predicate Possible(s: State, events: seq<Event>)
    decreases |events|
  {
    events == [] || (Can(s, events[0]) && Possible(Do(s, events[0]), events[1..]))
  }

  function After(s: State, events: seq<Event>): State
    requires Possible(s, events)
    decreases |events|
  {
    if events == [] then s else After(Do(s, events[0]), events[1..])
  }

  /** A new action and the requests that will arrive for it. */
  function Start(approvals: nat, rejections: nat): State {
    State(Pending, 0, 0, 0, 0, false, false, seq(approvals, _ => Fresh), seq(rejections, _ => Asked))
  }

  // ---- What every step keeps ----

  predicate Holding(p: Approving) {
    p.Claimed? || p.Ran? || p.Broken?
  }

  /** At most one request holds the action at a time, and only after the claim. */
  ghost predicate OneHolder(s: State) {
    && (forall k :: 0 <= k < |s.approvals| && Holding(s.approvals[k]) ==>
         s.claims == 1 && s.status != Failed && s.status != Executed)
    && (forall k, l :: 0 <= k < l < |s.approvals| ==> !(Holding(s.approvals[k]) && Holding(s.approvals[l])))
  }

  /** What the holder's position says about the handler. */
  ghost predicate HolderOk(s: State, p: Approving) {
    && (p.Claimed? ==> s.runs == 0)
    && (p.Ran? ==> s.successes == 1)
    && (p.Broken? && !s.broke ==> s.applied == 0)
  }

  ghost predicate CountsOk(s: State) {
    && s.runs <= s.claims <= 1 && s.successes <= s.applied <= s.runs
    && (if s.broke then s.applied == 1 else s.applied == s.successes)
    && (s.status == Pending ==> s.claims == 0 && !s.stale)
    && (s.claims == 0 ==> s.status == Pending || s.status == Rejected)
    && (s.status == Rejected && !s.stale ==> s.claims == 0)
    && (s.status == Executed ==> s.successes == 1)
    && (s.status == Failed && !s.broke ==> s.applied == 0)
  }

  ghost predicate Inv(s: State) {
    OneHolder(s) && CountsOk(s) && forall k :: 0 <= k < |s.approvals| ==> HolderOk(s, s.approvals[k])
  }

  /** A request moves on: the others stay where they are. */
  lemma HolderMoves(s: State, t: State, k: nat)
    requires Inv(s) && k < |s.approvals| && |t.approvals| == |s.approvals| && CountsOk(t)
    requires forall l :: 0 <= l < |s.approvals| && l != k ==> t.approvals[l] == s.approvals[l]
    requires HolderOk(t, t.approvals[k])
    requires (forall l :: 0 <= l < |s.approvals| && l != k ==> !Holding(s.approvals[l]))
             || (t.status == s.status && t.claims == s.claims && !Holding(t.approvals[k]) && HolderSame(s, t))
    requires Holding(t.approvals[k]) ==> t.claims == 1 && t.status != Failed && t.status != Executed
    ensures Inv(t)
  {
    forall l | 0 <= l < |t.approvals|
      ensures HolderOk(t, t.approvals[l])
    {
      if l != k {
        assert HolderOk(s, s.approvals[l]);
      }
    }
  }

  predicate HolderSame(s: State, t: State) {
    s.runs == t.runs && s.successes == t.successes && s.applied == t.applied && s.broke == t.broke
  }

  lemma OnlyHolder(s: State, k: nat)
    requires OneHolder(s) && k < |s.approvals| && Holding(s.approvals[k])
    ensures forall l :: 0 <= l < |s.approvals| && l != k ==> !Holding(s.approvals[l])
  {
    forall l | 0 <= l < |s.approvals| && l != k
      ensures !Holding(s.approvals[l])
    {
      assert l < k || k < l;
    }
  }

  lemma ApprovalKeeps(s: State, e: Event, k: nat)
    requires Inv(s) && Can(s, e)
    requires match e
             case Read(l) => k == l
             case Claim(l) => k == l
             case Unusable(l) => k == l
             case Run(l, _) => k == l
             case WriteExecuted(l) => k == l
             case WriteFails(l) => k == l
             case WriteFailed(l) => k == l
             case Crash(l) => k == l
             case _ => false
    ensures Inv(Do(s, e))
  {
    assert HolderOk(s, s.approvals[k]);
    var t := Do(s, e);
    if Holding(s.approvals[k]) {
      OnlyHolder(s, k);
    }
    HolderMoves(s, t, k);
  }

  lemma StepKeeps(s: State, e: Event)
    requires Inv(s) && Can(s, e)
    ensures Inv(Do(s, e))
  {
    match e
    case Look(_) =>
    case WriteRejected(_) => RejectionKeeps(s, e);
    case CrashRejecting(_) =>
    case Read(k) => ApprovalKeeps(s, e, k);
    case Claim(k) => ApprovalKeeps(s, e, k);
    case Unusable(k) => ApprovalKeeps(s, e, k);
    case Run(k, _) => ApprovalKeeps(s, e, k);
    case WriteExecuted(k) => ApprovalKeeps(s, e, k);
    case WriteFails(k) => ApprovalKeeps(s, e, k);
    case WriteFailed(k) => ApprovalKeeps(s, e, k);
    case Crash(k) => ApprovalKeeps(s, e, k);
  }

  lemma RejectionKeeps(s: State, e: Event)
    requires Inv(s) && e.WriteRejected? && Can(s, e)
    ensures Inv(Do(s, e))
  {
    var t := Do(s, e);
    forall l | 0 <= l < |t.approvals|
      ensures HolderOk(t, t.approvals[l])
    {
      assert HolderOk(s, s.approvals[l]);
    }
  }

  lemma {:induction false} RunKeeps(s: State, events: seq<Event>)
    requires Inv(s) && Possible(s, events)
    ensures Inv(After(s, events))
    decreases |events|
  {
    hide Inv, Do, Can;
    if events != [] {
      StepKeeps(s, events[0]);
      RunKeeps(Do(s, events[0]), events[1..]);
    }
  }

  lemma StartIsFine(approvals: nat, rejections: nat)
    ensures Inv(Start(approvals, rejections))
  {
  }

  lemma {:induction false} PendingOnlyAtFirst(s: State, events: seq<Event>)
    requires Possible(s, events) && s.status != Pending
    ensures After(s, events).status != Pending
    decreases |events|
  {
    if events != [] {
      PendingOnlyAtFirst(Do(s, events[0]), events[1..]);
    }
  }

  // ---- The protocol's promises ----

  /**
   * Over every interleaving: the handler runs at most once and only under the one claim, and
   * `executed` stands only after a run that succeeded.
   */
  lemma AtMostOnce(approvals: nat, rejections: nat, events: seq<Event>)
    requires Possible(Start(approvals, rejections), events)
    ensures var t := After(Start(approvals, rejections), events);
            && t.runs <= t.claims <= 1
            && (t.status == Executed ==> t.runs == t.successes == t.applied == 1)
            && (t.status == Pending ==> t.runs == 0)
  {
    StartIsFine(approvals, rejections);
    RunKeeps(Start(approvals, rejections), events);
  }

  /** The run's own misfortunes: a handler raises after its commit, or the write of `executed` raises. */
  predicate Breaks(e: Event) {
    (e.Run? && e.outcome == Raised(true)) || e.WriteFails?
  }

  lemma {:induction false} BrokeIff(s: State, events: seq<Event>)
    requires Possible(s, events)
    ensures After(s, events).broke <==> s.broke || exists i :: 0 <= i < |events| && Breaks(events[i])
    decreases |events|
  {
    if events != [] {
      var rest := events[1..];
      BrokeIff(Do(s, events[0]), rest);
      assert forall i :: 0 <= i < |rest| ==> rest[i] == events[i + 1];
    }
  }

  /**
   * What the status tells about the work: executed means done, pending means not done, and failed
   * means not done exactly when no step of the run failed after a handler's own commit.
   */
  lemma StatusTellsTruth(approvals: nat, rejections: nat, events: seq<Event>)
    requires Possible(Start(approvals, rejections), events)
    ensures var t := After(Start(approvals, rejections), events);
            && t.applied <= 1
            && (t.status == Pending ==> t.applied == 0)
            && (t.status == Executed ==> t.applied == 1)
            && (t.status == Failed ==>
                 (t.applied == 1 <==> exists i :: 0 <= i < |events| && Breaks(events[i])))
            && (t.status == Rejected && !t.stale ==> t.applied == 0)
  {
    hide Do, Can, Possible, After, Breaks;
    StartIsFine(approvals, rejections);
    RunKeeps(Start(approvals, rejections), events);
    BrokeIff(Start(approvals, rejections), events);
  }

  /** A handler that raises after its commit: the action reads as failed although it was applied. */
  lemma FailureHidesExecution()
    ensures var events := [Read(0), Claim(0), Run(0, Raised(true)), WriteFailed(0)];
            && Possible(Start(1, 0), events)
            && After(Start(1, 0), events).status == Failed && After(Start(1, 0), events).applied == 1
  {
    hide Possible, After, Do, Can;
    var s3 := State(Approved, 1, 1, 0, 1, false, true, [Broken], []);
    var s4 := State(Failed, 1, 1, 0, 1, false, true, [Over], []);
    ReadOfOne([]);
    ClaimOfOne([]);
    RaiseOfOne([]);
    FailOfOne([]);
    NoSteps(s4);
    Cons(s3, WriteFailed(0), s4, []);
    Cons(Held([]), Run(0, Raised(true)), s3, [WriteFailed(0)] + []);
    Cons(SeenBy([]), Claim(0), Held([]), [Run(0, Raised(true))] + ([WriteFailed(0)] + []));
    Cons(Unseen([]), Read(0), SeenBy([]), [Claim(0)] + ([Run(0, Raised(true))] + ([WriteFailed(0)] + [])));
    assert Start(1, 0) == Unseen([]) by { StartOfOne(); }
    assert [Read(0), Claim(0), Run(0, Raised(true)), WriteFailed(0)]
      == [Read(0)] + ([Claim(0)] + ([Run(0, Raised(true))] + ([WriteFailed(0)] + [])));
  }

  // ---- Rejection ----

  /** Nobody is about to run the handler, it has not run, and nobody can claim the action any more. */
  ghost predicate Shut(s: State) {
    s.runs == 0 && s.status != Pending && forall k :: 0 <= k < |s.approvals| ==> !s.approvals[k].Claimed?
  }

  lemma {:induction false} ShutStays(s: State, events: seq<Event>)
    requires Possible(s, events) && Shut(s)
    ensures Shut(After(s, events))
    decreases |events|
  {
    if events != [] {
      ShutStep(s, events[0]);
      ShutStays(Do(s, events[0]), events[1..]);
    }
  }

  lemma ShutStep(s: State, e: Event)
    requires Can(s, e) && Shut(s)
    ensures Shut(Do(s, e))
  {
  }

  /**
   * After a rejection the handler never runs, whatever happens afterwards, exactly when it has not
   * run and nobody is about to run it at the moment the rejection is written.
   */
  lemma RejectionStopsHandlerIff(s: State, j: nat)
    requires Can(s, WriteRejected(j))
    ensures var t := Do(s, WriteRejected(j));
            (forall more :: Possible(t, more) ==> After(t, more).runs == 0)
              <==> s.runs == 0 && forall k :: 0 <= k < |s.approvals| ==> !s.approvals[k].Claimed?
  {
    var t := Do(s, WriteRejected(j));
    if s.runs == 0 && forall k :: 0 <= k < |s.approvals| ==> !s.approvals[k].Claimed? {
      forall more | Possible(t, more)
        ensures After(t, more).runs == 0
      {
        ShutStays(t, more);
      }
    } else {
      var more := RunsAnyway(s, t);
    }
  }

  /** Rejected, and no request holds the claim. */
  ghost predicate Closed(s: State) {
    s.status == Rejected && forall k :: 0 <= k < |s.approvals| ==> !Holding(s.approvals[k])
  }

  lemma ClosedStep(s: State, e: Event)
    requires Can(s, e) && Closed(s)
    ensures Closed(Do(s, e))
  {
  }

  lemma {:induction false} ClosedStays(s: State, events: seq<Event>)
    requires Possible(s, events) && Closed(s)
    ensures Closed(After(s, events))
    decreases |events|
  {
    hide Do, Can, Closed;
    if events != [] {
      ClosedStep(s, events[0]);
      ClosedStays(Do(s, events[0]), events[1..]);
    }
  }

  /** Whoever holds the claim can write over a rejection. */
  lemma HolderOverwrites(t: State, k: nat) returns (more: seq<Event>)
    requires k < |t.approvals| && Holding(t.approvals[k])
    ensures Possible(t, more) && After(t, more).status != Rejected
  {
    hide Possible, After;
    match t.approvals[k]
    case Ran =>
      var u := Do(t, WriteExecuted(k));
      NoSteps(u);
      Cons(t, WriteExecuted(k), u, []);
      more := [WriteExecuted(k)] + [];
    case Broken =>
      var u := Do(t, WriteFailed(k));
      NoSteps(u);
      Cons(t, WriteFailed(k), u, []);
      more := [WriteFailed(k)] + [];
    case Claimed =>
      var u := Do(t, Unusable(k));
      var v := Do(u, WriteFailed(k));
      NoSteps(v);
      Cons(u, WriteFailed(k), v, []);
      Cons(t, Unusable(k), u, [WriteFailed(k)] + []);
      more := [Unusable(k)] + ([WriteFailed(k)] + []);
  }

  /**
   * A rejection is final - the status stays rejected in every continuation - exactly when no
   * request holds the claim at the moment the rejection is written.
   */
  lemma RejectionIsFinalIff(s: State, j: nat)
    requires Can(s, WriteRejected(j))
    ensures var t := Do(s, WriteRejected(j));
            (forall more :: Possible(t, more) ==> After(t, more).status == Rejected)
              <==> forall k :: 0 <= k < |s.approvals| ==> !Holding(s.approvals[k])
  {
    hide Possible, After;
    var t := Do(s, WriteRejected(j));
    if k :| 0 <= k < |s.approvals| && Holding(s.approvals[k]) {
      var more := HolderOverwrites(t, k);
    } else {
      forall more | Possible(t, more)
        ensures After(t, more).status == Rejected
      {
        ClosedStays(t, more);
      }
    }
  }

  /**
   * An action can stand as rejected with its work done exactly when, at the moment the rejection
   * is written, the work is done or somebody is about to run the handler.
   */
  lemma RejectedThoughAppliedIff(s: State, j: nat)
    requires Inv(s) && Can(s, WriteRejected(j))
    ensures var t := Do(s, WriteRejected(j));
            (exists more :: Possible(t, more) && After(t, more).status == Rejected && After(t, more).applied == 1)
              <==> s.applied == 1 || exists k :: 0 <= k < |s.approvals| && s.approvals[k].Claimed?
  {
    hide Possible, After;
    var t := Do(s, WriteRejected(j));
    if s.applied == 1 {
      NoSteps(t);
    } else if k :| 0 <= k < |s.approvals| && s.approvals[k].Claimed? {
      var u := Do(t, Run(k, Success));
      NoSteps(u);
      Cons(t, Run(k, Success), u, []);
      assert Possible(t, [Run(k, Success)] + []);
    } else {
      forall more | Possible(t, more)
        ensures After(t, more).applied == 0
      {
        UndoneStays(t, more);
      }
    }
  }

  /** The work is not done, nobody is about to do it, and nobody can claim the action any more. */
  ghost predicate Undone(s: State) {
    s.applied == 0 && s.status != Pending && forall k :: 0 <= k < |s.approvals| ==> !s.approvals[k].Claimed?
  }

  lemma UndoneStep(s: State, e: Event)
    requires Can(s, e) && Undone(s)
    ensures Undone(Do(s, e))
  {
  }

  lemma {:induction false} UndoneStays(s: State, events: seq<Event>)
    requires Possible(s, events) && Undone(s)
    ensures After(s, events).applied == 0
    decreases |events|
  {
    hide Do, Can;
    if events != [] {
      UndoneStep(s, events[0]);
      UndoneStays(Do(s, events[0]), events[1..]);
    }
  }

  lemma RunsAnyway(s: State, t: State) returns (more: seq<Event>)
    requires t.runs == s.runs && t.approvals == s.approvals
    requires s.runs > 0 || exists k :: 0 <= k < |s.approvals| && s.approvals[k].Claimed?
    ensures Possible(t, more) && After(t, more).runs > 0
  {
    if s.runs > 0 {
      more := [];
      NoSteps(t);
    } else {
      var k :| 0 <= k < |s.approvals| && s.approvals[k].Claimed?;
      RunsNext(t, k);
      more := [Run(k, Success)];
    }
  }

  lemma RunsNext(t: State, k: nat)
    requires At(t, k, Claimed)
    ensures Possible(t, [Run(k, Success)]) && After(t, [Run(k, Success)]).runs > 0
  {
    NoSteps(Do(t, Run(k, Success)));
    Cons(t, Run(k, Success), Do(t, Run(k, Success)), []);
    assert [Run(k, Success)] + [] == [Run(k, Success)];
  }

  /** A rejection written while the action is pending is final: it stays, and the handler never runs. */
  lemma PromptRejectionIsFinal(approvals: nat, rejections: nat, before: seq<Event>, j: nat, more: seq<Event>)
    requires Possible(Start(approvals, rejections), before)
    requires var s := After(Start(approvals, rejections), before);
             s.status == Pending && Can(s, WriteRejected(j)) && Possible(Do(s, WriteRejected(j)), more)
    ensures var t := After(Do(After(Start(approvals, rejections), before), WriteRejected(j)), more);
            t.status == Rejected && t.runs == 0 && t.applied == 0
  {
    hide Possible, After;
    var s := After(Start(approvals, rejections), before);
    StartIsFine(approvals, rejections);
    RunKeeps(Start(approvals, rejections), before);
    var t := Do(s, WriteRejected(j));
    ShutStays(t, more);
    ClosedStays(t, more);
    UndoneStays(t, more);
  }

  /** A late rejection overwrites `executed`: the action reads as rejected although it was applied. */
  lemma LateRejectionHidesExecution()
    ensures var events := [Look(0), Read(0), Claim(0), Run(0, Success), WriteExecuted(0), WriteRejected(0)];
            && Possible(Start(1, 1), events)
            && After(Start(1, 1), events).status == Rejected && After(Start(1, 1), events).applied == 1
  {
    hide Possible, After, Do, Can;
    var looked := [Looked];
    var s4 := State(Approved, 1, 1, 1, 1, false, false, [Ran], looked);
    var s5 := State(Executed, 1, 1, 1, 1, false, false, [Over], looked);
    var s6 := State(Rejected, 1, 1, 1, 1, true, false, [Over], [Done]);
    LookOfOne();
    ReadOfOne(looked);
    ClaimOfOne(looked);
    SucceedOfOne(looked);
    ExecuteOfOne(looked);
    RejectOfOne();
    NoSteps(s6);
    Cons(s5, WriteRejected(0), s6, []);
    Cons(s4, WriteExecuted(0), s5, [WriteRejected(0)] + []);
    var tail := [WriteExecuted(0)] + ([WriteRejected(0)] + []);
    Cons(Held(looked), Run(0, Success), s4, tail);
    Cons(SeenBy(looked), Claim(0), Held(looked), [Run(0, Success)] + tail);
    Cons(Unseen(looked), Read(0), SeenBy(looked), [Claim(0)] + ([Run(0, Success)] + tail));
    Cons(Start(1, 1), Look(0), Unseen(looked), [Read(0)] + ([Claim(0)] + ([Run(0, Success)] + tail)));
    assert [Look(0), Read(0), Claim(0), Run(0, Success), WriteExecuted(0), WriteRejected(0)]
      == [Look(0)] + ([Read(0)] + ([Claim(0)] + ([Run(0, Success)] + tail)));
  }

  // ---- One approving request, step by step ----

  function Unseen(rs: seq<Rejecting>): State {
    State(Pending, 0, 0, 0, 0, false, false, [Fresh], rs)
  }

  function SeenBy(rs: seq<Rejecting>): State {
    State(Pending, 0, 0, 0, 0, false, false, [Seen], rs)
  }

  function Held(rs: seq<Rejecting>): State {
    State(Approved, 1, 0, 0, 0, false, false, [Claimed], rs)
  }

  lemma StartOfOne()
    ensures Start(1, 0) == Unseen([])
  {
  }

  lemma LookOfOne()
    ensures Can(Start(1, 1), Look(0)) && Do(Start(1, 1), Look(0)) == Unseen([Looked])
  {
  }

  lemma ReadOfOne(rs: seq<Rejecting>)
    ensures Can(Unseen(rs), Read(0)) && Do(Unseen(rs), Read(0)) == SeenBy(rs)
  {
  }

  lemma ClaimOfOne(rs: seq<Rejecting>)
    ensures Can(SeenBy(rs), Claim(0)) && Do(SeenBy(rs), Claim(0)) == Held(rs)
  {
  }

  lemma SucceedOfOne(rs: seq<Rejecting>)
    ensures Can(Held(rs), Run(0, Success))
    ensures Do(Held(rs), Run(0, Success)) == State(Approved, 1, 1, 1, 1, false, false, [Ran], rs)
  {
  }

  lemma RaiseOfOne(rs: seq<Rejecting>)
    ensures Can(Held(rs), Run(0, Raised(true)))
    ensures Do(Held(rs), Run(0, Raised(true))) == State(Approved, 1, 1, 0, 1, false, true, [Broken], rs)
  {
  }

  lemma ExecuteOfOne(rs: seq<Rejecting>)
    ensures var s := State(Approved, 1, 1, 1, 1, false, false, [Ran], rs);
            && Can(s, WriteExecuted(0))
            && Do(s, WriteExecuted(0)) == State(Executed, 1, 1, 1, 1, false, false, [Over], rs)
  {
  }

  lemma FailOfOne(rs: seq<Rejecting>)
    ensures var s := State(Approved, 1, 1, 0, 1, false, true, [Broken], rs);
            && Can(s, WriteFailed(0))
            && Do(s, WriteFailed(0)) == State(Failed, 1, 1, 0, 1, false, true, [Over], rs)
  {
  }

  lemma RejectOfOne()
    ensures var s := State(Executed, 1, 1, 1, 1, false, false, [Over], [Looked]);
            && Can(s, WriteRejected(0))
            && Do(s, WriteRejected(0)) == State(Rejected, 1, 1, 1, 1, true, false, [Over], [Done])
  {
  }

  lemma NoSteps(s: State)
    ensures Possible(s, []) && After(s, []) == s
  {
  }

  lemma Cons(s: State, e: Event, t: State, rest: seq<Event>)
    requires Can(s, e) && Do(s, e) == t && Possible(t, rest)
    ensures Possible(s, [e] + rest) && After(s, [e] + rest) == After(t, rest)
  {
    assert ([e] + rest)[1..] == rest;
  }
}
