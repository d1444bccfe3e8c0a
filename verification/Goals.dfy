/** Savings goals: allocation rules, allocations, and the cached progress. Amounts in cents. */
module Goals {
  import opened Options
  import opened GoalProgress

  datatype TxnKind = Income | Expense | Transfer

  datatype Tx = Tx(id: nat, kind: TxnKind, amount: nat, account: Option<nat>, accountType: Option<string>,
                   description: string)

  /** A criterion that is not given is None. Texts are compared in lower case; both sides stand here lowered. */
  datatype Criteria = Criteria(txType: Option<TxnKind>, amountMin: Option<int>, amountMax: Option<int>,
                               account: Option<nat>, accountTypes: Option<set<string>>, contains: Option<string>)

  datatype Share = Full | Percent | Fixed | Other

  /** value: hundredths of a percent or cents, as the share says. */
  datatype Rule = Rule(id: nat, goal: nat, priority: int, active: bool, criteria: Criteria, share: Share,
                       value: Option<nat>)

  datatype Status = Active | Paused | Achieved | Abandoned

  datatype Goal = Goal(status: Status, target: nat, current: int, progress: nat)

  datatype Allocation = Allocation(goal: nat, tx: nat, amount: int, rule: Option<nat>)

  // ---- One rule on one transaction ----

  predicate StandsAt(text: string, part: string, i: nat) {
    i + |part| <= |text| && text[i..i + |part|] == part
  }

  predicate Contains(text: string, part: string) {
    exists i :: 0 <= i <= |text| && StandsAt(text, part, i)
  }

  /** Every criterion that is given must hold. */
  predicate Matches(tx: Tx, c: Criteria) {
    && (c.txType.Some? ==> tx.kind == c.txType.value)
    && (c.amountMin.Some? ==> tx.amount >= c.amountMin.value)
    && (c.amountMax.Some? ==> tx.amount <= c.amountMax.value)
    && (c.account.Some? ==> tx.account == c.account)
    && (c.accountTypes.Some? ==>
         tx.account.Some? && tx.accountType.Some? && tx.accountType.value in c.accountTypes.value)
    && (c.contains.Some? ==> Contains(tx.description, c.contains.value))
  }

  function Sign(tx: Tx): int {
    if tx.kind == Expense then -1 else 1
  }

  function Amount(tx: Tx, rule: Rule): int {
    match rule.share
    case Full => Sign(tx) * tx.amount
    case Percent => if rule.value.None? then 0 else Sign(tx) * RoundHalfUp(tx.amount * rule.value.value, 10000)
    case Fixed => if rule.value.None? then 0 else Sign(tx) * rule.value.value
    case Other => 0
  }

  /** Only expenses take money out of a goal. */
  lemma OnlyExpensesWithdraw(tx: Tx, rule: Rule)
    ensures Amount(tx, rule) < 0 ==> tx.kind == Expense
    ensures Amount(tx, rule) > 0 ==> tx.kind != Expense
  {
  }

  /** The part stands somewhere in the text, with something before and something behind it. */
  lemma ContainsIff(text: string, part: string)
    ensures Contains(text, part) <==> exists before: string, behind: string :: text == before + part + behind
  {
    if Contains(text, part) {
      var i :| 0 <= i <= |text| && StandsAt(text, part, i);
      assert text == text[..i] + part + text[i + |part|..];
    }
    forall before: string, behind: string | text == before + part + behind
      ensures Contains(text, part)
    {
      assert StandsAt(text, part, |before|);
    }
  }

  const NO_CRITERIA := Criteria(None, None, None, None, None, None)

  /** Criteria work each for itself: all that are given must hold, and none given holds for everything. */
  lemma EachCriterionAlone(tx: Tx, c: Criteria)
    ensures Matches(tx, NO_CRITERIA)
    ensures Matches(tx, c) <==>
      && Matches(tx, NO_CRITERIA.(txType := c.txType))
      && Matches(tx, NO_CRITERIA.(amountMin := c.amountMin))
      && Matches(tx, NO_CRITERIA.(amountMax := c.amountMax))
      && Matches(tx, NO_CRITERIA.(account := c.account))
      && Matches(tx, NO_CRITERIA.(accountTypes := c.accountTypes))
      && Matches(tx, NO_CRITERIA.(contains := c.contains))
  {
    hide Contains;
  }

  /** What each criterion asks for: bounds include their ends, account criteria need an account. */
  lemma CriterionHolds(tx: Tx, kind: TxnKind, bound: int, account: nat, types: set<string>, needle: string)
    ensures Matches(tx, NO_CRITERIA.(txType := Some(kind))) <==> tx.kind == kind
    ensures Matches(tx, NO_CRITERIA.(amountMin := Some(bound))) <==> !(tx.amount < bound)
    ensures Matches(tx, NO_CRITERIA.(amountMax := Some(bound))) <==> !(tx.amount > bound)
    ensures Matches(tx, NO_CRITERIA.(account := Some(account))) <==> tx.account == Some(account)
    ensures Matches(tx, NO_CRITERIA.(accountTypes := Some(types))) <==>
      tx.account != None && exists t :: tx.accountType == Some(t) && t in types
    ensures Matches(tx, NO_CRITERIA.(contains := Some(needle))) <==>
      exists before: string, behind: string :: tx.description == before + needle + behind
  {
    hide Contains;
    ContainsIff(tx.description, needle);
  }

  /** Twice the amount times the percentage, give or take the half unit that rounding moves it; a half goes up. */
  ghost predicate Sized(tx: Tx, rule: Rule, a: Allocation) {
    var size := if tx.kind == Expense then -a.amount else a.amount;
    && a.goal == rule.goal && a.tx == tx.id && a.rule == Some(rule.id)
    && match rule.share
       case Full => size == tx.amount
       case Percent =>
         if rule.value.None? then size == 0
         else 2 * tx.amount * rule.value.value - 10000 < 20000 * size <= 2 * tx.amount * rule.value.value + 10000
       case Fixed => size == (if rule.value.None? then 0 else rule.value.value)
       case Other => size == 0
  }

  // ---- Which allocations a transaction gets ----

  predicate Linked(allocations: seq<Allocation>, goal: nat, tx: nat) {
    exists i :: 0 <= i < |allocations| && allocations[i].goal == goal && allocations[i].tx == tx
  }

  predicate IsActive(goals: seq<Goal>, g: nat) {
    g < |goals| && goals[g].status == Active
  }

  /** The rule asks for an allocation, whether or not the goal already has one. */
  predicate Asks(rule: Rule, goals: seq<Goal>, tx: Tx) {
    rule.active && IsActive(goals, rule.goal) && Matches(tx, rule.criteria) && Amount(tx, rule) != 0
  }

  function Given(tx: Tx, rule: Rule): Allocation {
    Allocation(rule.goal, tx.id, Amount(tx, rule), Some(rule.id))
  }

  /** An allocation is the whole transaction, its percentage rounded half up to the cent, or the fixed value. */
  lemma GivenIsSized(tx: Tx, rule: Rule)
    ensures Sized(tx, rule, Given(tx, rule))
  {
    if rule.share == Percent && rule.value.Some? {
      HalfUpIsNear(tx.amount * rule.value.value, 10000);
    }
  }

  /** What the rules create, in order; a second allocation of the transaction to a goal is refused. */
  function Granted(rules: seq<Rule>, goals: seq<Goal>, allocations: seq<Allocation>, tx: Tx): seq<Allocation> {
    if rules == [] then []
    else
      var before, rule := Granted(rules[..|rules| - 1], goals, allocations, tx), rules[|rules| - 1];
      if Asks(rule, goals, tx) && !Linked(allocations + before, rule.goal, tx.id) then before + [Given(tx, rule)]
      else before
  }

  /** The first rule of a goal that asks for an allocation. */
  ghost predicate FirstAsking(rules: seq<Rule>, goals: seq<Goal>, tx: Tx, goal: nat, k: nat) {
    && k < |rules| && rules[k].goal == goal && Asks(rules[k], goals, tx)
    && forall j :: 0 <= j < k ==> rules[j].goal != goal || !Asks(rules[j], goals, tx)
  }

  ghost predicate Nobody(rules: seq<Rule>, goals: seq<Goal>, tx: Tx, goal: nat) {
    forall j :: 0 <= j < |rules| ==> rules[j].goal != goal || !Asks(rules[j], goals, tx)
  }

  /** What was granted to one goal. */
  function ForGoal(granted: seq<Allocation>, goal: nat): seq<Allocation> {
    if granted == [] then []
    else
      var last := granted[|granted| - 1];
      ForGoal(granted[..|granted| - 1], goal) + if last.goal == goal then [last] else []
  }

  lemma {:induction false} GrantedHere(rules: seq<Rule>, goals: seq<Goal>, allocations: seq<Allocation>, tx: Tx)
    ensures forall a :: a in Granted(rules, goals, allocations, tx) ==>
      a.tx == tx.id && IsActive(goals, a.goal) && !Linked(allocations, a.goal, tx.id) && a.amount != 0
  {
    hide Matches, Amount, Linked;
    if rules != [] {
      GrantedHere(rules[..|rules| - 1], goals, allocations, tx);
      var before, rule := Granted(rules[..|rules| - 1], goals, allocations, tx), rules[|rules| - 1];
      LinkedInBoth(allocations, before, rule.goal, tx.id);
    }
  }

  /** Every allocation granted comes from an active rule that matches, and has the size that rule gives. */
  lemma {:induction false} GrantedByRule(rules: seq<Rule>, goals: seq<Goal>, allocations: seq<Allocation>, tx: Tx,
                                         a: Allocation)
    requires a in Granted(rules, goals, allocations, tx)
    ensures exists k :: 0 <= k < |rules| && Sized(tx, rules[k], a) && Asks(rules[k], goals, tx)
  {
    hide Sized, Asks, Linked;
    var n := |rules| - 1;
    if a in Granted(rules[..n], goals, allocations, tx) {
      GrantedByRule(rules[..n], goals, allocations, tx, a);
      var k :| 0 <= k < n && Sized(tx, rules[..n][k], a) && Asks(rules[..n][k], goals, tx);
      assert rules[..n][k] == rules[k];
    } else {
      GivenIsSized(tx, rules[n]);
    }
  }

  lemma LinkedInBoth(a: seq<Allocation>, b: seq<Allocation>, goal: nat, tx: nat)
    ensures Linked(a + b, goal, tx) <==> Linked(a, goal, tx) || Linked(b, goal, tx)
  {
    if Linked(a, goal, tx) {
      var i :| 0 <= i < |a| && a[i].goal == goal && a[i].tx == tx;
      assert (a + b)[i] == a[i];
    }
    if Linked(b, goal, tx) {
      var i :| 0 <= i < |b| && b[i].goal == goal && b[i].tx == tx;
      assert (a + b)[|a| + i] == b[i];
    }
  }

  lemma {:induction false} ForGoalLinked(granted: seq<Allocation>, goal: nat, tx: nat)
    requires forall i :: 0 <= i < |granted| ==> granted[i].tx == tx
    ensures Linked(granted, goal, tx) <==> ForGoal(granted, goal) != []
  {
    if granted != [] {
      var n := |granted| - 1;
      ForGoalLinked(granted[..n], goal, tx);
      assert granted == granted[..n] + [granted[n]];
      LinkedInBoth(granted[..n], [granted[n]], goal, tx);
      assert [granted[n]][0] == granted[n];
    }
  }

  /**
   * Each goal gets at most one allocation, that of its first rule, by priority and id, that matches
   * with an amount other than zero; a goal that already has one, or has no such rule, gets none.
   */
  lemma {:induction false} OneAllocationPerGoal(rules: seq<Rule>, goals: seq<Goal>, allocations: seq<Allocation>,
                                                tx: Tx, goal: nat)
    ensures var mine := ForGoal(Granted(rules, goals, allocations, tx), goal);
            && (Linked(allocations, goal, tx.id) ==> mine == [])
            && (Nobody(rules, goals, tx, goal) ==> mine == [])
            && (!Linked(allocations, goal, tx.id) ==>
                 forall k: nat :: FirstAsking(rules, goals, tx, goal, k) ==> mine == [Given(tx, rules[k])])
  {
    hide Matches, Amount, Linked, IsActive;
    if rules != [] {
      var n := |rules| - 1;
      var before, rule := Granted(rules[..n], goals, allocations, tx), rules[n];
      OneAllocationPerGoal(rules[..n], goals, allocations, tx, goal);
      GrantedHere(rules[..n], goals, allocations, tx);
      LinkedInBoth(allocations, before, rule.goal, tx.id);
      ForGoalLinked(before, goal, tx.id);
      assert (before + [Given(tx, rule)])[..|before|] == before;
      if !Linked(allocations, goal, tx.id) {
        forall k: nat | FirstAsking(rules, goals, tx, goal, k)
          ensures ForGoal(Granted(rules, goals, allocations, tx), goal) == [Given(tx, rules[k])]
        {
          if k < n {
            assert FirstAsking(rules[..n], goals, tx, goal, k);
          } else {
            assert Nobody(rules[..n], goals, tx, goal);
          }
        }
      }
    }
  }

  lemma {:induction false} SomebodyIsFirst(rules: seq<Rule>, goals: seq<Goal>, tx: Tx, goal: nat, j: nat)
    requires j < |rules| && rules[j].goal == goal && Asks(rules[j], goals, tx)
    ensures exists k: nat :: k <= j && FirstAsking(rules, goals, tx, goal, k)
  {
    hide Asks;
    if i: nat :| i < j && rules[i].goal == goal && Asks(rules[i], goals, tx) {
      SomebodyIsFirst(rules, goals, tx, goal, i);
    } else {
      assert FirstAsking(rules, goals, tx, goal, j);
    }
  }

  /** A goal gets an allocation exactly when it has none of this transaction and one of its rules asks. */
  lemma GetsOneIff(rules: seq<Rule>, goals: seq<Goal>, allocations: seq<Allocation>, tx: Tx, goal: nat)
    ensures var mine := ForGoal(Granted(rules, goals, allocations, tx), goal);
            |mine| == if !Linked(allocations, goal, tx.id)
                         && exists j :: 0 <= j < |rules| && rules[j].goal == goal && Asks(rules[j], goals, tx)
                      then 1 else 0
  {
    hide Asks, Linked, Granted, ForGoal;
    OneAllocationPerGoal(rules, goals, allocations, tx, goal);
    if j: nat :| j < |rules| && rules[j].goal == goal && Asks(rules[j], goals, tx) {
      SomebodyIsFirst(rules, goals, tx, goal, j);
    }
  }

  /** Evaluating the same transaction again, with goals that at most stopped being active, creates nothing. */
  lemma {:induction false} SecondTimeNothing(rules: seq<Rule>, all: seq<Rule>, goals: seq<Goal>, later: seq<Goal>,
                                             allocations: seq<Allocation>, tx: Tx)
    requires |rules| <= |all| && rules == all[..|rules|]
    requires forall g :: IsActive(later, g) ==> IsActive(goals, g)
    ensures Granted(rules, later, allocations + Granted(all, goals, allocations, tx), tx) == []
  {
    hide Matches, Amount, Linked, IsActive;
    if rules != [] {
      var n := |rules| - 1;
      SecondTimeNothing(rules[..n], all, goals, later, allocations, tx);
      var rule := rules[n];
      if Asks(rule, later, tx) {
        assert Asks(all[n], goals, tx);
        AskedIsLinked(all, goals, allocations, tx, n);
        var now := allocations + Granted(all, goals, allocations, tx);
        assert now + [] == now;
      }
    }
  }

  lemma {:induction false} AskedIsLinked(rules: seq<Rule>, goals: seq<Goal>, allocations: seq<Allocation>,
                                         tx: Tx, k: nat)
    requires k < |rules| && Asks(rules[k], goals, tx)
    ensures Linked(allocations + Granted(rules, goals, allocations, tx), rules[k].goal, tx.id)
  {
    hide Matches, Amount, Linked, IsActive;
    var n := |rules| - 1;
    var before := Granted(rules[..n], goals, allocations, tx);
    if k < n {
      AskedIsLinked(rules[..n], goals, allocations, tx, k);
      LinkedInBoth(allocations, before, rules[k].goal, tx.id);
      LinkedInBoth(allocations, Granted(rules, goals, allocations, tx), rules[k].goal, tx.id);
      LinkedInBoth(before, [Given(tx, rules[n])], rules[k].goal, tx.id);
    } else if !Linked(allocations + before, rules[n].goal, tx.id) {
      LinkedInBoth(allocations, before + [Given(tx, rules[n])], rules[n].goal, tx.id);
      LinkedInBoth(before, [Given(tx, rules[n])], rules[n].goal, tx.id);
      OwnLink(Given(tx, rules[n]));
    }
  }

  lemma OwnLink(a: Allocation)
    ensures Linked([a], a.goal, a.tx)
  {
    assert [a][0] == a;
  }

  // ---- The cache ----

  function Saved(allocations: seq<Allocation>, goal: nat): int {
    if allocations == [] then 0
    else
      var last := allocations[|allocations| - 1];
      Saved(allocations[..|allocations| - 1], goal) + if last.goal == goal then last.amount else 0
  }

  lemma {:induction false} SavedSplit(a: seq<Allocation>, b: seq<Allocation>, goal: nat)
    ensures Saved(a + b, goal) == Saved(a, goal) + Saved(b, goal)
  {
    if b == [] {
      assert a + b == a;
    } else {
      assert (a + b)[..|a + b| - 1] == a + b[..|b| - 1];
      SavedSplit(a, b[..|b| - 1], goal);
    }
  }

  lemma {:induction false} SavedElsewhere(a: seq<Allocation>, goal: nat)
    requires forall i :: 0 <= i < |a| ==> a[i].goal != goal
    ensures Saved(a, goal) == 0
  {
    if a != [] {
      SavedElsewhere(a[..|a| - 1], goal);
    }
  }

  function Shown(saved: int): int {
    if saved < 0 then 0 else saved
  }

  /** What a refresh writes: the amount never below zero, the progress from the amount as it is. */
  function Refreshed(g: Goal, saved: int): Goal {
    var progress := Progress(saved, g.target);
    Goal(if g.status == Active && progress >= 10000 then Achieved else g.status, g.target, Shown(saved), progress)
  }

  predicate Cached(g: Goal, saved: int) {
    g.current == Shown(saved) && g.progress == Progress(saved, g.target)
  }

  /** A refresh turns a goal to achieved exactly when it is active and 99.995 percent of its target is there. */
  lemma AchievedIff(g: Goal, saved: int)
    requires g.status != Achieved
    ensures Refreshed(g, saved).status == Achieved
      <==> g.status == Active && g.target > 0 && 20000 * saved >= 19999 * g.target
  {
    FullFrom(saved, g.target);
  }

  /** Linking and then unlinking restores amount and progress; the status only if the goal did not pass its target. */
  lemma LinkUnlink(g: Goal, saved: int, amount: int)
    requires Cached(g, saved)
    ensures var back := Refreshed(Refreshed(g, saved + amount), saved);
            && back.current == g.current && back.progress == g.progress
            && (back.status == g.status <==>
                 || g.status != Active
                 || (Progress(saved + amount, g.target) < 10000 && Progress(saved, g.target) < 10000))
  {
    hide Progress;
  }

  predicate Unique(allocations: seq<Allocation>) {
    forall i, j :: 0 <= i < j < |allocations| ==>
      !(allocations[i].goal == allocations[j].goal && allocations[i].tx == allocations[j].tx)
  }

  /** No two rows link the same goal and transaction. */
  lemma UniqueIff(rows: seq<Allocation>)
    ensures Unique(rows) <==>
      forall i, j :: 0 <= i < |rows| && 0 <= j < |rows| && rows[i].goal == rows[j].goal && rows[i].tx == rows[j].tx
        ==> i == j
  {
    if Unique(rows) {
      forall i, j |
        0 <= i < |rows| && 0 <= j < |rows| && rows[i].goal == rows[j].goal && rows[i].tx == rows[j].tx
        ensures i == j
      {
        assert !(i < j) && !(j < i);
      }
    }
  }

  lemma UniqueMore(allocations: seq<Allocation>, a: Allocation)
    requires Unique(allocations) && !Linked(allocations, a.goal, a.tx)
    ensures Unique(allocations + [a])
  {
  }

  lemma {:induction false} GrantedUnique(rules: seq<Rule>, goals: seq<Goal>, allocations: seq<Allocation>, tx: Tx)
    requires Unique(allocations)
    ensures Unique(allocations + Granted(rules, goals, allocations, tx))
  {
    hide Matches, Amount, Linked, IsActive, Unique;
    if rules == [] {
      assert allocations + [] == allocations;
    } else {
      var n := |rules| - 1;
      GrantedUnique(rules[..n], goals, allocations, tx);
      var before, rule := Granted(rules[..n], goals, allocations, tx), rules[n];
      if Asks(rule, goals, tx) && !Linked(allocations + before, rule.goal, tx.id) {
        UniqueMore(allocations + before, Given(tx, rule));
        assert (allocations + before) + [Given(tx, rule)] == allocations + (before + [Given(tx, rule)]);
      }
    }
  }
}
