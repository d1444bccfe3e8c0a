/** The goals, their rules and allocations as tables that link, unlink and evaluation change in place. */
module GoalBook {
  import opened Options
  import opened GoalProgress
  import opened Goals

  predicate Ordered(rules: seq<Rule>) {
    forall i, j :: 0 <= i < j < |rules| ==>
      rules[i].priority < rules[j].priority || (rules[i].priority == rules[j].priority && rules[i].id < rules[j].id)
  }

  predicate AllCached(goals: seq<Goal>, allocations: seq<Allocation>) {
    forall g :: 0 <= g < |goals| ==> Cached(goals[g], Saved(allocations, g))
  }

  /** Goals on the table, each once, refreshed; the others as they were. */
  function RefreshedIn(goals: seq<Goal>, which: set<nat>, allocations: seq<Allocation>): (r: seq<Goal>)
    ensures |r| == |goals|
  {
    seq(|goals|, g requires 0 <= g < |goals| =>
      if g in which then Refreshed(goals[g], Saved(allocations, g)) else goals[g])
  }

  function Touched(allocations: seq<Allocation>): (r: set<nat>)
    ensures forall g :: g in r <==> exists i :: 0 <= i < |allocations| && allocations[i].goal == g
  {
    set i | 0 <= i < |allocations| :: allocations[i].goal
  }

  lemma CachedAfter(goals: seq<Goal>, allocations: seq<Allocation>, more: seq<Allocation>)
    requires AllCached(goals, allocations)
    ensures AllCached(RefreshedIn(goals, Touched(more), allocations + more), allocations + more)
  {
    hide Progress, Saved;
    var now := RefreshedIn(goals, Touched(more), allocations + more);
    forall g | 0 <= g < |goals|
      ensures Cached(now[g], Saved(allocations + more, g))
    {
      if g !in Touched(more) {
        SavedSplit(allocations, more, g);
        SavedElsewhere(more, g);
      }
    }
  }

  lemma UnlinkedSaved(allocations: seq<Allocation>, i: nat, g: nat)
    requires i < |allocations|
    ensures Saved(allocations[..i] + allocations[i + 1..], g)
      == Saved(allocations, g) - if allocations[i].goal == g then allocations[i].amount else 0
  {
    var a, rest := allocations[..i], allocations[i + 1..];
    assert allocations == (a + [allocations[i]]) + rest;
    SavedSplit(a + [allocations[i]], rest, g);
    SavedSplit(a, rest, g);
    assert (a + [allocations[i]])[..i] == a;
  }

  /** By priority, and among equal priorities by id. */
  predicate NotAfter(a: Rule, b: Rule) {
    a.priority <= b.priority && (a.priority == b.priority ==> a.id <= b.id)
  }

  lemma {:induction false} OnlyOneOf(granted: seq<Allocation>, a: Allocation)
    requires a in granted
    ensures a in ForGoal(granted, a.goal)
  {
    var n := |granted| - 1;
    if a in granted[..n] {
      OnlyOneOf(granted[..n], a);
    }
  }

  /** What a goal is given comes from its best rule: of all that ask, the first by priority and then by id. */
  lemma BestRuleWins(rules: seq<Rule>, goals: seq<Goal>, allocations: seq<Allocation>, tx: Tx, a: Allocation, j: nat)
    requires Ordered(rules) && a in Granted(rules, goals, allocations, tx)
    requires j < |rules| && rules[j].goal == a.goal && Asks(rules[j], goals, tx)
    ensures exists k ::
      0 <= k < |rules| && a == Given(tx, rules[k]) && Asks(rules[k], goals, tx) && NotAfter(rules[k], rules[j])
  {
    hide Asks, Given, Granted, ForGoal, Linked;
    GrantedHere(rules, goals, allocations, tx);
    OneAllocationPerGoal(rules, goals, allocations, tx, a.goal);
    OnlyOneOf(Granted(rules, goals, allocations, tx), a);
    SomebodyIsFirst(rules, goals, tx, a.goal, j);
  }

  class Book {
    var goals: seq<Goal>
    var rules: seq<Rule>
    var allocations: seq<Allocation>

    /** Every cached amount and progress agrees with the allocation table; no pair is linked twice. */
    ghost predicate Valid()
      reads this
    {
      && Ordered(rules) && Unique(allocations) && AllCached(goals, allocations)
      && (forall k :: 0 <= k < |allocations| ==> allocations[k].goal < |goals|)
    }

    constructor (goals: seq<Goal>, rules: seq<Rule>)
      requires Ordered(rules)
      requires forall g :: 0 <= g < |goals| ==> Cached(goals[g], 0)
      ensures Valid() && this.goals == goals && this.rules == rules && allocations == []
    {
      this.goals, this.rules, allocations := goals, rules, [];
    }

    method Refresh(g: nat)
      requires g < |goals|
      modifies this`goals
      ensures goals == old(goals)[g := Refreshed(old(goals)[g], Saved(allocations, g))]
    {
      var saved := Saved(allocations, g);
      var progress := Progress(saved, goals[g].target);
      var status := goals[g].status;
      if progress >= 10000 && status == Active {
        status := Achieved;
      }
      goals := goals[g := Goal(status, goals[g].target, if saved < 0 then 0 else saved, progress)];
    }

    /** A second link of the same transaction to the same goal is refused and changes nothing. */
    method Link(g: nat, tx: nat, amount: int, rule: Option<nat>) returns (linked: bool)
      requires Valid() && g < |goals|
      modifies this`goals, this`allocations
      ensures Valid()
      ensures linked <==> !Linked(old(allocations), g, tx)
      ensures !linked ==> goals == old(goals) && allocations == old(allocations)
      ensures linked ==>
        && allocations == old(allocations) + [Allocation(g, tx, amount, rule)]
        && goals == old(goals)[g := Refreshed(old(goals)[g], Saved(old(allocations), g) + amount)]
    {
      hide Progress, Saved;
      if Linked(allocations, g, tx) {
        return false;
      }
      ghost var before, was := allocations, goals;
      var a := Allocation(g, tx, amount, rule);
      allocations := allocations + [a];
      UniqueMore(before, a);
      SavedSplit(before, [a], g);
      SavedOne(a);
      Refresh(g);
      CachedAfter(was, before, [a]);
      assert goals == RefreshedIn(was, Touched([a]), allocations) by { TouchedOne(a); }
      linked := true;
    }

    method Unlink(i: nat) returns (found: bool)
      requires Valid()
      modifies this`goals, this`allocations
      ensures Valid()
      ensures found <==> i < |old(allocations)|
      ensures !found ==> goals == old(goals) && allocations == old(allocations)
      ensures found ==>
        var a := old(allocations)[i];
        && allocations == old(allocations)[..i] + old(allocations)[i + 1..]
        && goals == old(goals)[a.goal := Refreshed(old(goals)[a.goal], Saved(old(allocations), a.goal) - a.amount)]
    {
      hide Progress, Saved;
      if i >= |allocations| {
        return false;
      }
      ghost var before, was := allocations, goals;
      var a := allocations[i];
      allocations := allocations[..i] + allocations[i + 1..];
      UniqueWithout(before, i);
      Refresh(a.goal);
      forall g | 0 <= g < |goals|
        ensures Cached(goals[g], Saved(allocations, g))
      {
        UnlinkedSaved(before, i, g);
      }
      UnlinkedSaved(before, i, a.goal);
      found := true;
    }

    /** Applies the rules to a transaction: what they grant is added, and the goals touched are refreshed. */
    method Evaluate(tx: Tx) returns (created: seq<Allocation>)
      requires Valid()
      modifies this`goals, this`allocations
      ensures Valid()
      ensures created == Granted(rules, old(goals), old(allocations), tx)
      ensures allocations == old(allocations) + created
      ensures goals == RefreshedIn(old(goals), Touched(created), allocations)
      ensures forall a :: a in created ==>
        exists k :: 0 <= k < |rules| && Sized(tx, rules[k], a) && rules[k].active && Matches(tx, rules[k].criteria)
      ensures forall a :: a in created ==> a.goal < |old(goals)| && old(goals)[a.goal].status == Active
      ensures forall a :: a in created ==>
        forall j :: 0 <= j < |rules| && rules[j].goal == a.goal && Asks(rules[j], old(goals), tx) ==>
          exists k ::
            && 0 <= k < |rules| && a == Given(tx, rules[k]) && Asks(rules[k], old(goals), tx)
            && NotAfter(rules[k], rules[j])
    {
      hide Sized, Ordered, NotAfter, Progress, Saved, Granted, Matches, Amount, Unique, Linked, AllCached;
      ghost var before, was := allocations, goals;
      created := [];
      assert before + [] == before;
      NoRulesNoGrants(was, before, tx);
      for i := 0 to |rules|
        invariant goals == was && allocations == before + created
        invariant created == Granted(rules[..i], was, before, tx)
      {
        var rule := rules[i];
        GrantedStep(rules, was, before, tx, i);
        if rule.active && rule.goal < |goals| && goals[rule.goal].status == Active && Matches(tx, rule.criteria) {
          var amount := Amount(tx, rule);
          if amount != 0 && !Linked(allocations, rule.goal, tx.id) {
            var a := Allocation(rule.goal, tx.id, amount, Some(rule.id));
            assert before + (created + [a]) == (before + created) + [a];
            allocations := allocations + [a];
            created := created + [a];
          }
        }
      }
      assert rules[..|rules|] == rules;
      GrantedUnique(rules, was, before, tx);
      GrantedHere(rules, was, before, tx);
      var touched := Touched(created);
      RefreshAll(touched);
      CachedAfter(was, before, created);
      forall a | a in created
        ensures exists k ::
          0 <= k < |rules| && Sized(tx, rules[k], a) && rules[k].active && Matches(tx, rules[k].criteria)
      {
        GrantedByRule(rules, was, before, tx, a);
      }
      forall a, j | a in created && 0 <= j < |rules| && rules[j].goal == a.goal && Asks(rules[j], was, tx)
        ensures exists k ::
          0 <= k < |rules| && a == Given(tx, rules[k]) && Asks(rules[k], was, tx) && NotAfter(rules[k], rules[j])
      {
        BestRuleWins(rules, was, before, tx, a, j);
      }
    }

    /** The goals of a set, one after the other in whatever order. */
    method RefreshAll(touched: set<nat>)
      requires forall g :: g in touched ==> g < |goals|
      modifies this`goals
      ensures goals == RefreshedIn(old(goals), touched, allocations)
    {
      hide Progress, Saved;
      var left := touched;
      ghost var was := goals;
      while left != {}
        invariant left <= touched && |goals| == |was|
        invariant forall g :: 0 <= g < |goals| ==>
          goals[g] == if g in touched && g !in left then Refreshed(was[g], Saved(allocations, g)) else was[g]
        decreases |left|
      {
        var g :| g in left;
        left := left - {g};
        Refresh(g);
      }
    }
  }

  /**
   * Linking a transaction and unlinking the row again leaves the table, every amount and every
   * progress as they were; the goal keeps its status exactly when neither refresh saw it full.
   */
  method LinkThenUnlink(book: Book, g: nat, tx: nat, amount: int, rule: Option<nat>) returns (linked: bool)
    requires book.Valid() && g < |book.goals|
    modifies book`goals, book`allocations
    ensures book.Valid() && book.allocations == old(book.allocations) && |book.goals| == |old(book.goals)|
    ensures forall h :: 0 <= h < |book.goals| ==>
      && book.goals[h].current == old(book.goals)[h].current && book.goals[h].progress == old(book.goals)[h].progress
      && (h != g || !linked ==> book.goals[h] == old(book.goals)[h])
    ensures linked <==> !Linked(old(book.allocations), g, tx)
    ensures linked ==>
      var was, saved := old(book.goals)[g], Saved(old(book.allocations), g);
      book.goals[g].status == was.status <==>
        was.status != Active || (Progress(saved + amount, was.target) < 10000 && Progress(saved, was.target) < 10000)
  {
    hide Progress, Saved, Refreshed;
    ghost var goals, allocations := book.goals, book.allocations;
    ghost var saved := Saved(allocations, g);
    assert Cached(goals[g], saved);
    linked := book.Link(g, tx, amount, rule);
    if linked {
      var last := |book.allocations| - 1;
      SavedSplit(allocations, [Allocation(g, tx, amount, rule)], g);
      SavedOne(Allocation(g, tx, amount, rule));
      var found := book.Unlink(last);
      assert book.allocations == allocations;
      LinkUnlink(goals[g], saved, amount);
    }
  }

  lemma SavedOne(a: Allocation)
    ensures Saved([a], a.goal) == a.amount
  {
    assert [a][..0] == [];
  }

  lemma TouchedOne(a: Allocation)
    ensures Touched([a]) == {a.goal}
  {
    assert [a][0] == a;
  }

  lemma UniqueWithout(allocations: seq<Allocation>, i: nat)
    requires Unique(allocations) && i < |allocations|
    ensures Unique(allocations[..i] + allocations[i + 1..])
  {
  }

  lemma NoRulesNoGrants(goals: seq<Goal>, allocations: seq<Allocation>, tx: Tx)
    ensures Granted([], goals, allocations, tx) == []
  {
  }

  lemma GrantedStep(rules: seq<Rule>, goals: seq<Goal>, allocations: seq<Allocation>, tx: Tx, i: nat)
    requires i < |rules|
    ensures var before, rule := Granted(rules[..i], goals, allocations, tx), rules[i];
            Granted(rules[..i + 1], goals, allocations, tx)
              == if Asks(rule, goals, tx) && !Linked(allocations + before, rule.goal, tx.id)
                 then before + [Given(tx, rule)] else before
  {
    assert rules[..i + 1][..i] == rules[..i];
  }
}
