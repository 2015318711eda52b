/**
 The memo table outlives a change of the objective.  An entry then holds the costs of the objective
 under which it was memorised: exactly when it still is what a recomputation would give, and exactly
 when relaxed plans can still be ordered by the costs of actions that are recalled from it.
 */
module StaleCosts {
  import opened Planning
  import opened CostFixpoint
  import opened CostEvaluation
  import opened RelaxedPlans

  /** The two objectives charge every action the same and aggregate preconditions the same way. */
  predicate SameEquations(before: Objective, now: Objective) {
    && before.aggregMax == now.aggregMax && before.cost == now.cost
    && (before.cost || before.makespan == now.makespan)
  }

  ghost predicate EntriesStayTrue(before: Objective, now: Objective) {
    forall p: Problem, s: State, fi: seq<int> :: WellFormed(p) && IsSolution(p, before, s, fi) ==> IsSolution(p, now, s, fi)
  }

  /** Preconditions still cost no more than their action, and adders less than what they add. */
  ghost predicate EntriesStillSupply(before: Objective, now: Objective) {
    forall p: Problem, s: State, ai: seq<int>, fi: seq<int>, xs: seq<nat> ::
      WellFormed(p) && IsSolution(p, before, s, fi) && Recalled(p, now, s, ai, fi, xs, true) && ai[1] < MAXTIME
      ==> CheaplySupplied(p, s, ai, fi)
  }

  // ----- a problem that tells objectives apart

  /** One action adds two fluents, a second one needs both and adds the goal. */
  ghost predicate IsTelling(p: Problem) {
    && WellFormed(p) && |p.actions| == 4 && p.fluents == 3 && p.goal.prec == [2]
    && p.actions[2] == Action(2, [], [0, 1], [], 2, 1) && p.actions[3] == Action(3, [0, 1], [2], [], 0, 0)
  }

  function TellingProblem(): Problem {
    var start, goal := Action(0, [], [], [], 0, 0), Action(1, [2], [], [], 0, 0);
    Problem([start, goal, Action(2, [], [0, 1], [], 2, 1), Action(3, [0, 1], [2], [], 0, 0)], goal, 3)
  }

  lemma TellingProblemTells()
    ensures IsTelling(TellingProblem())
  {
  }

  /** What the first action adds costs this much. */
  function Unit(ob: Objective): int {
    if ob.cost then 2 else if ob.makespan then 3 else 1
  }

  function TellingCosts(ob: Objective): seq<int> {
    var k := Unit(ob);
    [k, k, (if ob.aggregMax then k else 2 * k) + 1]
  }

  lemma PairCost(ob: Objective, fi: seq<int>, two: seq<Fluent>, k: int)
    requires two == [0, 1] && |fi| == 3 && fi[0] == fi[1] == k && 0 < k < MAXTIME
    ensures Cost(ob, fi, two) == if ob.aggregMax then k else 2 * k
  {
    assert two[..1] == [0] && two[..1][..0] == [];
    assert Total(fi, two[..1]) == k;
  }

  lemma SingleCost(ob: Objective, fi: seq<int>, one: seq<Fluent>)
    requires one == [2] && |fi| == 3 && 0 < fi[2] < MAXTIME
    ensures Cost(ob, fi, one) == fi[2]
  {
    assert one[0] == 2 && one[..|one| - 1] == [] && Total(fi, one[..|one| - 1]) == 0;
  }

  lemma TellingSolution(p: Problem, ob: Objective)
    requires IsTelling(p)
    ensures IsSolution(p, ob, {}, TellingCosts(ob))
  {
    var fi := TellingCosts(ob);
    PairCost(ob, fi, p.actions[3].prec, Unit(ob));
    assert 0 in p.actions[2].add && 1 in p.actions[2].add && 2 in p.actions[3].add;
    assert ReachedBy(p, ob, fi, 0, 2) && ReachedBy(p, ob, fi, 1, 2) && ReachedBy(p, ob, fi, 2, 3);
  }

  /** The costs in the telling problem give away the objective. */
  lemma OnlySameEquationsStayTrue(before: Objective, now: Objective)
    requires EntriesStayTrue(before, now)
    ensures SameEquations(before, now)
  {
    var p := TellingProblem();
    TellingProblemTells();
    TellingSolution(p, before);
    TellingSolution(p, now);
    SolutionUnique(p, now, {}, TellingCosts(before), TellingCosts(now));
    assert TellingCosts(before)[0] == TellingCosts(now)[0] && TellingCosts(before)[2] == TellingCosts(now)[2];
  }

  lemma SameEquationsAgree(before: Objective, now: Objective, p: Problem, s: State, fi: seq<int>)
    requires SameEquations(before, now) && WellFormed(p) && IsSolution(p, before, s, fi)
    ensures IsSolution(p, now, s, fi)
  {
    forall f, a: nat | 0 <= f < |fi| && ReachedBy(p, before, fi, f, a) ensures ReachedBy(p, now, fi, f, a) {
    }
  }

  /** Memorised costs are those of the present objective, for every problem and state, exactly if it leads to the same equations. */
  lemma EntriesStayTrueIff(before: Objective, now: Objective)
    ensures EntriesStayTrue(before, now) <==> SameEquations(before, now)
  {
    if SameEquations(before, now) {
      forall p: Problem, s: State, fi: seq<int> | WellFormed(p) && IsSolution(p, before, s, fi) ensures IsSolution(p, now, s, fi) {
        SameEquationsAgree(before, now, p, s, fi);
      }
    } else if EntriesStayTrue(before, now) {
      OnlySameEquationsStayTrue(before, now);
    }
  }

  // ----- relaxed plans from memorised costs

  /** A sum is never below a maximum, so the recalled cost of an adder is still below that of what it adds. */
  lemma RecalledIsCheaper(before: Objective, now: Objective, p: Problem, s: State, ai: seq<int>, fi: seq<int>, xs: seq<nat>,
                          f: Fluent, a: nat)
    requires before.aggregMax ==> now.aggregMax
    requires WellFormed(p) && IsSolution(p, before, s, fi) && Recalled(p, now, s, ai, fi, xs, true) && ai[1] < MAXTIME
    requires ReachedBy(p, before, fi, f, a)
    ensures Cheaper(p, ai, fi, f, a)
  {
    TotalBounds(fi, p.actions[a].prec);
    assert p.goal.id == 1 && ai[a] == Cost(now, fi, p.actions[a].prec);
  }

  lemma RecalledIsAffordable(now: Objective, p: Problem, s: State, ai: seq<int>, fi: seq<int>, xs: seq<nat>, a: nat)
    requires WellFormed(p) && |fi| == p.fluents && InRange(fi) && Recalled(p, now, s, ai, fi, xs, true) && ai[1] < MAXTIME
    requires RelaxedPlans.Reachable(p, ai, a)
    ensures Affordable(p, ai, fi, a)
  {
    assert p.goal.id == 1 && ai[a] == Cost(now, fi, Preconditions(p, a));
    CostBounds(now, fi, Preconditions(p, a));
  }

  lemma RecalledIsSupplied(before: Objective, now: Objective, p: Problem, s: State, ai: seq<int>, fi: seq<int>, xs: seq<nat>)
    requires before.aggregMax ==> now.aggregMax
    requires WellFormed(p) && IsSolution(p, before, s, fi) && Recalled(p, now, s, ai, fi, xs, true) && ai[1] < MAXTIME
    ensures CheaplySupplied(p, s, ai, fi)
  {
    forall a: nat | RelaxedPlans.Reachable(p, ai, a) ensures Affordable(p, ai, fi, a) {
      RecalledIsAffordable(now, p, s, ai, fi, xs, a);
    }
    forall f | 0 <= f < |fi| && f !in s && fi[f] < MAXTIME ensures exists a: nat :: Cheaper(p, ai, fi, f, a) {
      var a: nat :| ReachedBy(p, before, fi, f, a);
      RecalledIsCheaper(before, now, p, s, ai, fi, xs, f, a);
    }
  }

  lemma TellingApplicable(p: Problem)
    requires IsTelling(p)
    ensures ApplicableFrom(p, {}, 4) == [2]
  {
    assert 0 in p.actions[3].prec && !Applicable({}, p.actions[3]) && Applicable({}, p.actions[2]);
    assert ApplicableFrom(p, {}, 2) == [] && ApplicableFrom(p, {}, 3) == [2];
  }

  /** A sum recalled from costs that were maxima: the second action costs no less than what it adds. */
  lemma StaleCosts(p: Problem, before: Objective, now: Objective, ai: seq<int>, fi: seq<int>, xs: seq<nat>)
    requires IsTelling(p) && before.aggregMax && !now.aggregMax
    requires IsSolution(p, before, {}, fi) && Recalled(p, now, {}, ai, fi, xs, true)
    ensures fi == TellingCosts(before) && ai[1] == fi[2] == Unit(before) + 1 && ai[3] == 2 * Unit(before)
  {
    TellingSolution(p, before);
    SolutionUnique(p, before, {}, fi, TellingCosts(before));
    SingleCost(now, fi, p.goal.prec);
    PairCost(now, fi, p.actions[3].prec, Unit(before));
    assert p.goal.id == 1;
  }

  /** Costs that were maxima, recalled as sums: an entry whose relaxed plans the costs do not order. */
  lemma StaleIsUnsupplied(p: Problem, before: Objective, now: Objective) returns (ai: seq<int>, fi: seq<int>, xs: seq<nat>)
    requires IsTelling(p) && before.aggregMax && !now.aggregMax
    ensures IsSolution(p, before, {}, fi) && Recalled(p, now, {}, ai, fi, xs, true) && ai[1] < MAXTIME
    ensures !CheaplySupplied(p, {}, ai, fi)
  {
    fi, xs := TellingCosts(before), [2];
    ai := [0, fi[2], 0, 2 * Unit(before)];
    TellingSolution(p, before);
    TellingRecalled(p, before, now, fi, ai);
    DearAdder(p, ai, fi);
  }

  lemma OnlyAdder(p: Problem, a: nat)
    requires IsTelling(p) && 2 in Additions(p, a)
    ensures a == 3
  {
  }

  /** The only adder of a fluent costs no less than the fluent. */
  lemma DearAdder(p: Problem, ai: seq<int>, fi: seq<int>)
    requires IsTelling(p) && |ai| == 4 && |fi| == 3 && fi[2] <= ai[3] && fi[2] < MAXTIME
    ensures !CheaplySupplied(p, {}, ai, fi)
  {
    if CheaplySupplied(p, {}, ai, fi) {
      assert 0 <= 2 < |fi| && 2 !in {};
      var a: nat :| Cheaper(p, ai, fi, 2, a);
      OnlyAdder(p, a);
      assert false;
    }
  }

  lemma TellingRecalled(p: Problem, before: Objective, now: Objective, fi: seq<int>, ai: seq<int>)
    requires IsTelling(p) && !now.aggregMax && before.aggregMax
    requires fi == TellingCosts(before) && ai == [0, fi[2], 0, 2 * Unit(before)]
    ensures Recalled(p, now, {}, ai, fi, [2], true)
  {
    SingleCost(now, fi, p.goal.prec);
    PairCost(now, fi, p.actions[3].prec, Unit(before));
    TellingApplicable(p);
    assert p.actions[2].prec == [] && Cost(now, fi, p.actions[2].prec) == 0;
  }

  /**
   Recalled costs order every relaxed plan, for every problem and state, unless they are sums over
   costs that were memorised as maxima; then not.
   */
  lemma EntriesStillSupplyIff(before: Objective, now: Objective)
    ensures EntriesStillSupply(before, now) <==> (before.aggregMax ==> now.aggregMax)
  {
    if before.aggregMax ==> now.aggregMax {
      forall p: Problem, s: State, ai: seq<int>, fi: seq<int>, xs: seq<nat> |
        WellFormed(p) && IsSolution(p, before, s, fi) && Recalled(p, now, s, ai, fi, xs, true) && ai[1] < MAXTIME
        ensures CheaplySupplied(p, s, ai, fi)
      {
        RecalledIsSupplied(before, now, p, s, ai, fi, xs);
      }
    } else {
      TellingProblemTells();
      var ai, fi, xs := StaleIsUnsupplied(TellingProblem(), before, now);
    }
  }

  /** With the makespan as objective, no order by recalled costs that holds the goal is a plan without deletions. */
  lemma StaleOrderBreaks(p: Problem, before: Objective, now: Objective, ai: seq<int>, fi: seq<int>, xs: seq<nat>)
    requires IsTelling(p) && before == Objective(false, true, true) && now == Objective(false, true, false)
    requires IsSolution(p, before, {}, fi) && Recalled(p, now, {}, ai, fi, xs, true)
    ensures ai[1] < MAXTIME
    ensures forall plan :: CostOrdered(ai, plan) && 1 in plan ==> !RelaxedExecutable(p, {}, plan)
  {
    StaleCosts(p, before, now, ai, fi, xs);
    forall a: nat | 2 in Additions(p, a) ensures a == 3 {
      OnlyAdder(p, a);
    }
    forall plan | CostOrdered(ai, plan) && 1 in plan ensures !RelaxedExecutable(p, {}, plan) {
      GoalTooEarly(p, ai, plan);
    }
  }

  lemma GoalTooEarly(p: Problem, ai: seq<int>, plan: seq<nat>)
    requires p.goal.prec == [2] && forall a: nat :: 2 in Additions(p, a) ==> a == 3
    requires 3 < |ai| && ai[1] < ai[3] && CostOrdered(ai, plan) && 1 in plan
    ensures !RelaxedExecutable(p, {}, plan)
  {
    var k :| 0 <= k < |plan| && plan[k] == 1;
    if RelaxedExecutable(p, {}, plan) {
      assert 2 in Preconditions(p, plan[k]);
      assert Available(p, {}, plan, k, 2);
      var m :| 0 <= m < k && m < |plan| && 2 in Additions(p, plan[m]);
      assert false;
    }
  }

  /** The empty state, memorised with the aggregation by maximum, is found again. */
  method RecallStale(e: Evaluation) returns (ai: seq<int>)
    requires e.Valid() && IsTelling(e.problem) && e.objective == Objective(false, true, false)
    requires (0, {}) in e.under && e.under[(0, {})] == Objective(false, true, true)
    modifies e, e.finit, e.aused, e.ainit
    ensures |ai| == 4 && ai[1] < MAXTIME
    ensures forall plan :: CostOrdered(ai, plan) && 1 in plan ==> !RelaxedExecutable(old(e.problem), {}, plan)
  {
    var hit := e.ComputeH1(0, {});
    ai := e.ainit[..];
    StaleOrderBreaks(e.problem, Objective(false, true, true), e.objective, ai, e.finit[..], e.applicable);
  }

  /** As it arises: one state, evaluated twice, with the aggregation changed in between. */
  method StaleHitArises(p: Problem) returns (ai: seq<int>)
    requires IsTelling(p)
    ensures |ai| == 4 && ai[1] < MAXTIME
    ensures forall plan :: CostOrdered(ai, plan) && 1 in plan ==> !RelaxedExecutable(p, {}, plan)
  {
    var e := new Evaluation(p, Objective(false, true, true));
    var hit := e.ComputeH1(0, {});
    e.SetObjective(Objective(false, true, false));
    ai := RecallStale(e);
  }
}
