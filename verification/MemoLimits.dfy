/**
 A state on which the memo table and the recomputation disagree about the cost of an action: its
 sum of two large costs exceeds the one that stands for infinity.
 */
module MemoLimits {
  import opened Planning
  import opened CostFixpoint
  import opened CostEvaluation

  /** Just over half of MAXTIME: two such costs add up to more. */
  const LARGE: nat := 500_000_000_000_000_001

  /** One action adds two fluents at a large cost, a second one needs both, and the goal needs one. */
  ghost predicate IsLarge(p: Problem) {
    && WellFormed(p) && |p.actions| == 4 && p.fluents == 2 && p.goal.prec == [0]
    && p.actions[2].prec == [] && p.actions[2].add == [0, 1] && p.actions[2].cost == LARGE - 1
    && p.actions[3].prec == [0, 1] && p.actions[3].add == []
  }

  function LargeProblem(): Problem {
    var start, goal := Action(0, [], [], [], 0, 0), Action(1, [0], [], [], 0, 0);
    Problem([start, goal, Action(2, [], [0, 1], [], 1, LARGE - 1), Action(3, [0, 1], [], [], 1, 0)], goal, 2)
  }

  lemma LargeProblemIsLarge()
    ensures IsLarge(LargeProblem())
  {
  }

  lemma LargeCosts(p: Problem, ob: Objective, fi: seq<int>)
    requires IsLarge(p) && !ob.aggregMax && |fi| == 2 && fi[0] == LARGE && fi[1] == LARGE
    ensures Cost(ob, fi, p.goal.prec) == LARGE
    ensures Cost(ob, fi, p.actions[2].prec) == 0 && Cost(ob, fi, p.actions[3].prec) == 2 * LARGE
  {
    var one, two := p.goal.prec, p.actions[3].prec;
    assert two[..1] == one && one[..0] == [];
    assert Total(fi, one) == LARGE;
    assert Total(fi, two) == 2 * LARGE;
  }

  lemma LargeSolution(p: Problem, ob: Objective, fi: seq<int>)
    requires IsLarge(p) && ob == Objective(true, false, false) && fi == [LARGE, LARGE]
    ensures IsSolution(p, ob, {}, fi)
  {
    LargeCosts(p, ob, fi);
    forall f | 0 <= f < 2 ensures fi[f] == LARGE && ReachedBy(p, ob, fi, f, 2) {
      assert p.actions[2].add[f] == f;
    }
  }

  lemma LargeApplicable(p: Problem)
    requires IsLarge(p)
    ensures ApplicableFrom(p, {}, 4) == [2]
  {
    assert 0 in p.actions[3].prec && !Applicable({}, p.actions[3]) && Applicable({}, p.actions[2]);
    assert ApplicableFrom(p, {}, 2) == [] && ApplicableFrom(p, {}, 3) == [2];
  }

  lemma LargeActionCost(p: Problem, ob: Objective, fi: seq<int>, a: nat)
    requires IsLarge(p) && !ob.aggregMax && |fi| == 2 && fi[0] == LARGE && fi[1] == LARGE && 2 <= a < 4
    ensures Cost(ob, fi, p.actions[a].prec) == if a == 2 then 0 else 2 * LARGE
    ensures CappedCost(ob, fi, p.actions[a].prec) == if a == 2 then 0 else MAXTIME
  {
    LargeCosts(p, ob, fi);
  }

  lemma LargeRecalled(p: Problem, ob: Objective, fi: seq<int>, ai: seq<int>, xs: seq<nat>, hit: bool)
    requires IsLarge(p) && !ob.aggregMax && fi == [LARGE, LARGE] && xs == [2]
    requires |ai| == 4 && ai[1] == LARGE && ai[2] == 0 && ai[3] == if hit then 2 * LARGE else MAXTIME
    ensures Recalled(p, ob, {}, ai, fi, xs, hit)
  {
    LargeCosts(p, ob, fi);
    LargeApplicable(p);
    forall a: nat | 2 <= a < 4
      ensures ai[a] == if hit then Cost(ob, fi, p.actions[a].prec) else CappedCost(ob, fi, p.actions[a].prec)
    {
      LargeActionCost(p, ob, fi, a);
    }
  }

  /** A state whose goal is reachable, and on which a hit and a miss differ in the cost of an action. */
  lemma HitDisagrees() returns (p: Problem, ob: Objective, fi: seq<int>, ai: seq<int>, aj: seq<int>, xs: seq<nat>)
    ensures WellFormed(p) && Evaluated(p, ob, {}, ai, fi, xs, true) && Evaluated(p, ob, {}, aj, fi, xs, false)
    ensures ai[p.goal.id] == aj[p.goal.id] < MAXTIME && |ai| == 4 && aj[3] < ai[3]
  {
    LargeProblemIsLarge();
    p, ob, fi := LargeProblem(), Objective(true, false, false), [LARGE, LARGE];
    ai, aj, xs := [0, LARGE, 0, 2 * LARGE], [0, LARGE, 0, MAXTIME], [2];
    LargeSolution(p, ob, fi);
    LargeRecalled(p, ob, fi, ai, xs, true);
    LargeRecalled(p, ob, fi, aj, xs, false);
  }
}
