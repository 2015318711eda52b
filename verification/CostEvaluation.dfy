/**
 The arrays of the cost heuristic, the loops that fill them, and the memo table that saves
 filling them twice for one state.
 */
module CostEvaluation {
  import opened Counting
  import opened Planning
  import opened CostFixpoint

  /** The actions passed over so far are applicable exactly when listed; the others are still flagged. */
  ghost predicate Scanned(p: Problem, s: State, ai: seq<int>, au: seq<bool>, applicable: seq<nat>, seen: nat) {
    && |ai| == |au| == |p.actions| && 2 <= seen <= |ai|
    && applicable == ApplicableFrom(p, s, seen)
    && (forall a :: 2 <= a < seen && Applicable(s, p.actions[a]) ==> ai[a] == 0)
    && (forall a :: seen <= a < |ai| && Applicable(s, p.actions[a]) ==> au[a] && ai[a] > 0)
  }

  /** The effect of visiting action `a` in a pass of the fixpoint loop. */
  ghost predicate VisitStep(p: Problem, ob: Objective, a: nat,
                            ai: seq<int>, au: seq<bool>, fi: seq<int>, xs: seq<nat>,
                            aj: seq<int>, av: seq<bool>, gi: seq<int>, ys: seq<nat>)
    requires WellFormed(p) && a < |p.actions| == |ai| == |au| && |fi| == p.fluents
  {
    var c := Cost(ob, fi, p.actions[a].prec);
    if !au[a] || ai[a] <= c then
      aj == ai && av == au[a := false] && gi == fi && ys == xs
    else
      && aj == ai[a := c]
      && Lowered(fi, gi, p.actions[a].add, c + Increment(ob, p.actions[a]))
      && Reflagged(p, au[a := false], av, fi, gi)
      && ys == if c == 0 then xs + [a] else xs
  }

  /** What the passes maintain; the actions before `seen` have been passed over. */
  ghost predicate Settling(p: Problem, ob: Objective, s: State, ai: seq<int>, au: seq<bool>, fi: seq<int>,
                           xs: seq<nat>, seen: nat)
    requires WellFormed(p)
  {
    Consistent(p, ob, s, ai, au, fi) && Scanned(p, s, ai, au, xs, seen)
  }

  /** What one evaluation leaves in the arrays of actions, given the costs of the fluents. */
  ghost predicate Recalled(p: Problem, ob: Objective, s: State, ai: seq<int>, fi: seq<int>, applicable: seq<nat>, hit: bool)
    requires WellFormed(p) && |fi| == p.fluents
  {
    && |ai| == |p.actions|
    && ai[p.goal.id] == Cost(ob, fi, p.goal.prec)
    && (ai[p.goal.id] != MAXTIME || !hit ==>
          && applicable == ApplicableFrom(p, s, |ai|)
          && forall a :: 2 <= a < |ai| ==>
               ai[a] == if hit then Cost(ob, fi, p.actions[a].prec) else CappedCost(ob, fi, p.actions[a].prec))
  }

  /** What one evaluation leaves in the arrays, for the state `s`. */
  ghost predicate Evaluated(p: Problem, ob: Objective, s: State, ai: seq<int>, fi: seq<int>, applicable: seq<nat>, hit: bool)
    requires WellFormed(p)
  {
    IsSolution(p, ob, s, fi) && Recalled(p, ob, s, ai, fi, applicable, hit)
  }

  /** The same problem with other goals. */
  function WithGoals(p: Problem, goals: seq<Fluent>): Problem {
    p.(goal := p.goal.(prec := goals))
  }

  /** The costs of the fluents do not depend on the goals. */
  lemma SolutionIgnoresGoals(p: Problem, goals: seq<Fluent>, ob: Objective, s: State, fi: seq<int>)
    requires WellFormed(p) && Known(p, goals)
    ensures IsSolution(p, ob, s, fi) <==> IsSolution(WithGoals(p, goals), ob, s, fi)
  {
    var q := WithGoals(p, goals);
    if |fi| == p.fluents {
      assert forall f: Fluent, a: nat :: ReachedBy(p, ob, fi, f, a) <==> ReachedBy(q, ob, fi, f, a);
    }
  }

  /**
   An entry memorised under some goals and found again under others leaves what a recomputation
   leaves: the same costs of fluents, the same goal cost and, when the new goals are reachable, the
   same applicable actions.  The costs of an action agree exactly when they do not exceed MAXTIME,
   which a maximum never does.
   */
  lemma HitAgreesWithMiss(p: Problem, goals: seq<Fluent>, ob: Objective, s: State,
                          am: seq<int>, fi: seq<int>, zs: seq<nat>,
                          ai: seq<int>, xs: seq<nat>, aj: seq<int>, fj: seq<int>, ys: seq<nat>, a: nat)
    requires WellFormed(p) && Known(p, goals) && Evaluated(p, ob, s, am, fi, zs, false)
    requires Recalled(WithGoals(p, goals), ob, s, ai, fi, xs, true)
    requires Evaluated(WithGoals(p, goals), ob, s, aj, fj, ys, false)
    ensures fi == fj && ai[1] == aj[1]
    ensures ai[1] != MAXTIME ==> xs == ys == zs
    ensures ai[1] != MAXTIME && 2 <= a < |ai| ==> (ai[a] == aj[a] <==> Cost(ob, fi, p.actions[a].prec) <= MAXTIME)
    ensures ai[1] != MAXTIME && 2 <= a < |ai| && ob.aggregMax ==> ai[a] == aj[a]
  {
    var q := WithGoals(p, goals);
    SolutionIgnoresGoals(p, goals, ob, s, fi);
    SolutionUnique(q, ob, s, fi, fj);
    ApplicableIgnoresGoals(p, goals, s, |p.actions|);
  }

  lemma {:induction false} ApplicableIgnoresGoals(p: Problem, goals: seq<Fluent>, s: State, n: nat)
    requires n <= |p.actions|
    ensures ApplicableFrom(WithGoals(p, goals), s, n) == ApplicableFrom(p, s, n)
    decreases n
  {
    if n > 2 {
      ApplicableIgnoresGoals(p, goals, s, n - 1);
    }
  }

  class Evaluation {
    const ainit: array<int>
    const aused: array<bool>
    const finit: array<int>
    var problem: Problem
    var objective: Objective
    var applicable: seq<nat>
    var heuristics: map<(nat, State), seq<int>>
    ghost var under: map<(nat, State), Objective>  // the objective that was set when an entry was memorised

    ghost predicate Valid()
      reads this
    {
      && WellFormed(problem)
      && ainit.Length == aused.Length == |problem.actions|
      && finit.Length == problem.fluents
      && ainit != finit
      && under.Keys == heuristics.Keys
      && forall k :: k in heuristics ==> IsSolution(problem, under[k], k.1, heuristics[k])
    }

    constructor (p: Problem, ob: Objective)
      requires WellFormed(p)
      ensures Valid() && problem == p && objective == ob && heuristics == map[]
      ensures fresh(ainit) && fresh(aused) && fresh(finit)
    {
      problem := p;
      objective := ob;
      ainit := new int[|p.actions|];
      aused := new bool[|p.actions|];
      finit := new int[p.fluents];
      applicable := [];
      heuristics, under := map[], map[];
    }

    /** The next search has other goals; what is memorised is kept. */
    method SetGoals(goals: seq<Fluent>)
      requires Valid() && Known(problem, goals)
      modifies `problem
      ensures Valid() && problem == WithGoals(old(problem), goals)
    {
      ghost var p := problem;
      problem := problem.(goal := problem.goal.(prec := goals));
      forall k | k in heuristics ensures IsSolution(problem, under[k], k.1, heuristics[k]) {
        SolutionIgnoresGoals(p, goals, under[k], k.1, heuristics[k]);
      }
    }

    /** The next search optimises something else; what is memorised is kept, with the costs it was memorised with. */
    method SetObjective(ob: Objective)
      requires Valid()
      modifies `objective
      ensures Valid() && objective == ob
    {
      objective := ob;
    }

    /** The cost macro: a maximum, or a sum given up at the first unreached precondition. */
    method ActionCost(prec: seq<Fluent>) returns (cost: int)
      requires forall i :: 0 <= i < |prec| ==> prec[i] < finit.Length
      ensures cost == Cost(objective, finit[..], prec)
    {
      cost := 0;
      var i := 0;
      if objective.aggregMax {
        while i < |prec|
          invariant 0 <= i <= |prec| && cost == Largest(finit[..], prec[..i])
        {
          assert prec[..i + 1][..i] == prec[..i];
          if cost < finit[prec[i]] {
            cost := finit[prec[i]];
          }
          i := i + 1;
        }
      } else {
        while i < |prec|
          invariant 0 <= i <= |prec| && cost == Total(finit[..], prec[..i])
          invariant forall k :: 0 <= k < i ==> finit[prec[k]] != MAXTIME
        {
          if finit[prec[i]] == MAXTIME {
            cost := MAXTIME;
            return;
          }
          assert prec[..i + 1][..i] == prec[..i];
          cost := cost + finit[prec[i]];
          i := i + 1;
        }
      }
      assert prec[..i] == prec;
    }

    /** Lowers the cost of a fluent and flags the actions that need it. */
    method UpdateCost(f: Fluent, cost: int)
      requires Valid() && f < finit.Length
      modifies finit, aused
      ensures finit[..] == if cost < old(finit[f]) then old(finit[..])[f := cost] else old(finit[..])
      ensures forall a :: 0 <= a < aused.Length ==>
                (aused[a] <==> old(aused[a]) || (cost < old(finit[f]) && f in problem.actions[a].prec))
    {
      if cost < finit[f] {
        finit[f] := cost;
        var a := 0;
        while a < aused.Length
          invariant 0 <= a <= aused.Length
          invariant finit[..] == old(finit[..])[f := cost]
          invariant forall b :: 0 <= b < aused.Length ==>
                      (aused[b] <==> old(aused[b]) || (b < a && f in problem.actions[b].prec))
        {
          if f in problem.actions[a].prec {
            aused[a] := true;
          }
          a := a + 1;
        }
      }
    }

    method LowerEffects(add: seq<Fluent>, cost: int)
      requires Valid() && Known(problem, add)
      modifies finit, aused
      ensures Lowered(old(finit[..]), finit[..], add, cost)
      ensures Reflagged(problem, old(aused[..]), aused[..], old(finit[..]), finit[..])
    {
      var i := 0;
      while i < |add|
        invariant 0 <= i <= |add|
        invariant Lowered(old(finit[..]), finit[..], add[..i], cost)
        invariant Reflagged(problem, old(aused[..]), aused[..], old(finit[..]), finit[..])
      {
        ghost var fi, au := finit[..], aused[..];
        UpdateCost(add[i], cost);
        ReflaggedOnce(problem, old(aused[..]), au, aused[..], old(finit[..]), fi, finit[..], add[i], cost);
        i := i + 1;
      }
      assert add[..i] == add;
    }

    /** The visit of one action in a pass of the fixpoint loop. */
    method Visit(a: nat) returns (improved: bool)
      requires Valid() && a < |problem.actions|
      modifies finit, aused, ainit, `applicable
      ensures VisitStep(problem, objective, a,
                        old(ainit[..]), old(aused[..]), old(finit[..]), old(applicable),
                        ainit[..], aused[..], finit[..], applicable)
      ensures improved <==> old(aused[a] && Cost(objective, finit[..], problem.actions[a].prec) < ainit[a])
    {
      improved := false;
      if aused[a] {
        ghost var ai, au, fi := ainit[..], aused[..], finit[..];
        aused[a] := false;
        assert aused[..] == au[a := false];
        var cost := ActionCost(problem.actions[a].prec);
        if cost < ainit[a] {
          improved := true;
          ainit[a] := cost;
          assert ainit[..] == ai[a := cost];
          if cost == 0 {
            applicable := applicable + [a];
          }
          LowerEffects(problem.actions[a].add, cost + Increment(objective, problem.actions[a]));
          assert ainit[..] == ai[a := cost];
        }
      } else {
        assert aused[..] == old(aused[..])[a := false];
      }
    }

    ghost predicate InState(s: State, seen: nat)
      requires Valid()
      reads this, finit, aused, ainit
    {
      Settling(problem, objective, s, ainit[..], aused[..], finit[..], applicable, seen)
    }

    /** What a visit keeps, for the loop over the actions. */
    method VisitSettling(a: nat, ghost s: State, ghost seen: nat) returns (improved: bool)
      requires Valid() && InState(s, seen) && 2 <= a < |problem.actions| && a <= seen
      modifies finit, aused, ainit, `applicable
      ensures InState(s, if a == seen then seen + 1 else seen)
      ensures improved ==> Sum(ainit[..]) < old(Sum(ainit[..]))
      ensures !improved ==> Sum(ainit[..]) == old(Sum(ainit[..])) && aused[..] == old(aused[..])[a := false]
    {
      ghost var ai, au, fi, xs := ainit[..], aused[..], finit[..], applicable;
      improved := Visit(a);
      VisitKeeps(problem, objective, s, ai, au, fi, xs, a, seen, ainit[..], aused[..], finit[..], applicable);
      VisitLowers(problem, objective, ai, au, fi, xs, a, ainit[..], aused[..], finit[..], applicable);
    }

    /** One pass over the actions, in index order. */
    method H1Pass(ghost s: State, ghost seen: nat) returns (loop: bool)
      requires Valid() && InState(s, seen)
      modifies finit, aused, ainit, `applicable
      ensures InState(s, |problem.actions|)
      ensures loop ==> Sum(ainit[..]) < old(Sum(ainit[..]))
      ensures !loop ==> Sum(ainit[..]) == old(Sum(ainit[..])) && forall b :: 2 <= b < aused.Length ==> !aused[b]
    {
      loop := false;
      ghost var upto: nat := seen;
      var a := 2;
      while a < |problem.actions|
        invariant 2 <= a <= |problem.actions| && a <= upto <= |problem.actions| && InState(s, upto)
        invariant loop ==> Sum(ainit[..]) < old(Sum(ainit[..]))
        invariant !loop ==> Sum(ainit[..]) == old(Sum(ainit[..])) && forall b :: 2 <= b < a ==> !aused[..][b]
      {
        var improved := VisitSettling(a, s, upto);
        loop := loop || improved;
        upto := if a == upto then upto + 1 else upto;
        a := a + 1;
      }
      assert upto == |problem.actions| && forall b :: 2 <= b < aused.Length ==> aused[b] == aused[..][b];
    }

    /** Passes over all actions until one improves nothing. */
    method ComputeH1Cost(ghost s: State)
      requires Valid() && InState(s, 2)
      modifies finit, aused, ainit, `applicable
      ensures IsSolution(problem, objective, s, finit[..])
      ensures applicable == ApplicableFrom(problem, s, |problem.actions|)
      ensures forall a :: 2 <= a < ainit.Length ==> ainit[a] == CappedCost(objective, finit[..], problem.actions[a].prec)
    {
      var loop := true;
      ghost var seen: nat := 2;
      while loop
        invariant InState(s, seen)
        invariant !loop ==> seen == |problem.actions| && forall a :: 2 <= a < aused.Length ==> !aused[a]
        decreases Sum(ainit[..]), loop
      {
        SumNonNegative(ainit[..]);
        loop := H1Pass(s, seen);
        seen := |problem.actions|;
        SumNonNegative(ainit[..]);
      }
      SettledIsSolution(problem, objective, s, ainit[..], aused[..], finit[..]);
    }

    method InitialiseArrays(s: State)
      requires Valid() && forall f :: f in s ==> f < problem.fluents
      modifies finit, aused, ainit, `applicable
      ensures InState(s, 2)
    {
      applicable := [];
      var a := 0;
      while a < |problem.actions|
        invariant 0 <= a <= |problem.actions| && applicable == []
        invariant forall b :: 0 <= b < a ==> ainit[b] == MAXTIME && aused[b] == (problem.actions[b].prec == [])
      {
        ainit[a] := MAXTIME;
        aused[a] := problem.actions[a].prec == [];
        a := a + 1;
      }
      var f := 0;
      while f < problem.fluents
        invariant 0 <= f <= problem.fluents && applicable == []
        invariant forall b :: 0 <= b < ainit.Length ==> ainit[b] == MAXTIME
        invariant forall g :: 0 <= g < f ==> finit[g] == if g in s then 0 else MAXTIME
        invariant forall b :: 0 <= b < aused.Length ==>
                    (aused[b] <==> problem.actions[b].prec == [] || exists g :: g in problem.actions[b].prec && g < f && g in s)
      {
        finit[f] := MAXTIME;
        if f in s {
          UpdateCost(f, 0);
        }
        f := f + 1;
      }
      InitiallyConsistent(problem, objective, s, ainit[..], aused[..], finit[..]);
    }

    /** On a memo hit: the costs and the list of applicable actions, from the costs of the fluents. */
    method RecallActions(s: State, cost: int)
      requires Valid() && InRange(finit[..]) && forall f :: 0 <= f < finit.Length ==> (f in s <==> finit[f] == 0)
      requires ainit[problem.goal.id] == cost && applicable == []
      modifies ainit, `applicable
      ensures ainit[problem.goal.id] == cost
      ensures applicable == ApplicableFrom(problem, s, |problem.actions|)
      ensures forall b :: 2 <= b < ainit.Length ==> ainit[b] == Cost(objective, finit[..], problem.actions[b].prec)
    {
      ghost var fi := finit[..];
      var a := 2;
      while a < |problem.actions|
        invariant 2 <= a <= |problem.actions|
        invariant ainit[problem.goal.id] == cost && finit[..] == fi
        invariant applicable == ApplicableFrom(problem, s, a)
        invariant forall b :: 2 <= b < a ==> ainit[b] == Cost(objective, fi, problem.actions[b].prec)
      {
        var c := ActionCost(problem.actions[a].prec);
        ainit[a] := c;
        FreeIffApplicable(problem, objective, s, fi, a);
        if ainit[a] == 0 {
          applicable := applicable + [a];
        }
        a := a + 1;
      }
    }

    method RecallCosts(s: State)
      requires Valid() && InRange(finit[..]) && forall f :: 0 <= f < finit.Length ==> (f in s <==> finit[f] == 0)
      modifies ainit, `applicable
      ensures Recalled(problem, objective, s, ainit[..], finit[..], applicable, true)
    {
      applicable := [];
      var cost := ActionCost(problem.goal.prec);
      ainit[problem.goal.id] := cost;
      if ainit[problem.goal.id] != MAXTIME {
        RecallActions(s, cost);
      }
    }

    method EvaluateState(s: State)
      requires Valid() && forall f :: f in s ==> f < problem.fluents
      modifies finit, aused, ainit, `applicable
      ensures Evaluated(problem, objective, s, ainit[..], finit[..], applicable, false)
    {
      InitialiseArrays(s);
      ComputeH1Cost(s);
      var cost := ActionCost(problem.goal.prec);
      ainit[problem.goal.id] := cost;
    }

    /**
     The heuristic of one state; `hit` says whether the memo table knew it.  On a hit the costs of the
     fluents are those of the objective under which the state was memorised.
     */
    method ComputeH1(key: nat, s: State) returns (hit: bool)
      requires Valid() && forall f :: f in s ==> f < problem.fluents
      modifies finit, aused, ainit, `applicable, `heuristics, `under
      ensures Valid()
      ensures hit <==> (key, s) in old(heuristics)
      ensures IsSolution(problem, if hit then old(under)[(key, s)] else objective, s, finit[..])
      ensures Recalled(problem, objective, s, ainit[..], finit[..], applicable, hit)
      ensures heuristics == if hit then old(heuristics) else old(heuristics)[(key, s) := finit[..]]
      ensures under == if hit then old(under) else old(under)[(key, s) := objective]
    {
      hit := (key, s) in heuristics;
      if hit {
        var inits := heuristics[(key, s)];
        forall f | 0 <= f < finit.Length {
          finit[f] := inits[f];
        }
        assert finit[..] == inits;
        RecallCosts(s);
      } else {
        EvaluateState(s);
        heuristics := heuristics[(key, s) := finit[..]];
        under := under[(key, s) := objective];
      }
    }

    /** Forgets every memorised state. */
    method HeuristicFlush()
      requires Valid()
      modifies `heuristics, `under
      ensures Valid() && heuristics == map[]
    {
      heuristics, under := map[], map[];
    }
  }

  lemma ReflaggedOnce(p: Problem, a0: seq<bool>, a1: seq<bool>, a2: seq<bool>, f0: seq<int>, f1: seq<int>, f2: seq<int>,
                      f: Fluent, cost: int)
    requires Reflagged(p, a0, a1, f0, f1) && f < |f1| && |a2| == |a1|
    requires forall g :: 0 <= g < |f0| ==> f1[g] <= f0[g]
    requires f2 == if cost < f1[f] then f1[f := cost] else f1
    requires forall a :: 0 <= a < |a1| ==> (a2[a] <==> a1[a] || (cost < f1[f] && f in p.actions[a].prec))
    ensures Reflagged(p, a0, a2, f0, f2)
  {
    forall b | 0 <= b < |a0| && cost < f1[f] && f in p.actions[b].prec
      ensures exists g :: g in p.actions[b].prec && g < |f0| && f2[g] < f0[g]
    {
      assert f2[f] < f0[f];
    }
    forall b, g | 0 <= b < |a0| && g in p.actions[b].prec && g < |f0| && f1[g] < f0[g]
      ensures f2[g] < f0[g]
    {
    }
  }

  lemma FreeIffApplicable(p: Problem, ob: Objective, s: State, fi: seq<int>, a: nat)
    requires WellFormed(p) && a < |p.actions| && |fi| == p.fluents && InRange(fi)
    requires forall f :: 0 <= f < |fi| ==> (f in s <==> fi[f] == 0)
    ensures Cost(ob, fi, p.actions[a].prec) == 0 <==> Applicable(s, p.actions[a])
    ensures Cost(ob, fi, p.actions[a].prec) >= 0
  {
    var prec := p.actions[a].prec;
    CostBounds(ob, fi, prec);
    CostZeroIff(ob, fi, prec);
    assert Applicable(s, p.actions[a]) <==> forall i :: 0 <= i < |prec| ==> fi[prec[i]] == 0;
  }

  lemma VisitConsistent(p: Problem, ob: Objective, s: State, ai: seq<int>, au: seq<bool>, fi: seq<int>, xs: seq<nat>,
                        a: nat, aj: seq<int>, av: seq<bool>, gi: seq<int>, ys: seq<nat>)
    requires WellFormed(p) && Consistent(p, ob, s, ai, au, fi) && 2 <= a < |ai|
    requires VisitStep(p, ob, a, ai, au, fi, xs, aj, av, gi, ys)
    ensures Consistent(p, ob, s, aj, av, gi)
  {
    if !au[a] {
      assert au[a := false] == au;
    } else if ai[a] <= Cost(ob, fi, p.actions[a].prec) {
      VisitUnimproved(p, ob, s, ai, au, fi, a);
    } else {
      VisitImproved(p, ob, s, ai, au, fi, a, av, gi);
    }
  }

  /** What a visit of `a` does to the list and to the other actions. */
  lemma VisitLists(p: Problem, ob: Objective, s: State, ai: seq<int>, au: seq<bool>, fi: seq<int>, xs: seq<nat>,
                   a: nat, seen: nat, aj: seq<int>, av: seq<bool>, gi: seq<int>, ys: seq<nat>)
    requires WellFormed(p) && Scanned(p, s, ai, au, xs, seen) && 2 <= a < |ai| && a <= seen && |fi| == p.fluents
    requires VisitStep(p, ob, a, ai, au, fi, xs, aj, av, gi, ys)
    requires Cost(ob, fi, p.actions[a].prec) == 0 <==> Applicable(s, p.actions[a])
    requires Cost(ob, fi, p.actions[a].prec) >= 0
    ensures |aj| == |av| == |ai| && forall b :: 0 <= b < |ai| && b != a ==> aj[b] == ai[b] && (au[b] ==> av[b])
    ensures Applicable(s, p.actions[a]) ==> aj[a] == 0
    ensures ys == if Applicable(s, p.actions[a]) && a == seen then xs + [a] else xs
  {
    assert !au[a] ==> !Applicable(s, p.actions[a]) || a < seen;
  }

  lemma ScannedOneMore(p: Problem, s: State, ai: seq<int>, au: seq<bool>, xs: seq<nat>, a: nat, seen: nat,
                       aj: seq<int>, av: seq<bool>, ys: seq<nat>)
    requires Scanned(p, s, ai, au, xs, seen) && 2 <= a < |ai| && a <= seen
    requires |aj| == |av| == |ai| && forall b :: 0 <= b < |ai| && b != a ==> aj[b] == ai[b] && (au[b] ==> av[b])
    requires Applicable(s, p.actions[a]) ==> aj[a] == 0
    requires ys == if Applicable(s, p.actions[a]) && a == seen then xs + [a] else xs
    ensures Scanned(p, s, aj, av, ys, if a == seen then seen + 1 else seen)
  {
  }

  /** A visit that improves its action lowers the sum of the costs; any other one only clears its flag. */
  lemma VisitLowers(p: Problem, ob: Objective, ai: seq<int>, au: seq<bool>, fi: seq<int>, xs: seq<nat>,
                    a: nat, aj: seq<int>, av: seq<bool>, gi: seq<int>, ys: seq<nat>)
    requires WellFormed(p) && a < |p.actions| == |ai| == |au| && |fi| == p.fluents
    requires VisitStep(p, ob, a, ai, au, fi, xs, aj, av, gi, ys)
    ensures var improved := au[a] && Cost(ob, fi, p.actions[a].prec) < ai[a];
            if improved then Sum(aj) < Sum(ai) else Sum(aj) == Sum(ai) && av == au[a := false]
  {
    SumUpdate(ai, a, aj[a]);
  }

  /** A visit keeps what the passes maintain, and lists its action if it is new and applicable. */
  lemma VisitKeeps(p: Problem, ob: Objective, s: State, ai: seq<int>, au: seq<bool>, fi: seq<int>, xs: seq<nat>,
                   a: nat, seen: nat, aj: seq<int>, av: seq<bool>, gi: seq<int>, ys: seq<nat>)
    requires WellFormed(p) && Settling(p, ob, s, ai, au, fi, xs, seen)
    requires 2 <= a < |ai| && a <= seen
    requires VisitStep(p, ob, a, ai, au, fi, xs, aj, av, gi, ys)
    ensures Settling(p, ob, s, aj, av, gi, ys, if a == seen then seen + 1 else seen)
  {
    FreeIffApplicable(p, ob, s, fi, a);
    VisitConsistent(p, ob, s, ai, au, fi, xs, a, aj, av, gi, ys);
    VisitLists(p, ob, s, ai, au, fi, xs, a, seen, aj, av, gi, ys);
    ScannedOneMore(p, s, ai, au, xs, a, seen, aj, av, ys);
  }

  lemma InitiallyConsistent(p: Problem, ob: Objective, s: State, ai: seq<int>, au: seq<bool>, fi: seq<int>)
    requires WellFormed(p) && |ai| == |au| == |p.actions| && |fi| == p.fluents
    requires forall f :: f in s ==> f < p.fluents
    requires forall a :: 0 <= a < |ai| ==> ai[a] == MAXTIME
    requires forall f :: 0 <= f < |fi| ==> fi[f] == if f in s then 0 else MAXTIME
    requires forall a :: 0 <= a < |au| ==>
               (au[a] <==> p.actions[a].prec == [] || exists f :: f in p.actions[a].prec && f < p.fluents && f in s)
    ensures Consistent(p, ob, s, ai, au, fi)
    ensures Scanned(p, s, ai, au, [], 2)
  {
    forall a | 2 <= a < |ai| && !au[a] ensures CappedCost(ob, fi, p.actions[a].prec) == MAXTIME {
      var prec := p.actions[a].prec;
      assert fi[prec[0]] == MAXTIME;
      CostBounds(ob, fi, prec);
    }
    forall a | 2 <= a < |ai| && Applicable(s, p.actions[a]) ensures au[a] {
      if p.actions[a].prec != [] {
        assert p.actions[a].prec[0] in s;
      }
    }
  }
}
