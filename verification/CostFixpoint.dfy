/**
 The cost heuristic of the YAHSP planner: a fixpoint over cost arrays, driven by one flag
 per action.  The equations it solves have exactly one solution, so the order in which
 flagged actions are visited does not matter, and neither does whether the costs come from
 the computation or from the memo table.
 */
module CostFixpoint {
  import opened Planning

  const MAXTIME: int := 1_000_000_000_000_000_000

  /** What is optimised, and whether preconditions are aggregated by maximum or by sum. */
  datatype Objective = Objective(cost: bool, makespan: bool, aggregMax: bool)

  function Increment(ob: Objective, a: Action): (r: int)
    ensures r >= 1
  {
    (if ob.cost then a.cost else if ob.makespan then a.dur else 0) + 1
  }

  // ----- the cost of an action

  function Largest(fi: seq<int>, prec: seq<Fluent>): (r: int)
    requires forall i :: 0 <= i < |prec| ==> prec[i] < |fi|
    ensures r >= 0
    ensures forall i :: 0 <= i < |prec| ==> fi[prec[i]] <= r
    ensures r == 0 || exists i :: 0 <= i < |prec| && fi[prec[i]] == r
  {
    if prec == [] then 0
    else
      var n := |prec| - 1;
      var m := Largest(fi, prec[..n]);
      assert forall i :: 0 <= i < n ==> prec[i] == prec[..n][i];
      if m < fi[prec[n]] then fi[prec[n]] else m
  }

  function Total(fi: seq<int>, prec: seq<Fluent>): int
    requires forall i :: 0 <= i < |prec| ==> prec[i] < |fi|
  {
    if prec == [] then 0 else Total(fi, prec[..|prec| - 1]) + fi[prec[|prec| - 1]]
  }

  predicate AllReached(fi: seq<int>, prec: seq<Fluent>)
    requires forall i :: 0 <= i < |prec| ==> prec[i] < |fi|
  {
    forall i :: 0 <= i < |prec| ==> fi[prec[i]] != MAXTIME
  }

  function Cost(ob: Objective, fi: seq<int>, prec: seq<Fluent>): int
    requires forall i :: 0 <= i < |prec| ==> prec[i] < |fi|
  {
    if ob.aggregMax then Largest(fi, prec)
    else if AllReached(fi, prec) then Total(fi, prec)
    else MAXTIME
  }

  /** What the arrays can hold of it: sums beyond MAXTIME never improve on MAXTIME. */
  function CappedCost(ob: Objective, fi: seq<int>, prec: seq<Fluent>): int
    requires forall i :: 0 <= i < |prec| ==> prec[i] < |fi|
  {
    if Cost(ob, fi, prec) < MAXTIME then Cost(ob, fi, prec) else MAXTIME
  }

  ghost predicate InRange(fi: seq<int>) {
    forall f :: 0 <= f < |fi| ==> 0 <= fi[f] <= MAXTIME
  }

  lemma {:induction false} TotalBounds(fi: seq<int>, prec: seq<Fluent>)
    requires InRange(fi) && forall i :: 0 <= i < |prec| ==> prec[i] < |fi|
    ensures Total(fi, prec) >= 0
    ensures forall i :: 0 <= i < |prec| ==> fi[prec[i]] <= Total(fi, prec)
  {
    if prec != [] {
      TotalBounds(fi, prec[..|prec| - 1]);
      assert forall i :: 0 <= i < |prec| - 1 ==> prec[i] == prec[..|prec| - 1][i];
    }
  }

  lemma {:induction false} TotalZero(fi: seq<int>, prec: seq<Fluent>)
    requires forall i :: 0 <= i < |prec| ==> prec[i] < |fi| && fi[prec[i]] == 0
    ensures Total(fi, prec) == 0
  {
    if prec != [] {
      TotalZero(fi, prec[..|prec| - 1]);
    }
  }

  lemma CostBounds(ob: Objective, fi: seq<int>, prec: seq<Fluent>)
    requires InRange(fi) && forall i :: 0 <= i < |prec| ==> prec[i] < |fi|
    ensures Cost(ob, fi, prec) >= 0
    ensures forall i :: 0 <= i < |prec| ==> fi[prec[i]] <= CappedCost(ob, fi, prec)
  {
    TotalBounds(fi, prec);
  }

  lemma CostZeroIff(ob: Objective, fi: seq<int>, prec: seq<Fluent>)
    requires InRange(fi) && forall i :: 0 <= i < |prec| ==> prec[i] < |fi|
    ensures CappedCost(ob, fi, prec) == 0 <==> forall i :: 0 <= i < |prec| ==> fi[prec[i]] == 0
  {
    CostBounds(ob, fi, prec);
    if forall i :: 0 <= i < |prec| ==> fi[prec[i]] == 0 {
      TotalZero(fi, prec);
    }
  }

  lemma {:induction false} TotalMonotone(fi: seq<int>, gi: seq<int>, prec: seq<Fluent>)
    requires |gi| == |fi| && forall i :: 0 <= i < |prec| ==> prec[i] < |fi| && gi[prec[i]] <= fi[prec[i]]
    ensures Total(gi, prec) <= Total(fi, prec)
  {
    if prec != [] {
      TotalMonotone(fi, gi, prec[..|prec| - 1]);
    }
  }

  lemma CappedCostMonotone(ob: Objective, fi: seq<int>, gi: seq<int>, prec: seq<Fluent>)
    requires |gi| == |fi| && InRange(fi) && InRange(gi)
    requires forall i :: 0 <= i < |prec| ==> prec[i] < |fi| && gi[prec[i]] <= fi[prec[i]]
    ensures CappedCost(ob, gi, prec) <= CappedCost(ob, fi, prec)
  {
    TotalMonotone(fi, gi, prec);
  }

  lemma {:induction false} TotalFrame(fi: seq<int>, gi: seq<int>, prec: seq<Fluent>)
    requires |gi| == |fi| && forall i :: 0 <= i < |prec| ==> prec[i] < |fi| && gi[prec[i]] == fi[prec[i]]
    ensures Total(gi, prec) == Total(fi, prec)
  {
    if prec != [] {
      TotalFrame(fi, gi, prec[..|prec| - 1]);
    }
  }

  lemma CostFrame(ob: Objective, fi: seq<int>, gi: seq<int>, prec: seq<Fluent>)
    requires |gi| == |fi| && forall i :: 0 <= i < |prec| ==> prec[i] < |fi| && gi[prec[i]] == fi[prec[i]]
    ensures Cost(ob, gi, prec) == Cost(ob, fi, prec)
  {
    TotalFrame(fi, gi, prec);
  }

  // ----- the equations and their unique solution

  /** `f` is reached by action `a` (never the start or the end) at the cost it has. */
  ghost predicate ReachedBy(p: Problem, ob: Objective, fi: seq<int>, f: Fluent, a: nat)
    requires WellFormed(p) && |fi| == p.fluents
  {
    && 2 <= a < |p.actions| && f < |fi| && f in p.actions[a].add
    && Cost(ob, fi, p.actions[a].prec) < MAXTIME
    && fi[f] == Cost(ob, fi, p.actions[a].prec) + Increment(ob, p.actions[a])
  }

  /** The costs of the fluents, from state `s`. */
  ghost predicate IsSolution(p: Problem, ob: Objective, s: State, fi: seq<int>)
    requires WellFormed(p)
  {
    && |fi| == p.fluents && InRange(fi)
    && (forall f :: 0 <= f < |fi| ==> (f in s <==> fi[f] == 0))
    && (forall a, f :: 2 <= a < |p.actions| && f in p.actions[a].add && Cost(ob, fi, p.actions[a].prec) < MAXTIME
                       ==> fi[f] <= Cost(ob, fi, p.actions[a].prec) + Increment(ob, p.actions[a]))
    && (forall f :: 0 <= f < |fi| && f !in s ==> fi[f] == MAXTIME || exists a :: ReachedBy(p, ob, fi, f, a))
  }

  lemma ReachedNoDearer(p: Problem, ob: Objective, s: State, fi: seq<int>, gi: seq<int>, f: Fluent, a: nat)
    requires WellFormed(p) && |fi| == p.fluents && InRange(fi) && IsSolution(p, ob, s, gi)
    requires ReachedBy(p, ob, fi, f, a)
    requires forall i :: 0 <= i < |fi| && fi[i] < fi[f] ==> gi[i] <= fi[i]
    ensures gi[f] <= fi[f]
  {
    var prec := p.actions[a].prec;
    CostBounds(ob, fi, prec);
    CappedCostMonotone(ob, fi, gi, prec);
  }

  lemma {:induction false} SolutionBelow(p: Problem, ob: Objective, s: State, fi: seq<int>, gi: seq<int>, v: nat)
    requires WellFormed(p) && IsSolution(p, ob, s, fi) && IsSolution(p, ob, s, gi)
    ensures forall f :: 0 <= f < |fi| && fi[f] <= v ==> gi[f] <= fi[f]
    decreases v
  {
    if v > 0 {
      SolutionBelow(p, ob, s, fi, gi, v - 1);
    }
    forall f: nat | f < |fi| && fi[f] == v ensures gi[f] <= fi[f] {
      if f !in s && v != MAXTIME {
        var a :| ReachedBy(p, ob, fi, f, a);
        ReachedNoDearer(p, ob, s, fi, gi, f, a);
      }
    }
  }

  /** The equations determine the costs, whatever order they are computed in. */
  lemma SolutionUnique(p: Problem, ob: Objective, s: State, fi: seq<int>, gi: seq<int>)
    requires WellFormed(p) && IsSolution(p, ob, s, fi) && IsSolution(p, ob, s, gi)
    ensures fi == gi
  {
    forall f | 0 <= f < |fi| ensures fi[f] == gi[f] {
      SolutionBelow(p, ob, s, fi, gi, fi[f]);
      SolutionBelow(p, ob, s, gi, fi, gi[f]);
    }
  }

  // ----- what the flag-driven loop maintains

  /** The actions from index 2 on that are applicable in `s`, in index order. */
  function ApplicableFrom(p: Problem, s: State, n: nat): seq<nat>
    requires n <= |p.actions|
  {
    if n <= 2 then []
    else if Applicable(s, p.actions[n - 1]) then ApplicableFrom(p, s, n - 1) + [n - 1]
    else ApplicableFrom(p, s, n - 1)
  }

  /** The list holds exactly the applicable actions, each once, in index order. */
  lemma {:induction false} ApplicableFromExact(p: Problem, s: State, n: nat)
    requires n <= |p.actions|
    ensures forall a :: a in ApplicableFrom(p, s, n) <==> 2 <= a < n && Applicable(s, p.actions[a])
    ensures forall i, j :: 0 <= i < j < |ApplicableFrom(p, s, n)| ==> ApplicableFrom(p, s, n)[i] < ApplicableFrom(p, s, n)[j]
    decreases n
  {
    if n > 2 {
      ApplicableFromExact(p, s, n - 1);
      var r := ApplicableFrom(p, s, n - 1);
      forall i | 0 <= i < |r| ensures r[i] < n - 1 {
        assert r[i] in r;
      }
    }
  }

  ghost predicate SupportedBy(p: Problem, ob: Objective, ai: seq<int>, fi: seq<int>, f: Fluent, a: nat) {
    && 2 <= a < |p.actions| && a < |ai| && f < |fi|
    && f in p.actions[a].add && ai[a] < MAXTIME && fi[f] == ai[a] + Increment(ob, p.actions[a])
  }

  /** No action costs less than its preconditions, and an action without flag costs exactly that. */
  ghost predicate ActionsFit(p: Problem, ob: Objective, ai: seq<int>, au: seq<bool>, fi: seq<int>)
    requires WellFormed(p) && |ai| == |au| == |p.actions| && |fi| == p.fluents
  {
    && (forall a :: 2 <= a < |ai| ==> CappedCost(ob, fi, p.actions[a].prec) <= ai[a])
    && (forall a :: 2 <= a < |ai| && !au[a] ==> ai[a] == CappedCost(ob, fi, p.actions[a].prec))
  }

  /** Fluents cost no more than through any of their adders, and outside the state one adder is as cheap. */
  ghost predicate FluentsFit(p: Problem, ob: Objective, s: State, ai: seq<int>, fi: seq<int>)
    requires WellFormed(p) && |ai| == |p.actions| && |fi| == p.fluents
  {
    && (forall a, f :: 2 <= a < |ai| && ai[a] < MAXTIME && f in p.actions[a].add
                       ==> fi[f] <= ai[a] + Increment(ob, p.actions[a]))
    && (forall f :: 0 <= f < |fi| && f !in s && fi[f] < MAXTIME ==> exists a :: SupportedBy(p, ob, ai, fi, f, a))
  }

  ghost predicate Consistent(p: Problem, ob: Objective, s: State, ai: seq<int>, au: seq<bool>, fi: seq<int>)
    requires WellFormed(p)
  {
    && |ai| == |au| == |p.actions| && |fi| == p.fluents
    && InRange(ai) && InRange(fi)
    && (forall f :: 0 <= f < |fi| ==> (f in s <==> fi[f] == 0))
    && ActionsFit(p, ob, ai, au, fi) && FluentsFit(p, ob, s, ai, fi)
  }

  /** With no flag left, the cost arrays solve the equations. */
  lemma SettledIsSolution(p: Problem, ob: Objective, s: State, ai: seq<int>, au: seq<bool>, fi: seq<int>)
    requires WellFormed(p) && Consistent(p, ob, s, ai, au, fi)
    requires forall a :: 2 <= a < |au| ==> !au[a]
    ensures IsSolution(p, ob, s, fi)
    ensures forall a :: 2 <= a < |ai| ==> ai[a] == CappedCost(ob, fi, p.actions[a].prec)
  {
    forall f | 0 <= f < |fi| && f !in s && fi[f] != MAXTIME ensures exists a :: ReachedBy(p, ob, fi, f, a) {
      var a :| SupportedBy(p, ob, ai, fi, f, a);
      assert ReachedBy(p, ob, fi, f, a);
    }
  }

  /** `gi` is `fi` with every added fluent lowered to `cost` where that improves it. */
  ghost predicate Lowered(fi: seq<int>, gi: seq<int>, add: seq<Fluent>, cost: int) {
    && |gi| == |fi|
    && forall f :: 0 <= f < |fi| ==> gi[f] == if f in add && cost < fi[f] then cost else fi[f]
  }

  /** `av` flags what `au` does and every action with a precondition that got cheaper. */
  ghost predicate Reflagged(p: Problem, au: seq<bool>, av: seq<bool>, fi: seq<int>, gi: seq<int>)
  {
    && |av| == |au| == |p.actions| && |gi| == |fi|
    && forall b :: 0 <= b < |au| ==>
         (av[b] <==> au[b] || exists f :: f in p.actions[b].prec && f < |fi| && gi[f] < fi[f])
  }

  /** Visiting a flagged action whose cost did not improve. */
  lemma VisitUnimproved(p: Problem, ob: Objective, s: State, ai: seq<int>, au: seq<bool>, fi: seq<int>, a: nat)
    requires WellFormed(p) && Consistent(p, ob, s, ai, au, fi)
    requires 2 <= a < |ai| && ai[a] <= Cost(ob, fi, p.actions[a].prec)
    ensures Consistent(p, ob, s, ai, au[a := false], fi)
  {
  }

  /** What changes when the cost of a flagged action improves. */
  ghost predicate Improved(p: Problem, ob: Objective, s: State, ai: seq<int>, au: seq<bool>, fi: seq<int>, a: nat,
                           av: seq<bool>, gi: seq<int>)
  {
    && WellFormed(p) && Consistent(p, ob, s, ai, au, fi) && 2 <= a < |ai|
    && Cost(ob, fi, p.actions[a].prec) < ai[a]
    && Lowered(fi, gi, p.actions[a].add, Cost(ob, fi, p.actions[a].prec) + Increment(ob, p.actions[a]))
    && Reflagged(p, au[a := false], av, fi, gi)
  }

  lemma ImprovedCost(p: Problem, ob: Objective, s: State, ai: seq<int>, au: seq<bool>, fi: seq<int>, a: nat,
                     av: seq<bool>, gi: seq<int>, b: nat)
    requires Improved(p, ob, s, ai, au, fi, a, av, gi) && 2 <= b < |ai|
    ensures var aj := ai[a := Cost(ob, fi, p.actions[a].prec)];
            && CappedCost(ob, gi, p.actions[b].prec) <= aj[b]
            && (!av[b] ==> aj[b] == CappedCost(ob, gi, p.actions[b].prec))
  {
    CostBounds(ob, fi, p.actions[a].prec);
    CappedCostMonotone(ob, fi, gi, p.actions[b].prec);
    if !av[b] {
      CostFrame(ob, fi, gi, p.actions[b].prec);
    }
  }

  lemma ImprovedSupport(p: Problem, ob: Objective, s: State, ai: seq<int>, au: seq<bool>, fi: seq<int>, a: nat,
                        av: seq<bool>, gi: seq<int>, aj: seq<int>, f: Fluent)
    requires Improved(p, ob, s, ai, au, fi, a, av, gi) && f < |gi| && f !in s && gi[f] < MAXTIME
    requires aj == ai[a := Cost(ob, fi, p.actions[a].prec)]
    ensures exists b :: SupportedBy(p, ob, aj, gi, f, b)
  {
    var c := Cost(ob, fi, p.actions[a].prec);
    if gi[f] < fi[f] {
      assert SupportedBy(p, ob, aj, gi, f, a);
    } else {
      var b :| SupportedBy(p, ob, ai, fi, f, b);
      assert f in p.actions[a].add ==> gi[f] <= c + Increment(ob, p.actions[a]);
      assert SupportedBy(p, ob, aj, gi, f, b);
    }
  }

  lemma LoweredBounds(s: State, fi: seq<int>, gi: seq<int>, add: seq<Fluent>, cost: int)
    requires InRange(fi) && Lowered(fi, gi, add, cost) && cost > 0
    requires forall f :: 0 <= f < |fi| ==> (f in s <==> fi[f] == 0)
    ensures InRange(gi) && forall f :: 0 <= f < |gi| ==> (f in s <==> gi[f] == 0)
  {
  }

  lemma ImprovedBounds(p: Problem, ob: Objective, s: State, ai: seq<int>, au: seq<bool>, fi: seq<int>, a: nat,
                       av: seq<bool>, gi: seq<int>)
    requires Improved(p, ob, s, ai, au, fi, a, av, gi)
    ensures InRange(ai[a := Cost(ob, fi, p.actions[a].prec)]) && InRange(gi)
    ensures forall f :: 0 <= f < |gi| ==> (f in s <==> gi[f] == 0)
  {
    var c := Cost(ob, fi, p.actions[a].prec);
    CostBounds(ob, fi, p.actions[a].prec);
    assert 0 <= c < ai[a] <= MAXTIME && c + Increment(ob, p.actions[a]) > 0;
    LoweredBounds(s, fi, gi, p.actions[a].add, c + Increment(ob, p.actions[a]));
  }

  lemma ImprovedAdders(p: Problem, ob: Objective, s: State, ai: seq<int>, au: seq<bool>, fi: seq<int>, a: nat,
                       av: seq<bool>, gi: seq<int>, aj: seq<int>, b: nat, f: Fluent)
    requires Improved(p, ob, s, ai, au, fi, a, av, gi) && aj == ai[a := Cost(ob, fi, p.actions[a].prec)]
    requires 2 <= b < |ai| && aj[b] < MAXTIME && f in p.actions[b].add
    ensures gi[f] <= aj[b] + Increment(ob, p.actions[b])
  {
    assert b == a || aj[b] == ai[b];
  }

  lemma ActionsStillFit(p: Problem, ob: Objective, s: State, ai: seq<int>, au: seq<bool>, fi: seq<int>, a: nat,
                        av: seq<bool>, gi: seq<int>)
    requires Improved(p, ob, s, ai, au, fi, a, av, gi)
    ensures ActionsFit(p, ob, ai[a := Cost(ob, fi, p.actions[a].prec)], av, gi)
  {
    var aj := ai[a := Cost(ob, fi, p.actions[a].prec)];
    forall b: nat | 2 <= b < |ai|
      ensures CappedCost(ob, gi, p.actions[b].prec) <= aj[b]
      ensures !av[b] ==> aj[b] == CappedCost(ob, gi, p.actions[b].prec)
    {
      ImprovedCost(p, ob, s, ai, au, fi, a, av, gi, b);
    }
  }

  lemma FluentsStillFit(p: Problem, ob: Objective, s: State, ai: seq<int>, au: seq<bool>, fi: seq<int>, a: nat,
                        av: seq<bool>, gi: seq<int>)
    requires Improved(p, ob, s, ai, au, fi, a, av, gi)
    ensures FluentsFit(p, ob, s, ai[a := Cost(ob, fi, p.actions[a].prec)], gi)
  {
    var aj := ai[a := Cost(ob, fi, p.actions[a].prec)];
    forall b: nat, f: Fluent | 2 <= b < |ai| && aj[b] < MAXTIME && f in p.actions[b].add
      ensures gi[f] <= aj[b] + Increment(ob, p.actions[b])
    {
      ImprovedAdders(p, ob, s, ai, au, fi, a, av, gi, aj, b, f);
    }
    forall f: Fluent | f < |gi| && f !in s && gi[f] < MAXTIME ensures exists b :: SupportedBy(p, ob, aj, gi, f, b) {
      ImprovedSupport(p, ob, s, ai, au, fi, a, av, gi, aj, f);
    }
  }

  /** Visiting a flagged action whose cost improved: its effects get cheaper, their consumers are flagged. */
  lemma VisitImproved(p: Problem, ob: Objective, s: State, ai: seq<int>, au: seq<bool>, fi: seq<int>, a: nat,
                      av: seq<bool>, gi: seq<int>)
    requires Improved(p, ob, s, ai, au, fi, a, av, gi)
    ensures Consistent(p, ob, s, ai[a := Cost(ob, fi, p.actions[a].prec)], av, gi)
  {
    ImprovedBounds(p, ob, s, ai, au, fi, a, av, gi);
    ActionsStillFit(p, ob, s, ai, au, fi, a, av, gi);
    FluentsStillFit(p, ob, s, ai, au, fi, a, av, gi);
  }
}
