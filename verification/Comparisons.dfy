/** The three-way comparisons of `cpt.h` and the choice between producers they drive. */
module Comparisons {
  import opened Basics
  import opened Planning
  import opened CostFixpoint

  datatype Comparison = Better | Equal | Worse

  /** Whether a candidate replaces the one kept so far; ties are settled by `coin` if at random. */
  predicate Preferred(c: Comparison, random: bool, coin: bool) {
    c != Worse && (c == Better || (random && coin))
  }

  /** Real actions first, then cheaper ones, then shorter or less costly ones. */
  function CompareForPlan(p: Problem, ob: Objective, ai: seq<int>, x: nat, y: nat): Comparison
    requires x < |ai| == |p.actions| && y < |ai|
  {
    if x > 1 && y <= 1 then Better
    else if !(x > 1) && !(y <= 1) then Worse
    else if ai[x] < ai[y] then Better
    else if ai[x] > ai[y] then Worse
    else
      var dx, dy := p.actions[x], p.actions[y];
      if ob.makespan then (if dx.dur < dy.dur then Better else if dx.dur > dy.dur then Worse else Equal)
      else if ob.cost then (if dx.cost < dy.cost then Better else if dx.cost > dy.cost then Worse else Equal)
      else Equal
  }

  /** `best` is a usable producer of `f` and no usable producer is better. */
  ghost predicate IsBest(p: Problem, ob: Objective, ai: seq<int>, f: Fluent, usable: nat -> bool, best: nat)
    requires |ai| == |p.actions|
  {
    && best < |ai| && f in p.actions[best].add && usable(best)
    && forall a :: 0 <= a < |ai| && f in p.actions[a].add && usable(a) ==> CompareForPlan(p, ob, ai, a, best) != Better
  }

  /** `best` is better than all usable producers ahead of it. */
  ghost predicate IsFirst(p: Problem, ob: Objective, ai: seq<int>, f: Fluent, usable: nat -> bool, best: nat)
    requires |ai| == |p.actions| && best < |ai|
  {
    forall a :: 0 <= a < best && f in p.actions[a].add && usable(a) ==> CompareForPlan(p, ob, ai, best, a) == Better
  }

  /** Among usable producers, a best one is an action of the problem if any is, costs least, and then lasts or is charged least. */
  lemma BestMeans(p: Problem, ob: Objective, ai: seq<int>, f: Fluent, usable: nat -> bool, best: nat, a: nat)
    requires |ai| == |p.actions| && IsBest(p, ob, ai, f, usable, best) && a < |ai| && f in p.actions[a].add && usable(a)
    ensures a > 1 ==> best > 1
    ensures a > 1 ==> ai[best] <= ai[a]
    ensures a > 1 && ai[best] == ai[a] && ob.makespan ==> p.actions[best].dur <= p.actions[a].dur
    ensures a > 1 && ai[best] == ai[a] && !ob.makespan && ob.cost ==> p.actions[best].cost <= p.actions[a].cost
  {
    assert CompareForPlan(p, ob, ai, a, best) != Better;
  }

  /** A first one is strictly better than those ahead of it. */
  lemma FirstMeans(p: Problem, ob: Objective, ai: seq<int>, f: Fluent, usable: nat -> bool, best: nat, a: nat)
    requires |ai| == |p.actions| && best < |ai| && IsFirst(p, ob, ai, f, usable, best)
    requires 1 < a < best && f in p.actions[a].add && usable(a)
    ensures ai[best] <= ai[a]
    ensures ai[best] == ai[a] ==> if ob.makespan then p.actions[best].dur < p.actions[a].dur
                                  else ob.cost && p.actions[best].cost < p.actions[a].cost
  {
    assert CompareForPlan(p, ob, ai, best, a) == Better;
  }

  /** The scan of the producers of `f` for the best usable one; the first one of several unless ties are settled at random. */
  method BestProducer(p: Problem, ob: Objective, ai: array<int>, f: Fluent, usable: nat -> bool, random: bool)
      returns (best: Option<nat>)
    requires ai.Length == |p.actions|
    ensures best.None? ==> forall a :: 0 <= a < |p.actions| && f in p.actions[a].add ==> !usable(a)
    ensures best.Some? ==> IsBest(p, ob, ai[..], f, usable, best.value)
    ensures best.Some? && !random ==> IsFirst(p, ob, ai[..], f, usable, best.value)
  {
    best := None;
    var a := 0;
    while a < |p.actions|
      invariant 0 <= a <= |p.actions|
      invariant best.None? ==> forall b :: 0 <= b < a && f in p.actions[b].add ==> !usable(b)
      invariant best.Some? ==> best.value < a && f in p.actions[best.value].add && usable(best.value)
      invariant best.Some? ==> forall b :: 0 <= b < a && f in p.actions[b].add && usable(b)
                                           ==> CompareForPlan(p, ob, ai[..], b, best.value) != Better
      invariant best.Some? && !random ==> IsFirst(p, ob, ai[..], f, usable, best.value)
    {
      var coin: bool := *;
      if f in p.actions[a].add && usable(a)
         && (best.None? || Preferred(CompareForPlan(p, ob, ai[..], a, best.value), random, coin)) {
        best := Some(a);
      }
      a := a + 1;
    }
  }
}
