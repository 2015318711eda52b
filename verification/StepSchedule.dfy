/**
 The precedence graph of a plan under construction, and what its schedule means: between the
 start and the end, every step is linked to the last supplier of each of its preconditions
 and to every earlier step it is exclusive with.
 */
module StepSchedule {
  import opened Basics
  import opened Planning
  import opened Exchanges
  import opened SolutionPlans
  import opened ActivitySchedule
  import CostFixpoint
  import VectorSort

  /** Delay intervals after the end of an action (by identifier) for a fluent it adds. */
  type Constraints = map<(nat, Fluent), (int, int)>

  function FindConstraint(cs: Constraints, a: Action, f: Fluent): Option<(int, int)> {
    if (a.id, f) in cs then Some(cs[(a.id, f)]) else None
  }

  predicate Forward(edges: seq<Edge>, n: nat) {
    forall k :: 0 <= k < |edges| ==> edges[k].src < edges[k].dst < n
  }

  function SupplyEdge(cs: Constraints, va: seq<Action>, j: nat, i: nat, f: Fluent): Edge
    requires j < |va|
  {
    Edge(j, i, FindConstraint(cs, va[j], f))
  }

  /** Why an edge is in the graph: a last supplier with its constraint, or a mutual exclusion. */
  ghost predicate Justified(o: Options, cs: Constraints, va: seq<Action>, e: Edge) {
    || (exists f :: LastSupplier(va, e.src, e.dst, f) && e == SupplyEdge(cs, va, e.src, e.dst, f))
    || (e.src < e.dst < |va| && ActionsMutex(o, va[e.dst], va[e.src]) && e.ac == None)
  }

  ghost predicate AllJustified(o: Options, cs: Constraints, va: seq<Action>, edges: seq<Edge>) {
    forall k :: 0 <= k < |edges| ==> Justified(o, cs, va, edges[k])
  }

  /** Adds the edge from the last supplier of `f` before step `i`. */
  method LinkSupplier(o: Options, cs: Constraints, va: seq<Action>, i: nat, f: Fluent, edges: seq<Edge>)
      returns (more: seq<Edge>)
    requires i < |va| && f in va[i].prec && Forward(edges, |va|) && AllJustified(o, cs, va, edges)
    ensures edges <= more && Forward(more, |va|) && AllJustified(o, cs, va, more)
    ensures forall j: nat :: LastSupplier(va, j, i, f) ==> SupplyEdge(cs, va, j, i, f) in more
  {
    var j := i;
    while j > 0
      invariant 0 <= j <= i
      invariant forall m :: j <= m < i ==> f !in va[m].add
    {
      j := j - 1;
      if f in va[j].add {
        more := edges + [SupplyEdge(cs, va, j, i, f)];
        assert LastSupplier(va, j, i, f);
        assert more[|edges|] == SupplyEdge(cs, va, j, i, f);
        return;
      }
    }
    more := edges;
  }

  /** Adds the edges from the last suppliers of the preconditions of step `i`. */
  method LinkSuppliers(o: Options, cs: Constraints, va: seq<Action>, i: nat, edges: seq<Edge>) returns (more: seq<Edge>)
    requires i < |va| && Forward(edges, |va|) && AllJustified(o, cs, va, edges)
    ensures edges <= more && Forward(more, |va|) && AllJustified(o, cs, va, more)
    ensures forall j: nat, f: Fluent :: LastSupplier(va, j, i, f) ==> SupplyEdge(cs, va, j, i, f) in more
  {
    more := edges;
    var k := 0;
    while k < |va[i].prec|
      invariant 0 <= k <= |va[i].prec| && edges <= more && Forward(more, |va|) && AllJustified(o, cs, va, more)
      invariant forall j: nat, f: Fluent :: f in va[i].prec[..k] && LastSupplier(va, j, i, f)
                                            ==> SupplyEdge(cs, va, j, i, f) in more
    {
      more := LinkSupplier(o, cs, va, i, va[i].prec[k], more);
      k := k + 1;
    }
    assert va[i].prec[..k] == va[i].prec;
  }

  /** Adds the edges from the earlier steps that step `i` is exclusive with. */
  method LinkMutexes(o: Options, cs: Constraints, va: seq<Action>, i: nat, edges: seq<Edge>) returns (more: seq<Edge>)
    requires i < |va| && Forward(edges, |va|) && AllJustified(o, cs, va, edges)
    ensures edges <= more && Forward(more, |va|) && AllJustified(o, cs, va, more)
    ensures forall j: nat :: j < i && ActionsMutex(o, va[i], va[j]) ==> Edge(j, i, None) in more
  {
    more := edges;
    var j := 0;
    while j < i
      invariant 0 <= j <= i && edges <= more && Forward(more, |va|) && AllJustified(o, cs, va, more)
      invariant forall m: nat :: m < j && ActionsMutex(o, va[i], va[m]) ==> Edge(m, i, None) in more
    {
      if ActionsMutex(o, va[i], va[j]) {
        more := more + [Edge(j, i, None)];
      }
      j := j + 1;
    }
  }

  /** Step `i` has an edge from the last supplier of each precondition and from each earlier step it excludes. */
  ghost predicate StepLinked(o: Options, cs: Constraints, va: seq<Action>, edges: seq<Edge>, i: nat)
    requires i < |va|
  {
    && (forall j: nat, f: Fluent :: LastSupplier(va, j, i, f) ==> SupplyEdge(cs, va, j, i, f) in edges)
    && (forall j: nat :: j < i && ActionsMutex(o, va[i], va[j]) ==> Edge(j, i, None) in edges)
  }

  /** The steps before `n` have the edges they need, and every edge has a reason. */
  ghost predicate WellLinked(o: Options, cs: Constraints, va: seq<Action>, edges: seq<Edge>, n: nat) {
    AllJustified(o, cs, va, edges) && forall i: nat :: i < n && i < |va| ==> StepLinked(o, cs, va, edges, i)
  }

  method BuildEdges(o: Options, cs: Constraints, va: seq<Action>) returns (edges: seq<Edge>)
    ensures Forward(edges, |va|) && WellLinked(o, cs, va, edges, |va|)
  {
    edges := [];
    var i := 0;
    while i < |va|
      invariant 0 <= i <= |va| && Forward(edges, |va|) && WellLinked(o, cs, va, edges, i)
    {
      ghost var before := edges;
      edges := LinkSuppliers(o, cs, va, i, edges);
      ghost var between := edges;
      edges := LinkMutexes(o, cs, va, i, edges);
      LinkedOneMore(o, cs, va, before, between, edges, i);
      i := i + 1;
    }
  }

  lemma StaysLinked(o: Options, cs: Constraints, va: seq<Action>, edges: seq<Edge>, more: seq<Edge>, i: nat)
    requires i < |va| && edges <= more && StepLinked(o, cs, va, edges, i)
    ensures StepLinked(o, cs, va, more, i)
  {
    assert forall e :: e in edges ==> e in more;
  }

  lemma LinkedOneMore(o: Options, cs: Constraints, va: seq<Action>, before: seq<Edge>, between: seq<Edge>, edges: seq<Edge>, i: nat)
    requires WellLinked(o, cs, va, before, i) && before <= between <= edges && AllJustified(o, cs, va, edges) && i < |va|
    requires forall j: nat, f: Fluent :: LastSupplier(va, j, i, f) ==> SupplyEdge(cs, va, j, i, f) in between
    requires forall j: nat :: j < i && ActionsMutex(o, va[i], va[j]) ==> Edge(j, i, None) in edges
    ensures WellLinked(o, cs, va, edges, i + 1)
  {
    forall k: nat | k < i + 1 ensures StepLinked(o, cs, va, edges, k) {
      if k < i {
        StaysLinked(o, cs, va, before, edges, k);
      } else {
        assert forall e :: e in between ==> e in edges;
      }
    }
  }

  // ----- scheduling the steps of a node

  function Vertices(start: Action, steps: seq<Action>, goal: Action): (r: seq<Action>)
    ensures |r| == |steps| + 2
  {
    [start] + steps + [goal]
  }

  function GraphOf(va: seq<Action>, edges: seq<Edge>): (g: Graph)
    requires |va| > 0 && Forward(edges, |va|)
    ensures WellFormedGraph(g)
  {
    Graph(seq(|va|, i requires 0 <= i < |va| => va[i].dur), edges)
  }

  /** The steps with the starts of their vertices. */
  function Timed(steps: seq<Action>, starts: seq<int>): (h: seq<Step>)
    requires |starts| == |steps| + 2
    ensures |h| == |steps|
  {
    seq(|steps|, i requires 0 <= i < |steps| => Step(steps[i], starts[i + 1], 0))
  }

  /**
   Schedules the steps between the start and the goal.  The makespan is the start of the
   goal, the earliest over all schedules of the graph.
   */
  method ScheduleSteps(o: Options, cs: Constraints, start: Action, steps: seq<Action>, goal: Action)
      returns (ok: bool, starts: seq<int>, makespan: int, ghost edges: seq<Edge>)
    ensures |starts| == |steps| + 2 && makespan == starts[|steps| + 1]
    ensures Forward(edges, |steps| + 2) && WellLinked(o, cs, Vertices(start, steps, goal), edges, |steps| + 2)
    ensures ok ==> LeastSchedule(GraphOf(Vertices(start, steps, goal), edges), starts)
    ensures ok ==> KeepsDelays(o, cs, Vertices(start, steps, goal), starts)
    ensures !ok ==> forall t :: !IsSchedule(GraphOf(Vertices(start, steps, goal), edges), t)
  {
    var va := Vertices(start, steps, goal);
    var es := BuildEdges(o, cs, va);
    edges := es;
    ok, starts := ScheduleGraph(GraphOf(va, es));
    makespan := starts[|steps| + 1];
    if ok {
      ScheduleKeepsDelays(o, cs, va, es, starts);
    }
  }

  /** A consumer starts within the delays after the end of its last supplier, and exclusive steps do not overlap. */
  ghost predicate KeepsDelays(o: Options, cs: Constraints, va: seq<Action>, t: seq<int>) {
    && |t| == |va|
    && (forall i: nat, j: nat, f: Fluent :: LastSupplier(va, i, j, f) && (va[i].id, f) in cs ==>
          t[i] + va[i].dur + cs[(va[i].id, f)].0 <= t[j] <= t[i] + va[i].dur + cs[(va[i].id, f)].1)
    && (forall i: nat, j: nat, f: Fluent :: LastSupplier(va, i, j, f) && (va[i].id, f) !in cs ==> t[i] + va[i].dur <= t[j])
    && (forall i: nat, j: nat :: i < j < |va| && ActionsMutex(o, va[j], va[i]) ==> t[i] + va[i].dur <= t[j])
  }

  /** The schedules of the graph, without the graph. */
  lemma ScheduleIff(o: Options, cs: Constraints, va: seq<Action>, edges: seq<Edge>, t: seq<int>)
    requires |va| > 0 && Forward(edges, |va|) && WellLinked(o, cs, va, edges, |va|)
    ensures IsSchedule(GraphOf(va, edges), t) <==>
            KeepsDelays(o, cs, va, t) && t[0] == 0 && forall v :: 0 <= v < |t| ==> 0 <= t[v] <= CostFixpoint.MAXTIME
  {
    if IsSchedule(GraphOf(va, edges), t) {
      ScheduleKeepsDelays(o, cs, va, edges, t);
    }
    if KeepsDelays(o, cs, va, t) {
      forall k | 0 <= k < |edges| ensures Respects(GraphOf(va, edges), t, edges[k]) {
        DelaysRespected(o, cs, va, edges, t, k);
      }
    }
  }

  lemma EdgeRespected(g: Graph, t: seq<int>, e: Edge)
    requires WellFormedGraph(g) && IsSchedule(g, t) && e in g.edges
    ensures e.src < |t| && e.dst < |t| && Respects(g, t, e)
  {
    var k :| 0 <= k < |g.edges| && g.edges[k] == e;
    assert Respects(g, t, g.edges[k]);
  }

  lemma ScheduleKeepsDelays(o: Options, cs: Constraints, va: seq<Action>, edges: seq<Edge>, t: seq<int>)
    requires |va| > 0 && Forward(edges, |va|) && WellLinked(o, cs, va, edges, |va|) && IsSchedule(GraphOf(va, edges), t)
    ensures KeepsDelays(o, cs, va, t)
  {
    forall i: nat, j: nat, f: Fluent | LastSupplier(va, i, j, f)
      ensures if (va[i].id, f) in cs
              then t[i] + va[i].dur + cs[(va[i].id, f)].0 <= t[j] <= t[i] + va[i].dur + cs[(va[i].id, f)].1
              else t[i] + va[i].dur <= t[j]
    {
      SupplierHasEdge(o, cs, va, edges, i, j, f);
      EdgeRespected(GraphOf(va, edges), t, SupplyEdge(cs, va, i, j, f));
    }
    forall i: nat, j: nat | i < j < |va| && ActionsMutex(o, va[j], va[i]) ensures t[i] + va[i].dur <= t[j] {
      assert StepLinked(o, cs, va, edges, j);
      EdgeRespected(GraphOf(va, edges), t, Edge(i, j, None));
    }
  }

  lemma DelaysRespected(o: Options, cs: Constraints, va: seq<Action>, edges: seq<Edge>, t: seq<int>, k: nat)
    requires |va| > 0 && Forward(edges, |va|) && AllJustified(o, cs, va, edges) && k < |edges| && KeepsDelays(o, cs, va, t)
    ensures Respects(GraphOf(va, edges), t, edges[k])
  {
    var e := edges[k];
    assert Justified(o, cs, va, e);
    if f: Fluent :| LastSupplier(va, e.src, e.dst, f) && e == SupplyEdge(cs, va, e.src, e.dst, f) {
      assert (va[e.src].id, f) in cs ==> e.ac == Some(cs[(va[e.src].id, f)]);
    }
  }

  /** From the end of its source to the start of its destination, at least this long. */
  function MinimalDelay(e: Edge): int {
    if e.ac.Some? then e.ac.value.0 else 0
  }

  /** No edge lets its destination start before its source. */
  ghost predicate Onward(g: Graph)
    requires WellFormedGraph(g)
  {
    forall k :: 0 <= k < |g.edges| ==> g.dur[g.edges[k].src] + MinimalDelay(g.edges[k]) >= 0
  }

  lemma LinkedStartsNoEarlier(g: Graph, t: seq<int>, e: Edge)
    requires WellFormedGraph(g) && Onward(g) && IsSchedule(g, t) && e in g.edges
    ensures e.src < |t| && e.dst < |t| && t[e.src] <= t[e.dst]
  {
    var k :| 0 <= k < |g.edges| && g.edges[k] == e;
    assert Respects(g, t, g.edges[k]);
  }

  lemma LastSupplierShifts(start: Action, steps: seq<Action>, goal: Action, i: nat, k: nat, f: Fluent)
    requires LastSupplier(steps, i, k, f)
    ensures LastSupplier(Vertices(start, steps, goal), i + 1, k + 1, f)
  {
    var va := Vertices(start, steps, goal);
    assert va[i + 1] == steps[i] && va[k + 1] == steps[k];
    forall m | i + 1 < m < k + 1 ensures f !in va[m].add {
      assert va[m] == steps[m - 1];
    }
  }

  /** Two steps whose order matters: one threatens the other, or the first is the last supplier of the second. */
  ghost predicate LinkedSteps(steps: seq<Action>, i: nat, j: nat) {
    && i < j < |steps|
    && (Threatens(steps[i], steps[j]) || Threatens(steps[j], steps[i]) || exists f :: LastSupplier(steps, i, j, f))
  }

  /** Two steps that start together, and are sorted the other way round. */
  predicate TiedWrong(steps: seq<Action>, starts: seq<int>, i: nat, j: nat)
    requires i < |steps| && j < |steps| && |starts| == |steps| + 2
  {
    && starts[i + 1] == starts[j + 1]
    && (steps[j].dur < steps[i].dur || (steps[j].dur == steps[i].dur && steps[j].id <= steps[i].id))
  }

  lemma ThreatHasEdge(o: Options, cs: Constraints, va: seq<Action>, edges: seq<Edge>, i: nat, j: nat)
    requires WellLinked(o, cs, va, edges, |va|) && i < j < |va| && (Threatens(va[i], va[j]) || Threatens(va[j], va[i]))
    ensures Edge(i, j, None) in edges
  {
    assert StepLinked(o, cs, va, edges, j) && ActionsMutex(o, va[j], va[i]);
  }

  lemma SupplierHasEdge(o: Options, cs: Constraints, va: seq<Action>, edges: seq<Edge>, i: nat, j: nat, f: Fluent)
    requires WellLinked(o, cs, va, edges, |va|) && LastSupplier(va, i, j, f)
    ensures SupplyEdge(cs, va, i, j, f) in edges
  {
    assert StepLinked(o, cs, va, edges, j);
  }

  /** Linked steps have an edge in the graph. */
  lemma LinkedHaveEdge(o: Options, cs: Constraints, start: Action, steps: seq<Action>, goal: Action, edges: seq<Edge>,
                       i: nat, j: nat) returns (e: Edge)
    requires WellLinked(o, cs, Vertices(start, steps, goal), edges, |steps| + 2) && LinkedSteps(steps, i, j)
    ensures e in edges && e.src == i + 1 && e.dst == j + 1
  {
    var va := Vertices(start, steps, goal);
    if f :| LastSupplier(steps, i, j, f) {
      LastSupplierShifts(start, steps, goal, i, j, f);
      SupplierHasEdge(o, cs, va, edges, i + 1, j + 1, f);
      e := SupplyEdge(cs, va, i + 1, j + 1, f);
    } else {
      assert va[i + 1] == steps[i] && va[j + 1] == steps[j];
      ThreatHasEdge(o, cs, va, edges, i + 1, j + 1);
      e := Edge(i + 1, j + 1, None);
    }
  }

  /** In any schedule linked steps sort in the order they were applied, but for ties. */
  lemma ScheduledStartsInOrder(o: Options, cs: Constraints, start: Action, steps: seq<Action>, goal: Action, edges: seq<Edge>, starts: seq<int>,
                               i: nat, j: nat)
    requires Forward(edges, |steps| + 2) && WellLinked(o, cs, Vertices(start, steps, goal), edges, |steps| + 2)
    requires Onward(GraphOf(Vertices(start, steps, goal), edges))
    requires IsSchedule(GraphOf(Vertices(start, steps, goal), edges), starts) && |starts| == |steps| + 2
    requires LinkedSteps(steps, i, j)
    ensures PrecedesInPlan(Timed(steps, starts)[i], Timed(steps, starts)[j]) <==> !TiedWrong(steps, starts, i, j)
  {
    var e := LinkedHaveEdge(o, cs, start, steps, goal, edges, i, j);
    LinkedStartsNoEarlier(GraphOf(Vertices(start, steps, goal), edges), starts, e);
  }

  lemma InOrderSortsLinks(steps: seq<Action>, starts: seq<int>)
    requires |starts| == |steps| + 2
    requires forall i: nat, j: nat :: LinkedSteps(steps, i, j) ==> PrecedesInPlan(Timed(steps, starts)[i], Timed(steps, starts)[j])
    ensures SortsLinks(Timed(steps, starts)) && StepActions(Timed(steps, starts)) == steps
  {
    var h := Timed(steps, starts);
    assert StepActions(h) == steps;
    forall i: nat, j: nat | i < j < |h| && (Threatens(h[i].action, h[j].action) || Threatens(h[j].action, h[i].action))
      ensures PrecedesInPlan(h[i], h[j])
    {
      assert LinkedSteps(steps, i, j);
    }
    forall i: nat, k: nat, f: Fluent | LastSupplier(steps, i, k, f) ensures PrecedesInPlan(h[i], h[k]) {
      assert LinkedSteps(steps, i, k);
    }
  }

  /**
   An executable sequence of steps, rescheduled under activity constraints and sorted by
   its new starts, still executes and reaches the same state, unless linked steps are tied the
   wrong way round.  The graph keeps only the last supplier of each precondition, which is enough.
   */
  lemma RescheduledStepsKeepMeaning(o: Options, cs: Constraints, s0: State, start: Action, steps: seq<Action>, goal: Action,
                                    edges: seq<Edge>, starts: seq<int>, t: seq<Step>)
    requires Executable(s0, steps)
    requires Forward(edges, |steps| + 2) && WellLinked(o, cs, Vertices(start, steps, goal), edges, |steps| + 2)
    requires Onward(GraphOf(Vertices(start, steps, goal), edges))
    requires IsSchedule(GraphOf(Vertices(start, steps, goal), edges), starts) && |starts| == |steps| + 2
    requires forall i: nat, j: nat :: LinkedSteps(steps, i, j) ==> !TiedWrong(steps, starts, i, j)
    requires VectorSort.Ordered(PrecedesInPlan, t) && VectorSort.Arrangement(t, Timed(steps, starts))
    ensures SameMeaning(s0, steps, StepActions(t))
  {
    forall i: nat, j: nat | LinkedSteps(steps, i, j)
      ensures PrecedesInPlan(Timed(steps, starts)[i], Timed(steps, starts)[j])
    {
      ScheduledStartsInOrder(o, cs, start, steps, goal, edges, starts, i, j);
    }
    InOrderSortsLinks(steps, starts);
    SortedStepsKeepMeaning(s0, Timed(steps, starts), t);
  }
}
