/**
 For exactly which actions the rescheduled steps of a node keep their meaning when they are sorted,
 whatever the delays between them.

 Steps may sort in another order than they were applied although neither is linked to the other, and
 such steps need not commute.  So the steps are first arranged so that all links keep their order and
 only steps without length that start together are left to be exchanged; those have to commute.
 */
module RescheduledPlans {
  import opened Basics
  import opened Counting
  import opened Planning
  import opened Exchanges
  import opened SolutionPlans
  import opened ActivitySchedule
  import opened StepSchedule
  import opened VectorSort

  /** No constraint lets its consumer start before the end of its supplier. */
  ghost predicate DelaysForward(cs: Constraints) {
    forall k :: k in cs ==> cs[k].0 >= 0
  }

  /** `t` is an executable sequence of steps, scheduled as early as its links allow and sorted. */
  ghost predicate ScheduledPlan(o: Options, cs: Constraints, s0: State, start: Action, steps: seq<Action>, goal: Action,
                                edges: seq<Edge>, starts: seq<int>, t: seq<Step>) {
    && Forward(edges, |steps| + 2) && WellLinked(o, cs, Vertices(start, steps, goal), edges, |steps| + 2)
    && |starts| == |steps| + 2 && LeastSchedule(GraphOf(Vertices(start, steps, goal), edges), starts)
    && Executable(s0, steps)
    && Ordered(PrecedesInPlan, t) && Arrangement(t, Timed(steps, starts))
  }

  // ----- an arrangement that keeps the links

  /** Start, then duration, then identifier, but among steps without length the order of application. */
  predicate StagedBefore(h: seq<Step>, i: nat, j: nat) {
    && i < |h| && j < |h|
    && (h[i].init < h[j].init
        || (h[i].init == h[j].init
            && (h[i].action.dur < h[j].action.dur
                || (h[i].action.dur == h[j].action.dur && BreaksTie(h[i].action, h[j].action, i, j)))))
  }

  predicate BreaksTie(a: Action, b: Action, i: nat, j: nat) {
    if a.dur == 0 || a.id == b.id then i < j else a.id < b.id
  }

  lemma StagedIsAcyclic(h: seq<Step>, s: seq<nat>)
    ensures var beats := (i: nat, j: nat) => StagedBefore(h, i, j); Irreflexive(beats) && Acyclic(beats, s)
  {
    TransitiveIsAcyclic((i: nat, j: nat) => StagedBefore(h, i, j), s);
  }

  lemma StagedArrangement(h: seq<Step>) returns (u: seq<nat>)
    ensures IsPermutation(u, |h|) && forall i, j :: 0 <= i < j < |h| ==> StagedBefore(h, u[i], u[j])
  {
    var all: seq<nat> := seq(|h|, i requires 0 <= i < |h| => i);
    var beats := (i: nat, j: nat) => StagedBefore(h, i, j);
    StagedIsAcyclic(h, all);
    StopsIffAcyclic(beats, all);
    var n: nat :| Ordered(beats, Passes(beats, all, n));
    ArrangementSelf(all);
    PassesArrange(beats, all, n, all);
    u := Passes(beats, all, n);
    var pi :| ArrangedBy(pi, u, all);
    assert u == pi;
    forall i, j | 0 <= i < j < |h| ensures StagedBefore(h, u[i], u[j]) {
      assert !beats(u[j], u[i]) && u[i] != u[j];
    }
  }

  function Rearranged<T>(s: seq<T>, u: seq<nat>): (r: seq<T>)
    requires forall i :: 0 <= i < |u| ==> u[i] < |s|
    ensures |r| == |u|
  {
    seq(|u|, i requires 0 <= i < |u| => s[u[i]])
  }

  /** What is an arrangement of `s` is one of any arrangement of `s`. */
  lemma ArrangementOfRearranged<T>(t: seq<T>, s: seq<T>, u: seq<nat>, pos: seq<nat>)
    requires Arrangement(t, s) && IsPermutation(u, |s|) && Inverse(u, pos, |s|)
    ensures Arrangement(t, Rearranged(s, u))
  {
    var pi :| ArrangedBy(pi, t, s);
    var rho: seq<nat> := seq(|s|, i requires 0 <= i < |s| => pos[pi[i]]);
    assert ArrangedBy(rho, t, Rearranged(s, u)) by {
      forall i, j | 0 <= i < j < |s| ensures rho[i] != rho[j] {
        assert u[pos[pi[i]]] == pi[i] && u[pos[pi[j]]] == pi[j];
      }
    }
  }

  /** A linked step ends before the other one starts. */
  ghost predicate LinksEndFirst(h: seq<Step>) {
    forall i: nat, j: nat :: LinkedSteps(StepActions(h), i, j) ==> h[i].init + h[i].action.dur <= h[j].init
  }

  lemma LinkedIsStaged(h: seq<Step>, u: seq<nat>, pos: seq<nat>, i: nat, j: nat)
    requires LinksEndFirst(h) && Inverse(u, pos, |h|) && LinkedSteps(StepActions(h), i, j)
    requires forall a, b :: 0 <= a < b < |h| ==> StagedBefore(h, u[a], u[b])
    ensures pos[i] < pos[j]
  {
    assert StagedBefore(h, i, j) && !StagedBefore(h, j, i);
    assert u[pos[i]] == i && u[pos[j]] == j;
  }

  /** Arranged in this way the steps have the meaning they had. */
  lemma StagedKeepsMeaning(s0: State, h: seq<Step>, u: seq<nat>, pos: seq<nat>)
    requires LinksEndFirst(h) && IsPermutation(u, |h|) && Inverse(u, pos, |h|) && Executable(s0, StepActions(h))
    requires forall a, b :: 0 <= a < b < |h| ==> StagedBefore(h, u[a], u[b])
    ensures SameMeaning(s0, StepActions(h), StepActions(Rearranged(h, u)))
  {
    var p, q := StepActions(h), StepActions(Rearranged(h, u));
    assert Reordered(p, q, u, pos);
    forall i, j | 0 <= i < j < |p| && (Threatens(p[i], p[j]) || Threatens(p[j], p[i])) ensures pos[i] < pos[j] {
      LinkedIsStaged(h, u, pos, i, j);
    }
    forall i: nat, k: nat, f: Fluent | LastSupplier(p, i, k, f) ensures pos[i] < pos[k] {
      LinkedIsStaged(h, u, pos, i, k);
    }
    ReorderingKeepsMeaning(s0, p, q, u, pos);
  }

  // ----- what is left to be exchanged

  /** Two steps without length that start together, and sort the other way round. */
  predicate TiedLengthless(h: seq<Step>, i: nat, j: nat) {
    && i < j < |h| && h[i].init == h[j].init
    && h[i].action.dur == 0 && h[j].action.dur == 0 && h[j].action.id < h[i].action.id
  }

  ghost predicate DistinctSteps(h: seq<Step>) {
    forall i, j :: 0 <= i < |h| && 0 <= j < |h| && h[i].action.id == h[j].action.id ==> h[i].action == h[j].action
  }

  lemma StagedAreFree(h: seq<Step>, u: seq<nat>)
    requires IsPermutation(u, |h|) && forall a, b :: 0 <= a < b < |h| ==> StagedBefore(h, u[a], u[b])
    requires DistinctSteps(h)
    requires forall i: nat, j: nat :: TiedLengthless(h, i, j) ==> Commutes(h[i].action, h[j].action)
    ensures FreeToSort(Rearranged(h, u))
  {
    var r := Rearranged(h, u);
    forall a, b | 0 <= a < b < |r| && !PrecedesInPlan(r[a], r[b]) ensures Commutes(r[a].action, r[b].action) {
      assert StagedBefore(h, u[a], u[b]);
      assert r[a].action.id != r[b].action.id ==> TiedLengthless(h, u[a], u[b]);
    }
  }

  /** Every sorted arrangement of steps keeps their meaning if links end first and tied steps without length commute. */
  lemma SpacedLinksKeepMeaning(s0: State, h: seq<Step>, t: seq<Step>)
    requires LinksEndFirst(h) && DistinctSteps(h) && Executable(s0, StepActions(h))
    requires forall i: nat, j: nat :: TiedLengthless(h, i, j) ==> Commutes(h[i].action, h[j].action)
    requires Ordered(PrecedesInPlan, t) && Arrangement(t, h)
    ensures SameMeaning(s0, StepActions(h), StepActions(t))
  {
    var u := StagedArrangement(h);
    var pos := InverseOf(u, |h|, |h|);
    StagedKeepsMeaning(s0, h, u, pos);
    StagedAreFree(h, u);
    ArrangementOfRearranged(t, h, u, pos);
    FreeStepsKeepMeaning(s0, Rearranged(h, u), t);
  }

  // ----- under constraints

  lemma JustifiedDelay(o: Options, cs: Constraints, va: seq<Action>, e: Edge)
    requires DelaysForward(cs) && Justified(o, cs, va, e)
    ensures MinimalDelay(e) >= 0
  {
  }

  lemma ForwardIsOnward(o: Options, cs: Constraints, va: seq<Action>, edges: seq<Edge>)
    requires DelaysForward(cs) && |va| > 0 && Forward(edges, |va|) && AllJustified(o, cs, va, edges)
    ensures forall k :: 0 <= k < |edges| ==> MinimalDelay(edges[k]) >= 0
    ensures Onward(GraphOf(va, edges))
  {
    forall k | 0 <= k < |edges| ensures MinimalDelay(edges[k]) >= 0 {
      JustifiedDelay(o, cs, va, edges[k]);
    }
  }

  lemma LinkedEndsFirst(o: Options, cs: Constraints, start: Action, steps: seq<Action>, goal: Action, edges: seq<Edge>,
                        starts: seq<int>, i: nat, j: nat)
    requires DelaysForward(cs) && LinkedSteps(steps, i, j) && |starts| == |steps| + 2
    requires Forward(edges, |steps| + 2) && WellLinked(o, cs, Vertices(start, steps, goal), edges, |steps| + 2)
    requires IsSchedule(GraphOf(Vertices(start, steps, goal), edges), starts)
    ensures starts[i + 1] + steps[i].dur <= starts[j + 1]
  {
    var va := Vertices(start, steps, goal);
    var e := LinkedHaveEdge(o, cs, start, steps, goal, edges, i, j);
    ForwardIsOnward(o, cs, va, edges);
    var k :| 0 <= k < |edges| && edges[k] == e;
    assert Respects(GraphOf(va, edges), starts, edges[k]) && va[i + 1] == steps[i];
  }

  /**
   With delays that are never negative, rescheduled steps keep their meaning when they are sorted, if
   steps without length that start together commute.
   */
  lemma ScheduledPlanKeepsMeaning(o: Options, cs: Constraints, s0: State, start: Action, steps: seq<Action>, goal: Action,
                                  edges: seq<Edge>, starts: seq<int>, t: seq<Step>)
    requires DelaysForward(cs) && ScheduledPlan(o, cs, s0, start, steps, goal, edges, starts, t)
    requires DistinctSteps(Timed(steps, starts))
    requires forall i: nat, j: nat :: TiedLengthless(Timed(steps, starts), i, j) ==> Commutes(steps[i], steps[j])
    ensures SameMeaning(s0, steps, StepActions(t))
  {
    var h := Timed(steps, starts);
    assert StepActions(h) == steps;
    forall i: nat, j: nat | LinkedSteps(StepActions(h), i, j) ensures h[i].init + h[i].action.dur <= h[j].init {
      LinkedEndsFirst(o, cs, start, steps, goal, edges, starts, i, j);
    }
    SpacedLinksKeepMeaning(s0, h, t);
  }

  /** With positive durations there is nothing to ask for. */
  lemma PositiveStepsKeepMeaning(o: Options, cs: Constraints, s0: State, start: Action, steps: seq<Action>, goal: Action,
                                 edges: seq<Edge>, starts: seq<int>, t: seq<Step>)
    requires DelaysForward(cs) && ScheduledPlan(o, cs, s0, start, steps, goal, edges, starts, t)
    requires forall i :: 0 <= i < |steps| ==> steps[i].dur >= 1
    ensures SameMeaning(s0, steps, StepActions(t))
  {
    ForwardIsOnward(o, cs, Vertices(start, steps, goal), edges);
    forall i: nat, j: nat | LinkedSteps(steps, i, j) ensures !TiedWrong(steps, starts, i, j) {
      LinkedEndsFirst(o, cs, start, steps, goal, edges, starts, i, j);
    }
    RescheduledStepsKeepMeaning(o, cs, s0, start, steps, goal, edges, starts, t);
  }

  // ----- exactly for which actions

  /** Whatever sequence of the actions is executed, from whatever state and under whatever delays. */
  ghost predicate ReschedulingKeepsMeaning(o: Options, start: Action, goal: Action, acts: set<Action>) {
    forall cs: Constraints, s0: State, steps: seq<Action>, edges: seq<Edge>, starts: seq<int>, t: seq<Step> ::
      DelaysForward(cs) && (forall i :: 0 <= i < |steps| ==> steps[i] in acts)
      && ScheduledPlan(o, cs, s0, start, steps, goal, edges, starts, t)
      ==> SameMeaning(s0, steps, StepActions(t))
  }

  /** An unconstrained edge for every link to step `i` from the steps before `j`. */
  lemma {:induction false} PlainLinks(o: Options, va: seq<Action>, i: nat, j: nat) returns (edges: seq<Edge>)
    requires j <= i < |va|
    ensures Forward(edges, |va|) && AllJustified(o, map[], va, edges)
    ensures forall m: nat, f: Fluent :: m < j && LastSupplier(va, m, i, f) ==> SupplyEdge(map[], va, m, i, f) in edges
    ensures forall m: nat :: m < j && ActionsMutex(o, va[i], va[m]) ==> Edge(m, i, None) in edges
    decreases j
  {
    edges := [];
    if j > 0 {
      var m: nat := j - 1;
      edges := PlainLinks(o, va, i, m);
      if ActionsMutex(o, va[i], va[m]) || exists f :: LastSupplier(va, m, i, f) {
        edges := edges + [Edge(m, i, None)];
        assert edges[|edges| - 1] == Edge(m, i, None);
      }
    }
  }

  lemma {:induction false} PlainEdges(o: Options, va: seq<Action>, n: nat) returns (edges: seq<Edge>)
    requires n <= |va|
    ensures Forward(edges, |va|) && WellLinked(o, map[], va, edges, n)
    decreases n
  {
    edges := [];
    if n > 0 {
      var before := PlainEdges(o, va, n - 1);
      var links := PlainLinks(o, va, n - 1, n - 1);
      edges := before + links;
      forall k: nat | k < n ensures StepLinked(o, map[], va, edges, k) {
        if k < n - 1 {
          StaysLinked(o, map[], va, before, edges, k);
        }
      }
    }
  }

  /** Vertices without length may all start at once. */
  lemma NoLengthsNoDelays(o: Options, va: seq<Action>, edges: seq<Edge>, t: seq<int>)
    requires |va| > 0 && Forward(edges, |va|) && AllJustified(o, map[], va, edges)
    requires forall i :: 0 <= i < |va| - 1 ==> va[i].dur == 0
    requires |t| == |va| && forall i :: 0 <= i < |t| ==> t[i] == 0
    ensures LeastSchedule(GraphOf(va, edges), t)
  {
    var g := GraphOf(va, edges);
    forall k | 0 <= k < |g.edges| ensures Respects(g, t, g.edges[k]) {
      assert Justified(o, map[], va, edges[k]) && edges[k].src < |va| - 1;
    }
  }

  /** A pair that cannot change places is scheduled at once and sorted the other way round. */
  lemma UnswappableSchedule(o: Options, start: Action, goal: Action, acts: set<Action>, a: Action, b: Action)
    requires start.dur == 0 && a in acts && b in acts && a.dur == 0 && b.dur == 0 && b.id < a.id
    requires CanFollow(a, b) && !Swappable(a, b)
    ensures !ReschedulingKeepsMeaning(o, start, goal, acts)
  {
    var s := UnswappablePair(a, b);
    var steps, starts, t := [a, b], [0, 0, 0, 0], [Step(b, 0, 0), Step(a, 0, 0)];
    var va := Vertices(start, steps, goal);
    var edges := PlainEdges(o, va, 4);
    NoLengthsNoDelays(o, va, edges, starts);
    assert StepActions(t) == [b, a];
    assert ArrangedBy([1, 0], t, Timed(steps, starts));
    assert ScheduledPlan(o, map[], s, start, steps, goal, edges, starts, t);
  }

  lemma TiesCommuteSuffices(o: Options, start: Action, goal: Action, acts: set<Action>, cs: Constraints, s0: State,
                            steps: seq<Action>, edges: seq<Edge>, starts: seq<int>, t: seq<Step>)
    requires DistinctIdentifiers(acts) && TiesCommute(acts) && forall i :: 0 <= i < |steps| ==> steps[i] in acts
    requires DelaysForward(cs) && ScheduledPlan(o, cs, s0, start, steps, goal, edges, starts, t)
    ensures SameMeaning(s0, steps, StepActions(t))
  {
    var h := Timed(steps, starts);
    assert forall i :: 0 <= i < |h| ==> h[i].action == steps[i] && h[i].action in acts;
    ScheduledPlanKeepsMeaning(o, cs, s0, start, steps, goal, edges, starts, t);
  }

  /**
   Whatever is executed, from whatever state, and whatever delays hold between suppliers and consumers
   as long as none is negative, rescheduling and sorting keep the meaning of all plans if and only if
   all actions without length that can run against the order of their identifiers can change places.
   */
  lemma ReschedulingKeepsMeaningIff(o: Options, start: Action, goal: Action, acts: set<Action>)
    requires start.dur == 0 && DistinctIdentifiers(acts)
    ensures ReschedulingKeepsMeaning(o, start, goal, acts) <==> TiesCommute(acts)
  {
    if TiesCommute(acts) {
      forall cs: Constraints, s0: State, steps: seq<Action>, edges: seq<Edge>, starts: seq<int>, t: seq<Step> |
        DelaysForward(cs) && (forall i :: 0 <= i < |steps| ==> steps[i] in acts)
        && ScheduledPlan(o, cs, s0, start, steps, goal, edges, starts, t)
        ensures SameMeaning(s0, steps, StepActions(t))
      {
        TiesCommuteSuffices(o, start, goal, acts, cs, s0, steps, edges, starts, t);
      }
    } else {
      var a, b :| a in acts && b in acts && a.dur == 0 && b.dur == 0 && b.id < a.id && CanFollow(a, b) && !Swappable(a, b);
      UnswappableSchedule(o, start, goal, acts, a, b);
    }
  }

  // ----- a negative delay

  const SUPPLIER := Action(3, [], [0], [], 2, 0)
  const CONSUMER := Action(2, [0], [1], [], 1, 0)

  lemma OnlyLink(o: Options, va: seq<Action>)
    requires va == [Action(0, [], [], [], 0, 0), SUPPLIER, CONSUMER, Action(1, [], [], [], 0, 0)] && o == Options(false, false, {})
    ensures LastSupplier(va, 1, 2, 0)
    ensures forall j: nat, i: nat, f: Fluent :: LastSupplier(va, j, i, f) ==> j == 1 && i == 2 && f == 0
    ensures forall j: nat, i: nat :: i < 4 && j < i ==> !ActionsMutex(o, va[i], va[j])
  {
  }

  /** A consumer that may start with its supplier, since the delay makes up for the length of that, is sorted ahead of it. */
  lemma NegativeDelayBreaks() returns (cs: Constraints, edges: seq<Edge>, starts: seq<int>, t: seq<Step>)
    ensures !DelaysForward(cs) && SUPPLIER.dur > 0 && CONSUMER.dur > 0
    ensures ScheduledPlan(Options(false, false, {}), cs, {}, Action(0, [], [], [], 0, 0), [SUPPLIER, CONSUMER],
                          Action(1, [], [], [], 0, 0), edges, starts, t)
    ensures !Executable({}, StepActions(t))
  {
    var o, start, goal, steps := Options(false, false, {}), Action(0, [], [], [], 0, 0), Action(1, [], [], [], 0, 0), [SUPPLIER, CONSUMER];
    cs := map[(3, 0) := (-2, 0)];
    assert cs[(3, 0)].0 == -2;
    edges, starts := [Edge(1, 2, Some((-2, 0)))], [0, 0, 0, 0];
    t := [Step(CONSUMER, 0, 0), Step(SUPPLIER, 0, 0)];
    var va := Vertices(start, steps, goal);
    OnlyLink(o, va);
    assert edges[0] == SupplyEdge(cs, va, 1, 2, 0);
    assert Justified(o, cs, va, edges[0]);
    assert LeastSchedule(GraphOf(va, edges), starts);
    assert ArrangedBy([1, 0], t, Timed(steps, starts));
    ExecutePair({}, SUPPLIER, CONSUMER);
    ExecutePair({}, CONSUMER, SUPPLIER);
    assert StepActions(t) == [CONSUMER, SUPPLIER] && 0 in CONSUMER.prec && 0 in SUPPLIER.add;
  }
}
