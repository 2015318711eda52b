/**
 From the steps of a node to the plan handed out: steps are sorted by start time, and the
 plans of successive subproblems are laid end to end and rescheduled.

 Sorting forgets the order in which actions were applied.  The module proves that the
 sorted plan still executes and reaches the same state, and says exactly for which actions
 (without length, unable to change places) this fails.
 */
module SolutionPlans {
  import opened Basics
  import opened Planning
  import opened PlanBuilding
  import opened Exchanges
  import opened VectorSort

  datatype Step = Step(action: Action, init: int, end: int)

  const NO_STEP := Step(Action(0, [], [], [], 0, 0), 0, 0)

  /** The comparison of the sort: start, then duration, then identifier. */
  predicate PrecedesInPlan(a: Step, b: Step) {
    || a.init < b.init
    || (a.init == b.init && a.action.dur < b.action.dur)
    || (a.init == b.init && a.action.dur == b.action.dur && a.action.id < b.action.id)
  }

  function StepActions(h: seq<Step>): (r: seq<Action>)
    ensures |r| == |h|
  {
    seq(|h|, i requires 0 <= i < |h| => h[i].action)
  }

  function FromNode(h: seq<YStep>): (r: seq<Step>)
    ensures |r| == |h|
  {
    seq(|h|, i requires 0 <= i < |h| => Step(h[i].action, h[i].init, 0))
  }

  lemma PlanOrderIsAcyclic(s: seq<Step>)
    ensures Irreflexive(PrecedesInPlan) && Acyclic(PrecedesInPlan, s)
  {
    TransitiveIsAcyclic(PrecedesInPlan, s);
  }

  // ----- what sorting keeps

  /** A step that must precede a later one also sorts ahead of it. */
  ghost predicate SortsAhead(o: Options, h: seq<Step>) {
    forall i, j :: 0 <= i < j < |h| && MustPrecede(o, h[i].action, h[j].action) ==> PrecedesInPlan(h[i], h[j])
  }

  /** A step starts after the end of every earlier step that must precede it. */
  ghost predicate Spaced(o: Options, h: seq<Step>) {
    forall i, j :: 0 <= i < j < |h| && MustPrecede(o, h[i].action, h[j].action)
                   ==> h[i].init + h[i].action.dur <= h[j].init
  }

  /** Two actions without length, in this order, started together, that sort the other way. */
  ghost predicate Tied(o: Options, h: seq<Step>, i: int, j: int) {
    && 0 <= i < j < |h|
    && MustPrecede(o, h[i].action, h[j].action)
    && h[i].init == h[j].init
    && h[i].action.dur == 0 && h[j].action.dur == 0
    && h[j].action.id <= h[i].action.id
  }

  lemma SpacedSortsAheadIff(o: Options, h: seq<Step>)
    requires Spaced(o, h)
    ensures SortsAhead(o, h) <==> forall i, j :: !Tied(o, h, i, j)
  {
    if forall i, j :: !Tied(o, h, i, j) {
      forall i, j | 0 <= i < j < |h| && MustPrecede(o, h[i].action, h[j].action)
        ensures PrecedesInPlan(h[i], h[j])
      {
        assert !Tied(o, h, i, j);
      }
    }
  }

  /** The pairs whose order matters: threats, and last suppliers with their consumers. */
  ghost predicate SortsLinks(h: seq<Step>) {
    && (forall i, j :: 0 <= i < j < |h|
                       && (Threatens(h[i].action, h[j].action) || Threatens(h[j].action, h[i].action))
                       ==> PrecedesInPlan(h[i], h[j]))
    && (forall i: nat, k: nat, f: Fluent :: LastSupplier(StepActions(h), i, k, f) ==> PrecedesInPlan(h[i], h[k]))
  }

  /** Every sorted arrangement of such steps executes and ends in the same state. */
  lemma SortedStepsKeepMeaning(s0: State, h: seq<Step>, t: seq<Step>)
    requires SortsLinks(h) && Executable(s0, StepActions(h))
    requires Ordered(PrecedesInPlan, t) && Arrangement(t, h)
    ensures Executable(s0, StepActions(t))
    ensures After(s0, StepActions(t)) == After(s0, StepActions(h))
  {
    var pi :| ArrangedBy(pi, t, h);
    var pos := InverseOf(pi, |h|, |h|);
    var p, q := StepActions(h), StepActions(t);
    assert Reordered(p, q, pi, pos);
    forall i, j | 0 <= i < j < |h| && PrecedesInPlan(h[i], h[j]) ensures pos[i] < pos[j] {
      assert t[pos[i]] == h[i] && t[pos[j]] == h[j];
      assert pi[pos[i]] != pi[pos[j]];
    }
    ReorderingKeepsMeaning(s0, p, q, pi, pos);
  }

  /** Steps that overlap in time neither threaten nor supply each other. */
  lemma OverlappingStepsAreIndependent(o: Options, h: seq<Step>, i: nat, j: nat)
    requires Spaced(o, h) && i < j < |h|
    requires h[i].init < h[j].init + h[j].action.dur && h[j].init < h[i].init + h[i].action.dur
    ensures !ActionsMutex(o, h[i].action, h[j].action)
    ensures !Threatens(h[i].action, h[j].action) && !Threatens(h[j].action, h[i].action)
    ensures !Supplies(h[i].action, h[j].action)
  {
    assert !MustPrecede(o, h[i].action, h[j].action);
  }

  // ----- plans of nodes

  lemma GreedyIsSpaced(o: Options, h: seq<YStep>)
    requires Greedy(o, h) && !o.sequential
    ensures Spaced(o, FromNode(h))
  {
    forall i, j | 0 <= i < j < |h| && MustPrecede(o, h[i].action, h[j].action)
      ensures End(h[i]) <= h[j].init
    {
      assert h[..j][i] == h[i];
      assert h[j].init == LatestEnd(o, h[..j], h[j].action);
    }
  }

  // ----- steps that are free to change places

  /** Steps that a sort may leave in either order, or turn round, commute. */
  ghost predicate FreeToSort(h: seq<Step>) {
    forall i, j :: 0 <= i < j < |h| && !PrecedesInPlan(h[i], h[j]) ==> Commutes(h[i].action, h[j].action)
  }

  /** The step that is sorted first commutes with all the steps before it. */
  lemma FirstCommutes(h: seq<Step>, t: seq<Step>, p: nat, i: nat)
    requires FreeToSort(h) && Ordered(PrecedesInPlan, t) && Arrangement(t, h) && i < p < |h| == |t| && h[p] == t[0]
    ensures Commutes(h[i].action, h[p].action)
  {
    var m := PositionIn(t, h, h[i]);
    assert !PrecedesInPlan(t[m], t[0]);
  }

  lemma ActionsAround(h: seq<Step>, p: nat)
    requires p < |h|
    ensures StepActions(h) == StepActions(h[..p]) + [h[p].action] + StepActions(h[p + 1..])
    ensures StepActions(h[..p] + h[p + 1..]) == StepActions(h[..p]) + StepActions(h[p + 1..])
  {
  }

  lemma FreeWithout(h: seq<Step>, p: nat)
    requires FreeToSort(h) && p < |h|
    ensures FreeToSort(h[..p] + h[p + 1..])
  {
    var rest := h[..p] + h[p + 1..];
    forall i, j | 0 <= i < j < |rest| && !PrecedesInPlan(rest[i], rest[j]) ensures Commutes(rest[i].action, rest[j].action) {
      var k, l := if i < p then i else i + 1, if j < p then j else j + 1;
      assert rest[i] == h[k] && rest[j] == h[l];
    }
  }

  /** The step that is sorted first runs first just as well. */
  lemma FirstRunsFirst(s0: State, h: seq<Step>, t: seq<Step>, p: nat)
    requires FreeToSort(h) && Ordered(PrecedesInPlan, t) && Arrangement(t, h) && p < |h| == |t| && h[p] == t[0]
    requires Executable(s0, StepActions(h))
    ensures SameMeaning(s0, StepActions(h), [h[p].action] + StepActions(h[..p] + h[p + 1..]))
  {
    var a, x, y := h[p].action, StepActions(h[..p]), StepActions(h[p + 1..]);
    forall i | 0 <= i < p ensures Commutes(x[i], a) {
      FirstCommutes(h, t, p, i);
    }
    ActionsAround(h, p);
    MoveToFront(s0, x, a, y);
    assert [a] + x + y == [a] + (x + y);
    ExecuteFirst(s0, a, x + y);
  }

  lemma SameAfterFirst(s0: State, a: Action, p: seq<Action>, q: seq<Action>)
    requires Executable(s0, [a] + p) && SameMeaning(Apply(s0, a), p, q)
    ensures SameMeaning(s0, [a] + p, [a] + q)
  {
    ExecuteFirst(s0, a, p);
    ExecuteFirst(s0, a, q);
  }

  lemma FirstAction(t: seq<Step>)
    requires |t| > 0
    ensures StepActions(t) == [t[0].action] + StepActions(t[1..])
  {
  }

  /** What is left once the first step has run. */
  lemma WithoutFirst(s0: State, h: seq<Step>, t: seq<Step>) returns (a: Action, rest: seq<Step>)
    requires FreeToSort(h) && Ordered(PrecedesInPlan, t) && Arrangement(t, h) && h != [] && Executable(s0, StepActions(h))
    ensures |rest| < |h| && FreeToSort(rest) && Executable(Apply(s0, a), StepActions(rest))
    ensures |t| > 0 && Ordered(PrecedesInPlan, t[1..]) && Arrangement(t[1..], rest)
    ensures SameMeaning(s0, StepActions(h), [a] + StepActions(rest)) && StepActions(t) == [a] + StepActions(t[1..])
  {
    var p := ArrangementRest(t, h);
    FirstRunsFirst(s0, h, t, p);
    FirstAction(t);
    a, rest := h[p].action, h[..p] + h[p + 1..];
    ExecuteFirst(s0, a, StepActions(rest));
    FreeWithout(h, p);
  }

  /** Every sorted arrangement of such steps keeps their meaning: one by one, the first step is moved to the front. */
  lemma {:induction false} FreeStepsKeepMeaning(s0: State, h: seq<Step>, t: seq<Step>)
    requires FreeToSort(h) && Executable(s0, StepActions(h))
    requires Ordered(PrecedesInPlan, t) && Arrangement(t, h)
    ensures SameMeaning(s0, StepActions(h), StepActions(t))
    decreases |h|
  {
    if h == [] {
      assert StepActions(t) == StepActions(h);
    } else {
      var a, rest := WithoutFirst(s0, h, t);
      FreeStepsKeepMeaning(Apply(s0, a), rest, t[1..]);
      SameAfterFirst(s0, a, StepActions(rest), StepActions(t[1..]));
    }
  }

  /** Spaced steps are free to be sorted if all tied ones commute. */
  lemma SpacedAreFree(o: Options, h: seq<Step>)
    requires Spaced(o, h)
    requires forall i, j :: Tied(o, h, i, j) ==> Commutes(h[i].action, h[j].action)
    ensures FreeToSort(h)
  {
    forall i, j | 0 <= i < j < |h| && !PrecedesInPlan(h[i], h[j]) ensures Commutes(h[i].action, h[j].action) {
      if MustPrecede(o, h[i].action, h[j].action) {
        assert Tied(o, h, i, j);
      } else {
        UnrelatedCommute(o, h[i].action, h[j].action);
      }
    }
  }

  /**
   The sorted plan of an action sequence applied greedily from `s0` executes from `s0` and ends
   in the same state, if tied steps commute.
   */
  lemma PlanKeepsMeaning(o: Options, s0: State, h: seq<YStep>, t: seq<Step>)
    requires Greedy(o, h) && Executable(s0, ActionsOf(h))
    requires o.sequential || forall i, j :: Tied(o, FromNode(h), i, j) ==> Commutes(h[i].action, h[j].action)
    requires Ordered(PrecedesInPlan, t) && Arrangement(t, FromNode(h))
    ensures SameMeaning(s0, ActionsOf(h), StepActions(t))
  {
    assert StepActions(FromNode(h)) == ActionsOf(h);
    if !o.sequential {
      GreedyIsSpaced(o, h);
      SpacedAreFree(o, FromNode(h));
    }
    FreeStepsKeepMeaning(s0, FromNode(h), t);
  }

  // ----- exactly when plans keep their meaning

  ghost predicate DistinctIdentifiers(acts: set<Action>) {
    forall a, b :: a in acts && b in acts && a.id == b.id ==> a == b
  }

  /** Two actions without length that can run against the order of their identifiers can change places. */
  predicate TiesCommute(acts: set<Action>) {
    forall a, b :: a in acts && b in acts && a.dur == 0 && b.dur == 0 && b.id < a.id && CanFollow(a, b) ==> Swappable(a, b)
  }

  /** `t` is a plan made of the history `h` of actions applied greedily from `s0`. */
  ghost predicate SortedPlan(o: Options, acts: set<Action>, s0: State, h: seq<YStep>, t: seq<Step>) {
    && (forall i :: 0 <= i < |h| ==> h[i].action in acts)
    && Greedy(o, h) && Executable(s0, ActionsOf(h))
    && Ordered(PrecedesInPlan, t) && Arrangement(t, FromNode(h))
  }

  ghost predicate PlansKeepMeaning(o: Options, acts: set<Action>) {
    forall s0: State, h: seq<YStep>, t: seq<Step> :: SortedPlan(o, acts, s0, h, t) ==> SameMeaning(s0, ActionsOf(h), StepActions(t))
  }

  /** A pair that cannot change places, sorted into a plan that has another meaning. */
  lemma UnswappablePlan(o: Options, acts: set<Action>, a: Action, b: Action)
    requires !o.sequential && a in acts && b in acts && a.dur == 0 && b.dur == 0 && b.id < a.id
    requires CanFollow(a, b) && !Swappable(a, b)
    ensures !PlansKeepMeaning(o, acts)
  {
    var s := UnswappablePair(a, b);
    var h, t := [YStep(a, 0), YStep(b, 0)], [Step(b, 0, 0), Step(a, 0, 0)];
    assert ActionsOf(h) == [a, b] && StepActions(t) == [b, a];
    LengthlessGreedy(o, a, b);
    assert ArrangedBy([1, 0], t, FromNode(h));
    assert SortedPlan(o, acts, s, h, t);
  }

  lemma LengthlessGreedy(o: Options, a: Action, b: Action)
    requires !o.sequential && a.dur == 0
    ensures Greedy(o, [YStep(a, 0), YStep(b, 0)])
  {
    var h := [YStep(a, 0), YStep(b, 0)];
    assert h[..0] == [] && h[..1] == [h[0]];
    var one := [h[0]];
    assert one[..0] == [] && LatestEnd(o, one, b) == 0;
  }

  /**
   Whatever is executed from whatever state, the sorted plan keeps its meaning if and only if
   all actions without length that can run against the order of their identifiers can change places.
   */
  lemma PlansKeepMeaningIff(o: Options, acts: set<Action>)
    requires !o.sequential && DistinctIdentifiers(acts)
    ensures PlansKeepMeaning(o, acts) <==> TiesCommute(acts)
  {
    if TiesCommute(acts) {
      forall s0: State, h: seq<YStep>, t: seq<Step> | SortedPlan(o, acts, s0, h, t) ensures SameMeaning(s0, ActionsOf(h), StepActions(t)) {
        forall i, j | Tied(o, FromNode(h), i, j) ensures Commutes(h[i].action, h[j].action) {
          assert h[i].action in acts && h[j].action in acts;
        }
        PlanKeepsMeaning(o, s0, h, t);
      }
    } else {
      var a, b :| a in acts && b in acts && a.dur == 0 && b.dur == 0 && b.id < a.id && CanFollow(a, b) && !Swappable(a, b);
      UnswappablePlan(o, acts, a, b);
    }
  }

  /** Actions of positive length are never tied. */
  lemma PositiveLengthsAreUntied(o: Options, h: seq<Step>)
    requires forall i :: 0 <= i < |h| ==> h[i].action.dur >= 1
    ensures forall i, j :: !Tied(o, h, i, j)
  {
  }

  /** A tied pair with distinct identifiers is swapped by every sort. */
  lemma TiedStepsAreSwapped(o: Options, h: seq<Step>, t: seq<Step>, pi: seq<nat>, i: nat, j: nat, a: nat, b: nat)
    requires Tied(o, h, i, j) && h[i].action.id != h[j].action.id
    requires Ordered(PrecedesInPlan, t) && ArrangedBy(pi, t, h)
    requires a < |h| && b < |h| && pi[a] == i && pi[b] == j
    ensures b < a
  {
    assert PrecedesInPlan(h[j], h[i]);
  }

  const LATE := Action(3, [], [0], [], 0, 0)
  const EARLY := Action(2, [0], [1], [], 0, 0)

  /**
   Such a swap loses the plan: an action without length that supplies another one, started
   at the same time, sorts behind it when its identifier is larger.
   */
  lemma ZeroLengthPlanBreaks(o: Options, h: seq<YStep>, t: seq<Step>)
    requires o == Options(false, false, {})
    requires h == [YStep(LATE, 0), YStep(EARLY, 0)]
    requires Ordered(PrecedesInPlan, t) && Arrangement(t, FromNode(h))
    ensures Greedy(o, h) && Executable({}, ActionsOf(h))
    ensures !Executable({}, StepActions(t))
  {
    LengthlessGreedy(o, LATE, EARLY);
    ZeroLengthExecutes(ActionsOf(h));
    var pi :| ArrangedBy(pi, t, FromNode(h));
    assert pi[0] == 1 by {
      assert !PrecedesInPlan(t[1], t[0]);
    }
    assert StepActions(t)[..0] == [] && StepActions(t)[0] == EARLY;
    assert 0 in EARLY.prec;
    assert !Applicable(After({}, StepActions(t)[..0]), StepActions(t)[0]);
  }

  lemma ZeroLengthExecutes(p: seq<Action>)
    requires p == [LATE, EARLY]
    ensures Executable({}, p)
  {
    assert p[..0] == [] && p[..1] == [] + [LATE];
    ExecuteOneMore({}, [], LATE);
    assert 0 in LATE.add;
  }

  // ----- building the plan

  /** Copies the steps of one node, the last one first, to the places that end before `end`. */
  method CopySteps(plan: array<Step>, steps: seq<YStep>, end: nat) returns (start: nat)
    requires |steps| <= end <= plan.Length
    modifies plan
    ensures start == end - |steps|
    ensures plan[..] == old(plan[..start]) + FromNode(steps) + old(plan[end..])
  {
    start := end;
    var i := |steps|;
    while i > 0
      invariant 0 <= i <= |steps| && start == end - |steps| + i
      invariant forall k :: 0 <= k < start ==> plan[k] == old(plan[k])
      invariant forall k :: start <= k < end ==> plan[k] == FromNode(steps)[k - (end - |steps|)]
      invariant forall k :: end <= k < plan.Length ==> plan[k] == old(plan[k])
    {
      i := i - 1;
      start := start - 1;
      plan[start] := Step(steps[i].action, steps[i].init, 0);
    }
  }

  lemma FromNodeSplit(h: seq<YStep>, below: seq<YStep>, steps: seq<YStep>)
    requires below + steps <= h
    ensures FromNode(h)[|below|..|below| + |steps|] == FromNode(steps)
  {
    assert forall i :: 0 <= i < |steps| ==> h[|below| + i] == (below + steps)[|below| + i] == steps[i];
  }

  /** One more node copied. */
  lemma CopiedOneMore(h: seq<YStep>, below: seq<YStep>, steps: seq<YStep>, after: seq<Step>)
    requires below + steps <= h && after == FromNode(h)[|below| + |steps|..]
    ensures FromNode(steps) + after == FromNode(h)[|below|..]
  {
    var end := |below| + |steps|;
    FromNodeSplit(h, below, steps);
    assert FromNode(h)[|below|..] == FromNode(h)[|below|..end] + FromNode(h)[end..];
  }

  /** Fills in the steps of one node of the chain, ahead of those of the nodes below it. */
  method CopyNode(plan: array<Step>, node: Node, ghost h: seq<YStep>, length: nat) returns (start: nat)
    requires node.Valid() && |node.history| == length <= plan.Length == |h| && node.history <= h
    requires plan[length..] == FromNode(h)[length..]
    modifies plan
    ensures start == (if node.parent == null then 0 else |node.parent.history|) <= plan.Length
    ensures plan[start..] == FromNode(h)[start..]
  {
    ghost var after := plan[length..];
    ghost var below: seq<YStep> := if node.parent == null then [] else node.parent.history;
    CopiedOneMore(h, below, node.steps, after);
    start := CopySteps(plan, node.steps, length);
    assert plan[start..] == FromNode(node.steps) + after;
  }

  /** The steps of a node and of those above it, filled in from the last one on. */
  method CollectSteps(node: Node) returns (plan: array<Step>)
    requires node.Valid()
    ensures fresh(plan) && plan[..] == FromNode(node.history)
  {
    plan := new Step[node.length](_ => NO_STEP);
    ghost var h := node.history;
    var length := node.length;
    var tmp: Node? := node;
    while tmp != null
      invariant 0 <= length <= plan.Length == |h|
      invariant tmp != null ==> tmp.Valid() && |tmp.history| == length && tmp.history <= h
      invariant tmp == null ==> length == 0
      invariant plan[length..] == FromNode(h)[length..]
      decreases if tmp == null then {} else tmp.chain
    {
      length := CopyNode(plan, tmp, h, length);
      tmp := tmp.parent;
    }
  }

  method CreateSolutionPlan(node: Node) returns (plan: array<Step>, makespan: int)
    requires node.Valid()
    ensures fresh(plan) && makespan == node.makespan
    ensures Ordered(PrecedesInPlan, plan[..])
    ensures Arrangement(plan[..], FromNode(node.history))
  {
    makespan := node.makespan;
    plan := CollectSteps(node);
    PlanOrderIsAcyclic(plan[..]);
    Sort(PrecedesInPlan, plan);
  }

  // ----- laying plans end to end

  function Flatten(plans: seq<seq<Step>>): seq<Step> {
    if plans == [] then [] else Flatten(plans[..|plans| - 1]) + plans[|plans| - 1]
  }

  /** Same actions as `flat`, in the same order, with times of their own. */
  ghost predicate Retimed(h: seq<Step>, flat: seq<Step>) {
    |h| == |flat| && forall i :: 0 <= i < |h| ==> h[i].action == flat[i].action
  }

  /** What the rescheduling guarantees: consecutive starts, or steps spaced as they must. */
  ghost predicate Rescheduled(o: Options, h: seq<Step>, makespan: int) {
    && (o.sequential ==> forall i :: 0 <= i < |h| ==> h[i].init == i + 1 && h[i].end == i + 2)
    && (!o.sequential ==> Spaced(o, h) && forall i :: 0 <= i < |h| ==> h[i].end == h[i].init + h[i].action.dur)
    && (forall i :: 0 <= i < |h| ==> h[i].end <= makespan)
  }

  /**
   Why step `i` starts when it does: at once, with the end of an earlier step that must precede it, or, if it must
   precede itself, at the end that it carries from its own plan.
   */
  ghost predicate StartsWithReason(o: Options, h: seq<Step>, carried: Step, i: nat)
    requires i < |h|
  {
    && h[i].init >= 0
    && (forall j :: 0 <= j < i && MustPrecede(o, h[j].action, h[i].action) ==> h[j].end <= h[i].init)
    && (MustPrecede(o, h[i].action, h[i].action) ==> carried.end <= h[i].init)
    && (|| h[i].init == 0
        || (exists j :: 0 <= j < i && MustPrecede(o, h[j].action, h[i].action) && h[i].init == h[j].end)
        || (MustPrecede(o, h[i].action, h[i].action) && h[i].init == carried.end))
  }

  /** No step starts later than it has to, and some step ends with the plan; in sequential mode one step follows the other. */
  ghost predicate Compact(o: Options, h: seq<Step>, flat: seq<Step>, makespan: int) {
    && |h| == |flat| && (makespan == 0 || exists i :: 0 <= i < |h| && h[i].end == makespan)
    && (!o.sequential ==> forall i :: 0 <= i < |h| ==> StartsWithReason(o, h, flat[i], i))
  }

  lemma CompactOneMore(o: Options, h: seq<Step>, flat: seq<Step>, makespan: int, x: Step, s: Step, finish: int)
    requires Compact(o, h, flat, makespan) && x.action == s.action && finish == Max(makespan, x.end)
    requires !o.sequential ==> StartsWithReason(o, h + [x], s, |h|)
    ensures Compact(o, h + [x], flat + [s], finish)
  {
    var more := h + [x];
    if !o.sequential {
      forall i | 0 <= i < |h| ensures StartsWithReason(o, more, (flat + [s])[i], i) {
        assert StartsWithReason(o, h, flat[i], i);
        assert forall j :: 0 <= j <= i ==> more[j] == h[j];
      }
    }
    if finish == makespan != 0 {
      var i :| 0 <= i < |h| && h[i].end == makespan;
      assert more[i].end == finish;
    } else {
      assert more[|h|].end == x.end;
    }
  }

  /**
   The backward scan for the start of the last step of `done`.  The step itself is scanned
   too, with whatever end it carries; the scan stops when the start reaches the makespan.
   */
  method CompressedStart(o: Options, done: seq<Step>, makespan: int) returns (init: int)
    requires |done| > 0 && makespan >= 0
    requires forall i :: 0 <= i < |done| - 1 ==> done[i].end <= makespan
    ensures init >= 0
    ensures forall i :: 0 <= i < |done| && MustPrecede(o, done[i].action, done[|done| - 1].action)
                        ==> done[i].end <= init
    ensures init == 0 || exists i :: 0 <= i < |done|
                                     && MustPrecede(o, done[i].action, done[|done| - 1].action)
                                     && done[i].end == init
  {
    var s := done[|done| - 1];
    init := 0;
    var k := |done|;
    while k > 0
      invariant 0 <= k <= |done| && init >= 0
      invariant forall i :: k <= i < |done| && MustPrecede(o, done[i].action, s.action) ==> done[i].end <= init
      invariant init == 0 || exists i :: k <= i < |done| && MustPrecede(o, done[i].action, s.action) && done[i].end == init
    {
      k := k - 1;
      if o.sequential || MustPrecede(o, done[k].action, s.action) {
        if init < done[k].end {
          init := done[k].end;
        }
        if init == makespan {
          return;
        }
      }
    }
  }

  /** What the scan finds is a reason to start there. */
  lemma StartReason(o: Options, steps: seq<Step>, s: Step, init: int, end: int)
    requires init >= 0
    requires forall i :: 0 <= i < |steps + [s]| && MustPrecede(o, (steps + [s])[i].action, s.action) ==> (steps + [s])[i].end <= init
    requires init == 0 || exists i :: 0 <= i < |steps + [s]| && MustPrecede(o, (steps + [s])[i].action, s.action)
                                      && (steps + [s])[i].end == init
    ensures StartsWithReason(o, steps + [Step(s.action, init, end)], s, |steps|)
  {
    var done, more := steps + [s], steps + [Step(s.action, init, end)];
    assert forall j :: 0 <= j < |steps| ==> more[j] == steps[j] == done[j];
    assert done[|steps|] == s;
  }

  /** Appends `s` to the rescheduled steps, at the start they allow. */
  method AppendCompressed(o: Options, steps: seq<Step>, makespan: int, s: Step) returns (more: seq<Step>, finish: int)
    requires Rescheduled(o, steps, makespan) && makespan >= 0
    ensures |more| == |steps| + 1 && more[..|steps|] == steps && more[|steps|].action == s.action
    ensures Rescheduled(o, more, finish) && finish >= 0
    ensures finish == Max(makespan, more[|steps|].end)
    ensures !o.sequential ==> StartsWithReason(o, more, s, |steps|)
  {
    var init := |steps| + 1;
    var end := init + 1;
    if !o.sequential {
      init := CompressedStart(o, steps + [s], makespan);
      end := init + s.action.dur;
      StartReason(o, steps, s, init, end);
      SpacedOneMore(o, steps, s, init, end);
    }
    more := steps + [Step(s.action, init, end)];
    finish := Max(makespan, end);
  }

  lemma RetimedOneMore(h: seq<Step>, flat: seq<Step>, x: Step, s: Step)
    requires Retimed(h, flat) && x.action == s.action
    ensures Retimed(h + [x], flat + [s])
  {
  }

  /** What is kept while plans are laid end to end: `flat` holds the steps with the times of their own plans. */
  ghost predicate Compressing(o: Options, h: seq<Step>, flat: seq<Step>, makespan: int) {
    Retimed(h, flat) && Rescheduled(o, h, makespan) && Compact(o, h, flat, makespan) && makespan >= 0
  }

  method AppendNext(o: Options, steps: seq<Step>, makespan: int, s: Step, ghost flat: seq<Step>) returns (more: seq<Step>, finish: int)
    requires Compressing(o, steps, flat, makespan)
    ensures Compressing(o, more, flat + [s], finish)
  {
    more, finish := AppendCompressed(o, steps, makespan, s);
    CompressingOneMore(o, steps, flat, makespan, s, more, finish);
  }

  lemma SplitLast(h: seq<Step>)
    requires h != []
    ensures h == h[..|h| - 1] + [h[|h| - 1]]
  {
  }

  lemma PrefixOneMore(before: seq<Step>, plan: seq<Step>, i: nat)
    requires i < |plan|
    ensures before + plan[..i] + [plan[i]] == before + plan[..i + 1]
  {
  }

  lemma CompressingOneMore(o: Options, h: seq<Step>, flat: seq<Step>, makespan: int, s: Step, more: seq<Step>, finish: int)
    requires Compressing(o, h, flat, makespan) && |more| == |h| + 1 && more[..|h|] == h && more[|h|].action == s.action
    requires Rescheduled(o, more, finish) && finish >= 0 && finish == Max(makespan, more[|h|].end)
    requires !o.sequential ==> StartsWithReason(o, more, s, |h|)
    ensures Compressing(o, more, flat + [s], finish)
  {
    var x := more[|h|];
    SplitLast(more);
    RetimedOneMore(h, flat, x, s);
    CompactOneMore(o, h, flat, makespan, x, s, finish);
  }

  /** Appends the steps of one plan. */
  method AppendPlan(o: Options, steps: seq<Step>, makespan: int, plan: seq<Step>, ghost before: seq<Step>)
      returns (more: seq<Step>, finish: int)
    requires Compressing(o, steps, before, makespan)
    ensures Compressing(o, more, before + plan, finish)
  {
    more, finish := steps, makespan;
    assert before + plan[..0] == before;
    var i := 0;
    while i < |plan|
      invariant 0 <= i <= |plan| && Compressing(o, more, before + plan[..i], finish)
    {
      more, finish := AppendNext(o, more, finish, plan[i], before + plan[..i]);
      PrefixOneMore(before, plan, i);
      i := i + 1;
    }
    assert plan[..i] == plan;
  }

  lemma FlattenOneMore(plans: seq<seq<Step>>, p: nat)
    requires p < |plans|
    ensures Flatten(plans[..p + 1]) == Flatten(plans[..p]) + plans[p]
  {
    assert plans[..p + 1][..p] == plans[..p];
  }

  /** The successive plans laid end to end, and retimed. */
  method LayEndToEnd(o: Options, plans: seq<seq<Step>>) returns (steps: seq<Step>, makespan: int)
    ensures Compressing(o, steps, Flatten(plans), makespan)
  {
    makespan := 0;
    steps := [];
    var p := 0;
    while p < |plans|
      invariant 0 <= p <= |plans| && Compressing(o, steps, Flatten(plans[..p]), makespan)
    {
      steps, makespan := AppendPlan(o, steps, makespan, plans[p], Flatten(plans[..p]));
      FlattenOneMore(plans, p);
      p := p + 1;
    }
    assert plans[..|plans|] == plans;
  }

  /** The successive plans as one, rescheduled; `h` is the concatenation before the sort. */
  method CompressPlans(o: Options, plans: seq<seq<Step>>) returns (plan: array<Step>, makespan: int, ghost h: seq<Step>)
    ensures fresh(plan)
    ensures Retimed(h, Flatten(plans)) && Rescheduled(o, h, makespan) && Compact(o, h, Flatten(plans), makespan)
    ensures Ordered(PrecedesInPlan, plan[..]) && Arrangement(plan[..], h)
  {
    var steps: seq<Step>;
    steps, makespan := LayEndToEnd(o, plans);
    h := steps;
    plan := new Step[|steps|](i requires 0 <= i < |steps| => steps[i]);
    assert plan[..] == h;
    PlanOrderIsAcyclic(plan[..]);
    Sort(PrecedesInPlan, plan);
  }

  lemma SpacedOneMore(o: Options, h: seq<Step>, s: Step, init: int, end: int)
    requires Spaced(o, h) && forall i :: 0 <= i < |h| ==> h[i].end == h[i].init + h[i].action.dur
    requires forall i :: 0 <= i < |h + [s]| && MustPrecede(o, (h + [s])[i].action, s.action) ==> (h + [s])[i].end <= init
    ensures Spaced(o, h + [Step(s.action, init, end)])
  {
    forall i | 0 <= i < |h| && MustPrecede(o, h[i].action, s.action) ensures h[i].end <= init {
      assert (h + [s])[i] == h[i];
    }
  }

  /**
   Plans that execute one after the other from `s0` still do after compression, and reach
   the same state, if tied steps commute.
   */
  lemma CompressionKeepsMeaning(o: Options, s0: State, flat: seq<Step>, h: seq<Step>, makespan: int, t: seq<Step>)
    requires Executable(s0, StepActions(flat))
    requires Retimed(h, flat) && Rescheduled(o, h, makespan)
    requires o.sequential || forall i, j :: Tied(o, h, i, j) ==> Commutes(h[i].action, h[j].action)
    requires Ordered(PrecedesInPlan, t) && Arrangement(t, h)
    ensures SameMeaning(s0, StepActions(flat), StepActions(t))
  {
    assert StepActions(h) == StepActions(flat);
    if !o.sequential {
      SpacedAreFree(o, h);
    }
    FreeStepsKeepMeaning(s0, h, t);
  }

  /** `t` is the sorted compression of `flat`, whose steps execute from `s0`. */
  ghost predicate CompressedPlan(o: Options, acts: set<Action>, s0: State, flat: seq<Step>, h: seq<Step>, t: seq<Step>) {
    && (forall i :: 0 <= i < |flat| ==> flat[i].action in acts)
    && Executable(s0, StepActions(flat)) && Retimed(h, flat) && (exists makespan :: Rescheduled(o, h, makespan))
    && Ordered(PrecedesInPlan, t) && Arrangement(t, h)
  }

  ghost predicate CompressionsKeepMeaning(o: Options, acts: set<Action>) {
    forall s0: State, flat: seq<Step>, h: seq<Step>, t: seq<Step> :: CompressedPlan(o, acts, s0, flat, h, t) ==> SameMeaning(s0, StepActions(flat), StepActions(t))
  }

  lemma UnswappableCompression(o: Options, acts: set<Action>, a: Action, b: Action)
    requires !o.sequential && a in acts && b in acts && a.dur == 0 && b.dur == 0 && b.id < a.id
    requires CanFollow(a, b) && !Swappable(a, b)
    ensures !CompressionsKeepMeaning(o, acts)
  {
    var s := UnswappablePair(a, b);
    var h, t := [Step(a, 0, 0), Step(b, 0, 0)], [Step(b, 0, 0), Step(a, 0, 0)];
    assert StepActions(h) == [a, b] && StepActions(t) == [b, a];
    assert ArrangedBy([1, 0], t, h) && Rescheduled(o, h, 0);
    assert CompressedPlan(o, acts, s, h, h, t);
  }

  /** Compression keeps the meaning of all plans under exactly the same condition. */
  lemma CompressionsKeepMeaningIff(o: Options, acts: set<Action>)
    requires !o.sequential && DistinctIdentifiers(acts)
    ensures CompressionsKeepMeaning(o, acts) <==> TiesCommute(acts)
  {
    if TiesCommute(acts) {
      forall s0: State, flat: seq<Step>, h: seq<Step>, t: seq<Step> | CompressedPlan(o, acts, s0, flat, h, t)
        ensures SameMeaning(s0, StepActions(flat), StepActions(t))
      {
        var makespan :| Rescheduled(o, h, makespan);
        forall i, j | Tied(o, h, i, j) ensures Commutes(h[i].action, h[j].action) {
          assert flat[i].action in acts && flat[j].action in acts;
        }
        CompressionKeepsMeaning(o, s0, flat, h, makespan, t);
      }
    } else {
      var a, b :| a in acts && b in acts && a.dur == 0 && b.dur == 0 && b.id < a.id && CanFollow(a, b) && !Swappable(a, b);
      UnswappableCompression(o, acts, a, b);
    }
  }
}
