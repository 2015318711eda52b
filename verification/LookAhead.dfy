/**
 The lookahead of the YAHSP planner: as many actions of a relaxed plan as possible are
 applied for real, and an action that cannot be applied may be replaced by another producer
 of a fluent it was picked for.
 */
module LookAhead {
  import opened Basics
  import opened Counting
  import opened Planning
  import opened PlanBuilding
  import opened CostFixpoint
  import opened CostEvaluation
  import opened Comparisons

  /** An entry of the relaxed plan that is still to be applied; index 1 is the goal. */
  predicate Pending(p: Problem, entry: Option<nat>) {
    entry.Some? && entry.value != 1 && entry.value < |p.actions|
  }

  predicate Ready(p: Problem, s: State, entry: Option<nat>) {
    Pending(p, entry) && Applicable(s, p.actions[entry.value])
  }

  ghost predicate SomeReady(p: Problem, s: State, plan: seq<Option<nat>>) {
    exists k :: 0 <= k < |plan| && Ready(p, s, plan[k])
  }

  ghost function PendingCount(p: Problem, plan: seq<Option<nat>>): nat {
    if plan == [] then 0 else (if Pending(p, plan[0]) then 1 else 0) + PendingCount(p, plan[1..])
  }

  lemma {:induction false} PendingCountUpdate(p: Problem, plan: seq<Option<nat>>, i: nat, entry: Option<nat>)
    requires i < |plan| && Pending(p, plan[i])
    ensures PendingCount(p, plan[i := entry]) == PendingCount(p, plan) - if Pending(p, entry) then 0 else 1
  {
    if i == 0 {
      assert plan[i := entry][1..] == plan[1..];
    } else {
      assert plan[i := entry][1..] == plan[1..][i - 1 := entry];
      PendingCountUpdate(p, plan[1..], i - 1, entry);
    }
  }

  lemma {:induction false} GoalIsNotPending(p: Problem, plan: seq<Option<nat>>, k: nat)
    requires k < |plan| && !Pending(p, plan[k])
    ensures PendingCount(p, plan) < |plan|
  {
    if k > 0 {
      GoalIsNotPending(p, plan[1..], k - 1);
    } else {
      PendingAtMost(p, plan[1..]);
    }
  }

  lemma {:induction false} PendingAtMost(p: Problem, plan: seq<Option<nat>>)
    ensures PendingCount(p, plan) <= |plan|
  {
    if plan != [] {
      PendingAtMost(p, plan[1..]);
    }
  }

  // ----- replacing an action that cannot be applied

  /**
   `x` was picked for the precondition `f` of `y`; `prod` provides it too and is applicable.
   `missing` is the state in which `f` must be absent.
   */
  predicate Repairs(p: Problem, missing: State, s: State, x: nat, y: nat, f: Fluent, prod: nat) {
    && x < |p.actions| && y < |p.actions| && prod < |p.actions|
    && f in p.actions[x].add && f !in missing && f in p.actions[y].prec
    && f in p.actions[prod].add && prod != x && prod != y && prod > 1 && Applicable(s, p.actions[prod])
  }

  ghost predicate PairRepairable(p: Problem, missing: State, s: State, x: nat, y: nat) {
    exists f, prod :: Repairs(p, missing, s, x, y, f, prod)
  }

  /** Of all producers that would do for `f`, none is better. */
  ghost predicate BestRepair(p: Problem, ob: Objective, ai: seq<int>, missing: State, s: State, x: nat, y: nat, f: Fluent, best: nat) {
    && |ai| == |p.actions| && Repairs(p, missing, s, x, y, f, best)
    && forall q: nat :: Repairs(p, missing, s, x, y, f, q) ==> CompareForPlan(p, ob, ai, q, best) != Better
  }

  /** The scan of the effects of `x` for one that `y` needs and another producer provides. */
  method RepairPair(e: Evaluation, missing: State, s: State, x: nat, y: nat, random: bool) returns (best: Option<nat>)
    requires e.Valid() && x < |e.problem.actions| && y < |e.problem.actions|
    ensures best.Some? ==> exists f :: BestRepair(e.problem, e.objective, e.ainit[..], missing, s, x, y, f, best.value)
    ensures best.None? ==> !PairRepairable(e.problem, missing, s, x, y)
  {
    var p := e.problem;
    var add := p.actions[x].add;
    var j := 0;
    best := None;
    while j < |add|
      invariant 0 <= j <= |add| && best.None?
      invariant forall k, prod :: 0 <= k < j ==> !Repairs(p, missing, s, x, y, add[k], prod)
    {
      if add[j] !in missing && add[j] in p.actions[y].prec {
        var usable := (prod: nat) =>
          prod != x && prod != y && prod > 1 && prod < |p.actions| && Applicable(s, p.actions[prod]);
        best := BestProducer(p, e.objective, e.ainit, add[j], usable, random);
        if best.Some? {
          assert BestRepair(p, e.objective, e.ainit[..], missing, s, x, y, add[j], best.value);
          return;
        }
      }
      j := j + 1;
    }
  }

  predicate Pair(p: Problem, plan: seq<Option<nat>>, i: nat, b: nat) {
    i < |plan| && b < |plan| && Pending(p, plan[i]) && Pending(p, plan[b]) && plan[i] != plan[b]
  }

  /** Entry `i` can be replaced by `best`, for a fluent that entry `b` needs of it. */
  ghost predicate Replaceable(p: Problem, ob: Objective, ai: seq<int>, missing: State, s: State, plan: seq<Option<nat>>,
                              i: nat, b: nat, best: nat) {
    Pair(p, plan, i, b) && exists f :: BestRepair(p, ob, ai, missing, s, plan[i].value, plan[b].value, f, best)
  }

  /** No pair ahead of that of `i` and `b` can be repaired. */
  ghost predicate NoneBefore(p: Problem, missing: State, s: State, plan: seq<Option<nat>>, i: nat, b: nat) {
    forall k: nat, c: nat :: (k < i || (k == i && c < b)) && Pair(p, plan, k, c)
                             ==> !PairRepairable(p, missing, s, plan[k].value, plan[c].value)
  }

  /** The first pair of pending actions that can be repaired, and its repair. */
  method FindRepair(e: Evaluation, missing: State, s: State, plan: array<Option<nat>>, random: bool)
      returns (i: nat, ghost b: nat, best: Option<nat>)
    requires e.Valid()
    ensures best.Some? ==> i < plan.Length && Pending(e.problem, plan[i]) && Ready(e.problem, s, best)
    ensures best.Some? ==> Replaceable(e.problem, e.objective, e.ainit[..], missing, s, plan[..], i, b, best.value)
    ensures best.Some? ==> NoneBefore(e.problem, missing, s, plan[..], i, b)
    ensures best.None? ==> forall k: nat, b: nat :: Pair(e.problem, plan[..], k, b)
                             ==> !PairRepairable(e.problem, missing, s, plan[k].value, plan[b].value)
  {
    var p := e.problem;
    i, b := 0, 0;
    best := None;
    while i < plan.Length
      invariant 0 <= i <= plan.Length && best.None?
      invariant forall k: nat, b: nat :: k < i && Pair(p, plan[..], k, b)
                  ==> !PairRepairable(p, missing, s, plan[k].value, plan[b].value)
    {
      var y := 0;
      while y < plan.Length
        invariant 0 <= y <= plan.Length && best.None?
        invariant forall c: nat :: c < y && Pair(p, plan[..], i, c)
                    ==> !PairRepairable(p, missing, s, plan[i].value, plan[c].value)
      {
        if Pending(p, plan[i]) && Pending(p, plan[y]) && plan[i] != plan[y] {
          best := RepairPair(e, missing, s, plan[i].value, plan[y].value, random);
          if best.Some? {
            b := y;
            assert Pair(p, plan[..], i, b);
            return;
          }
        }
        y := y + 1;
      }
      i := i + 1;
    }
  }

  // ----- the lookahead

  /** Entry `i` is the first that can be applied. */
  ghost predicate FirstReadyAt(p: Problem, s: State, plan: seq<Option<nat>>, i: nat) {
    i < |plan| && Ready(p, s, plan[i]) && forall k :: 0 <= k < i ==> !Ready(p, s, plan[k])
  }

  method FirstReady(p: Problem, s: State, plan: array<Option<nat>>) returns (i: nat)
    ensures i <= plan.Length
    ensures i < plan.Length ==> FirstReadyAt(p, s, plan[..], i)
    ensures i == plan.Length ==> !SomeReady(p, s, plan[..])
  {
    i := 0;
    while i < plan.Length && !Ready(p, s, plan[i])
      invariant 0 <= i <= plan.Length
      invariant forall k :: 0 <= k < i ==> !Ready(p, s, plan[k])
    {
      i := i + 1;
    }
  }

  /** Applies an action to the node under construction. */
  method ApplyTo(work: Node, a: Action, ghost s0: State)
    requires work.Valid() && work.parent != null && work.Reached(s0) && Applicable(work.state, a)
    modifies work`state, work`makespan, work`steps, work`length, work`cost, work`history
    ensures work.Valid() && work.Reached(s0) && work.history == work.parent.history + work.steps
    ensures |work.steps| == old(|work.steps|) + 1 && work.steps[..old(|work.steps|)] == old(work.steps)
    ensures work.steps[old(|work.steps|)].action == a
  {
    GreedyExtension(work.opt, work.history, s0, a);
    work.ApplyAction(a);
  }

  /** Applies one entry of the plan and clears it. */
  method ApplyEntry(p: Problem, work: Node, plan: array<Option<nat>>, i: nat, ghost s0: State)
    requires work.Valid() && work.parent != null && work.Reached(s0)
    requires i < plan.Length && Ready(p, work.state, plan[i])
    modifies plan, work`state, work`makespan, work`steps, work`length, work`cost, work`history
    ensures work.Valid() && work.Reached(s0)
    ensures plan[..] == old(plan[..])[i := None]
    ensures |work.steps| == old(|work.steps|) + 1 && work.steps[..old(|work.steps|)] == old(work.steps)
    ensures work.steps[old(|work.steps|)].action == p.actions[old(plan[i]).value]
    ensures work.history == work.parent.history + work.steps
    ensures PendingCount(p, plan[..]) == old(PendingCount(p, plan[..])) - 1
  {
    ghost var entries := plan[..];
    PendingCountUpdate(p, entries, i, None);
    ApplyTo(work, p.actions[plan[i].value], s0);
    plan[i] := None;
    assert plan[..] == entries[i := None];
  }

  /** Puts a repair in place of an entry; the lookahead can then go on. */
  method ReplaceEntry(p: Problem, ghost s: State, plan: array<Option<nat>>, i: nat, best: Option<nat>)
    requires i < plan.Length && Pending(p, plan[i]) && Ready(p, s, best)
    modifies plan
    ensures plan[..] == old(plan[..])[i := best]
    ensures PendingCount(p, plan[..]) == old(PendingCount(p, plan[..])) && SomeReady(p, s, plan[..])
  {
    ghost var entries := plan[..];
    PendingCountUpdate(p, entries, i, best);
    plan[i] := best;
    assert plan[..] == entries[i := best];
    assert Ready(p, s, plan[..][i]);
  }

  /** No pending entry can be applied or repaired. */
  ghost predicate Exhausted(p: Problem, missing: State, s: State, plan: seq<Option<nat>>) {
    && !SomeReady(p, s, plan)
    && forall i: nat, b: nat :: Pair(p, plan, i, b) ==> !PairRepairable(p, missing, s, plan[i].value, plan[b].value)
  }

  /** What a round lowers: a repair leads to an application, which uses up an entry. */
  ghost function Fuel(p: Problem, s: State, plan: seq<Option<nat>>): nat {
    2 * PendingCount(p, plan) + if SomeReady(p, s, plan) then 0 else 1
  }

  /** The first entry that can be applied has been, and is used up. */
  ghost predicate AppliesFirst(p: Problem, s: State, plan: seq<Option<nat>>, steps: seq<YStep>, i: nat,
                               plan': seq<Option<nat>>, steps': seq<YStep>) {
    && FirstReadyAt(p, s, plan, i) && plan' == plan[i := None]
    && |steps'| == |steps| + 1 && steps'[..|steps|] == steps && steps'[|steps|].action == p.actions[plan[i].value]
  }

  /** No entry could be applied, and one has been replaced, of the first pair that allows it. */
  ghost predicate ReplacesOne(p: Problem, ob: Objective, ai: seq<int>, missing: State, s: State, plan: seq<Option<nat>>,
                              i: nat, b: nat, plan': seq<Option<nat>>) {
    && !SomeReady(p, s, plan) && i < |plan| == |plan'| && plan'[i].Some? && plan' == plan[i := plan'[i]]
    && Ready(p, s, plan'[i])
    && Replaceable(p, ob, ai, missing, s, plan, i, b, plan'[i].value) && NoneBefore(p, missing, s, plan, i, b)
  }

  /** A round in which no entry can be applied. */
  method RepairRound(e: Evaluation, missing: State, s: State, plan: array<Option<nat>>, random: bool)
      returns (done: bool, ghost i: nat, ghost b: nat)
    requires e.Valid() && !SomeReady(e.problem, s, plan[..])
    modifies plan
    ensures done ==> plan[..] == old(plan[..]) && Exhausted(e.problem, missing, s, plan[..])
    ensures !done ==> ReplacesOne(e.problem, e.objective, e.ainit[..], missing, s, old(plan[..]), i, b, plan[..])
    ensures !done ==> PendingCount(e.problem, plan[..]) == old(PendingCount(e.problem, plan[..])) && SomeReady(e.problem, s, plan[..])
  {
    var k, best;
    k, b, best := FindRepair(e, missing, s, plan, random);
    i := k;
    done := best.None?;
    if best.Some? {
      ReplaceEntry(e.problem, s, plan, k, best);
    }
  }

  /** One round from the label at the top: an application, or failing that a repair, or neither. */
  method LookAheadRound(e: Evaluation, node: Node, work: Node, plan: array<Option<nat>>, dae: bool, random: bool,
                        ghost s0: State) returns (done: bool, ghost i: nat, ghost b: nat)
    requires e.Valid() && work.Valid() && work.parent == node && work.Reached(s0) && node != work
    modifies plan, work`state, work`makespan, work`steps, work`length, work`cost, work`history
    ensures work.Valid() && work.Reached(s0)
    ensures work.history == node.history + work.steps
    ensures done ==> Exhausted(e.problem, if dae then node.state else work.state, work.state, plan[..])
    ensures |work.steps| + PendingCount(e.problem, plan[..]) == old(|work.steps| + PendingCount(e.problem, plan[..]))
    ensures |work.steps| == old(|work.steps|) ==> work.steps == old(work.steps) && work.makespan == old(work.makespan)
    ensures |work.steps| == old(|work.steps|) ==> work.state == old(work.state)
    ensures done ==> plan[..] == old(plan[..]) && work.steps == old(work.steps)
    ensures |work.steps| != old(|work.steps|) ==>
              AppliesFirst(e.problem, old(work.state), old(plan[..]), old(work.steps), i, plan[..], work.steps)
    ensures !done && |work.steps| == old(|work.steps|) ==>
              ReplacesOne(e.problem, e.objective, e.ainit[..], if dae then node.state else work.state, work.state, old(plan[..]),
                          i, b, plan[..])
    ensures done ==> Fuel(e.problem, work.state, plan[..]) == old(Fuel(e.problem, work.state, plan[..]))
    ensures !done ==> Fuel(e.problem, work.state, plan[..]) < old(Fuel(e.problem, work.state, plan[..]))
  {
    var first := FirstReady(e.problem, work.state, plan);
    i, b := first, 0;
    if first < plan.Length {
      ApplyEntry(e.problem, work, plan, first, s0);
      done := false;
    } else {
      done, i, b := RepairRound(e, if dae then node.state else work.state, work.state, plan, random);
    }
  }

  // ----- which actions are applied

  /** The action provides a fluent for which another entry may need entry `i`. */
  ghost predicate Substitutes(p: Problem, plan: seq<Option<nat>>, i: nat, a: Action)
    requires i < |plan| && Pending(p, plan[i])
  {
    exists b: nat, f :: b < |plan| && Pending(p, plan[b]) && plan[b] != plan[i] && f in p.actions[plan[b].value].prec
                        && f in p.actions[plan[i].value].add && f in a.add
  }

  /** The action is that of entry `i`, or a substitute for it. */
  ghost predicate StandsFor(p: Problem, plan: seq<Option<nat>>, i: nat, a: Action) {
    i < |plan| && Pending(p, plan[i]) && (a == p.actions[plan[i].value] || Substitutes(p, plan, i, a))
  }

  /** The steps stand for distinct entries of the plan, which are used up. */
  ghost predicate Emitted(p: Problem, plan: seq<Option<nat>>, slots: seq<nat>, steps: seq<YStep>) {
    |slots| == |steps| && NoDuplicates(slots) && forall k :: 0 <= k < |slots| ==> StandsFor(p, plan, slots[k], steps[k].action)
  }

  /** What is left of the plan: entry `rep` has been replaced, those in `slots` are used up, the others are as they were. */
  ghost predicate LeftOver(p: Problem, plan: seq<Option<nat>>, slots: seq<nat>, rep: Option<nat>, now: seq<Option<nat>>) {
    && |now| == |plan|
    && forall i :: 0 <= i < |plan| ==>
         if i in slots then now[i] == None
         else if rep == Some(i) then Pending(p, now[i]) && StandsFor(p, plan, i, p.actions[now[i].value])
         else now[i] == plan[i]
  }

  /** The replaced entry, if there is one, is the only one that can be applied. */
  ghost predicate OnlyReady(p: Problem, s: State, rep: Option<nat>, now: seq<Option<nat>>) {
    rep.Some? ==> rep.value < |now| && Ready(p, s, now[rep.value])
                  && forall k :: 0 <= k < |now| && k != rep.value ==> !Ready(p, s, now[k])
  }

  lemma EmittedOneMore(p: Problem, plan: seq<Option<nat>>, slots: seq<nat>, rep: Option<nat>, s: State,
                       now: seq<Option<nat>>, steps: seq<YStep>, i: nat, now': seq<Option<nat>>, steps': seq<YStep>)
    requires Emitted(p, plan, slots, steps) && LeftOver(p, plan, slots, rep, now) && OnlyReady(p, s, rep, now)
    requires AppliesFirst(p, s, now, steps, i, now', steps')
    ensures Emitted(p, plan, slots + [i], steps') && LeftOver(p, plan, slots + [i], None, now')
  {
    assert rep.Some? ==> i == rep.value;
    assert i !in slots && StandsFor(p, plan, i, p.actions[now[i].value]);
    forall k | 0 <= k < |steps'| ensures StandsFor(p, plan, (slots + [i])[k], steps'[k].action) {
      assert k < |steps| ==> steps'[k] == steps[k];
    }
  }

  lemma OnlyReadyIsReady(p: Problem, s: State, rep: Option<nat>, now: seq<Option<nat>>)
    requires OnlyReady(p, s, rep, now)
    ensures rep.Some? ==> SomeReady(p, s, now)
  {
  }

  lemma ReplacedStands(p: Problem, ob: Objective, ai: seq<int>, missing: State, s: State, plan: seq<Option<nat>>,
                       slots: seq<nat>, rep: Option<nat>, now: seq<Option<nat>>, i: nat, b: nat, now': seq<Option<nat>>)
    requires LeftOver(p, plan, slots, rep, now) && OnlyReady(p, s, rep, now)
    requires ReplacesOne(p, ob, ai, missing, s, now, i, b, now')
    ensures rep.None? && LeftOver(p, plan, slots, Some(i), now') && OnlyReady(p, s, Some(i), now')
  {
    OnlyReadyIsReady(p, s, rep, now);
    var f :| BestRepair(p, ob, ai, missing, s, now[i].value, now[b].value, f, now'[i].value);
    assert now[i] == plan[i] && now[b] == plan[b];
    assert Substitutes(p, plan, i, p.actions[now'[i].value]);
  }

  /** What the rounds keep: the steps so far, and what is left of the plan. */
  ghost predicate Following(p: Problem, plan: seq<Option<nat>>, slots: seq<nat>, rep: Option<nat>, s: State,
                            now: seq<Option<nat>>, steps: seq<YStep>) {
    Emitted(p, plan, slots, steps) && LeftOver(p, plan, slots, rep, now) && OnlyReady(p, s, rep, now)
  }

  lemma RoundFollows(p: Problem, ob: Objective, ai: seq<int>, missing: State, plan: seq<Option<nat>>, slots: seq<nat>, rep: Option<nat>,
                     s: State, now: seq<Option<nat>>, steps: seq<YStep>, i: nat, b: nat,
                     s': State, now': seq<Option<nat>>, steps': seq<YStep>) returns (slots': seq<nat>, rep': Option<nat>)
    requires Following(p, plan, slots, rep, s, now, steps)
    requires AppliesFirst(p, s, now, steps, i, now', steps')
             || (s' == s && steps' == steps && (now' == now || ReplacesOne(p, ob, ai, missing, s, now, i, b, now')))
    ensures Following(p, plan, slots', rep', s', now', steps')
    ensures |steps'| != |steps| ==> rep' == None
  {
    slots', rep' := slots, rep;
    if |steps'| != |steps| {
      EmittedOneMore(p, plan, slots, rep, s, now, steps, i, now', steps');
      slots', rep' := slots + [i], None;
    } else if now' != now {
      ReplacedStands(p, ob, ai, missing, s, plan, slots, rep, now, i, b, now');
      rep' := Some(i);
    }
  }

  /** In the end nothing is left replaced. */
  lemma FollowedToEnd(p: Problem, plan: seq<Option<nat>>, slots: seq<nat>, rep: Option<nat>, s: State,
                      now: seq<Option<nat>>, steps: seq<YStep>)
    requires Following(p, plan, slots, rep, s, now, steps) && (rep == None || !SomeReady(p, s, now))
    ensures Emitted(p, plan, slots, steps)
    ensures |now| == |plan| && forall i :: 0 <= i < |now| ==> now[i] == if i in slots then None else plan[i]
  {
    OnlyReadyIsReady(p, s, rep, now);
  }

  /** One round, with the books kept of which entries have been used. */
  method FollowRound(e: Evaluation, node: Node, work: Node, plan: array<Option<nat>>, dae: bool, random: bool, ghost s0: State,
                     ghost entries: seq<Option<nat>>, ghost slots: seq<nat>, ghost rep: Option<nat>)
      returns (done: bool, ghost slots': seq<nat>, ghost rep': Option<nat>)
    requires e.Valid() && work.Valid() && work.parent == node && work.Reached(s0) && node != work
    requires Following(e.problem, entries, slots, rep, work.state, plan[..], work.steps)
    modifies plan, work`state, work`makespan, work`steps, work`length, work`cost, work`history
    ensures work.Valid() && work.Reached(s0) && work.history == node.history + work.steps
    ensures Following(e.problem, entries, slots', rep', work.state, plan[..], work.steps)
    ensures work.steps != old(work.steps) ==> rep' == None && !done
    ensures done ==> Exhausted(e.problem, if dae then node.state else work.state, work.state, plan[..])
    ensures |work.steps| + PendingCount(e.problem, plan[..]) == old(|work.steps| + PendingCount(e.problem, plan[..]))
    ensures work.steps == old(work.steps) ==> work.makespan == old(work.makespan)
    ensures done ==> Fuel(e.problem, work.state, plan[..]) == old(Fuel(e.problem, work.state, plan[..]))
    ensures !done ==> Fuel(e.problem, work.state, plan[..]) < old(Fuel(e.problem, work.state, plan[..]))
  {
    ghost var s, now, steps := work.state, plan[..], work.steps;
    ghost var i, b;
    done, i, b := LookAheadRound(e, node, work, plan, dae, random, s0);
    slots', rep' := RoundFollows(e.problem, e.objective, e.ainit[..], if dae then node.state else s, entries, slots, rep,
                                 s, now, steps, i, b, work.state, plan[..], work.steps);
  }

  /** Rounds until nothing is left to do, or the makespan exceeds the bound. */
  method FollowAll(e: Evaluation, node: Node, work: Node, plan: array<Option<nat>>, bestMakespan: int, dae: bool, random: bool,
                   ghost s0: State) returns (within: bool, ghost slots: seq<nat>)
    requires e.Valid() && work.Valid() && work.parent == node && work.Reached(s0) && node != work
    requires work.steps == [] && work.history == node.history
    modifies plan, work`state, work`makespan, work`steps, work`length, work`cost, work`history
    ensures work.Valid() && work.Reached(s0) && work.history == node.history + work.steps
    ensures |work.steps| <= old(PendingCount(e.problem, plan[..])) && Emitted(e.problem, old(plan[..]), slots, work.steps)
    ensures forall i :: 0 <= i < plan.Length ==> plan[i] == if i in slots then None else old(plan[i])
    ensures if within then work.steps == [] || work.makespan <= bestMakespan else work.makespan > bestMakespan
    ensures within ==> Exhausted(e.problem, if dae then node.state else work.state, work.state, plan[..])
  {
    ghost var pending, entries := PendingCount(e.problem, plan[..]), plan[..];
    ghost var rep: Option<nat> := None;
    slots, within := [], true;
    var done := false;
    while !done && within
      invariant work.Valid() && work.Reached(s0) && work.history == node.history + work.steps
      invariant |work.steps| + PendingCount(e.problem, plan[..]) == pending
      invariant if within then work.steps == [] || work.makespan <= bestMakespan else work.makespan > bestMakespan
      invariant done ==> Exhausted(e.problem, if dae then node.state else work.state, work.state, plan[..])
      invariant Following(e.problem, entries, slots, rep, work.state, plan[..], work.steps)
      invariant !within ==> rep == None
      decreases Fuel(e.problem, work.state, plan[..]), !done
    {
      done, slots, rep := FollowRound(e, node, work, plan, dae, random, s0, entries, slots, rep);
      within := work.steps == [] || work.makespan <= bestMakespan;
    }
    FollowedToEnd(e.problem, entries, slots, rep, work.state, plan[..], work.steps);
    assert forall i :: 0 <= i < plan.Length ==> plan[i] == plan[..][i];
  }

  /**
   Applies the entries of `plan` from `node`.  `dae` selects the state in which a repaired
   fluent must be absent: that of `node`, or that of the node under construction.  `h` is
   the history reached, also when the node is given up for exceeding the makespan bound.
   */
  method ApplyRelaxedPlan(e: Evaluation, node: Node, plan: array<Option<nat>>, bestMakespan: int, dae: bool, random: bool,
                          ghost s0: State) returns (son: Node?, ghost h: seq<YStep>, ghost slots: seq<nat>)
    requires e.Valid() && node.Valid() && node.Reached(s0)
    modifies plan
    ensures node.history <= h && Greedy(node.opt, h) && Executable(s0, ActionsOf(h))
    ensures |h| - |node.history| <= old(PendingCount(e.problem, plan[..]))
    ensures Emitted(e.problem, old(plan[..]), slots, h[|node.history|..])
    ensures forall i :: 0 <= i < plan.Length ==> plan[i] == if i in slots then None else old(plan[i])
    ensures son == null ==> Makespan(node.opt, h) > bestMakespan
    ensures son != null ==>
              && fresh(son) && son.Valid() && son.Reached(s0) && son.history == h
              && son.parent == node && h == node.history + son.steps
              && (son.steps == [] || son.makespan <= bestMakespan)
    ensures son != null ==> Exhausted(e.problem, if dae then node.state else son.state, son.state, plan[..])
  {
    var work := new Node.Derive(node);
    var within;
    within, slots := FollowAll(e, node, work, plan, bestMakespan, dae, random, s0);
    h := work.history;
    assert h[|node.history|..] == work.steps;
    son := if within then work else null;
  }
}
