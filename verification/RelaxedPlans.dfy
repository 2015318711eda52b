/**
 Extraction of a relaxed plan from the costs of one state: starting from the goal, the best
 producer of every open precondition is picked once.  Actions are named by their index;
 index 1 stands for the goal of the current subproblem.
 */
module RelaxedPlans {
  import opened Counting
  import opened Planning
  import opened CostFixpoint
  import opened CostEvaluation
  import opened Comparisons
  import VectorSort

  function Preconditions(p: Problem, a: nat): seq<Fluent> {
    if a == 1 then p.goal.prec else if a < |p.actions| then p.actions[a].prec else []
  }

  function Additions(p: Problem, a: nat): seq<Fluent> {
    if 2 <= a < |p.actions| then p.actions[a].add else []
  }

  /** `f` is in the state or added by an action listed before position `n`. */
  ghost predicate Available(p: Problem, s: State, plan: seq<nat>, n: nat, f: Fluent) {
    f in s || exists m :: 0 <= m < n && m < |plan| && f in Additions(p, plan[m])
  }

  /** A plan for the problem without deletions. */
  ghost predicate RelaxedExecutable(p: Problem, s: State, plan: seq<nat>) {
    forall k, f :: 0 <= k < |plan| && f in Preconditions(p, plan[k]) ==> Available(p, s, plan, k, f)
  }

  // ----- what the costs promise

  /** Action `a` adds `f` and costs less than `f`. */
  ghost predicate Cheaper(p: Problem, ai: seq<int>, fi: seq<int>, f: Fluent, a: nat) {
    2 <= a < |p.actions| && f in p.actions[a].add && a < |ai| && f < |fi| && ai[a] < fi[f]
  }

  ghost predicate Reachable(p: Problem, ai: seq<int>, a: nat) {
    1 <= a < |p.actions| && a < |ai| && ai[a] < MAXTIME
  }

  ghost predicate Affordable(p: Problem, ai: seq<int>, fi: seq<int>, a: nat)
    requires a < |ai|
  {
    forall k :: 0 <= k < |Preconditions(p, a)| ==> Preconditions(p, a)[k] < |fi| && fi[Preconditions(p, a)[k]] <= ai[a]
  }

  /** Preconditions cost no more than their action; outside the state, an adder costs still less. */
  ghost predicate CheaplySupplied(p: Problem, s: State, ai: seq<int>, fi: seq<int>) {
    && |ai| == |p.actions| && |fi| == p.fluents
    && (forall a: nat :: Reachable(p, ai, a) ==> Affordable(p, ai, fi, a))
    && (forall f :: 0 <= f < |fi| && f !in s && fi[f] < MAXTIME ==> exists a: nat :: Cheaper(p, ai, fi, f, a))
  }

  lemma EvaluatedCost(p: Problem, ob: Objective, s: State, ai: seq<int>, fi: seq<int>, xs: seq<nat>, hit: bool, a: nat)
    requires WellFormed(p) && Evaluated(p, ob, s, ai, fi, xs, hit) && ai[1] < MAXTIME && Reachable(p, ai, a)
    ensures Affordable(p, ai, fi, a)
  {
    CostBounds(ob, fi, Preconditions(p, a));
    if a == 1 {
      assert ai[p.goal.id] == Cost(ob, fi, p.goal.prec);
    } else {
      assert ai[a] == if hit then Cost(ob, fi, p.actions[a].prec) else CappedCost(ob, fi, p.actions[a].prec);
    }
  }

  lemma EvaluatedIsSupplied(p: Problem, ob: Objective, s: State, ai: seq<int>, fi: seq<int>, xs: seq<nat>, hit: bool)
    requires WellFormed(p) && Evaluated(p, ob, s, ai, fi, xs, hit) && ai[1] < MAXTIME
    ensures CheaplySupplied(p, s, ai, fi)
  {
    forall a: nat | Reachable(p, ai, a) ensures Affordable(p, ai, fi, a) {
      EvaluatedCost(p, ob, s, ai, fi, xs, hit, a);
    }
    forall f | 0 <= f < |fi| && f !in s && fi[f] < MAXTIME ensures exists a: nat :: Cheaper(p, ai, fi, f, a) {
      var a: nat :| ReachedBy(p, ob, fi, f, a);
      CheaperProducer(p, ob, s, ai, fi, xs, hit, f, a);
    }
  }

  lemma CheaperProducer(p: Problem, ob: Objective, s: State, ai: seq<int>, fi: seq<int>, xs: seq<nat>, hit: bool, f: Fluent, a: nat)
    requires WellFormed(p) && Evaluated(p, ob, s, ai, fi, xs, hit) && ai[1] < MAXTIME && ReachedBy(p, ob, fi, f, a)
    ensures Cheaper(p, ai, fi, f, a)
  {
    assert ai[p.goal.id] == ai[1];
    assert ai[a] == if hit then Cost(ob, fi, p.actions[a].prec) else CappedCost(ob, fi, p.actions[a].prec);
  }

  /** The best producer of a reachable fluent outside the state costs less than the fluent. */
  lemma BestIsCheaper(p: Problem, ob: Objective, s: State, ai: seq<int>, fi: seq<int>, f: Fluent, usable: nat -> bool, best: nat)
    requires CheaplySupplied(p, s, ai, fi)
    requires f < |fi| && f !in s && fi[f] < MAXTIME
    requires forall b: nat :: usable(b)
    requires IsBest(p, ob, ai, f, usable, best)
    ensures Cheaper(p, ai, fi, f, best)
  {
    var a: nat :| Cheaper(p, ai, fi, f, a);
    assert Cheaper(p, ai, fi, f, a);
    assert CompareForPlan(p, ob, ai, a, best) != Better;
  }

  // ----- the picks

  ghost predicate Supplied(p: Problem, ai: seq<int>, fi: seq<int>, picks: seq<nat>, f: Fluent) {
    exists a: nat :: a in picks && Cheaper(p, ai, fi, f, a)
  }

  /** The picks so far, the goal first and each once, with the marks on actions. */
  ghost predicate Chosen(p: Problem, ai: seq<int>, used: seq<bool>, picks: seq<nat>) {
    && |used| == |ai| == |p.actions|
    && |picks| >= 1 && picks[0] == 1
    && (forall k :: 0 <= k < |picks| ==> Reachable(p, ai, picks[k]) && (k > 0 ==> picks[k] >= 2 && used[picks[k]]))
    && NoDuplicates(picks)
    && (forall a :: 2 <= a < |used| && used[a] ==> a in picks)
  }

  /** Every marked fluent is in the state, or one of the picks adds it. */
  ghost predicate MarksSupplied(p: Problem, s: State, ai: seq<int>, fi: seq<int>, marks: seq<int>, picks: seq<nat>) {
    |marks| == |fi| && forall f :: 0 <= f < |marks| && marks[f] != 0 ==> f in s || Supplied(p, ai, fi, picks, f)
  }

  ghost predicate Picked(p: Problem, s: State, ai: seq<int>, fi: seq<int>, marks: seq<int>, used: seq<bool>, picks: seq<nat>) {
    Chosen(p, ai, used, picks) && MarksSupplied(p, s, ai, fi, marks, picks)
  }

  lemma PicksFit(p: Problem, s: State, ai: seq<int>, fi: seq<int>, marks: seq<int>, used: seq<bool>, picks: seq<nat>)
    requires Picked(p, s, ai, fi, marks, used, picks)
    ensures |picks| < |p.actions|
  {
    var n := |p.actions|;
    forall k | 0 <= k < |picks| ensures picks[k] in Below(n) - {0} {
      assert Reachable(p, ai, picks[k]);
    }
    DistinctCount(picks, Below(n) - {0});
  }

  lemma ChosenOneMore(p: Problem, ai: seq<int>, used: seq<bool>, picks: seq<nat>, best: nat)
    requires Chosen(p, ai, used, picks) && 2 <= best && Reachable(p, ai, best) && !used[best]
    ensures Chosen(p, ai, used[best := true], picks + [best])
  {
    var more := picks + [best];
    forall i, j | 0 <= i < j < |more| ensures more[i] != more[j] {
      assert i == 0 || used[picks[i]];
    }
  }

  lemma SuppliedOneMore(p: Problem, s: State, ai: seq<int>, fi: seq<int>, marks: seq<int>, picks: seq<nat>, more: seq<nat>,
                        f: Fluent, best: nat)
    requires MarksSupplied(p, s, ai, fi, marks, picks) && picks <= more && best in more && Cheaper(p, ai, fi, f, best)
    ensures MarksSupplied(p, s, ai, fi, marks[f := 1], more)
  {
    forall g | 0 <= g < |marks| && g != f && marks[g] != 0 ensures g in s || Supplied(p, ai, fi, more, g) {
      if g !in s {
        var a :| a in picks && Cheaper(p, ai, fi, g, a);
        assert a in more;
      }
    }
    assert Supplied(p, ai, fi, more, f);
  }

  /** Marking `f`, supplied by `best`, which is picked unless it already was. */
  lemma PickedOneMore(p: Problem, s: State, ai: seq<int>, fi: seq<int>, marks: seq<int>, used: seq<bool>, picks: seq<nat>,
                      f: Fluent, best: nat)
    requires Picked(p, s, ai, fi, marks, used, picks) && Cheaper(p, ai, fi, f, best) && fi[f] <= MAXTIME
    ensures Picked(p, s, ai, fi, marks[f := 1], used[best := true], if used[best] then picks else picks + [best])
  {
    if used[best] {
      assert used[best := true] == used && best in picks;
      SuppliedOneMore(p, s, ai, fi, marks, picks, picks, f, best);
    } else {
      ChosenOneMore(p, ai, used, picks, best);
      SuppliedOneMore(p, s, ai, fi, marks, picks, picks + [best], f, best);
    }
  }

  /** The producer that is picked for `f`: one of the best, the first of them unless ties are settled at random. */
  ghost predicate Pickable(p: Problem, ob: Objective, ai: seq<int>, random: bool, f: Fluent, best: nat) {
    && |ai| == |p.actions| && IsBest(p, ob, ai, f, _ => true, best)
    && (!random ==> IsFirst(p, ob, ai, f, _ => true, best))
  }

  /** Pick `k` was made for a precondition of an earlier pick. */
  ghost predicate PickedFor(p: Problem, s: State, choice: map<Fluent, nat>, picks: seq<nat>, k: nat) {
    k < |picks| && exists j, f :: 0 <= j < k && f in Preconditions(p, picks[j]) && f !in s && f in choice && choice[f] == picks[k]
  }

  /** One producer was chosen for every marked fluent outside the state, and picked. */
  ghost predicate Choosing(p: Problem, ob: Objective, s: State, ai: seq<int>, random: bool, choice: map<Fluent, nat>,
                           marks: seq<int>, picks: seq<nat>) {
    && (forall f: Fluent :: f in choice <==> f < |marks| && marks[f] != 0 && f !in s)
    && (forall f: Fluent :: f in choice ==> choice[f] in picks && Pickable(p, ob, ai, random, f, choice[f]))
  }

  /** Nothing else was picked. */
  ghost predicate AllPickedFor(p: Problem, s: State, choice: map<Fluent, nat>, picks: seq<nat>) {
    forall k :: 0 < k < |picks| ==> PickedFor(p, s, choice, picks, k)
  }

  ghost predicate ByChoice(p: Problem, ob: Objective, s: State, ai: seq<int>, random: bool, choice: map<Fluent, nat>,
                           marks: seq<int>, picks: seq<nat>) {
    Choosing(p, ob, s, ai, random, choice, marks, picks) && AllPickedFor(p, s, choice, picks)
  }

  lemma PickedForStays(p: Problem, s: State, choice: map<Fluent, nat>, picks: seq<nat>, k: nat, f: Fluent, best: nat, more: seq<nat>)
    requires PickedFor(p, s, choice, picks, k) && f !in choice && picks <= more
    ensures PickedFor(p, s, choice[f := best], more, k)
  {
    var j, g :| 0 <= j < k && g in Preconditions(p, picks[j]) && g !in s && g in choice && choice[g] == picks[k];
    assert more[j] == picks[j] && more[k] == picks[k] && choice[f := best][g] == more[k];
  }

  lemma AllPickedForOneMore(p: Problem, s: State, choice: map<Fluent, nat>, picks: seq<nat>, i: nat, f: Fluent, best: nat, more: seq<nat>)
    requires AllPickedFor(p, s, choice, picks) && f !in choice && f !in s && i < |picks| && f in Preconditions(p, picks[i])
    requires more == picks || more == picks + [best]
    ensures AllPickedFor(p, s, choice[f := best], more)
  {
    var later := choice[f := best];
    forall k | 0 < k < |more| ensures PickedFor(p, s, later, more, k) {
      if k < |picks| {
        PickedForStays(p, s, choice, picks, k, f, best, more);
      } else {
        assert more[i] == picks[i] && later[f] == more[k];
      }
    }
  }

  lemma ChoosingOneMore(p: Problem, ob: Objective, s: State, ai: seq<int>, random: bool, choice: map<Fluent, nat>,
                        marks: seq<int>, picks: seq<nat>, f: Fluent, best: nat, more: seq<nat>)
    requires Choosing(p, ob, s, ai, random, choice, marks, picks) && Pickable(p, ob, ai, random, f, best)
    requires f < |marks| && f !in s && picks <= more && best in more
    ensures Choosing(p, ob, s, ai, random, choice[f := best], marks[f := 1], more)
  {
    forall g: Fluent | g in choice && g != f ensures choice[g] in more && Pickable(p, ob, ai, random, g, choice[g]) {
      assert choice[g] in picks;
    }
  }

  /** Opening `f` for pick `i`: marks, picks and choice, one step further. */
  lemma OpenedOneMore(p: Problem, ob: Objective, s: State, ai: seq<int>, fi: seq<int>, random: bool, choice: map<Fluent, nat>,
                      marks: seq<int>, used: seq<bool>, picks: seq<nat>, i: nat, f: Fluent, best: nat, more: seq<nat>)
    requires Picked(p, s, ai, fi, marks, used, picks) && ByChoice(p, ob, s, ai, random, choice, marks, picks)
    requires Cheaper(p, ai, fi, f, best) && fi[f] <= MAXTIME && Pickable(p, ob, ai, random, f, best)
    requires f < |marks| && marks[f] == 0 && f !in s && i < |picks| && f in Preconditions(p, picks[i])
    requires more == if used[best] then picks else picks + [best]
    ensures Picked(p, s, ai, fi, marks[f := 1], used[best := true], more)
    ensures ByChoice(p, ob, s, ai, random, choice[f := best], marks[f := 1], more)
  {
    PickedOneMore(p, s, ai, fi, marks, used, picks, f, best);
    if used[best] {
      UsedIsPicked(p, ai, used, picks, best);
    }
    ChoosingOneMore(p, ob, s, ai, random, choice, marks, picks, f, best, more);
    AllPickedForOneMore(p, s, choice, picks, i, f, best, more);
  }

  lemma UsedIsPicked(p: Problem, ai: seq<int>, used: seq<bool>, picks: seq<nat>, a: nat)
    requires Chosen(p, ai, used, picks) && 2 <= a < |used| && used[a]
    ensures a in picks
  {
  }

  ghost predicate Marked(marks: seq<int>, fs: seq<Fluent>) {
    forall j :: 0 <= j < |fs| ==> fs[j] < |marks| && marks[fs[j]] != 0
  }

  /** No mark has been taken away. */
  ghost predicate MarksStay(marks: seq<int>, later: seq<int>) {
    |later| == |marks| && forall f :: 0 <= f < |marks| && marks[f] != 0 ==> later[f] != 0
  }

  lemma MarkedOneMore(marks: seq<int>, later: seq<int>, fs: seq<Fluent>, j: nat)
    requires j < |fs| && fs[j] < |later| && later[fs[j]] != 0 && MarksStay(marks, later) && Marked(marks, fs[..j])
    ensures Marked(later, fs[..j + 1])
  {
    forall k | 0 <= k < j ensures fs[k] < |later| && later[fs[k]] != 0 {
      assert fs[..j][k] == fs[k];
    }
  }

  /** The first `n` picks have all their preconditions marked. */
  ghost predicate Closed(p: Problem, marks: seq<int>, picks: seq<nat>, n: nat) {
    forall k :: 0 <= k < n && k < |picks| ==> Marked(marks, Preconditions(p, picks[k]))
  }

  ghost predicate CostOrdered(ai: seq<int>, plan: seq<nat>) {
    && (forall k :: 0 <= k < |plan| ==> plan[k] < |ai|)
    && forall i, j :: 0 <= i < j < |plan| ==> ai[plan[i]] <= ai[plan[j]]
  }

  /** Any arrangement of the picks in order of cost is a plan for the relaxed problem, without repetition. */
  lemma OrderedPicksExecute(p: Problem, s: State, ai: seq<int>, fi: seq<int>, marks: seq<int>, used: seq<bool>,
                            picks: seq<nat>, plan: seq<nat>)
    requires CheaplySupplied(p, s, ai, fi)
    requires Picked(p, s, ai, fi, marks, used, picks) && Closed(p, marks, picks, |picks|)
    requires CostOrdered(ai, plan) && VectorSort.Arrangement(plan, picks)
    ensures RelaxedExecutable(p, s, plan)
    ensures 1 in plan && NoDuplicates(plan)
  {
    var pi :| VectorSort.ArrangedBy(pi, plan, picks);
    PermutationHits(pi, |picks|, 0);
    forall i, j | 0 <= i < j < |plan| ensures plan[i] != plan[j] {
      if pi[i] < pi[j] {
        assert picks[pi[i]] != picks[pi[j]];
      } else {
        assert picks[pi[j]] != picks[pi[i]];
      }
    }
    forall k, f | 0 <= k < |plan| && f in Preconditions(p, plan[k]) ensures Available(p, s, plan, k, f) {
      PreconditionAvailable(p, s, ai, fi, marks, used, picks, plan, pi, k, f);
    }
  }

  /** An open precondition of a pick has an adder among the picks, which costs less. */
  lemma OpenPickSupplied(p: Problem, s: State, ai: seq<int>, fi: seq<int>, marks: seq<int>, used: seq<bool>,
                         picks: seq<nat>, i: nat, f: Fluent) returns (a: nat)
    requires CheaplySupplied(p, s, ai, fi)
    requires Picked(p, s, ai, fi, marks, used, picks) && Closed(p, marks, picks, |picks|)
    requires i < |picks| && f in Preconditions(p, picks[i]) && f !in s
    ensures a in picks && Cheaper(p, ai, fi, f, a) && picks[i] < |ai| && ai[a] < ai[picks[i]]
  {
    assert Reachable(p, ai, picks[i]) && Affordable(p, ai, fi, picks[i]);
    assert Marked(marks, Preconditions(p, picks[i]));
    assert Supplied(p, ai, fi, picks, f);
    a :| a in picks && Cheaper(p, ai, fi, f, a);
  }

  lemma CheaperComesFirst(ai: seq<int>, picks: seq<nat>, plan: seq<nat>, pi: seq<nat>, k: nat, a: nat) returns (m: nat)
    requires CostOrdered(ai, plan) && VectorSort.ArrangedBy(pi, plan, picks)
    requires k < |plan| && a in picks && a < |ai| && ai[a] < ai[plan[k]]
    ensures m < k && plan[m] == a
  {
    var q :| 0 <= q < |picks| && picks[q] == a;
    PermutationHits(pi, |picks|, q);
    m :| 0 <= m < |picks| && pi[m] == q;
    assert plan[m] == a;
  }

  lemma PreconditionAvailable(p: Problem, s: State, ai: seq<int>, fi: seq<int>, marks: seq<int>, used: seq<bool>,
                              picks: seq<nat>, plan: seq<nat>, pi: seq<nat>, k: nat, f: Fluent)
    requires CheaplySupplied(p, s, ai, fi)
    requires Picked(p, s, ai, fi, marks, used, picks) && Closed(p, marks, picks, |picks|)
    requires CostOrdered(ai, plan) && VectorSort.ArrangedBy(pi, plan, picks)
    requires k < |plan| && f in Preconditions(p, plan[k])
    ensures Available(p, s, plan, k, f)
  {
    assert plan[k] == picks[pi[k]];
    if f !in s {
      var a := OpenPickSupplied(p, s, ai, fi, marks, used, picks, pi[k], f);
      var m := CheaperComesFirst(ai, picks, plan, pi, k, a);
      assert f in Additions(p, plan[m]);
    }
  }

  lemma ClosedOneMore(p: Problem, marks: seq<int>, picks: seq<nat>, i: nat, later: seq<int>, more: seq<nat>)
    requires Closed(p, marks, picks, i) && i < |picks| && picks <= more && |later| == |marks|
    requires MarksStay(marks, later)
    requires Marked(later, Preconditions(p, picks[i]))
    ensures Closed(p, later, more, i + 1)
  {
    forall k | 0 <= k < i + 1 ensures Marked(later, Preconditions(p, more[k])) {
      assert more[k] == picks[k];
      assert k < i ==> Marked(marks, Preconditions(p, picks[k]));
    }
  }

  // ----- the comparison of the sort

  predicate Deletes(a: Action, prec: seq<Fluent>) {
    exists f :: f in prec && f in a.del
  }

  /** Cheaper first, then an action whose precondition the other deletes. */
  predicate PlannedBefore(p: Problem, ai: seq<int>, x: nat, y: nat) {
    && x < |ai| && y < |ai| && x < |p.actions| && y < |p.actions|
    && (ai[x] < ai[y]
        || (ai[x] == ai[y] && Deletes(p.actions[y], Preconditions(p, x)) && !Deletes(p.actions[x], Preconditions(p, y))))
  }

  function PlanOrder(p: Problem, ai: seq<int>): (nat, nat) -> bool {
    (x: nat, y: nat) => PlannedBefore(p, ai, x, y)
  }

  /** What the comparison puts in order is in order of cost. */
  lemma OrderedByCost(p: Problem, ai: seq<int>, plan: seq<nat>)
    requires |ai| == |p.actions| && VectorSort.Ordered(PlanOrder(p, ai), plan) && forall k :: 0 <= k < |plan| ==> plan[k] < |ai|
    ensures CostOrdered(ai, plan)
  {
    forall i, j | 0 <= i < j < |plan| ensures ai[plan[i]] <= ai[plan[j]] {
      assert !PlannedBefore(p, ai, plan[j], plan[i]);
    }
  }

  /** Among picks of equal cost, one whose precondition another deletes comes first, unless it does the same to that one. */
  ghost predicate ThreatenedFirst(p: Problem, ai: seq<int>, plan: seq<nat>) {
    forall i, j :: 0 <= i < j < |plan| && plan[i] < |ai| && plan[j] < |ai| && plan[i] < |p.actions| && plan[j] < |p.actions|
                   && ai[plan[i]] == ai[plan[j]]
                   && (exists f :: f in p.actions[plan[i]].del && f in Preconditions(p, plan[j]))
                   ==> exists f :: f in p.actions[plan[j]].del && f in Preconditions(p, plan[i])
  }

  lemma OrderedThreats(p: Problem, ai: seq<int>, plan: seq<nat>)
    requires VectorSort.Ordered(PlanOrder(p, ai), plan)
    ensures ThreatenedFirst(p, ai, plan)
  {
    forall i, j | 0 <= i < j < |plan| && plan[i] < |ai| && plan[j] < |ai| && plan[i] < |p.actions| && plan[j] < |p.actions|
                  && ai[plan[i]] == ai[plan[j]]
                  && (exists f :: f in p.actions[plan[i]].del && f in Preconditions(p, plan[j]))
      ensures exists f :: f in p.actions[plan[j]].del && f in Preconditions(p, plan[i])
    {
      assert !PlannedBefore(p, ai, plan[j], plan[i]);
      assert Deletes(p.actions[plan[i]], Preconditions(p, plan[j]));
    }
  }

  lemma PlanOrderIrreflexive(p: Problem, ai: seq<int>)
    ensures VectorSort.Irreflexive(PlanOrder(p, ai))
  {
  }

  /** Action `y` deletes a precondition of `x`, and not the other way round. */
  predicate Endangers(p: Problem, y: nat, x: nat)
    requires x < |p.actions| && y < |p.actions|
  {
    Deletes(p.actions[y], Preconditions(p, x)) && !Deletes(p.actions[x], Preconditions(p, y))
  }

  /** Actions of equal cost, each of which endangers the next one, and the last one the first. */
  ghost predicate ThreatRing(p: Problem, ai: seq<int>, c: seq<nat>) {
    && |c| > 0 && |ai| == |p.actions|
    && (forall i :: 0 <= i < |c| ==> c[i] < |ai|)
    && (forall i :: 0 <= i < |c| ==> ai[c[i]] == ai[c[0]])
    && (forall i, j :: 0 <= i < j < |c| && j == i + 1 ==> Endangers(p, c[i], c[j]))
    && Endangers(p, c[|c| - 1], c[0])
  }

  ghost predicate NoRingAmong(p: Problem, ai: seq<int>, picks: seq<nat>) {
    forall c :: ThreatRing(p, ai, c) ==> exists i :: 0 <= i < |c| && c[i] !in picks
  }

  /** Along a chain of the comparison the costs never rise. */
  lemma {:induction false} CostsFall(p: Problem, ai: seq<int>, c: seq<nat>, i: nat, j: nat)
    requires VectorSort.Climbing(PlanOrder(p, ai), c) && i <= j < |c| && forall k :: 0 <= k < |c| ==> c[k] < |ai|
    ensures ai[c[j]] <= ai[c[i]]
    decreases j
  {
    if i < j {
      CostsFall(p, ai, c, i, j - 1);
      assert PlannedBefore(p, ai, c[j], c[j - 1]);
    }
  }

  lemma CycleIsThreatRing(p: Problem, ai: seq<int>, picks: seq<nat>, c: seq<nat>)
    requires |ai| == |p.actions| && VectorSort.IsCycle(PlanOrder(p, ai), picks, c)
    ensures ThreatRing(p, ai, c)
  {
    var n := |c| - 1;
    assert PlannedBefore(p, ai, c[0], c[n]);
    forall i | 0 <= i <= n ensures c[i] < |ai| {
      if i > 0 {
        assert PlannedBefore(p, ai, c[i], c[i - 1]);
      }
    }
    forall i | 0 <= i <= n ensures ai[c[i]] == ai[c[0]] {
      CostsFall(p, ai, c, 0, i);
      CostsFall(p, ai, c, i, n);
    }
    forall i, j | 0 <= i < j <= n && j == i + 1 ensures Endangers(p, c[i], c[j]) {
      assert PlannedBefore(p, ai, c[j], c[i]);
    }
  }

  lemma ThreatRingIsCycle(p: Problem, ai: seq<int>, picks: seq<nat>, c: seq<nat>)
    requires ThreatRing(p, ai, c) && forall i :: 0 <= i < |c| ==> c[i] in picks
    ensures VectorSort.IsCycle(PlanOrder(p, ai), picks, c)
  {
    forall i, j | 0 <= i < j < |c| && j == i + 1 ensures PlanOrder(p, ai)(c[j], c[i]) {
      assert Endangers(p, c[i], c[j]) && ai[c[i]] == ai[c[j]];
    }
  }

  /** The sort of the picks stops exactly if no picks of equal cost endanger each other round a ring. */
  lemma SortStopsIff(p: Problem, ai: seq<int>, picks: seq<nat>)
    requires |ai| == |p.actions|
    ensures VectorSort.Stops(PlanOrder(p, ai), picks) <==> NoRingAmong(p, ai, picks)
  {
    PlanOrderIrreflexive(p, ai);
    VectorSort.StopsIffAcyclic(PlanOrder(p, ai), picks);
    forall c | VectorSort.IsCycle(PlanOrder(p, ai), picks, c) ensures ThreatRing(p, ai, c) {
      CycleIsThreatRing(p, ai, picks, c);
    }
    forall c | ThreatRing(p, ai, c) && forall i :: 0 <= i < |c| ==> c[i] in picks
      ensures VectorSort.IsCycle(PlanOrder(p, ai), picks, c)
    {
      ThreatRingIsCycle(p, ai, picks, c);
    }
  }

  /** Each of three actions deletes a precondition of the next, round a circle. */
  predicate CircularThreats(p: Problem, a: nat, b: nat, c: nat) {
    && 2 <= a < |p.actions| && 2 <= b < |p.actions| && 2 <= c < |p.actions|
    && Deletes(p.actions[b], p.actions[a].prec) && !Deletes(p.actions[a], p.actions[b].prec)
    && Deletes(p.actions[c], p.actions[b].prec) && !Deletes(p.actions[b], p.actions[c].prec)
    && Deletes(p.actions[a], p.actions[c].prec) && !Deletes(p.actions[c], p.actions[a].prec)
  }

  /** A relaxed plan that holds three such actions of equal cost is never sorted: the loop does not end. */
  lemma CircularThreatsNeverSort(p: Problem, ai: seq<int>, picks: seq<nat>, a: nat, b: nat, c: nat)
    requires |ai| == |p.actions| && CircularThreats(p, a, b, c) && ai[a] == ai[b] == ai[c]
    requires a in picks && b in picks && c in picks
    ensures !VectorSort.Stops(PlanOrder(p, ai), picks)
  {
    var round := [c, b, a];
    assert ThreatRing(p, ai, round);
    SortStopsIff(p, ai, picks);
  }

  /** Needs one fluent of the state, adds one part of the goal, and deletes what the action before it in the circle needs. */
  function RingAction(a: nat): Action
    requires 2 <= a <= 4
  {
    Action(a, [a - 2], [a + 1], [if a == 2 then 2 else a - 3], 1, 0)
  }

  /** Three such actions, all of them needed for the goal. */
  ghost predicate IsRing(p: Problem) {
    && WellFormed(p) && |p.actions| == 5 && p.fluents == 6 && p.goal.prec == [3, 4, 5]
    && forall a :: 2 <= a <= 4 ==> p.actions[a] == RingAction(a)
  }

  function RingProblem(): Problem {
    var start, goal := Action(0, [], [0, 1, 2], [], 0, 0), Action(1, [3, 4, 5], [], [], 0, 0);
    Problem([start, goal, RingAction(2), RingAction(3), RingAction(4)], goal, 6)
  }

  lemma RingProblemIsRing()
    ensures IsRing(RingProblem())
  {
    var p := RingProblem();
    forall a | 0 <= a < |p.actions|
      ensures p.actions[a].id == a && Known(p, p.actions[a].prec) && Known(p, p.actions[a].add) && Known(p, p.actions[a].del)
    {
      if a >= 2 {
        assert p.actions[a] == RingAction(a);
      }
    }
  }

  /** One of the three is free, and reaches what it adds at its own cost. */
  lemma RingCost(p: Problem, ob: Objective, fi: seq<int>, a: nat)
    requires IsRing(p) && IsSolution(p, ob, {0, 1, 2}, fi) && 2 <= a <= 4
    ensures Cost(ob, fi, p.actions[a].prec) == 0 && 0 <= fi[a + 1] <= 2
  {
    var prec := p.actions[a].prec;
    assert prec[0] in {0, 1, 2} && fi[prec[0]] == 0;
    CostZeroIff(ob, fi, prec);
    CostBounds(ob, fi, prec);
    assert a + 1 in p.actions[a].add;
  }

  lemma GoalCost(ob: Objective, fi: seq<int>, goal: seq<Fluent>)
    requires goal == [3, 4, 5] && |fi| == 6 && InRange(fi) && fi[3] <= 2 && fi[4] <= 2 && fi[5] <= 2
    ensures Cost(ob, fi, goal) <= 6
  {
    var two, one := goal[..2], goal[..1];
    assert two[..1] == one && one[..0] == [];
    assert Total(fi, one) == fi[3];
    assert two[|two| - 1] == 4 && Total(fi, two) == fi[3] + fi[4];
    assert goal[..|goal| - 1] == two && Total(fi, goal) == fi[3] + fi[4] + fi[5];
  }

  lemma RingGoalCost(p: Problem, ob: Objective, ai: seq<int>, fi: seq<int>, xs: seq<nat>, hit: bool)
    requires IsRing(p) && Evaluated(p, ob, {0, 1, 2}, ai, fi, xs, hit)
    ensures ai[1] <= 6
  {
    RingCost(p, ob, fi, 2);
    RingCost(p, ob, fi, 3);
    RingCost(p, ob, fi, 4);
    GoalCost(ob, fi, p.goal.prec);
  }

  /** Applicable at once, the three cost the same, and the goal is reachable. */
  lemma RingCosts(p: Problem, ob: Objective, ai: seq<int>, fi: seq<int>, xs: seq<nat>, hit: bool)
    requires IsRing(p) && Evaluated(p, ob, {0, 1, 2}, ai, fi, xs, hit)
    ensures ai[1] < MAXTIME && ai[2] == ai[3] == ai[4] == 0
  {
    RingGoalCost(p, ob, ai, fi, xs, hit);
    forall a: nat | 2 <= a <= 4 ensures ai[a] == 0 {
      RingCost(p, ob, fi, a);
      assert ai[p.goal.id] == ai[1];
    }
  }

  /** Whatever is picked, the only action that adds a part of the goal is. */
  lemma RingIsPicked(p: Problem, ai: seq<int>, fi: seq<int>, marks: seq<int>, used: seq<bool>, picks: seq<nat>, a: nat)
    requires IsRing(p) && Picked(p, {0, 1, 2}, ai, fi, marks, used, picks) && Closed(p, marks, picks, |picks|)
    requires 2 <= a <= 4
    ensures a in picks
  {
    assert Marked(marks, Preconditions(p, picks[0]));
    assert p.goal.prec[a - 2] == a + 1;
    assert marks[a + 1] != 0 && Supplied(p, ai, fi, picks, a + 1);
    var b :| b in picks && Cheaper(p, ai, fi, a + 1, b);
    assert a + 1 in p.actions[b].add;
  }

  lemma RingIsCircular(p: Problem)
    requires IsRing(p)
    ensures CircularThreats(p, 2, 3, 4)
  {
    assert 0 in p.actions[2].prec && 1 in p.actions[3].prec && 2 in p.actions[4].prec;
    assert 2 in p.actions[2].del && 0 in p.actions[3].del && 1 in p.actions[4].del;
  }

  /** In such a problem the sort of every relaxed plan runs forever. */
  lemma RingNeverSorts(p: Problem, ob: Objective, ai: seq<int>, fi: seq<int>, xs: seq<nat>, hit: bool,
                       marks: seq<int>, used: seq<bool>, picks: seq<nat>)
    requires IsRing(p) && Evaluated(p, ob, {0, 1, 2}, ai, fi, xs, hit)
    requires Picked(p, {0, 1, 2}, ai, fi, marks, used, picks) && Closed(p, marks, picks, |picks|)
    ensures !VectorSort.Stops(PlanOrder(p, ai), picks)
  {
    RingCosts(p, ob, ai, fi, xs, hit);
    RingIsPicked(p, ai, fi, marks, used, picks, 2);
    RingIsPicked(p, ai, fi, marks, used, picks, 3);
    RingIsPicked(p, ai, fi, marks, used, picks, 4);
    RingIsCircular(p);
    CircularThreatsNeverSort(p, ai, picks, 2, 3, 4);
  }

  // ----- the extraction

  /** Opens one precondition of pick `i`: unless it is marked, marks it and picks its best producer. */
  method OpenPrecondition(e: Evaluation, ghost s: State, ghost ai: seq<int>, ghost fi: seq<int>, ghost choice: map<Fluent, nat>,
                          picks: seq<nat>, ghost i: nat, f: Fluent, random: bool)
      returns (more: seq<nat>, ghost later: map<Fluent, nat>)
    requires e.Valid() && e.ainit[..] == ai && CheaplySupplied(e.problem, s, ai, fi)
    requires Picked(e.problem, s, ai, fi, e.finit[..], e.aused[..], picks)
    requires ByChoice(e.problem, e.objective, s, ai, random, choice, e.finit[..], picks)
    requires f < e.finit.Length && (e.finit[f] == 0 ==> f !in s && fi[f] < MAXTIME)
    requires i < |picks| && f in Preconditions(e.problem, picks[i])
    modifies e.finit, e.aused
    ensures Picked(e.problem, s, ai, fi, e.finit[..], e.aused[..], more)
    ensures ByChoice(e.problem, e.objective, s, ai, random, later, e.finit[..], more)
    ensures picks <= more
    ensures e.finit[f] != 0
    ensures MarksStay(old(e.finit[..]), e.finit[..])
  {
    more, later := picks, choice;
    if e.finit[f] == 0 {
      ghost var marks, used := e.finit[..], e.aused[..];
      var best := CheapProducer(e, s, ai, fi, f, random);
      e.finit[f] := 1;
      if !e.aused[best] {
        e.aused[best] := true;
        more := picks + [best];
      }
      assert e.aused[..] == used[best := true] && e.finit[..] == marks[f := 1];
      OpenedOneMore(e.problem, e.objective, s, ai, fi, random, choice, marks, used, picks, i, f, best, more);
      later := choice[f := best];
    }
  }

  /** The best producer of a reachable fluent outside of the state; there is always one, and it costs less. */
  method CheapProducer(e: Evaluation, ghost s: State, ghost ai: seq<int>, ghost fi: seq<int>, f: Fluent, random: bool)
      returns (best: nat)
    requires e.Valid() && e.ainit[..] == ai && CheaplySupplied(e.problem, s, ai, fi)
    requires f < |fi| && f !in s && fi[f] < MAXTIME
    ensures Cheaper(e.problem, ai, fi, f, best) && Pickable(e.problem, e.objective, ai, random, f, best)
  {
    var b := BestProducer(e.problem, e.objective, e.ainit, f, _ => true, random);
    ghost var a: nat :| Cheaper(e.problem, ai, fi, f, a);
    BestIsCheaper(e.problem, e.objective, s, ai, fi, f, _ => true, b.value);
    best := b.value;
  }

  /** Picks actions until every precondition of every pick is marked. */
  method CollectRelaxedPlan(e: Evaluation, s: State, random: bool) returns (picks: seq<nat>, ghost choice: map<Fluent, nat>)
    requires e.Valid() && CheaplySupplied(e.problem, s, e.ainit[..], e.finit[..]) && e.ainit[1] < MAXTIME
    modifies e.finit, e.aused
    ensures |picks| < |e.problem.actions|
    ensures Picked(e.problem, s, e.ainit[..], old(e.finit[..]), e.finit[..], e.aused[..], picks)
    ensures Closed(e.problem, e.finit[..], picks, |picks|)
    ensures ByChoice(e.problem, e.objective, s, e.ainit[..], random, choice, e.finit[..], picks)
  {
    ghost var ai, fi := e.ainit[..], e.finit[..];
    picks, choice := [1], map[];
    forall a | 0 <= a < e.aused.Length {
      e.aused[a] := false;
    }
    forall f | 0 <= f < e.finit.Length {
      e.finit[f] := if f in s then 1 else 0;
    }
    var i := 0;
    while i < |picks|
      invariant 0 <= i <= |picks| && e.ainit[..] == ai
      invariant Picked(e.problem, s, ai, fi, e.finit[..], e.aused[..], picks)
      invariant forall g :: g in s && g < e.finit.Length ==> e.finit[g] != 0
      invariant Closed(e.problem, e.finit[..], picks, i)
      invariant ByChoice(e.problem, e.objective, s, ai, random, choice, e.finit[..], picks)
      decreases |e.problem.actions| - i
    {
      PicksFit(e.problem, s, ai, fi, e.finit[..], e.aused[..], picks);
      ghost var marks := e.finit[..];
      var more, later := OpenPreconditions(e, s, ai, fi, choice, picks, i, random);
      ClosedOneMore(e.problem, marks, picks, i, e.finit[..], more);
      picks, choice := more, later;
      i := i + 1;
    }
    PicksFit(e.problem, s, ai, fi, e.finit[..], e.aused[..], picks);
  }

  /** Opens all preconditions of one pick. */
  method OpenPreconditions(e: Evaluation, ghost s: State, ghost ai: seq<int>, ghost fi: seq<int>, ghost choice: map<Fluent, nat>,
                           picks: seq<nat>, i: nat, random: bool) returns (more: seq<nat>, ghost later: map<Fluent, nat>)
    requires e.Valid() && e.ainit[..] == ai && CheaplySupplied(e.problem, s, ai, fi)
    requires Picked(e.problem, s, ai, fi, e.finit[..], e.aused[..], picks)
    requires forall g :: g in s && g < e.finit.Length ==> e.finit[g] != 0
    requires i < |picks| && ByChoice(e.problem, e.objective, s, ai, random, choice, e.finit[..], picks)
    modifies e.finit, e.aused
    ensures ByChoice(e.problem, e.objective, s, ai, random, later, e.finit[..], more)
    ensures Picked(e.problem, s, ai, fi, e.finit[..], e.aused[..], more)
    ensures MarksStay(old(e.finit[..]), e.finit[..])
    ensures picks <= more
    ensures Marked(e.finit[..], Preconditions(e.problem, picks[i]))
  {
    more, later := picks, choice;
    var prec := Preconditions(e.problem, picks[i]);
    ghost var marks := e.finit[..];
    assert Reachable(e.problem, ai, picks[i]) && Affordable(e.problem, ai, fi, picks[i]);
    var j := 0;
    while j < |prec|
      invariant 0 <= j <= |prec| && picks <= more && e.ainit[..] == ai
      invariant Picked(e.problem, s, ai, fi, e.finit[..], e.aused[..], more)
      invariant MarksStay(marks, e.finit[..]) && Marked(e.finit[..], prec[..j])
      invariant ByChoice(e.problem, e.objective, s, ai, random, later, e.finit[..], more)
    {
      ghost var before := e.finit[..];
      more, later := OpenPrecondition(e, s, ai, fi, later, more, i, prec[j], random);
      MarkedOneMore(before, e.finit[..], prec, j);
      j := j + 1;
    }
    assert prec[..j] == prec;
  }

  /** The picks that are collected for the state when ties are settled by some choice of producers. */
  ghost predicate CollectedBy(p: Problem, ob: Objective, s: State, ai: seq<int>, fi: seq<int>, random: bool,
                              choice: map<Fluent, nat>, marks: seq<int>, used: seq<bool>, picks: seq<nat>) {
    && Picked(p, s, ai, fi, marks, used, picks) && Closed(p, marks, picks, |picks|)
    && ByChoice(p, ob, s, ai, random, choice, marks, picks)
  }

  ghost predicate Collected(p: Problem, ob: Objective, s: State, ai: seq<int>, fi: seq<int>, random: bool, picks: seq<nat>) {
    exists choice, marks, used :: CollectedBy(p, ob, s, ai, fi, random, choice, marks, used, picks)
  }

  /** A plan without deletions that holds the goal and repeats no action. */
  ghost predicate IsRelaxedPlan(p: Problem, s: State, plan: seq<nat>) {
    && RelaxedExecutable(p, s, plan) && 1 in plan && NoDuplicates(plan)
    && forall k :: 0 <= k < |plan| ==> 1 <= plan[k] < |p.actions|
  }

  /** Collected picks, sorted. */
  lemma SortedPicksExecute(p: Problem, ob: Objective, s: State, ai: seq<int>, fi: seq<int>, random: bool, picks: seq<nat>, plan: seq<nat>)
    requires CheaplySupplied(p, s, ai, fi) && Collected(p, ob, s, ai, fi, random, picks)
    requires VectorSort.Ordered(PlanOrder(p, ai), plan) && VectorSort.Arrangement(plan, picks)
    ensures |plan| == |picks| && plan != [] && IsRelaxedPlan(p, s, plan) && ThreatenedFirst(p, ai, plan)
  {
    var choice, marks, used :| CollectedBy(p, ob, s, ai, fi, random, choice, marks, used, picks);
    var pi :| VectorSort.ArrangedBy(pi, plan, picks);
    forall k | 0 <= k < |plan| ensures 1 <= plan[k] < |p.actions| {
      assert Reachable(p, ai, picks[pi[k]]);
    }
    OrderedByCost(p, ai, plan);
    OrderedThreats(p, ai, plan);
    OrderedPicksExecute(p, s, ai, fi, marks, used, picks, plan);
  }

  /** The sort of the picks, when no picks of equal cost endanger each other round a ring. */
  method SortPicks(e: Evaluation, picks: seq<nat>) returns (plan: array<nat>)
    requires e.Valid() && NoRingAmong(e.problem, e.ainit[..], picks)
    ensures fresh(plan) && VectorSort.Ordered(PlanOrder(e.problem, e.ainit[..]), plan[..])
    ensures VectorSort.Arrangement(plan[..], picks)
  {
    plan := new nat[|picks|](i requires 0 <= i < |picks| => picks[i]);
    assert plan[..] == picks;
    PlanOrderIrreflexive(e.problem, e.ainit[..]);
    NoRingNoCycle(e.problem, e.ainit[..], picks);
    VectorSort.Sort(PlanOrder(e.problem, e.ainit[..]), plan);
  }

  lemma NoRingNoCycle(p: Problem, ai: seq<int>, picks: seq<nat>)
    requires |ai| == |p.actions| && NoRingAmong(p, ai, picks)
    ensures VectorSort.Acyclic(PlanOrder(p, ai), picks)
  {
    forall c | VectorSort.IsCycle(PlanOrder(p, ai), picks, c) ensures false {
      CycleIsThreatRing(p, ai, picks, c);
    }
  }

  method CollectPicks(e: Evaluation, s: State, random: bool) returns (picks: seq<nat>)
    requires e.Valid() && CheaplySupplied(e.problem, s, e.ainit[..], e.finit[..]) && e.ainit[1] < MAXTIME
    modifies e.finit, e.aused
    ensures |picks| < |e.problem.actions|
    ensures Collected(e.problem, e.objective, s, e.ainit[..], old(e.finit[..]), random, picks)
  {
    ghost var fi, choice := e.finit[..], map[];
    picks, choice := CollectRelaxedPlan(e, s, random);
    assert CollectedBy(e.problem, e.objective, s, e.ainit[..], fi, random, choice, e.finit[..], e.aused[..], picks);
  }

  /** The relaxed plan of a state whose goal is reachable, when no ring lies among the picks. */
  method ComputeRelaxedPlan(e: Evaluation, s: State, random: bool) returns (plan: array<nat>)
    requires e.Valid() && CheaplySupplied(e.problem, s, e.ainit[..], e.finit[..]) && e.ainit[1] < MAXTIME
    requires forall picks :: Collected(e.problem, e.objective, s, e.ainit[..], e.finit[..], random, picks)
                             ==> NoRingAmong(e.problem, e.ainit[..], picks)
    modifies e.finit, e.aused
    ensures fresh(plan) && 1 <= plan.Length < |e.problem.actions|
    ensures IsRelaxedPlan(e.problem, s, plan[..]) && ThreatenedFirst(e.problem, e.ainit[..], plan[..])
  {
    ghost var p, ai, fi := e.problem, e.ainit[..], e.finit[..];
    var picks := CollectPicks(e, s, random);
    assert e.ainit[..] == ai;
    plan := SortPicks(e, picks);
    assert e.ainit[..] == ai;
    SortedPicksExecute(p, e.objective, s, ai, fi, random, picks, plan[..]);
  }

  /** The ring as it arises: the evaluation of a state and the extraction of its relaxed plan, whose sort never ends. */
  method RingArises(ob: Objective, random: bool) returns (ai: seq<int>, picks: seq<nat>)
    ensures WellFormed(RingProblem()) && |picks| < |RingProblem().actions|
    ensures !VectorSort.Stops(PlanOrder(RingProblem(), ai), picks)
  {
    RingProblemIsRing();
    var p := RingProblem();
    var e := new Evaluation(p, ob);
    var hit := e.ComputeH1(0, {0, 1, 2});
    ghost var fi := e.finit[..];
    ai := e.ainit[..];
    RingCosts(p, ob, ai, fi, e.applicable, hit);
    EvaluatedIsSupplied(p, ob, {0, 1, 2}, ai, fi, e.applicable, hit);
    ghost var choice;
    picks, choice := CollectRelaxedPlan(e, {0, 1, 2}, random);
    RingNeverSorts(p, ob, ai, fi, e.applicable, hit, e.finit[..], e.aused[..], picks);
  }
}
