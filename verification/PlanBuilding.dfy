/**
 Search nodes of the YAHSP planner: a node extends its parent by a few steps, each started
 as early as the steps before it allow.
 */
module PlanBuilding {
  import opened Basics
  import opened Planning

  datatype YStep = YStep(action: Action, init: int)

  function End(s: YStep): int {
    s.init + s.action.dur
  }

  function ActionsOf(h: seq<YStep>): (r: seq<Action>)
    ensures |r| == |h|
  {
    seq(|h|, i requires 0 <= i < |h| => h[i].action)
  }

  // ----- start times, independently of the chain of nodes

  /** The latest end among the steps of `h` that must precede `a`. */
  function LatestEnd(o: Options, h: seq<YStep>, a: Action): (r: int)
    ensures r >= 0
    ensures forall i :: 0 <= i < |h| && MustPrecede(o, h[i].action, a) ==> End(h[i]) <= r
  {
    if h == [] then 0
    else
      var n := |h| - 1;
      var before := LatestEnd(o, h[..n], a);
      assert forall i :: 0 <= i < n ==> h[i] == h[..n][i];
      if MustPrecede(o, h[n].action, a) then Max(before, End(h[n])) else before
  }

  function StartTime(o: Options, h: seq<YStep>, a: Action): int {
    if o.sequential then |h| else LatestEnd(o, h, a)
  }

  function Makespan(o: Options, h: seq<YStep>): (r: int)
    ensures r >= 0
    ensures !o.sequential ==> forall i :: 0 <= i < |h| ==> End(h[i]) <= r
  {
    if h == [] then 0
    else
      var n := |h| - 1;
      var before := Makespan(o, h[..n]);
      assert forall i :: 0 <= i < n ==> h[i] == h[..n][i];
      if o.sequential then before + h[n].action.dur else Max(before, End(h[n]))
  }

  /** The makespan is no later than the end of some step. */
  lemma {:induction false} MakespanAttained(o: Options, h: seq<YStep>)
    requires !o.sequential
    ensures Makespan(o, h) == 0 || exists i :: 0 <= i < |h| && End(h[i]) == Makespan(o, h)
  {
    if h != [] {
      var n := |h| - 1;
      MakespanAttained(o, h[..n]);
      if Makespan(o, h[..n]) == Makespan(o, h) != 0 {
        var i :| 0 <= i < n && End(h[..n][i]) == Makespan(o, h);
        assert End(h[i]) == Makespan(o, h);
      }
    }
  }

  lemma MakespanOneMore(o: Options, h: seq<YStep>, s: YStep)
    ensures Makespan(o, h + [s]) == if o.sequential then Makespan(o, h) + s.action.dur else Max(Makespan(o, h), End(s))
  {
    assert (h + [s])[..|h|] == h;
  }

  /** Every step of `h` starts when the steps before it in `h` allow. */
  ghost predicate Greedy(o: Options, h: seq<YStep>) {
    forall j :: 0 <= j < |h| ==> h[j].init == StartTime(o, h[..j], h[j].action)
  }

  lemma {:induction false} LatestEndWithin(o: Options, h: seq<YStep>, a: Action, m: int)
    requires m >= 0 && forall i :: 0 <= i < |h| ==> End(h[i]) <= m
    ensures LatestEnd(o, h, a) <= m
  {
    if h != [] {
      LatestEndWithin(o, h[..|h| - 1], a, m);
    }
  }

  lemma GreedyOneMore(o: Options, h: seq<YStep>, s: YStep)
    requires Greedy(o, h) && s.init == StartTime(o, h, s.action)
    ensures Greedy(o, h + [s])
  {
    forall j | 0 <= j < |h| + 1 ensures (h + [s])[j].init == StartTime(o, (h + [s])[..j], (h + [s])[j].action) {
      assert (h + [s])[..j] == h[..j];
      assert h[..|h|] == h;
    }
  }

  lemma ActionsOneMore(h: seq<YStep>, s: YStep)
    ensures ActionsOf(h + [s]) == ActionsOf(h) + [s.action]
  {
  }

  /**
   The scan of one node's steps, last first, for the start of `a`: steps ending too early
   to matter are passed over, and the scan ends as soon as `init` reaches the makespan,
   which bounds the ends of these steps and of all those before them (`below`).
   */
  method ScanSteps(o: Options, ghost below: seq<YStep>, steps: seq<YStep>, makespan: int, a: Action, from: int)
      returns (init: int)
    requires 0 <= from < makespan
    requires forall i :: 0 <= i < |below + steps| ==> End((below + steps)[i]) <= makespan
    ensures from <= init
    ensures init >= makespan ==> init == Max(from, LatestEnd(o, below + steps, a))
    ensures Max(init, LatestEnd(o, below, a)) == Max(from, LatestEnd(o, below + steps, a))
  {
    init := from;
    var k := |steps|;
    assert below + steps[..k] == below + steps;
    while k > 0
      invariant 0 <= k <= |steps| && from <= init < makespan
      invariant Max(init, LatestEnd(o, below + steps[..k], a)) == Max(from, LatestEnd(o, below + steps, a))
    {
      ghost var rest := below + steps[..k];
      k := k - 1;
      assert rest[..|rest| - 1] == below + steps[..k];
      var s := steps[k];
      if End(s) <= init {
        continue;
      }
      if MustPrecede(o, s.action, a) {
        init := End(s);
        if init >= makespan {
          assert forall i :: 0 <= i < |below| ==> (below + steps)[i] == below[i];
          LatestEndWithin(o, below, a, makespan);
          ghost var earlier := below + steps[..k];
          assert forall i :: 0 <= i < |earlier| ==> (below + steps)[i] == earlier[i];
          LatestEndWithin(o, earlier, a, makespan);
          return;
        }
      }
    }
    assert below + steps[..0] == below;
  }

  /** The least start after the ends of all steps that must precede the action. */
  ghost predicate StartsAfter(o: Options, h: seq<YStep>, a: Action, init: int) {
    && init >= 0 && (forall i :: 0 <= i < |h| && MustPrecede(o, h[i].action, a) ==> End(h[i]) <= init)
    && (init == 0 || exists i :: 0 <= i < |h| && MustPrecede(o, h[i].action, a) && End(h[i]) == init)
  }

  lemma {:induction false} LatestEndAttained(o: Options, h: seq<YStep>, a: Action)
    ensures StartsAfter(o, h, a, LatestEnd(o, h, a))
  {
    if h != [] {
      var n := |h| - 1;
      LatestEndAttained(o, h[..n], a);
      if LatestEnd(o, h[..n], a) == LatestEnd(o, h, a) != 0 {
        var i :| 0 <= i < n && MustPrecede(o, h[..n][i].action, a) && End(h[..n][i]) == LatestEnd(o, h, a);
        assert MustPrecede(o, h[i].action, a) && End(h[i]) == LatestEnd(o, h, a);
      }
    }
  }

  /** Actions that share no fluent but by needing it need not wait for each other. */
  lemma StartsAtOnce(o: Options, h: seq<YStep>, a: Action)
    requires !o.sequential
    requires o.fluentMutexes ==> forall i :: 0 <= i < |h| ==> (h[i].action.id, a.id) !in o.mutex && (a.id, h[i].action.id) !in o.mutex
    requires forall i, f :: 0 <= i < |h| && (f in h[i].action.add || f in h[i].action.del) ==> f !in a.prec && f !in a.add
    requires forall i, f :: 0 <= i < |h| && f in a.del ==> f !in h[i].action.prec && f !in h[i].action.add
    ensures StartTime(o, h, a) == 0
  {
    LatestEndAttained(o, h, a);
    forall i | 0 <= i < |h| ensures !MustPrecede(o, h[i].action, a) {
      var b := h[i].action;
      assert !Threatens(b, a) && !Threatens(a, b) && !Supplies(b, a);
    }
  }

  /** Actions that are permanently exclusive are kept apart. */
  lemma ExclusiveApart(o: Options, h: seq<YStep>, i: nat, j: nat)
    requires Greedy(o, h) && !o.sequential && o.fluentMutexes && i < j < |h|
    requires if h[i].action.id < h[j].action.id then (h[i].action.id, h[j].action.id) in o.mutex
             else (h[j].action.id, h[i].action.id) in o.mutex
    ensures h[i].init + h[i].action.dur <= h[j].init
  {
    assert h[..j][i] == h[i];
    assert h[j].init == LatestEnd(o, h[..j], h[j].action);
  }

  /** Where a new step is put, and the makespan with it. */
  ghost predicate Placed(o: Options, h: seq<YStep>, a: Action, before: int, init: int, finish: int) {
    if o.sequential then init == |h| && finish == before + a.dur
    else StartsAfter(o, h, a, init) && finish == Max(before, init + a.dur)
  }

  // ----- nodes

  class Node {
    const opt: Options
    var parent: Node?
    var state: State
    var length: nat
    var makespan: int
    var cost: nat
    var steps: seq<YStep>
    ghost var history: seq<YStep>  // all steps from the root to this node
    ghost var chain: set<Node>     // this node and its ancestors

    ghost predicate Valid()
      reads this, chain
      decreases chain
    {
      && this in chain
      && length == |history|
      && makespan == Makespan(opt, history)
      && (parent == null ==> history == [] && steps == [])
      && (parent != null ==>
            && parent in chain && parent.chain <= chain && this !in parent.chain
            && parent.opt == opt
            && history == parent.history + steps
            && parent.Valid())
    }

    /** The node was reached from `s0` by applicable actions, each started greedily. */
    ghost predicate Reached(s0: State)
      reads this
    {
      && Greedy(opt, history)
      && Executable(s0, ActionsOf(history))
      && state == After(s0, ActionsOf(history))
    }

    constructor Root(o: Options, s: State)
      ensures Valid() && Reached(s) && history == [] && fresh(chain) && opt == o && parent == null && state == s
    {
      opt := o;
      parent := null;
      state := s;
      length, makespan, cost := 0, 0, 0;
      steps, history := [], [];
      chain := {this};
    }

    constructor Derive(node: Node)
      requires node.Valid()
      ensures parent == node && steps == [] && opt == node.opt && state == node.state && makespan == node.makespan
      ensures cost == node.cost
      ensures Valid() && history == node.history && fresh(chain - node.chain) && this !in node.chain
    {
      opt := node.opt;
      parent := node;
      state := node.state;
      length, makespan, cost := node.length, node.makespan, node.cost;
      steps, history := [], node.history;
      chain := {this} + node.chain;
    }

    /**
     The scan over the chain of nodes for the start of a new action.  It stops as soon as
     the start reached is no earlier than the makespan of a node.
     */
    method EarliestStart(a: Action) returns (init: int)
      requires Valid() && !opt.sequential
      ensures init == LatestEnd(opt, history, a) && StartsAfter(opt, history, a, init)
    {
      LatestEndAttained(opt, history, a);
      init := 0;
      var tmp: Node := this;
      ghost var start := LatestEnd(opt, history, a);
      while init < tmp.makespan
        invariant tmp.Valid() && tmp.opt == opt && init >= 0
        invariant Max(init, LatestEnd(opt, tmp.history, a)) == start
        decreases tmp.chain
      {
        init := ScanSteps(opt, tmp.parent.history, tmp.steps, tmp.makespan, a, init);
        if init >= tmp.makespan {
          return;
        }
        tmp := tmp.parent;
      }
      LatestEndWithin(opt, tmp.history, a, tmp.makespan);
    }

    /** Deletes, then adds, the effects of `a` one by one. */
    method ApplyEffects(a: Action)
      modifies `state
      ensures state == Apply(old(state), a)
    {
      ghost var s := state;
      var i := 0;
      while i < |a.del|
        invariant 0 <= i <= |a.del|
        invariant state == s - set f | f in a.del[..i]
      {
        state := state - {a.del[i]};
        i := i + 1;
      }
      i := 0;
      while i < |a.add|
        invariant 0 <= i <= |a.add|
        invariant state == (s - set f | f in a.del) + set f | f in a.add[..i]
      {
        state := state + {a.add[i]};
        i := i + 1;
      }
    }

    method RecordStep(s: YStep, finish: int)
      requires Valid() && parent != null && finish == Makespan(opt, history + [s])
      modifies `makespan, `steps, `length, `cost, `history
      ensures Valid()
      ensures steps == old(steps) + [s] && history == old(history) + [s] && cost == old(cost) + s.action.cost
      ensures makespan == finish
    {
      steps := steps + [s];
      history := history + [s];
      length := length + 1;
      cost := cost + s.action.cost;
      makespan := finish;
    }

    /** When a new action starts, and the makespan with it. */
    method Timing(a: Action) returns (init: int, finish: int)
      requires Valid()
      ensures init == StartTime(opt, history, a)
      ensures Placed(opt, history, a, makespan, init, finish)
      ensures finish == Makespan(opt, history + [YStep(a, init)])
    {
      init := length;
      finish := makespan + a.dur;
      if !opt.sequential {
        init := EarliestStart(a);
        finish := Max(makespan, init + a.dur);
      }
      MakespanOneMore(opt, history, YStep(a, init));
    }

    /** Applies `a`, without activity constraints. */
    method ApplyAction(a: Action)
      requires Valid() && parent != null
      modifies `state, `makespan, `steps, `length, `cost, `history
      ensures Valid()
      ensures state == Apply(old(state), a)
      ensures steps == old(steps) + [YStep(a, StartTime(opt, old(history), a))]
      ensures history == old(history) + [YStep(a, StartTime(opt, old(history), a))]
      ensures cost == old(cost) + a.cost
      ensures Placed(opt, old(history), a, old(makespan), steps[|steps| - 1].init, makespan)
    {
      var init, finish := Timing(a);
      ApplyEffects(a);
      RecordStep(YStep(a, init), finish);
    }
  }

  /** Appending an applicable action, started greedily, to a greedy executable history. */
  lemma GreedyExtension(o: Options, h: seq<YStep>, s0: State, a: Action)
    requires Greedy(o, h) && Executable(s0, ActionsOf(h)) && Applicable(After(s0, ActionsOf(h)), a)
    ensures Greedy(o, h + [YStep(a, StartTime(o, h, a))])
    ensures Executable(s0, ActionsOf(h + [YStep(a, StartTime(o, h, a))]))
    ensures After(s0, ActionsOf(h + [YStep(a, StartTime(o, h, a))])) == Apply(After(s0, ActionsOf(h)), a)
  {
    var s := YStep(a, StartTime(o, h, a));
    ActionsOneMore(h, s);
    GreedyOneMore(o, h, s);
    ExecuteOneMore(s0, ActionsOf(h), a);
  }
}
