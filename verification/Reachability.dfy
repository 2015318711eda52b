/**
 Which fluents and actions can be reached at all when nothing is ever deleted: a recursion that
 counts, for every action, the preconditions that are still missing.
 */
module Reachability {
  import opened Counting
  import opened Planning

  /** A set of fluents that holds the effects of every action whose preconditions it holds. */
  ghost predicate ClosedUnder(p: Problem, c: set<Fluent>) {
    forall a :: 0 <= a < |p.actions| && (forall f :: f in p.actions[a].prec ==> f in c)
                ==> forall f :: f in p.actions[a].add ==> f in c
  }

  /** The arrays, and for which fluents the count of an action has been lowered. */
  datatype View = View(counter: seq<int>, reached: seq<bool>, marked: seq<bool>, seen: set<(nat, nat)>)

  ghost predicate PlainPreconditions(p: Problem) {
    forall a :: 0 <= a < |p.actions| ==> NoDuplicates(p.actions[a].prec)
  }

  ghost function SeenBy(p: Problem, seen: set<(nat, nat)>, a: nat): (r: set<Fluent>)
    requires a < |p.actions|
    ensures forall f :: f in r <==> f in p.actions[a].prec && (f, a) in seen
  {
    set f | f in p.actions[a].prec && (f, a) in seen
  }

  ghost predicate Sized(p: Problem, v: View) {
    |v.counter| == |v.reached| == |p.actions| && |v.marked| == p.fluents
  }

  /** What holds all along, but for the count of action `but`, which may be reached next. */
  ghost predicate Inv(p: Problem, v: View, but: nat) {
    && WellFormed(p) && PlainPreconditions(p) && Sized(p, v)
    && (forall q :: q in v.seen ==> q.0 < p.fluents && q.1 < |p.actions| && v.marked[q.0])
    && (forall a :: 0 <= a < |p.actions| && !v.reached[a] ==>
          v.counter[a] == |p.actions[a].prec| - |SeenBy(p, v.seen, a)|)
    && (forall a :: 0 <= a < |p.actions| && a != but && !v.reached[a] && p.actions[a].prec != [] ==> v.counter[a] != 0)
    && (forall a, f :: 0 <= a < |p.actions| && v.reached[a] && f in p.actions[a].prec ==> f < p.fluents && v.marked[f])
    && (forall c :: ClosedUnder(p, c) ==> forall f :: 0 <= f < p.fluents && v.marked[f] ==> f in c)
  }

  ghost predicate Grows(p: Problem, v: View, v': View) {
    && Sized(p, v) && Sized(p, v') && v.seen <= v'.seen
    && (forall a :: 0 <= a < |p.actions| && v.reached[a] ==> v'.reached[a])
    && (forall f :: 0 <= f < p.fluents && v.marked[f] ==> v'.marked[f])
    && (forall q :: q in v'.seen && q !in v.seen ==> q.0 < p.fluents && !v.marked[q.0])
  }

  /** All actions that still wait for `f` have been told. */
  ghost predicate Told(p: Problem, v: View, f: nat)
    requires Sized(p, v)
  {
    forall b :: 0 <= b < |p.actions| && f in p.actions[b].prec && !v.reached[b] ==> (f, b) in v.seen
  }

  ghost predicate AddsMarked(p: Problem, v: View, a: nat)
    requires Sized(p, v) && a < |p.actions|
  {
    forall f :: f in p.actions[a].add ==> f < p.fluents && v.marked[f]
  }

  /** The fluents that are new since `v0` have been told to all, and so have the effects of new actions but `but`. */
  ghost predicate Settled(p: Problem, v0: View, v: View, but: nat) {
    && Sized(p, v0) && Sized(p, v)
    && (forall f :: 0 <= f < p.fluents && v.marked[f] && !v0.marked[f] ==> Told(p, v, f))
    && (forall a :: 0 <= a < |p.actions| && v.reached[a] && !v0.reached[a] && a != but ==> AddsMarked(p, v, a))
  }

  ghost function Unreached(v: View): (r: set<nat>) {
    set a | 0 <= a < |v.reached| && !v.reached[a]
  }

  lemma GrowsTwice(p: Problem, v0: View, v1: View, v2: View)
    requires Grows(p, v0, v1) && Grows(p, v1, v2)
    ensures Grows(p, v0, v2)
  {
  }

  lemma GrowsShrinks(p: Problem, v: View, v': View)
    requires Grows(p, v, v')
    ensures |Unreached(v')| <= |Unreached(v)|
  {
    SubsetCount(Unreached(v'), Unreached(v));
  }

  lemma ToldStays(p: Problem, v: View, v': View, f: nat)
    requires Grows(p, v, v') && Told(p, v, f)
    ensures Told(p, v', f)
  {
  }

  lemma SettledTwice(p: Problem, v0: View, v1: View, v2: View, but: nat)
    requires Grows(p, v1, v2) && Settled(p, v0, v1, but) && Settled(p, v1, v2, but)
    ensures Settled(p, v0, v2, but)
  {
    forall f | 0 <= f < p.fluents && v2.marked[f] && !v0.marked[f] ensures Told(p, v2, f) {
      if v1.marked[f] {
        ToldStays(p, v1, v2, f);
      }
    }
    forall a | 0 <= a < |p.actions| && v2.reached[a] && !v0.reached[a] && a != but ensures AddsMarked(p, v2, a) {
      if v1.reached[a] {
        assert AddsMarked(p, v1, a);
      }
    }
  }

  // ----- the elementary changes

  function Elements(s: seq<Fluent>): (r: set<Fluent>)
    ensures forall f :: f in r <==> f in s
  {
    set f | f in s
  }

  lemma {:induction false} ElementsCount(s: seq<Fluent>)
    ensures |Elements(s)| <= |s| && (NoDuplicates(s) ==> |Elements(s)| == |s|)
  {
    if s == [] {
      assert Elements(s) == {};
    } else {
      var n := |s| - 1;
      ElementsCount(s[..n]);
      assert forall x :: x in s <==> x in s[..n] || x == s[n];
      assert Elements(s) == Elements(s[..n]) + {s[n]};
    }
  }

  lemma ReachedKeeps(p: Problem, v: View, a: nat)
    requires a < |p.actions| && Inv(p, v, a) && !v.reached[a]
    requires forall f :: f in p.actions[a].prec ==> f < p.fluents && v.marked[f]
    ensures var v' := v.(reached := v.reached[a := true]);
            Inv(p, v', |p.actions|) && Grows(p, v, v') && |Unreached(v')| < |Unreached(v)|
  {
    var v' := v.(reached := v.reached[a := true]);
    assert a in Unreached(v) && a !in Unreached(v');
    StrictSubsetCount(Unreached(v'), Unreached(v));
  }

  lemma MarkKeeps(p: Problem, v: View, a: nat, f: nat)
    requires Inv(p, v, |p.actions|) && a < |p.actions| && v.reached[a] && f in p.actions[a].add && f < p.fluents && !v.marked[f]
    ensures var v' := v.(marked := v.marked[f := true]); Inv(p, v', |p.actions|) && Grows(p, v, v')
  {
  }

  /** The count of `b` is lowered for `f`. */
  function Lowered(v: View, f: nat, b: nat): View
    requires b < |v.counter|
  {
    View(v.counter[b := v.counter[b] - 1], v.reached, v.marked, v.seen + {(f, b)})
  }

  lemma LowerCounts(p: Problem, v: View, f: nat, b: nat)
    requires b < |p.actions| && f in p.actions[b].prec && (f, b) !in v.seen
    ensures forall a :: 0 <= a < |p.actions| ==>
              |SeenBy(p, v.seen + {(f, b)}, a)| == |SeenBy(p, v.seen, a)| + if a == b then 1 else 0
  {
    assert SeenBy(p, v.seen + {(f, b)}, b) == SeenBy(p, v.seen, b) + {f};
    forall a | 0 <= a < |p.actions| && a != b ensures SeenBy(p, v.seen + {(f, b)}, a) == SeenBy(p, v.seen, a) {
    }
  }

  lemma LowerKeeps(p: Problem, v: View, f: nat, b: nat)
    requires Inv(p, v, |p.actions|) && b < |p.actions| && !v.reached[b] && f < p.fluents && v.marked[f]
    requires f in p.actions[b].prec && (f, b) !in v.seen
    ensures Inv(p, Lowered(v, f, b), b) && (v.counter[b] != 1 ==> Inv(p, Lowered(v, f, b), |p.actions|))
    ensures v.counter[b] == 1 ==> forall g :: g in p.actions[b].prec ==> g < p.fluents && v.marked[g]
  {
    LowerCounts(p, v, f, b);
    if v.counter[b] == 1 {
      AllSeen(p, Lowered(v, f, b), b);
    }
  }

  /** An action without missing preconditions has all of them. */
  lemma AllSeen(p: Problem, v: View, b: nat)
    requires WellFormed(p) && b < |p.actions| && |p.actions[b].prec| == |SeenBy(p, v.seen, b)|
    ensures forall g :: g in p.actions[b].prec ==> (g, b) in v.seen && g < p.fluents
  {
    var prec := p.actions[b].prec;
    var all := Elements(prec);
    ElementsCount(prec);
    assert Known(p, prec);
    forall g | g in prec ensures (g, b) in v.seen && g < p.fluents {
      assert g in all && |all - {g}| == |all| - 1;
      if (g, b) !in v.seen {
        SubsetCount(SeenBy(p, v.seen, b), all - {g});
      }
    }
  }

  /** The consumers of `f` before `b` know of it, and the others do not. */
  ghost predicate ToldBelow(p: Problem, v: View, f: nat, b: nat)
    requires Sized(p, v)
  {
    && (forall c :: 0 <= c < b && c < |p.actions| && f in p.actions[c].prec && !v.reached[c] ==> (f, c) in v.seen)
    && (forall c :: b <= c < |p.actions| ==> (f, c) !in v.seen)
  }

  lemma InformedOne(p: Problem, v0: View, v1: View, v: View, f: nat, b: nat)
    requires Grows(p, v0, v) && Settled(p, v1, v, |p.actions|) && ToldBelow(p, v, f, b)
    requires f < p.fluents && !v0.marked[f] && b < |p.actions|
    ensures Grows(p, v0, Lowered(v, f, b)) && Settled(p, v1, Lowered(v, f, b), |p.actions|)
    ensures ToldBelow(p, Lowered(v, f, b), f, b + 1)
  {
    var w := Lowered(v, f, b);
    forall g | 0 <= g < p.fluents && w.marked[g] && !v1.marked[g] ensures Told(p, w, g) {
      assert Told(p, v, g);
    }
    forall a | 0 <= a < |p.actions| && w.reached[a] && !v1.reached[a] ensures AddsMarked(p, w, a) {
      assert AddsMarked(p, v, a);
    }
  }

  lemma InformedReached(p: Problem, v0: View, v1: View, w: View, x: View, f: nat, b: nat)
    requires Grows(p, v0, w) && Settled(p, v1, w, |p.actions|) && ToldBelow(p, w, f, b)
    requires f < p.fluents && w.marked[f] && Grows(p, w, x) && Settled(p, w, x, |p.actions|)
    ensures Grows(p, v0, x) && Settled(p, v1, x, |p.actions|) && ToldBelow(p, x, f, b) && x.marked[f]
  {
    GrowsTwice(p, v0, w, x);
    SettledTwice(p, v1, w, x, |p.actions|);
  }

  lemma AllInformed(p: Problem, v0: View, v1: View, v: View, f: nat)
    requires f < p.fluents && Sized(p, v0) && v1 == v0.(marked := v0.marked[f := true])
    requires Settled(p, v1, v, |p.actions|) && ToldBelow(p, v, f, |p.actions|)
    ensures Settled(p, v0, v, |p.actions|)
  {
    forall g | 0 <= g < p.fluents && v.marked[g] && !v0.marked[g] ensures Told(p, v, g) {
      assert g != f ==> !v1.marked[g];
    }
    forall a | 0 <= a < |p.actions| && v.reached[a] && !v0.reached[a] ensures AddsMarked(p, v, a) {
      assert !v1.reached[a];
    }
  }

  lemma NothingTold(p: Problem, v: View, f: nat, v': View)
    requires Inv(p, v, |p.actions|) && f < p.fluents && !v.marked[f] && v' == v.(marked := v.marked[f := true])
    ensures ToldBelow(p, v', f, 0) && Settled(p, v', v', |p.actions|)
  {
    forall c | 0 <= c < |p.actions| ensures (f, c) !in v'.seen {
      assert (f, c).0 == f;
    }
  }

  ghost predicate MarkedBelow(v: View, fs: seq<Fluent>, k: nat) {
    forall i :: 0 <= i < k && i < |fs| ==> fs[i] < |v.marked| && v.marked[fs[i]]
  }

  ghost predicate MarksStay(v: View, v': View) {
    |v.marked| == |v'.marked| && forall g :: 0 <= g < |v.marked| && v.marked[g] ==> v'.marked[g]
  }

  lemma OneMoreMarked(v: View, v': View, fs: seq<Fluent>, k: nat)
    requires MarkedBelow(v, fs, k) && MarksStay(v, v') && k < |fs| && fs[k] < |v'.marked| && v'.marked[fs[k]]
    ensures MarkedBelow(v', fs, k + 1)
  {
  }

  /** The last new action has its effects marked too. */
  lemma AllMarked(p: Problem, v0: View, v: View, a: nat)
    requires Sized(p, v0) && Sized(p, v) && a < |p.actions|
    requires Settled(p, v0, v, a) && MarkedBelow(v, p.actions[a].add, |p.actions[a].add|)
    ensures Settled(p, v0, v, |p.actions|)
  {
  }

  class Reacher {
    const problem: Problem
    const counter: array<int>
    /** The actions and the fluents whose cost is no longer infinite. */
    const reached: array<bool>
    const marked: array<bool>
    ghost var seen: set<(nat, nat)>

    ghost function Now(): View
      reads this, counter, reached, marked
    {
      View(counter[..], reached[..], marked[..], seen)
    }

    ghost predicate Valid()
    {
      reached != marked && WellFormed(problem) && PlainPreconditions(problem)
    }

    constructor (p: Problem)
      requires WellFormed(p) && PlainPreconditions(p)
      ensures Valid() && problem == p && fresh(counter) && fresh(reached) && fresh(marked)
      ensures Inv(p, Now(), |p.actions|) && seen == {} && (forall a :: 0 <= a < reached.Length ==> !reached[a])
      ensures forall f :: 0 <= f < marked.Length ==> !marked[f]
    {
      problem := p;
      counter := new int[|p.actions|](a requires 0 <= a < |p.actions| => |p.actions[a].prec|);
      reached := new bool[|p.actions|](_ => false);
      marked := new bool[p.fluents](_ => false);
      seen := {};
      new;
      forall a | 0 <= a < |p.actions| ensures SeenBy(p, seen, a) == {} {
      }
    }

    /** An action whose preconditions are all there: its effects are reached, and what they make possible. */
    method Reach(a: nat)
      requires Valid() && a < |problem.actions| && Inv(problem, Now(), a) && !reached[a]
      requires forall f :: f in problem.actions[a].prec ==> f < problem.fluents && marked[f]
      modifies this`seen, counter, reached, marked
      ensures Inv(problem, Now(), |problem.actions|) && Grows(problem, old(Now()), Now())
      ensures reached[a] && Settled(problem, old(Now()), Now(), |problem.actions|)
      decreases |Unreached(Now())|, 0
    {
      ghost var v0 := Now();
      ReachedKeeps(problem, v0, a);
      reached[a] := true;
      assert Now() == v0.(reached := v0.reached[a := true]);
      ReachEffects(a, v0);
    }

    method ReachEffects(a: nat, ghost v0: View)
      requires Valid() && a < |problem.actions| && Inv(problem, Now(), |problem.actions|) && reached[a]
      requires Grows(problem, v0, Now()) && Settled(problem, v0, Now(), a)
      modifies this`seen, counter, reached, marked
      ensures Inv(problem, Now(), |problem.actions|) && Grows(problem, v0, Now()) && reached[a]
      ensures Settled(problem, v0, Now(), |problem.actions|)
      decreases |Unreached(Now())|, 5
    {
      ghost var n := |Unreached(Now())|;
      var add := problem.actions[a].add;
      assert Known(problem, add);
      var k := 0;
      while k < |add|
        invariant 0 <= k <= |add| && Inv(problem, Now(), |problem.actions|) && reached[a]
        invariant Grows(problem, v0, Now()) && Settled(problem, v0, Now(), a) && |Unreached(Now())| <= n
        invariant MarkedBelow(Now(), add, k)
      {
        ghost var v := Now();
        ReachEffect(add[k], a, v0);
        OneMoreMarked(v, Now(), add, k);
        k := k + 1;
      }
      AllMarked(problem, v0, Now(), a);
    }

    method ReachEffect(f: nat, a: nat, ghost v0: View)
      requires Valid() && Inv(problem, Now(), |problem.actions|) && a < |problem.actions| && reached[a]
      requires f in problem.actions[a].add && f < problem.fluents
      requires Grows(problem, v0, Now()) && Settled(problem, v0, Now(), a)
      modifies this`seen, counter, reached, marked
      ensures Inv(problem, Now(), |problem.actions|) && reached[a] && marked[f]
      ensures Grows(problem, v0, Now()) && Settled(problem, v0, Now(), a)
      ensures |Unreached(Now())| <= |Unreached(old(Now()))|
      ensures MarksStay(old(Now()), Now())
      decreases |Unreached(Now())|, 4
    {
      ghost var v1 := Now();
      ReachFluent(f, a);
      ghost var v2 := Now();
      GrowsShrinks(problem, v1, v2);
      GrowsTwice(problem, v0, v1, v2);
      SettledTwice(problem, v0, v1, v2, a);
    }

    /** An effect of a reached action: its consumers have one precondition less to wait for. */
    method ReachFluent(f: nat, ghost a: nat)
      requires Valid() && Inv(problem, Now(), |problem.actions|) && a < |problem.actions| && reached[a]
      requires f in problem.actions[a].add && f < problem.fluents
      modifies this`seen, counter, reached, marked
      ensures Inv(problem, Now(), |problem.actions|) && Grows(problem, old(Now()), Now()) && marked[f]
      ensures Settled(problem, old(Now()), Now(), a)
      decreases |Unreached(Now())|, 3
    {
      if !marked[f] {
        ghost var v0 := Now();
        MarkKeeps(problem, v0, a, f);
        marked[f] := true;
        assert Now() == v0.(marked := v0.marked[f := true]);
        InformAll(f, v0);
      }
    }

    /** Tells all consumers of a new fluent. */
    method InformAll(f: nat, ghost v0: View)
      requires Valid() && Inv(problem, Now(), |problem.actions|) && f < problem.fluents && Inv(problem, v0, |problem.actions|)
      requires !v0.marked[f] && Now() == v0.(marked := v0.marked[f := true])
      modifies this`seen, counter, reached, marked
      ensures Inv(problem, Now(), |problem.actions|) && Grows(problem, v0, Now()) && marked[f]
      ensures Settled(problem, v0, Now(), |problem.actions|)
      decreases |Unreached(Now())|, 2
    {
      ghost var v1 := Now();
      NothingTold(problem, v0, f, v1);
      var b := 0;
      while b < |problem.actions|
        invariant 0 <= b <= |problem.actions| && Inv(problem, Now(), |problem.actions|) && marked[f]
        invariant Grows(problem, v0, Now()) && Settled(problem, v1, Now(), |problem.actions|)
        invariant ToldBelow(problem, Now(), f, b) && |Unreached(Now())| <= |Unreached(v1)|
      {
        InformIfWaiting(f, b, v0, v1);
        b := b + 1;
      }
      AllInformed(problem, v0, v1, Now(), f);
    }

    method InformIfWaiting(f: nat, b: nat, ghost v0: View, ghost v1: View)
      requires Valid() && Inv(problem, Now(), |problem.actions|) && f < problem.fluents && marked[f] && b < |problem.actions|
      requires ToldBelow(problem, Now(), f, b)
      requires Grows(problem, v0, Now()) && Settled(problem, v1, Now(), |problem.actions|) && !v0.marked[f]
      modifies this`seen, counter, reached, marked
      ensures Inv(problem, Now(), |problem.actions|) && marked[f]
      ensures Grows(problem, v0, Now()) && Settled(problem, v1, Now(), |problem.actions|)
      ensures ToldBelow(problem, Now(), f, b + 1) && |Unreached(Now())| <= |Unreached(old(Now()))|
      decreases |Unreached(Now())|, 1, 1
    {
      if f in problem.actions[b].prec && !reached[b] {
        Inform(f, b, v0, v1);
      }
    }

    /** Lowers the count of one consumer, which is reached if nothing is missing any more. */
    method Inform(f: nat, b: nat, ghost v0: View, ghost v1: View)
      requires Valid() && Inv(problem, Now(), |problem.actions|) && f < problem.fluents && marked[f] && b < |problem.actions|
      requires f in problem.actions[b].prec && !reached[b] && ToldBelow(problem, Now(), f, b)
      requires Grows(problem, v0, Now()) && Settled(problem, v1, Now(), |problem.actions|) && !v0.marked[f]
      modifies this`seen, counter, reached, marked
      ensures Inv(problem, Now(), |problem.actions|) && marked[f]
      ensures Grows(problem, v0, Now()) && Settled(problem, v1, Now(), |problem.actions|)
      ensures ToldBelow(problem, Now(), f, b + 1) && |Unreached(Now())| <= |Unreached(old(Now()))|
      decreases |Unreached(Now())|, 1, 0
    {
      ghost var v := Now();
      LowerKeeps(problem, v, f, b);
      counter[b] := counter[b] - 1;
      seen := seen + {(f, b)};
      ghost var w := Now();
      assert w == Lowered(v, f, b);
      InformedOne(problem, v0, v1, v, f, b);
      if counter[b] == 0 {
        Reach(b);
        GrowsShrinks(problem, w, Now());
        InformedReached(problem, v0, v1, w, Now(), f, b + 1);
      }
    }

    method ReachIfFree(a: nat, ghost v0: View)
      requires Valid() && Inv(problem, Now(), |problem.actions|) && a < |problem.actions|
      requires Grows(problem, v0, Now()) && Settled(problem, v0, Now(), |problem.actions|)
      modifies this`seen, counter, reached, marked
      ensures Inv(problem, Now(), |problem.actions|)
      ensures Grows(problem, v0, Now()) && Settled(problem, v0, Now(), |problem.actions|)
      ensures problem.actions[a].prec == [] ==> reached[a]
      ensures forall b :: 0 <= b < reached.Length && old(reached[b]) ==> reached[b]
    {
      if problem.actions[a].prec == [] && !reached[a] {
        ghost var v1 := Now();
        ReachedAlone(problem, v1, a);
        Reach(a);
        ghost var v2 := Now();
        GrowsTwice(problem, v0, v1, v2);
        SettledTwice(problem, v0, v1, v2, |problem.actions|);
        assert forall b :: 0 <= b < |problem.actions| && v1.reached[b] ==> v2.reached[b];
      }
    }

    /** The whole computation: from every action without preconditions that has not been reached yet. */
    method ComputeReachable()
      requires Valid() && Inv(problem, Now(), |problem.actions|) && seen == {}
      requires (forall a :: 0 <= a < reached.Length ==> !reached[a]) && (forall f :: 0 <= f < marked.Length ==> !marked[f])
      modifies this`seen, counter, reached, marked
      ensures Inv(problem, Now(), |problem.actions|)
      ensures ClosedUnder(problem, MarkedSet(Now()))
      ensures forall c :: ClosedUnder(problem, c) ==> MarkedSet(Now()) <= c
      ensures forall a :: 0 <= a < |problem.actions| ==>
                (reached[a] <==> forall f :: f in problem.actions[a].prec ==> f in MarkedSet(Now()))
    {
      ghost var v0 := Now();
      var a := 0;
      while a < |problem.actions|
        invariant 0 <= a <= |problem.actions| && Inv(problem, Now(), |problem.actions|)
        invariant Grows(problem, v0, Now()) && Settled(problem, v0, Now(), |problem.actions|)
        invariant forall b :: 0 <= b < a && problem.actions[b].prec == [] ==> reached[b]
      {
        ReachIfFree(a, v0);
        a := a + 1;
      }
      AllReached(problem, v0, Now());
    }
  }

  function MarkedSet(v: View): (r: set<Fluent>)
    ensures forall f: nat :: f in r <==> f < |v.marked| && v.marked[f]
  {
    set f: nat | f < |v.marked| && v.marked[f]
  }

  lemma ReachedAlone(p: Problem, v: View, a: nat)
    requires Inv(p, v, |p.actions|)
    ensures Inv(p, v, a)
  {
  }

  /** When all is settled, the fluents are closed under the actions, and those are reached whose preconditions are. */
  lemma AllReached(p: Problem, v0: View, v: View)
    requires Inv(p, v, |p.actions|) && Settled(p, v0, v, |p.actions|)
    requires (forall a :: 0 <= a < |p.actions| ==> !v0.reached[a]) && (forall f :: 0 <= f < p.fluents ==> !v0.marked[f])
    requires forall a :: 0 <= a < |p.actions| && p.actions[a].prec == [] ==> v.reached[a]
    ensures ClosedUnder(p, MarkedSet(v)) && forall c :: ClosedUnder(p, c) ==> MarkedSet(v) <= c
    ensures forall a :: 0 <= a < |p.actions| ==> (v.reached[a] <==> forall f :: f in p.actions[a].prec ==> f in MarkedSet(v))
  {
    forall a | 0 <= a < |p.actions| && (forall f :: f in p.actions[a].prec ==> f in MarkedSet(v))
      ensures v.reached[a]
    {
      if !v.reached[a] {
        assert SeenBy(p, v.seen, a) == Elements(p.actions[a].prec) by {
          forall f | f in p.actions[a].prec ensures (f, a) in v.seen {
            assert f in MarkedSet(v);
            assert Told(p, v, f);
          }
        }
        ElementsCount(p.actions[a].prec);
      }
    }
    forall a | 0 <= a < |p.actions| && v.reached[a] ensures AddsMarked(p, v, a) {
    }
  }

  // ----- what is marked can be derived

  /** The effects of the actions in `order`. */
  ghost function Derived(p: Problem, order: seq<nat>): (r: set<Fluent>)
    ensures forall f :: f in r <==> exists k :: 0 <= k < |order| && order[k] < |p.actions| && f in p.actions[order[k]].add
  {
    if order == [] then {}
    else
      var n := |order| - 1;
      var before := Derived(p, order[..n]);
      assert forall k :: 0 <= k < n ==> order[k] == order[..n][k];
      before + if order[n] < |p.actions| then Elements(p.actions[order[n]].add) else {}
  }

  /** A plan without deletions from the empty state: every action has its preconditions added by earlier ones. */
  ghost predicate Derivation(p: Problem, order: seq<nat>) {
    order == []
    || (var n := |order| - 1;
        && Derivation(p, order[..n]) && order[n] < |p.actions|
        && forall f :: f in p.actions[order[n]].prec ==> f in Derived(p, order[..n]))
  }

  lemma DerivationOneMore(p: Problem, order: seq<nat>, a: nat)
    requires Derivation(p, order) && a < |p.actions| && forall f :: f in p.actions[a].prec ==> f in Derived(p, order)
    ensures Derivation(p, order + [a])
  {
    assert (order + [a])[..|order|] == order;
  }

  lemma DerivedGrows(p: Problem, order: seq<nat>, a: nat)
    requires a < |p.actions|
    ensures Derived(p, order + [a]) == Derived(p, order) + Elements(p.actions[a].add)
  {
    assert (order + [a])[..|order|] == order;
  }

  lemma EffectsWithin(p: Problem, m: set<Fluent>, d: set<Fluent>, a: nat)
    requires ClosedUnder(p, m) && d <= m && a < |p.actions| && forall f :: f in p.actions[a].prec ==> f in d
    ensures forall f :: f in p.actions[a].add ==> f in m
  {
  }

  /** The least closed set is derived: some plan without deletions adds all of it. */
  lemma {:induction false} LeastIsDerived(p: Problem, m: set<Fluent>, order: seq<nat>) returns (all: seq<nat>)
    requires ClosedUnder(p, m) && (forall c :: ClosedUnder(p, c) ==> m <= c)
    requires Derivation(p, order) && Derived(p, order) <= m
    ensures Derivation(p, all) && Derived(p, all) == m
    decreases m - Derived(p, order)
  {
    var d := Derived(p, order);
    if d == m {
      all := order;
    } else {
      var a := NewEffects(p, m, d);
      DerivationOneMore(p, order, a);
      MoreDerived(p, m, order, a);
      all := LeastIsDerived(p, m, order + [a]);
    }
  }

  lemma MoreDerived(p: Problem, m: set<Fluent>, order: seq<nat>, a: nat)
    requires ClosedUnder(p, m) && Derived(p, order) <= m && a < |p.actions|
    requires forall f :: f in p.actions[a].prec ==> f in Derived(p, order)
    requires exists f :: f in p.actions[a].add && f !in Derived(p, order)
    ensures Derived(p, order + [a]) <= m && m - Derived(p, order + [a]) < m - Derived(p, order)
  {
    DerivedGrows(p, order, a);
    EffectsWithin(p, m, Derived(p, order), a);
    var f :| f in p.actions[a].add && f !in Derived(p, order);
    assert f in m - Derived(p, order) && f !in m - Derived(p, order + [a]);
  }

  /** A smaller set is not closed: some action adds to it. */
  lemma NewEffects(p: Problem, m: set<Fluent>, d: set<Fluent>) returns (a: nat)
    requires (forall c :: ClosedUnder(p, c) ==> m <= c) && d < m
    ensures a < |p.actions| && forall f :: f in p.actions[a].prec ==> f in d
    ensures exists f :: f in p.actions[a].add && f !in d
  {
    assert !ClosedUnder(p, d);
    a :| a < |p.actions| && (forall f :: f in p.actions[a].prec ==> f in d) && exists f :: f in p.actions[a].add && f !in d;
  }

  /** A fluent is marked if and only if some plan without deletions adds it. */
  lemma MarkedIff(p: Problem, m: set<Fluent>, f: Fluent)
    requires ClosedUnder(p, m) && forall c :: ClosedUnder(p, c) ==> m <= c
    ensures f in m <==> exists order :: Derivation(p, order) && f in Derived(p, order)
  {
    if f in m {
      assert Derived(p, []) == {};
      var all := LeastIsDerived(p, m, []);
    }
    if order :| Derivation(p, order) && f in Derived(p, order) {
      DerivationWithin(p, m, order);
    }
  }

  /** Whatever is derived lies in every closed set. */
  lemma {:induction false} DerivationWithin(p: Problem, m: set<Fluent>, order: seq<nat>)
    requires ClosedUnder(p, m) && Derivation(p, order)
    ensures Derived(p, order) <= m
    decreases |order|
  {
    if order != [] {
      var n := |order| - 1;
      DerivationWithin(p, m, order[..n]);
      LastWithin(p, m, order);
    }
  }

  lemma LastWithin(p: Problem, m: set<Fluent>, order: seq<nat>)
    requires ClosedUnder(p, m) && order != [] && Derivation(p, order) && Derived(p, order[..|order| - 1]) <= m
    ensures Derived(p, order) <= m
  {
    var n := |order| - 1;
    EffectsWithin(p, m, Derived(p, order[..n]), order[n]);
    DerivedLast(p, order);
  }

  lemma DerivedLast(p: Problem, order: seq<nat>)
    requires order != [] && order[|order| - 1] < |p.actions|
    ensures Derived(p, order) == Derived(p, order[..|order| - 1]) + Elements(p.actions[order[|order| - 1]].add)
  {
  }

  /** No action that is not reached is ever applicable, whatever is executed from the initial state. */
  lemma UnreachedNeverApplies(p: Problem, marked: set<Fluent>, plan: seq<Action>, a: nat)
    requires |p.actions| > 0 && ClosedUnder(p, marked) && p.actions[0].prec == [] && a < |p.actions|
    requires forall i :: 0 <= i < |plan| ==> exists b :: 0 <= b < |p.actions| && plan[i] == p.actions[b]
    requires Executable(Apply({}, p.actions[0]), plan)
    requires exists f :: f in p.actions[a].prec && f !in marked
    ensures !Applicable(After(Apply({}, p.actions[0]), plan), p.actions[a])
  {
    StatesWithin(p, marked, plan, |plan|);
    assert plan[..|plan|] == plan;
  }

  lemma {:induction false} StatesWithin(p: Problem, marked: set<Fluent>, plan: seq<Action>, k: nat)
    requires |p.actions| > 0 && ClosedUnder(p, marked) && p.actions[0].prec == [] && k <= |plan|
    requires forall i :: 0 <= i < |plan| ==> exists b :: 0 <= b < |p.actions| && plan[i] == p.actions[b]
    requires Executable(Apply({}, p.actions[0]), plan)
    ensures After(Apply({}, p.actions[0]), plan[..k]) <= marked
  {
    var s := Apply({}, p.actions[0]);
    if k == 0 {
      assert forall f :: f in s ==> f in p.actions[0].add;
    } else {
      StatesWithin(p, marked, plan, k - 1);
      assert plan[..k][..k - 1] == plan[..k - 1];
      assert Applicable(After(s, plan[..k - 1]), plan[k - 1]);
      var b :| 0 <= b < |p.actions| && plan[k - 1] == p.actions[b];
      assert forall f :: f in p.actions[b].prec ==> f in marked;
    }
  }
}
