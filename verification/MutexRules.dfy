/**
 Permanent mutexes between fluents: the rules by which two fluents may come to hold
 together, and why a pair no rule allows is never true in a reachable state.
 */
module MutexRules {
  import opened Planning

  type Pair = (nat, nat)

  /** The one bit that stands for both orders of a pair. */
  function Norm(f: Fluent, g: Fluent): Pair {
    if f < g then (f, g) else (g, f)
  }

  function PairsOf(xs: seq<Fluent>, ys: seq<Fluent>): (r: set<Pair>)
    ensures forall x, y :: x in xs && y in ys ==> Norm(x, y) in r
    ensures forall q :: q in r ==> exists x, y :: x in xs && y in ys && q == Norm(x, y)
  {
    set x, y | x in xs && y in ys :: Norm(x, y)
  }

  /** No element of `xs` is mutex with one of `ys`, the mutexes being `m`. */
  predicate Together(m: set<Pair>, xs: seq<Fluent>, ys: seq<Fluent>) {
    forall x, y :: x in xs && y in ys ==> Norm(x, y) !in m
  }

  /** All preconditions of `a` may hold together. */
  predicate Enabled(p: Problem, m: set<Pair>, a: nat)
    requires a < |p.actions|
  {
    Together(m, p.actions[a].prec, p.actions[a].prec)
  }

  /** `f` may hold when `a` is applied. */
  predicate Coexists(p: Problem, m: set<Pair>, a: nat, f: Fluent)
    requires a < |p.actions|
  {
    f < p.fluents && Together(m, [f], p.actions[a].prec)
  }

  /**
   The mutexes respect the rules: no mutex between initial fluents, between effects of an
   enabled action, or between such an effect and a fluent the action may leave in place.
   */
  ghost predicate Closed(p: Problem, m: set<Pair>)
    requires |p.actions| >= 1
  {
    && Together(m, p.actions[0].add, p.actions[0].add)
    && (forall a :: 1 <= a < |p.actions| && Enabled(p, m, a) ==> Together(m, p.actions[a].add, p.actions[a].add))
    && (forall a, f :: 1 <= a < |p.actions| && Enabled(p, m, a) && Coexists(p, m, a, f) && f !in p.actions[a].del
                       ==> Together(m, [f], p.actions[a].add))
  }

  ghost predicate StateAllowed(p: Problem, m: set<Pair>, s: State) {
    (forall f :: f in s ==> f < p.fluents) && (forall f, g :: f in s && g in s ==> Norm(f, g) !in m)
  }

  /** Actions of the problem other than the start. */
  ghost predicate FromProblem(p: Problem, plan: seq<Action>) {
    forall i :: 0 <= i < |plan| ==> exists a :: 1 <= a < |p.actions| && plan[i] == p.actions[a]
  }

  function InitialState(p: Problem): State
    requires |p.actions| >= 1
  {
    set f | f in p.actions[0].add
  }

  lemma StepAllowed(p: Problem, m: set<Pair>, s: State, a: nat)
    requires WellFormed(p) && Closed(p, m) && StateAllowed(p, m, s)
    requires 1 <= a < |p.actions| && Applicable(s, p.actions[a])
    ensures Enabled(p, m, a) && StateAllowed(p, m, Apply(s, p.actions[a]))
  {
    var act := p.actions[a];
    var t := Apply(s, act);
    assert Enabled(p, m, a);
    forall f | f in t ensures f < p.fluents {
    }
    forall f, g | f in t && g in t ensures Norm(f, g) !in m {
      assert Norm(f, g) == Norm(g, f);
      if f !in act.add && g in act.add {
        assert Coexists(p, m, a, f);
        assert f in [f];
      } else if f in act.add && g !in act.add {
        assert Coexists(p, m, a, g);
        assert g in [g];
      }
    }
  }

  /** Two fluents that hold together in a state reached by any sequence of actions are not mutex. */
  lemma {:induction false} ReachableStatesAllowed(p: Problem, m: set<Pair>, plan: seq<Action>)
    requires WellFormed(p) && Closed(p, m)
    requires FromProblem(p, plan) && Executable(InitialState(p), plan)
    ensures StateAllowed(p, m, After(InitialState(p), plan))
  {
    var s0 := InitialState(p);
    if plan != [] {
      var n := |plan| - 1;
      ExecuteLast(s0, plan);
      ReachableStatesAllowed(p, m, plan[..n]);
      var a :| 1 <= a < |p.actions| && plan[n] == p.actions[a];
      StepAllowed(p, m, After(s0, plan[..n]), a);
    }
  }

  // ----- what the computation maintains

  ghost predicate KnownPairs(p: Problem, m: set<Pair>) {
    forall q :: q in m ==> q.0 <= q.1 < p.fluents
  }

  /** Every mutex that respects the rules is still there. */
  ghost predicate KeepsAllRespected(p: Problem, m: set<Pair>)
    requires |p.actions| >= 1
  {
    forall c :: KnownPairs(p, c) && Closed(p, c) ==> c <= m
  }

  /** Fewer mutexes; consumers of a fluent that lost one are flagged, and only consumers are. */
  ghost predicate Shrunk(p: Problem, m: set<Pair>, fl: seq<bool>, m': set<Pair>, fl': seq<bool>) {
    && m' <= m && |fl| == |fl'| == |p.actions|
    && (forall b :: 0 <= b < |fl| && fl[b] ==> fl'[b])
    && (forall b, q :: 0 <= b < |fl| && q in m && q !in m' && (q.0 in p.actions[b].prec || q.1 in p.actions[b].prec) ==> fl'[b])
    && (forall b :: 0 <= b < |fl| && fl'[b] && p.actions[b].prec == [] ==> fl[b])
    && (m' == m ==> fl' == fl)
  }

  lemma ShrunkTwice(p: Problem, m0: set<Pair>, f0: seq<bool>, m1: set<Pair>, f1: seq<bool>, m2: set<Pair>, f2: seq<bool>)
    requires Shrunk(p, m0, f0, m1, f1) && Shrunk(p, m1, f1, m2, f2)
    ensures Shrunk(p, m0, f0, m2, f2)
  {
  }

  /** Action `a` has nothing left to do: it is not enabled, or has treated every fluent it coexists with. */
  ghost predicate Done(p: Problem, m: set<Pair>, reached: bool, treated: set<Fluent>, a: nat)
    requires a < |p.actions|
  {
    && (Enabled(p, m, a) ==> reached)
    && (reached ==> forall f :: Coexists(p, m, a, f) ==> f in treated)
  }

  /** What has been concluded about `a`: it is enabled, and its effects lost the mutexes they must. */
  ghost predicate Concluded(p: Problem, m: set<Pair>, reached: bool, treated: set<Fluent>, a: nat)
    requires a < |p.actions|
  {
    && (reached ==> Enabled(p, m, a) && Together(m, p.actions[a].add, p.actions[a].add))
    && (forall f :: f in p.actions[a].del ==> f in treated)
    && (forall f :: f in treated && f !in p.actions[a].del ==> Together(m, [f], p.actions[a].add))
  }

  lemma DoneStays(p: Problem, m: set<Pair>, fl: seq<bool>, m': set<Pair>, fl': seq<bool>, reached: bool, treated: set<Fluent>, a: nat)
    requires WellFormed(p) && KnownPairs(p, m) && Shrunk(p, m, fl, m', fl') && a < |p.actions| && !fl'[a]
    requires Done(p, m, reached, treated, a)
    ensures Done(p, m', reached, treated, a)
  {
    forall f | Coexists(p, m', a, f) ensures Coexists(p, m, a, f) {
      forall y | y in p.actions[a].prec ensures Norm(f, y) !in m {
        assert f in [f];
        assert Norm(f, y).0 == y || Norm(f, y).1 == y;
      }
    }
    if Enabled(p, m', a) {
      forall x, y | x in p.actions[a].prec && y in p.actions[a].prec ensures Norm(x, y) !in m {
        assert Norm(x, y).0 == y || Norm(x, y).1 == y;
      }
    }
  }

  /** Once nothing is left to do, the mutexes respect the rules. */
  lemma AllDoneIsClosed(p: Problem, m: set<Pair>, reached: seq<bool>, treated: seq<set<Fluent>>)
    requires WellFormed(p) && |reached| == |treated| == |p.actions|
    requires Together(m, p.actions[0].add, p.actions[0].add)
    requires forall a :: 1 <= a < |p.actions| ==> Done(p, m, reached[a], treated[a], a) && Concluded(p, m, reached[a], treated[a], a)
    ensures Closed(p, m)
  {
    forall a, f | 1 <= a < |p.actions| && Enabled(p, m, a) && Coexists(p, m, a, f) && f !in p.actions[a].del
      ensures Together(m, [f], p.actions[a].add)
    {
      assert Done(p, m, reached[a], treated[a], a) && Concluded(p, m, reached[a], treated[a], a);
    }
    forall a | 1 <= a < |p.actions| && Enabled(p, m, a) ensures Together(m, p.actions[a].add, p.actions[a].add) {
      assert Done(p, m, reached[a], treated[a], a) && Concluded(p, m, reached[a], treated[a], a);
    }
  }

  // ----- what allows a pair

  /** No two preconditions of the action are mutex. */
  ghost predicate MayApply(a: Action, m: set<Pair>) {
    forall x, y :: x in a.prec && y in a.prec && x <= y ==> (x, y) !in m
  }

  /** The action adds `f`, and adds `g` too or may be applied where `g` holds and leaves it in place. */
  ghost predicate Allows(a: Action, m: set<Pair>, f: Fluent, g: Fluent) {
    && f in a.add
    && (g in a.add || (g !in a.del && forall y :: y in a.prec ==> (if g <= y then (g, y) else (y, g)) !in m))
  }

  /** Two fluents hold initially, or an action that may be applied lets them hold together. */
  ghost predicate PairAllowed(p: Problem, m: set<Pair>, f: Fluent, g: Fluent)
    requires |p.actions| >= 1
  {
    || (f in p.actions[0].add && g in p.actions[0].add)
    || exists a :: 1 <= a < |p.actions| && MayApply(p.actions[a], m) && (Allows(p.actions[a], m, f, g) || Allows(p.actions[a], m, g, f))
  }

  lemma EnabledMayApply(p: Problem, m: set<Pair>, a: nat)
    requires a < |p.actions|
    ensures Enabled(p, m, a) <==> MayApply(p.actions[a], m)
  {
    if MayApply(p.actions[a], m) {
      forall x, y | x in p.actions[a].prec && y in p.actions[a].prec ensures Norm(x, y) !in m {
        assert if x <= y then (x, y) !in m else (y, x) !in m;
      }
    }
    if Enabled(p, m, a) {
      forall x, y | x in p.actions[a].prec && y in p.actions[a].prec && x <= y ensures (x, y) !in m {
        assert Norm(x, y) == (x, y);
      }
    }
  }

  lemma SurvivorCoexists(p: Problem, m: set<Pair>, a: nat, g: Fluent)
    requires WellFormed(p) && a < |p.actions| && g < p.fluents
    ensures Coexists(p, m, a, g) <==> forall y :: y in p.actions[a].prec ==> (if g <= y then (g, y) else (y, g)) !in m
  {
    assert forall y :: Norm(g, y) == if g <= y then (g, y) else (y, g);
    assert g in [g];
  }

  lemma AllowedIsClear(p: Problem, m: set<Pair>, a: nat, f: Fluent, g: Fluent)
    requires WellFormed(p) && Closed(p, m) && 1 <= a < |p.actions| && MayApply(p.actions[a], m)
    requires f < p.fluents && g < p.fluents && Allows(p.actions[a], m, f, g)
    ensures Norm(f, g) !in m && Norm(g, f) !in m
  {
    EnabledMayApply(p, m, a);
    assert Norm(f, g) == Norm(g, f);
    if g in p.actions[a].add {
      assert Together(m, p.actions[a].add, p.actions[a].add);
    } else {
      SurvivorCoexists(p, m, a, g);
      assert Together(m, [g], p.actions[a].add) && g in [g];
    }
  }

  /** The rules, put in terms of the pairs: a mutex is a pair that nothing allows. */
  lemma ClosedIff(p: Problem, m: set<Pair>)
    requires WellFormed(p)
    ensures Closed(p, m) <==> forall f: nat, g: nat :: f <= g < p.fluents && PairAllowed(p, m, f, g) ==> (f, g) !in m
  {
    if Closed(p, m) {
      forall f: nat, g: nat | f <= g < p.fluents && PairAllowed(p, m, f, g) ensures (f, g) !in m {
        AllowedPairIsClear(p, m, f, g);
      }
    }
    if forall f: nat, g: nat :: f <= g < p.fluents && PairAllowed(p, m, f, g) ==> (f, g) !in m {
      ClearIsClosed(p, m);
    }
  }

  lemma AllowedPairIsClear(p: Problem, m: set<Pair>, f: Fluent, g: Fluent)
    requires WellFormed(p) && Closed(p, m) && f <= g < p.fluents && PairAllowed(p, m, f, g)
    ensures (f, g) !in m
  {
    assert Norm(f, g) == (f, g);
    if !(f in p.actions[0].add && g in p.actions[0].add) {
      var a :| 1 <= a < |p.actions| && MayApply(p.actions[a], m) && (Allows(p.actions[a], m, f, g) || Allows(p.actions[a], m, g, f));
      if Allows(p.actions[a], m, f, g) {
        AllowedIsClear(p, m, a, f, g);
      } else {
        AllowedIsClear(p, m, a, g, f);
      }
    }
  }

  lemma ClearPair(p: Problem, m: set<Pair>, f: Fluent, g: Fluent)
    requires |p.actions| >= 1 && f < p.fluents && g < p.fluents && PairAllowed(p, m, f, g)
    requires forall f: nat, g: nat :: f <= g < p.fluents && PairAllowed(p, m, f, g) ==> (f, g) !in m
    ensures Norm(f, g) !in m
  {
    assert PairAllowed(p, m, g, f);
    assert Norm(f, g) == if f <= g then (f, g) else (g, f);
  }

  lemma ClearIsClosed(p: Problem, m: set<Pair>)
    requires WellFormed(p)
    requires forall f: nat, g: nat :: f <= g < p.fluents && PairAllowed(p, m, f, g) ==> (f, g) !in m
    ensures Closed(p, m)
  {
    forall x, y | x in p.actions[0].add && y in p.actions[0].add ensures Norm(x, y) !in m {
      ClearPair(p, m, x, y);
    }
    forall a | 1 <= a < |p.actions| && Enabled(p, m, a) ensures Together(m, p.actions[a].add, p.actions[a].add) {
      forall x, y | x in p.actions[a].add && y in p.actions[a].add ensures Norm(x, y) !in m {
        AllowedByFewer(p, m, m, a, x, y);
        ClearPair(p, m, x, y);
      }
    }
    forall a, h | 1 <= a < |p.actions| && Enabled(p, m, a) && Coexists(p, m, a, h) && h !in p.actions[a].del
      ensures Together(m, [h], p.actions[a].add)
    {
      forall y | y in p.actions[a].add ensures Norm(h, y) !in m {
        AllowedByFewer(p, m, m, a, y, h);
        ClearPair(p, m, h, y);
      }
    }
  }

  /** An action that makes room for a pair under more mutexes does so under fewer. */
  lemma AllowedByFewer(p: Problem, c: set<Pair>, m: set<Pair>, a: nat, f: Fluent, g: Fluent)
    requires 1 <= a < |p.actions| && m <= c && Enabled(p, c, a) && f in p.actions[a].add
    requires g in p.actions[a].add || (Coexists(p, c, a, g) && g !in p.actions[a].del)
    ensures PairAllowed(p, m, f, g) && PairAllowed(p, m, g, f)
  {
    EnabledMayApply(p, m, a);
    assert Enabled(p, m, a);
    if g !in p.actions[a].add {
      forall y | y in p.actions[a].prec ensures (if g <= y then (g, y) else (y, g)) !in m {
        assert g in [g] && Norm(g, y) !in c;
      }
    }
    assert Allows(p.actions[a], m, f, g);
  }

  /** One more mutex, which nothing allows, respects the rules too. */
  lemma OneMoreRespected(p: Problem, m: set<Pair>, f: Fluent, g: Fluent)
    requires WellFormed(p) && Closed(p, m) && !PairAllowed(p, m, f, g)
    ensures Closed(p, m + {Norm(f, g)})
  {
    var c := m + {Norm(f, g)};
    forall x, y | x in p.actions[0].add && y in p.actions[0].add ensures Norm(x, y) !in c {
      assert Norm(x, y) == Norm(f, g) ==> (x, y) == (f, g) || (x, y) == (g, f);
    }
    forall a | 1 <= a < |p.actions| && Enabled(p, c, a) ensures Together(c, p.actions[a].add, p.actions[a].add) {
      assert Enabled(p, m, a);
      forall x, y | x in p.actions[a].add && y in p.actions[a].add ensures Norm(x, y) !in c {
        AllowedByFewer(p, c, m, a, x, y);
      }
    }
    forall a, h | 1 <= a < |p.actions| && Enabled(p, c, a) && Coexists(p, c, a, h) && h !in p.actions[a].del
      ensures Together(c, [h], p.actions[a].add)
    {
      assert Enabled(p, m, a) && Coexists(p, m, a, h);
      assert h in [h];
      forall y | y in p.actions[a].add ensures Norm(h, y) !in c {
        AllowedByFewer(p, c, m, a, y, h);
      }
    }
  }

  /** A pair that the largest set of mutexes leaves out is allowed by the initial state or by an action. */
  lemma LostPairsAreAllowed(p: Problem, m: set<Pair>, f: Fluent, g: Fluent)
    requires WellFormed(p) && Closed(p, m) && KnownPairs(p, m) && KeepsAllRespected(p, m)
    requires f <= g < p.fluents && (f, g) !in m
    ensures PairAllowed(p, m, f, g)
  {
    if !PairAllowed(p, m, f, g) {
      OneMoreRespected(p, m, f, g);
      assert Norm(f, g) == (f, g) && KnownPairs(p, m + {Norm(f, g)});
    }
  }

  /** The mutexes removed for the effects of an enabled action are no mutexes by any account. */
  lemma RemovalKeepsRespected(p: Problem, m: set<Pair>, a: nat, xs: seq<Fluent>)
    requires WellFormed(p) && 1 <= a < |p.actions| && KeepsAllRespected(p, m) && Enabled(p, m, a)
    requires xs == p.actions[a].add || (|xs| == 1 && Coexists(p, m, a, xs[0]) && xs[0] !in p.actions[a].del)
    ensures KeepsAllRespected(p, m - PairsOf(xs, p.actions[a].add))
  {
    forall c | KnownPairs(p, c) && Closed(p, c) ensures c <= m - PairsOf(xs, p.actions[a].add) {
      assert c <= m;
      assert Enabled(p, c, a);
      if xs != p.actions[a].add {
        assert Coexists(p, c, a, xs[0]);
        assert xs == [xs[0]];
      }
      assert Together(c, xs, p.actions[a].add);
    }
  }
}
