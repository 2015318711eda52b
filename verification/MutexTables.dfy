/** The computation of the permanent mutexes: bits cleared in place until no action is flagged. */
module MutexTables {
  import opened Planning
  import opened MutexRules
  import Counting

  class MutexTable {
    const p: Problem
    const flags: array<bool>            // actions to visit again
    const reached: array<bool>          // actions found to be enabled
    const treated: array<set<Fluent>>   // fluents an action deletes, or whose pairs it has cleared
    var mutex: set<Pair>

    ghost predicate Valid()
      reads this
    {
      && WellFormed(p) && p.actions[0].prec == []
      && flags.Length == reached.Length == treated.Length == |p.actions|
      && flags != reached
      && KnownPairs(p, mutex)
    }

    /** What every visit keeps. */
    ghost predicate Progress()
      requires Valid()
      reads this, flags, reached, treated
    {
      && KeepsAllRespected(p, mutex) && !flags[0]
      && Together(mutex, p.actions[0].add, p.actions[0].add)
      && (forall a :: 1 <= a < |p.actions| ==> Concluded(p, mutex, reached[a], treated[a], a))
      && (forall a :: 1 <= a < |p.actions| && !flags[a] ==> Done(p, mutex, reached[a], treated[a], a))
    }

    constructor (problem: Problem)
      requires WellFormed(problem) && problem.actions[0].prec == []
      ensures Valid() && p == problem && fresh(flags) && fresh(reached) && fresh(treated)
    {
      p := problem;
      flags := new bool[|problem.actions|](_ => false);
      reached := new bool[|problem.actions|](_ => false);
      treated := new set<Fluent>[|problem.actions|](_ => {});
      mutex := {};
    }

    /** Clears one pair and flags the consumers of both fluents. */
    method UpdatePair(f: Fluent, g: Fluent)
      requires Valid() && f < p.fluents && g < p.fluents
      modifies `mutex, flags
      ensures Valid() && mutex == old(mutex) - {Norm(f, g)}
      ensures Shrunk(p, old(mutex), old(flags[..]), mutex, flags[..])
    {
      if Norm(f, g) in mutex {
        mutex := mutex - {Norm(f, g)};
        ghost var fl := flags[..];
        var b := 0;
        while b < |p.actions|
          invariant 0 <= b <= |p.actions| && mutex == old(mutex) - {Norm(f, g)}
          invariant forall c :: 0 <= c < |p.actions| ==>
                      (flags[c] <==> fl[c] || (c < b && (f in p.actions[c].prec || g in p.actions[c].prec)))
        {
          if f in p.actions[b].prec || g in p.actions[b].prec {
            flags[b] := true;
          }
          b := b + 1;
        }
      }
    }

    /** Clears the pairs of one fluent with each of `ys`. */
    method ClearRow(f: Fluent, ys: seq<Fluent>)
      requires Valid() && f < p.fluents && Known(p, ys)
      modifies `mutex, flags
      ensures Valid() && mutex == old(mutex) - PairsOf([f], ys)
      ensures Shrunk(p, old(mutex), old(flags[..]), mutex, flags[..])
    {
      ghost var m0, f0 := mutex, flags[..];
      var j := 0;
      while j < |ys|
        invariant 0 <= j <= |ys| && Valid()
        invariant mutex == m0 - PairsOf([f], ys[..j])
        invariant Shrunk(p, m0, f0, mutex, flags[..])
      {
        ghost var m1, f1 := mutex, flags[..];
        UpdatePair(f, ys[j]);
        ShrunkTwice(p, m0, f0, m1, f1, mutex, flags[..]);
        PairsOneMore([f], ys, j, f);
        j := j + 1;
      }
      assert ys[..j] == ys;
    }

    /** Clears all pairs of `xs` with `ys`. */
    method ClearPairs(xs: seq<Fluent>, ys: seq<Fluent>)
      requires Valid() && Known(p, xs) && Known(p, ys)
      modifies `mutex, flags
      ensures Valid() && mutex == old(mutex) - PairsOf(xs, ys)
      ensures Shrunk(p, old(mutex), old(flags[..]), mutex, flags[..])
    {
      ghost var m0, f0 := mutex, flags[..];
      var i := 0;
      while i < |xs|
        invariant 0 <= i <= |xs| && Valid()
        invariant mutex == m0 - PairsOf(xs[..i], ys)
        invariant Shrunk(p, m0, f0, mutex, flags[..])
      {
        ghost var m1, f1 := mutex, flags[..];
        ClearRow(xs[i], ys);
        ShrunkTwice(p, m0, f0, m1, f1, mutex, flags[..]);
        RowsOneMore(xs, ys, i);
        i := i + 1;
      }
      assert xs[..i] == xs;
    }

    /** Everything but the rest of the work on action `a`. */
    ghost predicate ProgressExcept(a: nat)
      requires Valid()
      reads this, flags, reached, treated
    {
      && KeepsAllRespected(p, mutex) && !flags[0]
      && Together(mutex, p.actions[0].add, p.actions[0].add)
      && (forall b :: 1 <= b < |p.actions| ==> Concluded(p, mutex, reached[b], treated[b], b))
      && (forall b :: 1 <= b < |p.actions| && b != a && !flags[b] ==> Done(p, mutex, reached[b], treated[b], b))
    }

    /** Clears the pairs of `xs` with the effects of the enabled action `a`. */
    method ClearEffects(a: nat, xs: seq<Fluent>)
      requires Valid() && 1 <= a < |p.actions| && ProgressExcept(a) && Enabled(p, mutex, a) && Known(p, xs)
      requires xs == p.actions[a].add || (|xs| == 1 && Coexists(p, mutex, a, xs[0]) && xs[0] !in p.actions[a].del)
      modifies `mutex, flags
      ensures Valid() && ProgressExcept(a) && Enabled(p, mutex, a)
      ensures Shrunk(p, old(mutex), old(flags[..]), mutex, flags[..])
      ensures Together(mutex, xs, p.actions[a].add)
    {
      ghost var m, fl := mutex, flags[..];
      RemovalKeepsRespected(p, mutex, a, xs);
      ClearPairs(xs, p.actions[a].add);
      forall b | 1 <= b < |p.actions| && b != a && !flags[b] ensures Done(p, mutex, reached[b], treated[b], b) {
        DoneStays(p, m, fl, mutex, flags[..], reached[b], treated[b], b);
      }
    }

    ghost predicate DoneUpTo(a: nat, f: nat)
      requires Valid() && a < |p.actions|
      reads this, flags, treated
    {
      flags[a] || forall g: nat :: g < f && Coexists(p, mutex, a, g) ==> g in treated[a]
    }

    /** The second half of a visit: the pairs of each fluent that survives with each effect. */
    method TreatFluents(a: nat)
      requires Valid() && 1 <= a < |p.actions| && ProgressExcept(a) && reached[a]
      modifies `mutex, flags, treated
      ensures Valid() && Progress() && mutex <= old(mutex)
      ensures mutex == old(mutex) ==> flags[..] == old(flags[..])
    {
      ghost var m, fl := mutex, flags[..];
      var f := 0;
      while f < p.fluents
        invariant 0 <= f <= p.fluents && Valid() && ProgressExcept(a) && reached[a]
        invariant mutex <= m && (mutex == m ==> flags[..] == fl)
        invariant DoneUpTo(a, f)
      {
        if f !in treated[a] && Together(mutex, [f], p.actions[a].prec) {
          assert Concluded(p, mutex, reached[a], treated[a], a);
          ghost var m1, f1 := mutex, flags[..];
          ClearEffects(a, [f]);
          treated[a] := treated[a] + {f};
          if !flags[a] {
            CoexistsBefore(p, m1, f1, mutex, flags[..], a);
          }
        }
        f := f + 1;
      }
    }

    /** The visit of a flagged action. */
    method Visit(a: nat)
      requires Valid() && 1 <= a < |p.actions| && Progress()
      modifies `mutex, flags, treated, reached
      ensures Valid() && Progress() && mutex <= old(mutex)
      ensures mutex == old(mutex) ==> flags[..] == old(flags[..])[a := false]
    {
      ghost var m, fl := mutex, flags[..];
      flags[a] := false;
      assert flags[..] == fl[a := false];
      if !reached[a] {
        if !Together(mutex, p.actions[a].prec, p.actions[a].prec) {
          return;
        }
        ClearEffects(a, p.actions[a].add);
        reached[a] := true;
      }
      TreatFluents(a);
    }

    ghost predicate SomeFlag()
      reads flags
    {
      exists a :: 0 <= a < flags.Length && flags[a]
    }

    /** One pass over all actions; the start has no precondition and is never flagged. */
    method Pass() returns (loop: bool)
      requires Valid() && Progress()
      modifies `mutex, flags, treated, reached
      ensures Valid() && Progress() && mutex <= old(mutex)
      ensures mutex == old(mutex) ==> !SomeFlag()
      ensures !loop ==> mutex == old(mutex)
      ensures loop ==> old(SomeFlag())
    {
      ghost var m := mutex;
      loop := false;
      var a := 0;
      while a < |p.actions|
        invariant 0 <= a <= |p.actions| && Valid() && Progress() && mutex <= m
        invariant mutex == m ==> forall b :: 0 <= b < a ==> !flags[b]
        invariant !loop ==> mutex == m && flags[..] == old(flags[..])
        invariant loop ==> old(SomeFlag())
      {
        if flags[a] {
          assert !loop ==> old(flags[..])[a];
          loop := true;
          Visit(a);
        }
        a := a + 1;
      }
    }

    /** All pairs of fluents start as mutexes, all actions without preconditions flagged. */
    method InitialiseBits()
      requires Valid()
      modifies `mutex, flags, treated, reached
      ensures Valid() && KeepsAllRespected(p, mutex)
      ensures forall a :: 0 <= a < |p.actions| ==> !reached[a] && treated[a] == set f | f in p.actions[a].del
      ensures forall a :: 0 <= a < |p.actions| ==> (flags[a] <==> a > 0 && p.actions[a].prec == [])
      ensures forall f: nat, g: nat :: f < p.fluents && g < p.fluents ==> Norm(f, g) in mutex
    {
      mutex := set f, g | 0 <= f < p.fluents && 0 <= g < p.fluents && f <= g :: (f, g);
      assert KeepsAllRespected(p, mutex) by {
        forall c | KnownPairs(p, c) ensures c <= mutex {
          forall q | q in c ensures q in mutex {
            assert q == (q.0, q.1);
          }
        }
      }
      assert forall f: nat, g: nat :: f < p.fluents && g < p.fluents ==> Norm(f, g) in mutex;
      ghost var m := mutex;
      var a := 0;
      while a < |p.actions|
        invariant 0 <= a <= |p.actions| && mutex == m
        invariant forall b :: 0 <= b < a ==> !reached[b] && treated[b] == set f | f in p.actions[b].del
        invariant forall b :: 0 <= b < a ==> (flags[b] <==> b > 0 && p.actions[b].prec == [])
      {
        reached[a] := false;
        treated[a] := set f | f in p.actions[a].del;
        flags[a] := a > 0 && p.actions[a].prec == [];
        a := a + 1;
      }
    }

    /** Clears the pairs of initial fluents. */
    method ClearInitialPairs()
      requires Valid()
      modifies `mutex, flags, treated, reached
      ensures Valid() && Progress()
    {
      InitialiseBits();
      ghost var m, fl := mutex, flags[..];
      InitialPairsRespected(p, mutex);
      ClearPairs(p.actions[0].add, p.actions[0].add);
      forall a | 1 <= a < |p.actions| && !flags[a] ensures Done(p, mutex, reached[a], treated[a], a) {
        UnflaggedNotEnabled(p, m, fl, mutex, flags[..], a);
      }
    }

    /** Passes until none finds a flagged action. */
    method ClearUntilDone()
      requires Valid() && Progress()
      modifies `mutex, flags, treated, reached
      ensures Valid() && Progress() && !SomeFlag()
    {
      var loop := true;
      while loop
        invariant Valid() && Progress() && (!loop ==> !SomeFlag())
        decreases |mutex|, if SomeFlag() then 1 else 0, loop
      {
        ghost var before := mutex;
        loop := Pass();
        if mutex != before {
          Counting.StrictSubsetCount(mutex, before);
        }
      }
    }

    /**
     The permanent mutexes.  What is left is the largest set of mutexes that respects the
     rules, so the pairs that lost theirs are exactly those some rule allows; an action is
     reached exactly when no two of its preconditions are mutex.
     */
    method ComputeMutexes()
      requires Valid()
      modifies `mutex, flags, treated, reached
      ensures Valid() && Closed(p, mutex)
      ensures forall c :: KnownPairs(p, c) && Closed(p, c) ==> c <= mutex
      ensures forall a :: 1 <= a < |p.actions| ==> (reached[a] <==> MayApply(p.actions[a], mutex))
      ensures forall f: nat, g: nat :: f <= g < p.fluents ==> ((f, g) in mutex <==> !PairAllowed(p, mutex, f, g))
    {
      ClearInitialPairs();
      ClearUntilDone();
      AllDoneIsClosed(p, mutex, reached[..], treated[..]);
      forall f: nat, g: nat | f <= g < p.fluents && (f, g) !in mutex ensures PairAllowed(p, mutex, f, g) {
        LostPairsAreAllowed(p, mutex, f, g);
      }
      ClosedIff(p, mutex);
      forall a | 1 <= a < |p.actions| ensures reached[a] <==> MayApply(p.actions[a], mutex) {
        EnabledMayApply(p, mutex, a);
        assert Concluded(p, mutex, reached[a], treated[a], a) && Done(p, mutex, reached[a], treated[a], a);
      }
    }
  }

  /** No rule-respecting mutex holds between initial fluents. */
  lemma InitialPairsRespected(p: Problem, m: set<Pair>)
    requires WellFormed(p) && KeepsAllRespected(p, m)
    ensures KeepsAllRespected(p, m - PairsOf(p.actions[0].add, p.actions[0].add))
  {
  }

  /** An action not flagged at the start has a precondition mutex with itself. */
  lemma UnflaggedNotEnabled(p: Problem, m: set<Pair>, fl: seq<bool>, m': set<Pair>, fl': seq<bool>, a: nat)
    requires WellFormed(p) && 1 <= a < |p.actions| && Shrunk(p, m, fl, m', fl') && !fl'[a]
    requires forall f: nat, g: nat :: f < p.fluents && g < p.fluents ==> Norm(f, g) in m
    requires fl[a] <==> p.actions[a].prec == []
    ensures !Enabled(p, m', a)
  {
    var f := p.actions[a].prec[0];
    assert Norm(f, f) in m && Norm(f, f).0 == f;
    assert f in p.actions[a].prec;
  }

  /**
   What the mutexes are for: a pair still marked never holds in a state reached by any
   sequence of actions, and an action left unreached is never applicable in one.
   */
  lemma MutexesAreInvariant(p: Problem, m: set<Pair>, plan: seq<Action>, f: Fluent, g: Fluent, a: nat)
    requires WellFormed(p) && Closed(p, m)
    requires FromProblem(p, plan) && Executable(InitialState(p), plan)
    requires 1 <= a < |p.actions|
    ensures Norm(f, g) in m ==> !(f in After(InitialState(p), plan) && g in After(InitialState(p), plan))
    ensures !Enabled(p, m, a) ==> !Applicable(After(InitialState(p), plan), p.actions[a])
  {
    ReachableStatesAllowed(p, m, plan);
    if Applicable(After(InitialState(p), plan), p.actions[a]) {
      StepAllowed(p, m, After(InitialState(p), plan), a);
    }
  }

  lemma CoexistsBefore(p: Problem, m: set<Pair>, fl: seq<bool>, m': set<Pair>, fl': seq<bool>, a: nat)
    requires WellFormed(p) && KnownPairs(p, m) && Shrunk(p, m, fl, m', fl') && a < |p.actions| && !fl'[a]
    ensures forall f :: Coexists(p, m', a, f) ==> Coexists(p, m, a, f)
  {
    var treated := set f | 0 <= f < p.fluents && Coexists(p, m, a, f);
    forall f | Coexists(p, m', a, f) ensures Coexists(p, m, a, f) {
      DoneStays(p, m, fl, m', fl', true, treated, a);
    }
  }

  lemma PairsOneMore(xs: seq<Fluent>, ys: seq<Fluent>, j: nat, f: Fluent)
    requires j < |ys| && xs == [f]
    ensures PairsOf(xs, ys[..j + 1]) == PairsOf(xs, ys[..j]) + {Norm(f, ys[j])}
  {
    var all := PairsOf(xs, ys[..j + 1]);
    forall q | q in all ensures q in PairsOf(xs, ys[..j]) + {Norm(f, ys[j])} {
      var x, y :| x in xs && y in ys[..j + 1] && q == Norm(x, y);
      assert y in ys[..j] || y == ys[j];
    }
    assert f in xs && ys[j] in ys[..j + 1];
    forall q | q in PairsOf(xs, ys[..j]) ensures q in all {
      var x, y :| x in xs && y in ys[..j] && q == Norm(x, y);
      assert y in ys[..j + 1];
    }
  }

  lemma RowsOneMore(xs: seq<Fluent>, ys: seq<Fluent>, i: nat)
    requires i < |xs|
    ensures PairsOf(xs[..i + 1], ys) == PairsOf(xs[..i], ys) + PairsOf([xs[i]], ys)
  {
    var all := PairsOf(xs[..i + 1], ys);
    forall q | q in all ensures q in PairsOf(xs[..i], ys) + PairsOf([xs[i]], ys) {
      var x, y :| x in xs[..i + 1] && y in ys && q == Norm(x, y);
      assert x in xs[..i] || x in [xs[i]];
    }
    forall q | q in PairsOf(xs[..i], ys) ensures q in all {
      var x, y :| x in xs[..i] && y in ys && q == Norm(x, y);
      assert x in xs[..i + 1];
    }
    forall q | q in PairsOf([xs[i]], ys) ensures q in all {
      var x, y :| x in [xs[i]] && y in ys && q == Norm(x, y);
      assert x in xs[..i + 1];
    }
  }
}
