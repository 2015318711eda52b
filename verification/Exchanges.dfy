/**
 Which two neighbours of an executable sequence of actions can change places, from every state,
 and why sequences in which all pairs that do so can are free to be rearranged.
 */
module Exchanges {
  import opened Counting
  import opened Planning

  /** Some state lets `a` run, then `b`. */
  predicate CanFollow(a: Action, b: Action) {
    forall f :: f in b.prec ==> !Kills(a, f)
  }

  /**
   What lets `b` go first instead: it needs nothing that only `a` adds, destroys nothing that `a`
   needs or adds, and `a` destroys nothing that `b` adds.
   */
  predicate Swappable(a: Action, b: Action) {
    && (forall f :: f in b.prec && f in a.add ==> f in a.prec)
    && (forall f :: f in a.prec ==> !Kills(b, f))
    && (forall f :: f in a.add ==> !Kills(b, f))
    && (forall f :: f in b.add ==> !Kills(a, f))
  }

  /** Wherever `a` runs before `b`, they can change places. */
  predicate Commutes(a: Action, b: Action) {
    a == b || (CanFollow(a, b) ==> Swappable(a, b))
  }

  /** From `s`, both orders execute and end in the same state. */
  ghost predicate SameEitherWay(s: State, a: Action, b: Action) {
    && Applicable(s, b) && Applicable(Apply(s, b), a)
    && Apply(Apply(s, b), a) == Apply(Apply(s, a), b)
  }

  lemma SwappableIsSafe(s: State, a: Action, b: Action)
    requires Swappable(a, b) && Applicable(s, a) && Applicable(Apply(s, a), b)
    ensures SameEitherWay(s, a, b)
  {
    forall f | f in b.prec ensures f in s {
      assert f in Apply(s, a);
    }
    assert forall f :: f in Apply(Apply(s, b), a) <==> f in Apply(Apply(s, a), b);
  }

  /** Two actions that can run in this order, but cannot change places: a state in which that shows. */
  lemma UnswappableShows(a: Action, b: Action) returns (s: State)
    requires CanFollow(a, b) && !Swappable(a, b)
    ensures Applicable(s, a) && Applicable(Apply(s, a), b) && !SameEitherWay(s, a, b)
  {
    s := (set f | f in a.prec) + (set f | f in b.prec);
    if f :| f in b.prec && f in a.add && f !in a.prec {
      s := s - {f};
      assert !Applicable(s, b);
    } else if f :| f in a.prec && Kills(b, f) {
      assert f !in Apply(s, b);
    } else if f :| f in a.add && Kills(b, f) {
      assert f in Apply(Apply(s, b), a) && f !in Apply(Apply(s, a), b);
    } else {
      var f :| f in b.add && Kills(a, f);
      assert f !in Apply(Apply(s, b), a) && f in Apply(Apply(s, a), b);
    }
  }

  /** The test on the two actions is exact. */
  lemma SwappableIff(a: Action, b: Action)
    requires CanFollow(a, b)
    ensures Swappable(a, b)
            <==> forall s :: Applicable(s, a) && Applicable(Apply(s, a), b) ==> SameEitherWay(s, a, b)
  {
    if Swappable(a, b) {
      forall s | Applicable(s, a) && Applicable(Apply(s, a), b) ensures SameEitherWay(s, a, b) {
        SwappableIsSafe(s, a, b);
      }
    } else {
      var s := UnswappableShows(a, b);
    }
  }

  /** Two actions neither of which must precede the other can change places. */
  lemma UnrelatedCommute(o: Options, a: Action, b: Action)
    requires !MustPrecede(o, a, b)
    ensures Commutes(a, b)
  {
    assert !Threatens(a, b) && !Threatens(b, a) && !Supplies(a, b);
  }

  // ----- sequences

  /** The sequence `q` executes from `s` to the same state as `p`. */
  ghost predicate SameMeaning(s: State, p: seq<Action>, q: seq<Action>) {
    Executable(s, q) && After(s, q) == After(s, p)
  }

  lemma {:induction false} ExecuteBoth(s: State, p: seq<Action>, q: seq<Action>)
    ensures After(s, p + q) == After(After(s, p), q)
    ensures Executable(s, p + q) <==> Executable(s, p) && Executable(After(s, p), q)
    decreases |q|
  {
    if q == [] {
      assert p + q == p;
    } else {
      var n := |q| - 1;
      assert p + q == (p + q[..n]) + [q[n]] && q == q[..n] + [q[n]];
      ExecuteBoth(s, p, q[..n]);
      ExecuteOneMore(s, p + q[..n], q[n]);
      ExecuteOneMore(After(s, p), q[..n], q[n]);
    }
  }

  lemma ExecuteFirst(s: State, a: Action, q: seq<Action>)
    ensures After(s, [a] + q) == After(Apply(s, a), q)
    ensures Executable(s, [a] + q) <==> Applicable(s, a) && Executable(Apply(s, a), q)
  {
    ExecuteBoth(s, [a], q);
    assert [] + [a] == [a];
    ExecuteOneMore(s, [], a);
  }

  lemma ExecutePair(s: State, a: Action, b: Action)
    ensures After(s, [a, b]) == Apply(Apply(s, a), b)
    ensures Executable(s, [a, b]) <==> Applicable(s, a) && Applicable(Apply(s, a), b)
  {
    assert [a, b] == [] + [a] + [b];
    ExecuteOneMore(s, [], a);
    ExecuteOneMore(s, [] + [a], b);
  }

  /** Two actions that can run in this order, but have another meaning, or none, the other way round. */
  lemma UnswappablePair(a: Action, b: Action) returns (s: State)
    requires CanFollow(a, b) && !Swappable(a, b)
    ensures Executable(s, [a, b]) && !SameMeaning(s, [a, b], [b, a])
  {
    s := UnswappableShows(a, b);
    ExecutePair(s, a, b);
    ExecutePair(s, b, a);
  }

  /** Two neighbours change places. */
  lemma ExchangeNeighbours(s: State, x: seq<Action>, a: Action, b: Action, y: seq<Action>)
    requires Commutes(a, b) && Executable(s, x + [a, b] + y)
    ensures Executable(s, x + [b, a] + y) && After(s, x + [b, a] + y) == After(s, x + [a, b] + y)
  {
    var m := After(s, x);
    ExecuteBoth(s, x + [a, b], y);
    ExecuteBoth(s, x, [a, b]);
    ExecutePair(m, a, b);
    ExecuteBoth(s, x + [b, a], y);
    ExecuteBoth(s, x, [b, a]);
    ExecutePair(m, b, a);
    if a != b {
      assert CanFollow(a, b) by {
        assert forall f :: f in b.prec ==> f in Apply(m, a);
      }
      SwappableIsSafe(m, a, b);
    }
  }

  lemma Regrouped(w: seq<Action>, b: Action, a: Action, y: seq<Action>)
    ensures w + [b] + [a] + y == w + [b, a] + y
    ensures w + [a, b] + y == w + [a] + ([b] + y)
    ensures [a] + w + ([b] + y) == [a] + (w + [b]) + y
  {
  }

  /** An action that commutes with all before it can go first. */
  lemma {:induction false} MoveToFront(s: State, x: seq<Action>, a: Action, y: seq<Action>)
    requires Executable(s, x + [a] + y) && forall i :: 0 <= i < |x| ==> Commutes(x[i], a)
    ensures Executable(s, [a] + x + y) && After(s, [a] + x + y) == After(s, x + [a] + y)
    decreases |x|, 1
  {
    if x == [] {
      assert [a] + x == x + [a];
    } else {
      var n := |x| - 1;
      assert x == x[..n] + [x[n]];
      MoveOne(s, x[..n], x[n], a, y);
    }
  }

  /** The action changes places with the last one before it, then goes on to the front. */
  lemma MoveOne(s: State, w: seq<Action>, b: Action, a: Action, y: seq<Action>)
    requires Executable(s, w + [b] + [a] + y) && Commutes(b, a) && forall i :: 0 <= i < |w| ==> Commutes(w[i], a)
    ensures Executable(s, [a] + (w + [b]) + y) && After(s, [a] + (w + [b]) + y) == After(s, w + [b] + [a] + y)
    decreases |w| + 1, 0
  {
    Regrouped(w, b, a, y);
    ExchangeNeighbours(s, w, b, a, y);
    MoveToFront(s, w, a, [b] + y);
  }
}
