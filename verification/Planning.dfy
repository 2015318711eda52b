/**
 Grounded actions, states and the execution of action sequences, with the two static
 interference tests of `yahsp-common.cpp`.
 */
module Planning {
  import opened Counting

  type Fluent = nat

  type State = set<Fluent>

  datatype Action = Action(id: nat, prec: seq<Fluent>, add: seq<Fluent>, del: seq<Fluent>, dur: nat, cost: nat)

  /** All grounded actions, indexed by identifier: 0 is the start, 1 the end of the original problem. */
  datatype Problem = Problem(actions: seq<Action>, goal: Action, fluents: nat)

  predicate Known(p: Problem, fs: seq<Fluent>) {
    forall i :: 0 <= i < |fs| ==> fs[i] < p.fluents
  }

  predicate WellFormed(p: Problem) {
    && |p.actions| >= 2
    && (forall i :: 0 <= i < |p.actions| ==> p.actions[i].id == i)
    && (forall i :: 0 <= i < |p.actions| ==>
          Known(p, p.actions[i].prec) && Known(p, p.actions[i].add) && Known(p, p.actions[i].del))
    && p.goal.id == 1 && Known(p, p.goal.prec)
  }

  /** The planner options the tests read, with the permanent mutexes between actions. */
  datatype Options = Options(sequential: bool, fluentMutexes: bool, mutex: set<(nat, nat)>)

  predicate AMutex(o: Options, a1: Action, a2: Action) {
    (if a1.id < a2.id then (a1.id, a2.id) else (a2.id, a1.id)) in o.mutex
  }

  predicate Applicable(s: State, a: Action) {
    forall f :: f in a.prec ==> f in s
  }

  function Apply(s: State, a: Action): (r: State)
    ensures forall f :: f in r <==> f in a.add || (f in s && f !in a.del)
  {
    (s - set f | f in a.del) + set f | f in a.add
  }

  /** Some effect of `a` deletes what `b` needs or provides. */
  predicate Threatens(a: Action, b: Action) {
    exists f :: f in a.del && (f in b.prec || f in b.add)
  }

  predicate Supplies(a: Action, b: Action) {
    exists f :: f in b.prec && f in a.add
  }

  predicate ActionsMutex(o: Options, a1: Action, a2: Action) {
    o.sequential || (o.fluentMutexes && AMutex(o, a1, a2)) || Threatens(a1, a2) || Threatens(a2, a1)
  }

  predicate MustPrecede(o: Options, a1: Action, a2: Action) {
    ActionsMutex(o, a1, a2) || Supplies(a1, a2)
  }

  function After(s: State, p: seq<Action>): State {
    if p == [] then s else Apply(After(s, p[..|p| - 1]), p[|p| - 1])
  }

  predicate Executable(s: State, p: seq<Action>) {
    forall i :: 0 <= i < |p| ==> Applicable(After(s, p[..i]), p[i])
  }

  lemma ExecuteOneMore(s: State, p: seq<Action>, a: Action)
    ensures After(s, p + [a]) == Apply(After(s, p), a)
    ensures Executable(s, p + [a]) <==> Executable(s, p) && Applicable(After(s, p), a)
  {
    assert (p + [a])[..|p|] == p;
    forall i | 0 <= i < |p| ensures (p + [a])[..i] == p[..i] {
    }
    if Executable(s, p + [a]) {
      forall i | 0 <= i < |p| ensures Applicable(After(s, p[..i]), p[i]) {
        assert Applicable(After(s, (p + [a])[..i]), (p + [a])[i]);
      }
      assert Applicable(After(s, (p + [a])[..|p|]), (p + [a])[|p|]);
    }
  }

  lemma ExecuteLast(s: State, p: seq<Action>)
    requires p != []
    ensures After(s, p) == Apply(After(s, p[..|p| - 1]), p[|p| - 1])
    ensures Executable(s, p) <==> Executable(s, p[..|p| - 1]) && Applicable(After(s, p[..|p| - 1]), p[|p| - 1])
  {
    assert p == p[..|p| - 1] + [p[|p| - 1]];
    ExecuteOneMore(s, p[..|p| - 1], p[|p| - 1]);
  }

  // ----- where a fluent comes from

  predicate Kills(a: Action, f: Fluent) {
    f in a.del && f !in a.add
  }

  /**
   `f` holds before position `n` of `p` because of position `i`, the last one to add it, or
   because of the initial state when `i` is -1; nothing kills it in between.
   */
  ghost predicate Source(s: State, p: seq<Action>, n: nat, f: Fluent, i: int) {
    && -1 <= i < n <= |p|
    && (if i == -1 then f in s else f in p[i].add)
    && forall k :: i < k < n ==> f !in p[k].add && !Kills(p[k], f)
  }

  lemma {:induction false} HasSource(s: State, p: seq<Action>, n: nat, f: Fluent) returns (i: int)
    requires n <= |p| && f in After(s, p[..n])
    ensures Source(s, p, n, f, i)
    decreases n
  {
    if n == 0 {
      i := -1;
    } else {
      assert p[..n][..n - 1] == p[..n - 1];
      if f in p[n - 1].add {
        i := n - 1;
      } else {
        i := HasSource(s, p, n - 1, f);
      }
    }
  }

  /** A source need not be the last one to make its fluent hold. */
  lemma {:induction false} SourceHolds(s: State, p: seq<Action>, n: nat, f: Fluent, i: int)
    requires -1 <= i < n <= |p| || i == -1 == n - 1
    requires if i == -1 then f in s else f in p[i].add
    requires forall k :: i < k < n ==> !Kills(p[k], f)
    ensures f in After(s, p[..n])
    decreases n
  {
    if n > 0 {
      assert p[..n][..n - 1] == p[..n - 1];
      if i < n - 1 {
        SourceHolds(s, p, n - 1, f, i);
      }
    }
  }

  // ----- reorderings

  /** `pi` sends positions of the new order to positions of the old one, `pos` goes back. */
  predicate Inverse(pi: seq<nat>, pos: seq<nat>, n: nat) {
    && |pi| == n && |pos| == n
    && (forall j :: 0 <= j < n ==> pi[j] < n && pos[pi[j]] == j)
    && (forall i :: 0 <= i < n ==> pos[i] < n && pi[pos[i]] == i)
  }

  predicate Reordered(p: seq<Action>, q: seq<Action>, pi: seq<nat>, pos: seq<nat>) {
    && |q| == |p|
    && Inverse(pi, pos, |p|)
    && forall j :: 0 <= j < |q| ==> q[j] == p[pi[j]]
  }

  /** Two steps one of which threatens the other keep their order. */
  ghost predicate KeepsThreats(p: seq<Action>, pos: seq<nat>)
    requires |pos| == |p|
  {
    forall i, j :: 0 <= i < j < |p| && (Threatens(p[i], p[j]) || Threatens(p[j], p[i])) ==> pos[i] < pos[j]
  }

  ghost predicate LastSupplier(p: seq<Action>, i: nat, k: nat, f: Fluent) {
    i < k < |p| && f in p[k].prec && f in p[i].add && forall m :: i < m < k ==> f !in p[m].add
  }

  /** The last supplier of each precondition stays ahead of its consumer. */
  ghost predicate KeepsSuppliers(p: seq<Action>, pos: seq<nat>)
    requires |pos| == |p|
  {
    forall i: nat, k: nat, f: Fluent :: LastSupplier(p, i, k, f) ==> pos[i] < pos[k]
  }

  lemma {:induction false} InverseOf(pi: seq<nat>, n: nat, m: nat) returns (pos: seq<nat>)
    requires IsPermutation(pi, n) && m <= n
    ensures |pos| == m && forall i :: 0 <= i < m ==> pos[i] < n && pi[pos[i]] == i
    ensures m == n ==> Inverse(pi, pos, n)
    decreases m
  {
    if m == 0 {
      pos := [];
    } else {
      var front := InverseOf(pi, n, m - 1);
      PermutationHits(pi, n, m - 1);
      var j: nat :| j < n && pi[j] == m - 1;
      pos := front + [j];
    }
    if m == n {
      forall j | 0 <= j < n ensures pos[pi[j]] == j {
        assert pi[pos[pi[j]]] == pi[j];
      }
    }
  }

  /** The order of two threatening steps is also the same read from the new order. */
  lemma ThreatOrder(p: seq<Action>, q: seq<Action>, pi: seq<nat>, pos: seq<nat>, i: nat, d: nat, f: Fluent)
    requires Reordered(p, q, pi, pos) && KeepsThreats(p, pos)
    requires i < |p| && d < |p| && i != d
    requires f in p[d].del && (f in p[i].add || f in p[i].prec)
    ensures pos[i] < pos[d] <==> i < d
  {
    assert Threatens(p[d], p[i]);
    assert pi[pos[i]] == i && pi[pos[d]] == d;
  }

  lemma ReorderedStepApplicable(s: State, p: seq<Action>, q: seq<Action>, pi: seq<nat>, pos: seq<nat>, j: nat)
    requires Reordered(p, q, pi, pos) && KeepsThreats(p, pos) && KeepsSuppliers(p, pos)
    requires Executable(s, p) && j < |q|
    ensures Applicable(After(s, q[..j]), q[j])
  {
    var k := pi[j];
    forall f | f in q[j].prec ensures f in After(s, q[..j]) {
      assert Applicable(After(s, p[..k]), p[k]);
      var i := HasSource(s, p, k, f);
      if i >= 0 {
        assert LastSupplier(p, i, k, f);
      }
      var from := if i == -1 then -1 else pos[i];
      forall l | from < l < j ensures !Kills(q[l], f) {
        var d := pi[l];
        if Kills(q[l], f) {
          ThreatOrder(p, q, pi, pos, k, d, f);
          if i >= 0 {
            ThreatOrder(p, q, pi, pos, i, d, f);
          }
        }
      }
      SourceHolds(s, q, j, f, from);
    }
  }

  lemma ReorderedKeepsFluent(s: State, p: seq<Action>, q: seq<Action>, pi: seq<nat>, pos: seq<nat>, f: Fluent)
    requires Reordered(p, q, pi, pos) && KeepsThreats(p, pos)
    requires f in After(s, p)
    ensures f in After(s, q)
  {
    var n := |p|;
    assert p[..n] == p && q[..n] == q;
    var i := HasSource(s, p, n, f);
    var from := if i == -1 then -1 else pos[i];
    forall l | from < l < n ensures !Kills(q[l], f) {
      if Kills(q[l], f) && i >= 0 {
        ThreatOrder(p, q, pi, pos, i, pi[l], f);
      }
    }
    SourceHolds(s, q, n, f, from);
  }

  lemma ReorderedBack(p: seq<Action>, q: seq<Action>, pi: seq<nat>, pos: seq<nat>)
    requires Reordered(p, q, pi, pos) && KeepsThreats(p, pos)
    ensures Reordered(q, p, pos, pi) && KeepsThreats(q, pi)
  {
    forall a, b | 0 <= a < b < |q| && (Threatens(q[a], q[b]) || Threatens(q[b], q[a]))
      ensures pi[a] < pi[b]
    {
      assert pos[pi[a]] == a && pos[pi[b]] == b;
    }
  }

  /**
   Reordering an executable sequence without swapping a threatening pair or moving a
   consumer ahead of its last supplier keeps it executable, with the same final state.
   */
  lemma ReorderingKeepsMeaning(s: State, p: seq<Action>, q: seq<Action>, pi: seq<nat>, pos: seq<nat>)
    requires Reordered(p, q, pi, pos) && KeepsThreats(p, pos) && KeepsSuppliers(p, pos)
    requires Executable(s, p)
    ensures Executable(s, q)
    ensures After(s, q) == After(s, p)
  {
    forall j | 0 <= j < |q| ensures Applicable(After(s, q[..j]), q[j]) {
      ReorderedStepApplicable(s, p, q, pi, pos, j);
    }
    ReorderedBack(p, q, pi, pos);
    forall f ensures f in After(s, q) <==> f in After(s, p) {
      if f in After(s, p) {
        ReorderedKeepsFluent(s, p, q, pi, pos, f);
      }
      if f in After(s, q) {
        ReorderedKeepsFluent(s, q, p, pos, pi, f);
      }
    }
  }
}
