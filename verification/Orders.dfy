/** Strict orders between actions, their closure under one more pair, and the plans they describe. */
module Orders {

  type Pair = (nat, nat)

  predicate Transitive(r: set<Pair>) {
    forall p, q :: p in r && q in r && p.1 == q.0 ==> (p.0, q.1) in r
  }

  predicate Strict(r: set<Pair>) {
    Transitive(r) && forall p :: p in r ==> p.0 != p.1
  }

  lemma StrictIsAsymmetric(r: set<Pair>, u: nat, v: nat)
    requires Strict(r) && (u, v) in r
    ensures u != v && (v, u) !in r
  {
    assert (u, v).0 != (u, v).1;
    assert (u, v).1 == (v, u).0;
    assert (u, u) !in r by {
      assert (u, u) in r ==> (u, u).0 != (u, u).1;
    }
  }

  /** All chains through `p` are shortcut in `r`. */
  predicate Completed(p: Pair, r: set<Pair>) {
    && (forall q :: q in r && q.0 == p.1 ==> (p.0, q.1) in r)
    && (forall q :: q in r && q.1 == p.0 ==> (q.0, p.1) in r)
  }

  /** The smallest transitive relation with `r` and the pair from `x` to `y`, if `r` is transitive. */
  function Closure(r: set<Pair>, x: nat, y: nat): set<Pair> {
    var before := {x} + set p | p in r && p.1 == x :: p.0;
    var after := {y} + set p | p in r && p.0 == y :: p.1;
    r + set u, v | u in before && v in after :: (u, v)
  }

  predicate InClosure(r: set<Pair>, x: nat, y: nat, u: nat, v: nat) {
    (u, v) in r || ((u == x || (u, x) in r) && (v == y || (y, v) in r))
  }

  lemma ClosureMembers(r: set<Pair>, x: nat, y: nat, u: nat, v: nat)
    ensures (u, v) in Closure(r, x, y) <==> InClosure(r, x, y, u, v)
  {
    var before := {x} + set p | p in r && p.1 == x :: p.0;
    var after := {y} + set p | p in r && p.0 == y :: p.1;
    assert u in before <==> u == x || (u, x) in r by {
      if (u, x) in r { assert (u, x).1 == x && (u, x).0 == u; }
    }
    assert v in after <==> v == y || (y, v) in r by {
      if (y, v) in r { assert (y, v).0 == y && (y, v).1 == v; }
    }
  }

  /** Adding a pair that closes no cycle to a strict order gives a strict order. */
  lemma ClosureIsStrict(r: set<Pair>, x: nat, y: nat)
    requires Strict(r) && x != y && (y, x) !in r
    ensures Strict(Closure(r, x, y)) && r <= Closure(r, x, y) && (x, y) in Closure(r, x, y)
  {
    var t := Closure(r, x, y);
    ClosureMembers(r, x, y, x, y);
    forall p, q | p in t && q in t && p.1 == q.0 ensures (p.0, q.1) in t {
      ClosureMembers(r, x, y, p.0, p.1);
      ClosureMembers(r, x, y, q.0, q.1);
      ClosureMembers(r, x, y, p.0, q.1);
      assert p == (p.0, p.1) && q == (q.0, q.1);
      if p in r && q in r {
        assert (p.0, q.1) in r;
      }
    }
    forall p | p in t ensures p.0 != p.1 {
      ClosureMembers(r, x, y, p.0, p.1);
      assert p == (p.0, p.1);
      assert (y, p.0).1 == (p.0, x).0;
    }
  }

  /** The closure lies in every transitive relation that holds `r` and the new pair. */
  lemma ClosureIsLeast(r: set<Pair>, x: nat, y: nat, t: set<Pair>)
    requires Transitive(t) && r <= t && (x, y) in t
    ensures Closure(r, x, y) <= t
  {
    forall p | p in Closure(r, x, y) ensures p in t {
      ClosureMembers(r, x, y, p.0, p.1);
      assert p == (p.0, p.1);
      if p !in r {
        var u, v := p.0, p.1;
        if u != x {
          assert (u, x) in t && (u, x).1 == (x, y).0;
        }
        assert (u, y) in t;
        if v != y {
          assert (y, v) in t && (u, y).1 == (y, v).0;
        }
      }
    }
  }

  /** A transitive relation grown by completed pairs only is transitive. */
  lemma GrownIsTransitive(r: set<Pair>, s: set<Pair>)
    requires Transitive(r) && r <= s && forall p :: p in s && p !in r ==> Completed(p, s)
    ensures Transitive(s)
  {
    forall p, q | p in s && q in s && p.1 == q.0 ensures (p.0, q.1) in s {
      if p in r && q in r {
        assert (p.0, q.1) in r;
      } else if p !in r {
        assert Completed(p, s);
      } else {
        assert Completed(q, s);
      }
    }
  }

  /** Pairs completed in `r` stay completed when `r` grows by completed pairs. */
  lemma CompletedStays(p: Pair, r: set<Pair>, s: set<Pair>)
    requires p in r && Completed(p, r) && r <= s
    requires forall q :: q in s && q !in r ==> Completed(q, s)
    ensures Completed(p, s)
  {
    forall q | q in s && q.0 == p.1 ensures (p.0, q.1) in s {
      if q !in r { assert Completed(q, s); }
    }
    forall q | q in s && q.1 == p.0 ensures (q.0, p.1) in s {
      if q !in r { assert Completed(q, s); }
    }
  }

  // ----- plans

  /** Durations, and least distances from the end of one action to the start of another. */
  datatype Actions = Actions(dur: seq<nat>, dist: seq<seq<nat>>)

  predicate WellSized(a: Actions) {
    |a.dist| == |a.dur| && forall x :: 0 <= x < |a.dist| ==> |a.dist[x]| == |a.dur|
  }

  function Delta(a: Actions, x: nat, y: nat): nat
    requires WellSized(a) && x < |a.dur| && y < |a.dur|
  {
    a.dur[x] + a.dist[x][y]
  }

  /** Start times with the order in which actions are taken to follow each other. */
  datatype Plan = Plan(start: seq<int>, order: set<Pair>)

  ghost predicate IsPlan(a: Actions, p: Plan)
    requires WellSized(a)
  {
    && |p.start| == |a.dur| && Strict(p.order)
    && forall q :: q in p.order && q.0 < |a.dur| && q.1 < |a.dur| ==> p.start[q.0] + Delta(a, q.0, q.1) <= p.start[q.1]
  }

  ghost predicate InBounds(p: Plan, inf: seq<int>, sup: seq<int>) {
    |p.start| == |inf| == |sup| && forall x :: 0 <= x < |inf| ==> inf[x] <= p.start[x] <= sup[x]
  }
}
