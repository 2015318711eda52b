/**
 The precedences between the active actions of a partial plan, kept transitively closed by
 two mutually recursive procedures, together with the bounds on start times they tighten.
 */
module Precedences {
  import opened Orders
  import Counting

  /** Nothing the plan `p` allows has been lost, if it orders `x` before `y`. */
  ghost predicate Keeps(a: Actions, r: set<Pair>, inf: seq<int>, sup: seq<int>, x: nat, y: nat,
                        ok: bool, r': set<Pair>, inf': seq<int>, sup': seq<int>)
    requires WellSized(a)
  {
    forall p: Plan :: IsPlan(a, p) && r <= p.order && (x, y) in p.order && InBounds(p, inf, sup)
                      ==> ok && r' <= p.order && InBounds(p, inf', sup')
  }

  /** `r'` has grown from `r` inside `t`, by completed pairs only. */
  ghost predicate Grown(r: set<Pair>, r': set<Pair>, t: set<Pair>) {
    r <= r' <= t && forall p :: p in r' && p !in r ==> Completed(p, r')
  }

  lemma GrownTwice(r0: set<Pair>, r1: set<Pair>, r2: set<Pair>, t: set<Pair>)
    requires Grown(r0, r1, t) && Grown(r1, r2, t)
    ensures Grown(r0, r2, t)
  {
    forall p | p in r2 && p !in r0 ensures Completed(p, r2) {
      if p in r1 {
        CompletedStays(p, r1, r2);
      }
    }
  }

  /** Bounds have only been tightened. */
  ghost predicate Tighter(inf: seq<int>, sup: seq<int>, inf': seq<int>, sup': seq<int>) {
    && |inf| == |sup| == |inf'| == |sup'|
    && forall v :: 0 <= v < |inf| ==> inf[v] <= inf'[v] && sup'[v] <= sup[v]
  }

  /** Every pair added to `r` but `(x, y)` has been propagated to the bounds. */
  ghost predicate Propagated(a: Actions, r: set<Pair>, inf: seq<int>, sup: seq<int>, x: nat, y: nat,
                             r': set<Pair>, inf': seq<int>, sup': seq<int>)
    requires WellSized(a) && |inf| == |sup| == |inf'| == |sup'| == |a.dur|
  {
    forall p :: p in r' && p !in r && p != (x, y) && p.0 < |a.dur| && p.1 < |a.dur|
                ==> inf'[p.1] >= inf[p.0] + Delta(a, p.0, p.1) && sup'[p.0] <= sup[p.1] - Delta(a, p.0, p.1)
  }

  /** While the pair from `x` to `y` is being completed: the chains through the actions before `z` are shortcut. */
  ghost predicate ShortcutBelow(r: set<Pair>, x: nat, y: nat, z: nat) {
    && (forall w: nat :: w < z && (y, w) in r ==> (x, w) in r)
    && (forall w: nat :: w < z && (w, x) in r ==> (w, y) in r)
  }

  lemma ShortcutStays(r: set<Pair>, r': set<Pair>, t: set<Pair>, x: nat, y: nat, z: nat)
    requires Grown(r, r', t) && (x, y) in r && ShortcutBelow(r, x, y, z)
    ensures ShortcutBelow(r', x, y, z)
  {
    forall w: nat | w < z && (y, w) in r' ensures (x, w) in r' {
      if (y, w) !in r {
        assert Completed((y, w), r') && (x, y).1 == (y, w).0;
      }
    }
    forall w: nat | w < z && (w, x) in r' ensures (w, y) in r' {
      if (w, x) !in r {
        assert Completed((w, x), r') && (w, x).1 == (x, y).0;
      }
    }
  }

  ghost predicate InUniverse(r: set<Pair>, n: nat) {
    forall p :: p in r ==> p.0 < n && p.1 < n
  }

  /** All but the pair itself, grown from the relation in which it was added. */
  lemma ShortcutCompletes(r0: set<Pair>, r: set<Pair>, t: set<Pair>, x: nat, y: nat, n: nat)
    requires Grown(r0 + {(x, y)}, r, t) && InUniverse(t, n) && ShortcutBelow(r, x, y, n)
    ensures Grown(r0, r, t) && Completed((x, y), r)
  {
    forall q | q in r && q.0 == (x, y).1 ensures ((x, y).0, q.1) in r {
      assert q == (y, q.1);
    }
    forall q | q in r && q.1 == (x, y).0 ensures (q.0, (x, y).1) in r {
      assert q == (q.0, x);
    }
  }

  lemma ClosureInUniverse(r: set<Pair>, x: nat, y: nat, n: nat)
    requires InUniverse(r, n) && x < n && y < n
    ensures InUniverse(Closure(r, x, y), n)
  {
    forall p | p in Closure(r, x, y) ensures p.0 < n && p.1 < n {
      ClosureMembers(r, x, y, p.0, p.1);
      assert p == (p.0, p.1);
      if p !in r {
        assert p.0 == x || (p.0, x).0 < n;
        assert p.1 == y || (y, p.1).1 < n;
      }
    }
  }

  class Store {
    const acts: Actions
    const inf: array<int>
    const sup: array<int>
    var precedes: set<Pair>

    ghost predicate Valid()
      reads this
    {
      WellSized(acts) && inf.Length == sup.Length == |acts.dur| && inf != sup && InUniverse(precedes, |acts.dur|)
    }

    constructor (a: Actions)
      requires WellSized(a)
      ensures Valid() && acts == a && precedes == {} && fresh(inf) && fresh(sup)
    {
      acts := a;
      inf := new int[|a.dur|](_ => 0);
      sup := new int[|a.dur|](_ => 0);
      precedes := {};
    }

    /** Raises a lower bound; the result is false on an empty window. */
    method UpdateInf(x: nat, v: int) returns (ok: bool)
      requires Valid() && x < inf.Length
      modifies inf
      ensures inf[..] == if ok && v > old(inf[x]) then old(inf[..])[x := v] else old(inf[..])
      ensures !ok <==> old(inf[x]) < v && old(sup[x]) < v
    {
      ok := true;
      if v > inf[x] {
        if v > sup[x] {
          return false;
        }
        ghost var before := inf[..];
        inf[x] := v;
        assert inf[..] == before[x := v];
      }
    }

    /** Lowers an upper bound; the result is false on an empty window. */
    method UpdateSup(x: nat, v: int) returns (ok: bool)
      requires Valid() && x < sup.Length
      modifies sup
      ensures sup[..] == if ok && v < old(sup[x]) then old(sup[..])[x := v] else old(sup[..])
      ensures !ok <==> old(sup[x]) > v && old(inf[x]) > v
    {
      ok := true;
      if v < sup[x] {
        if v < inf[x] {
          return false;
        }
        ghost var before := sup[..];
        sup[x] := v;
        assert sup[..] == before[x := v];
      }
    }

    /** The bounds of two active actions, the first before the second. */
    method SeparateBounds(x: nat, y: nat) returns (ok: bool)
      requires Valid() && x < inf.Length && y < inf.Length && x != y
      modifies inf, sup
      ensures Keeps(acts, precedes, old(inf[..]), old(sup[..]), x, y, ok, precedes, inf[..], sup[..])
      ensures Tighter(old(inf[..]), old(sup[..]), inf[..], sup[..])
      ensures ok ==> inf[y] >= old(inf[x]) + acts.dur[x] + acts.dist[x][y]
      ensures ok ==> sup[x] <= old(sup[y]) - (acts.dur[x] + acts.dist[x][y])
    {
      var d := Delta(acts, x, y);
      ok := UpdateInf(y, inf[x] + d);
      if ok {
        ok := UpdateSup(x, sup[y] - d);
      }
      forall p: Plan | IsPlan(acts, p) && (x, y) in p.order && InBounds(p, old(inf[..]), old(sup[..]))
        ensures ok && InBounds(p, inf[..], sup[..])
      {
        assert p.start[(x, y).0] + d <= p.start[(x, y).1];
      }
    }

    /** Whether the arguments of the closure procedures can be used: `t` bounds what may be added. */
    ghost predicate Extends(x: nat, y: nat, t: set<Pair>)
      requires Valid()
      reads this
    {
      && x < |acts.dur| && y < |acts.dur|
      && (x != y && (y, x) !in precedes ==> precedes <= t && Strict(t) && InUniverse(t, |acts.dur|) && (x, y) in t)
    }

    /** What they do to the precedences. */
    twostate predicate Extended(x: nat, y: nat, t: set<Pair>, ok: bool)
      reads this
    {
      && (x == y || (x, y) in old(precedes) ==> precedes == old(precedes))
      && (x != y && (x, y) !in old(precedes) && (y, x) in old(precedes) ==> !ok)
      && (x != y && (y, x) !in old(precedes) && ok ==> Grown(old(precedes), precedes, t) && (x, y) in precedes)
    }

    /**
     The entry to the closure.  On a strict order it leaves exactly the closure of the order
     and the new pair; it refuses a pair that closes a cycle, and refuses another pair only
     when no plan within the bounds orders the two actions this way.
     */
    method AddPrecedence(x: nat, y: nat) returns (ok: bool)
      requires Valid() && Strict(precedes) && x < |acts.dur| && y < |acts.dur|
      modifies `precedes, inf, sup
      ensures ok ==> Valid() && Strict(precedes)
      ensures ok ==> precedes == if x == y || (x, y) in old(precedes) then old(precedes) else Closure(old(precedes), x, y)
      ensures (y, x) in old(precedes) ==> !ok
      ensures Keeps(acts, old(precedes), old(inf[..]), old(sup[..]), x, y, ok, precedes, inf[..], sup[..])
      ensures ok ==> Tighter(old(inf[..]), old(sup[..]), inf[..], sup[..])
      ensures ok ==> Propagated(acts, old(precedes), old(inf[..]), old(sup[..]), x, y, precedes, inf[..], sup[..])
    {
      ghost var r, t := precedes, Closure(precedes, x, y);
      if x != y && (y, x) !in r {
        ClosureIsStrict(r, x, y);
        ClosureInUniverse(r, x, y, |acts.dur|);
      }
      if (y, x) in r {
        StrictIsAsymmetric(r, y, x);
      }
      ok := MakePrecede(x, y, t);
      if ok && x != y && (x, y) !in r {
        GrownIsTransitive(r, precedes);
        ClosureIsLeast(r, x, y, precedes);
      }
    }

    /** Orders two active actions: their bounds first, then the precedences. */
    method OrderBefore(x: nat, y: nat, ghost t: set<Pair>) returns (ok: bool)
      requires Valid() && Extends(x, y, t) && x != y
      modifies `precedes, inf, sup
      ensures ok ==> Valid()
      ensures Extended(x, y, t, ok)
      ensures Keeps(acts, old(precedes), old(inf[..]), old(sup[..]), x, y, ok, precedes, inf[..], sup[..])
      ensures ok ==> Tighter(old(inf[..]), old(sup[..]), inf[..], sup[..])
      ensures ok ==> Propagated(acts, old(precedes), old(inf[..]), old(sup[..]), x, y, precedes, inf[..], sup[..])
      ensures ok ==> inf[y] >= old(inf[x]) + Delta(acts, x, y) && sup[x] <= old(sup[y]) - Delta(acts, x, y)
      decreases |t - precedes|, 1
    {
      ghost var r0, i0, s0 := precedes, inf[..], sup[..];
      ok := SeparateBounds(x, y);
      if ok {
        ghost var i1, s1 := inf[..], sup[..];
        ok := MakePrecede(x, y, t);
        KeepsTwice(acts, r0, i0, s0, x, y, r0, i1, s1, x, y, ok, precedes, inf[..], sup[..]);
      }
    }

    /**
     Records that `x` precedes `y` and completes the relation: the actions after `y` are
     ordered after `x`, those before `x` before `y`.  The result is false when the pair closes
     a cycle or a window becomes empty.
     */
    method MakePrecede(x: nat, y: nat, ghost t: set<Pair>) returns (ok: bool)
      requires Valid() && Extends(x, y, t)
      modifies `precedes, inf, sup
      ensures ok ==> Valid()
      ensures Extended(x, y, t, ok)
      ensures Keeps(acts, old(precedes), old(inf[..]), old(sup[..]), x, y, ok, precedes, inf[..], sup[..])
      ensures ok ==> Tighter(old(inf[..]), old(sup[..]), inf[..], sup[..])
      ensures ok ==> Propagated(acts, old(precedes), old(inf[..]), old(sup[..]), x, y, precedes, inf[..], sup[..])
      decreases |t - precedes|, 0
    {
      ok := true;
      if x == y || (x, y) in precedes {
        return;
      }
      if (y, x) in precedes {
        CycleAllowsNoPlan(acts, precedes, x, y);
        return false;
      }
      ghost var r0 := precedes;
      precedes := precedes + {(x, y)};
      Counting.StrictSubsetCount(t - precedes, t - r0);
      ok := CompleteAll(x, y, r0, t);
    }

    /** The loop of the closure, over all active actions. */
    method CompleteAll(x: nat, y: nat, ghost r0: set<Pair>, ghost t: set<Pair>) returns (ok: bool)
      requires Valid() && x < |acts.dur| && y < |acts.dur| && precedes == r0 + {(x, y)}
      requires Strict(t) && InUniverse(t, |acts.dur|) && precedes <= t
      modifies `precedes, inf, sup
      ensures ok ==> Valid() && Grown(r0, precedes, t) && (x, y) in precedes
      ensures Keeps(acts, r0, old(inf[..]), old(sup[..]), x, y, ok, precedes, inf[..], sup[..])
      ensures ok ==> Tighter(old(inf[..]), old(sup[..]), inf[..], sup[..])
      ensures ok ==> Propagated(acts, r0, old(inf[..]), old(sup[..]), x, y, precedes, inf[..], sup[..])
      decreases |t - precedes|, 4
    {
      ghost var i0, s0 := inf[..], sup[..];
      ok := true;
      var z := 0;
      while z < |acts.dur|
        invariant 0 <= z <= |acts.dur| && ok && Valid()
        invariant old(precedes) <= precedes
        invariant Grown(r0 + {(x, y)}, precedes, t) && ShortcutBelow(precedes, x, y, z)
        invariant Keeps(acts, r0, i0, s0, x, y, true, precedes, inf[..], sup[..])
        invariant Tighter(i0, s0, inf[..], sup[..]) && Propagated(acts, r0, i0, s0, x, y, precedes, inf[..], sup[..])
      {
        Counting.SubsetCount(t - precedes, t - old(precedes));
        ok := CompleteWith(x, y, z, r0, i0, s0, t);
        if !ok {
          return;
        }
        z := z + 1;
      }
      ShortcutCompletes(r0, precedes, t, x, y, |acts.dur|);
    }

    /** Orders one more pair that follows from the pair being completed. */
    method CompletePair(x: nat, y: nat, u: nat, v: nat, ghost z: nat, ghost r0: set<Pair>, ghost i0: seq<int>,
                        ghost s0: seq<int>, ghost t: set<Pair>) returns (ok: bool)
      requires Valid() && u < |acts.dur| && v < |acts.dur|
      requires Strict(t) && InUniverse(t, |acts.dur|) && (x, y) in precedes
      requires Grown(r0 + {(x, y)}, precedes, t) && ShortcutBelow(precedes, x, y, z)
      requires Keeps(acts, r0, i0, s0, x, y, true, precedes, inf[..], sup[..])
      requires |i0| == |s0| == |acts.dur|
      requires Tighter(i0, s0, inf[..], sup[..]) && Propagated(acts, r0, i0, s0, x, y, precedes, inf[..], sup[..])
      requires (u == x && (y, v) in precedes) || (v == y && (u, x) in precedes)
      modifies `precedes, inf, sup
      ensures ok ==> Valid() && Grown(r0 + {(x, y)}, precedes, t) && ShortcutBelow(precedes, x, y, z)
      ensures ok ==> old(precedes) <= precedes && (u, v) in precedes
      ensures ok ==> Grown(old(precedes), precedes, t)
      ensures Keeps(acts, r0, i0, s0, x, y, ok, precedes, inf[..], sup[..])
      ensures ok ==> Tighter(i0, s0, inf[..], sup[..])
      ensures ok ==> Propagated(acts, r0, i0, s0, x, y, precedes, inf[..], sup[..])
      decreases |t - precedes|, 2
    {
      ghost var r1, i1, s1 := precedes, inf[..], sup[..];
      FollowsInStrict(t, x, y, u, v);
      ok := OrderBefore(u, v, t);
      KeepsTwice(acts, r0, i0, s0, x, y, r1, i1, s1, u, v, ok, precedes, inf[..], sup[..]);
      if ok {
        GrownTwice(r0 + {(x, y)}, r1, precedes, t);
        ShortcutStays(r1, precedes, t, x, y, z);
      }
    }

    /** One turn of the loop of the closure: the chains through action `z`. */
    method CompleteWith(x: nat, y: nat, z: nat, ghost r0: set<Pair>, ghost i0: seq<int>, ghost s0: seq<int>, ghost t: set<Pair>)
        returns (ok: bool)
      requires Valid() && z < |acts.dur| && x < |acts.dur| && y < |acts.dur|
      requires Strict(t) && InUniverse(t, |acts.dur|) && (x, y) in precedes
      requires Grown(r0 + {(x, y)}, precedes, t) && ShortcutBelow(precedes, x, y, z)
      requires Keeps(acts, r0, i0, s0, x, y, true, precedes, inf[..], sup[..])
      requires |i0| == |s0| == |acts.dur|
      requires Tighter(i0, s0, inf[..], sup[..]) && Propagated(acts, r0, i0, s0, x, y, precedes, inf[..], sup[..])
      modifies `precedes, inf, sup
      ensures ok ==> Valid() && Grown(r0 + {(x, y)}, precedes, t) && ShortcutBelow(precedes, x, y, z + 1)
      ensures ok ==> old(precedes) <= precedes
      ensures Keeps(acts, r0, i0, s0, x, y, ok, precedes, inf[..], sup[..])
      ensures ok ==> Tighter(i0, s0, inf[..], sup[..])
      ensures ok ==> Propagated(acts, r0, i0, s0, x, y, precedes, inf[..], sup[..])
      decreases |t - precedes|, 3
    {
      ok := true;
      if z != x && z != y {
        if (y, z) in precedes && (x, z) !in precedes {
          ok := CompletePair(x, y, x, z, z, r0, i0, s0, t);
          if !ok {
            return;
          }
        }
        if (z, x) in precedes && (z, y) !in precedes {
          ok := CompletePair(x, y, z, y, z, r0, i0, s0, t);
        }
      }
    }
  }

  lemma FollowsInStrict(t: set<Pair>, x: nat, y: nat, u: nat, v: nat)
    requires Strict(t) && (x, y) in t && ((u == x && (y, v) in t) || (v == y && (u, x) in t))
    ensures (u, v) in t && u != v && (v, u) !in t
  {
    if u == x && (y, v) in t {
      assert (x, y).1 == (y, v).0;
    } else {
      assert (u, x).1 == (x, y).0;
    }
    StrictIsAsymmetric(t, u, v);
  }

  /** A plan cannot order two actions both ways. */
  lemma CycleAllowsNoPlan(a: Actions, r: set<Pair>, x: nat, y: nat)
    requires WellSized(a) && (y, x) in r
    ensures forall p: Plan :: IsPlan(a, p) && r <= p.order ==> (x, y) !in p.order
  {
    forall p: Plan | IsPlan(a, p) && r <= p.order ensures (x, y) !in p.order {
      StrictIsAsymmetric(p.order, y, x);
    }
  }

  /** Two steps in a row lose nothing if the first one implies the pair of the second. */
  lemma KeepsTwice(a: Actions, r0: set<Pair>, i0: seq<int>, s0: seq<int>, x: nat, y: nat,
                   r1: set<Pair>, i1: seq<int>, s1: seq<int>, u: nat, v: nat,
                   ok: bool, r2: set<Pair>, i2: seq<int>, s2: seq<int>)
    requires WellSized(a)
    requires Keeps(a, r0, i0, s0, x, y, true, r1, i1, s1)
    requires Keeps(a, r1, i1, s1, u, v, ok, r2, i2, s2)
    requires (u, v) == (x, y) || (u == x && (y, v) in r1) || (v == y && (u, x) in r1)
    ensures Keeps(a, r0, i0, s0, x, y, ok, r2, i2, s2)
  {
    forall p: Plan | IsPlan(a, p) && r0 <= p.order && (x, y) in p.order && InBounds(p, i0, s0)
      ensures ok && r2 <= p.order && InBounds(p, i2, s2)
    {
      if u == x && (y, v) in r1 {
        assert (x, y).1 == (y, v).0;
      } else if v == y && (u, x) in r1 {
        assert (u, x).1 == (x, y).0;
      }
      assert (u, v) in p.order;
    }
  }
}
