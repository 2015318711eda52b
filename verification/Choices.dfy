/**
 The pairs of alternatives the search branches on.  The two sides of a choice divide the solutions
 of the store among them: none is on both, none is on neither.  Propagating a side loses none
 of the solutions on it.
 */
module Choices {
  import opened Orders
  import opened Precedences
  import opened Buckets
  import opened EnumVariables
  import CostFixpoint
  import EdgeFinding

  type View = EdgeFinding.View

  // ----- ordering two actions that exclude each other

  /** The store allows the plan. */
  ghost predicate Possible(a: Actions, v: View, p: Plan) {
    WellSized(a) && IsPlan(a, p) && EdgeFinding.Allows(v, p)
  }

  /** Orders two active actions, and completes the precedences. */
  method OrderActions(s: Store, x: nat, y: nat) returns (ok: bool)
    requires s.Valid() && Strict(s.precedes) && x < |s.acts.dur| && y < |s.acts.dur| && x != y
    modifies s`precedes, s.inf, s.sup
    ensures ok ==> s.Valid() && Strict(s.precedes) && (x, y) in s.precedes
    ensures ok ==> EdgeFinding.Advances(old(EdgeFinding.ViewOf(s)), EdgeFinding.ViewOf(s))
    ensures ok ==> s.inf[y] >= old(s.inf[x]) + s.acts.dur[x] + s.acts.dist[x][y]
    ensures ok ==> s.sup[x] + s.acts.dur[x] + s.acts.dist[x][y] <= old(s.sup[y])
    ensures forall p: Plan :: Possible(s.acts, old(EdgeFinding.ViewOf(s)), p) && (x, y) in p.order
                              ==> ok && Possible(s.acts, EdgeFinding.ViewOf(s), p)
  {
    ghost var r, t := s.precedes, Closure(s.precedes, x, y);
    if (y, x) in r {
      StrictIsAsymmetric(r, y, x);
    } else {
      ClosureIsStrict(r, x, y);
      ClosureInUniverse(r, x, y, |s.acts.dur|);
    }
    ok := s.OrderBefore(x, y, t);
    if ok && (x, y) !in r {
      GrownIsTransitive(r, s.precedes);
    }
  }

  ghost predicate MutexSide(p: Plan, x: nat, y: nat, first: bool) {
    (if first then (x, y) else (y, x)) in p.order
  }

  /** Actions that exclude each other are ordered in exactly one of the two ways. */
  lemma MutexSidesCover(a: Actions, p: Plan, x: nat, y: nat)
    requires WellSized(a) && IsPlan(a, p) && ((x, y) in p.order || (y, x) in p.order)
    ensures MutexSide(p, x, y, true) <==> !MutexSide(p, x, y, false)
  {
    if (x, y) in p.order {
      StrictIsAsymmetric(p.order, x, y);
    }
  }

  method PropagateMutexChoice(s: Store, x: nat, y: nat, direction: bool, first: bool) returns (ok: bool)
    requires s.Valid() && Strict(s.precedes) && x < |s.acts.dur| && y < |s.acts.dur| && x != y
    modifies s`precedes, s.inf, s.sup
    ensures ok ==> s.Valid() && Strict(s.precedes)
    ensures forall p: Plan :: Possible(s.acts, old(EdgeFinding.ViewOf(s)), p) && MutexSide(p, x, y, first == direction)
                              ==> ok && Possible(s.acts, EdgeFinding.ViewOf(s), p)
    ensures ok ==> forall p: Plan :: Possible(s.acts, EdgeFinding.ViewOf(s), p)
                                     ==> Possible(s.acts, old(EdgeFinding.ViewOf(s)), p) && MutexSide(p, x, y, first == direction)
  {
    ghost var v := EdgeFinding.ViewOf(s);
    if first == direction {
      ok := OrderActions(s, x, y);
    } else {
      ok := OrderActions(s, y, x);
    }
    if ok {
      AdvancedAllowsLess(s.acts, v, EdgeFinding.ViewOf(s));
    }
  }

  /** A tightened store allows no more plans. */
  lemma AdvancedAllowsLess(a: Actions, v: View, v': View)
    requires EdgeFinding.Advances(v, v')
    ensures forall p: Plan :: Possible(a, v', p) ==> Possible(a, v, p)
  {
  }

  // ----- fixing a start time

  ghost predicate StartTimeSide(p: Plan, x: nat, at: int, first: bool)
    requires x < |p.start|
  {
    if first then p.start[x] <= at else p.start[x] > at
  }

  /** The action starts as early as it can, or later. */
  method PropagateStartTimeChoice(s: Store, x: nat, direction: bool, first: bool) returns (ok: bool)
    requires s.Valid() && x < |s.acts.dur|
    modifies s.inf, s.sup
    ensures s.Valid()
    ensures forall p: Plan :: Possible(s.acts, old(EdgeFinding.ViewOf(s)), p)
                              && StartTimeSide(p, x, old(s.inf[x]), first == direction)
                              ==> ok && Possible(s.acts, EdgeFinding.ViewOf(s), p)
    ensures ok ==> forall p: Plan :: Possible(s.acts, EdgeFinding.ViewOf(s), p)
                                     ==> Possible(s.acts, old(EdgeFinding.ViewOf(s)), p)
                                         && StartTimeSide(p, x, old(s.inf[x]), first == direction)
  {
    if first == direction {
      ok := s.UpdateSup(x, s.inf[x]);
    } else {
      ok := s.UpdateInf(x, s.inf[x] + 1);
    }
  }

  // ----- choosing a producer

  /**
   The constants of a causal link: the action that needs the fluent, the actions that may
   produce it, and the value of each action among them.
   */
  datatype Link = Link(consumer: nat, producers: seq<nat>, values: seq<int>)

  predicate WellLinked(l: Link, n: nat) {
    && l.consumer < n && |l.values| == n && |l.producers| <= MAXVAL
    && (forall i :: 0 <= i < |l.producers| ==> l.producers[i] < n && l.values[l.producers[i]] == i)
    && (forall a :: 0 <= a < n ==> l.values[a] == VAL_UNKNOWN || (0 <= l.values[a] < |l.producers| && l.producers[l.values[a]] == a))
  }

  class Causal {
    const link: Link
    const support: EnumVariable
    /** The window for the start of the producer. */
    var inf: int
    var sup: int

    constructor (l: Link, spare: nat, first: int, last: int)
      requires 0 < |l.producers| && |l.producers| + spare <= MAXVAL
      ensures link == l && inf == first && sup == last && Usable() && fresh(support) && fresh(support.bucket)
      ensures forall j :: CanTake(support.View(), j) <==> 0 <= j < |l.producers|
    {
      link, inf, sup := l, first, last;
      support := new EnumVariable(|l.producers|, spare);
      new;
      TakesMembers(support.View(), support.top, 0);
    }

    /** The domain is sound until a producer has been chosen. */
    ghost predicate Usable()
      reads support, support.bucket
    {
      && |link.producers| < support.bucket.Length
      && (if support.value == VAL_UNKNOWN then support.Valid() else 0 <= support.value < |link.producers|)
      && forall j :: CanTake(support.View(), j) ==> j < |link.producers|
    }

    /** Raises the lower end of the window; the result is false on an empty one. */
    method UpdateInf(v: int) returns (ok: bool)
      modifies `inf
      ensures inf == if ok && v > old(inf) then v else old(inf)
      ensures !ok <==> v > old(inf) && v > sup
    {
      ok := true;
      if v > inf {
        if v > sup {
          return false;
        }
        inf := v;
      }
    }

    /** Whether an action can be the producer. */
    method CanProduce(a: nat) returns (yes: bool)
      requires Usable() && a < |link.values| && WellLinked(link, |link.values|)
      ensures yes <==> exists j :: CanTake(support.View(), j) && link.producers[j] == a
    {
      var v := link.values[a];
      if v == VAL_UNKNOWN {
        yes := false;
      } else {
        yes := (support.value == VAL_UNKNOWN && support.bucket[v] == v) || support.value == v;
        assert yes <==> CanTake(support.View(), v);
      }
    }

    /** The least distance from the start of an action to that of a producer after it. */
    method DeltaTo(acts: Actions, a: nat) returns (d: int)
      requires WellSized(acts) && a < |acts.dur| && WellLinked(link, |acts.dur|) && Usable() && support.value == VAL_UNKNOWN
      ensures forall j :: CanTake(support.View(), j) ==> d <= Delta(acts, a, link.producers[j])
      ensures d == acts.dur[a] + CostFixpoint.MAXTIME
              || exists j :: CanTake(support.View(), j) && d == Delta(acts, a, link.producers[j])
    {
      TakesMembers(support.View(), support.top, 0);
      var vs := support.Visit();
      forall l | 0 <= l < |vs| ensures CanTake(support.View(), vs[l]) && 0 <= vs[l] < |link.producers| {
        assert vs[l] in vs;
      }
      d := CostFixpoint.MAXTIME;
      var k := 0;
      while k < |vs|
        invariant 0 <= k <= |vs|
        invariant forall l :: 0 <= l < k ==> d <= acts.dist[a][link.producers[vs[l]]]
        invariant d == CostFixpoint.MAXTIME || exists l :: 0 <= l < k && d == acts.dist[a][link.producers[vs[l]]]
      {
        if d > acts.dist[a][link.producers[vs[k]]] {
          d := acts.dist[a][link.producers[vs[k]]];
        }
        k := k + 1;
      }
      d := acts.dur[a] + d;
    }
  }

  /** The action is the producer, or is not. */
  method PropagateSupportChoice(c: Causal, a: nat, direction: bool, first: bool) returns (ok: bool)
    requires c.Usable() && WellLinked(c.link, |c.link.values|) && a < |c.link.values| && c.link.values[a] != VAL_UNKNOWN
    requires c.support.value == VAL_UNKNOWN && CanTake(c.support.View(), c.link.values[a])
    modifies c.support, c.support.bucket
    ensures ok ==> c.Usable()
    ensures ok ==> forall j :: CanTake(c.support.View(), j)
                               <==> CanTake(old(c.support.View()), j) && (j == c.link.values[a]) == (first == direction)
    ensures !ok ==> forall j :: CanTake(old(c.support.View()), j) ==> (j == c.link.values[a]) != (first == direction)
  {
    var i := c.link.values[a];
    TakesMembers(c.support.View(), c.support.top, i);
    if first == direction {
      var effect := c.support.Instantiate(i);
      ok := !effect.Emptied?;
    } else {
      ghost var d := c.support.View();
      var effect := c.support.Remove(i);
      ok := !effect.Emptied?;
      if ok {
        TakesMembers(c.support.View(), c.support.top, i);
      }
    }
  }

  // ----- a deleter and a causal link

  /** What a store and a causal link allow: a plan with a producer for the link. */
  ghost predicate Supports(a: Actions, v: View, l: Link, d: Domain, inf: int, sup: int, p: Plan, j: int) {
    && Possible(a, v, p) && WellLinked(l, |a.dur|) && |p.start| == |a.dur|
    && 0 <= j < |l.producers| && CanTake(d, j)
    && inf <= p.start[l.producers[j]] <= sup
    && (l.producers[j], l.consumer) in p.order
  }

  ghost predicate ConflictSide(p: Plan, l: Link, j: int, x: nat, before: bool)
    requires 0 <= j < |l.producers|
  {
    if before then x == l.producers[j] || (x, l.producers[j]) in p.order
    else (l.consumer, x) in p.order
  }

  /** A deleter that excludes producer and consumer, and does not come between them, is on exactly one side. */
  lemma ConflictSidesCover(a: Actions, p: Plan, l: Link, j: int, x: nat)
    requires WellSized(a) && IsPlan(a, p) && 0 <= j < |l.producers| && (l.producers[j], l.consumer) in p.order
    requires x == l.producers[j] || (x, l.producers[j]) in p.order || (l.producers[j], x) in p.order
    requires (x, l.consumer) in p.order || (l.consumer, x) in p.order
    requires !((l.producers[j], x) in p.order && (x, l.consumer) in p.order)
    ensures ConflictSide(p, l, j, x, true) <==> !ConflictSide(p, l, j, x, false)
  {
    var y, z := l.producers[j], l.consumer;
    if (z, x) in p.order {
      assert (y, z).1 == (z, x).0;
      StrictIsAsymmetric(p.order, y, x);
    }
  }

  ghost predicate Ready(s: Store, c: Causal)
    reads s, c, c.support, c.support.bucket
  {
    && s.Valid() && Strict(s.precedes) && c.Usable() && WellLinked(c.link, |s.acts.dur|)
    && c.support.bucket != s.inf && c.support.bucket != s.sup
  }

  /** An action before the producer starts with it, or is at least their distance apart from it. */
  lemma StartsBeforeProducer(a: Actions, v: View, l: Link, d: Domain, inf: int, sup: int, p: Plan, j: int, x: nat)
    requires Supports(a, v, l, d, inf, sup, p, j) && ConflictSide(p, l, j, x, true) && x < |a.dur|
    ensures p.start[x] <= p.start[l.producers[j]] <= sup
    ensures x != l.producers[j] ==> p.start[x] + Delta(a, x, l.producers[j]) <= p.start[l.producers[j]]
    ensures (x, l.consumer) in p.order
  {
    var y := l.producers[j];
    if x != y {
      assert p.start[(x, y).0] + Delta(a, (x, y).0, (x, y).1) <= p.start[(x, y).1];
      assert (x, y).1 == (y, l.consumer).0;
    }
  }

  /** The least time from the start of an action to that of the producer: none if it may be the producer itself. */
  ghost predicate IsDelay(a: Actions, l: Link, d: Domain, x: nat, delay: int)
    requires WellSized(a) && x < |a.dur| && WellLinked(l, |a.dur|) && forall j :: CanTake(d, j) ==> 0 <= j < |l.producers|
  {
    if exists j :: CanTake(d, j) && l.producers[j] == x then delay == 0
    else
      && (forall j :: CanTake(d, j) ==> delay <= a.dur[x] + a.dist[x][l.producers[j]])
      && (delay == a.dur[x] + CostFixpoint.MAXTIME || exists j :: CanTake(d, j) && delay == a.dur[x] + a.dist[x][l.producers[j]])
  }

  /** The action starts in time for a producer, and the producer not before it, given the bounds `v` from before. */
  ghost predicate BoundBefore(a: Actions, v: View, l: Link, d: Domain, x: nat, v': View, inf': int, sup: int) {
    && WellSized(a) && x < |a.dur| == |v.inf| == |v'.sup| && WellLinked(l, |a.dur|)
    && (forall j :: CanTake(d, j) ==> 0 <= j < |l.producers|)
    && exists delay: int :: IsDelay(a, l, d, x, delay) && v'.sup[x] <= sup - delay && inf' >= v.inf[x] + delay
  }

  lemma DelaysBeforeProducer(a: Actions, v: View, l: Link, d: Domain, inf: int, sup: int, x: nat, delay: int)
    requires WellSized(a) && x < |a.dur| && WellLinked(l, |a.dur|) && (forall j :: CanTake(d, j) ==> 0 <= j < |l.producers|)
    requires IsDelay(a, l, d, x, delay)
    ensures forall p: Plan, j: int :: Supports(a, v, l, d, inf, sup, p, j) && ConflictSide(p, l, j, x, true)
              ==> p.start[x] + delay <= p.start[l.producers[j]] <= sup
  {
    forall p: Plan, j: int | Supports(a, v, l, d, inf, sup, p, j) && ConflictSide(p, l, j, x, true)
      ensures p.start[x] + delay <= p.start[l.producers[j]] <= sup
    {
      StartsBeforeProducer(a, v, l, d, inf, sup, p, j, x);
    }
  }

  method DelayOf(s: Store, c: Causal, x: nat) returns (d: int)
    requires Ready(s, c) && x < |s.acts.dur| && c.support.value == VAL_UNKNOWN
    ensures IsDelay(s.acts, c.link, c.support.View(), x, d)
  {
    d := 0;
    var can := c.CanProduce(x);
    if !can {
      d := c.DeltaTo(s.acts, x);
    }
  }

  /** The bounds of an action before the producer of a link that is not known yet. */
  method BoundBeforeLink(s: Store, c: Causal, x: nat) returns (ok: bool)
    requires Ready(s, c) && x < |s.acts.dur| && c.support.value == VAL_UNKNOWN
    modifies s.inf, s.sup, c`inf
    ensures Ready(s, c) && EdgeFinding.Advances(old(EdgeFinding.ViewOf(s)), EdgeFinding.ViewOf(s)) && c.inf >= old(c.inf)
    ensures forall p: Plan, j: int ::
              Supports(s.acts, old(EdgeFinding.ViewOf(s)), c.link, c.support.View(), old(c.inf), c.sup, p, j)
              && ConflictSide(p, c.link, j, x, true)
              ==> ok && Supports(s.acts, EdgeFinding.ViewOf(s), c.link, c.support.View(), c.inf, c.sup, p, j)
    ensures ok ==> BoundBefore(s.acts, old(EdgeFinding.ViewOf(s)), c.link, c.support.View(), x, EdgeFinding.ViewOf(s), c.inf, c.sup)
  {
    ghost var v, d0, i0 := EdgeFinding.ViewOf(s), c.support.View(), c.inf;
    var d := DelayOf(s, c, x);
    DelaysBeforeProducer(s.acts, v, c.link, d0, i0, c.sup, x, d);
    ok := s.UpdateSup(x, c.sup - d);
    if ok {
      ok := c.UpdateInf(s.inf[x] + d);
    }
    assert c.support.View() == d0;
  }

  lemma BoundBeforeStays(a: Actions, v: View, l: Link, d: Domain, x: nat, w: View, w': View, inf: int, sup: int)
    requires BoundBefore(a, v, l, d, x, w, inf, sup) && EdgeFinding.Advances(w, w')
    ensures BoundBefore(a, v, l, d, x, w', inf, sup)
  {
    var delay: int :| IsDelay(a, l, d, x, delay) && w.sup[x] <= sup - delay && inf >= v.inf[x] + delay;
    assert w'.sup[x] <= w.sup[x];
  }

  /** Records that an action precedes the consumer of a link. */
  method OrderBeforeConsumer(s: Store, x: nat, y: nat) returns (ok: bool)
    requires s.Valid() && Strict(s.precedes) && x < |s.acts.dur| && y < |s.acts.dur| && x != y
    modifies s`precedes, s.inf, s.sup
    ensures ok ==> s.Valid() && Strict(s.precedes) && (x, y) in s.precedes
    ensures ok ==> EdgeFinding.Advances(old(EdgeFinding.ViewOf(s)), EdgeFinding.ViewOf(s))
    ensures forall p: Plan :: Possible(s.acts, old(EdgeFinding.ViewOf(s)), p) && (x, y) in p.order
                              ==> ok && Possible(s.acts, EdgeFinding.ViewOf(s), p)
  {
    if (y, x) !in s.precedes {
      ClosureIsStrict(s.precedes, x, y);
    }
    ok := s.AddPrecedence(x, y);
  }

  /** Orders an action before the producer of a link, as far as it is known. */
  method OrderBeforeLink(s: Store, c: Causal, x: nat) returns (ok: bool)
    requires Ready(s, c) && x < |s.acts.dur| && x != c.link.consumer
    modifies s`precedes, s.inf, s.sup, c`inf
    ensures ok ==> Ready(s, c)
    ensures forall p: Plan, j: int ::
              Supports(s.acts, old(EdgeFinding.ViewOf(s)), c.link, c.support.View(), old(c.inf), c.sup, p, j)
              && ConflictSide(p, c.link, j, x, true)
              ==> ok && Supports(s.acts, EdgeFinding.ViewOf(s), c.link, c.support.View(), c.inf, c.sup, p, j)
    ensures ok ==> forall p: Plan, j: int ::
              Supports(s.acts, EdgeFinding.ViewOf(s), c.link, c.support.View(), c.inf, c.sup, p, j)
              ==> Supports(s.acts, old(EdgeFinding.ViewOf(s)), c.link, c.support.View(), old(c.inf), c.sup, p, j)
    ensures ok && c.support.value != VAL_UNKNOWN ==> forall p: Plan, j: int ::
              Supports(s.acts, EdgeFinding.ViewOf(s), c.link, c.support.View(), c.inf, c.sup, p, j)
              ==> ConflictSide(p, c.link, j, x, true)
    ensures ok && c.support.value == VAL_UNKNOWN ==> (x, c.link.consumer) in s.precedes
    ensures ok && c.support.value == VAL_UNKNOWN ==>
              BoundBefore(s.acts, old(EdgeFinding.ViewOf(s)), c.link, c.support.View(), x, EdgeFinding.ViewOf(s), c.inf, c.sup)
  {
    ghost var v := EdgeFinding.ViewOf(s);
    if c.support.value != VAL_UNKNOWN {
      assert CanTake(c.support.View(), c.support.value);
      var y := c.link.producers[c.support.value];
      ok := true;
      if x != y {
        ok := OrderActions(s, x, y);
      }
    } else {
      ok := BoundBeforeLink(s, c, x);
      if ok {
        ghost var w, d := EdgeFinding.ViewOf(s), c.support.View();
        ok := OrderBeforeConsumer(s, x, c.link.consumer);
        if ok {
          BoundBeforeStays(s.acts, v, c.link, d, x, w, EdgeFinding.ViewOf(s), c.inf, c.sup);
        }
        assert c.support.View() == d;
      }
    }
    if ok {
      assert EdgeFinding.Advances(v, EdgeFinding.ViewOf(s));
      AdvancedAllowsLess(s.acts, v, EdgeFinding.ViewOf(s));
    }
  }

  /** A deleter goes before the producer of a link, or after its consumer. */
  method PropagateConflictChoice(s: Store, c: Causal, x: nat, direction: bool, first: bool) returns (ok: bool)
    requires Ready(s, c) && x < |s.acts.dur| && x != c.link.consumer
    modifies s`precedes, s.inf, s.sup, c`inf
    ensures ok ==> Ready(s, c)
    ensures forall p: Plan, j: int ::
              Supports(s.acts, old(EdgeFinding.ViewOf(s)), c.link, c.support.View(), old(c.inf), c.sup, p, j)
              && ConflictSide(p, c.link, j, x, first == direction)
              ==> ok && Supports(s.acts, EdgeFinding.ViewOf(s), c.link, c.support.View(), c.inf, c.sup, p, j)
    ensures ok ==> forall p: Plan, j: int ::
              Supports(s.acts, EdgeFinding.ViewOf(s), c.link, c.support.View(), c.inf, c.sup, p, j)
              ==> Supports(s.acts, old(EdgeFinding.ViewOf(s)), c.link, c.support.View(), old(c.inf), c.sup, p, j)
    ensures ok && (first != direction || c.support.value != VAL_UNKNOWN) ==> forall p: Plan, j: int ::
              Supports(s.acts, EdgeFinding.ViewOf(s), c.link, c.support.View(), c.inf, c.sup, p, j)
              ==> ConflictSide(p, c.link, j, x, first == direction)
    ensures ok && first == direction && c.support.value == VAL_UNKNOWN ==> (x, c.link.consumer) in s.precedes
    ensures ok && first == direction && c.support.value == VAL_UNKNOWN ==>
              BoundBefore(s.acts, old(EdgeFinding.ViewOf(s)), c.link, c.support.View(), x, EdgeFinding.ViewOf(s), c.inf, c.sup)
  {
    if first == direction {
      ok := OrderBeforeLink(s, c, x);
    } else {
      ghost var v, d := EdgeFinding.ViewOf(s), c.support.View();
      ok := OrderActions(s, c.link.consumer, x);
      assert c.support.View() == d;
      if ok {
        AdvancedAllowsLess(s.acts, v, EdgeFinding.ViewOf(s));
      }
    }
  }
}
