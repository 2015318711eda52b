/**
 Scheduling the steps of a node under activity constraints: a graph of precedence edges,
 some with a minimal and a maximal delay, whose vertices carry an earliest and a latest
 start that are tightened until nothing changes.
 */
module ActivitySchedule {
  import opened Basics
  import opened Counting
  import opened CostFixpoint

  /** From the end of `src` to the start of `dst`; `ac` is the delay interval, if constrained. */
  datatype Edge = Edge(src: nat, dst: nat, ac: Option<(int, int)>)

  datatype Graph = Graph(dur: seq<nat>, edges: seq<Edge>)

  predicate WellFormedGraph(g: Graph) {
    && |g.dur| > 0
    && forall k :: 0 <= k < |g.edges| ==>
         g.edges[k].src < |g.dur| && g.edges[k].dst < |g.dur| && g.edges[k].src != g.edges[k].dst
  }

  // ----- schedules

  predicate Respects(g: Graph, t: seq<int>, e: Edge)
    requires |t| == |g.dur| && e.src < |t| && e.dst < |t|
  {
    var end := t[e.src] + g.dur[e.src];
    match e.ac
    case None => end <= t[e.dst]
    case Some(d) => end + d.0 <= t[e.dst] <= end + d.1
  }

  /** Start times within the horizon, the first vertex at time 0. */
  ghost predicate IsSchedule(g: Graph, t: seq<int>)
    requires WellFormedGraph(g)
  {
    && |t| == |g.dur|
    && t[0] == 0
    && (forall v :: 0 <= v < |t| ==> 0 <= t[v] <= MAXTIME)
    && (forall k :: 0 <= k < |g.edges| ==> Respects(g, t, g.edges[k]))
  }

  /** Each vertex starts as early as in any schedule. */
  ghost predicate LeastSchedule(g: Graph, t: seq<int>)
    requires WellFormedGraph(g)
  {
    IsSchedule(g, t) && forall u :: IsSchedule(g, u) ==> forall v :: 0 <= v < |t| ==> t[v] <= u[v]
  }

  ghost predicate Within(t: seq<int>, est: seq<int>, lst: seq<int>) {
    |t| == |est| == |lst| && forall v :: 0 <= v < |t| ==> est[v] <= t[v] <= lst[v]
  }

  /** Neither direction of the edge can tighten anything. */
  predicate Settled(g: Graph, est: seq<int>, lst: seq<int>, e: Edge)
    requires |est| == |lst| == |g.dur| && e.src < |est| && e.dst < |est|
  {
    var d := g.dur[e.src];
    match e.ac
    case None => est[e.src] + d <= est[e.dst] && lst[e.src] <= lst[e.dst] - d
    case Some(c) =>
      && est[e.src] + d + c.0 <= est[e.dst] && lst[e.dst] <= lst[e.src] + d + c.1
      && est[e.dst] - c.1 - d <= est[e.src] && lst[e.src] <= lst[e.dst] - c.0 - d
  }

  lemma SettledRespects(g: Graph, est: seq<int>, lst: seq<int>, e: Edge)
    requires |est| == |lst| == |g.dur| && e.src < |est| && e.dst < |est| && Settled(g, est, lst, e)
    ensures Respects(g, est, e)
  {
  }

  // ----- the tightening of one edge, on values

  ghost predicate Ranges(est: seq<int>, lst: seq<int>) {
    |est| == |lst| && forall v :: 0 <= v < |est| ==> est[v] <= lst[v]
  }

  ghost function Slack(est: seq<int>, lst: seq<int>): int
    requires |est| == |lst|
  {
    Sum(lst) - Sum(est)
  }

  lemma {:induction false} SumMonotone(a: seq<int>, b: seq<int>)
    requires |a| == |b| && forall v :: 0 <= v < |a| ==> a[v] <= b[v]
    ensures Sum(a) <= Sum(b)
    ensures Sum(a) == Sum(b) ==> a == b
  {
    if a != [] {
      SumMonotone(a[1..], b[1..]);
      assert a == [a[0]] + a[1..] && b == [b[0]] + b[1..];
    }
  }

  /** Tighter windows, with a flag on every vertex whose window changed. */
  ghost predicate Tightened(est: seq<int>, lst: seq<int>, prop: seq<bool>, est': seq<int>, lst': seq<int>, prop': seq<bool>) {
    && |est| == |lst| == |prop| == |est'| == |lst'| == |prop'|
    && (forall v :: 0 <= v < |est| ==> est[v] <= est'[v] && lst'[v] <= lst[v] && (prop[v] ==> prop'[v]))
    && (forall v :: 0 <= v < |est| ==> prop'[v] || (est'[v] == est[v] && lst'[v] == lst[v]))
    && (forall v :: 0 <= v < |est| && prop'[v] && !prop[v] ==> est'[v] != est[v] || lst'[v] != lst[v])
  }

  lemma TightenedTwice(e0: seq<int>, l0: seq<int>, p0: seq<bool>, e1: seq<int>, l1: seq<int>, p1: seq<bool>,
                       e2: seq<int>, l2: seq<int>, p2: seq<bool>)
    requires Tightened(e0, l0, p0, e1, l1, p1) && Tightened(e1, l1, p1, e2, l2, p2)
    ensures Tightened(e0, l0, p0, e2, l2, p2)
  {
  }

  lemma TightenedSlack(e0: seq<int>, l0: seq<int>, p0: seq<bool>, e1: seq<int>, l1: seq<int>, p1: seq<bool>)
    requires Tightened(e0, l0, p0, e1, l1, p1)
    ensures Slack(e1, l1) <= Slack(e0, l0)
    ensures Slack(e1, l1) == Slack(e0, l0) ==> e1 == e0 && l1 == l0 && p1 == p0
  {
    SumMonotone(e0, e1);
    SumMonotone(l1, l0);
  }

  // ----- the graph with its windows

  lemma NoEarlier(g: Graph, est: seq<int>, lst: seq<int>, e: Edge)
    requires WellFormedGraph(g) && e in g.edges && |est| == |lst| == |g.dur|
    requires forall t :: IsSchedule(g, t) ==> Within(t, est, lst)
    ensures var d := g.dur[e.src];
            var c := if e.ac.None? then (0, MAXTIME) else e.ac.value;
            forall t :: IsSchedule(g, t) ==>
              && est[e.src] + d + c.0 <= t[e.dst]
              && t[e.src] <= lst[e.dst] - d - c.0
              && (e.ac.Some? ==> est[e.dst] - c.1 - d <= t[e.src] && t[e.dst] <= lst[e.src] + d + c.1)
  {
    forall t | IsSchedule(g, t) ensures Respects(g, t, e) {
      var k :| 0 <= k < |g.edges| && g.edges[k] == e;
    }
    forall t | IsSchedule(g, t) ensures Within(t, est, lst) && |t| == |est| && 0 <= e.src < |t| && 0 <= e.dst < |t| {
    }
  }

  class Scheduler {
    const g: Graph
    const est: array<int>
    const lst: array<int>
    const prop: array<bool>

    ghost predicate Valid() {
      WellFormedGraph(g) && est.Length == lst.Length == prop.Length == |g.dur| && est != lst
    }

    /** No schedule has been cut off. */
    ghost predicate Complete()
      requires Valid()
      reads est, lst
    {
      forall t :: IsSchedule(g, t) ==> Within(t, est[..], lst[..])
    }

    constructor (graph: Graph)
      requires WellFormedGraph(graph)
      ensures Valid() && g == graph && fresh(est) && fresh(lst) && fresh(prop)
      ensures Complete() && Ranges(est[..], lst[..]) && InHorizon() && forall v :: 0 <= v < prop.Length ==> prop[v]
    {
      g := graph;
      est := new int[|graph.dur|](_ => 0);
      lst := new int[|graph.dur|](v => if v == 0 then 0 else MAXTIME);
      prop := new bool[|graph.dur|](_ => true);
    }

    method RaiseEst(v: nat, x: int)
      requires Valid() && Complete() && v < est.Length
      requires forall t :: IsSchedule(g, t) ==> x <= t[v]
      modifies est, prop
      ensures Complete()
      ensures est[..] == if x > old(est[v]) then old(est[..])[v := x] else old(est[..])
      ensures Tightened(old(est[..]), old(lst[..]), old(prop[..]), est[..], lst[..], prop[..])
    {
      ghost var e0 := est[..];
      if x > est[v] {
        est[v] := x;
        prop[v] := true;
        assert est[..] == e0[v := x];
      }
    }

    method LowerLst(v: nat, x: int)
      requires Valid() && Complete() && v < lst.Length
      requires forall t :: IsSchedule(g, t) ==> t[v] <= x
      modifies lst, prop
      ensures Complete()
      ensures lst[..] == if x < old(lst[v]) then old(lst[..])[v := x] else old(lst[..])
      ensures Tightened(old(est[..]), old(lst[..]), old(prop[..]), est[..], lst[..], prop[..])
    {
      ghost var l0 := lst[..];
      if x < lst[v] {
        lst[v] := x;
        prop[v] := true;
        assert lst[..] == l0[v := x];
      }
    }

    /**
     Without activity constraint.  The last test looks at the window of the destination
     although that of the source has just changed; the windows stay non-empty all the same.
     */
    method OrderPlain(e: Edge) returns (ok: bool)
      requires Valid() && Complete() && e in g.edges && e.ac.None? && Ranges(est[..], lst[..])
      modifies est, lst, prop
      ensures Complete()
      ensures Tightened(old(est[..]), old(lst[..]), old(prop[..]), est[..], lst[..], prop[..])
      ensures ok ==> Ranges(est[..], lst[..])
      ensures ok ==> prop[e.src] || prop[e.dst] || Settled(g, est[..], lst[..], e)
      ensures !ok ==> exists v :: 0 <= v < est.Length && est[v] > lst[v]
    {
      var s, d := e.src, e.dst;
      var dur := g.dur[s];
      ghost var e0, l0, p0 := est[..], lst[..], prop[..];
      NoEarlier(g, e0, l0, e);
      RaiseEst(d, est[s] + dur);
      if est[d] > lst[d] { return false; }
      ghost var e1, l1, p1 := est[..], lst[..], prop[..];
      NoEarlier(g, e1, l1, e);
      LowerLst(s, lst[d] - dur);
      TightenedTwice(e0, l0, p0, e1, l1, p1, est[..], lst[..], prop[..]);
      ok := est[d] <= lst[d];
    }

    /** The window of the destination, from that of the source and the delay. */
    method OrderForward(e: Edge, c: (int, int)) returns (ok: bool)
      requires Valid() && Complete() && e in g.edges && e.ac == Some(c) && Ranges(est[..], lst[..])
      modifies est, lst, prop
      ensures Complete()
      ensures Tightened(old(est[..]), old(lst[..]), old(prop[..]), est[..], lst[..], prop[..])
      ensures ok ==> Ranges(est[..], lst[..])
      ensures ok ==> est[e.src] + g.dur[e.src] + c.0 <= est[e.dst] && lst[e.dst] <= lst[e.src] + g.dur[e.src] + c.1
      ensures !ok ==> exists v :: 0 <= v < est.Length && est[v] > lst[v]
    {
      var s, d := e.src, e.dst;
      var dur := g.dur[s];
      ghost var e0, l0, p0 := est[..], lst[..], prop[..];
      NoEarlier(g, e0, l0, e);
      RaiseEst(d, est[s] + dur + c.0);
      if est[d] > lst[d] { return false; }
      ghost var e1, l1, p1 := est[..], lst[..], prop[..];
      LowerLst(d, lst[s] + dur + c.1);
      TightenedTwice(e0, l0, p0, e1, l1, p1, est[..], lst[..], prop[..]);
      ok := est[d] <= lst[d];
    }

    /** The window of the source, from that of the destination and the delay. */
    method OrderBackward(e: Edge, c: (int, int)) returns (ok: bool)
      requires Valid() && Complete() && e in g.edges && e.ac == Some(c) && Ranges(est[..], lst[..])
      modifies est, lst, prop
      ensures Complete()
      ensures Tightened(old(est[..]), old(lst[..]), old(prop[..]), est[..], lst[..], prop[..])
      ensures ok ==> Ranges(est[..], lst[..])
      ensures ok ==> est[e.dst] - c.1 - g.dur[e.src] <= est[e.src] && lst[e.src] <= lst[e.dst] - c.0 - g.dur[e.src]
      ensures !ok ==> exists v :: 0 <= v < est.Length && est[v] > lst[v]
    {
      var s, d := e.src, e.dst;
      var dur := g.dur[s];
      ghost var e0, l0, p0 := est[..], lst[..], prop[..];
      NoEarlier(g, e0, l0, e);
      RaiseEst(s, est[d] - c.1 - dur);
      if est[s] > lst[s] { return false; }
      ghost var e1, l1, p1 := est[..], lst[..], prop[..];
      LowerLst(s, lst[d] - c.0 - dur);
      TightenedTwice(e0, l0, p0, e1, l1, p1, est[..], lst[..], prop[..]);
      ok := est[s] <= lst[s];
    }

    method Order(e: Edge) returns (ok: bool)
      requires Valid() && Complete() && e in g.edges && Ranges(est[..], lst[..])
      modifies est, lst, prop
      ensures Complete()
      ensures Tightened(old(est[..]), old(lst[..]), old(prop[..]), est[..], lst[..], prop[..])
      ensures ok ==> Ranges(est[..], lst[..])
      ensures ok ==> prop[e.src] || prop[e.dst] || Settled(g, est[..], lst[..], e)
      ensures !ok ==> exists v :: 0 <= v < est.Length && est[v] > lst[v]
    {
      match e.ac {
        case Some(c) =>
          ghost var e0, l0, p0 := est[..], lst[..], prop[..];
          ok := OrderForward(e, c);
          if ok {
            ghost var e1, l1, p1 := est[..], lst[..], prop[..];
            ok := OrderBackward(e, c);
            TightenedTwice(e0, l0, p0, e1, l1, p1, est[..], lst[..], prop[..]);
          }
        case None =>
          ok := OrderPlain(e);
      }
    }

    // ----- propagation over the graph

    predicate Covered(k: nat)
      requires Valid() && k < |g.edges|
      reads est, lst, prop
    {
      prop[g.edges[k].src] || prop[g.edges[k].dst] || Settled(g, est[..], lst[..], g.edges[k])
    }

    /** Tightens edge `k`; edges that were settled or flagged still are. */
    method OrderEdge(k: nat) returns (ok: bool)
      requires Valid() && Complete() && k < |g.edges| && Ranges(est[..], lst[..])
      modifies est, lst, prop
      ensures Complete()
      ensures Tightened(old(est[..]), old(lst[..]), old(prop[..]), est[..], lst[..], prop[..])
      ensures ok ==> Ranges(est[..], lst[..])
      ensures ok ==> Covered(k) && forall j :: 0 <= j < |g.edges| && old(Covered(j)) ==> Covered(j)
      ensures !ok ==> exists u :: 0 <= u < est.Length && est[u] > lst[u]
    {
      ghost var e0, l0, p0 := est[..], lst[..], prop[..];
      ok := Order(g.edges[k]);
      forall j | 0 <= j < |g.edges| && Settled(g, e0, l0, g.edges[j]) && !prop[g.edges[j].src] && !prop[g.edges[j].dst]
        ensures Settled(g, est[..], lst[..], g.edges[j])
      {
        assert est[..][g.edges[j].src] == e0[g.edges[j].src] && est[..][g.edges[j].dst] == e0[g.edges[j].dst];
      }
    }

    /** Tightens the incoming or the outgoing edges of `v`, in the order they were created. */
    method OrderEdges(v: nat, incoming: bool) returns (ok: bool)
      requires Valid() && Complete() && v < |g.dur| && Ranges(est[..], lst[..])
      requires forall k :: 0 <= k < |g.edges| && g.edges[k].dst != v && g.edges[k].src != v ==> Covered(k)
      requires !incoming ==> forall k :: 0 <= k < |g.edges| && g.edges[k].dst == v ==> Covered(k)
      modifies est, lst, prop
      ensures Complete()
      ensures Tightened(old(est[..]), old(lst[..]), old(prop[..]), est[..], lst[..], prop[..])
      ensures ok ==> Ranges(est[..], lst[..])
      ensures ok ==> forall k :: 0 <= k < |g.edges| && (g.edges[k].src != v || !incoming) ==> Covered(k)
      ensures !ok ==> exists u :: 0 <= u < est.Length && est[u] > lst[u]
    {
      ghost var e0, l0, p0 := est[..], lst[..], prop[..];
      ok := true;
      var k := 0;
      while k < |g.edges|
        invariant 0 <= k <= |g.edges| && Complete() && Ranges(est[..], lst[..]) && ok
        invariant Tightened(e0, l0, p0, est[..], lst[..], prop[..])
        invariant forall j :: 0 <= j < |g.edges| && g.edges[j].dst != v && g.edges[j].src != v ==> Covered(j)
        invariant !incoming ==> forall j :: 0 <= j < |g.edges| && g.edges[j].dst == v ==> Covered(j)
        invariant forall j :: 0 <= j < k && (if incoming then g.edges[j].dst else g.edges[j].src) == v ==> Covered(j)
      {
        var e := g.edges[k];
        if (if incoming then e.dst else e.src) == v {
          ghost var e1, l1, p1 := est[..], lst[..], prop[..];
          ok := OrderEdge(k);
          TightenedTwice(e0, l0, p0, e1, l1, p1, est[..], lst[..], prop[..]);
          if !ok {
            return;
          }
        }
        k := k + 1;
      }
    }

    /** Clears the flag of one vertex and tightens its edges. */
    method VisitVertex(v: nat) returns (ok: bool)
      requires Valid() && Complete() && v < |g.dur| && Ranges(est[..], lst[..])
      requires forall k :: 0 <= k < |g.edges| ==> Covered(k)
      modifies est, lst, prop
      ensures Complete()
      ensures Tightened(old(est[..]), old(lst[..]), old(prop[..])[v := false], est[..], lst[..], prop[..])
      ensures ok ==> Ranges(est[..], lst[..]) && forall k :: 0 <= k < |g.edges| ==> Covered(k)
      ensures !ok ==> exists u :: 0 <= u < est.Length && est[u] > lst[u]
    {
      ghost var e0, l0, p := est[..], lst[..], prop[..];
      forall k | 0 <= k < |g.edges| ensures p[g.edges[k].src] || p[g.edges[k].dst] || Settled(g, e0, l0, g.edges[k]) {
        assert Covered(k);
      }
      prop[v] := false;
      ghost var p0 := prop[..];
      assert p0 == p[v := false] && est[..] == e0 && lst[..] == l0;
      forall k | 0 <= k < |g.edges| && g.edges[k].dst != v && g.edges[k].src != v ensures Covered(k) {
        assert p[g.edges[k].src] || p[g.edges[k].dst] || Settled(g, e0, l0, g.edges[k]);
      }
      ok := OrderEdges(v, true);
      if ok {
        ghost var e1, l1, p1 := est[..], lst[..], prop[..];
        ok := OrderEdges(v, false);
        TightenedTwice(e0, l0, p0, e1, l1, p1, est[..], lst[..], prop[..]);
      }
    }

    ghost predicate SomeFlag()
      reads prop
    {
      exists v :: 0 <= v < prop.Length && prop[v]
    }

    /** The windows lie inside the horizon, that of the first vertex at its start. */
    ghost predicate InHorizon()
      requires Valid()
      reads est, lst
    {
      lst[0] <= 0 && forall v :: 0 <= v < est.Length ==> est[v] >= 0 && lst[v] <= MAXTIME
    }

    /** One round over all vertices; `propagate` says whether a flagged one was found. */
    method Round() returns (ok: bool, propagate: bool)
      requires Valid() && Complete() && Ranges(est[..], lst[..]) && InHorizon()
      requires forall k :: 0 <= k < |g.edges| ==> Covered(k)
      modifies est, lst, prop
      ensures Complete()
      ensures ok ==> Ranges(est[..], lst[..]) && InHorizon() && forall k :: 0 <= k < |g.edges| ==> Covered(k)
      ensures !ok ==> exists u :: 0 <= u < est.Length && est[u] > lst[u]
      ensures ok ==> Slack(est[..], lst[..]) <= old(Slack(est[..], lst[..]))
      ensures ok && Slack(est[..], lst[..]) == old(Slack(est[..], lst[..])) ==> !SomeFlag()
      ensures ok && !propagate ==> Slack(est[..], lst[..]) == old(Slack(est[..], lst[..]))
      ensures ok && propagate ==> old(SomeFlag())
    {
      propagate, ok := false, true;
      ghost var slack := Slack(est[..], lst[..]);
      var v := 0;
      while v < |g.dur|
        invariant 0 <= v <= |g.dur| && ok && Complete() && Ranges(est[..], lst[..]) && InHorizon()
        invariant forall k :: 0 <= k < |g.edges| ==> Covered(k)
        invariant Slack(est[..], lst[..]) <= slack
        invariant Slack(est[..], lst[..]) == slack ==> forall u :: 0 <= u < v ==> !prop[u]
        invariant !propagate ==> Slack(est[..], lst[..]) == slack && prop[..] == old(prop[..])
        invariant propagate ==> old(SomeFlag())
      {
        if prop[v] {
          assert !propagate ==> old(prop[..])[v];
          propagate := true;
          ghost var e0, l0, p0 := est[..], lst[..], prop[..];
          ok := VisitVertex(v);
          if !ok {
            return;
          }
          TightenedSlack(e0, l0, p0[v := false], est[..], lst[..], prop[..]);
        }
        v := v + 1;
      }
    }

    /** Rounds until none finds a flagged vertex, or a window becomes empty. */
    method Propagate() returns (ok: bool)
      requires Valid() && Complete() && Ranges(est[..], lst[..]) && InHorizon()
      requires forall k :: 0 <= k < |g.edges| ==> Covered(k)
      modifies est, lst, prop
      ensures Complete()
      ensures ok ==> IsSchedule(g, est[..])
      ensures !ok ==> forall t :: !IsSchedule(g, t)
    {
      ok := true;
      var propagate := true;
      while propagate
        invariant ok && Complete() && Ranges(est[..], lst[..]) && InHorizon()
        invariant forall k :: 0 <= k < |g.edges| ==> Covered(k)
        invariant !propagate ==> !SomeFlag()
        decreases Slack(est[..], lst[..]), if SomeFlag() then 1 else 0, propagate
      {
        SlackNonNegative(est[..], lst[..]);
        ok, propagate := Round();
        if !ok {
          return;
        }
        SlackNonNegative(est[..], lst[..]);
      }
      forall k | 0 <= k < |g.edges| ensures Respects(g, est[..], g.edges[k]) {
        assert Covered(k);
        SettledRespects(g, est[..], lst[..], g.edges[k]);
      }
    }
  }

  lemma SlackNonNegative(est: seq<int>, lst: seq<int>)
    requires Ranges(est, lst)
    ensures Slack(est, lst) >= 0
  {
    SumMonotone(est, lst);
  }

  /**
   The schedule of a graph.  The starts found satisfy every edge and are the earliest of all
   schedules, vertex by vertex; a refusal means that there is no schedule.
   */
  method ScheduleGraph(g: Graph) returns (ok: bool, starts: seq<int>)
    requires WellFormedGraph(g)
    ensures |starts| == |g.dur|
    ensures ok ==> LeastSchedule(g, starts)
    ensures !ok ==> forall t :: !IsSchedule(g, t)
  {
    var s := new Scheduler(g);
    ok := s.Propagate();
    starts := s.est[..];
  }
}
