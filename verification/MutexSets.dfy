/**
 Lower bounds on the makespan from sets of actions that cannot overlap: they take at least
 their total duration and the least distances between them.
 */
module MutexSets {
  import opened Basics
  import opened Counting
  import opened Orders
  import opened Packing
  import opened Precedences
  import EdgeFinding
  import CostFixpoint

  type View = EdgeFinding.View

  ghost predicate Sized(a: Actions, v: View) {
    WellSized(a) && |v.inf| == |v.sup| == |a.dur|
  }

  /** The least time between the end of `x` and the start of `y`, if `x` is first. */
  function Gap(a: Actions, v: View, x: nat, y: nat): (r: int)
    requires WellSized(a) && |v.inf| == |v.sup| == |a.dur| && x < |a.dur| && y < |a.dur|
    ensures r >= 0
  {
    Max(a.dist[x][y], v.inf[y] - (v.sup[x] + a.dur[x]))
  }

  /** The least time between the two, whichever is first. */
  function Apart(a: Actions, v: View, x: nat, y: nat): (r: int)
    requires WellSized(a) && |v.inf| == |v.sup| == |a.dur| && x < |a.dur| && y < |a.dur|
    ensures r >= 0
  {
    if (y, x) in v.r then Gap(a, v, y, x)
    else if (x, y) in v.r then Gap(a, v, x, y)
    else Min(Gap(a, v, x, y), Gap(a, v, y, x))
  }

  /** The least time between `x` and the first `k` of the other actions of the set. */
  function Closest(a: Actions, v: View, x: nat, list: seq<nat>, k: nat): (r: int)
    requires Among(a, list) && |v.inf| == |v.sup| == |a.dur| && x < |a.dur| && k <= |list|
    ensures 0 <= r
    ensures forall i :: 0 <= i < k && list[i] != x ==> r <= Apart(a, v, x, list[i])
  {
    if k == 0 then CostFixpoint.MAXTIME
    else
      var m := Closest(a, v, x, list, k - 1);
      if list[k - 1] != x then Min(m, Apart(a, v, x, list[k - 1])) else m
  }

  /** The slack an action needs beside it. */
  function Margin(a: Actions, v: View, x: nat, list: seq<nat>): (r: int)
    requires Among(a, list) && |v.inf| == |v.sup| == |a.dur| && x < |a.dur|
    ensures 0 <= r
  {
    if |list| == 1 then 0 else Closest(a, v, x, list, |list|)
  }

  /** What is known of the first actions of a set. */
  datatype Summary = Summary(minStart: int, maxEnd: int, distEnd: int, maxMargin: int, span: int)

  function Summarised(a: Actions, v: View, end: nat, list: seq<nat>, k: nat): Summary
    requires Among(a, list) && |v.inf| == |v.sup| == |a.dur| && end < |a.dur| && k <= |list|
  {
    if k == 0 then Summary(CostFixpoint.MAXTIME, 0, CostFixpoint.MAXTIME, 0, 0)
    else
      var s, x := Summarised(a, v, end, list, k - 1), list[k - 1];
      var d := Margin(a, v, x, list);
      Extended(s, v.inf[x], v.sup[x] + a.dur[x], a.dist[x][end], d, a.dur[x])
  }

  /** The summary is about all actions so far. */
  lemma {:induction false} SummaryCovers(a: Actions, v: View, end: nat, list: seq<nat>, k: nat, i: nat)
    requires Among(a, list) && |v.inf| == |v.sup| == |a.dur| && end < |a.dur| && i < k <= |list|
    ensures var r := Summarised(a, v, end, list, k);
            && r.minStart <= v.inf[list[i]] && v.sup[list[i]] + a.dur[list[i]] <= r.maxEnd
            && r.distEnd <= a.dist[list[i]][end] && Margin(a, v, list[i], list) <= r.maxMargin
  {
    if i < k - 1 {
      SummaryCovers(a, v, end, list, k - 1, i);
    }
  }

  // ----- what a summary says, attained

  /** The time that must pass between two actions of the set, whichever is first unless that is known. */
  ghost predicate IsGap(a: Actions, v: View, x: nat, y: nat, d: int)
    requires Sized(a, v) && x < |a.dur| && y < |a.dur|
  {
    var forth, back := v.inf[y] - (v.sup[x] + a.dur[x]), v.inf[x] - (v.sup[y] + a.dur[y]);
    && ((y, x) in v.r ==> d >= a.dist[y][x] && d >= back && (d == a.dist[y][x] || d == back))
    && ((x, y) in v.r && (y, x) !in v.r ==> d >= a.dist[x][y] && d >= forth && (d == a.dist[x][y] || d == forth))
    && ((x, y) !in v.r && (y, x) !in v.r ==>
          && ((d >= a.dist[x][y] && d >= forth) || (d >= a.dist[y][x] && d >= back))
          && (d <= a.dist[x][y] || d <= forth) && (d <= a.dist[y][x] || d <= back))
  }

  lemma ApartIsGap(a: Actions, v: View, x: nat, y: nat)
    requires Sized(a, v) && x < |a.dur| && y < |a.dur|
    ensures IsGap(a, v, x, y, Apart(a, v, x, y))
    ensures forall d: int :: IsGap(a, v, x, y, d) ==> d == Apart(a, v, x, y)
  {
  }

  /** `d` is the least time between `x` and another action of the set, or the infinite one; an action alone needs none. */
  ghost predicate IsMargin(a: Actions, v: View, x: nat, list: seq<nat>, d: int)
    requires Sized(a, v) && Among(a, list) && x < |a.dur|
  {
    if |list| == 1 then d == 0
    else
      && (forall i :: 0 <= i < |list| && list[i] != x ==> exists g :: IsGap(a, v, x, list[i], g) && d <= g)
      && d <= CostFixpoint.MAXTIME
      && (d == CostFixpoint.MAXTIME || exists i :: 0 <= i < |list| && list[i] != x && IsGap(a, v, x, list[i], d))
  }

  lemma {:induction false} ClosestAttained(a: Actions, v: View, x: nat, list: seq<nat>, k: nat)
    requires Sized(a, v) && Among(a, list) && x < |a.dur| && k <= |list|
    ensures var d := Closest(a, v, x, list, k);
            && d <= CostFixpoint.MAXTIME
            && (d == CostFixpoint.MAXTIME || exists i :: 0 <= i < k && list[i] != x && d == Apart(a, v, x, list[i]))
  {
    if k > 0 {
      ClosestAttained(a, v, x, list, k - 1);
    }
  }

  lemma MarginIsLeast(a: Actions, v: View, x: nat, list: seq<nat>)
    requires Sized(a, v) && Among(a, list) && x < |a.dur|
    ensures IsMargin(a, v, x, list, Margin(a, v, x, list))
  {
    if |list| != 1 {
      var d := Margin(a, v, x, list);
      ClosestAttained(a, v, x, list, |list|);
      forall i | 0 <= i < |list| && list[i] != x ensures exists g :: IsGap(a, v, x, list[i], g) && d <= g {
        ApartIsGap(a, v, x, list[i]);
      }
      if d != CostFixpoint.MAXTIME {
        var i :| 0 <= i < |list| && list[i] != x && d == Apart(a, v, x, list[i]);
        ApartIsGap(a, v, x, list[i]);
      }
    }
  }

  /** Bounds on the windows, distances and margins of a set. */
  ghost predicate Covers(a: Actions, v: View, end: nat, list: seq<nat>, margins: seq<int>, r: Summary)
    requires Sized(a, v) && Among(a, list) && end < |a.dur| && |margins| == |list|
  {
    forall i :: 0 <= i < |list| ==>
      && r.minStart <= v.inf[list[i]] && v.sup[list[i]] + a.dur[list[i]] <= r.maxEnd
      && r.distEnd <= a.dist[list[i]][end] && margins[i] <= r.maxMargin
  }

  /** No better bounds do, unless the values that the search for them starts from do already. */
  ghost predicate Attains(a: Actions, v: View, end: nat, list: seq<nat>, margins: seq<int>, r: Summary)
    requires Sized(a, v) && Among(a, list) && end < |a.dur| && |margins| == |list|
  {
    && r.minStart <= CostFixpoint.MAXTIME && 0 <= r.maxEnd && r.distEnd <= CostFixpoint.MAXTIME && 0 <= r.maxMargin
    && (r.minStart == CostFixpoint.MAXTIME || exists i :: 0 <= i < |list| && r.minStart == v.inf[list[i]])
    && (r.maxEnd == 0 || exists i :: 0 <= i < |list| && r.maxEnd == v.sup[list[i]] + a.dur[list[i]])
    && (r.distEnd == CostFixpoint.MAXTIME || exists i :: 0 <= i < |list| && r.distEnd == a.dist[list[i]][end])
    && (r.maxMargin == 0 || exists i :: 0 <= i < |list| && r.maxMargin == margins[i])
  }

  ghost predicate AreMargins(a: Actions, v: View, list: seq<nat>, margins: seq<int>)
    requires Sized(a, v) && Among(a, list)
  {
    |margins| == |list| && forall i :: 0 <= i < |list| ==> IsMargin(a, v, list[i], list, margins[i])
  }

  /** The time that each of the actions takes up, with its margin. */
  function Needs(a: Actions, list: seq<nat>, margins: seq<int>): (r: seq<int>)
    requires Among(a, list) && |margins| == |list|
    ensures |r| == |list| && forall i :: 0 <= i < |list| ==> r[i] == a.dur[list[i]] + margins[i]
  {
    seq(|list|, i requires 0 <= i < |list| => a.dur[list[i]] + margins[i])
  }

  lemma {:induction false} SummaryAttained(a: Actions, v: View, end: nat, list: seq<nat>, k: nat)
    requires Sized(a, v) && Among(a, list) && end < |a.dur| && k <= |list|
    ensures var r := Summarised(a, v, end, list, k);
            && (r.minStart == CostFixpoint.MAXTIME || exists i :: 0 <= i < k && r.minStart == v.inf[list[i]])
            && (r.maxEnd == 0 || exists i :: 0 <= i < k && r.maxEnd == v.sup[list[i]] + a.dur[list[i]])
            && (r.distEnd == CostFixpoint.MAXTIME || exists i :: 0 <= i < k && r.distEnd == a.dist[list[i]][end])
            && (r.maxMargin == 0 || exists i :: 0 <= i < k && r.maxMargin == Margin(a, v, list[i], list))
            && r.minStart <= CostFixpoint.MAXTIME && 0 <= r.maxEnd && r.distEnd <= CostFixpoint.MAXTIME && 0 <= r.maxMargin
  {
    if k > 0 {
      SummaryAttained(a, v, end, list, k - 1);
    }
  }

  lemma {:induction false} SpanIsSum(a: Actions, v: View, end: nat, list: seq<nat>, margins: seq<int>, k: nat)
    requires Sized(a, v) && Among(a, list) && end < |a.dur| && k <= |list| == |margins|
    requires forall i :: 0 <= i < |list| ==> margins[i] == Margin(a, v, list[i], list)
    ensures Summarised(a, v, end, list, k).span == Sum(Needs(a, list, margins)[..k])
  {
    var needs := Needs(a, list, margins);
    if k > 0 {
      SpanIsSum(a, v, end, list, margins, k - 1);
      SumOneMore(needs[..k - 1], needs[k - 1]);
      assert needs[..k] == needs[..k - 1] + [needs[k - 1]];
    }
  }

  lemma SummaryMargins(a: Actions, v: View, list: seq<nat>) returns (margins: seq<int>)
    requires Sized(a, v) && Among(a, list)
    ensures AreMargins(a, v, list, margins) && forall i :: 0 <= i < |list| ==> margins[i] == Margin(a, v, list[i], list)
  {
    margins := seq(|list|, i requires 0 <= i < |list| => Margin(a, v, list[i], list));
    forall i | 0 <= i < |list| ensures IsMargin(a, v, list[i], list, margins[i]) {
      MarginIsLeast(a, v, list[i], list);
    }
  }

  /** The summary of a set: bounds that are attained, and the sum of durations and margins. */
  lemma SummaryDescribes(a: Actions, v: View, end: nat, list: seq<nat>) returns (margins: seq<int>)
    requires Sized(a, v) && Among(a, list) && end < |a.dur|
    ensures AreMargins(a, v, list, margins)
    ensures Covers(a, v, end, list, margins, Summarised(a, v, end, list, |list|))
    ensures Attains(a, v, end, list, margins, Summarised(a, v, end, list, |list|))
    ensures Summarised(a, v, end, list, |list|).span == Sum(Needs(a, list, margins))
  {
    margins := SummaryMargins(a, v, list);
    forall i: nat | i < |list| {
      SummaryCovers(a, v, end, list, |list|, i);
    }
    SummaryAttained(a, v, end, list, |list|);
    SpanIsSum(a, v, end, list, margins, |list|);
    assert Needs(a, list, margins)[..|list|] == Needs(a, list, margins);
  }

  /** The summary with one more action, that starts and ends within the window given. */
  function Extended(s: Summary, start: int, finish: int, dist: int, margin: int, dur: int): Summary {
    Summary(Min(s.minStart, start), Max(s.maxEnd, finish), Min(s.distEnd, dist), Max(s.maxMargin, margin), s.span + dur + margin)
  }

  // ----- every plan that keeps the set apart respects the bound

  /** The plans that must be kept: the actions of the set do not overlap, and precede the end. */
  ghost predicate Feasible(a: Actions, v: View, end: nat, list: seq<nat>, p: Plan) {
    && Sized(a, v) && Among(a, list) && end < |a.dur|
    && IsPlan(a, p) && EdgeFinding.Allows(v, p) && Exclusive(p, list)
    && forall i :: 0 <= i < |list| ==> (list[i], end) in p.order
  }

  /** The actions of a set with the margins they need: each one ends as late as its margin. */
  function Widened(a: Actions, v: View, list: seq<nat>): (w: Actions)
    requires Among(a, list) && |v.inf| == |v.sup| == |a.dur|
    ensures WellSized(w) && |w.dur| == |a.dur|
    ensures forall x :: 0 <= x < |a.dur| ==> w.dur[x] == a.dur[x] + Margin(a, v, x, list)
  {
    Actions(seq(|a.dur|, x requires 0 <= x < |a.dur| => a.dur[x] + Margin(a, v, x, list)), a.dist)
  }

  /** Two of the actions are at least the margin of the first one apart. */
  lemma MarginBetween(a: Actions, v: View, end: nat, list: seq<nat>, p: Plan, x: nat, y: nat)
    requires Feasible(a, v, end, list, p) && x in list && y in list && x != y && (x, y) in p.order
    ensures x < |a.dur| && y < |a.dur| && p.start[x] + a.dur[x] + Margin(a, v, x, list) <= p.start[y]
  {
    assert p.start[(x, y).0] + Delta(a, (x, y).0, (x, y).1) <= p.start[(x, y).1];
    assert Gap(a, v, x, y) <= p.start[y] - (p.start[x] + a.dur[x]);
    StrictIsAsymmetric(p.order, x, y);
    assert Apart(a, v, x, y) <= Gap(a, v, x, y);
  }

  /** A set of distinct actions without one of them. */
  lemma RestOf(xs: seq<nat>, m: nat)
    requires NoDuplicates(xs) && m < |xs|
    ensures var rest := xs[..m] + xs[m + 1..];
            NoDuplicates(rest) && forall i :: 0 <= i < |rest| ==> rest[i] in xs && rest[i] != xs[m]
  {
    var rest := xs[..m] + xs[m + 1..];
    forall i | 0 <= i < |rest| ensures rest[i] == xs[if i < m then i else i + 1] {
    }
  }

  /** Some of the actions, one after the other: the last one ends after all durations and all margins but its own. */
  lemma {:induction false} SpanOf(a: Actions, v: View, end: nat, list: seq<nat>, p: Plan, xs: seq<nat>, lo: int) returns (m: nat)
    requires Feasible(a, v, end, list, p) && Exclusive(p, xs) && xs != [] && NoDuplicates(xs) && Among(a, xs)
    requires forall x :: x in xs ==> x in list && lo <= p.start[x]
    ensures m < |xs| && forall i :: 0 <= i < |xs| && i != m ==> (xs[i], xs[m]) in p.order
    ensures lo + TotalDuration(Widened(a, v, list), xs)
            <= p.start[xs[m]] + a.dur[xs[m]] + Margin(a, v, xs[m], list)
    decreases |xs|
  {
    m := LastOf(p, xs);
    var rest := xs[..m] + xs[m + 1..];
    TotalWithout(Widened(a, v, list), xs, m);
    RestOf(xs, m);
    if rest != [] {
      ExclusiveWithout(p, xs, m);
      var l := SpanOf(a, v, end, list, p, rest, lo);
      MarginBetween(a, v, end, list, p, rest[l], xs[m]);
    } else {
      assert TotalDuration(Widened(a, v, list), rest) == 0;
    }
  }

  lemma {:induction false} SpanIsTotal(a: Actions, v: View, end: nat, list: seq<nat>, k: nat)
    requires Among(a, list) && |v.inf| == |v.sup| == |a.dur| && end < |a.dur| && k <= |list|
    ensures Summarised(a, v, end, list, k).span == TotalDuration(Widened(a, v, list), list[..k])
  {
    if k > 0 {
      SpanIsTotal(a, v, end, list, k - 1);
      TotalWithout(Widened(a, v, list), list[..k], k - 1);
      assert list[..k][..k - 1] + list[..k][k..] == list[..k - 1];
    }
  }

  /** The bound that a set gives for the start of the end action. */
  function Bound(s: Summary): int {
    s.minStart + s.span - s.maxMargin + s.distEnd
  }

  /** No plan that keeps the actions of the set apart ends sooner, nor fits into less time. */
  lemma BoundHolds(a: Actions, v: View, end: nat, list: seq<nat>, p: Plan)
    requires Feasible(a, v, end, list, p) && NoDuplicates(list) && list != []
    ensures var s := Summarised(a, v, end, list, |list|);
            Bound(s) <= p.start[end] && s.maxEnd - s.minStart >= s.span - s.maxMargin
  {
    var s := Summarised(a, v, end, list, |list|);
    SpanIsTotal(a, v, end, list, |list|);
    assert list[..|list|] == list;
    forall i: nat | i < |list| ensures s.minStart <= v.inf[list[i]] && v.sup[list[i]] + a.dur[list[i]] <= s.maxEnd {
      SummaryCovers(a, v, end, list, |list|, i);
    }
    var m := SpanOf(a, v, end, list, p, list, s.minStart);
    var x := list[m];
    SummaryCovers(a, v, end, list, |list|, m);
    assert (x, end) in p.order;
    assert p.start[(x, end).0] + Delta(a, (x, end).0, (x, end).1) <= p.start[(x, end).1];
    assert p.start[x] <= v.sup[x];
  }

  // ----- the filter

  /** The margin of one action, over the whole set. */
  method MarginOf(s: Store, x: nat, list: seq<nat>) returns (d: int)
    requires s.Valid() && Among(s.acts, list) && x < |s.acts.dur|
    ensures d == Margin(s.acts, EdgeFinding.ViewOf(s), x, list)
  {
    ghost var v := EdgeFinding.ViewOf(s);
    if |list| == 1 {
      return 0;
    }
    d := CostFixpoint.MAXTIME;
    for k := 0 to |list|
      invariant d == Closest(s.acts, v, x, list, k)
    {
      var y := list[k];
      if y != x {
        var forth := Max(s.acts.dist[x][y], s.inf[y] - (s.sup[x] + s.acts.dur[x]));
        var back := Max(s.acts.dist[y][x], s.inf[x] - (s.sup[y] + s.acts.dur[y]));
        var m := if (y, x) in s.precedes then back else if (x, y) in s.precedes then forth else Min(forth, back);
        if d > m {
          d := m;
        }
      }
    }
  }

  /** One more action of the set. */
  method SummariseOne(s: Store, end: nat, list: seq<nat>, k: nat, b: Summary) returns (r: Summary)
    requires s.Valid() && Among(s.acts, list) && end < |s.acts.dur| && k < |list|
    requires b == Summarised(s.acts, EdgeFinding.ViewOf(s), end, list, k)
    ensures r == Summarised(s.acts, EdgeFinding.ViewOf(s), end, list, k + 1)
  {
    var x := list[k];
    var d := MarginOf(s, x, list);
    r := Summary(Min(b.minStart, s.inf[x]), Max(b.maxEnd, s.sup[x] + s.acts.dur[x]), Min(b.distEnd, s.acts.dist[x][end]),
                 Max(b.maxMargin, d), b.span + s.acts.dur[x] + d);
  }

  /** Raises the start of the end action to the bound of a set, and refuses a set that has no room. */
  method MakespanMutexSet(s: Store, list: seq<nat>, end: nat) returns (ok: bool)
    requires s.Valid() && Among(s.acts, list) && NoDuplicates(list) && list != [] && end < |s.acts.dur|
    modifies s.inf
    ensures var b := Summarised(s.acts, old(EdgeFinding.ViewOf(s)), end, list, |list|);
            var bound := b.minStart + b.span - b.maxMargin + b.distEnd;
            && (ok ==> s.inf[..] == old(s.inf[..])[end := Max(old(s.inf[end]), bound)])
            && (ok <==> bound <= Max(s.sup[end], old(s.inf[end])) && b.maxEnd - b.minStart >= b.span - b.maxMargin)
    ensures forall p: Plan :: Feasible(s.acts, old(EdgeFinding.ViewOf(s)), end, list, p) ==> ok && InBounds(p, s.inf[..], s.sup[..])
  {
    var b := Summary(CostFixpoint.MAXTIME, 0, CostFixpoint.MAXTIME, 0, 0);
    for k := 0 to |list|
      invariant b == Summarised(s.acts, EdgeFinding.ViewOf(s), end, list, k)
      invariant EdgeFinding.ViewOf(s) == old(EdgeFinding.ViewOf(s))
    {
      b := SummariseOne(s, end, list, k, b);
    }
    ok := ApplyBound(s, list, end, b);
  }

  method ApplyBound(s: Store, ghost list: seq<nat>, end: nat, b: Summary) returns (ok: bool)
    requires s.Valid() && Among(s.acts, list) && NoDuplicates(list) && list != [] && end < |s.acts.dur|
    requires b == Summarised(s.acts, EdgeFinding.ViewOf(s), end, list, |list|)
    modifies s.inf
    ensures ok ==> s.inf[..] == old(s.inf[..])[end := Max(old(s.inf[end]), Bound(b))]
    ensures ok <==> Bound(b) <= Max(s.sup[end], old(s.inf[end])) && b.maxEnd - b.minStart >= b.span - b.maxMargin
    ensures forall p: Plan :: Feasible(s.acts, old(EdgeFinding.ViewOf(s)), end, list, p) ==> ok && InBounds(p, s.inf[..], s.sup[..])
  {
    ghost var v := EdgeFinding.ViewOf(s);
    ok := s.UpdateInf(end, b.minStart + b.span - b.maxMargin + b.distEnd);
    if ok && b.maxEnd - b.minStart < b.span - b.maxMargin {
      ok := false;
    }
    forall p: Plan | Feasible(s.acts, v, end, list, p) ensures ok && InBounds(p, s.inf[..], s.sup[..]) {
      BoundHolds(s.acts, v, end, list, p);
      assert v.inf[end] <= p.start[end] <= v.sup[end];
    }
  }

  // ----- the sets that are tried

  /** Which pairs of actions exclude each other; actions 0 and 1 are the start and the end. */
  datatype Rules = Rules(sequential: bool, mutex: set<Pair>)

  predicate Excluded(r: Rules, x: nat, y: nat) {
    r.sequential || (x, y) in r.mutex || (y, x) in r.mutex
  }

  /** Extends a set by an action that excludes all of it. */
  method AddMutexSet(r: Rules, list: seq<nat>, x: nat) returns (list': seq<nat>)
    ensures list' == if x >= 2 && forall i :: 0 <= i < |list| ==> r.sequential || (x, list[i]) in r.mutex || (list[i], x) in r.mutex
                     then list + [x] else list
  {
    list' := list;
    if x < 2 {
      return;
    }
    if !r.sequential {
      for i := 0 to |list|
        invariant forall k :: 0 <= k < i ==> Excluded(r, x, list[k])
      {
        if (x, list[i]) !in r.mutex && (list[i], x) !in r.mutex {
          return;
        }
      }
    }
    list' := list + [x];
  }

  /** The plans in which actions that exclude each other do not overlap, and all precede the end. */
  ghost predicate Orderly(a: Actions, v: View, r: Rules, active: seq<nat>, p: Plan) {
    && Sized(a, v) && Among(a, active) && 1 < |a.dur|
    && IsPlan(a, p) && EdgeFinding.Allows(v, p)
    && (forall x, y :: x in active && y in active && x != y && x >= 2 && y >= 2 && Excluded(r, x, y)
                       ==> (x, y) in p.order || (y, x) in p.order)
    && (forall x :: x in active && x >= 2 ==> (x, 1) in p.order)
  }

  /** A set of distinct active actions that exclude each other. */
  ghost predicate Clique(r: Rules, active: seq<nat>, ms: seq<nat>) {
    && NoDuplicates(ms) && (forall i :: 0 <= i < |ms| ==> ms[i] in active && ms[i] >= 2)
    && forall i, j :: 0 <= i < j < |ms| ==> Excluded(r, ms[i], ms[j])
  }

  lemma CliqueFeasible(a: Actions, v: View, r: Rules, active: seq<nat>, ms: seq<nat>, p: Plan)
    requires Orderly(a, v, r, active, p) && Clique(r, active, ms)
    ensures Feasible(a, v, 1, ms, p)
  {
    forall i, j | 0 <= i < j < |ms| ensures (ms[i], ms[j]) in p.order || (ms[j], ms[i]) in p.order {
      assert ms[i] != ms[j] && Excluded(r, ms[i], ms[j]);
    }
    forall i | 0 <= i < |ms| ensures (ms[i], 1) in p.order && ms[i] < |a.dur| {
      assert ms[i] in active;
    }
  }

  /** Some action of the set does not exclude `y`. */
  predicate Blocked(r: Rules, y: nat, ms: seq<nat>) {
    exists i :: 0 <= i < |ms| && !Excluded(r, y, ms[i])
  }

  lemma BlockedMeans(r: Rules, y: nat, ms: seq<nat>)
    requires Blocked(r, y, ms)
    ensures !r.sequential && exists z :: z in ms && (y, z) !in r.mutex && (z, y) !in r.mutex
  {
    var i :| 0 <= i < |ms| && !Excluded(r, y, ms[i]);
    assert ms[i] in ms;
  }

  lemma BlockedStays(r: Rules, y: nat, ms: seq<nat>, more: seq<nat>)
    requires Blocked(r, y, ms)
    ensures Blocked(r, y, ms + more)
  {
    var i :| 0 <= i < |ms| && !Excluded(r, y, ms[i]);
    assert (ms + more)[i] == ms[i];
  }

  /** Grows a set by one action if it can. */
  method GrowClique(r: Rules, ghost active: seq<nat>, ms: seq<nat>, y: nat) returns (ms': seq<nat>)
    requires Clique(r, active, ms) && y in active && y !in ms
    ensures Clique(r, active, ms') && (ms' == ms || ms' == ms + [y])
    ensures y < 2 || y in ms' || Blocked(r, y, ms')
  {
    ms' := AddMutexSet(r, ms, y);
    assert ms' == ms + [y] ==> ms'[|ms|] == y;
  }

  /** The set that is grown from one action; no other active action could join it. */
  method CliqueOf(r: Rules, active: seq<nat>, x: nat) returns (ms: seq<nat>)
    requires x in active && x >= 2 && NoDuplicates(active)
    ensures Clique(r, active, ms) && x in ms
    ensures forall y :: y in active && y >= 2 && y !in ms ==>
              !r.sequential && exists z :: z in ms && (y, z) !in r.mutex && (z, y) !in r.mutex
  {
    ms := [x];
    for k := 0 to |active|
      invariant Clique(r, active, ms) && x in ms && (forall y :: y in ms ==> y == x || y in active[..k])
      invariant forall i :: 0 <= i < k ==> active[i] < 2 || active[i] in ms || Blocked(r, active[i], ms)
    {
      var y := active[k];
      if x != y {
        assert y !in active[..k];
        ghost var before := ms;
        ms := GrowClique(r, active, ms, y);
        forall i | 0 <= i < k ensures active[i] < 2 || active[i] in ms || Blocked(r, active[i], ms) {
          if Blocked(r, active[i], before) && ms != before {
            BlockedStays(r, active[i], before, [y]);
          }
        }
      }
    }
    forall y | y in active && y >= 2 && y !in ms
      ensures !r.sequential && exists z :: z in ms && (y, z) !in r.mutex && (z, y) !in r.mutex
    {
      var i :| 0 <= i < |active| && active[i] == y;
      BlockedMeans(r, active[i], ms);
    }
  }

  // ----- all the sets

  /** The views agree on the actions of a set and on their precedences. */
  ghost predicate SameOn(a: Actions, v: View, v': View, list: seq<nat>) {
    && Sized(a, v) && Sized(a, v') && Among(a, list) && v'.r == v.r
    && forall i :: 0 <= i < |list| ==> v'.inf[list[i]] == v.inf[list[i]] && v'.sup[list[i]] == v.sup[list[i]]
  }

  lemma {:induction false} ClosestSame(a: Actions, v: View, v': View, list: seq<nat>, i: nat, k: nat)
    requires SameOn(a, v, v', list) && i < |list| && k <= |list|
    ensures Closest(a, v', list[i], list, k) == Closest(a, v, list[i], list, k)
  {
    if k > 0 {
      ClosestSame(a, v, v', list, i, k - 1);
    }
  }

  lemma MarginSame(a: Actions, v: View, v': View, list: seq<nat>, i: nat)
    requires SameOn(a, v, v', list) && i < |list|
    ensures Margin(a, v', list[i], list) == Margin(a, v, list[i], list)
  {
    ClosestSame(a, v, v', list, i, |list|);
  }

  lemma {:induction false} SummarySame(a: Actions, v: View, v': View, end: nat, list: seq<nat>, k: nat)
    requires SameOn(a, v, v', list) && end < |a.dur| && k <= |list|
    ensures Summarised(a, v', end, list, k) == Summarised(a, v, end, list, k)
  {
    if k > 0 {
      SummarySame(a, v, v', end, list, k - 1);
      MarginSame(a, v, v', list, k - 1);
    }
  }

  /** The bound of a set of at least two actions is respected, and there is room for it. */
  ghost predicate Reached(a: Actions, v: View, ms: seq<nat>, inf: seq<int>)
    requires Sized(a, v) && Among(a, ms) && 1 < |a.dur| && |inf| == |a.dur|
  {
    |ms| >= 2 ==>
      var b := Summarised(a, v, 1, ms, |ms|);
      && inf[1] >= b.minStart + b.span - b.maxMargin + b.distEnd && b.maxEnd - b.minStart >= b.span - b.maxMargin
  }

  /** Only the start of the end action has been raised. */
  ghost predicate EndRaised(v: View, v': View) {
    && v'.r == v.r && v'.sup == v.sup && |v'.inf| == |v.inf| > 1 && v'.inf[1] >= v.inf[1]
    && forall x :: 0 <= x < |v.inf| && x != 1 ==> v'.inf[x] == v.inf[x]
  }

  /** No orderly plan has been lost on the way from one view to the other. */
  ghost predicate KeepsOrderly(a: Actions, v: View, r: Rules, active: seq<nat>, ok: bool, v': View) {
    forall p: Plan :: Orderly(a, v, r, active, p) ==> ok && Orderly(a, v', r, active, p)
  }

  method OneSet(s: Store, r: Rules, active: seq<nat>, ms: seq<nat>) returns (ok: bool)
    requires s.Valid() && Among(s.acts, active) && 1 < |s.acts.dur| && Clique(r, active, ms) && ms != []
    modifies s.inf
    ensures KeepsOrderly(s.acts, old(EdgeFinding.ViewOf(s)), r, active, ok, EdgeFinding.ViewOf(s))
    ensures ok ==> EndRaised(old(EdgeFinding.ViewOf(s)), EdgeFinding.ViewOf(s))
    ensures ok ==> Among(s.acts, ms) && Reached(s.acts, old(EdgeFinding.ViewOf(s)), ms, s.inf[..])
  {
    ghost var v := EdgeFinding.ViewOf(s);
    forall i | 0 <= i < |ms| ensures ms[i] < |s.acts.dur| {
      assert ms[i] in active;
    }
    ok := true;
    if |ms| >= 2 {
      ok := MakespanMutexSet(s, ms, 1);
    }
    forall p: Plan | Orderly(s.acts, v, r, active, p) ensures ok && Orderly(s.acts, EdgeFinding.ViewOf(s), r, active, p) {
      CliqueFeasible(s.acts, v, r, active, ms, p);
    }
  }

  lemma ReachedFromStart(a: Actions, r: Rules, active: seq<nat>, v0: View, v: View, ms: seq<nat>, inf: seq<int>)
    requires Sized(a, v0) && Sized(a, v) && Among(a, ms) && 1 < |a.dur| && |inf| == |a.dur| && EndRaised(v0, v)
    requires Clique(r, active, ms) && Reached(a, v, ms, inf)
    ensures Reached(a, v0, ms, inf)
  {
    SummarySame(a, v0, v, 1, ms, |ms|);
  }

  ghost predicate Covered(x: nat, sets: seq<seq<nat>>) {
    exists i :: 0 <= i < |sets| && x in sets[i]
  }

  lemma CoveredMore(x: nat, sets: seq<seq<nat>>, ms: seq<nat>)
    requires Covered(x, sets) || x in ms
    ensures Covered(x, sets + [ms])
  {
    if Covered(x, sets) {
      var i :| 0 <= i < |sets| && x in sets[i];
      assert x in (sets + [ms])[i];
    } else {
      assert x in (sets + [ms])[|sets|];
    }
  }

  /** The sets that have been tried, and what they have given. */
  ghost predicate Tried(a: Actions, r: Rules, active: seq<nat>, v0: View, sets: seq<seq<nat>>, inf: seq<int>)
    requires Sized(a, v0) && 1 < |a.dur| && |inf| == |a.dur|
  {
    forall i :: 0 <= i < |sets| ==> Clique(r, active, sets[i]) && Among(a, sets[i]) && Reached(a, v0, sets[i], inf)
  }

  /**
   The bounds of the sets grown from every action, or from the first one in a sequential
   problem.  No orderly plan is lost.
   */
  method GlobalMutexSets(s: Store, r: Rules, active: seq<nat>) returns (ok: bool, ghost sets: seq<seq<nat>>)
    requires s.Valid() && Among(s.acts, active) && NoDuplicates(active) && 1 < |s.acts.dur|
    modifies s.inf
    ensures KeepsOrderly(s.acts, old(EdgeFinding.ViewOf(s)), r, active, ok, EdgeFinding.ViewOf(s))
    ensures ok ==> EndRaised(old(EdgeFinding.ViewOf(s)), EdgeFinding.ViewOf(s))
    ensures ok ==> Tried(s.acts, r, active, old(EdgeFinding.ViewOf(s)), sets, s.inf[..])
    ensures ok && !r.sequential ==> forall x :: x in active && x >= 2 ==> Covered(x, sets)
    ensures ok && r.sequential && (exists x :: x in active && x >= 2) ==> |sets| == 1
  {
    ghost var v0 := EdgeFinding.ViewOf(s);
    ok, sets := true, [];
    for k := 0 to |active|
      invariant ok && EndRaised(v0, EdgeFinding.ViewOf(s))
      invariant KeepsOrderly(s.acts, v0, r, active, true, EdgeFinding.ViewOf(s))
      invariant Tried(s.acts, r, active, v0, sets, s.inf[..])
      invariant forall j :: 0 <= j < k && active[j] >= 2 ==> Covered(active[j], sets)
      invariant r.sequential ==> sets == [] && forall j :: 0 <= j < k ==> active[j] < 2
    {
      if active[k] > 1 {
        var ms := CliqueOf(r, active, active[k]);
        ghost var before := sets;
        ok, sets := TrySet(s, r, active, ms, v0, sets);
        if !ok {
          return;
        }
        forall j | 0 <= j <= k && active[j] >= 2 ensures Covered(active[j], sets) {
          CoveredMore(active[j], before, ms);
        }
        if r.sequential {
          break;
        }
      }
    }
  }

  method TrySet(s: Store, r: Rules, active: seq<nat>, ms: seq<nat>, ghost v0: View, ghost sets: seq<seq<nat>>)
      returns (ok: bool, ghost sets': seq<seq<nat>>)
    requires s.Valid() && Among(s.acts, active) && 1 < |s.acts.dur| && Clique(r, active, ms) && ms != []
    requires EndRaised(v0, EdgeFinding.ViewOf(s)) && KeepsOrderly(s.acts, v0, r, active, true, EdgeFinding.ViewOf(s))
    requires Sized(s.acts, v0) && Tried(s.acts, r, active, v0, sets, s.inf[..])
    modifies s.inf
    ensures KeepsOrderly(s.acts, v0, r, active, ok, EdgeFinding.ViewOf(s))
    ensures ok ==> EndRaised(v0, EdgeFinding.ViewOf(s))
    ensures ok ==> sets' == sets + [ms] && Tried(s.acts, r, active, v0, sets', s.inf[..])
  {
    ghost var v := EdgeFinding.ViewOf(s);
    ok := OneSet(s, r, active, ms);
    sets' := sets + [ms];
    if ok {
      ReachedFromStart(s.acts, r, active, v0, v, ms, s.inf[..]);
    }
  }
}
