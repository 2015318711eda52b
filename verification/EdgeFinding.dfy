/**
 Edge finding on the actions that delete one fluent and use it: no two of them may overlap.
 The filter tightens bounds and adds precedences; no plan that keeps these actions apart is
 ever lost.
 */
module EdgeFinding {
  import opened Basics
  import opened Orders
  import opened Packing
  import opened Precedences
  import opened Counting

  /** What the filter reads and tightens: the order and the bounds on start times. */
  datatype View = View(r: set<Pair>, inf: seq<int>, sup: seq<int>)

  ghost function ViewOf(s: Store): View
    reads s, s.inf, s.sup
  {
    View(s.precedes, s.inf[..], s.sup[..])
  }

  ghost predicate Advances(v: View, v': View) {
    v.r <= v'.r && Tighter(v.inf, v.sup, v'.inf, v'.sup)
  }

  ghost predicate Allows(v: View, p: Plan) {
    v.r <= p.order && InBounds(p, v.inf, v.sup)
  }

  /** Every other action ends before the end action starts. */
  ghost predicate EndsPlan(a: Actions, p: Plan, end: nat) {
    && WellSized(a) && |p.start| == |a.dur| && end < |a.dur|
    && forall x :: 0 <= x < |a.dur| && x != end ==> p.start[x] + a.dur[x] <= p.start[end]
  }

  /** The problem when the filter is called: `users` are the actions that may not overlap. */
  datatype Entry = Entry(a: Actions, users: set<nat>, end: nat, at: View)

  ghost predicate WellPosed(e: Entry) {
    && WellSized(e.a) && e.end < |e.a.dur| && e.end !in e.users && (forall u :: u in e.users ==> u < |e.a.dur|)
    && |e.at.inf| == |e.at.sup| == |e.a.dur|
  }

  /** The plans the filter must keep. */
  ghost predicate Kept(e: Entry, p: Plan) {
    && WellSized(e.a) && IsPlan(e.a, p) && Allows(e.at, p) && EndsPlan(e.a, p, e.end)
    && forall x, y :: x in e.users && y in e.users && x != y ==> (x, y) in p.order || (y, x) in p.order
  }

  /** The store has been tightened without losing a plan. */
  ghost predicate Safe(e: Entry, s: Store)
    reads s, s.inf, s.sup
  {
    && s.Valid() && Strict(s.precedes) && e.a == s.acts && WellPosed(e) && Advances(e.at, ViewOf(s))
    && forall p: Plan :: Kept(e, p) ==> Allows(ViewOf(s), p)
  }

  ghost predicate Hopeless(e: Entry) {
    forall p: Plan :: !Kept(e, p)
  }

  // ----- the interval

  predicate Within(a: Actions, v: View, w: Window, u: nat)
    requires WellSized(a) && |v.inf| == |v.sup| == |a.dur| && u < |a.dur|
  {
    v.inf[u] >= w.minStart && v.sup[u] + a.dur[u] <= w.maxEnd
  }

  /** `w` frames `xs` under the given bounds. */
  ghost predicate Frames(a: Actions, v: View, xs: seq<nat>, w: Window)
    requires Among(a, xs) && |v.inf| == |v.sup| == |a.dur|
  {
    forall i :: 0 <= i < |xs| ==>
      && w.minStart <= v.inf[xs[i]] && v.sup[xs[i]] + a.dur[xs[i]] <= w.maxEnd
      && w.minFirstEnd <= v.inf[xs[i]] + a.dur[xs[i]] && v.sup[xs[i]] <= w.maxLastStart
  }

  /** No smaller window does. */
  ghost predicate Attained(a: Actions, v: View, xs: seq<nat>, w: Window)
    requires Among(a, xs) && |v.inf| == |v.sup| == |a.dur|
  {
    && (exists i :: 0 <= i < |xs| && w.minStart == v.inf[xs[i]])
    && (exists i :: 0 <= i < |xs| && w.maxEnd == v.sup[xs[i]] + a.dur[xs[i]])
    && (exists i :: 0 <= i < |xs| && w.minFirstEnd == v.inf[xs[i]] + a.dur[xs[i]])
    && (exists i :: 0 <= i < |xs| && w.maxLastStart == v.sup[xs[i]])
  }

  /** The two actions that span the interval. */
  function Ends(x: nat, y: nat): seq<nat> {
    if x == y then [x] else [x, y]
  }

  /** Distinct users, framed by `w`. */
  ghost predicate Interval(e: Entry, xs: seq<nat>, w: Window) {
    && WellPosed(e) && Among(e.a, xs) && xs != [] && NoDuplicates(xs) && (forall i :: 0 <= i < |xs| ==> xs[i] in e.users)
    && Frames(e.a, e.at, xs, w)
  }

  lemma IntervalContext(e: Entry, xs: seq<nat>, w: Window, p: Plan)
    requires Interval(e, xs, w) && Kept(e, p)
    ensures Context(e.a, p, xs, w)
  {
    forall i | 0 <= i < |xs|
      ensures w.minStart <= p.start[xs[i]] <= w.maxLastStart && w.minFirstEnd <= p.start[xs[i]] + e.a.dur[xs[i]] <= w.maxEnd
    {
      assert e.at.inf[xs[i]] <= p.start[xs[i]] <= e.at.sup[xs[i]];
    }
  }

  lemma OutsiderExclusive(e: Entry, xs: seq<nat>, w: Window, c: nat, p: Plan)
    requires Interval(e, xs, w) && Kept(e, p) && c in e.users && c !in xs
    ensures ExclusiveWith(p, xs, c)
  {
    forall i | 0 <= i < |xs| ensures (xs[i], c) in p.order || (c, xs[i]) in p.order {
      assert xs[i] != c;
    }
  }

  /** The members of the interval but one make up a smaller interval. */
  lemma MemberContext(e: Entry, xs: seq<nat>, w: Window, m: nat, p: Plan) returns (rest: seq<nat>)
    requires Interval(e, xs, w) && Kept(e, p) && m in xs && |xs| > 1
    ensures Context(e.a, p, rest, w) && ExclusiveWith(p, rest, m) && m < |e.a.dur|
    ensures TotalDuration(e.a, xs) == TotalDuration(e.a, rest) + e.a.dur[m]
  {
    IntervalContext(e, xs, w, p);
    var k :| 0 <= k < |xs| && xs[k] == m;
    TotalWithout(e.a, xs, k);
    rest := xs[..k] + xs[k + 1..];
    ContextWithout(e.a, p, xs, w, k, rest);
    forall i | 0 <= i < |rest| ensures (rest[i], m) in p.order || (m, rest[i]) in p.order {
      var j := if i < k then i else i + 1;
      assert xs[j] in e.users && xs[j] != m;
    }
  }

  // ----- what is left when a rule has been applied

  /** The rules for a member of the interval that may not come first, or last. */
  ghost predicate MemberFiltered(e: Entry, w: Window, msp: int, m: nat, v: View)
    requires WellPosed(e) && |v.inf| == |v.sup| == |e.a.dur| && m < |e.a.dur|
  {
    && (e.at.inf[m] + msp > w.maxEnd ==> v.inf[m] >= w.minFirstEnd)
    && (e.at.sup[m] + e.a.dur[m] - msp < w.minStart ==> v.sup[m] <= w.maxLastStart - e.a.dur[m])
  }

  ghost predicate AllBefore(ms: seq<nat>, c: nat, r: set<Pair>) {
    forall i :: 0 <= i < |ms| ==> (ms[i], c) in r
  }

  ghost predicate AllAfter(ms: seq<nat>, c: nat, r: set<Pair>) {
    forall i :: 0 <= i < |ms| ==> (c, ms[i]) in r
  }

  /** The rules that delay an action outside of the interval. */
  ghost predicate Delayed(e: Entry, w: Window, ms: seq<nat>, msp: int, c: nat, v: View)
    requires WellPosed(e) && |v.inf| == |v.sup| == |e.a.dur| && c < |e.a.dur|
  {
    var first, dur := e.at.inf[c], e.a.dur[c];
    && (first + dur > w.maxLastStart ==> AllBefore(ms, c, v.r) && v.inf[c] >= w.minStart + msp)
    && (first + msp + dur > w.maxEnd ==>
          if w.maxEnd - w.minStart < msp + dur then AllBefore(ms, c, v.r) && v.inf[c] >= w.minStart + msp
          else v.inf[c] >= w.minFirstEnd)
  }

  /** The rules that advance an action outside of the interval. */
  ghost predicate Advanced(e: Entry, w: Window, ms: seq<nat>, msp: int, c: nat, v: View)
    requires WellPosed(e) && |v.inf| == |v.sup| == |e.a.dur| && c < |e.a.dur|
  {
    var last, dur := e.at.sup[c], e.a.dur[c];
    && (last < w.minFirstEnd ==> AllAfter(ms, c, v.r) && v.sup[c] <= w.maxEnd - (msp + dur))
    && (last - msp < w.minStart ==>
          if w.maxEnd - w.minStart < msp + dur then AllAfter(ms, c, v.r) && v.sup[c] <= w.maxEnd - (msp + dur)
          else v.sup[c] <= w.maxLastStart - dur)
  }

  // ----- elementary steps

  method RaiseBound(ghost e: Entry, s: Store, x: nat, v: int) returns (ok: bool)
    requires Safe(e, s) && x < |s.acts.dur|
    requires forall p: Plan :: Kept(e, p) ==> v <= p.start[x]
    modifies s.inf
    ensures ok ==> Safe(e, s) && Advances(old(ViewOf(s)), ViewOf(s)) && s.inf[x] >= v
    ensures !ok ==> Hopeless(e)
  {
    assert forall p: Plan :: Kept(e, p) ==> v <= p.start[x] <= s.sup[x];
    ok := s.UpdateInf(x, v);
    assert ok ==> s.inf[x] >= v;
  }

  method LowerBound(ghost e: Entry, s: Store, x: nat, v: int) returns (ok: bool)
    requires Safe(e, s) && x < |s.acts.dur|
    requires forall p: Plan :: Kept(e, p) ==> p.start[x] <= v
    modifies s.sup
    ensures ok ==> Safe(e, s) && Advances(old(ViewOf(s)), ViewOf(s)) && s.sup[x] <= v
    ensures !ok ==> Hopeless(e)
  {
    assert forall p: Plan :: Kept(e, p) ==> s.inf[x] <= p.start[x] <= v;
    ok := s.UpdateSup(x, v);
    assert ok ==> s.sup[x] <= v;
  }

  method OrderOne(ghost e: Entry, s: Store, x: nat, y: nat) returns (ok: bool)
    requires Safe(e, s) && x < |s.acts.dur| && y < |s.acts.dur| && x != y
    requires forall p: Plan :: Kept(e, p) ==> (x, y) in p.order
    modifies s, s.inf, s.sup
    ensures ok ==> Safe(e, s) && Advances(old(ViewOf(s)), ViewOf(s)) && (x, y) in s.precedes
    ensures !ok ==> Hopeless(e)
  {
    ok := true;
    if (x, y) !in s.precedes {
      ghost var v := ViewOf(s);
      if (y, x) !in v.r {
        ClosureIsStrict(v.r, x, y);
      }
      ok := s.AddPrecedence(x, y);
      forall p: Plan | Kept(e, p) ensures ok && Allows(ViewOf(s), p) {
        assert Allows(v, p);
      }
    }
  }

  /** Puts every action of `ms` before `c`. */
  method OrderAllBefore(ghost e: Entry, s: Store, ms: seq<nat>, c: nat) returns (ok: bool)
    requires Safe(e, s) && c < |s.acts.dur| && c !in ms && (forall i :: 0 <= i < |ms| ==> ms[i] < |s.acts.dur|)
    requires forall p: Plan :: Kept(e, p) ==> AllBefore(ms, c, p.order)
    modifies s, s.inf, s.sup
    ensures ok ==> Safe(e, s) && Advances(old(ViewOf(s)), ViewOf(s)) && AllBefore(ms, c, s.precedes)
    ensures !ok ==> Hopeless(e)
  {
    ok := true;
    var i := 0;
    while i < |ms|
      invariant 0 <= i <= |ms| && ok && Safe(e, s) && Advances(old(ViewOf(s)), ViewOf(s))
      invariant AllBefore(ms[..i], c, s.precedes)
    {
      ghost var r := s.precedes;
      ok := OrderOne(e, s, ms[i], c);
      if !ok {
        return;
      }
      assert forall k :: 0 <= k < i ==> (ms[..i][k], c) in r;
      i := i + 1;
    }
    assert ms[..i] == ms;
  }

  /** Puts every action of `ms` after `c`. */
  method OrderAllAfter(ghost e: Entry, s: Store, ms: seq<nat>, c: nat) returns (ok: bool)
    requires Safe(e, s) && c < |s.acts.dur| && c !in ms && (forall i :: 0 <= i < |ms| ==> ms[i] < |s.acts.dur|)
    requires forall p: Plan :: Kept(e, p) ==> AllAfter(ms, c, p.order)
    modifies s, s.inf, s.sup
    ensures ok ==> Safe(e, s) && Advances(old(ViewOf(s)), ViewOf(s)) && AllAfter(ms, c, s.precedes)
    ensures !ok ==> Hopeless(e)
  {
    ok := true;
    var i := 0;
    while i < |ms|
      invariant 0 <= i <= |ms| && ok && Safe(e, s) && Advances(old(ViewOf(s)), ViewOf(s))
      invariant AllAfter(ms[..i], c, s.precedes)
    {
      ghost var r := s.precedes;
      ok := OrderOne(e, s, c, ms[i]);
      if !ok {
        return;
      }
      assert forall k :: 0 <= k < i ==> (c, ms[..i][k]) in r;
      i := i + 1;
    }
    assert ms[..i] == ms;
  }

  // ----- soundness of the rules, for every plan of the entry

  lemma MemberNotFirst(e: Entry, xs: seq<nat>, w: Window, m: nat, at: int)
    requires Interval(e, xs, w) && m in xs && |xs| > 1 && at + TotalDuration(e.a, xs) > w.maxEnd
    requires forall p: Plan :: Kept(e, p) ==> at <= p.start[m]
    ensures forall p: Plan :: Kept(e, p) ==> w.minFirstEnd <= p.start[m]
  {
    forall p: Plan | Kept(e, p) ensures w.minFirstEnd <= p.start[m] {
      var rest := MemberContext(e, xs, w, m, p);
      NotFirst(e.a, p, rest, w, m);
    }
  }

  lemma MemberNotLast(e: Entry, xs: seq<nat>, w: Window, m: nat, at: int)
    requires Interval(e, xs, w) && m in xs && |xs| > 1 && at + e.a.dur[m] - TotalDuration(e.a, xs) < w.minStart
    requires forall p: Plan :: Kept(e, p) ==> p.start[m] <= at
    ensures forall p: Plan :: Kept(e, p) ==> p.start[m] <= w.maxLastStart - e.a.dur[m]
  {
    forall p: Plan | Kept(e, p) ensures p.start[m] <= w.maxLastStart - e.a.dur[m] {
      var rest := MemberContext(e, xs, w, m, p);
      NotLast(e.a, p, rest, w, m);
    }
  }

  /** An action outside of the interval that ends too late for the others to follow, or finds no room before the end. */
  lemma MustFollow(e: Entry, xs: seq<nat>, w: Window, c: nat, at: int)
    requires Interval(e, xs, w) && c in e.users && c !in xs && c < |e.a.dur|
    requires forall p: Plan :: Kept(e, p) ==> at <= p.start[c]
    requires at + e.a.dur[c] > w.maxLastStart
             || (at + TotalDuration(e.a, xs) + e.a.dur[c] > w.maxEnd
                 && w.maxEnd - w.minStart < TotalDuration(e.a, xs) + e.a.dur[c])
    ensures forall p: Plan :: Kept(e, p) ==> AllBefore(xs, c, p.order) && w.minStart + TotalDuration(e.a, xs) <= p.start[c]
  {
    forall p: Plan | Kept(e, p)
      ensures AllBefore(xs, c, p.order) && w.minStart + TotalDuration(e.a, xs) <= p.start[c]
    {
      IntervalContext(e, xs, w, p);
      OutsiderExclusive(e, xs, w, c, p);
      if at + e.a.dur[c] > w.maxLastStart {
        EndsTooLate(e.a, p, xs, w, c);
      } else {
        NoRoomBetween(e.a, p, xs, w, c);
        if forall i :: 0 <= i < |xs| ==> (c, xs[i]) in p.order {
          BeforeAllStart(e.a, p, xs, w, c);
        }
      }
      AfterAllStart(e.a, p, xs, w, c);
    }
  }

  lemma MustPrecede(e: Entry, xs: seq<nat>, w: Window, c: nat, at: int)
    requires Interval(e, xs, w) && c in e.users && c !in xs && c < |e.a.dur|
    requires forall p: Plan :: Kept(e, p) ==> p.start[c] <= at
    requires at < w.minFirstEnd
             || (at - TotalDuration(e.a, xs) < w.minStart
                 && w.maxEnd - w.minStart < TotalDuration(e.a, xs) + e.a.dur[c])
    ensures forall p: Plan :: Kept(e, p) ==> AllAfter(xs, c, p.order)
                                             && p.start[c] <= w.maxEnd - (TotalDuration(e.a, xs) + e.a.dur[c])
  {
    forall p: Plan | Kept(e, p)
      ensures AllAfter(xs, c, p.order) && p.start[c] <= w.maxEnd - (TotalDuration(e.a, xs) + e.a.dur[c])
    {
      IntervalContext(e, xs, w, p);
      OutsiderExclusive(e, xs, w, c, p);
      if at < w.minFirstEnd {
        StartsTooEarly(e.a, p, xs, w, c);
      } else {
        NoRoomBetween(e.a, p, xs, w, c);
        if forall i :: 0 <= i < |xs| ==> (xs[i], c) in p.order {
          AfterAllStart(e.a, p, xs, w, c);
        }
      }
      BeforeAllStart(e.a, p, xs, w, c);
    }
  }

  lemma OutsiderNotFirst(e: Entry, xs: seq<nat>, w: Window, c: nat, at: int)
    requires Interval(e, xs, w) && c in e.users && c !in xs && c < |e.a.dur|
    requires forall p: Plan :: Kept(e, p) ==> at <= p.start[c]
    requires at + TotalDuration(e.a, xs) + e.a.dur[c] > w.maxEnd
    ensures forall p: Plan :: Kept(e, p) ==> w.minFirstEnd <= p.start[c]
  {
    forall p: Plan | Kept(e, p) ensures w.minFirstEnd <= p.start[c] {
      IntervalContext(e, xs, w, p);
      OutsiderExclusive(e, xs, w, c, p);
      NotFirst(e.a, p, xs, w, c);
    }
  }

  lemma OutsiderNotLast(e: Entry, xs: seq<nat>, w: Window, c: nat, at: int)
    requires Interval(e, xs, w) && c in e.users && c !in xs && c < |e.a.dur|
    requires forall p: Plan :: Kept(e, p) ==> p.start[c] <= at
    requires at - TotalDuration(e.a, xs) < w.minStart
    ensures forall p: Plan :: Kept(e, p) ==> p.start[c] <= w.maxLastStart - e.a.dur[c]
  {
    forall p: Plan | Kept(e, p) ensures p.start[c] <= w.maxLastStart - e.a.dur[c] {
      IntervalContext(e, xs, w, p);
      OutsiderExclusive(e, xs, w, c, p);
      NotLast(e.a, p, xs, w, c);
    }
  }

  // ----- the filter

  method FilterMember(ghost e: Entry, s: Store, ghost xs: seq<nat>, w: Window, msp: int, m: nat) returns (ok: bool)
    requires Safe(e, s) && Interval(e, xs, w) && msp == TotalDuration(e.a, xs) && m in xs && |xs| > 1
    modifies s.inf, s.sup
    ensures ok ==> Safe(e, s) && Advances(old(ViewOf(s)), ViewOf(s)) && MemberFiltered(e, w, msp, m, ViewOf(s))
    ensures !ok ==> Hopeless(e)
  {
    ok := true;
    if s.inf[m] + msp > w.maxEnd {
      MemberNotFirst(e, xs, w, m, s.inf[m]);
      ok := RaiseBound(e, s, m, w.minFirstEnd);
      if !ok {
        return;
      }
    }
    ghost var v := ViewOf(s);
    if s.sup[m] + s.acts.dur[m] - msp < w.minStart {
      MemberNotLast(e, xs, w, m, s.sup[m]);
      ok := LowerBound(e, s, m, w.maxLastStart - s.acts.dur[m]);
    }
    assert ok ==> v.inf[m] <= s.inf[m];
  }

  method Delay(ghost e: Entry, s: Store, ghost xs: seq<nat>, ms: seq<nat>, w: Window, msp: int, c: nat) returns (ok: bool)
    requires Safe(e, s) && Interval(e, xs, w) && msp == TotalDuration(e.a, xs) && c in e.users && c !in xs
    requires forall i :: 0 <= i < |ms| ==> ms[i] in xs
    requires s.inf[c] + s.acts.dur[c] > w.maxLastStart
             || (s.inf[c] + msp + s.acts.dur[c] > w.maxEnd && w.maxEnd - w.minStart < msp + s.acts.dur[c])
    modifies s, s.inf, s.sup
    ensures ok ==> Safe(e, s) && Advances(old(ViewOf(s)), ViewOf(s))
    ensures ok ==> AllBefore(ms, c, s.precedes) && s.inf[c] >= w.minStart + msp
    ensures !ok ==> Hopeless(e)
  {
    MustFollow(e, xs, w, c, s.inf[c]);
    forall p: Plan | Kept(e, p) ensures AllBefore(ms, c, p.order) {
    }
    ok := OrderAllBefore(e, s, ms, c);
    if ok {
      ghost var v := ViewOf(s);
      ok := RaiseBound(e, s, c, w.minStart + msp);
      assert ok ==> v.r <= s.precedes;
    }
  }

  method Advance(ghost e: Entry, s: Store, ghost xs: seq<nat>, ms: seq<nat>, w: Window, msp: int, c: nat) returns (ok: bool)
    requires Safe(e, s) && Interval(e, xs, w) && msp == TotalDuration(e.a, xs) && c in e.users && c !in xs
    requires forall i :: 0 <= i < |ms| ==> ms[i] in xs
    requires s.sup[c] < w.minFirstEnd || (s.sup[c] - msp < w.minStart && w.maxEnd - w.minStart < msp + s.acts.dur[c])
    modifies s, s.inf, s.sup
    ensures ok ==> Safe(e, s) && Advances(old(ViewOf(s)), ViewOf(s))
    ensures ok ==> AllAfter(ms, c, s.precedes) && s.sup[c] <= w.maxEnd - (msp + s.acts.dur[c])
    ensures !ok ==> Hopeless(e)
  {
    MustPrecede(e, xs, w, c, s.sup[c]);
    forall p: Plan | Kept(e, p) ensures AllAfter(ms, c, p.order) {
    }
    ok := OrderAllAfter(e, s, ms, c);
    if ok {
      ghost var v := ViewOf(s);
      ok := LowerBound(e, s, c, w.maxEnd - (msp + s.acts.dur[c]));
      assert ok ==> v.r <= s.precedes;
    }
  }

  method FilterForward(ghost e: Entry, s: Store, ghost xs: seq<nat>, ms: seq<nat>, w: Window, msp: int, c: nat)
      returns (ok: bool)
    requires Safe(e, s) && Interval(e, xs, w) && msp == TotalDuration(e.a, xs) && c in e.users && c !in xs
    requires forall i :: 0 <= i < |ms| ==> ms[i] in xs
    modifies s, s.inf, s.sup
    ensures ok ==> Safe(e, s) && Advances(old(ViewOf(s)), ViewOf(s)) && Delayed(e, w, ms, msp, c, ViewOf(s))
    ensures !ok ==> Hopeless(e)
  {
    ok := true;
    if s.inf[c] + s.acts.dur[c] > w.maxLastStart {
      ok := Delay(e, s, xs, ms, w, msp, c);
      if !ok {
        return;
      }
    }
    ghost var v := ViewOf(s);
    if s.inf[c] + msp + s.acts.dur[c] > w.maxEnd {
      if w.maxEnd - w.minStart < msp + s.acts.dur[c] {
        ok := Delay(e, s, xs, ms, w, msp, c);
      } else {
        OutsiderNotFirst(e, xs, w, c, s.inf[c]);
        ok := RaiseBound(e, s, c, w.minFirstEnd);
      }
    }
    assert ok ==> Advances(v, ViewOf(s)) && v.inf[c] <= s.inf[c];
  }

  method FilterBackward(ghost e: Entry, s: Store, ghost xs: seq<nat>, ms: seq<nat>, w: Window, msp: int, c: nat)
      returns (ok: bool)
    requires Safe(e, s) && Interval(e, xs, w) && msp == TotalDuration(e.a, xs) && c in e.users && c !in xs
    requires forall i :: 0 <= i < |ms| ==> ms[i] in xs
    modifies s, s.inf, s.sup
    ensures ok ==> Safe(e, s) && Advances(old(ViewOf(s)), ViewOf(s)) && Advanced(e, w, ms, msp, c, ViewOf(s))
    ensures !ok ==> Hopeless(e)
  {
    ok := true;
    if s.sup[c] < w.minFirstEnd {
      ok := Advance(e, s, xs, ms, w, msp, c);
      if !ok {
        return;
      }
    }
    ghost var v := ViewOf(s);
    if s.sup[c] - msp < w.minStart {
      if w.maxEnd - w.minStart < msp + s.acts.dur[c] {
        ok := Advance(e, s, xs, ms, w, msp, c);
      } else {
        OutsiderNotLast(e, xs, w, c, s.sup[c]);
        ok := LowerBound(e, s, c, w.maxLastStart - s.acts.dur[c]);
      }
    }
    assert ok ==> Advances(v, ViewOf(s)) && s.sup[c] <= v.sup[c];
  }

  // ----- the interval of a pair

  /** The users of a fluent: its active deleters that need or produce it. */
  function Users(deleters: seq<nat>, uses: set<nat>): set<nat> {
    set u | u in deleters && u in uses
  }

  ghost function EntryOf(s: Store, deleters: seq<nat>, uses: set<nat>, end: nat): Entry
    reads s, s.inf, s.sup
  {
    Entry(s.acts, Users(deleters, uses), end, ViewOf(s))
  }

  /** `ms` and `others` share out the users `us`, by whether they stay within the window. */
  ghost predicate Partition(a: Actions, v: View, us: set<nat>, x: nat, y: nat, w: Window, ms: seq<nat>, others: seq<nat>)
    requires WellSized(a) && |v.inf| == |v.sup| == |a.dur| && forall u :: u in us ==> u < |a.dur|
  {
    && NoDuplicates(Ends(x, y) + ms)
    && (forall u :: u in ms <==> u in us && Within(a, v, w, u))
    && (forall u :: u in others <==> u in us && !Within(a, v, w, u))
  }

  lemma TotalOfEnds(a: Actions, x: nat, y: nat)
    requires WellSized(a) && x < |a.dur| && y < |a.dur|
    ensures TotalDuration(a, Ends(x, y)) == a.dur[x] + if x == y then 0 else a.dur[y]
  {
    assert TotalDuration(a, []) == 0;
    if x != y {
      assert [x, y][1..] == [y] && [y][1..] == [];
    } else {
      assert [x][1..] == [];
    }
  }

  /** The window and the total duration of `xs`. */
  ghost predicate Fitted(a: Actions, v: View, xs: seq<nat>, w: Window, msp: int)
    requires WellSized(a) && |v.inf| == |v.sup| == |a.dur|
  {
    Among(a, xs) && msp == TotalDuration(a, xs) && Frames(a, v, xs, w) && Attained(a, v, xs, w)
  }

  /** The members of the interval grow by one. */
  lemma OneMoreMember(a: Actions, v: View, xs: seq<nat>, w: Window, msp: int, u: nat, w': Window, all: seq<nat>)
    requires WellSized(a) && |v.inf| == |v.sup| == |a.dur| && Fitted(a, v, xs, w, msp)
    requires u < |a.dur| && Within(a, v, w, u) && all == xs + [u]
    requires w' == w.(minFirstEnd := Min(w.minFirstEnd, v.inf[u] + a.dur[u]), maxLastStart := Max(w.maxLastStart, v.sup[u]))
    ensures Fitted(a, v, all, w', msp + a.dur[u])
  {
    TotalWithout(a, all, |xs|);
    assert all[..|xs|] + all[|xs| + 1..] == xs;
    StillAttained(a, v, xs, w, u, w');
    assert Frames(a, v, all, w');
  }

  lemma StillAttained(a: Actions, v: View, xs: seq<nat>, w: Window, u: nat, w': Window)
    requires Among(a, xs) && |v.inf| == |v.sup| == |a.dur| && u < |a.dur| && Attained(a, v, xs, w) && Among(a, xs + [u])
    requires w' == w.(minFirstEnd := Min(w.minFirstEnd, v.inf[u] + a.dur[u]), maxLastStart := Max(w.maxLastStart, v.sup[u]))
    ensures Attained(a, v, xs + [u], w')
  {
    var all := xs + [u];
    assert all[|xs|] == u;
    var i :| 0 <= i < |xs| && w.minStart == v.inf[xs[i]];
    assert all[i] == xs[i];
    var j :| 0 <= j < |xs| && w.maxEnd == v.sup[xs[j]] + a.dur[xs[j]];
    assert all[j] == xs[j];
    var k :| 0 <= k < |xs| && w.minFirstEnd == v.inf[xs[k]] + a.dur[xs[k]];
    assert all[k] == xs[k];
    var l :| 0 <= l < |xs| && w.maxLastStart == v.sup[xs[l]];
    assert all[l] == xs[l];
  }

  /** The window and duration of the two actions that span an interval. */
  lemma SpanFrames(a: Actions, v: View, x: nat, y: nat, w: Window, msp: int)
    requires WellSized(a) && |v.inf| == |v.sup| == |a.dur| && x < |a.dur| && y < |a.dur|
    requires msp == if x == y then a.dur[x] else a.dur[x] + a.dur[y]
    requires w.minStart == Min(v.inf[x], v.inf[y]) && w.maxEnd == Max(v.sup[y] + a.dur[y], v.sup[x] + a.dur[x])
    requires w.minFirstEnd == Min(v.inf[x] + a.dur[x], v.inf[y] + a.dur[y]) && w.maxLastStart == Max(v.sup[x], v.sup[y])
    ensures Fitted(a, v, Ends(x, y), w, msp)
  {
    TotalOfEnds(a, x, y);
    assert Ends(x, y)[0] == x && (x != y ==> Ends(x, y)[1] == y);
  }

  /** An interval while its members are collected. */
  datatype Span = Span(ms: seq<nat>, others: seq<nat>, w: Window, msp: int)

  ghost function SpanXs(x: nat, y: nat, i: Span): seq<nat> {
    Ends(x, y) + i.ms
  }

  /** The interval that `x` and `y` span among the users `us`. */
  ghost predicate Collected(a: Actions, v: View, us: set<nat>, x: nat, y: nat, i: Span) {
    && WellSized(a) && |v.inf| == |v.sup| == |a.dur| && (forall u :: u in us ==> u < |a.dur|)
    && Fitted(a, v, SpanXs(x, y, i), i.w, i.msp) && x < |a.dur| && y < |a.dur|
    && i.w.minStart == Min(v.inf[x], v.inf[y]) && i.w.maxEnd == Max(v.sup[x] + a.dur[x], v.sup[y] + a.dur[y])
    && Partition(a, v, us, x, y, i.w, i.ms, i.others)
  }

  lemma CollectedInside(a: Actions, v: View, us: set<nat>, x: nat, y: nat, i: Span, u: nat, w: Window)
    requires Collected(a, v, us, x, y, i) && u < |a.dur| && u !in us && u != x && u != y && Within(a, v, i.w, u)
    requires w == i.w.(minFirstEnd := Min(i.w.minFirstEnd, v.inf[u] + a.dur[u]),
                       maxLastStart := Max(i.w.maxLastStart, v.sup[u]))
    ensures Collected(a, v, us + {u}, x, y, Span(i.ms + [u], i.others, w, i.msp + a.dur[u]))
  {
    OneMoreMember(a, v, SpanXs(x, y, i), i.w, i.msp, u, w, SpanXs(x, y, Span(i.ms + [u], i.others, w, i.msp + a.dur[u])));
    PartitionGrows(a, v, us, x, y, i.w, i.ms, i.others, u, w);
  }

  lemma CollectedOutside(a: Actions, v: View, us: set<nat>, x: nat, y: nat, i: Span, u: nat)
    requires Collected(a, v, us, x, y, i) && u < |a.dur| && u !in us && u != x && u != y && !Within(a, v, i.w, u)
    ensures Collected(a, v, us + {u}, x, y, i.(others := i.others + [u]))
  {
    PartitionGrows(a, v, us, x, y, i.w, i.ms, i.others, u, i.w);
  }

  /** Sorts one more user into the members of the interval or the rest. */
  method Place(s: Store, x: nat, y: nat, i: Span, u: nat, ghost us: set<nat>) returns (r: Span)
    requires s.Valid() && u < |s.acts.dur| && Collected(s.acts, ViewOf(s), us, x, y, i) && u !in us && u != x && u != y
    ensures Collected(s.acts, ViewOf(s), us + {u}, x, y, r)
  {
    var d := s.acts.dur;
    if s.inf[u] >= i.w.minStart && s.sup[u] + d[u] <= i.w.maxEnd {
      var w := i.w.(minFirstEnd := Min(i.w.minFirstEnd, s.inf[u] + d[u]), maxLastStart := Max(i.w.maxLastStart, s.sup[u]));
      r := Span(i.ms + [u], i.others, w, i.msp + d[u]);
      CollectedInside(s.acts, ViewOf(s), us, x, y, i, u, w);
    } else {
      r := i.(others := i.others + [u]);
      CollectedOutside(s.acts, ViewOf(s), us, x, y, i, u);
    }
  }

  method SpanOf(s: Store, x: nat, y: nat) returns (r: Span)
    requires s.Valid() && x < |s.acts.dur| && y < |s.acts.dur|
    ensures Collected(s.acts, ViewOf(s), {}, x, y, r)
  {
    var d := s.acts.dur;
    var msp := d[x];
    if x != y {
      msp := msp + d[y];
    }
    var w := Window(Min(s.inf[x], s.inf[y]), Max(s.sup[y] + d[y], s.sup[x] + d[x]),
                    Min(s.inf[x] + d[x], s.inf[y] + d[y]), Max(s.sup[x], s.sup[y]));
    r := Span([], [], w, msp);
    SpanFrames(s.acts, ViewOf(s), x, y, w, msp);
    EndsCollected(s.acts, ViewOf(s), x, y, r);
  }

  /** An interval of its two ends only. */
  lemma EndsCollected(a: Actions, v: View, x: nat, y: nat, i: Span)
    requires WellSized(a) && |v.inf| == |v.sup| == |a.dur| && x < |a.dur| && y < |a.dur|
    requires i.ms == [] && i.others == [] && Fitted(a, v, Ends(x, y), i.w, i.msp)
    requires i.w.minStart == Min(v.inf[x], v.inf[y]) && i.w.maxEnd == Max(v.sup[x] + a.dur[x], v.sup[y] + a.dur[y])
    ensures Collected(a, v, {}, x, y, i)
  {
    assert SpanXs(x, y, i) == Ends(x, y) && Ends(x, y) + [] == Ends(x, y);
  }

  /** The other users among the first `i` deleters. */
  ghost function OthersTo(deleters: seq<nat>, uses: set<nat>, x: nat, y: nat, i: nat): set<nat>
    requires i <= |deleters|
  {
    Users(deleters[..i], uses) - {x, y}
  }

  lemma OthersOneMore(deleters: seq<nat>, uses: set<nat>, x: nat, y: nat, i: nat)
    requires NoDuplicates(deleters) && i < |deleters|
    ensures deleters[i] !in OthersTo(deleters, uses, x, y, i)
    ensures OthersTo(deleters, uses, x, y, i + 1) ==
            if deleters[i] in uses && deleters[i] != x && deleters[i] != y
            then OthersTo(deleters, uses, x, y, i) + {deleters[i]} else OthersTo(deleters, uses, x, y, i)
  {
    assert deleters[..i + 1] == deleters[..i] + [deleters[i]];
  }

  lemma OthersAtEnds(deleters: seq<nat>, uses: set<nat>, x: nat, y: nat)
    ensures OthersTo(deleters, uses, x, y, 0) == {}
    ensures OthersTo(deleters, uses, x, y, |deleters|) == Users(deleters, uses) - {x, y}
  {
    assert deleters[..|deleters|] == deleters;
  }

  /** The interval, as far as the first `i` deleters go. */
  ghost predicate CollectedTo(a: Actions, v: View, deleters: seq<nat>, uses: set<nat>, x: nat, y: nat, i: nat, r: Span) {
    i <= |deleters| && Collected(a, v, OthersTo(deleters, uses, x, y, i), x, y, r)
  }

  method CollectOne(s: Store, deleters: seq<nat>, uses: set<nat>, x: nat, y: nat, b: Span, i: nat) returns (r: Span)
    requires s.Valid() && NoDuplicates(deleters) && i < |deleters| && deleters[i] < |s.acts.dur|
    requires CollectedTo(s.acts, ViewOf(s), deleters, uses, x, y, i, b)
    ensures CollectedTo(s.acts, ViewOf(s), deleters, uses, x, y, i + 1, r)
  {
    r := b;
    OthersOneMore(deleters, uses, x, y, i);
    if deleters[i] in uses && deleters[i] != x && deleters[i] != y {
      r := Place(s, x, y, b, deleters[i], OthersTo(deleters, uses, x, y, i));
    }
  }

  method CollectAll(s: Store, deleters: seq<nat>, uses: set<nat>, x: nat, y: nat, b: Span) returns (r: Span)
    requires s.Valid() && NoDuplicates(deleters) && forall i :: 0 <= i < |deleters| ==> deleters[i] < |s.acts.dur|
    requires CollectedTo(s.acts, ViewOf(s), deleters, uses, x, y, 0, b)
    ensures CollectedTo(s.acts, ViewOf(s), deleters, uses, x, y, |deleters|, r)
  {
    r := b;
    var i := 0;
    while i < |deleters|
      invariant 0 <= i <= |deleters| && CollectedTo(s.acts, ViewOf(s), deleters, uses, x, y, i, r)
    {
      r := CollectOne(s, deleters, uses, x, y, r, i);
      i := i + 1;
    }
  }

  /** Sorts the other users into the members of the interval and the rest. */
  method Collect(s: Store, deleters: seq<nat>, uses: set<nat>, x: nat, y: nat) returns (r: Span)
    requires s.Valid() && NoDuplicates(deleters) && forall i :: 0 <= i < |deleters| ==> deleters[i] < |s.acts.dur|
    requires x in Users(deleters, uses) && y in Users(deleters, uses)
    ensures Collected(s.acts, ViewOf(s), Users(deleters, uses) - {x, y}, x, y, r)
  {
    OthersAtEnds(deleters, uses, x, y);
    var b := SpanOf(s, x, y);
    r := CollectAll(s, deleters, uses, x, y, b);
  }

  lemma PartitionGrows(a: Actions, v: View, us: set<nat>, x: nat, y: nat, w: Window, ms: seq<nat>, others: seq<nat>,
                       u: nat, w': Window)
    requires WellSized(a) && |v.inf| == |v.sup| == |a.dur| && (forall t :: t in us ==> t < |a.dur|) && u < |a.dur|
    requires Partition(a, v, us, x, y, w, ms, others) && u !in us && u != x && u != y
    requires w'.minStart == w.minStart && w'.maxEnd == w.maxEnd
    ensures Within(a, v, w, u) ==> Partition(a, v, us + {u}, x, y, w', ms + [u], others)
    ensures !Within(a, v, w, u) ==> Partition(a, v, us + {u}, x, y, w', ms, others + [u])
  {
    var xs := Ends(x, y) + ms;
    assert forall i :: 0 <= i < |ms| ==> ms[i] in ms;
    assert forall i :: 0 <= i < |xs| ==> xs[i] != u;
    assert Ends(x, y) + (ms + [u]) == xs + [u];
  }

  ghost predicate OtherFiltered(e: Entry, i: Span, c: nat, v: View)
    requires WellPosed(e) && |v.inf| == |v.sup| == |e.a.dur| && c < |e.a.dur|
  {
    Delayed(e, i.w, i.ms, i.msp, c, v) && Advanced(e, i.w, i.ms, i.msp, c, v)
  }

  /** Every rule has been applied to every member of the interval, and to every action outside. */
  ghost predicate Filtered(e: Entry, i: Span, v: View) {
    && WellPosed(e) && |v.inf| == |v.sup| == |e.a.dur|
    && i.msp <= i.w.maxEnd - i.w.minStart
    && v.inf[e.end] >= i.w.minStart + i.msp
    && (forall j :: 0 <= j < |i.ms| ==> i.ms[j] < |e.a.dur| && MemberFiltered(e, i.w, i.msp, i.ms[j], v))
    && (forall j :: 0 <= j < |i.others| ==> i.others[j] < |e.a.dur| && OtherFiltered(e, i, i.others[j], v))
  }

  /** What has been filtered, rule by rule: a member that cannot come first or last, a user that must wait or go ahead. */
  lemma FilteredMeans(e: Entry, i: Span, v: View, u: nat)
    requires Filtered(e, i, v)
    ensures u in i.ms && e.at.inf[u] + i.msp > i.w.maxEnd ==> v.inf[u] >= i.w.minFirstEnd
    ensures u in i.ms && e.at.sup[u] + e.a.dur[u] - i.msp < i.w.minStart ==> v.sup[u] + e.a.dur[u] <= i.w.maxLastStart
    ensures u in i.others && e.at.inf[u] + e.a.dur[u] > i.w.maxLastStart
            ==> v.inf[u] >= i.w.minStart + i.msp && forall m :: m in i.ms ==> (m, u) in v.r
    ensures u in i.others && e.at.inf[u] + i.msp + e.a.dur[u] > i.w.maxEnd
            ==> (v.inf[u] >= i.w.minFirstEnd || (v.inf[u] >= i.w.minStart + i.msp && forall m :: m in i.ms ==> (m, u) in v.r))
    ensures u in i.others && e.at.sup[u] < i.w.minFirstEnd
            ==> v.sup[u] + i.msp + e.a.dur[u] <= i.w.maxEnd && forall m :: m in i.ms ==> (u, m) in v.r
    ensures u in i.others && e.at.sup[u] - i.msp < i.w.minStart
            ==> (v.sup[u] + e.a.dur[u] <= i.w.maxLastStart
                 || (v.sup[u] + i.msp + e.a.dur[u] <= i.w.maxEnd && forall m :: m in i.ms ==> (u, m) in v.r))
  {
    if k :| 0 <= k < |i.ms| && i.ms[k] == u {
      assert MemberFiltered(e, i.w, i.msp, i.ms[k], v);
    }
    if k :| 0 <= k < |i.others| && i.others[k] == u {
      assert OtherFiltered(e, i, i.others[k], v);
    }
  }

  lemma SpanIsInterval(e: Entry, x: nat, y: nat, i: Span)
    requires WellPosed(e) && x in e.users && y in e.users && Collected(e.a, e.at, e.users - {x, y}, x, y, i)
    ensures Interval(e, SpanXs(x, y, i), i.w) && i.msp == TotalDuration(e.a, SpanXs(x, y, i))
    ensures forall j :: 0 <= j < |i.ms| ==> i.ms[j] in SpanXs(x, y, i) && i.ms[j] < |e.a.dur|
    ensures forall j :: 0 <= j < |i.others| ==> i.others[j] in e.users && i.others[j] !in SpanXs(x, y, i) && i.others[j] < |e.a.dur|
  {
    var xs := SpanXs(x, y, i);
    forall k | 0 <= k < |xs| ensures xs[k] in e.users && (xs[k] == x || xs[k] == y || Within(e.a, e.at, i.w, xs[k])) {
      assert xs[k] == x || xs[k] == y || xs[k] in i.ms;
    }
    forall k | 0 <= k < |i.ms| ensures i.ms[k] in xs {
      assert xs[|Ends(x, y)| + k] == i.ms[k];
    }
    forall k | 0 <= k < |i.others| ensures i.others[k] in e.users && i.others[k] !in xs {
      assert i.others[k] in i.others;
    }
  }

  /** The interval has room for its members, and the end of the plan comes after them. */
  lemma SpanBounds(e: Entry, xs: seq<nat>, w: Window)
    requires Interval(e, xs, w)
    ensures forall p: Plan :: Kept(e, p) ==> w.minStart + TotalDuration(e.a, xs) <= p.start[e.end]
    ensures w.maxEnd - w.minStart < TotalDuration(e.a, xs) ==> Hopeless(e)
  {
    forall p: Plan | Kept(e, p)
      ensures w.minStart + TotalDuration(e.a, xs) <= p.start[e.end] && TotalDuration(e.a, xs) <= w.maxEnd - w.minStart
    {
      IntervalContext(e, xs, w, p);
      FitsBetween(e.a, p, xs, w.minStart, w.maxEnd);
      FitsBetween(e.a, p, xs, w.minStart, p.start[e.end]);
    }
  }

  method FilterMembers(ghost e: Entry, s: Store, ghost xs: seq<nat>, i: Span) returns (ok: bool)
    requires Safe(e, s) && Interval(e, xs, i.w) && i.msp == TotalDuration(e.a, xs)
    requires (forall j :: 0 <= j < |i.ms| ==> i.ms[j] in xs && i.ms[j] < |e.a.dur|) && (i.ms != [] ==> |xs| > 1)
    modifies s.inf, s.sup
    ensures ok ==> Safe(e, s) && Advances(old(ViewOf(s)), ViewOf(s))
    ensures ok ==> forall j :: 0 <= j < |i.ms| ==> MemberFiltered(e, i.w, i.msp, i.ms[j], ViewOf(s))
    ensures !ok ==> Hopeless(e)
  {
    ok := true;
    var k := 0;
    while k < |i.ms|
      invariant 0 <= k <= |i.ms| && ok && Safe(e, s) && Advances(old(ViewOf(s)), ViewOf(s))
      invariant forall j :: 0 <= j < k ==> MemberFiltered(e, i.w, i.msp, i.ms[j], ViewOf(s))
    {
      ghost var v := ViewOf(s);
      ok := FilterMember(e, s, xs, i.w, i.msp, i.ms[k]);
      if !ok {
        return;
      }
      forall j | 0 <= j < k ensures MemberFiltered(e, i.w, i.msp, i.ms[j], ViewOf(s)) {
        assert v.inf[i.ms[j]] <= s.inf[i.ms[j]] && s.sup[i.ms[j]] <= v.sup[i.ms[j]];
      }
      k := k + 1;
    }
  }

  lemma DelayedStays(e: Entry, i: Span, c: nat, v: View, v': View)
    requires WellPosed(e) && |v.inf| == |v.sup| == |v'.inf| == |v'.sup| == |e.a.dur| && c < |e.a.dur| && Advances(v, v')
    ensures Delayed(e, i.w, i.ms, i.msp, c, v) ==> Delayed(e, i.w, i.ms, i.msp, c, v')
    ensures Advanced(e, i.w, i.ms, i.msp, c, v) ==> Advanced(e, i.w, i.ms, i.msp, c, v')
  {
    assert v.inf[c] <= v'.inf[c] && v'.sup[c] <= v.sup[c];
    assert AllBefore(i.ms, c, v.r) ==> AllBefore(i.ms, c, v'.r);
    assert AllAfter(i.ms, c, v.r) ==> AllAfter(i.ms, c, v'.r);
  }

  method FilterOther(ghost e: Entry, s: Store, ghost xs: seq<nat>, i: Span, c: nat) returns (ok: bool)
    requires Safe(e, s) && Interval(e, xs, i.w) && i.msp == TotalDuration(e.a, xs) && c in e.users && c !in xs
    requires forall j :: 0 <= j < |i.ms| ==> i.ms[j] in xs && i.ms[j] < |e.a.dur|
    modifies s, s.inf, s.sup
    ensures ok ==> Safe(e, s) && Advances(old(ViewOf(s)), ViewOf(s)) && OtherFiltered(e, i, c, ViewOf(s))
    ensures !ok ==> Hopeless(e)
  {
    ok := FilterForward(e, s, xs, i.ms, i.w, i.msp, c);
    if ok {
      ghost var v := ViewOf(s);
      ok := FilterBackward(e, s, xs, i.ms, i.w, i.msp, c);
      if ok {
        DelayedStays(e, i, c, v, ViewOf(s));
      }
    }
  }

  method FilterOthers(ghost e: Entry, s: Store, ghost xs: seq<nat>, i: Span) returns (ok: bool)
    requires Safe(e, s) && Interval(e, xs, i.w) && i.msp == TotalDuration(e.a, xs)
    requires forall j :: 0 <= j < |i.ms| ==> i.ms[j] in xs && i.ms[j] < |e.a.dur|
    requires forall j :: 0 <= j < |i.others| ==> i.others[j] in e.users && i.others[j] !in xs && i.others[j] < |e.a.dur|
    modifies s, s.inf, s.sup
    ensures ok ==> Safe(e, s) && Advances(old(ViewOf(s)), ViewOf(s))
    ensures ok ==> forall j :: 0 <= j < |i.others| ==> OtherFiltered(e, i, i.others[j], ViewOf(s))
    ensures !ok ==> Hopeless(e)
  {
    ok := true;
    var k := 0;
    while k < |i.others|
      invariant 0 <= k <= |i.others| && ok && Safe(e, s) && Advances(old(ViewOf(s)), ViewOf(s))
      invariant forall j :: 0 <= j < k ==> OtherFiltered(e, i, i.others[j], ViewOf(s))
    {
      ghost var v := ViewOf(s);
      ok := FilterOther(e, s, xs, i, i.others[k]);
      if !ok {
        return;
      }
      forall j | 0 <= j < k ensures OtherFiltered(e, i, i.others[j], ViewOf(s)) {
        DelayedStays(e, i, i.others[j], v, ViewOf(s));
      }
      k := k + 1;
    }
  }

  /**
   The filter for the interval that `x` and `y` span.  It never loses a plan, refuses the
   store only when no plan is left, and applies each of its rules wherever it fires.
   */
  method TaskInterval(s: Store, deleters: seq<nat>, uses: set<nat>, x: nat, y: nat, end: nat)
      returns (ok: bool, i: Span)
    requires s.Valid() && Strict(s.precedes) && NoDuplicates(deleters) && end < |s.acts.dur| && end !in deleters
    requires forall k :: 0 <= k < |deleters| ==> deleters[k] < |s.acts.dur|
    requires x in Users(deleters, uses) && y in Users(deleters, uses)
    modifies s, s.inf, s.sup
    ensures Collected(s.acts, old(ViewOf(s)), Users(deleters, uses) - {x, y}, x, y, i)
    ensures i.ms == [] && x == y ==> ok && ViewOf(s) == old(ViewOf(s))
    ensures ok ==> Safe(old(EntryOf(s, deleters, uses, end)), s)
    ensures ok && (i.ms != [] || x != y) ==> Filtered(old(EntryOf(s, deleters, uses, end)), i, ViewOf(s))
    ensures !ok ==> Hopeless(old(EntryOf(s, deleters, uses, end)))
  {
    ghost var e := EntryOf(s, deleters, uses, end);
    i := Collect(s, deleters, uses, x, y);
    ok := true;
    assert Safe(e, s);
    if i.ms != [] || x != y {
      ok := FilterInterval(e, s, x, y, i, end);
    }
  }

  method FilterInterval(ghost e: Entry, s: Store, x: nat, y: nat, i: Span, end: nat) returns (ok: bool)
    requires Safe(e, s) && e.at == ViewOf(s) && e.end == end && x in e.users && y in e.users && (i.ms != [] || x != y)
    requires Collected(e.a, e.at, e.users - {x, y}, x, y, i)
    modifies s, s.inf, s.sup
    ensures ok ==> Safe(e, s) && Filtered(e, i, ViewOf(s))
    ensures !ok ==> Hopeless(e)
  {
    ghost var xs := SpanXs(x, y, i);
    SpanIsInterval(e, x, y, i);
    SpanBounds(e, xs, i.w);
    ok := RaiseBound(e, s, end, i.w.minStart + i.msp);
    if !ok {
      return;
    }
    if i.w.maxEnd - i.w.minStart < i.msp {
      return false;
    }
    ghost var v0 := ViewOf(s);
    ok := FilterMembers(e, s, xs, i);
    if !ok {
      return;
    }
    ghost var v := ViewOf(s);
    ok := FilterOthers(e, s, xs, i);
    if ok {
      AllFiltered(e, i, v0, v, ViewOf(s));
    }
  }

  /** The end action has been raised, then the members filtered, then the others. */
  lemma AllFiltered(e: Entry, i: Span, v0: View, v1: View, v2: View)
    requires WellPosed(e) && Advances(v0, v1) && Advances(v1, v2) && |v0.inf| == |v0.sup| == |e.a.dur|
    requires i.msp <= i.w.maxEnd - i.w.minStart && v0.inf[e.end] >= i.w.minStart + i.msp
    requires forall j :: 0 <= j < |i.ms| ==> i.ms[j] < |e.a.dur| && MemberFiltered(e, i.w, i.msp, i.ms[j], v1)
    requires forall j :: 0 <= j < |i.others| ==> i.others[j] < |e.a.dur| && OtherFiltered(e, i, i.others[j], v2)
    ensures Filtered(e, i, v2)
  {
    forall j | 0 <= j < |i.ms| ensures MemberFiltered(e, i.w, i.msp, i.ms[j], v2) {
      assert v1.inf[i.ms[j]] <= v2.inf[i.ms[j]] && v2.sup[i.ms[j]] <= v1.sup[i.ms[j]];
    }
    assert v0.inf[e.end] <= v1.inf[e.end] <= v2.inf[e.end];
  }

  /** A later entry of the same filter keeps every plan that the first one keeps. */
  lemma LaterEntry(e: Entry, e': Entry, s: Store)
    requires e' == e.(at := e'.at) && Advances(e.at, e'.at) && forall p: Plan :: Kept(e, p) ==> Allows(e'.at, p)
    ensures Safe(e', s) && WellPosed(e) ==> Safe(e, s)
    ensures Hopeless(e') ==> Hopeless(e)
  {
    assert forall p: Plan :: Kept(e, p) ==> Kept(e', p);
  }

  // ----- all pairs of users

  /** The filter for the interval of `x` and `y` was applied to the view `at`, and what it found holds in `v`. */
  ghost predicate FilteredAt(e: Entry, x: nat, y: nat, at: View, i: Span, v: View) {
    && WellPosed(e) && Advances(e.at, at) && Advances(at, v)
    && Collected(e.a, at, e.users - {x, y}, x, y, i)
    && (i.ms != [] || x != y ==> Filtered(e.(at := at), i, v))
  }

  ghost predicate PairFiltered(e: Entry, x: nat, y: nat, v: View) {
    exists at: View, i: Span :: FilteredAt(e, x, y, at, i, v)
  }

  lemma FilteredStays(e: Entry, i: Span, v: View, v': View)
    requires Filtered(e, i, v) && Advances(v, v')
    ensures Filtered(e, i, v')
  {
    forall j | 0 <= j < |i.ms| ensures MemberFiltered(e, i.w, i.msp, i.ms[j], v') {
      assert v.inf[i.ms[j]] <= v'.inf[i.ms[j]] && v'.sup[i.ms[j]] <= v.sup[i.ms[j]];
    }
    forall j | 0 <= j < |i.others| ensures OtherFiltered(e, i, i.others[j], v') {
      DelayedStays(e, i, i.others[j], v, v');
    }
    assert v.inf[e.end] <= v'.inf[e.end];
  }

  lemma FilteredAtStays(e: Entry, x: nat, y: nat, at: View, i: Span, v: View, v': View)
    requires FilteredAt(e, x, y, at, i, v) && Advances(v, v')
    ensures FilteredAt(e, x, y, at, i, v')
  {
    if i.ms != [] || x != y {
      FilteredStays(e.(at := at), i, v, v');
    }
  }

  lemma PairFilteredStays(e: Entry, x: nat, y: nat, v: View, v': View)
    requires PairFiltered(e, x, y, v) && Advances(v, v')
    ensures PairFiltered(e, x, y, v')
  {
    var at: View, i: Span :| FilteredAt(e, x, y, at, i, v);
    FilteredAtStays(e, x, y, at, i, v, v');
  }

  /** What was filtered for a later entry was filtered for the first one. */
  lemma PairFilteredBefore(e: Entry, at: View, x: nat, y: nat, v: View)
    requires WellPosed(e) && Advances(e.at, at) && PairFiltered(e.(at := at), x, y, v)
    ensures PairFiltered(e, x, y, v)
  {
    var here: View, i: Span :| FilteredAt(e.(at := at), x, y, here, i, v);
    FilteredAtBefore(e, at, x, y, here, i, v);
  }

  lemma FilteredAtBefore(e: Entry, at: View, x: nat, y: nat, here: View, i: Span, v: View)
    requires WellPosed(e) && Advances(e.at, at) && FilteredAt(e.(at := at), x, y, here, i, v)
    ensures FilteredAt(e, x, y, here, i, v)
  {
    assert e.(at := at).(at := here) == e.(at := here);
  }

  /** Two users fit one after the other into their common window, and the end of the plan comes after both. */
  ghost predicate PairFits(a: Actions, v: View, end: nat, x: nat, y: nat, v': View) {
    && |v.inf| == |v.sup| == |v'.inf| == |a.dur| && x < |a.dur| && y < |a.dur| && end < |a.dur|
    && a.dur[x] + a.dur[y] <= Max(v.sup[x] + a.dur[x], v.sup[y] + a.dur[y]) - Min(v.inf[x], v.inf[y])
    && v'.inf[end] >= Min(v.inf[x], v.inf[y]) + a.dur[x] + a.dur[y]
  }

  lemma SpanTakesBoth(a: Actions, x: nat, y: nat, ms: seq<nat>)
    requires Among(a, Ends(x, y) + ms) && x != y && x < |a.dur| && y < |a.dur|
    ensures TotalDuration(a, Ends(x, y) + ms) >= a.dur[x] + a.dur[y]
  {
    var xs := Ends(x, y) + ms;
    assert xs[0] == x && xs[1..][0] == y;
    assert TotalDuration(a, xs[1..]) == a.dur[y] + TotalDuration(a, xs[1..][1..]);
  }

  lemma CollectedPair(a: Actions, v: View, us: set<nat>, x: nat, y: nat, i: Span)
    requires Collected(a, v, us, x, y, i) && x != y
    ensures |v.inf| == |v.sup| == |a.dur| && x < |a.dur| && y < |a.dur| && i.msp >= a.dur[x] + a.dur[y]
    ensures i.w.minStart == Min(v.inf[x], v.inf[y]) && i.w.maxEnd == Max(v.sup[x] + a.dur[x], v.sup[y] + a.dur[y])
  {
    SpanTakesBoth(a, x, y, i.ms);
  }

  lemma FilteredRoom(e: Entry, i: Span, v: View)
    requires Filtered(e, i, v)
    ensures |v.inf| == |e.a.dur| && e.end < |e.a.dur|
    ensures i.msp <= i.w.maxEnd - i.w.minStart && v.inf[e.end] >= i.w.minStart + i.msp
  {
  }

  lemma FitsEarlier(a: Actions, v: View, at: View, end: nat, x: nat, y: nat, v': View)
    requires PairFits(a, at, end, x, y, v') && Advances(v, at)
    ensures PairFits(a, v, end, x, y, v')
  {
    assert v.inf[x] <= at.inf[x] && v.inf[y] <= at.inf[y] && at.sup[x] <= v.sup[x] && at.sup[y] <= v.sup[y];
  }

  /** What the filter of a pair comes to for the pair itself, under the bounds at entry. */
  lemma FilteredPairFits(e: Entry, x: nat, y: nat, v: View)
    requires PairFiltered(e, x, y, v) && x != y
    ensures PairFits(e.a, e.at, e.end, x, y, v)
  {
    var at: View, i: Span :| FilteredAt(e, x, y, at, i, v);
    CollectedPair(e.a, at, e.users - {x, y}, x, y, i);
    FilteredRoom(e.(at := at), i, v);
    FitsEarlier(e.a, e.at, at, e.end, x, y, v);
  }

  /** All pairs of one fluent have been filtered. */
  ghost predicate AllPairsFiltered(e: Entry, deleters: seq<nat>, uses: set<nat>, v: View) {
    forall i, j :: 0 <= i <= j < |deleters| && deleters[i] in uses && deleters[j] in uses
                   ==> PairFiltered(e, deleters[i], deleters[j], v)
  }

  lemma AllPairsFilteredStays(e: Entry, deleters: seq<nat>, uses: set<nat>, v: View, v': View)
    requires AllPairsFiltered(e, deleters, uses, v) && Advances(v, v')
    ensures AllPairsFiltered(e, deleters, uses, v')
  {
    forall i, j | 0 <= i <= j < |deleters| && deleters[i] in uses && deleters[j] in uses
      ensures PairFiltered(e, deleters[i], deleters[j], v')
    {
      PairFilteredStays(e, deleters[i], deleters[j], v, v');
    }
  }

  lemma PairOfUsers(e: Entry, deleters: seq<nat>, uses: set<nat>, x: nat, y: nat, v: View)
    requires AllPairsFiltered(e, deleters, uses, v) && x in deleters && y in deleters && x in uses && y in uses && x != y
    ensures PairFits(e.a, e.at, e.end, x, y, v)
  {
    var i :| 0 <= i < |deleters| && deleters[i] == x;
    var j :| 0 <= j < |deleters| && deleters[j] == y;
    if i <= j {
      PairAtFits(e, deleters, uses, i, j, v);
    } else {
      PairAtFits(e, deleters, uses, j, i, v);
      FitsEitherWay(e.a, e.at, e.end, y, x, v);
    }
  }

  lemma PairAtFits(e: Entry, deleters: seq<nat>, uses: set<nat>, i: nat, j: nat, v: View)
    requires AllPairsFiltered(e, deleters, uses, v) && i <= j < |deleters| && deleters[i] in uses && deleters[j] in uses
    requires deleters[i] != deleters[j]
    ensures PairFits(e.a, e.at, e.end, deleters[i], deleters[j], v)
  {
    FilteredPairFits(e, deleters[i], deleters[j], v);
  }

  lemma FitsEitherWay(a: Actions, v: View, end: nat, x: nat, y: nat, v': View)
    requires PairFits(a, v, end, x, y, v')
    ensures PairFits(a, v, end, y, x, v')
  {
  }

  lemma AllPairsFit(e: Entry, deleters: seq<nat>, uses: set<nat>, v: View)
    requires AllPairsFiltered(e, deleters, uses, v)
    ensures forall x, y :: x in deleters && y in deleters && x in uses && y in uses && x != y
                           ==> PairFits(e.a, e.at, e.end, x, y, v)
  {
    forall x, y | x in deleters && y in deleters && x in uses && y in uses && x != y
      ensures PairFits(e.a, e.at, e.end, x, y, v)
    {
      PairOfUsers(e, deleters, uses, x, y, v);
    }
  }

  /** The pairs before the one of `i` and `j`, in the order of the loops. */
  predicate EarlierPair(deleters: seq<nat>, uses: set<nat>, i: nat, j: nat, k: nat, l: nat) {
    k <= l < |deleters| && (k < i || (k == i && l < j)) && deleters[k] in uses && deleters[l] in uses
  }

  ghost predicate PairsBefore(e: Entry, deleters: seq<nat>, uses: set<nat>, i: nat, j: nat, v: View) {
    forall k: nat, l: nat :: EarlierPair(deleters, uses, i, j, k, l) ==> PairFiltered(e, deleters[k], deleters[l], v)
  }

  lemma PairsBeforeStay(e: Entry, deleters: seq<nat>, uses: set<nat>, i: nat, j: nat, v: View, v': View)
    requires PairsBefore(e, deleters, uses, i, j, v) && Advances(v, v')
    ensures PairsBefore(e, deleters, uses, i, j, v')
  {
    forall k: nat, l: nat | EarlierPair(deleters, uses, i, j, k, l) ensures PairFiltered(e, deleters[k], deleters[l], v') {
      PairFilteredStays(e, deleters[k], deleters[l], v, v');
    }
  }

  lemma OneMorePair(deleters: seq<nat>, uses: set<nat>, i: nat, j: nat)
    requires i <= j < |deleters|
    ensures forall k: nat, l: nat :: EarlierPair(deleters, uses, i, j + 1, k, l)
                                     ==> EarlierPair(deleters, uses, i, j, k, l) || (k == i && l == j)
  {
  }

  /** The filter for one pair of users, of all over one fluent. */
  method FilterPair(ghost e: Entry, s: Store, deleters: seq<nat>, uses: set<nat>, x: nat, y: nat, end: nat) returns (ok: bool)
    requires Safe(e, s) && e.end == end && e.users == Users(deleters, uses) && NoDuplicates(deleters) && end !in deleters
    requires forall k :: 0 <= k < |deleters| ==> deleters[k] < |s.acts.dur|
    requires x in e.users && y in e.users
    modifies s, s.inf, s.sup
    ensures ok ==> Safe(e, s) && Advances(old(ViewOf(s)), ViewOf(s)) && PairFiltered(e, x, y, ViewOf(s))
    ensures !ok ==> Hopeless(e)
  {
    ghost var e' := EntryOf(s, deleters, uses, end);
    assert e' == e.(at := ViewOf(s));
    var i;
    ok, i := TaskInterval(s, deleters, uses, x, y, end);
    LaterEntry(e, e', s);
    if ok {
      assert FilteredAt(e, x, y, e'.at, i, ViewOf(s));
    }
  }

  lemma OneMoreFiltered(e: Entry, deleters: seq<nat>, uses: set<nat>, i: nat, j: nat, v: View, v': View)
    requires PairsBefore(e, deleters, uses, i, j, v) && Advances(v, v') && i <= j < |deleters|
    requires deleters[i] in uses && deleters[j] in uses ==> PairFiltered(e, deleters[i], deleters[j], v')
    ensures PairsBefore(e, deleters, uses, i, j + 1, v')
  {
    PairsBeforeStay(e, deleters, uses, i, j, v, v');
    OneMorePair(deleters, uses, i, j);
    forall k: nat, l: nat | EarlierPair(deleters, uses, i, j + 1, k, l) ensures PairFiltered(e, deleters[k], deleters[l], v') {
      assert EarlierPair(deleters, uses, i, j, k, l) || (k == i && l == j);
    }
  }

  /** What the loops over the pairs keep. */
  ghost predicate Filtering(e: Entry, s: Store, deleters: seq<nat>, uses: set<nat>, end: nat)
    reads s, s.inf, s.sup
  {
    && Safe(e, s) && e.end == end && e.users == Users(deleters, uses) && NoDuplicates(deleters) && end !in deleters
    && forall k :: 0 <= k < |deleters| ==> deleters[k] < |s.acts.dur|
  }

  /** One turn of the inner loop. */
  method FilterNext(ghost e: Entry, s: Store, deleters: seq<nat>, uses: set<nat>, end: nat, i: nat, j: nat) returns (ok: bool)
    requires Filtering(e, s, deleters, uses, end) && i <= j < |deleters| && PairsBefore(e, deleters, uses, i, j, ViewOf(s))
    modifies s, s.inf, s.sup
    ensures ok ==> Filtering(e, s, deleters, uses, end) && PairsBefore(e, deleters, uses, i, j + 1, ViewOf(s))
    ensures !ok ==> Hopeless(e)
  {
    ok := true;
    ghost var v := ViewOf(s);
    if deleters[i] in uses && deleters[j] in uses {
      ok := FilterPair(e, s, deleters, uses, deleters[i], deleters[j], end);
    }
    if ok {
      OneMoreFiltered(e, deleters, uses, i, j, v, ViewOf(s));
    }
  }

  /** The inner loop: the pairs of one user with the later ones. */
  method FilterRow(ghost e: Entry, s: Store, deleters: seq<nat>, uses: set<nat>, end: nat, i: nat) returns (ok: bool)
    requires Filtering(e, s, deleters, uses, end) && i < |deleters| && PairsBefore(e, deleters, uses, i, i, ViewOf(s))
    modifies s, s.inf, s.sup
    ensures ok ==> Filtering(e, s, deleters, uses, end) && PairsBefore(e, deleters, uses, i + 1, i + 1, ViewOf(s))
    ensures !ok ==> Hopeless(e)
  {
    ok := true;
    var j := i;
    while j < |deleters|
      invariant i <= j <= |deleters| && ok
      invariant Filtering(e, s, deleters, uses, end) && PairsBefore(e, deleters, uses, i, j, ViewOf(s))
    {
      ok := FilterNext(e, s, deleters, uses, end, i, j);
      if !ok {
        return;
      }
      j := j + 1;
    }
    RowDone(e, deleters, uses, i, ViewOf(s));
  }

  lemma RowDone(e: Entry, deleters: seq<nat>, uses: set<nat>, i: nat, v: View)
    requires PairsBefore(e, deleters, uses, i, |deleters|, v)
    ensures PairsBefore(e, deleters, uses, i + 1, i + 1, v)
  {
    assert forall k: nat, l: nat :: EarlierPair(deleters, uses, i + 1, i + 1, k, l) ==> EarlierPair(deleters, uses, i, |deleters|, k, l);
  }

  lemma RowsDone(e: Entry, deleters: seq<nat>, uses: set<nat>, v: View)
    requires PairsBefore(e, deleters, uses, |deleters|, |deleters|, v)
    ensures AllPairsFiltered(e, deleters, uses, v)
  {
    forall i: nat, j: nat | i <= j < |deleters| && deleters[i] in uses && deleters[j] in uses
      ensures PairFiltered(e, deleters[i], deleters[j], v)
    {
      assert EarlierPair(deleters, uses, |deleters|, |deleters|, i, j);
    }
  }

  method FilterPairs(ghost e: Entry, s: Store, deleters: seq<nat>, uses: set<nat>, end: nat) returns (ok: bool)
    requires Filtering(e, s, deleters, uses, end)
    modifies s, s.inf, s.sup
    ensures ok ==> Safe(e, s) && AllPairsFiltered(e, deleters, uses, ViewOf(s))
    ensures !ok ==> Hopeless(e)
  {
    ok := true;
    var i := 0;
    while i < |deleters|
      invariant 0 <= i <= |deleters| && ok
      invariant Filtering(e, s, deleters, uses, end) && PairsBefore(e, deleters, uses, i, i, ViewOf(s))
    {
      ok := FilterRow(e, s, deleters, uses, end, i);
      if !ok {
        return;
      }
      i := i + 1;
    }
    RowsDone(e, deleters, uses, ViewOf(s));
  }

  /** The filter for all intervals over one fluent. */
  method TaskIntervals(s: Store, deleters: seq<nat>, uses: set<nat>, end: nat) returns (ok: bool)
    requires s.Valid() && Strict(s.precedes) && NoDuplicates(deleters) && end < |s.acts.dur| && end !in deleters
    requires forall k :: 0 <= k < |deleters| ==> deleters[k] < |s.acts.dur|
    modifies s, s.inf, s.sup
    ensures ok ==> Safe(old(EntryOf(s, deleters, uses, end)), s)
    ensures ok ==> AllPairsFiltered(old(EntryOf(s, deleters, uses, end)), deleters, uses, ViewOf(s))
    ensures ok ==> forall x, y :: x in deleters && y in deleters && x in uses && y in uses && x != y
                                  ==> PairFits(s.acts, old(ViewOf(s)), end, x, y, ViewOf(s))
    ensures !ok ==> Hopeless(old(EntryOf(s, deleters, uses, end)))
  {
    ghost var e := EntryOf(s, deleters, uses, end);
    ok := FilterPairs(e, s, deleters, uses, end);
    if ok {
      AllPairsFit(e, deleters, uses, ViewOf(s));
    }
  }

  // ----- all fluents

  /** A fluent: its active deleters, and the actions that need or produce it. */
  datatype Use = Use(deleters: seq<nat>, uses: set<nat>)

  ghost predicate WellUsed(a: Actions, fs: seq<Use>, end: nat) {
    && end < |a.dur|
    && forall k :: 0 <= k < |fs| ==> NoDuplicates(fs[k].deleters) && end !in fs[k].deleters && Among(a, fs[k].deleters)
  }

  /** The plans that all filters must keep: no two users of one fluent overlap. */
  ghost predicate KeptByAll(a: Actions, v: View, fs: seq<Use>, end: nat, p: Plan) {
    && WellSized(a) && IsPlan(a, p) && Allows(v, p) && EndsPlan(a, p, end)
    && forall k :: 0 <= k < |fs| ==> Kept(Entry(a, Users(fs[k].deleters, fs[k].uses), end, v), p)
  }

  /** A plan that is still allowed is kept by the next filter. */
  lemma StillKept(a: Actions, v: View, v': View, fs: seq<Use>, end: nat, p: Plan, k: nat)
    requires KeptByAll(a, v, fs, end, p) && Allows(v', p) && k < |fs|
    ensures Kept(Entry(a, Users(fs[k].deleters, fs[k].uses), end, v'), p)
  {
    assert Kept(Entry(a, Users(fs[k].deleters, fs[k].uses), end, v), p);
  }

  ghost function EntryFor(a: Actions, v: View, u: Use, end: nat): Entry {
    Entry(a, Users(u.deleters, u.uses), end, v)
  }

  /** The pairs of all fluents before `k` have been filtered. */
  ghost predicate UsesFiltered(a: Actions, v: View, fs: seq<Use>, end: nat, k: nat, v': View) {
    forall l :: 0 <= l < k && l < |fs| ==> AllPairsFiltered(EntryFor(a, v, fs[l], end), fs[l].deleters, fs[l].uses, v')
  }

  lemma UsesFilteredOneMore(a: Actions, v0: View, fs: seq<Use>, end: nat, k: nat, v: View, v': View)
    requires WellUsed(a, fs, end) && |v0.inf| == |v0.sup| == |a.dur| && k < |fs|
    requires UsesFiltered(a, v0, fs, end, k, v) && Advances(v0, v) && Advances(v, v')
    requires AllPairsFiltered(EntryFor(a, v, fs[k], end), fs[k].deleters, fs[k].uses, v')
    ensures UsesFiltered(a, v0, fs, end, k + 1, v')
  {
    forall l | 0 <= l < k + 1 ensures AllPairsFiltered(EntryFor(a, v0, fs[l], end), fs[l].deleters, fs[l].uses, v') {
      if l < k {
        AllPairsFilteredStays(EntryFor(a, v0, fs[l], end), fs[l].deleters, fs[l].uses, v, v');
      } else {
        AllPairsFilteredBefore(EntryFor(a, v0, fs[k], end), v, fs[k].deleters, fs[k].uses, v');
      }
    }
  }

  lemma AllPairsFilteredBefore(e: Entry, at: View, deleters: seq<nat>, uses: set<nat>, v: View)
    requires WellPosed(e) && Advances(e.at, at) && AllPairsFiltered(e.(at := at), deleters, uses, v)
    ensures AllPairsFiltered(e, deleters, uses, v)
  {
    forall i, j | 0 <= i <= j < |deleters| && deleters[i] in uses && deleters[j] in uses
      ensures PairFiltered(e, deleters[i], deleters[j], v)
    {
      PairFilteredBefore(e, at, deleters[i], deleters[j], v);
    }
  }

  /** All users of one fluent fit, two by two. */
  ghost predicate UsesFit(a: Actions, v: View, fs: seq<Use>, end: nat, v': View) {
    forall k, x, y :: 0 <= k < |fs| && x in fs[k].deleters && y in fs[k].deleters && x in fs[k].uses && y in fs[k].uses && x != y
                      ==> PairFits(a, v, end, x, y, v')
  }

  lemma FilteredUsesFit(a: Actions, v: View, fs: seq<Use>, end: nat, v': View)
    requires UsesFiltered(a, v, fs, end, |fs|, v')
    ensures UsesFit(a, v, fs, end, v')
  {
    forall k | 0 <= k < |fs|
      ensures forall x, y :: x in fs[k].deleters && y in fs[k].deleters && x in fs[k].uses && y in fs[k].uses && x != y
                             ==> PairFits(a, v, end, x, y, v')
    {
      AllPairsFit(EntryFor(a, v, fs[k], end), fs[k].deleters, fs[k].uses, v');
    }
  }

  /** The filter for all intervals over all fluents. */
  method AllTaskIntervals(s: Store, fs: seq<Use>, end: nat) returns (ok: bool)
    requires s.Valid() && Strict(s.precedes) && WellUsed(s.acts, fs, end)
    modifies s, s.inf, s.sup
    ensures ok ==> s.Valid() && Strict(s.precedes) && Advances(old(ViewOf(s)), ViewOf(s))
    ensures ok ==> forall p: Plan :: KeptByAll(s.acts, old(ViewOf(s)), fs, end, p) ==> Allows(ViewOf(s), p)
    ensures ok ==> UsesFiltered(s.acts, old(ViewOf(s)), fs, end, |fs|, ViewOf(s))
    ensures ok ==> UsesFit(s.acts, old(ViewOf(s)), fs, end, ViewOf(s))
    ensures !ok ==> forall p: Plan :: !KeptByAll(s.acts, old(ViewOf(s)), fs, end, p)
  {
    ghost var v0 := ViewOf(s);
    ok := true;
    var k := 0;
    while k < |fs|
      invariant 0 <= k <= |fs| && ok && s.Valid() && Strict(s.precedes) && Advances(v0, ViewOf(s))
      invariant forall p: Plan :: KeptByAll(s.acts, v0, fs, end, p) ==> Allows(ViewOf(s), p)
      invariant UsesFiltered(s.acts, v0, fs, end, k, ViewOf(s))
    {
      ghost var v := ViewOf(s);
      forall p: Plan | KeptByAll(s.acts, v0, fs, end, p)
        ensures Kept(Entry(s.acts, Users(fs[k].deleters, fs[k].uses), end, v), p)
      {
        StillKept(s.acts, v0, v, fs, end, p, k);
      }
      ok := TaskIntervals(s, fs[k].deleters, fs[k].uses, end);
      if !ok {
        return;
      }
      UsesFilteredOneMore(s.acts, v0, fs, end, k, v, ViewOf(s));
      k := k + 1;
    }
    FilteredUsesFit(s.acts, v0, fs, end, ViewOf(s));
  }
}
