/**
 Exclusive actions in a window of time: what edge finding may conclude about an action from
 the total duration of the others.
 */
module Packing {
  import opened Counting
  import opened Orders

  /** Any two of the actions are ordered by the plan. */
  ghost predicate Exclusive(p: Plan, xs: seq<nat>) {
    forall i, j :: 0 <= i < j < |xs| ==> (xs[i], xs[j]) in p.order || (xs[j], xs[i]) in p.order
  }

  ghost predicate Among(a: Actions, xs: seq<nat>) {
    WellSized(a) && forall i :: 0 <= i < |xs| ==> xs[i] < |a.dur|
  }

  function TotalDuration(a: Actions, xs: seq<nat>): (r: nat)
    requires WellSized(a) && forall i :: 0 <= i < |xs| ==> xs[i] < |a.dur|
  {
    if xs == [] then 0 else a.dur[xs[0]] + TotalDuration(a, xs[1..])
  }

  lemma {:induction false} TotalWithout(a: Actions, xs: seq<nat>, m: nat)
    requires Among(a, xs) && m < |xs|
    ensures Among(a, xs[..m] + xs[m + 1..])
    ensures TotalDuration(a, xs) == a.dur[xs[m]] + TotalDuration(a, xs[..m] + xs[m + 1..])
  {
    if m > 0 {
      TotalWithout(a, xs[1..], m - 1);
      assert xs[1..][..m - 1] + xs[1..][m..] == (xs[..m] + xs[m + 1..])[1..];
    } else {
      assert xs[..m] + xs[m + 1..] == xs[1..];
    }
  }

  /** Ordered actions do not overlap. */
  lemma OrderedApart(a: Actions, p: Plan, x: nat, y: nat)
    requires WellSized(a) && IsPlan(a, p) && (x, y) in p.order && x < |a.dur| && y < |a.dur|
    ensures p.start[x] + a.dur[x] <= p.start[y]
  {
    assert p.start[(x, y).0] + Delta(a, (x, y).0, (x, y).1) <= p.start[(x, y).1];
  }

  lemma {:induction false} LastOf(p: Plan, xs: seq<nat>) returns (m: nat)
    requires xs != [] && Strict(p.order) && Exclusive(p, xs)
    ensures m < |xs| && forall i :: 0 <= i < |xs| && i != m ==> (xs[i], xs[m]) in p.order
  {
    var n := |xs| - 1;
    if n == 0 {
      m := 0;
    } else {
      assert Exclusive(p, xs[..n]);
      m := LastOf(p, xs[..n]);
      assert (xs[m], xs[n]) in p.order || (xs[n], xs[m]) in p.order;
      if (xs[m], xs[n]) in p.order {
        forall i | 0 <= i < n ensures (xs[i], xs[n]) in p.order {
          if i != m {
            assert xs[..n][i] == xs[i];
            assert (xs[i], xs[m]).1 == (xs[m], xs[n]).0;
          }
        }
        m := n;
      } else {
        forall i | 0 <= i < n && i != m ensures (xs[i], xs[m]) in p.order {
          assert xs[..n][i] == xs[i];
        }
      }
    }
  }

  lemma ExclusiveWithout(p: Plan, xs: seq<nat>, m: nat)
    requires Exclusive(p, xs) && m < |xs|
    ensures Exclusive(p, xs[..m] + xs[m + 1..])
  {
    var rest := xs[..m] + xs[m + 1..];
    forall i, j | 0 <= i < j < |rest| ensures (rest[i], rest[j]) in p.order || (rest[j], rest[i]) in p.order {
      var k, l := if i < m then i else i + 1, if j < m then j else j + 1;
      assert rest[i] == xs[k] && rest[j] == xs[l];
    }
  }

  /** Exclusive actions that all start after `lo` and end before `hi` fit in between. */
  lemma {:induction false} FitsBetween(a: Actions, p: Plan, xs: seq<nat>, lo: int, hi: int)
    requires Among(a, xs) && IsPlan(a, p) && Exclusive(p, xs) && xs != []
    requires forall i :: 0 <= i < |xs| ==> lo <= p.start[xs[i]] && p.start[xs[i]] + a.dur[xs[i]] <= hi
    ensures lo + TotalDuration(a, xs) <= hi
    decreases |xs|
  {
    var m := LastOf(p, xs);
    var rest := xs[..m] + xs[m + 1..];
    TotalWithout(a, xs, m);
    if rest != [] {
      ExclusiveWithout(p, xs, m);
      forall i | 0 <= i < |rest| ensures lo <= p.start[rest[i]] && p.start[rest[i]] + a.dur[rest[i]] <= p.start[xs[m]] {
        var k := if i < m then i else i + 1;
        assert rest[i] == xs[k];
        OrderedApart(a, p, xs[k], xs[m]);
      }
      FitsBetween(a, p, rest, lo, p.start[xs[m]]);
    } else {
      assert TotalDuration(a, rest) == 0;
    }
  }

  // ----- the rules of edge finding

  /** Bounds on the starts and ends of a set of actions. */
  datatype Window = Window(minStart: int, maxEnd: int, minFirstEnd: int, maxLastStart: int)

  ghost predicate Framed(a: Actions, p: Plan, xs: seq<nat>, w: Window)
    requires Among(a, xs) && |p.start| == |a.dur|
  {
    forall i :: 0 <= i < |xs| ==>
      && w.minStart <= p.start[xs[i]] <= w.maxLastStart
      && w.minFirstEnd <= p.start[xs[i]] + a.dur[xs[i]] <= w.maxEnd
  }

  /** `c` is ordered with every action of `xs`. */
  ghost predicate ExclusiveWith(p: Plan, xs: seq<nat>, c: nat) {
    forall i :: 0 <= i < |xs| ==> (xs[i], c) in p.order || (c, xs[i]) in p.order
  }

  ghost predicate Context(a: Actions, p: Plan, xs: seq<nat>, w: Window) {
    && Among(a, xs) && xs != [] && IsPlan(a, p) && Exclusive(p, xs) && Framed(a, p, xs, w)
  }

  lemma ContextWithout(a: Actions, p: Plan, xs: seq<nat>, w: Window, m: nat, rest: seq<nat>)
    requires Context(a, p, xs, w) && m < |xs| && 1 < |xs| && rest == xs[..m] + xs[m + 1..]
    ensures Context(a, p, rest, w) && forall i :: 0 <= i < |rest| ==> rest[i] == xs[if i < m then i else i + 1]
  {
    forall i | 0 <= i < |rest| ensures rest[i] == xs[if i < m then i else i + 1] {
    }
    ExclusiveWithout(p, xs, m);
  }

  /** An action that would overrun the window if it came first starts after one of them has ended. */
  lemma NotFirst(a: Actions, p: Plan, xs: seq<nat>, w: Window, c: nat)
    requires Context(a, p, xs, w) && c < |a.dur| && ExclusiveWith(p, xs, c)
    requires p.start[c] + TotalDuration(a, xs) + a.dur[c] > w.maxEnd
    ensures w.minFirstEnd <= p.start[c]
  {
    if forall i :: 0 <= i < |xs| ==> (xs[i], c) !in p.order {
      forall i | 0 <= i < |xs| ensures p.start[c] + a.dur[c] <= p.start[xs[i]] {
        OrderedApart(a, p, c, xs[i]);
      }
      FitsBetween(a, p, xs, p.start[c] + a.dur[c], w.maxEnd);
    }
    var i :| 0 <= i < |xs| && (xs[i], c) in p.order;
    OrderedApart(a, p, xs[i], c);
  }

  /** An action that would start too early if it came last ends before one of them starts. */
  lemma NotLast(a: Actions, p: Plan, xs: seq<nat>, w: Window, c: nat)
    requires Context(a, p, xs, w) && c < |a.dur| && ExclusiveWith(p, xs, c)
    requires p.start[c] - TotalDuration(a, xs) < w.minStart
    ensures p.start[c] + a.dur[c] <= w.maxLastStart
  {
    if forall i :: 0 <= i < |xs| ==> (c, xs[i]) !in p.order {
      forall i | 0 <= i < |xs| ensures p.start[xs[i]] + a.dur[xs[i]] <= p.start[c] {
        OrderedApart(a, p, xs[i], c);
      }
      FitsBetween(a, p, xs, w.minStart, p.start[c]);
    }
    var i :| 0 <= i < |xs| && (c, xs[i]) in p.order;
    OrderedApart(a, p, c, xs[i]);
  }

  /** An action after all of them starts after their total duration. */
  lemma AfterAllStart(a: Actions, p: Plan, xs: seq<nat>, w: Window, c: nat)
    requires Context(a, p, xs, w) && c < |a.dur| && forall i :: 0 <= i < |xs| ==> (xs[i], c) in p.order
    ensures w.minStart + TotalDuration(a, xs) <= p.start[c]
  {
    forall i | 0 <= i < |xs| ensures p.start[xs[i]] + a.dur[xs[i]] <= p.start[c] {
      OrderedApart(a, p, xs[i], c);
    }
    FitsBetween(a, p, xs, w.minStart, p.start[c]);
  }

  /** An action before all of them leaves room for their total duration. */
  lemma BeforeAllStart(a: Actions, p: Plan, xs: seq<nat>, w: Window, c: nat)
    requires Context(a, p, xs, w) && c < |a.dur| && forall i :: 0 <= i < |xs| ==> (c, xs[i]) in p.order
    ensures p.start[c] <= w.maxEnd - (TotalDuration(a, xs) + a.dur[c])
  {
    forall i | 0 <= i < |xs| ensures p.start[c] + a.dur[c] <= p.start[xs[i]] {
      OrderedApart(a, p, c, xs[i]);
    }
    FitsBetween(a, p, xs, p.start[c] + a.dur[c], w.maxEnd);
  }

  /** Ending later than all of them can start, an action comes after all of them. */
  lemma EndsTooLate(a: Actions, p: Plan, xs: seq<nat>, w: Window, c: nat)
    requires Context(a, p, xs, w) && c < |a.dur| && ExclusiveWith(p, xs, c)
    requires p.start[c] + a.dur[c] > w.maxLastStart
    ensures forall i :: 0 <= i < |xs| ==> (xs[i], c) in p.order
  {
    forall i | 0 <= i < |xs| ensures (xs[i], c) in p.order {
      if (c, xs[i]) in p.order {
        OrderedApart(a, p, c, xs[i]);
      }
    }
  }

  /** Starting before any of them can end, an action comes before all of them. */
  lemma StartsTooEarly(a: Actions, p: Plan, xs: seq<nat>, w: Window, c: nat)
    requires Context(a, p, xs, w) && c < |a.dur| && ExclusiveWith(p, xs, c)
    requires p.start[c] < w.minFirstEnd
    ensures forall i :: 0 <= i < |xs| ==> (c, xs[i]) in p.order
  {
    forall i | 0 <= i < |xs| ensures (c, xs[i]) in p.order {
      if (xs[i], c) in p.order {
        OrderedApart(a, p, xs[i], c);
      }
    }
  }

  /** An outsider between two of the actions is exclusive with all of them and within their window. */
  lemma BetweenIsWithin(a: Actions, p: Plan, xs: seq<nat>, w: Window, c: nat, i: nat, j: nat)
    requires Context(a, p, xs, w) && c < |a.dur| && ExclusiveWith(p, xs, c) && i < |xs| && j < |xs|
    requires (xs[i], c) !in p.order && (c, xs[j]) !in p.order
    ensures Exclusive(p, xs + [c])
    ensures forall k :: 0 <= k < |xs + [c]| ==>
              w.minStart <= p.start[(xs + [c])[k]] && p.start[(xs + [c])[k]] + a.dur[(xs + [c])[k]] <= w.maxEnd
  {
    OrderedApart(a, p, c, xs[i]);
    OrderedApart(a, p, xs[j], c);
  }

  /**
   With no room for one more action in the window, an action is before all or after all of
   the others.
   */
  lemma NoRoomBetween(a: Actions, p: Plan, xs: seq<nat>, w: Window, c: nat)
    requires Context(a, p, xs, w) && c < |a.dur| && ExclusiveWith(p, xs, c)
    requires w.maxEnd - w.minStart < TotalDuration(a, xs) + a.dur[c]
    ensures (forall i :: 0 <= i < |xs| ==> (xs[i], c) in p.order) || (forall i :: 0 <= i < |xs| ==> (c, xs[i]) in p.order)
  {
    if i, j :| 0 <= i < |xs| && 0 <= j < |xs| && (xs[i], c) !in p.order && (c, xs[j]) !in p.order {
      var all := xs + [c];
      BetweenIsWithin(a, p, xs, w, c, i, j);
      TotalWithout(a, all, |xs|);
      assert all[..|xs|] + all[|xs| + 1..] == xs;
      FitsBetween(a, p, all, w.minStart, w.maxEnd);
    }
  }
}
