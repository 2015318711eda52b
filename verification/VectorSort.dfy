/**
 The exchange sort of `cpt.h`: passes over all pairs `(i, j)` with `i < j` exchange two
 elements whenever the later one must come first, and passes are repeated until one makes
 no exchange.

 Nothing in the macro asks the comparison to be transitive, and one of its two callers
 (the relaxed plan) passes one that is not.  The module proves exactly when the loop
 stops: when the comparison has no cycle among the elements to sort.
 */
module VectorSort {
  import opened Counting

  /** No later element must come before an earlier one. */
  predicate Ordered<T>(beats: (T, T) -> bool, s: seq<T>) {
    forall i, j :: 0 <= i < j < |s| ==> !beats(s[j], s[i])
  }

  predicate ArrangedBy<T(==)>(pi: seq<nat>, t: seq<T>, s: seq<T>) {
    && IsPermutation(pi, |s|)
    && |t| == |s|
    && (forall i :: 0 <= i < |s| ==> t[i] == s[pi[i]])
  }

  ghost predicate Arrangement<T>(t: seq<T>, s: seq<T>) {
    exists pi :: ArrangedBy(pi, t, s)
  }

  /** Each element of `c` must come before the one listed just before it. */
  ghost predicate Climbing<T>(beats: (T, T) -> bool, c: seq<T>) {
    forall i, j :: 0 <= i < j < |c| && j == i + 1 ==> beats(c[j], c[i])
  }

  ghost predicate IsCycle<T>(beats: (T, T) -> bool, s: seq<T>, c: seq<T>) {
    && |c| > 0
    && (forall i :: 0 <= i < |c| ==> c[i] in s)
    && Climbing(beats, c)
    && beats(c[0], c[|c| - 1])
  }

  ghost predicate Acyclic<T(!new)>(beats: (T, T) -> bool, s: seq<T>) {
    forall c :: !IsCycle(beats, s, c)
  }

  ghost predicate Irreflexive<T(!new)>(beats: (T, T) -> bool) {
    forall x :: !beats(x, x)
  }

  // ----- one pass, as a function

  function Exchange<T>(s: seq<T>, i: nat, j: nat): (r: seq<T>)
    requires i < |s| && j < |s|
    ensures |r| == |s|
  {
    s[i := s[j]][j := s[i]]
  }

  function PassFrom<T>(beats: (T, T) -> bool, s: seq<T>, i: nat, j: nat): (r: seq<T>)
    requires i < j
    ensures |r| == |s|
    decreases |s| - i, |s| - j
  {
    if i + 1 >= |s| then s
    else if j >= |s| then PassFrom(beats, s, i + 1, i + 2)
    else PassFrom(beats, if beats(s[j], s[i]) then Exchange(s, i, j) else s, i, j + 1)
  }

  function Pass<T>(beats: (T, T) -> bool, s: seq<T>): seq<T> {
    PassFrom(beats, s, 0, 1)
  }

  function Passes<T>(beats: (T, T) -> bool, s: seq<T>, n: nat): (r: seq<T>)
    ensures |r| == |s|
    decreases n
  {
    if n == 0 then s else Passes(beats, Pass(beats, s), n - 1)
  }

  /** The loop stops after some pass: the next one would make no exchange. */
  ghost predicate Stops<T>(beats: (T, T) -> bool, s: seq<T>) {
    exists n: nat :: Ordered(beats, Passes(beats, s, n))
  }

  // ----- arrangements

  lemma ArrangementSelf<T>(s: seq<T>)
    ensures Arrangement(s, s)
  {
    assert ArrangedBy(seq(|s|, i => i), s, s);
  }

  lemma ArrangementExchange<T>(t: seq<T>, s: seq<T>, i: nat, j: nat)
    requires Arrangement(t, s) && i < j < |t|
    ensures Arrangement(Exchange(t, i, j), s)
  {
    var pi :| ArrangedBy(pi, t, s);
    assert ArrangedBy(Exchange(pi, i, j), Exchange(t, i, j), s);
  }

  /** What is left of an arrangement without its first element, which was at position `p`. */
  lemma ArrangementRest<T>(t: seq<T>, s: seq<T>) returns (p: nat)
    requires Arrangement(t, s) && |s| > 0
    ensures p < |s| == |t| && s[p] == t[0] && Arrangement(t[1..], s[..p] + s[p + 1..])
  {
    var pi :| ArrangedBy(pi, t, s);
    p := pi[0];
    var n := |s| - 1;
    var rest := s[..p] + s[p + 1..];
    var rho := seq(n, i requires 0 <= i < n => if pi[i + 1] < p then pi[i + 1] else pi[i + 1] - 1);
    forall i | 0 <= i < n ensures rho[i] < n && t[1..][i] == rest[rho[i]] {
      assert pi[i + 1] != p;
    }
    assert ArrangedBy(rho, t[1..], rest);
  }

  // ----- ranks and the weight that every exchange lowers

  ghost predicate RankFor<T>(rank: T -> nat, beats: (T, T) -> bool, s: seq<T>) {
    forall i, j :: 0 <= i < |s| && 0 <= j < |s| && beats(s[i], s[j]) ==> rank(s[i]) < rank(s[j])
  }

  ghost function Weight<T>(rank: T -> nat, s: seq<T>): nat {
    if s == [] then 0 else |s| * rank(s[0]) + Weight(rank, s[1..])
  }

  lemma {:induction false} WeightUpdate<T>(rank: T -> nat, s: seq<T>, i: nat, x: T, u: int, d: int)
    requires i < |s| && u == |s| - i && d == rank(x) - rank(s[i])
    ensures Weight(rank, s[i := x]) == Weight(rank, s) + u * d
  {
    if i > 0 {
      assert s[i := x][1..] == s[1..][i - 1 := x];
      WeightUpdate(rank, s[1..], i - 1, x, u, d);
    } else {
      assert s[i := x][1..] == s[1..];
      assert u * rank(x) == u * rank(s[i]) + u * d;
    }
  }

  lemma WeightExchange<T>(rank: T -> nat, s: seq<T>, i: nat, j: nat)
    requires i < j < |s| && rank(s[j]) < rank(s[i])
    ensures Weight(rank, Exchange(s, i, j)) < Weight(rank, s)
  {
    var u, v, d := |s| - i, |s| - j, rank(s[i]) - rank(s[j]);
    WeightUpdate(rank, s, i, s[j], u, -d);
    WeightUpdate(rank, s[i := s[j]], j, s[i], v, d);
    LighterExchange(u, v, d);
  }

  lemma LighterExchange(u: int, v: int, d: int)
    requires v < u && 0 < d
    ensures u * -d + v * d < 0
  {
    assert u * -d + v * d == (v - u) * d;
  }

  /** Every exchange of two elements in the wrong order makes `w` smaller. */
  ghost predicate Falls<T(!new)>(w: seq<T> -> nat, rank: T -> nat) {
    forall t: seq<T>, i: nat, j: nat :: i < j < |t| && rank(t[j]) < rank(t[i]) ==> w(Exchange(t, i, j)) < w(t)
  }

  lemma WeightFalls<T(!new)>(rank: T -> nat)
    ensures Falls(t => Weight(rank, t), rank)
  {
    forall t: seq<T>, i: nat, j: nat | i < j < |t| && rank(t[j]) < rank(t[i])
      ensures Weight(rank, Exchange(t, i, j)) < Weight(rank, t)
    {
      WeightExchange(rank, t, i, j);
    }
  }

  lemma RankExchange<T>(rank: T -> nat, beats: (T, T) -> bool, s: seq<T>, i: nat, j: nat)
    requires i < |s| && j < |s| && RankFor(rank, beats, s)
    ensures RankFor(rank, beats, Exchange(s, i, j))
  {
  }

  /** Two elements that a pass from `i` and `j` on still compares are in the wrong order. */
  ghost predicate Inverted<T>(beats: (T, T) -> bool, s: seq<T>, i: nat, j: nat) {
    exists p, q :: 0 <= p < q < |s| && (p > i || (p == i && q >= j)) && beats(s[q], s[p])
  }

  lemma InvertedRow<T>(beats: (T, T) -> bool, s: seq<T>, i: nat, j: nat)
    requires i < j && j >= |s| && Inverted(beats, s, i, j)
    ensures Inverted(beats, s, i + 1, i + 2)
  {
  }

  lemma InvertedSkip<T>(beats: (T, T) -> bool, s: seq<T>, i: nat, j: nat)
    requires i < j < |s| && !beats(s[j], s[i]) && Inverted(beats, s, i, j)
    ensures Inverted(beats, s, i, j + 1)
  {
  }

  /** A pass keeps the elements; unless it finds the sequence in order it lowers the weight. */
  lemma {:induction false} PassFromFalls<T(!new)>(w: seq<T> -> nat, rank: T -> nat, beats: (T, T) -> bool,
                                                  s: seq<T>, i: nat, j: nat, r: seq<T>)
    requires i < j && RankFor(rank, beats, s) && Falls(w, rank) && r == PassFrom(beats, s, i, j)
    ensures RankFor(rank, beats, r) && w(r) <= w(s) && (Inverted(beats, s, i, j) ==> w(r) < w(s))
    decreases |s| - i, |s| - j
  {
    if i + 1 >= |s| {
    } else if j >= |s| {
      PassFromFalls(w, rank, beats, s, i + 1, i + 2, r);
      if Inverted(beats, s, i, j) {
        InvertedRow(beats, s, i, j);
      }
    } else if beats(s[j], s[i]) {
      RankExchange(rank, beats, s, i, j);
      PassFromFalls(w, rank, beats, Exchange(s, i, j), i, j + 1, r);
    } else {
      PassFromFalls(w, rank, beats, s, i, j + 1, r);
      if Inverted(beats, s, i, j) {
        InvertedSkip(beats, s, i, j);
      }
    }
  }

  lemma PassProgress<T(!new)>(rank: T -> nat, beats: (T, T) -> bool, s: seq<T>)
    requires RankFor(rank, beats, s)
    ensures RankFor(rank, beats, Pass(beats, s)) && Weight(rank, Pass(beats, s)) <= Weight(rank, s)
    ensures !Ordered(beats, s) ==> Weight(rank, Pass(beats, s)) < Weight(rank, s)
  {
    WeightFalls(rank);
    PassFromFalls(t => Weight(rank, t), rank, beats, s, 0, 1, Pass(beats, s));
    assert !Ordered(beats, s) ==> Inverted(beats, s, 0, 1);
  }

  lemma {:induction false} PassFromArranges<T>(beats: (T, T) -> bool, s: seq<T>, i: nat, j: nat, orig: seq<T>)
    requires i < j && Arrangement(s, orig)
    ensures Arrangement(PassFrom(beats, s, i, j), orig)
    decreases |s| - i, |s| - j
  {
    if i + 1 >= |s| {
    } else if j >= |s| {
      PassFromArranges(beats, s, i + 1, i + 2, orig);
    } else if beats(s[j], s[i]) {
      ArrangementExchange(s, orig, i, j);
      PassFromArranges(beats, Exchange(s, i, j), i, j + 1, orig);
    } else {
      PassFromArranges(beats, s, i, j + 1, orig);
    }
  }

  lemma {:induction false} PassesArrange<T>(beats: (T, T) -> bool, s: seq<T>, n: nat, orig: seq<T>)
    requires Arrangement(s, orig)
    ensures Arrangement(Passes(beats, s, n), orig)
    decreases n
  {
    if n > 0 {
      PassFromArranges(beats, s, 0, 1, orig);
      PassesArrange(beats, Pass(beats, s), n - 1, orig);
    }
  }

  // ----- acyclic comparisons have a rank

  ghost predicate Beaten<T(!new)>(beats: (T, T) -> bool, pool: set<T>, x: T) {
    exists y :: y in pool && beats(y, x)
  }

  /** In a pool where every element is beaten one can climb as long as one likes. */
  lemma {:induction false} Climb<T(!new)>(beats: (T, T) -> bool, pool: set<T>, start: T, n: nat) returns (c: seq<T>)
    requires start in pool
    requires forall x {:trigger Beaten(beats, pool, x)} :: x in pool ==> Beaten(beats, pool, x)
    ensures |c| == n + 1
    ensures forall i :: 0 <= i < |c| ==> c[i] in pool
    ensures Climbing(beats, c)
    decreases n
  {
    if n == 0 {
      c := [start];
    } else {
      var d := Climb(beats, pool, start, n - 1);
      assert Beaten(beats, pool, d[n - 1]);
      var y :| y in pool && beats(y, d[n - 1]);
      c := d + [y];
    }
  }

  lemma SomeCycle<T(!new)>(beats: (T, T) -> bool, s: seq<T>, pool: set<T>) returns (round: seq<T>)
    requires pool != {} && forall x :: x in pool ==> x in s
    requires forall x {:trigger Beaten(beats, pool, x)} :: x in pool ==> Beaten(beats, pool, x)
    ensures IsCycle(beats, s, round)
  {
    var start :| start in pool;
    var c := Climb(beats, pool, start, |pool|);
    if NoDuplicates(c) {
      DistinctCount(c, pool);
    }
    var i, j :| 0 <= i < j < |c| && c[i] == c[j];
    round := c[i..j];
  }

  lemma FirstElement<T(!new)>(beats: (T, T) -> bool, s: seq<T>, pool: set<T>) returns (x: T)
    requires Acyclic(beats, s)
    requires pool != {} && forall y :: y in pool ==> y in s
    ensures x in pool && !Beaten(beats, pool, x)
  {
    if forall x {:trigger Beaten(beats, pool, x)} :: x in pool ==> Beaten(beats, pool, x) {
      var round := SomeCycle(beats, s, pool);
    }
    x :| x in pool && !Beaten(beats, pool, x);
  }

  lemma {:induction false} RankOfPool<T(!new)>(beats: (T, T) -> bool, s: seq<T>, pool: set<T>) returns (rank: map<T, nat>)
    requires Acyclic(beats, s) && forall y :: y in pool ==> y in s
    ensures rank.Keys == pool
    ensures forall x, y :: x in pool && y in pool && beats(x, y) ==> rank[x] < rank[y]
    decreases |pool|
  {
    if pool == {} {
      rank := map[];
    } else {
      var x := FirstElement(beats, s, pool);
      var rest := RankOfPool(beats, s, pool - {x});
      rank := map y | y in pool :: if y == x then 0 else rest[y] + 1;
      assert !beats(x, x);
    }
  }

  lemma AcyclicHasRank<T(!new)>(beats: (T, T) -> bool, s: seq<T>) returns (rank: T -> nat)
    requires Acyclic(beats, s)
    ensures RankFor(rank, beats, s)
  {
    var m := RankOfPool(beats, s, set x | x in s);
    rank := x => if x in m then m[x] else 0;
  }

  lemma {:induction false} StopsWithRank<T(!new)>(rank: T -> nat, beats: (T, T) -> bool, s: seq<T>) returns (n: nat)
    requires RankFor(rank, beats, s)
    ensures Ordered(beats, Passes(beats, s, n))
    decreases Weight(rank, s)
  {
    if Ordered(beats, s) {
      n := 0;
    } else {
      PassProgress(rank, beats, s);
      var m := StopsWithRank(rank, beats, Pass(beats, s));
      n := m + 1;
    }
  }

  // ----- ordered arrangements leave no cycle

  lemma PositionIn<T>(t: seq<T>, s: seq<T>, x: T) returns (p: nat)
    requires Arrangement(t, s) && x in s
    ensures p < |t| && t[p] == x
  {
    var pi :| ArrangedBy(pi, t, s);
    var k :| 0 <= k < |s| && s[k] == x;
    PermutationHits(pi, |s|, k);
    p :| 0 <= p < |pi| && pi[p] == k;
  }

  /** Along a chain of "must come before" the positions in an ordered arrangement go down. */
  lemma {:induction false} ChainGoesDown<T(!new)>(beats: (T, T) -> bool, t: seq<T>, s: seq<T>, c: seq<T>, p: nat, n: nat)
      returns (q: nat)
    requires Irreflexive(beats) && Ordered(beats, t) && Arrangement(t, s)
    requires n < |c| && (forall i :: 0 <= i < |c| ==> c[i] in s)
    requires Climbing(beats, c)
    requires p < |t| && t[p] == c[0]
    ensures q <= p && q < |t| && t[q] == c[n]
  {
    if n == 0 {
      q := p;
    } else {
      var r := ChainGoesDown(beats, t, s, c, p, n - 1);
      q := PositionIn(t, s, c[n]);
    }
  }

  lemma OrderedHasNoCycle<T(!new)>(beats: (T, T) -> bool, t: seq<T>, s: seq<T>, c: seq<T>)
    requires Irreflexive(beats) && Ordered(beats, t) && Arrangement(t, s)
    ensures !IsCycle(beats, s, c)
  {
    if IsCycle(beats, s, c) {
      var p := PositionIn(t, s, c[0]);
      var q := ChainGoesDown(beats, t, s, c, p, |c| - 1);
    }
  }

  /**
   The loop of the exchange sort stops exactly when the comparison has no cycle among the
   elements to sort.
   */
  lemma StopsIffAcyclic<T(!new)>(beats: (T, T) -> bool, s: seq<T>)
    requires Irreflexive(beats)
    ensures Stops(beats, s) <==> Acyclic(beats, s)
  {
    if Stops(beats, s) {
      var n: nat :| Ordered(beats, Passes(beats, s, n));
      ArrangementSelf(s);
      PassesArrange(beats, s, n, s);
      forall c ensures !IsCycle(beats, s, c) {
        OrderedHasNoCycle(beats, Passes(beats, s, n), s, c);
      }
    }
    if Acyclic(beats, s) {
      var rank := AcyclicHasRank(beats, s);
      var n := StopsWithRank(rank, beats, s);
    }
  }

  ghost predicate Transitive<T(!new)>(beats: (T, T) -> bool) {
    forall x, y, z :: beats(x, y) && beats(y, z) ==> beats(x, z)
  }

  lemma {:induction false} ChainBeats<T(!new)>(beats: (T, T) -> bool, c: seq<T>, n: nat)
    requires Transitive(beats) && Climbing(beats, c) && 0 < n < |c|
    ensures beats(c[n], c[0])
    decreases n
  {
    if n > 1 {
      ChainBeats(beats, c, n - 1);
      assert beats(c[n], c[n - 1]);
    }
  }

  lemma TransitiveIsAcyclic<T(!new)>(beats: (T, T) -> bool, s: seq<T>)
    requires Irreflexive(beats) && Transitive(beats)
    ensures Acyclic(beats, s)
  {
    forall c | IsCycle(beats, s, c) ensures false {
      if |c| > 1 {
        ChainBeats(beats, c, |c| - 1);
      }
    }
  }

  // ----- the loop itself, in place

  /** Puts two elements in order. */
  method ExchangeIfBeaten<T>(beats: (T, T) -> bool, a: array<T>, i: nat, j: nat) returns (exchanged: bool)
    requires i < j < a.Length
    modifies a
    ensures exchanged == old(beats(a[j], a[i]))
    ensures a[..] == if exchanged then Exchange(old(a[..]), i, j) else old(a[..])
  {
    exchanged := beats(a[j], a[i]);
    if exchanged {
      ghost var t := a[..];
      a[i], a[j] := a[j], a[i];
      assert a[..] == Exchange(t, i, j);
    }
  }

  /** Where a pass over `s` stands: what it still does to `t`, and whether it has made an exchange. */
  ghost predicate Sorting<T>(beats: (T, T) -> bool, s: seq<T>, t: seq<T>, i: nat, j: nat, loop: bool)
    requires i < j
  {
    && PassFrom(beats, t, i, j) == Pass(beats, s)
    && if loop then !Ordered(beats, s)
       else t == s && forall p, q :: 0 <= p < q < |s| && (p < i || (p == i && q < j)) ==> !beats(s[q], s[p])
  }

  /** The inner `for` loop. */
  method SortRow<T>(beats: (T, T) -> bool, a: array<T>, i: nat, ghost s: seq<T>, seen: bool) returns (loop: bool)
    requires i < a.Length && Sorting(beats, s, a[..], i, i + 1, seen)
    modifies a
    ensures Sorting(beats, s, a[..], i, a.Length, loop)
  {
    loop := seen;
    var j := i + 1;
    while j < a.Length
      invariant i + 1 <= j <= a.Length && Sorting(beats, s, a[..], i, j, loop)
    {
      var exchanged := ExchangeIfBeaten(beats, a, i, j);
      loop := loop || exchanged;
      j := j + 1;
    }
  }

  /** One round of the `while`: the two nested `for` loops, reporting whether they exchanged. */
  method SortPass<T>(beats: (T, T) -> bool, a: array<T>) returns (loop: bool)
    modifies a
    ensures a[..] == old(Pass(beats, a[..]))
    ensures !loop <==> old(Ordered(beats, a[..]))
  {
    loop := false;
    ghost var s := a[..];
    var i := 0;
    while i + 1 < a.Length
      invariant 0 <= i && Sorting(beats, s, a[..], i, i + 1, loop)
    {
      loop := SortRow(beats, a, i, s, loop);
      i := i + 1;
    }
  }

  method Sort<T(!new)>(beats: (T, T) -> bool, a: array<T>)
    requires Irreflexive(beats) && Acyclic(beats, a[..])
    modifies a
    ensures Ordered(beats, a[..])
    ensures Arrangement(a[..], old(a[..]))
  {
    ghost var rank := AcyclicHasRank(beats, a[..]);
    ghost var s := a[..];
    ArrangementSelf(s);
    var loop := true;
    while loop
      invariant RankFor(rank, beats, a[..])
      invariant Arrangement(a[..], s)
      invariant !loop ==> Ordered(beats, a[..])
      decreases Weight(rank, a[..]), loop
    {
      PassProgress(rank, beats, a[..]);
      PassFromArranges(beats, a[..], 0, 1, s);
      PassOfOrdered(beats, a[..], 0, 1);
      loop := SortPass(beats, a);
    }
  }

  lemma {:induction false} PassOfOrdered<T>(beats: (T, T) -> bool, s: seq<T>, i: nat, j: nat)
    requires i < j
    ensures Ordered(beats, s) ==> PassFrom(beats, s, i, j) == s
    decreases |s| - i, |s| - j
  {
    if i + 1 >= |s| {
    } else if j >= |s| {
      PassOfOrdered(beats, s, i + 1, i + 2);
    } else if !beats(s[j], s[i]) {
      PassOfOrdered(beats, s, i, j + 1);
    }
  }
}
