/**
 The bucket behind a finite domain.  Slot `i` holds `i` if it is a member; the first slot of a
 gap holds the member after the gap, the last slot of a longer gap the member before it.  Other
 slots may hold anything but their own index.
 */
module Buckets {
  import opened Counting

  const VAL_UNKNOWN: int := 0xFFFF
  const MAXVAL: int := 0xFFFE

  datatype Domain = Domain(min: int, max: int, card: int, value: int, bucket: seq<int>)

  predicate IsMember(d: Domain, i: int) {
    0 <= i < |d.bucket| && d.bucket[i] == i
  }

  ghost function Members(d: Domain): (r: set<int>)
    ensures forall i :: i in r <==> IsMember(d, i)
  {
    set i | 0 <= i < |d.bucket| && IsMember(d, i)
  }

  /** `b` is the next member after `a`. */
  ghost predicate Adjacent(d: Domain, a: int, b: int) {
    a < b && IsMember(d, a) && IsMember(d, b) && forall j :: a < j < b ==> !IsMember(d, j)
  }

  /** The two ends of a gap lead to its neighbours. */
  predicate Bridged(d: Domain, a: int, b: int)
    requires 0 <= a < b < |d.bucket|
  {
    d.bucket[a + 1] == b && (a + 2 < b ==> d.bucket[b - 1] == a)
  }

  /** No slot above `top` has ever been used. */
  ghost predicate Sound(d: Domain, top: int) {
    && 0 <= d.min <= d.max <= top && top + 1 < |d.bucket| <= MAXVAL + 1
    && IsMember(d, d.min) && IsMember(d, d.max) && (forall i :: IsMember(d, i) ==> d.min <= i <= d.max)
    && (forall a, b :: Adjacent(d, a, b) ==> Bridged(d, a, b))
    && d.bucket[d.max + 1] > d.max
    && d.card == |Members(d)|
    && d.value == (if d.min == d.max then d.min else VAL_UNKNOWN)
    && (forall j :: top < j < |d.bucket| ==> d.bucket[j] == VAL_UNKNOWN)
  }

  /** Between a member and the last one there is a next one. */
  lemma HasNext(d: Domain, a: int) returns (b: int)
    requires IsMember(d, a) && IsMember(d, d.max) && a < d.max
    ensures Adjacent(d, a, b) && b <= d.max
  {
    b := a + 1;
    while !IsMember(d, b)
      invariant a < b <= d.max && forall j :: a < j < b ==> !IsMember(d, j)
      decreases d.max - b
    {
      b := b + 1;
    }
  }

  lemma HasPrevious(d: Domain, b: int) returns (a: int)
    requires IsMember(d, b) && IsMember(d, d.min) && d.min < b
    ensures Adjacent(d, a, b) && d.min <= a
  {
    a := b - 1;
    while !IsMember(d, a)
      invariant d.min <= a < b && forall j :: a < j < b ==> !IsMember(d, j)
      decreases a
    {
      a := a - 1;
    }
  }

  /** The slot after a member leads to the next one. */
  lemma NextSlot(d: Domain, top: int, i: int)
    requires Sound(d, top) && IsMember(d, i)
    ensures i < d.max ==> Adjacent(d, i, d.bucket[i + 1]) && d.bucket[i + 1] <= d.max
    ensures i == d.max ==> d.bucket[i + 1] > d.max
  {
    if i < d.max {
      var b := HasNext(d, i);
    }
  }

  /** The member before `i`, as it is found from the slot before. */
  function Previous(d: Domain, i: int): int
    requires 0 < i < |d.bucket|
  {
    if d.bucket[i - 1] == i then i - 2 else d.bucket[i - 1]
  }

  lemma PreviousSlot(d: Domain, top: int, i: int)
    requires Sound(d, top) && IsMember(d, i) && d.min < i
    ensures Adjacent(d, Previous(d, i), i) && d.min <= Previous(d, i)
  {
    var a := HasPrevious(d, i);
    assert Bridged(d, a, i);
  }

  // ----- creation

  function Created(n: nat, spare: nat): Domain
    requires 0 < n
  {
    Domain(0, n - 1, n, if n == 1 then 0 else VAL_UNKNOWN, seq(n + spare + 1, i => if i < n then i else VAL_UNKNOWN))
  }

  lemma CreatedSound(n: nat, spare: nat)
    requires 0 < n && n + spare <= MAXVAL
    ensures Sound(Created(n, spare), n - 1) && forall i :: IsMember(Created(n, spare), i) <==> 0 <= i < n
  {
    var d := Created(n, spare);
    CreatedCard(n, spare);
    forall a, b | Adjacent(d, a, b) ensures Bridged(d, a, b) {
      assert IsMember(d, a + 1);
    }
  }

  lemma CreatedCard(n: nat, spare: nat)
    requires 0 < n && n + spare <= MAXVAL
    ensures |Members(Created(n, spare))| == n
  {
    assert forall i: int :: i in Members(Created(n, spare)) <==> 0 <= i < n;
    ghost var below: set<int> := Below(n);
    assert Members(Created(n, spare)) == below;
  }

  // ----- removal

  /** Removing the first member, the last one, or one in between; the domain has another member. */
  function RemovedMin(d: Domain, i: int): Domain
    requires 0 <= i && i + 1 < |d.bucket|
  {
    var m := d.bucket[i + 1];
    Domain(m, d.max, d.card - 1, if m == d.max then m else d.value, d.bucket[i := VAL_UNKNOWN])
  }

  function RemovedMax(d: Domain, i: int): Domain
    requires 0 < i < |d.bucket|
  {
    var m := Previous(d, i);
    Domain(d.min, m, d.card - 1, if d.min == m then m else d.value, d.bucket[i := VAL_UNKNOWN])
  }

  function RemovedInside(d: Domain, i: int): Domain
    requires 0 < i && i + 1 < |d.bucket| && 0 <= Previous(d, i) < i < d.bucket[i + 1] < |d.bucket|
  {
    var p, s := Previous(d, i), d.bucket[i + 1];
    var b0 := if p != i - 1 then d.bucket[i := VAL_UNKNOWN] else d.bucket;
    var b1 := if p + 2 != s then b0[s - 1 := p] else b0;
    Domain(d.min, d.max, d.card - 1, d.value, b1[p + 1 := s])
  }

  lemma RemovedCard(d: Domain, r: Domain, i: int)
    requires IsMember(d, i) && forall j :: IsMember(r, j) <==> IsMember(d, j) && j != i
    ensures |Members(r)| == |Members(d)| - 1
  {
    assert Members(r) == Members(d) - {i};
  }

  lemma RemoveMinKeeps(d: Domain, top: int, i: int)
    requires Sound(d, top) && i == d.min < d.max
    ensures Sound(RemovedMin(d, i), top) && forall j :: IsMember(RemovedMin(d, i), j) <==> IsMember(d, j) && j != i
  {
    NextSlot(d, top, i);
    var r := RemovedMin(d, i);
    RemovedCard(d, r, i);
    forall a, b | Adjacent(r, a, b) ensures Bridged(r, a, b) {
      assert Adjacent(d, a, b);
    }
  }

  lemma RemoveMaxKeeps(d: Domain, top: int, i: int)
    requires Sound(d, top) && d.min < d.max == i
    ensures Sound(RemovedMax(d, i), top) && forall j :: IsMember(RemovedMax(d, i), j) <==> IsMember(d, j) && j != i
  {
    PreviousSlot(d, top, i);
    var r := RemovedMax(d, i);
    RemovedCard(d, r, i);
    assert Bridged(d, r.max, i);
    forall a, b | Adjacent(r, a, b) ensures Bridged(r, a, b) {
      assert Adjacent(d, a, b);
    }
  }

  lemma RemoveInsideKeeps(d: Domain, top: int, i: int)
    requires Sound(d, top) && IsMember(d, i) && d.min < i < d.max
    ensures 0 <= Previous(d, i) < i < d.bucket[i + 1] < |d.bucket|
    ensures Sound(RemovedInside(d, i), top) && forall j :: IsMember(RemovedInside(d, i), j) <==> IsMember(d, j) && j != i
  {
    NextSlot(d, top, i);
    PreviousSlot(d, top, i);
    var r, p, s := RemovedInside(d, i), Previous(d, i), d.bucket[i + 1];
    RemovedCard(d, r, i);
    forall a, b | Adjacent(r, a, b) ensures Bridged(r, a, b) {
      if a != p {
        assert b <= p || s <= a;
        assert Adjacent(d, a, b);
      } else {
        assert b == s;
      }
    }
  }

  predicate Removable(d: Domain, i: int) {
    && 0 <= i && i + 1 < |d.bucket| && (i != d.min ==> 0 < i)
    && (i != d.min && i != d.max ==> 0 <= Previous(d, i) < i < d.bucket[i + 1] < |d.bucket|)
  }

  /** Removing any member but the only one. */
  function Removed(d: Domain, i: int): Domain
    requires Removable(d, i)
  {
    if i == d.min then RemovedMin(d, i) else if i == d.max then RemovedMax(d, i) else RemovedInside(d, i)
  }

  lemma RemoveKeeps(d: Domain, top: int, i: int)
    requires Sound(d, top) && IsMember(d, i) && d.min != d.max
    ensures Removable(d, i) && Sound(Removed(d, i), top) && Members(Removed(d, i)) == Members(d) - {i}
  {
    if i == d.min {
      RemoveMinKeeps(d, top, i);
    } else if i == d.max {
      RemoveMaxKeeps(d, top, i);
    } else {
      RemoveInsideKeeps(d, top, i);
    }
  }

  lemma CardOne(d: Domain, top: int)
    requires Sound(d, top)
    ensures d.min == d.max <==> d.card == 1
  {
    SubsetCount({d.min, d.max}, Members(d));
    if d.min == d.max {
      assert Members(d) == {d.min};
    }
  }

  // ----- addition

  /** A new last member. */
  function Added(d: Domain, i: int): Domain
    requires 0 <= d.max < i < |d.bucket|
  {
    var b0 := d.bucket[i := i];
    var b1 := if d.max < i - 1 && d.max != i - 2 then b0[i - 1 := d.max] else b0;
    var b2 := if d.max < i - 1 then b1[d.max + 1 := i] else b1;
    Domain(d.min, i, d.card + 1, VAL_UNKNOWN, b2)
  }

  /** A value above all that have ever been used can be added. */
  lemma AddKeeps(d: Domain, top: int, i: int)
    requires Sound(d, top) && top < i && i + 1 < |d.bucket|
    ensures Sound(Added(d, i), i) && Members(Added(d, i)) == Members(d) + {i}
  {
    var r := Added(d, i);
    assert Members(r) == Members(d) + {i};
    forall a, b | Adjacent(r, a, b) ensures Bridged(r, a, b) {
      if b != i {
        assert Adjacent(d, a, b);
      } else {
        assert a == d.max by {
          assert IsMember(r, d.max);
        }
      }
    }
  }

  // ----- closing a variable, and reopening it

  function Instantiated(d: Domain, v: int): Domain {
    Domain(v, v, 1, v, d.bucket)
  }

  /** What the program takes for a member: the value, or any slot with its own index while there is none. */
  predicate CanTake(d: Domain, i: int) {
    0 <= i < |d.bucket| && (d.value == i || (d.value == VAL_UNKNOWN && d.bucket[i] == i))
  }

  /** On a sound domain, and once it is closed, these are the members. */
  lemma TakesMembers(d: Domain, top: int, v: int)
    requires Sound(d, top)
    ensures forall i :: CanTake(d, i) <==> IsMember(d, i)
    ensures IsMember(d, v) ==> forall i :: CanTake(Instantiated(d, v), i) <==> i == v
  {
  }

  /** The slots that the ends of the gap between `v` and a new value `i` take up. */
  predicate Overwritten(v: int, i: int, j: int) {
    v < i - 1 && (j == v + 1 || j == i - 1)
  }

  /**
   Adding to a domain that was closed on `v` reopens it.  It then holds just `v` and the new
   value exactly if each of the members it had before was `v` or is overwritten by the ends of
   the new gap; the others come back.
   */
  lemma AddAfterInstantiate(d: Domain, top: int, v: int, i: int)
    requires Sound(d, top) && IsMember(d, v) && top < i && i + 1 < |d.bucket|
    ensures (forall j :: CanTake(Added(Instantiated(d, v), i), j) <==> j == v || j == i)
            <==> (forall j :: IsMember(d, j) ==> j == v || Overwritten(v, i, j))
  {
    var r := Added(Instantiated(d, v), i);
    forall j ensures CanTake(r, j) <==> j == v || j == i || (IsMember(d, j) && !Overwritten(v, i, j)) {
    }
    if forall j :: CanTake(r, j) <==> j == v || j == i {
      forall j | IsMember(d, j) ensures j == v || Overwritten(v, i, j) {
        assert CanTake(r, j) ==> j == v || j == i;
      }
    }
  }

  /** Four producers, the first of them chosen, a fifth added: the third is back. */
  lemma ReopeningRevives()
    ensures Sound(Created(4, 1), 3) && IsMember(Created(4, 1), 0)
    ensures CanTake(Added(Instantiated(Created(4, 1), 0), 4), 2)
  {
    CreatedSound(4, 1);
  }

  // ----- the loop over the members

  /**
   Where the loop goes on after it has removed the member it is at: to a member with none that
   it has not yet seen before it, or beyond the last one.  That may be the previous member
   again.
   */
  lemma SlotAfterRemoval(d: Domain, top: int, i: int)
    requires Sound(d, top) && IsMember(d, i) && d.min != d.max
    ensures Removable(d, i) && i + 1 < |Removed(d, i).bucket|
    ensures var r := Removed(d, i); var t := r.bucket[i + 1];
            && Sound(r, top)
            && (t <= r.max ==> IsMember(r, t))
            && forall j :: IsMember(r, j) && j < t ==> j < i
  {
    RemoveKeeps(d, top, i);
    NextSlot(d, top, i);
    var r := Removed(d, i);
    if i != d.min && i != d.max {
      PreviousSlot(d, top, i);
      assert IsMember(r, Previous(d, i)) && IsMember(r, d.bucket[i + 1]);
      assert forall j :: IsMember(r, j) ==> j <= Previous(d, i) || d.bucket[i + 1] <= j;
    }
  }

  /**
   Exactly when the loop goes back: the member it removes is neither the first nor the last one,
   and the value after it is missing but the one after that is not.
   */
  lemma LoopTurnsBackIff(d: Domain, top: int, i: int)
    requires Sound(d, top) && IsMember(d, i) && d.min != d.max
    ensures Removable(d, i) && i + 1 < |Removed(d, i).bucket|
    ensures Removed(d, i).bucket[i + 1] < i <==> d.min < i < d.max && d.bucket[i + 1] == i + 2
  {
    RemoveKeeps(d, top, i);
    NextSlot(d, top, i);
    if d.min < i {
      PreviousSlot(d, top, i);
    }
  }

  /** Without the third of four values, removing the second one leads the loop back to the first. */
  lemma LoopTurnsBack()
    ensures Sound(Gapped(), 3) && IsMember(Gapped(), 1)
    ensures Removable(Gapped(), 1) && Removed(Gapped(), 1).bucket[2] == 0
  {
    CreatedSound(4, 0);
    RemoveKeeps(Created(4, 0), 3, 2);
    var d := Gapped();
    RemoveKeeps(d, 3, 1);
  }

  function Gapped(): Domain {
    var d := Created(4, 0);
    Domain(d.min, d.max, 3, d.value, d.bucket[2 := 3])
  }
}
