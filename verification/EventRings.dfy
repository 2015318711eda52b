/**
 The ring behind an event queue.  Its slots always hold every registered variable once, and a
 null; the pending variables are those from `first` up to `last`.  Posting and removing only
 swap slots.
 */
module EventRings {

  const NULL: int := -1

  /** The slots, the slot of each variable, and the two ends. */
  datatype Ring = Ring(elt: seq<int>, idx: seq<int>, first: nat, last: nat)

  function Next(i: nat, n: nat): nat {
    if i == n then 0 else i + 1
  }

  /** The slot that is `k` after the first one. */
  function Slot(q: Ring, k: nat): int {
    if q.first + k < |q.elt| then q.first + k else q.first + k - |q.elt|
  }

  /** How far slot `i` is after the first one. */
  function Offset(q: Ring, i: int): int {
    if i >= q.first then i - q.first else i + |q.elt| - q.first
  }

  /** The slots hold each variable once, where `idx` says, and a null in slot `hole`. */
  predicate Permuted(elt: seq<int>, idx: seq<int>, hole: nat) {
    && |elt| == |idx| + 1 && hole < |elt| && elt[hole] == NULL
    && (forall v :: 0 <= v < |idx| ==> 0 <= idx[v] < |elt| && elt[idx[v]] == v)
    && (forall i :: 0 <= i < |elt| && i != hole ==> 0 <= elt[i] < |idx| && idx[elt[i]] == i)
  }

  /** The null is not pending. */
  predicate Linked(q: Ring, hole: nat) {
    && Permuted(q.elt, q.idx, hole) && q.first < |q.elt| && q.last < |q.elt|
    && Offset(q, hole) >= Offset(q, q.last)
  }

  /** The pending variables in order. */
  function Pending(q: Ring): seq<int>
    requires q.first < |q.elt| && q.last < |q.elt|
  {
    seq(Offset(q, q.last), k requires 0 <= k < Offset(q, q.last) => q.elt[Slot(q, k)])
  }

  predicate IsPending(q: Ring, v: nat)
    requires v < |q.idx|
  {
    Offset(q, q.idx[v]) < Offset(q, q.last)
  }

  lemma SlotOffset(q: Ring, i: nat)
    requires q.first < |q.elt| && i < |q.elt|
    ensures 0 <= Offset(q, i) < |q.elt| && Slot(q, Offset(q, i)) == i
  {
  }

  lemma OffsetSlot(q: Ring, k: nat)
    requires q.first < |q.elt| && k < |q.elt|
    ensures 0 <= Slot(q, k) < |q.elt| && Offset(q, Slot(q, k)) == k
  {
  }

  /** Every pending slot holds a variable that is pending there, and nowhere else. */
  lemma PendingAt(q: Ring, hole: nat, k: nat)
    requires Linked(q, hole) && k < |Pending(q)|
    ensures 0 <= Pending(q)[k] < |q.idx| && IsPending(q, Pending(q)[k]) && Offset(q, q.idx[Pending(q)[k]]) == k
  {
    OffsetSlot(q, k);
  }

  /** A variable is pending exactly if it is in the pending sequence, and then once. */
  lemma PendingOnce(q: Ring, hole: nat, v: nat)
    requires Linked(q, hole) && v < |q.idx|
    ensures IsPending(q, v) <==> v in Pending(q)
    ensures forall j, k :: 0 <= j < k < |Pending(q)| ==> Pending(q)[j] != Pending(q)[k]
  {
    if IsPending(q, v) {
      SlotOffset(q, q.idx[v]);
      assert Pending(q)[Offset(q, q.idx[v])] == v;
    }
    if v in Pending(q) {
      var k :| 0 <= k < |Pending(q)| && Pending(q)[k] == v;
      PendingAt(q, hole, k);
    }
    forall j, k | 0 <= j < k < |Pending(q)| ensures Pending(q)[j] != Pending(q)[k] {
      PendingAt(q, hole, j);
      PendingAt(q, hole, k);
    }
  }

  // ----- the swap of `v` with what is in slot `i`

  function SwappedSlots(q: Ring, v: nat, i: nat): seq<int>
    requires v < |q.idx| && 0 <= q.idx[v] < |q.elt| && i < |q.elt|
  {
    q.elt[q.idx[v] := q.elt[i]][i := v]
  }

  function SwappedIdx(q: Ring, v: nat, i: nat): seq<int>
    requires v < |q.idx| && 0 <= q.idx[v] < |q.elt| && i < |q.elt|
  {
    var w := q.elt[i];
    (if 0 <= w < |q.idx| then q.idx[w := q.idx[v]] else q.idx)[v := i]
  }

  /** Where the null is after the swap. */
  function SwappedHole(q: Ring, v: nat, i: nat, hole: nat): nat
    requires v < |q.idx| && 0 <= q.idx[v]
  {
    if i == hole then q.idx[v] else hole
  }

  lemma SwapKeeps(q: Ring, v: nat, i: nat, hole: nat)
    requires Permuted(q.elt, q.idx, hole) && v < |q.idx| && i < |q.elt|
    ensures Permuted(SwappedSlots(q, v, i), SwappedIdx(q, v, i), SwappedHole(q, v, i, hole))
  {
    var elt, idx, h := SwappedSlots(q, v, i), SwappedIdx(q, v, i), SwappedHole(q, v, i, hole);
    forall u | 0 <= u < |idx| ensures 0 <= idx[u] < |elt| && elt[idx[u]] == u {
    }
    forall j | 0 <= j < |elt| && j != h ensures 0 <= elt[j] < |idx| && idx[elt[j]] == j {
    }
  }

  // ----- posting

  /** A posted variable changes places with the slot at `last`. */
  function Posted(q: Ring, v: nat): Ring
    requires v < |q.idx| && 0 <= q.idx[v] < |q.elt| && q.last < |q.elt|
  {
    Ring(SwappedSlots(q, v, q.last), SwappedIdx(q, v, q.last), q.first, Next(q.last, |q.idx|))
  }

  /** A ring always has room for a variable that is not pending. */
  lemma RoomToPost(q: Ring, hole: nat, v: nat)
    requires Linked(q, hole) && v < |q.idx| && !IsPending(q, v)
    ensures Offset(q, q.last) + 1 < |q.elt| && Next(q.last, |q.idx|) != q.first
    ensures Offset(Posted(q, v), Next(q.last, |q.idx|)) == Offset(q, q.last) + 1
  {
    SlotOffset(q, hole);
    SlotOffset(q, q.idx[v]);
    SlotOffset(q, q.last);
  }

  lemma PostKeepsLinks(q: Ring, hole: nat, v: nat)
    requires Linked(q, hole) && v < |q.idx| && !IsPending(q, v)
    ensures Linked(Posted(q, v), SwappedHole(q, v, q.last, hole))
  {
    RoomToPost(q, hole, v);
    SwapKeeps(q, v, q.last, hole);
    SlotOffset(q, q.last);
    SlotOffset(q, hole);
    SlotOffset(q, q.idx[v]);
  }

  lemma PostAppends(q: Ring, hole: nat, v: nat)
    requires Linked(q, hole) && v < |q.idx| && !IsPending(q, v)
    ensures Pending(Posted(q, v)) == Pending(q) + [v]
  {
    RoomToPost(q, hole, v);
    var r := Posted(q, v);
    SlotOffset(q, q.last);
    forall k | 0 <= k < Offset(q, q.last) ensures Pending(r)[k] == Pending(q)[k] {
      OffsetSlot(q, k);
    }
  }

  // ----- removing and popping

  /** A removed variable changes places with the first slot, which is then dropped. */
  function Removed(q: Ring, v: nat): Ring
    requires v < |q.idx| && 0 <= q.idx[v] < |q.elt| && q.first < |q.elt|
  {
    Ring(SwappedSlots(q, v, q.first), SwappedIdx(q, v, q.first), Next(q.first, |q.idx|), q.last)
  }

  /** Popping moves the first end only. */
  function Popped(q: Ring): Ring {
    Ring(q.elt, q.idx, Next(q.first, |q.idx|), q.last)
  }

  lemma PopKeepsLinks(q: Ring, hole: nat)
    requires Linked(q, hole) && q.first != q.last
    ensures Linked(Popped(q), hole) && Offset(Popped(q), q.last) == Offset(q, q.last) - 1
  {
    SlotOffset(q, hole);
  }

  lemma PopDrops(q: Ring, hole: nat)
    requires Linked(q, hole) && q.first != q.last
    ensures Linked(Popped(q), hole) && |Pending(q)| > 0 && Pending(Popped(q)) == Pending(q)[1..]
    ensures q.elt[q.first] == Pending(q)[0] && 0 <= Pending(q)[0] < |q.idx|
  {
    PopKeepsLinks(q, hole);
    var r := Popped(q);
    forall j | 0 <= j < Offset(r, r.last) ensures Pending(r)[j] == Pending(q)[1..][j] {
      assert Slot(r, j) == Slot(q, j + 1);
    }
    PendingAt(q, hole, 0);
    assert Slot(q, 0) == q.first;
  }

  /** A pending variable that has changed places with the first one. */
  function Fronted(q: Ring, v: nat): Ring
    requires v < |q.idx| && 0 <= q.idx[v] < |q.elt| && q.first < |q.elt|
  {
    Ring(SwappedSlots(q, v, q.first), SwappedIdx(q, v, q.first), q.first, q.last)
  }

  lemma FrontKeepsLinks(q: Ring, hole: nat, v: nat)
    requires Linked(q, hole) && v < |q.idx| && IsPending(q, v)
    ensures Linked(Fronted(q, v), hole) && 0 <= q.elt[q.first] < |q.idx| && 0 <= Offset(q, q.idx[v]) < |Pending(q)|
  {
    SlotOffset(q, q.idx[v]);
    PendingAt(q, hole, 0);
    assert Slot(q, 0) == q.first != hole;
    SwapKeeps(q, v, q.first, hole);
  }

  lemma FrontPending(q: Ring, hole: nat, v: nat)
    requires Linked(q, hole) && v < |q.idx| && IsPending(q, v) && 0 <= Offset(q, q.idx[v]) < |Pending(q)|
    ensures Pending(Fronted(q, v)) == Pending(q)[Offset(q, q.idx[v]) := Pending(q)[0]][0 := v]
  {
    var s, k := Fronted(q, v), Offset(q, q.idx[v]);
    SlotOffset(q, q.idx[v]);
    assert Slot(q, 0) == q.first;
    forall j | 0 <= j < |Pending(q)| ensures Pending(s)[j] == Pending(q)[k := Pending(q)[0]][0 := v][j] {
      OffsetSlot(q, j);
    }
  }

  lemma RemoveDrops(q: Ring, hole: nat, v: nat)
    requires Linked(q, hole) && v < |q.idx| && IsPending(q, v)
    ensures Linked(Removed(q, v), hole) && 0 <= Offset(q, q.idx[v]) < |Pending(q)|
    ensures Pending(Removed(q, v)) == Pending(q)[Offset(q, q.idx[v]) := Pending(q)[0]][1..]
  {
    FrontKeepsLinks(q, hole, v);
    FrontPending(q, hole, v);
    PopDrops(Fronted(q, v), hole);
  }
}
