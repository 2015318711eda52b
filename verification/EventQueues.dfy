/**
 The event queues of the propagation loop: at most one event is pending for a variable, and
 its kind says in which queue.
 */
module EventQueues {
  import opened EventRings

  class EventQueue {
    const elt: array<int>
    const idx: array<int>
    var first: nat
    var last: nat
    ghost var hole: nat

    ghost function View(): Ring
      reads this`first, this`last, elt, idx
    {
      Ring(elt[..], idx[..], first, last)
    }

    ghost predicate Valid()
      reads this`first, this`last, this`hole, elt, idx
    {
      elt != idx && Linked(View(), hole)
    }

    /** What is pending, in order. */
    ghost function Contents(): seq<int>
      requires Valid()
      reads this`first, this`last, this`hole, elt, idx
    {
      Pending(View())
    }

    /** The queue for `n` variables, registered one after the other. */
    constructor (n: nat)
      ensures Valid() && Contents() == [] && idx.Length == n && fresh(elt) && fresh(idx)
    {
      elt := new int[n + 1];
      idx := new int[n];
      first, last, hole := 0, 0, 0;
      new;
      elt[0] := NULL;
      for i := 0 to n
        invariant elt != idx && fresh(elt) && fresh(idx) && elt.Length == n + 1 && idx.Length == n && elt[0] == NULL
        invariant first == 0 && last == 0 && hole == 0
        invariant forall k :: 0 <= k < i ==> elt[k + 1] == k && idx[k] == k + 1
        invariant forall k :: 1 <= k <= i ==> elt[k] == k - 1 && idx[k - 1] == k
      {
        elt[i + 1] := i;
        idx[i] := i + 1;
      }
    }

    /** Posts a variable that is not pending; there is always room for it. */
    method Post(v: nat)
      requires Valid() && v < idx.Length && v !in Contents()
      modifies this`last, this`hole, elt, idx
      ensures Valid() && Contents() == old(Contents()) + [v]
    {
      ghost var q, h := View(), hole;
      PendingOnce(q, h, v);
      PostKeepsLinks(q, h, v);
      PostAppends(q, h, v);
      hole := SwappedHole(q, v, last, hole);
      var w := elt[last];
      elt[idx[v]] := w;
      if w != NULL {
        idx[w] := idx[v];
      }
      elt[last] := v;
      idx[v] := last;
      last := if last == elt.Length - 1 then 0 else last + 1;
      assert View() == Posted(q, v);
    }

    /** Removes a pending variable; the first one takes its place. */
    method Remove(v: nat)
      requires Valid() && v < idx.Length && v in Contents()
      modifies this`first, elt, idx
      ensures Valid() && exists k :: 0 <= k < |old(Contents())| && old(Contents())[k] == v
                                     && Contents() == old(Contents())[k := old(Contents())[0]][1..]
    {
      ghost var q, h := View(), hole;
      PendingOnce(q, h, v);
      FrontKeepsLinks(q, h, v);
      RemoveDrops(q, h, v);
      SlotOffset(q, q.idx[v]);
      assert Pending(q)[Offset(q, q.idx[v])] == v;
      var w := elt[first];
      idx[w] := idx[v];
      elt[idx[w]] := w;
      elt[first] := v;
      idx[v] := first;
      first := if first == elt.Length - 1 then 0 else first + 1;
      assert View() == Removed(q, v);
    }

    /** Takes the first pending variable, or null. */
    method Pop() returns (v: int)
      requires Valid()
      modifies this`first
      ensures Valid()
      ensures if old(Contents()) == [] then v == NULL && Contents() == []
              else v == old(Contents())[0] && 0 <= v < idx.Length && Contents() == old(Contents())[1..]
    {
      v := NULL;
      if first != last {
        ghost var q := View();
        PopDrops(q, hole);
        v := elt[first];
        first := if first == elt.Length - 1 then 0 else first + 1;
        assert View() == Popped(q);
      }
    }
  }

  datatype VarEvent = NoEvent | RemovalEvent | InstantiateEvent | BoundEvent

  /** The variables with the event `kind` are those that are pending. */
  ghost predicate Tells(event: seq<VarEvent>, kind: VarEvent, pending: seq<int>) {
    && (forall v :: 0 <= v < |event| ==> (event[v] == kind <==> v in pending))
    && (forall j, k :: 0 <= j < k < |pending| ==> pending[j] != pending[k])
    && (forall k :: 0 <= k < |pending| ==> 0 <= pending[k] < |event|)
  }

  lemma TellsNothing(event: seq<VarEvent>, kind: VarEvent)
    requires kind != NoEvent && forall v :: 0 <= v < |event| ==> event[v] == NoEvent
    ensures Tells(event, kind, [])
  {
  }

  lemma TellsPosted(event: seq<VarEvent>, kind: VarEvent, pending: seq<int>, v: nat)
    requires Tells(event, kind, pending) && v < |event| && event[v] != kind
    ensures Tells(event[v := kind], kind, pending + [v])
  {
  }

  lemma TellsOther(event: seq<VarEvent>, kind: VarEvent, pending: seq<int>, v: nat, e: VarEvent)
    requires Tells(event, kind, pending) && v < |event| && event[v] != kind && e != kind
    ensures Tells(event[v := e], kind, pending)
  {
  }

  lemma TellsRemoved(event: seq<VarEvent>, kind: VarEvent, pending: seq<int>, k: nat, e: VarEvent)
    requires Tells(event, kind, pending) && k < |pending| && e != kind
    ensures Tells(event[pending[k] := e], kind, pending[k := pending[0]][1..])
  {
    var v, r := pending[k], pending[k := pending[0]][1..];
    forall u | 0 <= u < |event| ensures event[v := e][u] == kind <==> u in r {
      if u in pending && u != v {
        var j :| 0 <= j < |pending| && pending[j] == u;
        assert r[if j == 0 then k - 1 else j - 1] == u;
      }
      if u in r {
        var j :| 0 <= j < |r| && r[j] == u;
        assert pending[if j + 1 == k then 0 else j + 1] == u;
      }
    }
  }

  /** The first pending variable loses its event; the variables with another event keep theirs. */
  lemma TellsPopped(event: seq<VarEvent>, kind: VarEvent, pending: seq<int>, other: VarEvent, rest: seq<int>)
    requires Tells(event, kind, pending) && Tells(event, other, rest) && pending != []
    requires kind != NoEvent && other != NoEvent && other != kind
    ensures 0 <= pending[0] < |event| && event[pending[0]] == kind
    ensures Tells(event[pending[0] := NoEvent], kind, pending[1..]) && Tells(event[pending[0] := NoEvent], other, rest)
  {
    TellsRemoved(event, kind, pending, 0, NoEvent);
    assert pending[0 := pending[0]][1..] == pending[1..];
    assert pending[0] in pending;
    TellsOther(event, other, rest, pending[0], NoEvent);
  }

  /** The queues of the enumerated variables, and the event of each of them. */
  class EnumEvents {
    const removal: EventQueue
    const instantiate: EventQueue
    const event: array<VarEvent>

    ghost predicate Separate() {
      && removal != instantiate && removal.idx.Length == instantiate.idx.Length == event.Length
      && removal.elt != instantiate.elt && removal.elt != instantiate.idx
      && removal.idx != instantiate.elt && removal.idx != instantiate.idx
    }

    ghost predicate Valid()
      reads removal, removal.elt, removal.idx, instantiate, instantiate.elt, instantiate.idx, event
    {
      && Separate() && removal.Valid() && instantiate.Valid()
      && Tells(event[..], RemovalEvent, removal.Contents()) && Tells(event[..], InstantiateEvent, instantiate.Contents())
    }

    constructor (n: nat)
      ensures Valid() && fresh(removal) && fresh(removal.elt) && fresh(removal.idx) && fresh(instantiate)
      ensures fresh(instantiate.elt) && fresh(instantiate.idx) && fresh(event)
      ensures event.Length == n && removal.Contents() == [] && instantiate.Contents() == []
    {
      removal := new EventQueue(n);
      instantiate := new EventQueue(n);
      event := new VarEvent[n](_ => NoEvent);
      new;
      TellsNothing(event[..], RemovalEvent);
      TellsNothing(event[..], InstantiateEvent);
    }

    /** A removal is posted only for a variable without any event. */
    method PostRemoval(v: nat)
      requires Valid() && v < event.Length
      modifies removal`last, removal`hole, removal.elt, removal.idx, event
      ensures Valid()
      ensures if old(event[v]) == NoEvent
              then removal.Contents() == old(removal.Contents()) + [v] && event[..] == old(event[..])[v := RemovalEvent]
              else removal.Contents() == old(removal.Contents()) && event[..] == old(event[..])
    {
      if event[v] == NoEvent {
        ghost var e := event[..];
        TellsPosted(e, RemovalEvent, removal.Contents(), v);
        TellsOther(e, InstantiateEvent, instantiate.Contents(), v, RemovalEvent);
        removal.Post(v);
        event[v] := RemovalEvent;
        assert event[..] == e[v := RemovalEvent];
      }
    }

    /** Takes `v` out of the queue of removals, for an instantiation to take over. */
    method DropRemoval(v: nat)
      requires Valid() && v < event.Length && event[v] == RemovalEvent
      modifies removal`first, removal.elt, removal.idx
      ensures removal.Valid() && Tells(event[..][v := InstantiateEvent], RemovalEvent, removal.Contents())
      ensures exists k :: 0 <= k < |old(removal.Contents())| && old(removal.Contents())[k] == v
                          && removal.Contents() == old(removal.Contents())[k := old(removal.Contents())[0]][1..]
    {
      ghost var e, r := event[..], removal.Contents();
      removal.Remove(v);
      ghost var k :| 0 <= k < |r| && r[k] == v && removal.Contents() == r[k := r[0]][1..];
      TellsRemoved(e, RemovalEvent, r, k, InstantiateEvent);
    }

    /** Posts `v` as instantiated, once it is in neither queue. */
    method AddInstantiate(v: nat)
      requires Separate() && removal.Valid() && instantiate.Valid() && v < event.Length && event[v] != InstantiateEvent
      requires Tells(event[..][v := InstantiateEvent], RemovalEvent, removal.Contents())
      requires Tells(event[..], InstantiateEvent, instantiate.Contents())
      modifies instantiate`last, instantiate`hole, instantiate.elt, instantiate.idx, event
      ensures Valid() && event[..] == old(event[..])[v := InstantiateEvent]
      ensures instantiate.Contents() == old(instantiate.Contents()) + [v] && removal.Contents() == old(removal.Contents())
    {
      ghost var e := event[..];
      TellsPosted(e, InstantiateEvent, instantiate.Contents(), v);
      event[v] := InstantiateEvent;
      assert event[..] == e[v := InstantiateEvent];
      instantiate.Post(v);
    }

    /** An instantiation takes over from a pending removal. */
    method PostInstantiate(v: nat)
      requires Valid() && v < event.Length
      modifies removal`first, removal.elt, removal.idx
      modifies instantiate`last, instantiate`hole, instantiate.elt, instantiate.idx, event
      ensures Valid() && event[..] == old(event[..])[v := InstantiateEvent]
      ensures instantiate.Contents() == old(instantiate.Contents()) + if old(event[v]) == InstantiateEvent then [] else [v]
      ensures old(event[v]) != RemovalEvent ==> removal.Contents() == old(removal.Contents())
      ensures old(event[v]) == RemovalEvent ==>
                exists k :: 0 <= k < |old(removal.Contents())| && old(removal.Contents())[k] == v
                            && removal.Contents() == old(removal.Contents())[k := old(removal.Contents())[0]][1..]
    {
      ghost var e, r, i := event[..], removal.Contents(), instantiate.Contents();
      if event[v] != InstantiateEvent {
        if event[v] == RemovalEvent {
          DropRemoval(v);
        } else {
          TellsOther(e, RemovalEvent, r, v, InstantiateEvent);
        }
        assert instantiate.Contents() == i;
        AddInstantiate(v);
      } else {
        assert e == e[v := InstantiateEvent];
      }
    }

    /** Takes the first pending instantiation, or null. */
    method PopInstantiate() returns (v: int, actual: VarEvent)
      requires Valid()
      modifies instantiate`first, event
      ensures Valid() && removal.Contents() == old(removal.Contents())
      ensures if old(instantiate.Contents()) == []
              then v == NULL && instantiate.Contents() == [] && event[..] == old(event[..])
              else
                && v == old(instantiate.Contents())[0] && instantiate.Contents() == old(instantiate.Contents())[1..]
                && 0 <= v < event.Length && event[..] == old(event[..])[v := NoEvent] && actual == InstantiateEvent
    {
      ghost var e, i := event[..], instantiate.Contents();
      actual := NoEvent;
      v := instantiate.Pop();
      if v != NULL {
        TellsPopped(e, InstantiateEvent, i, RemovalEvent, removal.Contents());
        actual := event[v];
        event[v] := NoEvent;
        assert event[..] == e[v := NoEvent];
      }
    }

    /** Takes the first pending removal, or null. */
    method PopRemoval() returns (v: int, actual: VarEvent)
      requires Valid()
      modifies removal`first, event
      ensures Valid() && instantiate.Contents() == old(instantiate.Contents())
      ensures if old(removal.Contents()) == []
              then v == NULL && removal.Contents() == [] && event[..] == old(event[..])
              else
                && v == old(removal.Contents())[0] && removal.Contents() == old(removal.Contents())[1..]
                && 0 <= v < event.Length && event[..] == old(event[..])[v := NoEvent] && actual == RemovalEvent
    {
      ghost var e, r := event[..], removal.Contents();
      actual := NoEvent;
      v := removal.Pop();
      if v != NULL {
        TellsPopped(e, RemovalEvent, r, InstantiateEvent, instantiate.Contents());
        actual := event[v];
        event[v] := NoEvent;
        assert event[..] == e[v := NoEvent];
      }
    }

    method ResetRemovals()
      requires Valid()
      modifies removal`first, event
      ensures Valid() && removal.Contents() == [] && instantiate.Contents() == old(instantiate.Contents())
    {
      var v, actual := PopRemoval();
      while v != NULL
        invariant Valid() && (v == NULL ==> removal.Contents() == [])
        invariant instantiate.Contents() == old(instantiate.Contents())
        decreases if v == NULL then 0 else 1 + |removal.Contents()|
      {
        v, actual := PopRemoval();
      }
    }

    method ResetInstantiations()
      requires Valid()
      modifies instantiate`first, event
      ensures Valid() && instantiate.Contents() == [] && removal.Contents() == old(removal.Contents())
    {
      var v, actual := PopInstantiate();
      while v != NULL
        invariant Valid() && (v == NULL ==> instantiate.Contents() == [])
        invariant removal.Contents() == old(removal.Contents())
        decreases if v == NULL then 0 else 1 + |instantiate.Contents()|
      {
        v, actual := PopInstantiate();
      }
    }

    /** Forgets all pending events after a failure. */
    method Reset()
      requires Valid()
      modifies removal`first, instantiate`first, event
      ensures Valid() && removal.Contents() == [] && instantiate.Contents() == []
      ensures forall v :: 0 <= v < event.Length ==> event[v] != RemovalEvent && event[v] != InstantiateEvent
    {
      ResetRemovals();
      ResetInstantiations();
      assert forall v :: 0 <= v < event.Length ==> event[..][v] != RemovalEvent && event[..][v] != InstantiateEvent;
    }
  }

  /** The queue of the bound variables, and the event of each of them. */
  class BoundEvents {
    const bound: EventQueue
    const event: array<VarEvent>

    ghost predicate Valid()
      reads bound, bound.elt, bound.idx, event
    {
      bound.idx.Length == event.Length && bound.Valid() && Tells(event[..], BoundEvent, bound.Contents())
    }

    constructor (n: nat)
      ensures Valid() && fresh(bound) && fresh(bound.elt) && fresh(bound.idx) && fresh(event)
      ensures event.Length == n && bound.Contents() == []
    {
      bound := new EventQueue(n);
      event := new VarEvent[n](_ => NoEvent);
    }

    method PostBound(v: nat)
      requires Valid() && v < event.Length
      modifies bound`last, bound`hole, bound.elt, bound.idx, event
      ensures Valid()
      ensures if old(event[v]) == NoEvent
              then bound.Contents() == old(bound.Contents()) + [v] && event[..] == old(event[..])[v := BoundEvent]
              else bound.Contents() == old(bound.Contents()) && event[..] == old(event[..])
    {
      if event[v] == NoEvent {
        ghost var e := event[..];
        TellsPosted(e, BoundEvent, bound.Contents(), v);
        bound.Post(v);
        event[v] := BoundEvent;
        assert event[..] == e[v := BoundEvent];
      }
    }

    method PopBound() returns (v: int, actual: VarEvent)
      requires Valid()
      modifies bound`first, event
      ensures Valid()
      ensures if old(bound.Contents()) == []
              then v == NULL && bound.Contents() == [] && event[..] == old(event[..])
              else
                && v == old(bound.Contents())[0] && bound.Contents() == old(bound.Contents())[1..]
                && 0 <= v < event.Length && event[..] == old(event[..])[v := NoEvent] && actual == BoundEvent
    {
      ghost var e, b := event[..], bound.Contents();
      actual := NoEvent;
      v := bound.Pop();
      if v != NULL {
        TellsRemoved(e, BoundEvent, b, 0, NoEvent);
        assert b[0 := b[0]][1..] == b[1..];
        actual := event[v];
        event[v] := NoEvent;
        assert event[..] == e[v := NoEvent];
      }
    }

    /** Forgets all pending events after a failure. */
    method Reset()
      requires Valid()
      modifies bound`first, event
      ensures Valid() && bound.Contents() == [] && forall v :: 0 <= v < event.Length ==> event[v] != BoundEvent
    {
      var v, actual := PopBound();
      while v != NULL
        invariant Valid() && (v == NULL ==> bound.Contents() == [])
        decreases if v == NULL then 0 else 1 + |bound.Contents()|
      {
        v, actual := PopBound();
      }
      assert forall v :: 0 <= v < event.Length ==> event[..][v] != BoundEvent;
    }
  }

  ghost predicate Apart(e: EnumEvents, b: BoundEvents) {
    && e.removal != b.bound && e.instantiate != b.bound && e.event != b.event
    && e.removal.elt != b.bound.elt && e.removal.elt != b.bound.idx && e.removal.idx != b.bound.elt
    && e.removal.idx != b.bound.idx && e.instantiate.elt != b.bound.elt && e.instantiate.elt != b.bound.idx
    && e.instantiate.idx != b.bound.elt && e.instantiate.idx != b.bound.idx
  }

  /** A failure forgets all that is pending, in all three queues, and the variables know it. */
  method ResetQueues(e: EnumEvents, b: BoundEvents)
    requires e.Valid() && b.Valid() && Apart(e, b)
    modifies e.removal`first, e.instantiate`first, e.event, b.bound`first, b.event
    ensures e.Valid() && b.Valid()
    ensures e.removal.Contents() == [] && e.instantiate.Contents() == [] && b.bound.Contents() == []
    ensures forall v :: 0 <= v < e.event.Length ==> e.event[v] != RemovalEvent && e.event[v] != InstantiateEvent
    ensures forall v :: 0 <= v < b.event.Length ==> b.event[v] != BoundEvent
  {
    e.Reset();
    b.Reset();
  }

  /** The event taken is that of the first pending variable, which is pending no longer. */
  ghost predicate Takes(v: int, actual: VarEvent, kind: VarEvent, before: seq<int>, after: seq<int>)
    requires before != []
  {
    actual == kind && v == before[0] && v != NULL && after == before[1..]
  }

  /** The next event when no instantiation is pending. */
  method NextWeakEvent(e: EnumEvents, b: BoundEvents) returns (v: int, actual: VarEvent)
    requires e.Valid() && b.Valid() && Apart(e, b)
    modifies e.removal`first, e.event, b.bound`first, b.event
    ensures e.Valid() && b.Valid() && e.instantiate.Contents() == old(e.instantiate.Contents())
    ensures var w, r := old(b.bound.Contents()), old(e.removal.Contents());
            if w != [] then Takes(v, actual, BoundEvent, w, b.bound.Contents()) && e.removal.Contents() == r
            else if r != [] then Takes(v, actual, RemovalEvent, r, e.removal.Contents()) && b.bound.Contents() == []
            else v == NULL && b.bound.Contents() == [] && e.removal.Contents() == []
  {
    ghost var r, i := e.removal.Contents(), e.instantiate.Contents();
    v, actual := b.PopBound();
    assert e.removal.Contents() == r && e.instantiate.Contents() == i;
    if v == NULL {
      ghost var w := b.bound.Contents();
      v, actual := e.PopRemoval();
      assert b.bound.Contents() == w;
    }
  }

  /**
   The next event of the propagation loop: instantiations go first, removals last, and the loop
   stops only when nothing is pending.
   */
  method NextEvent(e: EnumEvents, b: BoundEvents) returns (v: int, actual: VarEvent)
    requires e.Valid() && b.Valid() && Apart(e, b)
    modifies e.instantiate`first, e.removal`first, e.event, b.bound`first, b.event
    ensures e.Valid() && b.Valid()
    ensures var i, w, r := old(e.instantiate.Contents()), old(b.bound.Contents()), old(e.removal.Contents());
            var j, x, q := e.instantiate.Contents(), b.bound.Contents(), e.removal.Contents();
            if i != [] then Takes(v, actual, InstantiateEvent, i, j) && x == w && q == r
            else if w != [] then Takes(v, actual, BoundEvent, w, x) && j == [] && q == r
            else if r != [] then Takes(v, actual, RemovalEvent, r, q) && j == [] && x == []
            else v == NULL && j == [] && x == [] && q == []
  {
    ghost var w := b.bound.Contents();
    v, actual := e.PopInstantiate();
    assert b.bound.Contents() == w;
    if v == NULL {
      v, actual := NextWeakEvent(e, b);
    }
  }
}
