/** The finite domain variables of the constraint solver, and the loop over their values. */
module EnumVariables {
  import opened Buckets

  /** What a change of a domain leads to: a failure, an event to post, or nothing. */
  datatype Effect = Emptied | RemovalPosted | InstantiationPosted | Unchanged

  /** The loop is at `i`, and has removed from `all` what is not to be kept before it. */
  ghost predicate Filtering(d: Domain, all: set<int>, keep: int -> bool, i: int, emptied: bool) {
    && 0 <= i && (i <= d.max ==> IsMember(d, i)) && Members(d) <= all
    && (forall j :: j in all && keep(j) ==> j in Members(d))
    && (!emptied ==> forall j :: j in Members(d) && j < i ==> keep(j))
    && (emptied ==> i > d.max && d.min == d.max && !keep(d.min))
  }

  class EnumVariable {
    var min: int
    var max: int
    var card: int
    var value: int
    const bucket: array<int>
    /** The last slot that has ever been used. */
    ghost var top: int

    ghost function View(): Domain
      reads this`min, this`max, this`card, this`value, bucket
    {
      Domain(min, max, card, value, bucket[..])
    }

    ghost predicate Valid()
      reads this`min, this`max, this`card, this`value, this`top, bucket
    {
      Sound(View(), top)
    }

    constructor (n: nat, spare: nat)
      requires 0 < n && n + spare <= MAXVAL
      ensures Valid() && fresh(bucket) && View() == Created(n, spare) && top == n - 1
      ensures forall i :: i in Members(View()) <==> 0 <= i < n
    {
      min, max, card := 0, n - 1, n;
      value := if n == 1 then 0 else VAL_UNKNOWN;
      top := n - 1;
      bucket := new int[n + spare + 1](i => if 0 <= i < n then i else VAL_UNKNOWN);
      new;
      CreatedSound(n, spare);
      assert bucket[..] == Created(n, spare).bucket;
    }

    /** Removes a value; a domain never becomes empty, its owner is told instead. */
    method Remove(i: nat) returns (effect: Effect)
      requires Valid() && i + 1 < bucket.Length
      modifies this`min, this`max, this`card, this`value, bucket
      ensures Valid()
      ensures effect.Unchanged? <==> i !in old(Members(View()))
      ensures effect.Emptied? <==> old(Members(View())) == {i}
      ensures effect.InstantiationPosted? <==> i in old(Members(View())) && !effect.Emptied? && card == 1
      ensures if effect.Unchanged? || effect.Emptied? then View() == old(View())
              else Removable(old(View()), i) && View() == Removed(old(View()), i)
      ensures !effect.Emptied? ==> Members(View()) == old(Members(View())) - {i}
    {
      ghost var d := View();
      if bucket[i] != i {
        return Unchanged;
      }
      if min == max {
        return Emptied;
      }
      RemoveKeeps(d, top, i);
      effect := Cut(i);
      CardOne(View(), top);
    }

    /** The removal of one of several members. */
    method Cut(i: nat) returns (effect: Effect)
      requires Removable(View(), i) && bucket[i] == i && value == VAL_UNKNOWN && min < max
      modifies this`min, this`max, this`card, this`value, bucket
      ensures View() == Removed(old(View()), i)
      ensures effect == if i != old(min) && i != old(max) then RemovalPosted
                        else if min == max then InstantiationPosted else RemovalPosted
    {
      card := card - 1;
      if i == min {
        min := bucket[i + 1];
        bucket[i] := VAL_UNKNOWN;
      } else {
        var prev := if bucket[i - 1] == i then i - 2 else bucket[i - 1];
        if i == max {
          max := prev;
          bucket[i] := VAL_UNKNOWN;
        } else {
          var next := bucket[i + 1];
          if prev != i - 1 {
            bucket[i] := VAL_UNKNOWN;
          }
          if prev + 2 != next {
            bucket[next - 1] := prev;
          }
          bucket[prev + 1] := next;
          return RemovalPosted;
        }
      }
      if min == max {
        value := min;
        effect := InstantiationPosted;
      } else {
        effect := RemovalPosted;
      }
    }

    /** Adds a value above all that have been used; a variable with a value is reopened. */
    method Add(i: nat)
      requires 0 <= max < i < bucket.Length
      modifies this`max, this`card, this`value, this`top, bucket
      ensures View() == Added(old(View()), i) && top == i
      ensures old(Valid()) && old(top) < i && i + 1 < bucket.Length ==> Valid() && Members(View()) == old(Members(View())) + {i}
    {
      ghost var d, t := View(), top;
      var prev := max;
      bucket[i] := i;
      max := i;
      card := card + 1;
      if prev < i - 1 {
        if prev != i - 2 {
          bucket[i - 1] := prev;
        }
        bucket[prev + 1] := i;
      }
      if value != VAL_UNKNOWN {
        value := VAL_UNKNOWN;
      }
      top := i;
      assert View() == Added(d, i);
      if Sound(d, t) && t < i && i + 1 < |d.bucket| {
        AddKeeps(d, t, i);
      }
    }

    /** Closes the variable on one of its members; the bucket stays as it is. */
    method Instantiate(i: nat) returns (effect: Effect)
      requires Valid() && i < bucket.Length
      modifies this`min, this`max, this`card, this`value
      ensures effect.Emptied? <==> i !in old(Members(View()))
      ensures effect.InstantiationPosted? <==> i in old(Members(View())) && old(card) > 1
      ensures View() == if effect.InstantiationPosted? then Instantiated(old(View()), i) else old(View())
      ensures !effect.Emptied? ==> forall j :: CanTake(View(), j) <==> j == i
    {
      ghost var d := View();
      CardOne(d, top);
      TakesMembers(d, top, i);
      effect := Unchanged;
      if bucket[i] != i {
        effect := Emptied;
      } else if value == VAL_UNKNOWN {
        value, min, max, card := i, i, i, 1;
        effect := InstantiationPosted;
        assert View() == Instantiated(d, i);
      }
    }

    /** The loop over the values: every member once, in increasing order. */
    method Visit() returns (vs: seq<int>)
      requires Valid()
      ensures forall k, l :: 0 <= k < l < |vs| ==> vs[k] < vs[l]
      ensures forall j :: j in vs <==> j in Members(View())
    {
      ghost var d := View();
      vs := [];
      var i := min;
      while i <= max
        invariant min <= i && (i <= max ==> IsMember(d, i))
        invariant forall k, l :: 0 <= k < l < |vs| ==> vs[k] < vs[l]
        invariant forall k :: 0 <= k < |vs| ==> vs[k] < i
        invariant forall j :: j in vs <==> IsMember(d, j) && j < i
        decreases max - i
      {
        NextSlot(d, top, i);
        vs := vs + [i];
        i := bucket[i + 1];
      }
    }

    /** One turn of the loop that removes the values that are not kept. */
    method FilterOne(i: nat, keep: int -> bool, ghost all: set<int>) returns (next: int, emptied: bool)
      requires Valid() && Filtering(View(), all, keep, i, false) && i <= max
      modifies this`min, this`max, this`card, this`value, bucket
      ensures Valid() && Filtering(View(), all, keep, next, emptied)
      ensures card < old(card) || (card == old(card) && max == old(max) && i < next)
    {
      NextSlot(View(), top, i);
      emptied := false;
      if !keep(i) {
        emptied := RemoveCurrent(i);
      }
      next := bucket[i + 1];
    }

    /**
     The loop over the values that removes some of them on the way.  It goes back at times, but
     it comes to an end, and removes exactly the values that are not kept; if none is kept, the
     last one stays and the owner is told.
     */
    method Filter(keep: int -> bool) returns (emptied: bool)
      requires Valid()
      modifies this`min, this`max, this`card, this`value, bucket
      ensures Valid() && Members(View()) <= old(Members(View()))
      ensures emptied <==> forall j :: j in old(Members(View())) ==> !keep(j)
      ensures !emptied ==> forall j :: j in Members(View()) <==> j in old(Members(View())) && keep(j)
      ensures emptied ==> card == 1
    {
      ghost var all := Members(View());
      emptied := false;
      var i := min;
      while i <= max
        invariant Valid() && Filtering(View(), all, keep, i, emptied)
        decreases card, max - i
      {
        i, emptied := FilterOne(i, keep, all);
      }
      CardOne(View(), top);
      assert IsMember(View(), min);
    }

    /** Removes the value the loop is at. */
    method RemoveCurrent(i: nat) returns (emptied: bool)
      requires Valid() && IsMember(View(), i) && i + 1 < bucket.Length
      modifies this`min, this`max, this`card, this`value, bucket
      ensures Valid() && bucket[i + 1] >= 0
      ensures emptied ==> View() == old(View()) && min == max == i && bucket[i + 1] > max
      ensures !emptied ==> Members(View()) == old(Members(View())) - {i} && card < old(card)
      ensures !emptied ==> var t := bucket[i + 1];
                (t <= max ==> IsMember(View(), t)) && forall j :: IsMember(View(), j) && j < t ==> j < i
    {
      ghost var d := View();
      NextSlot(d, top, i);
      if min != max {
        SlotAfterRemoval(d, top, i);
      }
      var effect := Remove(i);
      emptied := effect == Emptied;
    }
  }
}
