/** How the master shares out the runs: in advance, or one at a time. */
module Assignments {
  import opened Basics
  import opened Counting

  datatype Order = Continue | NoMore

  /** The state of an assignment: the runs each worker has left, or the number of runs handed out. */
  datatype Ledger = Static(shares: seq<int>) | Dynamic(handedOut: nat)

  /** What a worker is told, and the ledger after that. */
  function Assigned(l: Ledger, runs: nat, w: nat): (Order, Ledger)
    requires l.Static? ==> w < |l.shares|
  {
    match l
    case Static(shares) => (if shares[w] > 0 then Continue else NoMore, l)
    case Dynamic(n) => if n < runs then (Continue, Dynamic(n + 1)) else (NoMore, l)
  }

  function Confirmed(l: Ledger, w: nat): Ledger
    requires l.Static? ==> w < |l.shares|
  {
    match l
    case Static(shares) => Static(shares[w := shares[w] - 1])
    case Dynamic(_) => l
  }

  /** The shares of `runs` runs among `n` workers. */
  ghost predicate FairShares(shares: seq<int>, runs: nat) {
    && Sum(shares) == runs
    && (forall w :: 0 <= w < |shares| ==> shares[w] >= 0)
    && (forall v, w :: 0 <= v < |shares| && 0 <= w < |shares| ==> shares[v] <= shares[w] + 1)
  }

  lemma {:induction false} SumOfEqual(s: seq<int>, q: int)
    requires forall i :: 0 <= i < |s| ==> s[i] == q
    ensures Sum(s) == |s| * q
  {
    if s != [] {
      SumOfEqual(s[1..], q);
    }
  }

  /** As long as the shares account for all runs that are not confirmed: nobody is told to go on exactly when all are. */
  lemma StaticStopsIff(shares: seq<int>, runs: nat, confirmed: nat)
    requires Sum(shares) + confirmed == runs && forall w :: 0 <= w < |shares| ==> shares[w] >= 0
    ensures (forall w: nat :: w < |shares| ==> Assigned(Static(shares), runs, w).0 == NoMore) <==> confirmed == runs
  {
    if confirmed == runs {
      SumZero(shares);
    } else if forall w: nat :: w < |shares| ==> Assigned(Static(shares), runs, w).0 == NoMore {
      forall w: nat | w < |shares| ensures shares[w] == 0 {
        assert Assigned(Static(shares), runs, w).0 == NoMore;
      }
      SumOfEqual(shares, 0);
    }
  }

  /** How many of the next `n` requests are told to go on, and what the ledger is then. */
  function Granted(l: Ledger, runs: nat, n: nat): (nat, Ledger)
    requires l.Dynamic?
    ensures Granted(l, runs, n).1.Dynamic?
    decreases n
  {
    if n == 0 then (0, l)
    else
      var (order, l') := Assigned(l, runs, 0);
      var (more, last) := Granted(l', runs, n - 1);
      ((if order == Continue then 1 else 0) + more, last)
  }

  /** Whoever asks how often: the requests that are granted are the first ones, as many as there are runs. */
  lemma {:induction false} DynamicGrants(l: Ledger, runs: nat, n: nat)
    requires l.Dynamic? && l.handedOut <= runs
    ensures Granted(l, runs, n).0 == Min(n, runs - l.handedOut)
    ensures Granted(l, runs, n).1 == Dynamic(Min(l.handedOut + n, runs))
    decreases n
  {
    if n > 0 {
      DynamicGrants(Assigned(l, runs, 0).1, runs, n - 1);
    }
  }

  class StaticAssignment {
    const runs: nat
    var confirmedRuns: nat
    const attributions: array<int>

    ghost function View(): Ledger
      reads attributions
    {
      Static(attributions[..])
    }

    /** The shares account for all runs that are not confirmed. */
    ghost predicate Balanced()
      reads this`confirmedRuns, attributions
    {
      Sum(attributions[..]) + confirmedRuns == runs
    }

    /** Every worker gets the same share, and the first ones take the rest. */
    constructor (runs: nat, workers: nat)
      requires runs > 0 && workers > 0
      ensures this.runs == runs && confirmedRuns == 0 && attributions.Length == workers && fresh(attributions)
      ensures FairShares(attributions[..], runs) && Balanced()
    {
      this.runs := runs;
      confirmedRuns := 0;
      attributions := new int[workers];
      new;
      GiveEqualShares(runs / workers);
      GiveRest(runs - (runs / workers) * workers, runs / workers);
    }

    method GiveEqualShares(q: nat)
      modifies attributions
      ensures forall w :: 0 <= w < attributions.Length ==> attributions[w] == q
      ensures Sum(attributions[..]) == attributions.Length * q
    {
      for i := 0 to attributions.Length
        invariant forall w :: 0 <= w < i ==> attributions[w] == q
      {
        attributions[i] := q;
      }
      SumOfEqual(attributions[..], q);
    }

    method GiveRest(diff: nat, ghost q: nat)
      requires diff < attributions.Length && forall w :: 0 <= w < attributions.Length ==> attributions[w] == q
      modifies attributions
      ensures Sum(attributions[..]) == Sum(old(attributions[..])) + diff
      ensures forall w :: 0 <= w < attributions.Length ==> attributions[w] == if w < diff then q + 1 else q
    {
      for i := 0 to diff
        invariant forall w :: 0 <= w < attributions.Length ==> attributions[w] == if w < i then q + 1 else q
        invariant Sum(attributions[..]) == Sum(old(attributions[..])) + i
      {
        ghost var before := attributions[..];
        SumUpdate(before, i, q + 1);
        attributions[i] := attributions[i] + 1;
        assert attributions[..] == before[i := q + 1];
      }
    }

    method Confirm(w: nat)
      requires w < attributions.Length
      modifies this`confirmedRuns, attributions
      ensures confirmedRuns == old(confirmedRuns) + 1 && View() == Confirmed(old(View()), w)
      ensures old(Balanced()) ==> Balanced()
    {
      confirmedRuns := confirmedRuns + 1;
      ghost var before := attributions[..];
      SumUpdate(before, w, before[w] - 1);
      attributions[w] := attributions[w] - 1;
      assert attributions[..] == before[w := before[w] - 1];
    }

    method Assign(w: nat) returns (order: Order)
      requires w < attributions.Length
      ensures (order, View()) == Assigned(View(), runs, w)
    {
      order := if attributions[w] > 0 then Continue else NoMore;
    }
  }

  class DynamicAssignment {
    const runs: nat
    var confirmedRuns: nat
    var assignedRuns: nat

    ghost function View(): Ledger
      reads this
    {
      Dynamic(assignedRuns)
    }

    constructor (runs: nat)
      ensures this.runs == runs && confirmedRuns == 0 && View() == Dynamic(0)
    {
      this.runs, confirmedRuns, assignedRuns := runs, 0, 0;
    }

    method Confirm(w: nat)
      modifies this`confirmedRuns
      ensures confirmedRuns == old(confirmedRuns) + 1 && View() == Confirmed(old(View()), w)
    {
      confirmedRuns := confirmedRuns + 1;
    }

    method Assign(w: nat) returns (order: Order)
      modifies this`assignedRuns
      ensures (order, View()) == Assigned(old(View()), runs, w)
    {
      order := NoMore;
      if assignedRuns < runs {
        order := Continue;
        assignedRuns := assignedRuns + 1;
      }
    }
  }
}
