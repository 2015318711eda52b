/** A small solver that branches and meets all that the search asks of one. */
module OneCellSolver {
  import opened Basics
  import opened Bytes
  import opened TrailLog
  import opened Search

  /** One cell of one byte: undecided while it is 0, then solved by the value it holds. */
  predicate Undecided(m: seq<Byte>) {
    |m| >= 2 && m[1] == 0
  }

  function OneCell(): Solver {
    Solver([], m => Outcome(true, []), m => if Undecided(m) then Some(0) else None,
           (m, c, first) => Outcome(true, if Undecided(m) then [Cell(1, [if first then 1 else 2])] else []),
           (m, x) => if Undecided(m) then x == 1 || x == 2 else x == if |m| >= 2 then m[1] else 0,
           m => if Undecided(m) then 1 else 0)
  }

  /** What is asked of a solver can be met by one that branches: its two sides have different solutions. */
  lemma OneCellIsSound()
    ensures Sound(OneCell())
    ensures forall m: seq<Byte> :: Undecided(m) ==> OneCell().choose(m) == Some(0)
  {
    var e := OneCell();
    forall m: seq<Byte> ensures SoundPropagation(e, m) {
      OneCellPropagates(e, m);
    }
    forall m: seq<Byte> ensures SoundLeaf(e, m) {
      OneCellLeaf(e, m);
    }
    forall m: seq<Byte>, m': seq<Byte> ensures SoundChoice(e, m, m') {
      OneCellChooses(e, m, m');
    }
  }

  lemma OneCellPropagates(e: Solver, m: seq<Byte>)
    requires e == OneCell()
    ensures SoundPropagation(e, m)
  {
    assert Feasible(m, e.propagate(m).writes, e.vecs) && After(m, e.propagate(m).writes, e.vecs) == m;
  }

  lemma OneCellLeaf(e: Solver, m: seq<Byte>)
    requires e == OneCell()
    ensures SoundLeaf(e, m)
  {
    if !Undecided(m) {
      var x: nat := if |m| >= 2 then m[1] else 0;
      assert e.solves(m, x);
    }
  }

  lemma OneWrite(e: Solver, m: seq<Byte>, b: Byte, ws: seq<Write>)
    requires e.vecs == [] && Layout(e.vecs, |m|) && |m| >= 2 && ws == [Cell(1, [b])]
    ensures Feasible(m, ws, e.vecs) && After(m, ws, e.vecs) == m[1 := b]
  {
    assert Permitted(m, ws[0], e.vecs) && Step(m, ws[0], e.vecs) == m[1 := b];
    assert ws[1..] == [] && Feasible(m[1 := b], [], e.vecs);
  }

  lemma OneCellChooses(e: Solver, m: seq<Byte>, m': seq<Byte>)
    requires e == OneCell()
    ensures SoundChoice(e, m, m')
  {
    if Ready(e, m) && Undecided(m) && Agrees(m', m, e.vecs) {
      assert m' == m by {
        assert forall a :: 0 <= a < |m| ==> !Hidden(m, e.vecs, a);
      }
      OneWrite(e, m, 1, e.branch(m, 0, true).writes);
      OneWrite(e, m, 2, e.branch(m, 0, false).writes);
    }
  }
}
