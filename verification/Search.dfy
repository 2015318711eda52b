/**
 Depth-first search with binary branching on the trail.  What propagation does, which choice is
 made and what its two sides do are arbitrary functions of the memory; the search loses no
 solution as long as propagation keeps them and the two sides of a choice cover them.
 */
module Search {
  import opened Basics
  import opened Bytes
  import opened TrailLog
  import opened Trail

  /** What a propagation procedure does to the memory: it stores a cell, or extends vector `vec`. */
  datatype Write = Cell(addr: nat, bytes: seq<Byte>) | Element(vec: nat, bytes: seq<Byte>)

  /** Its writes, in order, up to its end or to the contradiction it raises. */
  datatype Outcome = Outcome(ok: bool, writes: seq<Write>)

  datatype Solver = Solver(
    vecs: seq<Vec>,
    propagate: seq<Byte> -> Outcome,
    choose: seq<Byte> -> Option<nat>,
    branch: (seq<Byte>, nat, bool) -> Outcome,
    solves: (seq<Byte>, nat) -> bool,
    rank: seq<Byte> -> nat)

  ghost predicate Permitted(m: seq<Byte>, w: Write, vs: seq<Vec>) {
    Layout(vs, |m|) &&
    match w
    case Cell(a, bs) => 0 < a && a + |bs| <= |m| && CellSize(|bs|) && OffVectors(a, |bs|, vs)
    case Element(i, bs) => |bs| == 8 && i < |vs| && Count(m, vs[i]) < vs[i].cap
  }

  ghost function Step(m: seq<Byte>, w: Write, vs: seq<Vec>): (r: seq<Byte>)
    requires Permitted(m, w, vs)
    ensures |r| == |m|
  {
    match w
    case Cell(a, bs) => Overlay(m, a, bs)
    case Element(i, bs) => AppendedMemory(m, vs[i], bs)
  }

  ghost predicate Feasible(m: seq<Byte>, ws: seq<Write>, vs: seq<Vec>)
    decreases |ws|
  {
    ws == [] || (Permitted(m, ws[0], vs) && Feasible(Step(m, ws[0], vs), ws[1..], vs))
  }

  ghost function After(m: seq<Byte>, ws: seq<Write>, vs: seq<Vec>): (r: seq<Byte>)
    requires Feasible(m, ws, vs)
    ensures |r| == |m|
    decreases |ws|
  {
    if ws == [] then m else After(Step(m, ws[0], vs), ws[1..], vs)
  }

  // ----- what is asked of the solver

  ghost predicate Ready(e: Solver, m: seq<Byte>) {
    Layout(e.vecs, |m|) && |m| <= LIMIT
  }

  /** The outcome leaves a store that `x` solves. */
  ghost predicate Gives(e: Solver, m: seq<Byte>, o: Outcome, x: nat) {
    o.ok && Feasible(m, o.writes, e.vecs) && e.solves(After(m, o.writes, e.vecs), x)
  }

  ghost predicate Ranked(e: Solver, m: seq<Byte>, o: Outcome, bound: nat) {
    Feasible(m, o.writes, e.vecs) && (o.ok ==> e.rank(After(m, o.writes, e.vecs)) < bound)
  }

  /** Propagation neither loses nor adds a solution. */
  ghost predicate SoundPropagation(e: Solver, m: seq<Byte>) {
    Ready(e, m) ==>
      && Ranked(e, m, e.propagate(m), e.rank(m) + 1)
      && forall x :: e.solves(m, x) <==> Gives(e, m, e.propagate(m), x)
  }

  /** A store in which nothing is left to choose is a solution. */
  ghost predicate SoundLeaf(e: Solver, m: seq<Byte>) {
    Ready(e, m) && e.choose(m).None? ==> exists x :: e.solves(m, x)
  }

  /** The two sides cover the solutions; the second one may start from any memory that looks like the first one's. */
  ghost predicate SoundChoice(e: Solver, m: seq<Byte>, m': seq<Byte>) {
    Ready(e, m) && e.choose(m).Some? && Agrees(m', m, e.vecs) ==>
      var c := e.choose(m).value;
      && Ranked(e, m, e.branch(m, c, true), e.rank(m)) && Ranked(e, m', e.branch(m', c, false), e.rank(m))
      && forall x :: e.solves(m, x) <==> Gives(e, m, e.branch(m, c, true), x) || Gives(e, m', e.branch(m', c, false), x)
  }

  ghost predicate Sound(e: Solver) {
    && (forall m :: SoundPropagation(e, m)) && (forall m :: SoundLeaf(e, m)) && (forall m, m' :: SoundChoice(e, m, m'))
  }

  ghost predicate Solvable(e: Solver, m: seq<Byte>) {
    exists x :: e.solves(m, x)
  }

  // ----- the search

  datatype Result = Found | Failed | GaveUp

  /** What the result says of the store `m` the search started from; `m'` is the store it ends with. */
  ghost predicate Settles(e: Solver, r: Result, m: seq<Byte>, m': seq<Byte>) {
    && (r.Found? ==> exists x :: e.solves(m, x) && e.solves(m', x))
    && (r.Failed? ==> !Solvable(e, m))
  }

  /** What propagation leaves settles where it started. */
  lemma SettledByPropagation(e: Solver, m: seq<Byte>, r: Result, m': seq<Byte>)
    requires Sound(e) && Ready(e, m)
    ensures Ranked(e, m, e.propagate(m), e.rank(m) + 1)
    ensures !e.propagate(m).ok ==> Settles(e, Failed, m, m')
    ensures e.propagate(m).ok && Settles(e, r, After(m, e.propagate(m).writes, e.vecs), m') ==> Settles(e, r, m, m')
  {
    assert SoundPropagation(e, m);
  }

  lemma SettledAtLeaf(e: Solver, m: seq<Byte>)
    requires Sound(e) && Ready(e, m) && e.choose(m).None?
    ensures Settles(e, Found, m, m)
  {
    assert SoundLeaf(e, m);
  }

  lemma SettledByFirst(e: Solver, m: seq<Byte>, r: Result, m': seq<Byte>)
    requires Sound(e) && Ready(e, m) && e.choose(m).Some?
    ensures var c := e.choose(m).value; var o := e.branch(m, c, true);
            && Ranked(e, m, o, e.rank(m))
            && (!o.ok ==> FirstFails(e, m, c))
            && (o.ok && Settles(e, r, After(m, o.writes, e.vecs), m') ==>
                  if r.Failed? then FirstFails(e, m, c) else Settles(e, r, m, m'))
  {
    assert Agrees(m, m, e.vecs);
    assert SoundChoice(e, m, m);
  }

  ghost predicate FirstFails(e: Solver, m: seq<Byte>, c: nat) {
    var o := e.branch(m, c, true);
    o.ok ==> Feasible(m, o.writes, e.vecs) && !Solvable(e, After(m, o.writes, e.vecs))
  }

  /** The first side has failed: what the second one leaves settles the choice. */
  lemma SettledBySecond(e: Solver, m: seq<Byte>, m1: seq<Byte>, r: Result, m': seq<Byte>)
    requires Sound(e) && Ready(e, m) && e.choose(m).Some? && Agrees(m1, m, e.vecs) && FirstFails(e, m, e.choose(m).value)
    ensures var o := e.branch(m1, e.choose(m).value, false);
            && Ranked(e, m1, o, e.rank(m))
            && (!o.ok ==> Settles(e, Failed, m, m'))
            && (o.ok && Settles(e, r, After(m1, o.writes, e.vecs), m') ==> Settles(e, r, m, m'))
  {
    assert SoundChoice(e, m, m1);
  }

  ghost predicate Good(e: Solver, s: WorldStack)
    reads s, s.mem, s.data
  {
    s.Valid() && Recoverable(s.Now(), e.vecs)
  }

  method StoreCell(e: Solver, s: WorldStack, a: nat, bs: seq<Byte>)
    requires Good(e, s) && Permitted(s.mem[..], Cell(a, bs), e.vecs)
    modifies s`data, s`size, s`code, s`codes, s`log, s.mem, s.data
    ensures Good(e, s) && (s.data == old(s.data) || fresh(s.data)) && s.mem[..] == Step(old(s.mem[..]), Cell(a, bs), e.vecs)
  {
    StoreKeeps(s.Now(), e.vecs, a, bs);
    s.Store(a, bs);
  }

  method Extend(e: Solver, s: WorldStack, i: nat, bs: seq<Byte>)
    requires Good(e, s) && Permitted(s.mem[..], Element(i, bs), e.vecs)
    modifies s`data, s`size, s`code, s`codes, s`log, s.mem, s.data
    ensures Good(e, s) && (s.data == old(s.data) || fresh(s.data)) && s.mem[..] == Step(old(s.mem[..]), Element(i, bs), e.vecs)
  {
    AppendKeeps(s.Now(), e.vecs, i, bs);
    s.Append(e.vecs[i], bs);
  }

  /** Carries out the writes of an outcome. */
  method Run(e: Solver, s: WorldStack, o: Outcome) returns (ok: bool)
    requires Good(e, s) && Feasible(s.mem[..], o.writes, e.vecs)
    modifies s`data, s`size, s`code, s`codes, s`log, s.mem, s.data
    ensures Good(e, s) && (s.data == old(s.data) || fresh(s.data)) && ok == o.ok
    ensures s.mem[..] == After(old(s.mem[..]), o.writes, e.vecs)
  {
    ghost var r := After(s.mem[..], o.writes, e.vecs);
    var ws := o.writes;
    while ws != []
      invariant Good(e, s) && (s.data == old(s.data) || fresh(s.data))
      invariant Feasible(s.mem[..], ws, e.vecs) && After(s.mem[..], ws, e.vecs) == r
      decreases |ws|
    {
      match ws[0] {
        case Cell(a, bs) => StoreCell(e, s, a, bs);
        case Element(i, bs) => Extend(e, s, i, bs);
      }
      ws := ws[1..];
    }
    ok := o.ok;
  }

  /** Opens a world for the first side of a choice, and carries it out. */
  method FirstSide(e: Solver, s: WorldStack, c: nat, jump: nat) returns (ok: bool)
    requires Good(e, s) && jump < LIMIT && Feasible(s.mem[..], e.branch(s.mem[..], c, true).writes, e.vecs)
    modifies s, s.mem, s.data
    ensures Good(e, s) && (s.data == old(s.data) || fresh(s.data))
    ensures var m := old(s.mem[..]); var o := e.branch(m, c, true);
            ok == o.ok && s.mem[..] == After(m, o.writes, e.vecs)
    ensures s.world == old(s.world) + 1 && s.initWorld == old(s.initWorld)
    ensures old(s.worlds) <= s.worlds && s.worlds[|old(s.worlds)|].mem == old(s.mem[..])
  {
    OpenKeeps(s.Now(), e.vecs, s.env, jump);
    s.NewWorld(jump, true);
    var m := s.mem[..];
    ok := Run(e, s, e.branch(m, c, true));
  }

  lemma BackTop(s0: State, s: State, vs: seq<Vec>, ws: seq<World>, m: seq<Byte>)
    requires Back(s0, s, vs) && |s.worlds| == |ws| < |s0.worlds| && ws <= s0.worlds && s0.worlds[|ws|].mem == m
    ensures s.worlds == ws && Recoverable(s, vs) && Layout(vs, |m|) && Agrees(s.mem, m, vs)
  {
    assert s0.worlds[..|ws|] == ws;
  }

  /** After a failure: the world of the first side is undone, all that was visible is back. */
  method Undo(e: Solver, s: WorldStack, ghost m: seq<Byte>, ghost ws: seq<World>)
    requires Good(e, s) && 0 < s.initWorld < s.world && |ws| == s.world - 1 && ws <= s.worlds && s.worlds[|ws|].mem == m
    modifies s, s.mem, s.data
    ensures Good(e, s) && (s.data == old(s.data) || fresh(s.data))
    ensures Layout(e.vecs, |m|) && Agrees(s.mem[..], m, e.vecs)
    ensures s.worlds == ws && s.world == |ws| && s.initWorld == old(s.initWorld)
  {
    ghost var s0 := s.Now();
    var target := s.Retreat(e.vecs);
    BackTop(s0, s.Now(), e.vecs, ws, m);
  }

  /**
   The search.  It stops at a leaf if and only if the store it starts from has a solution,
   unless the limit of backtracks is reached.
   */
  method Explore(e: Solver, s: WorldStack, jump: nat) returns (r: Result)
    requires Good(e, s) && Sound(e) && 0 < s.initWorld <= s.world && jump < LIMIT
    modifies s, s.mem, s.data
    ensures Good(e, s) && (s.data == old(s.data) || fresh(s.data)) && s.initWorld == old(s.initWorld)
    ensures old(s.worlds) <= s.worlds && (r.Failed? ==> s.world == old(s.world))
    ensures Settles(e, r, old(s.mem[..]), s.mem[..])
    ensures r.GaveUp? ==> s.backtracksRun >= s.backtrackLimit
    decreases e.rank(s.mem[..]), 3
  {
    var m := s.mem[..];
    SettledByPropagation(e, m, Failed, m);
    var ok := Run(e, s, e.propagate(m));
    r := Failed;
    if ok {
      r := Branch(e, s, jump);
    }
    SettledByPropagation(e, m, r, s.mem[..]);
  }

  /** The first side of a choice, and the search below it. */
  method TryFirst(e: Solver, s: WorldStack, jump: nat, c: nat) returns (r: Result)
    requires Good(e, s) && Sound(e) && 0 < s.initWorld <= s.world && jump < LIMIT && e.choose(s.mem[..]) == Some(c)
    modifies s, s.mem, s.data
    ensures Good(e, s) && (s.data == old(s.data) || fresh(s.data)) && s.initWorld == old(s.initWorld)
    ensures old(s.worlds) <= s.worlds
    ensures if r.Failed? then FirstFails(e, old(s.mem[..]), c) else Settles(e, r, old(s.mem[..]), s.mem[..])
    ensures r.Failed? ==> s.world == old(s.world) + 1 && s.worlds[|old(s.worlds)|].mem == old(s.mem[..])
    ensures r.GaveUp? ==> s.backtracksRun >= s.backtrackLimit
    decreases e.rank(s.mem[..]), 0
  {
    ghost var m := s.mem[..];
    SettledByFirst(e, m, Failed, m);
    r := Failed;
    var ok := FirstSide(e, s, c, jump);
    ghost var top := s.worlds[|old(s.worlds)|];
    if ok {
      r := Explore(e, s, jump);
      SettledByFirst(e, m, r, s.mem[..]);
      assert s.worlds[|old(s.worlds)|] == top;
    }
  }

  /** The rest of the search, once propagation has stopped. */
  method Branch(e: Solver, s: WorldStack, jump: nat) returns (r: Result)
    requires Good(e, s) && Sound(e) && 0 < s.initWorld <= s.world && jump < LIMIT
    modifies s, s.mem, s.data
    ensures Good(e, s) && (s.data == old(s.data) || fresh(s.data)) && s.initWorld == old(s.initWorld)
    ensures old(s.worlds) <= s.worlds && (r.Failed? ==> s.world == old(s.world))
    ensures Settles(e, r, old(s.mem[..]), s.mem[..])
    ensures r.GaveUp? ==> s.backtracksRun >= s.backtrackLimit
    decreases e.rank(s.mem[..]), 2
  {
    var m := s.mem[..];
    var c := e.choose(m);
    assert Ready(e, m);
    if c.None? {
      SettledAtLeaf(e, m);
      return Found;
    }
    r := TryFirst(e, s, jump, c.value);
    if r.Failed? {
      if s.backtracksRun >= s.backtrackLimit {
        r := GaveUp;
      } else {
        r := Retry(e, s, jump, c.value, m, old(s.worlds));
      }
    }
  }

  /** The second side of a choice whose first side has failed. */
  method Retry(e: Solver, s: WorldStack, jump: nat, c: nat, ghost m: seq<Byte>, ghost ws: seq<World>) returns (r: Result)
    requires Good(e, s) && Sound(e) && 0 < s.initWorld < s.world && jump < LIMIT
    requires |ws| == s.world - 1 && ws <= s.worlds && s.worlds[|ws|].mem == m
    requires Ready(e, m) && e.choose(m) == Some(c) && FirstFails(e, m, c)
    modifies s, s.mem, s.data
    ensures Good(e, s) && (s.data == old(s.data) || fresh(s.data)) && s.initWorld == old(s.initWorld)
    ensures ws <= s.worlds && (r.Failed? ==> s.world == |ws|)
    ensures Settles(e, r, m, s.mem[..])
    ensures r.GaveUp? ==> s.backtracksRun >= s.backtrackLimit
    decreases e.rank(m), 1
  {
    Undo(e, s, m, ws);
    r := Resume(e, s, jump, c, m);
  }

  /** Carries out the second side in the store that the first side started from, and searches below it. */
  method Resume(e: Solver, s: WorldStack, jump: nat, c: nat, ghost m: seq<Byte>) returns (r: Result)
    requires Good(e, s) && Sound(e) && 0 < s.initWorld <= s.world && jump < LIMIT
    requires Ready(e, m) && Agrees(s.mem[..], m, e.vecs) && e.choose(m) == Some(c) && FirstFails(e, m, c)
    modifies s, s.mem, s.data
    ensures Good(e, s) && (s.data == old(s.data) || fresh(s.data)) && s.initWorld == old(s.initWorld)
    ensures old(s.worlds) <= s.worlds && (r.Failed? ==> s.world == old(s.world))
    ensures Settles(e, r, m, s.mem[..])
    ensures r.GaveUp? ==> s.backtracksRun >= s.backtrackLimit
    decreases e.rank(m), 0
  {
    var back := s.mem[..];
    SettledBySecond(e, m, back, Failed, m);
    r := Failed;
    var ok := Run(e, s, e.branch(back, c, false));
    if ok {
      r := Explore(e, s, jump);
    }
    SettledBySecond(e, m, back, r, s.mem[..]);
  }

  /** Opens the initial world, above which a failure is final. */
  method OpenInitial(e: Solver, s: WorldStack, jump: nat)
    requires Good(e, s) && jump < LIMIT
    modifies s, s.data
    ensures Good(e, s) && (s.data == old(s.data) || fresh(s.data)) && s.mem[..] == old(s.mem[..])
    ensures 0 < s.initWorld == s.world == |old(s.worlds)| + 1 && old(s.worlds) <= s.worlds
    ensures s.worlds[|old(s.worlds)|].mem == s.mem[..]
  {
    OpenKeeps(s.Now(), e.vecs, s.env, jump);
    s.NewWorld(jump, false);
  }

  /** Undoes the initial world, and all that are still open above it once the search has given up. */
  method CloseInitial(e: Solver, s: WorldStack, ghost m: seq<Byte>, ghost ws: seq<World>)
    requires Good(e, s) && 0 < s.initWorld <= s.world && s.initWorld == |ws| + 1
    requires ws <= s.worlds && s.worlds[|ws|].mem == m && (s.world == s.initWorld || s.backtracksRun >= s.backtrackLimit)
    modifies s, s.mem, s.data
    ensures Good(e, s) && (s.data == old(s.data) || fresh(s.data))
    ensures s.worlds == ws && Layout(e.vecs, |m|) && Agrees(s.mem[..], m, e.vecs)
  {
    ghost var s0 := s.Now();
    var target := s.Contradiction(e.vecs);
    BackTop(s0, s.Now(), e.vecs, ws, m);
  }

  /**
   A search of its own.  A solution is found exactly if there is one, or the search gives up;
   without one the store is left as it was.
   */
  method Solve(e: Solver, s: WorldStack, jump: nat) returns (r: Result)
    requires Good(e, s) && Sound(e) && jump < LIMIT
    modifies s, s.mem, s.data
    ensures Good(e, s) && Settles(e, r, old(s.mem[..]), s.mem[..])
    ensures r.GaveUp? || (r.Found? <==> Solvable(e, old(s.mem[..])))
    ensures !r.Found? ==> s.worlds == old(s.worlds) && Agrees(s.mem[..], old(s.mem[..]), e.vecs)
  {
    ghost var m, ws := s.mem[..], s.worlds;
    OpenInitial(e, s, jump);
    r := Explore(e, s, jump);
    if !r.Found? {
      CloseInitial(e, s, m, ws);
    }
  }
}
