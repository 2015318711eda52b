/**
 The byte stack behind chronological backtracking: cells of one, two, four or eight bytes are
 pushed with their size and address, a new world pushes a jump target and a null address.
 */
module Trail {
  import opened Bytes
  import opened TrailLog

  const STACK_INC: nat := 100000

  class WorldStack {
    /** The memory of the program; address 0 is the null pointer. */
    const mem: array<Byte>
    var data: array<Byte>
    var size: nat
    var world: nat
    var initWorld: nat
    var env: nat
    var nodes: nat
    var nodesRun: nat
    var backtracks: nat
    var backtracksRun: nat
    var backtrackLimit: nat
    /** What is on the stack, and what was after each record. */
    ghost var code: seq<Byte>
    ghost var codes: seq<seq<Byte>>
    ghost var log: seq<Rec>
    ghost var worlds: seq<World>

    ghost function Now(): State
      reads this`log, this`worlds, mem
    {
      State(mem[..], log, worlds)
    }

    ghost predicate Held()
      reads this`data, this`size, this`code, data
    {
      mem != data && size <= data.Length && data[..size] == code
    }

    /** The stack holds exactly the bytes of the log. */
    ghost predicate Valid()
      reads this`data, this`size, this`code, this`codes, this`log, this`worlds, this`world, this`env, data
    {
      && Held() && mem.Length <= LIMIT && world == |worlds|
      && Logged(codes, log, worlds, env, mem.Length) && code == codes[|log|]
    }

    constructor (memory: array<Byte>)
      requires memory.Length <= LIMIT
      ensures Valid() && mem == memory && log == [] && worlds == [] && initWorld == 0 && fresh(data)
    {
      mem := memory;
      data := new Byte[0];
      size, world, initWorld, env := 0, 0, 0, 0;
      nodes, nodesRun := 0, 0;
      backtracks, backtracksRun, backtrackLimit := 0, 0, 0;
      code, codes, log, worlds := [], [[]], [], [];
    }

    /** Pushes one value, after more room has been allocated if there is none. */
    method Push(bs: seq<Byte>)
      requires Held() && |bs| <= STACK_INC
      modifies this`data, this`size, this`code, data
      ensures Held() && (data == old(data) || fresh(data)) && code == old(code) + bs
    {
      if size + |bs| > data.Length {
        Grow();
      }
      for i := 0 to |bs|
        invariant Held() && size + |bs| <= data.Length && (data == old(data) || fresh(data)) && code == old(code)
        invariant forall k :: 0 <= k < i ==> data[size + k] == bs[k]
      {
        data[size + i] := bs[i];
      }
      assert data[..size + |bs|] == data[..size] + bs;
      size := size + |bs|;
      code := code + bs;
    }

    method Grow()
      requires Held()
      modifies this`data
      ensures Held() && fresh(data) && data.Length == old(data.Length) + STACK_INC
    {
      var more := new Byte[data.Length + STACK_INC](_ => 0);
      for i := 0 to size
        invariant Held() && data == old(data)
        invariant forall k :: 0 <= k < i ==> more[k] == data[k]
      {
        more[i] := data[i];
      }
      assert more[..size] == data[..size];
      data := more;
    }

    method PushTwo(first: seq<Byte>, second: seq<Byte>)
      requires Held() && |first| <= 8 && |second| <= 8
      modifies this`data, this`size, this`code, data
      ensures Held() && (data == old(data) || fresh(data)) && code == old(code) + (first + second)
    {
      Push(first);
      Push(second);
      assert old(code) + first + second == old(code) + (first + second);
    }

    method PushThree(first: seq<Byte>, second: seq<Byte>, third: seq<Byte>)
      requires Held() && |first| <= 8 && |second| <= 1 && |third| <= 8
      modifies this`data, this`size, this`code, data
      ensures Held() && (data == old(data) || fresh(data)) && code == old(code) + (first + second + third)
    {
      Push(first);
      PushTwo(second, third);
      assert old(code) + first + (second + third) == old(code) + (first + second + third);
    }

    /** Pops a value of `n` bytes. */
    method Pop(n: nat) returns (bs: seq<Byte>)
      requires Held() && n <= size
      modifies this`size, this`code
      ensures Held() && |bs| == n && old(code) == code + bs && data == old(data)
    {
      size := size - n;
      bs := data[size..size + n];
      code := data[..size];
    }

    /** Pushes the cell at `a` with its size and address, once a world has been opened. */
    method Save(a: nat, n: nat)
      requires Valid() && 0 < a && a + n <= mem.Length && CellSize(n)
      modifies this`data, this`size, this`code, this`codes, this`log, data
      ensures Valid() && (data == old(data) || fresh(data)) && log == SavedLog(old(Now()), a, n)
    {
      if world > 0 {
        PushRecord(mem[a..a + n], [n], Low(a, 8), Saved(a, mem[a..a + n]));
      }
    }

    /** Pushes the three parts of a record. */
    method PushRecord(value: seq<Byte>, width: seq<Byte>, address: seq<Byte>, ghost r: Rec)
      requires Valid() && r.Saved? && Fits(r, mem.Length) && EncodeRec(r) == value + width + address
      requires |value| <= 8 && |width| <= 1 && |address| <= 8
      modifies this`data, this`size, this`code, this`codes, this`log, data
      ensures Valid() && (data == old(data) || fresh(data)) && log == old(log) + [r]
    {
      LoggedCell(codes, log, worlds, env, mem.Length, r);
      PushThree(value, width, address);
      log, codes := log + [r], codes + [code];
    }

    method WriteCell(a: nat, bs: seq<Byte>)
      requires a + |bs| <= mem.Length
      modifies mem
      ensures mem[..] == Overlay(old(mem[..]), a, bs)
    {
      for i := 0 to |bs|
        invariant forall k :: 0 <= k < mem.Length ==> mem[k] == if a <= k < a + i then bs[k - a] else old(mem[k])
      {
        mem[a + i] := bs[i];
      }
    }

    /** Writes a cell that can be restored. */
    method Store(a: nat, bs: seq<Byte>)
      requires Valid() && 0 < a && a + |bs| <= mem.Length && CellSize(|bs|)
      modifies this`data, this`size, this`code, this`codes, this`log, mem, data
      ensures Valid() && (data == old(data) || fresh(data)) && Now() == Stored(old(Now()), a, bs)
    {
      Save(a, |bs|);
      WriteCell(a, bs);
    }

    /** Appends an element to a vector: of what changes, only the count is saved. */
    method Append(v: Vec, bs: seq<Byte>)
      requires Valid() && |bs| == 8 && 0 < v.count && v.count + 8 <= mem.Length && NextSlot(mem[..], v) + 8 <= mem.Length
      modifies this`data, this`size, this`code, this`codes, this`log, mem, data
      ensures Valid() && (data == old(data) || fresh(data)) && Now() == Appended(old(Now()), v, bs)
    {
      Save(v.count, 8);
      WriteElement(v, bs);
    }

    method WriteElement(v: Vec, bs: seq<Byte>)
      requires |bs| == 8 && v.count + 8 <= mem.Length && NextSlot(mem[..], v) + 8 <= mem.Length
      modifies mem
      ensures mem[..] == AppendedMemory(old(mem[..]), v, bs)
    {
      ghost var m := mem[..];
      var c := Number(mem[v.count..v.count + 8]);
      assert m[v.count..v.count + 8] == mem[v.count..v.count + 8];
      WriteCell(v.base + 8 * c, bs);
      WriteCell(v.count, Low(c + 1, 8));
    }

    /** Opens a world; a failure in it will jump to `jump`. */
    method NewWorld(jump: nat, counted: bool)
      requires Valid() && jump < LIMIT
      modifies this`data, this`size, this`code, this`codes, this`log, this`env, this`world, this`worlds, this`initWorld, data
      modifies this`nodes, this`nodesRun
      ensures Valid() && (data == old(data) || fresh(data)) && env == jump && Now() == Opened(old(Now()), old(env), jump)
      ensures initWorld == if counted then old(initWorld) else world
      ensures var more := if counted then 1 else 0; nodes == old(nodes) + more && nodesRun == old(nodesRun) + more
    {
      OpenWorld(jump);
      CountWorld(counted);
    }

    method OpenWorld(jump: nat)
      requires Valid() && jump < LIMIT
      modifies this`data, this`size, this`code, this`codes, this`log, this`env, this`world, this`worlds, data
      ensures Valid() && (data == old(data) || fresh(data)) && env == jump && Now() == Opened(old(Now()), old(env), jump)
    {
      ghost var w := World(mem[..], env, jump, |log|);
      LoggedWorld(codes, log, worlds, env, mem.Length, w);
      PushTwo(Low(env, 8), Low(0, 8));
      log, codes, worlds := log + [Mark(env, |worlds|)], codes + [code], worlds + [w];
      env := jump;
      world := world + 1;
    }

    /** A counted world is a node of the search, any other the initial world. */
    method CountWorld(counted: bool)
      modifies this`nodes, this`nodesRun, this`initWorld
      ensures initWorld == if counted then old(initWorld) else world
      ensures var more := if counted then 1 else 0; nodes == old(nodes) + more && nodesRun == old(nodesRun) + more
    {
      if counted {
        nodes, nodesRun := nodes + 1, nodesRun + 1;
      } else {
        initWorld := world;
      }
    }

    method PopNumber() returns (n: nat)
      requires Held() && 8 <= size
      modifies this`size, this`code
      ensures Held() && n < LIMIT && old(code) == code + Low(n, 8) && data == old(data)
    {
      var bs := Pop(8);
      n := Number(bs);
      WordOfNumber(bs);
    }

    /** Pops a saved value back into its cell; its address has already been popped. */
    method RestoreCell(ptr: nat, ghost below: seq<Byte>, ghost bytes: seq<Byte>)
      requires Held() && code == below + bytes + [|bytes|]
      requires 0 < ptr && ptr + |bytes| <= mem.Length && CellSize(|bytes|)
      modifies this`size, this`code, mem
      ensures Held() && code == below && mem[..] == Overlay(old(mem[..]), ptr, bytes)
    {
      var n := Pop(1);
      SameEnd(below + bytes, [|bytes|], code, n);
      if CellSize(n[0]) {
        var bs := Pop(n[0]);
        SameEnd(below, bytes, code, bs);
        WriteCell(ptr, bs);
      }
    }

    /** Restores the cell at the top of the stack, and pops the next address. */
    method UndoOne(ptr: nat, ghost k: nat, ghost mems: seq<seq<Byte>>) returns (next: nat)
      requires Held() && Undoing(code, ptr, mem[..], k, log, codes, mems) && ptr != 0 && k > 0
      modifies this`size, this`code, mem
      ensures Held() && Undoing(code, next, mem[..], k - 1, log, codes, mems)
    {
      ghost var r := log[k];
      PoppedAddress(code, ptr, mem[..], k, log, codes, mems);
      RestoreCell(ptr, codes[k], r.bytes);
      LongEnough(codes, log, mem.Length, k);
      next := PopNumber();
    }

    /** Pops the saved cells down to the mark at `at`, and the null address above it. */
    method UndoCells(ghost at: nat, ghost mems: seq<seq<Byte>>) returns (ghost k: nat)
      requires Held() && Codes(codes, log, mem.Length) && code == codes[|log|] && mem.Length <= LIMIT
      requires Memories(mems, log, mem.Length) && mem[..] == mems[|log|] && at < |log| && log[at].Mark?
      modifies this`size, this`code, mem
      ensures Held() && at <= k && Undoing(code, 0, mem[..], k, log, codes, mems)
    {
      k := |log| - 1;
      LongEnough(codes, log, mem.Length, |log|);
      var ptr := PopNumber();
      while ptr != 0
        invariant at <= k && Held() && Undoing(code, ptr, mem[..], k, log, codes, mems)
        decreases k
      {
        PoppedAddress(code, ptr, mem[..], k, log, codes, mems);
        ptr := UndoOne(ptr, k, mems);
        k := k - 1;
      }
    }

    /** Restores the memory and the jump target as they were when the mark at `at` was pushed. */
    method UndoWorld(ghost at: nat, ghost mems: seq<seq<Byte>>)
      requires Held() && Codes(codes, log, mem.Length) && code == codes[|log|] && mem.Length <= LIMIT
      requires Memories(mems, log, mem.Length) && mem[..] == mems[|log|] && at < |log| && log[at].Mark?
      requires log[at].env < LIMIT && forall k :: at < k < |log| ==> log[k].Saved?
      modifies this`size, this`code, this`env, mem
      ensures Held() && code == codes[at] && env == log[at].env && mem[..] == mems[at]
    {
      ghost var k := UndoCells(at, mems);
      PoppedAddress(code, 0, mem[..], k, log, codes, mems);
      assert k == at && mem[..] == mems[at];
      assert code == codes[at] + Low(log[at].env, 8);
      env := PopNumber();
      SplitEnd(code, codes[at], env, log[at].env);
    }

    /** Undoes the last world and gives the target of the jump back into it. */
    method Backtrack() returns (target: nat)
      requires Valid() && world > 0
      modifies this`size, this`code, this`codes, this`log, this`env, this`world, this`worlds, mem
      ensures Valid() && Now() == Closed(old(Now())) && target == old(env) && env == old(worlds[world - 1].outer)
    {
      target := env;
      ghost var w, s := worlds[world - 1], Closed(Now());
      ghost var codes' := codes[..w.at + 1];
      ghost var mems := Closing(codes, log, worlds, env, mem[..]);
      UndoWorld(w.at, mems);
      Forget(s, codes');
    }

    /** Brings the ghost state and the count of worlds in line with the memory. */
    method Forget(ghost s: State, ghost codes': seq<seq<Byte>>)
      requires Held() && mem[..] == s.mem && mem.Length <= LIMIT && world > 0 && |s.worlds| == world - 1
      requires Logged(codes', s.log, s.worlds, env, mem.Length) && code == codes'[|s.log|]
      modifies this`codes, this`log, this`world, this`worlds
      ensures Valid() && Now() == s
    {
      log, codes, worlds := s.log, codes', s.worlds;
      world := world - 1;
    }

    /**
     Undoes all worlds above the first `w`.  What was visible when the last of them was opened
     is back, whatever was stored, appended, opened and undone in between.
     */
    method RestoreWorld(w: nat, ghost vs: seq<Vec>) returns (target: nat)
      requires Valid() && Recoverable(Now(), vs)
      modifies this`size, this`code, this`codes, this`log, this`env, this`world, this`worlds, mem
      ensures Valid() && Back(old(Now()), Now(), vs) && world == if w < old(world) then w else old(world)
      ensures w < old(world) ==> env == old(worlds)[w].outer && target == old(worlds)[w].jump
      ensures w >= old(world) ==> env == old(env)
    {
      ghost var s0 := Now();
      target := env;
      while world > w
        invariant Valid() && Back(s0, Now(), vs) && (world >= w || world == old(world))
        invariant env == if world < old(world) then s0.worlds[world].outer else old(env)
        invariant world < old(world) ==> target == s0.worlds[world].jump
      {
        target := BacktrackOnce(s0, vs);
      }
    }

    method BacktrackOnce(ghost s0: State, ghost vs: seq<Vec>) returns (target: nat)
      requires Valid() && world > 0 && Back(s0, Now(), vs)
      modifies this`size, this`code, this`codes, this`log, this`env, this`world, this`worlds, mem
      ensures Valid() && Back(s0, Now(), vs) && world == old(world) - 1 && target == old(env)
      ensures env == s0.worlds[world].outer && target == s0.worlds[world].jump
    {
      BackStep(s0, Now(), vs);
      assert worlds[world - 1].jump == env && worlds[world - 1] == s0.worlds[world - 1];
      target := Backtrack();
    }

    /** The backtrack out of the initial world does not count. */
    method CountBacktrack()
      modifies this`backtracks, this`backtracksRun
      ensures var more := if world > initWorld then 1 else 0;
              backtracks == old(backtracks) + more && backtracksRun == old(backtracksRun) + more
    {
      if world > initWorld {
        backtracks := backtracks + 1;
        backtracksRun := backtracksRun + 1;
      }
    }

    /** A failure before: the last world is undone. */
    method Retreat(ghost vs: seq<Vec>) returns (target: nat)
      requires Valid() && Recoverable(Now(), vs) && 0 < initWorld <= world
      modifies this`size, this`code, this`codes, this`log, this`env, this`world, this`worlds
      modifies this`backtracks, this`backtracksRun, mem
      ensures Valid() && Back(old(Now()), Now(), vs) && world == old(world) - 1
      ensures target == old(worlds)[world].jump && env == old(worlds)[world].outer
      ensures var more := if old(world) > initWorld then 1 else 0;
              backtracks == old(backtracks) + more && backtracksRun == old(backtracksRun) + more
    {
      ghost var s0 := Now();
      CountBacktrack();
      BackSelf(s0, vs);
      target := BacktrackOnce(s0, vs);
    }

    /**
     A failure: past the limit of backtracks, all worlds from the initial one on are undone.
     The jump goes to where the world that is undone last was opened.
     */
    method Contradiction(ghost vs: seq<Vec>) returns (target: nat)
      requires Valid() && Recoverable(Now(), vs) && 0 < initWorld <= world
      modifies this`size, this`code, this`codes, this`log, this`env, this`world, this`worlds
      modifies this`backtracks, this`backtracksRun, mem
      ensures Valid() && Back(old(Now()), Now(), vs)
      ensures world == (if old(backtracksRun >= backtrackLimit) then initWorld else old(world)) - 1
      ensures target == old(worlds)[world].jump && env == old(worlds)[world].outer
      ensures var more := if old(backtracksRun >= backtrackLimit || world == initWorld) then 0 else 1;
              backtracks == old(backtracks) + more && backtracksRun == old(backtracksRun) + more
    {
      if backtracksRun >= backtrackLimit {
        target := RestoreWorld(initWorld - 1, vs);
      } else {
        target := Retreat(vs);
      }
    }
  }
}
