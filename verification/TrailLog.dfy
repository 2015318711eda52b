/**
 The undo log of the constraint solver: what is on the byte stack, what undoing it gives, and
 in which sense this brings back the memory of an earlier world.
 */
module TrailLog {
  import opened Bytes

  /** A saved cell, or the mark of the world `level`, which holds the jump target of the world below. */
  datatype Rec = Saved(addr: nat, bytes: seq<Byte>) | Mark(env: nat, level: nat)

  predicate Fits(r: Rec, n: nat) {
    match r
    case Saved(a, bs) => 0 < a && a + |bs| <= n && CellSize(|bs|)
    case Mark(env, _) => env < LIMIT
  }

  predicate InRange(log: seq<Rec>, n: nat) {
    forall k :: 0 <= k < |log| ==> Fits(log[k], n)
  }

  /** The bytes of one record, in the order in which they are pushed. */
  function EncodeRec(r: Rec): seq<Byte>
    requires r.Saved? ==> |r.bytes| < 256
  {
    match r
    case Saved(a, bs) => bs + [|bs|] + Low(a, 8)
    case Mark(env, _) => Low(env, 8) + Low(0, 8)
  }

  /** `codes[k]` is the stack after the first `k` records have been pushed. */
  ghost predicate Codes(codes: seq<seq<Byte>>, log: seq<Rec>, n: nat) {
    && InRange(log, n) && |codes| == |log| + 1 && codes[0] == []
    && forall k, l :: 0 <= k < |log| && l == k + 1 ==> codes[l] == codes[k] + EncodeRec(log[k])
  }

  predicate SamePrefix(log: seq<Rec>, log': seq<Rec>, k: nat) {
    k <= |log| && k <= |log'| && forall i :: 0 <= i < k ==> log[i] == log'[i]
  }

  lemma SameEnd(x: seq<Byte>, u: seq<Byte>, y: seq<Byte>, v: seq<Byte>)
    requires x + u == y + v && |u| == |v|
    ensures x == y && u == v
  {
    assert x == (x + u)[..|x|] && u == (x + u)[|x|..];
    assert y == (y + v)[..|y|] && v == (y + v)[|y|..];
  }

  lemma Regroup(x: seq<Byte>, y: seq<Byte>, z: seq<Byte>)
    ensures x + (y + z) == x + y + z
  {
  }

  lemma SplitEnd(x: seq<Byte>, y: seq<Byte>, p: nat, q: nat)
    requires p < LIMIT && q < LIMIT && x + Low(p, 8) == y + Low(q, 8)
    ensures x == y && p == q
  {
    SameEnd(x, Low(p, 8), y, Low(q, 8));
    NumberOfWord(p);
    NumberOfWord(q);
  }

  lemma LastSaved(code: seq<Byte>, ptr: nat, below: seq<Byte>, r: Rec)
    requires r.Saved? && r.addr < LIMIT && |r.bytes| < 256 && ptr < LIMIT && code + Low(ptr, 8) == below + EncodeRec(r)
    ensures ptr == r.addr && code == below + r.bytes + [|r.bytes|]
  {
    Regroup(below, r.bytes + [|r.bytes|], Low(r.addr, 8));
    Regroup(below, r.bytes, [|r.bytes|]);
    SplitEnd(code, below + r.bytes + [|r.bytes|], ptr, r.addr);
  }

  lemma LastMark(code: seq<Byte>, ptr: nat, below: seq<Byte>, r: Rec)
    requires r.Mark? && ptr < LIMIT && code + Low(ptr, 8) == below + EncodeRec(r)
    ensures ptr == 0 && code == below + Low(r.env, 8)
  {
    Regroup(below, Low(r.env, 8), Low(0, 8));
    SplitEnd(code, below + Low(r.env, 8), ptr, 0);
  }

  /** The memory after one record has been undone. */
  function Undone(m: seq<Byte>, r: Rec): (u: seq<Byte>)
    requires Fits(r, |m|)
    ensures |u| == |m|
  {
    if r.Saved? then Overlay(m, r.addr, r.bytes) else m
  }

  /** The memory after the records of the log from position `hi` down to `at` are undone. */
  function Unwind(m: seq<Byte>, log: seq<Rec>, hi: nat, at: nat): (r: seq<Byte>)
    requires InRange(log, |m|) && hi <= |log|
    ensures |r| == |m|
    decreases hi
  {
    if hi <= at then m
    else Unwind(Undone(m, log[hi - 1]), log, hi - 1, at)
  }

  lemma {:induction false} UnwindPrefix(m: seq<Byte>, log: seq<Rec>, log': seq<Rec>, hi: nat, at: nat)
    requires InRange(log, |m|) && InRange(log', |m|) && SamePrefix(log, log', hi)
    ensures Unwind(m, log, hi, at) == Unwind(m, log', hi, at)
    decreases hi
  {
    if hi > at {
      UnwindPrefix(Undone(m, log[hi - 1]), log, log', hi - 1, at);
    }
  }

  lemma {:induction false} UnwindSplit(m: seq<Byte>, log: seq<Rec>, hi: nat, i: nat, j: nat)
    requires InRange(log, |m|) && i <= j <= hi <= |log|
    ensures Unwind(m, log, hi, i) == Unwind(Unwind(m, log, hi, j), log, j, i)
    decreases hi
  {
    if j < hi {
      UnwindSplit(Undone(m, log[hi - 1]), log, hi - 1, i, j);
    }
  }

  /** Memories that differ only in a stretch still do so after the same undoing. */
  lemma {:induction false} UnwindPatch(m: seq<Byte>, m': seq<Byte>, log: seq<Rec>, top: nat, at: nat, lo: nat, hi: nat)
    requires |m| == |m'| && InRange(log, |m|) && top <= |log|
    requires forall i :: 0 <= i < |m| && !(lo <= i < hi) ==> m[i] == m'[i]
    ensures forall i :: 0 <= i < |m| && !(lo <= i < hi) ==> Unwind(m, log, top, at)[i] == Unwind(m', log, top, at)[i]
    decreases top
  {
    if top > at {
      UnwindPatch(Undone(m, log[top - 1]), Undone(m', log[top - 1]), log, top - 1, at, lo, hi);
    }
  }

  // ----- vectors that only grow

  /** A vector of eight-byte elements with its eight-byte element count. */
  datatype Vec = Vec(count: nat, base: nat, cap: nat)

  predicate Apart(a: nat, n: nat, b: nat, k: nat) {
    a + n <= b || b + k <= a
  }

  /** No vector shares memory with another one, nor a count with an element. */
  ghost predicate Layout(vs: seq<Vec>, n: nat) {
    && (forall i :: 0 <= i < |vs| ==> 0 < vs[i].count && vs[i].count + 8 <= n && vs[i].base + 8 * vs[i].cap <= n)
    && (forall i, j :: 0 <= i < |vs| && 0 <= j < |vs| ==> Apart(vs[i].count, 8, vs[j].base, 8 * vs[j].cap))
    && (forall i, j :: 0 <= i < |vs| && 0 <= j < |vs| && i != j ==> Apart(vs[i].count, 8, vs[j].count, 8))
    && (forall i, j :: 0 <= i < |vs| && 0 <= j < |vs| && i != j ==>
          Apart(vs[i].base, 8 * vs[i].cap, vs[j].base, 8 * vs[j].cap))
  }

  function Count(m: seq<Byte>, v: Vec): nat
    requires v.count + 8 <= |m|
  {
    Number(m[v.count..v.count + 8])
  }

  /** The address of the next element. */
  function NextSlot(m: seq<Byte>, v: Vec): nat
    requires v.count + 8 <= |m|
  {
    v.base + 8 * Count(m, v)
  }

  /** The visible elements of a vector. */
  function Elements(m: seq<Byte>, v: Vec): seq<Byte>
    requires v.count + 8 <= |m| && v.base + 8 * Count(m, v) <= |m|
  {
    m[v.base..v.base + 8 * Count(m, v)]
  }

  /** Address `a` lies in a vector, beyond its last element. */
  ghost predicate Hidden(m: seq<Byte>, vs: seq<Vec>, a: nat)
    requires Layout(vs, |m|)
  {
    exists i :: 0 <= i < |vs| && vs[i].base + 8 * Count(m, vs[i]) <= a < vs[i].base + 8 * vs[i].cap
  }

  /** `m` holds all that is visible in `w`. */
  ghost predicate Agrees(m: seq<Byte>, w: seq<Byte>, vs: seq<Vec>)
    requires Layout(vs, |w|)
  {
    |m| == |w| && forall a :: 0 <= a < |w| && !Hidden(w, vs, a) ==> m[a] == w[a]
  }

  ghost predicate CountsGrow(w: seq<Byte>, m: seq<Byte>, vs: seq<Vec>)
    requires |w| == |m| && Layout(vs, |m|)
  {
    forall i :: 0 <= i < |vs| ==> Count(w, vs[i]) <= Count(m, vs[i])
  }

  /** Counts, and the elements they cover, are visible. */
  lemma VisibleVector(m: seq<Byte>, w: seq<Byte>, vs: seq<Vec>, i: nat)
    requires Layout(vs, |w|) && Agrees(m, w, vs) && i < |vs|
    ensures Count(m, vs[i]) == Count(w, vs[i])
    ensures Count(w, vs[i]) <= vs[i].cap ==> Elements(m, vs[i]) == Elements(w, vs[i])
  {
    var v := vs[i];
    forall a: nat | v.count <= a < v.count + 8 ensures m[a] == w[a] {
      forall j | 0 <= j < |vs| ensures !(vs[j].base + 8 * Count(w, vs[j]) <= a < vs[j].base + 8 * vs[j].cap) {
        assert Apart(vs[i].count, 8, vs[j].base, 8 * vs[j].cap);
      }
      assert !Hidden(w, vs, a);
    }
    assert m[v.count..v.count + 8] == w[v.count..v.count + 8];
    if Count(w, v) <= v.cap {
      forall a: nat | v.base <= a < v.base + 8 * Count(w, v) ensures m[a] == w[a] {
        forall j | 0 <= j < |vs| ensures !(vs[j].base + 8 * Count(w, vs[j]) <= a < vs[j].base + 8 * vs[j].cap) {
          assert i != j ==> Apart(vs[i].base, 8 * vs[i].cap, vs[j].base, 8 * vs[j].cap);
        }
        assert !Hidden(w, vs, a);
      }
    }
  }

  // ----- worlds

  /** The memory when a world was opened, the jump target it saved and its own, and its mark in the log. */
  datatype World = World(mem: seq<Byte>, outer: nat, jump: nat, at: nat)

  /** The memory, the log and the open worlds. */
  datatype State = State(mem: seq<Byte>, log: seq<Rec>, worlds: seq<World>)

  /** The marks in the log are those of the worlds, in order. */
  ghost predicate Marked(log: seq<Rec>, ws: seq<World>) {
    && (forall i :: 0 <= i < |ws| ==> ws[i].at < |log| && log[ws[i].at] == Mark(ws[i].outer, i))
    && (forall i, j :: 0 <= i < j < |ws| ==> ws[i].at < ws[j].at)
    && (forall k :: 0 <= k < |log| && log[k].Mark? ==> log[k].level < |ws| && ws[log[k].level].at == k)
  }

  predicate CellSize(n: nat) {
    n in {1, 2, 4, 8}
  }

  /** The log once the cell at `a` has been saved: nothing is saved outside of all worlds. */
  function SavedLog(s: State, a: nat, n: nat): seq<Rec>
    requires a + n <= |s.mem|
  {
    if s.worlds == [] then s.log else s.log + [Saved(a, s.mem[a..a + n])]
  }

  function Stored(s: State, a: nat, bs: seq<Byte>): State
    requires a + |bs| <= |s.mem|
  {
    State(Overlay(s.mem, a, bs), SavedLog(s, a, |bs|), s.worlds)
  }

  function AppendedMemory(m: seq<Byte>, v: Vec, bs: seq<Byte>): (r: seq<Byte>)
    requires v.count + 8 <= |m| && NextSlot(m, v) + |bs| <= |m|
    ensures |r| == |m|
  {
    Overlay(Overlay(m, NextSlot(m, v), bs), v.count, Low(Count(m, v) + 1, 8))
  }

  function Appended(s: State, v: Vec, bs: seq<Byte>): State
    requires v.count + 8 <= |s.mem| && NextSlot(s.mem, v) + |bs| <= |s.mem|
  {
    State(AppendedMemory(s.mem, v, bs), SavedLog(s, v.count, 8), s.worlds)
  }

  function Opened(s: State, outer: nat, jump: nat): State {
    State(s.mem, s.log + [Mark(outer, |s.worlds|)], s.worlds + [World(s.mem, outer, jump, |s.log|)])
  }

  /** The last world is undone. */
  function Closed(s: State): State
    requires InRange(s.log, |s.mem|) && s.worlds != [] && s.worlds[|s.worlds| - 1].at <= |s.log|
  {
    var w := s.worlds[|s.worlds| - 1];
    State(Unwind(s.mem, s.log, |s.log|, w.at), s.log[..w.at], s.worlds[..|s.worlds| - 1])
  }

  // ----- what keeps the worlds recoverable

  ghost predicate WorldKept(m: seq<Byte>, log: seq<Rec>, w: World, vs: seq<Vec>)
    requires Layout(vs, |m|) && InRange(log, |m|)
  {
    |w.mem| == |m| && Agrees(Unwind(m, log, |log|, w.at), w.mem, vs) && CountsGrow(w.mem, m, vs)
  }

  ghost predicate AllKept(m: seq<Byte>, log: seq<Rec>, ws: seq<World>, vs: seq<Vec>)
    requires Layout(vs, |m|) && InRange(log, |m|)
  {
    forall i :: 0 <= i < |ws| ==> WorldKept(m, log, ws[i], vs)
  }

  /** No vector shrinks from a world to a later one. */
  ghost predicate Chain(ws: seq<World>, n: nat, vs: seq<Vec>)
    requires Layout(vs, n)
  {
    && (forall i :: 0 <= i < |ws| ==> |ws[i].mem| == n)
    && (forall i, j :: 0 <= i < j < |ws| ==> CountsGrow(ws[i].mem, ws[j].mem, vs))
  }

  /** From its memory and log, every open world of `s` can be brought back. */
  ghost predicate Recoverable(s: State, vs: seq<Vec>) {
    && Layout(vs, |s.mem|) && InRange(s.log, |s.mem|) && Marked(s.log, s.worlds)
    && AllKept(s.mem, s.log, s.worlds, vs) && Chain(s.worlds, |s.mem|, vs)
  }

  ghost predicate OffVectors(a: nat, n: nat, vs: seq<Vec>) {
    forall i :: 0 <= i < |vs| ==> Apart(a, n, vs[i].count, 8) && Apart(a, n, vs[i].base, 8 * vs[i].cap)
  }

  lemma OverlayBack(m: seq<Byte>, a: nat, bs: seq<Byte>)
    requires a + |bs| <= |m|
    ensures Overlay(Overlay(m, a, bs), a, m[a..a + |bs|]) == m
  {
  }

  lemma CountsUntouched(m: seq<Byte>, a: nat, bs: seq<Byte>, vs: seq<Vec>)
    requires Layout(vs, |m|) && a + |bs| <= |m| && forall i :: 0 <= i < |vs| ==> Apart(a, |bs|, vs[i].count, 8)
    ensures forall i :: 0 <= i < |vs| ==> Count(Overlay(m, a, bs), vs[i]) == Count(m, vs[i])
  {
    forall i | 0 <= i < |vs| ensures Count(Overlay(m, a, bs), vs[i]) == Count(m, vs[i]) {
      assert Overlay(m, a, bs)[vs[i].count..vs[i].count + 8] == m[vs[i].count..vs[i].count + 8];
    }
  }

  /** A write that is logged is undone first. */
  lemma LoggedWrite(m: seq<Byte>, log: seq<Rec>, w: World, vs: seq<Vec>, a: nat, bs: seq<Byte>)
    requires Layout(vs, |m|) && InRange(log, |m|) && WorldKept(m, log, w, vs) && w.at <= |log|
    requires 0 < a && a + |bs| <= |m| && CellSize(|bs|) && CountsGrow(m, Overlay(m, a, bs), vs)
    ensures WorldKept(Overlay(m, a, bs), log + [Saved(a, m[a..a + |bs|])], w, vs)
  {
    var m', log' := Overlay(m, a, bs), log + [Saved(a, m[a..a + |bs|])];
    OverlayBack(m, a, bs);
    UnwindPrefix(m, log', log, |log|, w.at);
    assert Unwind(m', log', |log'|, w.at) == Unwind(m, log', |log|, w.at);
  }

  lemma MarkedStays(log: seq<Rec>, ws: seq<World>, r: Rec)
    requires Marked(log, ws) && r.Saved?
    ensures Marked(log + [r], ws)
  {
  }

  /** A logged write that lowers no count keeps every world. */
  lemma LoggedWriteKeeps(s: State, vs: seq<Vec>, a: nat, bs: seq<Byte>)
    requires Recoverable(s, vs) && 0 < a && a + |bs| <= |s.mem| && CellSize(|bs|)
    requires CountsGrow(s.mem, Overlay(s.mem, a, bs), vs)
    ensures Recoverable(Stored(s, a, bs), vs)
  {
    MarkedStays(s.log, s.worlds, Saved(a, s.mem[a..a + |bs|]));
    forall i | 0 <= i < |s.worlds| ensures WorldKept(Overlay(s.mem, a, bs), SavedLog(s, a, |bs|), s.worlds[i], vs) {
      LoggedWrite(s.mem, s.log, s.worlds[i], vs, a, bs);
    }
  }

  /** Saving a cell off the vectors and writing it keeps every world. */
  lemma StoreKeeps(s: State, vs: seq<Vec>, a: nat, bs: seq<Byte>)
    requires Recoverable(s, vs) && 0 < a && a + |bs| <= |s.mem| && CellSize(|bs|) && OffVectors(a, |bs|, vs)
    ensures Recoverable(Stored(s, a, bs), vs)
  {
    CountsUntouched(s.mem, a, bs, vs);
    LoggedWriteKeeps(s, vs, a, bs);
  }

  lemma HiddenWriteKeepsWorld(m: seq<Byte>, m': seq<Byte>, log: seq<Rec>, w: World, vs: seq<Vec>, i: nat, bs: seq<Byte>)
    requires Layout(vs, |m|) && InRange(log, |m|) && WorldKept(m, log, w, vs)
    requires i < |vs| && |bs| == 8 && Count(m, vs[i]) < vs[i].cap && m' == Overlay(m, NextSlot(m, vs[i]), bs)
    requires forall j :: 0 <= j < |vs| ==> Count(m', vs[j]) == Count(m, vs[j])
    ensures WorldKept(m', log, w, vs)
  {
    var a := NextSlot(m, vs[i]);
    UnwindPatch(m, m', log, |log|, w.at, a, a + 8);
    forall b | 0 <= b < |w.mem| && !Hidden(w.mem, vs, b) ensures Unwind(m', log, |log|, w.at)[b] == w.mem[b] {
      assert Count(w.mem, vs[i]) <= Count(m, vs[i]);
      assert !(a <= b < a + 8);
    }
  }

  lemma HiddenWriteCounts(m: seq<Byte>, vs: seq<Vec>, i: nat, bs: seq<Byte>)
    requires Layout(vs, |m|) && i < |vs| && |bs| == 8 && Count(m, vs[i]) < vs[i].cap
    ensures forall j :: 0 <= j < |vs| ==> Count(Overlay(m, NextSlot(m, vs[i]), bs), vs[j]) == Count(m, vs[j])
  {
    forall j | 0 <= j < |vs| ensures Apart(NextSlot(m, vs[i]), |bs|, vs[j].count, 8) {
      assert Apart(vs[j].count, 8, vs[i].base, 8 * vs[i].cap);
    }
    CountsUntouched(m, NextSlot(m, vs[i]), bs, vs);
  }

  /** Writing where every world is blind, unlogged, keeps every world. */
  lemma HiddenWriteKeeps(s: State, vs: seq<Vec>, i: nat, bs: seq<Byte>)
    requires Recoverable(s, vs) && i < |vs| && |bs| == 8 && Count(s.mem, vs[i]) < vs[i].cap
    ensures Recoverable(State(Overlay(s.mem, NextSlot(s.mem, vs[i]), bs), s.log, s.worlds), vs)
  {
    var m' := Overlay(s.mem, NextSlot(s.mem, vs[i]), bs);
    HiddenWriteCounts(s.mem, vs, i, bs);
    forall k | 0 <= k < |s.worlds| ensures WorldKept(m', s.log, s.worlds[k], vs) {
      HiddenWriteKeepsWorld(s.mem, m', s.log, s.worlds[k], vs, i, bs);
    }
  }

  lemma CountUp(m: seq<Byte>, vs: seq<Vec>, i: nat)
    requires Layout(vs, |m|) && i < |vs| && Count(m, vs[i]) + 1 < LIMIT
    ensures var m' := Overlay(m, vs[i].count, Low(Count(m, vs[i]) + 1, 8));
            forall j :: 0 <= j < |vs| ==> Count(m', vs[j]) == Count(m, vs[j]) + if i == j then 1 else 0
  {
    var a, bs := vs[i].count, Low(Count(m, vs[i]) + 1, 8);
    var m' := Overlay(m, a, bs);
    NumberOfWord(Count(m, vs[i]) + 1);
    assert m'[a..a + 8] == bs;
    forall j | 0 <= j < |vs| && i != j ensures Count(m', vs[j]) == Count(m, vs[j]) {
      assert m'[vs[j].count..vs[j].count + 8] == m[vs[j].count..vs[j].count + 8];
    }
  }

  lemma SlotWrite(m: seq<Byte>, v: Vec, bs: seq<Byte>, m1: seq<Byte>)
    requires v.count + 8 <= |m| && v.base + 8 * v.cap <= |m| && Apart(v.count, 8, v.base, 8 * v.cap)
    requires |bs| == 8 && Count(m, v) < v.cap && m1 == Overlay(m, NextSlot(m, v), bs)
    ensures m1[v.count..v.count + 8] == m[v.count..v.count + 8]
  {
  }

  /** An append in a memory where the vector stands on its own. */
  lemma AppendMemory(m: seq<Byte>, v: Vec, bs: seq<Byte>, m1: seq<Byte>, m2: seq<Byte>)
    requires v.count + 8 <= |m| <= LIMIT && v.base + 8 * v.cap <= |m| && Apart(v.count, 8, v.base, 8 * v.cap)
    requires |bs| == 8 && Count(m, v) < v.cap && m1 == Overlay(m, NextSlot(m, v), bs)
    requires m2 == Overlay(m1, v.count, Low(Count(m, v) + 1, 8))
    ensures Count(m2, v) == Count(m, v) + 1 && Elements(m2, v) == Elements(m, v) + bs
  {
    NumberOfWord(Count(m, v) + 1);
    AppendWord(m, v, bs, m1, m2, Low(Count(m, v) + 1, 8));
  }

  lemma AppendWord(m: seq<Byte>, v: Vec, bs: seq<Byte>, m1: seq<Byte>, m2: seq<Byte>, cs: seq<Byte>)
    requires v.count + 8 <= |m| && v.base + 8 * v.cap <= |m| && Apart(v.count, 8, v.base, 8 * v.cap)
    requires |bs| == |cs| == 8 && Count(m, v) < v.cap && Number(cs) == Count(m, v) + 1
    requires m1 == Overlay(m, NextSlot(m, v), bs) && m2 == Overlay(m1, v.count, cs)
    ensures Count(m2, v) == Count(m, v) + 1 && Elements(m2, v) == Elements(m, v) + bs
  {
    WrittenStretch(m1, v.count, cs);
    AppendedBytes(m, v, Count(m, v), bs, m1, m2, cs);
  }

  /** What is appended, whatever number stands for the count. */
  lemma AppendedBytes(m: seq<Byte>, v: Vec, c: nat, bs: seq<Byte>, m1: seq<Byte>, m2: seq<Byte>, cs: seq<Byte>)
    requires v.count + 8 <= |m| && v.base + 8 * v.cap <= |m| && Apart(v.count, 8, v.base, 8 * v.cap)
    requires |bs| == |cs| == 8 && c < v.cap && m1 == Overlay(m, v.base + 8 * c, bs) && m2 == Overlay(m1, v.count, cs)
    ensures m2[v.base..v.base + 8 * (c + 1)] == m[v.base..v.base + 8 * c] + bs
  {
    var end := v.base + 8 * c;
    assert end + 8 <= v.base + 8 * v.cap;
    AppendStretch(m, v.base, end, bs, v.count, cs);
  }

  lemma WrittenStretch(m: seq<Byte>, a: nat, bs: seq<Byte>)
    requires a + |bs| <= |m|
    ensures Overlay(m, a, bs)[a..a + |bs|] == bs
  {
  }

  lemma AppendStretch(m: seq<Byte>, b: nat, a: nat, bs: seq<Byte>, k: nat, cs: seq<Byte>)
    requires b <= a && a + 8 <= |m| && k + 8 <= |m| && |bs| == |cs| == 8 && (k + 8 <= b || a + 8 <= k)
    ensures Overlay(Overlay(m, a, bs), k, cs)[b..a + 8] == m[b..a] + bs
  {
  }

  lemma CountUpGrows(m: seq<Byte>, vs: seq<Vec>, i: nat)
    requires Layout(vs, |m|) && i < |vs| && Count(m, vs[i]) + 1 < LIMIT
    ensures CountsGrow(m, Overlay(m, vs[i].count, Low(Count(m, vs[i]) + 1, 8)), vs)
  {
    CountUp(m, vs, i);
  }

  /** An append is a write past the count, and then a saved write of the count. */
  lemma StoredIsAppended(s: State, m1: seq<Byte>, v: Vec, bs: seq<Byte>)
    requires 0 < v.count && v.count + 8 <= |s.mem| && NextSlot(s.mem, v) + |bs| <= |s.mem| && m1 == Overlay(s.mem, NextSlot(s.mem, v), bs)
    requires m1[v.count..v.count + 8] == s.mem[v.count..v.count + 8]
    ensures Stored(State(m1, s.log, s.worlds), v.count, Low(Count(m1, v) + 1, 8)) == Appended(s, v, bs)
  {
  }

  /** An append, once its slot has been overwritten. */
  lemma AppendCount(s: State, m1: seq<Byte>, vs: seq<Vec>, i: nat, bs: seq<Byte>)
    requires Recoverable(State(m1, s.log, s.worlds), vs) && Layout(vs, |s.mem|) && i < |vs| && |bs| == 8
    requires Count(s.mem, vs[i]) < vs[i].cap && |s.mem| <= LIMIT
    requires m1 == Overlay(s.mem, NextSlot(s.mem, vs[i]), bs)
    ensures Recoverable(Appended(s, vs[i], bs), vs)
  {
    var v, s1 := vs[i], State(m1, s.log, s.worlds);
    SlotWrite(s.mem, v, bs, m1);
    CountUpGrows(m1, vs, i);
    LoggedWriteKeeps(s1, vs, v.count, Low(Count(m1, v) + 1, 8));
    StoredIsAppended(s, m1, v, bs);
  }

  /** Appending an element: its slot is overwritten unsaved, the count is saved and raised. */
  lemma AppendKeeps(s: State, vs: seq<Vec>, i: nat, bs: seq<Byte>)
    requires Recoverable(s, vs) && i < |vs| && |bs| == 8 && Count(s.mem, vs[i]) < vs[i].cap && |s.mem| <= LIMIT
    ensures Recoverable(Appended(s, vs[i], bs), vs)
  {
    HiddenWriteKeeps(s, vs, i, bs);
    AppendCount(s, Overlay(s.mem, NextSlot(s.mem, vs[i]), bs), vs, i, bs);
  }

  /** The visible elements after an append. */
  lemma AppendedElements(s: State, vs: seq<Vec>, i: nat, bs: seq<Byte>)
    requires Layout(vs, |s.mem|) && i < |vs| && |bs| == 8 && Count(s.mem, vs[i]) < vs[i].cap && |s.mem| <= LIMIT
    ensures Count(Appended(s, vs[i], bs).mem, vs[i]) == Count(s.mem, vs[i]) + 1
    ensures Elements(Appended(s, vs[i], bs).mem, vs[i]) == Elements(s.mem, vs[i]) + bs
  {
    var v := vs[i];
    assert Apart(v.count, 8, v.base, 8 * v.cap);
    AppendMemory(s.mem, v, bs, Overlay(s.mem, NextSlot(s.mem, v), bs), Appended(s, v, bs).mem);
  }

  lemma MarkedMore(log: seq<Rec>, ws: seq<World>, w: World)
    requires Marked(log, ws) && w.at == |log|
    ensures Marked(log + [Mark(w.outer, |ws|)], ws + [w])
  {
  }

  lemma MarkedLess(log: seq<Rec>, ws: seq<World>)
    requires Marked(log, ws) && ws != []
    ensures Marked(log[..ws[|ws| - 1].at], ws[..|ws| - 1])
  {
    var n, at := |ws| - 1, ws[|ws| - 1].at;
    forall k | 0 <= k < at && log[k].Mark? ensures log[k].level < n && ws[log[k].level].at == k {
    }
  }

  /** Every world saved the jump target of the one below, and the current target is the last one's. */
  ghost predicate Jumps(ws: seq<World>, env: nat) {
    && (ws != [] ==> ws[|ws| - 1].jump == env)
    && forall i, j :: 0 <= i < |ws| && j == i + 1 && j < |ws| ==> ws[j].outer == ws[i].jump
  }

  /** `codes` are the stacks that go with a log, its worlds and the current jump target. */
  ghost predicate Logged(codes: seq<seq<Byte>>, log: seq<Rec>, ws: seq<World>, env: nat, n: nat) {
    Codes(codes, log, n) && env < LIMIT && Marked(log, ws) && Jumps(ws, env)
  }

  lemma LoggedCell(codes: seq<seq<Byte>>, log: seq<Rec>, ws: seq<World>, env: nat, n: nat, r: Rec)
    requires Logged(codes, log, ws, env, n) && r.Saved? && Fits(r, n)
    ensures Logged(codes + [codes[|log|] + EncodeRec(r)], log + [r], ws, env, n)
  {
    MarkedStays(log, ws, r);
  }

  lemma LoggedWorld(codes: seq<seq<Byte>>, log: seq<Rec>, ws: seq<World>, env: nat, n: nat, w: World)
    requires Logged(codes, log, ws, env, n) && w.outer == env && w.at == |log| && w.jump < LIMIT
    ensures Logged(codes + [codes[|log|] + (Low(env, 8) + Low(0, 8))], log + [Mark(env, |ws|)], ws + [w], w.jump, n)
  {
    MarkedMore(log, ws, w);
    JumpsMore(ws, env, w);
  }

  /** What is left when the last world has been undone. */
  lemma LoggedClosed(codes: seq<seq<Byte>>, log: seq<Rec>, ws: seq<World>, env: nat, n: nat)
    requires ws != [] && Logged(codes, log, ws, env, n)
    ensures var w := ws[|ws| - 1]; Logged(codes[..w.at + 1], log[..w.at], ws[..|ws| - 1], w.outer, n)
  {
    MarkedLess(log, ws);
    assert Fits(log[ws[|ws| - 1].at], n);
  }

  /** The memories on the way down the log, while it is undone. */
  ghost predicate Memories(mems: seq<seq<Byte>>, log: seq<Rec>, n: nat) {
    && InRange(log, n) && |mems| == |log| + 1 && (forall k :: 0 <= k < |mems| ==> |mems[k]| == n)
    && forall k, l :: 0 <= k < |log| && l == k + 1 ==> mems[k] == Undone(mems[l], log[k])
  }

  lemma UnwindMemories(m: seq<Byte>, log: seq<Rec>) returns (mems: seq<seq<Byte>>)
    requires InRange(log, |m|)
    ensures Memories(mems, log, |m|) && mems[|log|] == m
    ensures forall k :: 0 <= k < |log| ==> mems[k] == Unwind(m, log, |log|, k)
  {
    mems := seq(|log| + 1, k requires 0 <= k <= |log| => Unwind(m, log, |log|, k));
    forall k, l | 0 <= k < |log| && l == k + 1 ensures mems[k] == Undone(mems[l], log[k]) {
      UnwindSplit(m, log, |log|, k, l);
      assert Unwind(mems[l], log, l, k) == Unwind(Undone(mems[l], log[k]), log, k, k);
    }
  }

  /** The records above `k` have been undone, and the address `ptr` of record `k` has been popped. */
  ghost predicate Undoing(code: seq<Byte>, ptr: nat, m: seq<Byte>, k: nat,
                          log: seq<Rec>, codes: seq<seq<Byte>>, mems: seq<seq<Byte>>) {
    && Codes(codes, log, |m|) && Memories(mems, log, |m|) && |m| <= LIMIT && k < |log| && ptr < LIMIT
    && code + Low(ptr, 8) == codes[k + 1] && m == mems[k + 1]
  }

  /** What lies below the address that has been popped: a null one belongs to a mark. */
  lemma PoppedAddress(code: seq<Byte>, ptr: nat, m: seq<Byte>, k: nat, log: seq<Rec>, codes: seq<seq<Byte>>,
                      mems: seq<seq<Byte>>)
    requires Undoing(code, ptr, m, k, log, codes, mems)
    ensures Fits(log[k], |m|) && mems[k] == Undone(m, log[k]) && (ptr != 0 <==> log[k].Saved?)
    ensures ptr != 0 ==> ptr == log[k].addr && code == codes[k] + log[k].bytes + [|log[k].bytes|]
    ensures ptr == 0 ==> code == codes[k] + Low(log[k].env, 8)
  {
    assert codes[k + 1] == codes[k] + EncodeRec(log[k]) && mems[k] == Undone(mems[k + 1], log[k]);
    if log[k].Saved? {
      LastSaved(code, ptr, codes[k], log[k]);
    } else {
      LastMark(code, ptr, codes[k], log[k]);
    }
  }

  lemma LongEnough(codes: seq<seq<Byte>>, log: seq<Rec>, n: nat, k: nat)
    requires Codes(codes, log, n) && 0 < k <= |log|
    ensures 8 <= |codes[k]|
  {
    assert codes[k] == codes[k - 1] + EncodeRec(log[k - 1]);
  }

  lemma SavedAbove(log: seq<Rec>, ws: seq<World>, n: nat)
    requires Marked(log, ws) && ws != [] && InRange(log, n)
    ensures var w := ws[|ws| - 1];
            && log[w.at].Mark? && log[w.at].env == w.outer < LIMIT
            && forall k :: w.at < k < |log| ==> log[k].Saved?
  {
    var w := ws[|ws| - 1];
    assert Fits(log[w.at], n);
    forall k | w.at < k < |log| ensures log[k].Saved? {
    }
  }

  /** What undoing the last world comes across, and what it leaves. */
  lemma Closing(codes: seq<seq<Byte>>, log: seq<Rec>, ws: seq<World>, env: nat, m: seq<Byte>) returns (mems: seq<seq<Byte>>)
    requires Logged(codes, log, ws, env, |m|) && ws != []
    ensures Memories(mems, log, |m|) && mems[|log|] == m
    ensures var w := ws[|ws| - 1];
            && log[w.at].Mark? && log[w.at].env == w.outer < LIMIT && mems[w.at] == Unwind(m, log, |log|, w.at)
            && (forall k :: w.at < k < |log| ==> log[k].Saved?)
            && Logged(codes[..w.at + 1], log[..w.at], ws[..|ws| - 1], w.outer, |m|)
  {
    mems := UnwindMemories(m, log);
    LoggedClosed(codes, log, ws, env, |m|);
    SavedAbove(log, ws, |m|);
  }

  lemma JumpsMore(ws: seq<World>, env: nat, w: World)
    requires Jumps(ws, env) && w.outer == env
    ensures Jumps(ws + [w], w.jump)
  {
  }

  lemma OpenedWorldKept(m: seq<Byte>, log: seq<Rec>, r: Rec, w: World, vs: seq<Vec>)
    requires Layout(vs, |m|) && InRange(log, |m|) && Fits(r, |m|) && r.Mark? && WorldKept(m, log, w, vs) && w.at <= |log|
    ensures WorldKept(m, log + [r], w, vs)
  {
    UnwindPrefix(m, log + [r], log, |log|, w.at);
  }

  lemma OpenChain(m: seq<Byte>, log: seq<Rec>, ws: seq<World>, w: World, vs: seq<Vec>)
    requires Layout(vs, |m|) && InRange(log, |m|) && AllKept(m, log, ws, vs) && Chain(ws, |m|, vs) && w.mem == m
    ensures Chain(ws + [w], |m|, vs)
  {
    forall i | 0 <= i < |ws| ensures CountsGrow(ws[i].mem, m, vs) {
      assert WorldKept(m, log, ws[i], vs);
    }
  }

  /** Opening a world. */
  lemma OpenKeeps(s: State, vs: seq<Vec>, outer: nat, jump: nat)
    requires Recoverable(s, vs) && outer < LIMIT
    ensures Recoverable(Opened(s, outer, jump), vs)
  {
    var w := World(s.mem, outer, jump, |s.log|);
    var log', ws' := s.log + [Mark(outer, |s.worlds|)], s.worlds + [w];
    MarkedMore(s.log, s.worlds, w);
    OpenChain(s.mem, s.log, s.worlds, w, vs);
    assert InRange(log', |s.mem|);
    forall i | 0 <= i < |ws'| ensures WorldKept(s.mem, log', ws'[i], vs) {
      if i < |s.worlds| {
        OpenedWorldKept(s.mem, s.log, Mark(outer, |s.worlds|), s.worlds[i], vs);
      }
    }
  }

  /** A world below another one stays recoverable when that one is closed. */
  lemma LowerWorldKept(m: seq<Byte>, log: seq<Rec>, v: World, w: World, vs: seq<Vec>)
    requires Layout(vs, |m|) && InRange(log, |m|) && WorldKept(m, log, v, vs) && WorldKept(m, log, w, vs)
    requires v.at <= w.at <= |log| && CountsGrow(v.mem, w.mem, vs)
    ensures WorldKept(Unwind(m, log, |log|, w.at), log[..w.at], v, vs)
  {
    var m' := Unwind(m, log, |log|, w.at);
    UnwindSplit(m, log, |log|, v.at, w.at);
    UnwindPrefix(m', log, log[..w.at], w.at, v.at);
    forall k | 0 <= k < |vs| ensures Count(v.mem, vs[k]) <= Count(m', vs[k]) {
      VisibleVector(m', w.mem, vs, k);
    }
  }

  lemma LowerWorldsKept(m: seq<Byte>, log: seq<Rec>, ws: seq<World>, w: World, vs: seq<Vec>)
    requires Layout(vs, |m|) && InRange(log, |m|) && AllKept(m, log, ws, vs) && WorldKept(m, log, w, vs) && w.at <= |log|
    requires forall i :: 0 <= i < |ws| ==> ws[i].at <= w.at && |ws[i].mem| == |m| && CountsGrow(ws[i].mem, w.mem, vs)
    ensures AllKept(Unwind(m, log, |log|, w.at), log[..w.at], ws, vs)
  {
    forall i | 0 <= i < |ws| ensures WorldKept(Unwind(m, log, |log|, w.at), log[..w.at], ws[i], vs) {
      LowerWorldKept(m, log, ws[i], w, vs);
    }
  }

  lemma LastWorldClosed(m: seq<Byte>, log: seq<Rec>, ws: seq<World>, vs: seq<Vec>)
    requires Recoverable(State(m, log, ws), vs) && ws != []
    ensures var n := |ws| - 1;
            && Agrees(Unwind(m, log, |log|, ws[n].at), ws[n].mem, vs)
            && AllKept(Unwind(m, log, |log|, ws[n].at), log[..ws[n].at], ws[..n], vs)
  {
    var n := |ws| - 1;
    assert WorldKept(m, log, ws[n], vs);
    LowerWorldsKept(m, log, ws[..n], ws[n], vs);
  }

  /** Closing the last world brings back what was visible when it was opened. */
  lemma CloseKeeps(s: State, vs: seq<Vec>)
    requires Recoverable(s, vs) && s.worlds != []
    ensures Recoverable(Closed(s), vs) && Agrees(Closed(s).mem, s.worlds[|s.worlds| - 1].mem, vs)
  {
    LastWorldClosed(s.mem, s.log, s.worlds, vs);
    MarkedLess(s.log, s.worlds);
  }

  /** `s` is what is left of `s0` after some of its worlds have been undone. */
  ghost predicate Back(s0: State, s: State, vs: seq<Vec>) {
    && Recoverable(s, vs) && |s.worlds| <= |s0.worlds| && s.worlds == s0.worlds[..|s.worlds|]
    && (if |s.worlds| == |s0.worlds| then s == s0
        else |s.mem| == |s0.worlds[|s.worlds|].mem| && Agrees(s.mem, s0.worlds[|s.worlds|].mem, vs))
  }

  lemma BackSelf(s: State, vs: seq<Vec>)
    requires Recoverable(s, vs)
    ensures Back(s, s, vs)
  {
  }

  lemma FewerWorlds(ws: seq<World>, all: seq<World>)
    requires ws != [] && |ws| <= |all| && ws == all[..|ws|]
    ensures ws[..|ws| - 1] == all[..|ws| - 1] && ws[|ws| - 1] == all[|ws| - 1]
  {
  }

  /** A state with fewer worlds that agrees with the lowest one undone. */
  lemma BackFrom(s0: State, t: State, vs: seq<Vec>)
    requires Recoverable(t, vs) && |t.worlds| < |s0.worlds| && t.worlds == s0.worlds[..|t.worlds|]
    requires |t.mem| == |s0.worlds[|t.worlds|].mem| && Agrees(t.mem, s0.worlds[|t.worlds|].mem, vs)
    ensures Back(s0, t, vs)
  {
  }

  lemma BackStep(s0: State, s: State, vs: seq<Vec>)
    requires Back(s0, s, vs) && s.worlds != []
    ensures Back(s0, Closed(s), vs)
  {
    FewerWorlds(s.worlds, s0.worlds);
    WorldSize(s, vs, |s.worlds| - 1);
    CloseKeeps(s, vs);
    BackFrom(s0, Closed(s), vs);
  }

  lemma WorldSize(s: State, vs: seq<Vec>, i: nat)
    requires Recoverable(s, vs) && i < |s.worlds|
    ensures |s.worlds[i].mem| == |s.mem|
  {
  }
}
