/** Memory as bytes: little-endian numbers and values written over a stretch of memory. */
module Bytes {

  type Byte = x: int | 0 <= x < 256

  function Range(k: nat): (r: nat)
    ensures r > 0
  {
    if k == 0 then 1 else 256 * Range(k - 1)
  }

  /** One more than the largest number, or address, of eight bytes. */
  const LIMIT: nat := 0x1_0000_0000_0000_0000

  /** The lowest `k` bytes of a number, the least significant one first. */
  function Low(n: nat, k: nat): (r: seq<Byte>)
    ensures |r| == k
    decreases k, n
  {
    if k == 0 then [] else [n % 256] + Low(n / 256, k - 1)
  }

  function Number(bs: seq<Byte>): (r: nat) {
    if bs == [] then 0 else bs[0] + 256 * Number(bs[1..])
  }

  lemma {:induction false} NumberOfLow(n: nat, k: nat)
    requires n < Range(k)
    ensures Number(Low(n, k)) == n
    decreases k
  {
    if k > 0 {
      NumberOfLow(n / 256, k - 1);
      assert Low(n, k)[1..] == Low(n / 256, k - 1);
    }
  }

  lemma NumberOfWord(n: nat)
    requires n < LIMIT
    ensures Number(Low(n, 8)) == n
  {
    assert Range(8) == LIMIT;
    NumberOfLow(n, 8);
  }

  lemma WordOfNumber(bs: seq<Byte>)
    requires |bs| == 8
    ensures Low(Number(bs), 8) == bs && Number(bs) < LIMIT
  {
    assert Range(8) == LIMIT;
    LowOfNumber(bs);
  }

  lemma {:induction false} LowOfNumber(bs: seq<Byte>)
    ensures Low(Number(bs), |bs|) == bs && Number(bs) < Range(|bs|)
  {
    if bs != [] {
      LowOfNumber(bs[1..]);
      SplitLow(bs[0], Number(bs[1..]));
      assert Low(Number(bs), |bs|) == [bs[0]] + Low(Number(bs[1..]), |bs| - 1);
    }
  }

  lemma SplitLow(b: Byte, n: nat)
    ensures (b + 256 * n) % 256 == b && (b + 256 * n) / 256 == n
  {
  }

  /** The memory `m` with `bs` written at `a`. */
  function Overlay(m: seq<Byte>, a: nat, bs: seq<Byte>): (r: seq<Byte>)
    requires a + |bs| <= |m|
    ensures |r| == |m|
    ensures forall i :: 0 <= i < |m| ==> r[i] == if a <= i < a + |bs| then bs[i - a] else m[i]
  {
    seq(|m|, i requires 0 <= i < |m| => if a <= i < a + |bs| then bs[i - a] else m[i])
  }
}
