/** Bit packing shared by the two bitmap encoders: a row of 0/1 dots packed
    into a number either least significant bit first (Apple II screen bytes)
    or most significant bit first (NES pattern-table planes). */
module Bits {

  function Pow2(k: nat): (r: nat)
    ensures r >= 1
  {
    if k == 0 then 1 else 2 * Pow2(k - 1)
  }

  /** Bit `k` of `v` in two's complement: the floor division and the
      Euclidean remainder agree with JavaScript's `&` on negative numbers. */
  function Bit(v: int, k: nat): (r: int)
    decreases k
    ensures r == 0 || r == 1
  {
    if k == 0 then v % 2 else Bit(v / 2, k - 1)
  }

  predicate IsBits(d: seq<int>) {
    forall k :: 0 <= k < |d| ==> d[k] == 0 || d[k] == 1
  }

  /** `d[0]` is bit 0. */
  function LsbPack(d: seq<int>): int {
    if d == [] then 0 else d[0] + 2 * LsbPack(d[1..])
  }

  /** `d[|d| - 1]` is bit 0, `d[0]` the most significant bit. */
  function MsbPack(d: seq<int>): int {
    if d == [] then 0 else 2 * MsbPack(d[..|d| - 1]) + d[|d| - 1]
  }

  /** Adding one more dot at position `|d|` adds its weight `2^|d|`: the
      shape of a loop that accumulates `dst += dot << b`. */
  lemma {:induction false} LsbPackSnoc(d: seq<int>, b: int)
    ensures LsbPack(d + [b]) == LsbPack(d) + b * Pow2(|d|)
  {
    if d == [] {
      assert [] + [b] == [b];
      assert [b][1..] == [];
    } else {
      assert (d + [b])[1..] == d[1..] + [b];
      LsbPackSnoc(d[1..], b);
    }
  }

  /** A packed row of `n` dots is an `n`-bit number. */
  lemma {:induction false} LsbPackRange(d: seq<int>)
    requires IsBits(d)
    ensures 0 <= LsbPack(d) < Pow2(|d|)
  {
    if d != [] {
      LsbPackRange(d[1..]);
    }
  }

  /** Bit `k` of the packed row is dot `k`. */
  lemma {:induction false} LsbPackBits(d: seq<int>, k: nat)
    requires IsBits(d) && k < |d|
    ensures Bit(LsbPack(d), k) == d[k]
  {
    assert LsbPack(d) / 2 == LsbPack(d[1..]);
    if k > 0 {
      LsbPackBits(d[1..], k - 1);
    }
  }

  lemma {:induction false} MsbPackRange(d: seq<int>)
    requires IsBits(d)
    ensures 0 <= MsbPack(d) < Pow2(|d|)
  {
    if d != [] {
      MsbPackRange(d[..|d| - 1]);
    }
  }

  /** Bit `|d| - 1 - k` of the packed row is dot `k`: the first dot is the
      most significant bit. */
  lemma {:induction false} MsbPackBits(d: seq<int>, k: nat)
    requires IsBits(d) && k < |d|
    ensures Bit(MsbPack(d), |d| - 1 - k) == d[k]
  {
    var n := |d|;
    assert MsbPack(d) / 2 == MsbPack(d[..n - 1]);
    if k < n - 1 {
      MsbPackBits(d[..n - 1], k);
    }
  }
}
