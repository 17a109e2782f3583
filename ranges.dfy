/** Inclusive index ranges (forth-elf/src/range.ts). */
module Ranges {

  /** `{ first, last }`, both ends included. */
  datatype Rng = Rng(first: int, last: int)

  /** `in_range(index, range)` */
  predicate InRange(index: int, r: Rng) {
    index >= r.first && index <= r.last
  }

  /** Both endpoints of a non-empty range are inside it. */
  lemma EndpointsIncluded(r: Rng)
    requires r.first <= r.last
    ensures InRange(r.first, r) && InRange(r.last, r)
  {
  }

  /** Nothing below `first` or above `last` is inside. */
  lemma OutsideExcluded(index: int, r: Rng)
    requires index < r.first || index > r.last
    ensures !InRange(index, r)
  {
  }

  /** A range whose `first` exceeds its `last` contains nothing. */
  lemma InvertedIsEmpty(index: int, r: Rng)
    requires r.first > r.last
    ensures !InRange(index, r)
  {
  }

  /** `{first: n, last: n}` contains exactly `n`. */
  lemma SingletonRange(n: int, index: int)
    ensures InRange(index, Rng(n, n)) <==> index == n
  {
  }

  /** The members of a range are exactly `first`, ..., `last`: there are
      `last - first + 1` of them when the range is not inverted. */
  function Members(r: Rng): (s: seq<int>)
    ensures |s| == if r.first <= r.last then r.last - r.first + 1 else 0
    ensures forall k :: 0 <= k < |s| ==> InRange(s[k], r) && s[k] == r.first + k
    ensures forall i :: InRange(i, r) ==> i in s
    decreases r.last - r.first
  {
    if r.first > r.last then []
    else [r.first] + Members(Rng(r.first + 1, r.last))
  }
}
