/** Exponential-histogram buckets addressed by absolute index. */
module Buckets {

  /** counts[k] belongs to absolute index offset + k; every other index holds 0. */
  datatype Buckets = Buckets(offset: int, counts: seq<nat>) {
    function At(i: int): nat {
      if offset <= i < offset + |counts| then counts[i - offset] else 0
    }

    predicate Populated() {
      exists k :: 0 <= k < |counts| && counts[k] > 0
    }
  }

  function Total(counts: seq<nat>): nat {
    if counts == [] then 0 else Total(counts[..|counts| - 1]) + counts[|counts| - 1]
  }

  /** Sum of the counts at absolute indices lo .. hi - 1. */
  function RangeTotal(b: Buckets, lo: int, hi: int): nat
    decreases if hi > lo then hi - lo else 0
  {
    if hi <= lo then 0 else RangeTotal(b, lo, hi - 1) + b.At(hi - 1)
  }

  lemma {:induction false} RangeTotalSplit(b: Buckets, lo: int, mid: int, hi: int)
    requires lo <= mid <= hi
    ensures RangeTotal(b, lo, hi) == RangeTotal(b, lo, mid) + RangeTotal(b, mid, hi)
    decreases hi - mid
  {
    if mid < hi {
      RangeTotalSplit(b, lo, mid, hi - 1);
    }
  }

  lemma {:induction false} RangeOutside(b: Buckets, lo: int, hi: int)
    requires hi <= b.offset || lo >= b.offset + |b.counts|
    ensures RangeTotal(b, lo, hi) == 0
    decreases if hi > lo then hi - lo else 0
  {
    if hi > lo {
      RangeOutside(b, lo, hi - 1);
    }
  }

  lemma {:induction false} RangeOfEmpty(offset: int, lo: int, hi: int)
    ensures RangeTotal(Buckets(offset, []), lo, hi) == 0
    decreases if hi > lo then hi - lo else 0
  {
    if hi > lo {
      RangeOfEmpty(offset, lo, hi - 1);
    }
  }

  lemma {:induction false} RangeOfPrefix(b: Buckets, n: nat)
    requires n <= |b.counts|
    ensures RangeTotal(b, b.offset, b.offset + n) == Total(b.counts[..n])
  {
    if n > 0 {
      RangeOfPrefix(b, n - 1);
      assert b.counts[..n][..n - 1] == b.counts[..n - 1];
    }
  }

  /** Any range that covers all buckets sums to their total. */
  lemma TotalIsRange(b: Buckets, lo: int, hi: int)
    requires lo <= b.offset && b.offset + |b.counts| <= hi
    ensures RangeTotal(b, lo, hi) == Total(b.counts)
  {
    RangeTotalSplit(b, lo, b.offset, hi);
    RangeTotalSplit(b, b.offset, b.offset + |b.counts|, hi);
    RangeOutside(b, lo, b.offset);
    RangeOutside(b, b.offset + |b.counts|, hi);
    RangeOfPrefix(b, |b.counts|);
    assert b.counts[..|b.counts|] == b.counts;
  }

  ghost predicate PointwiseAtMost(b: Buckets, c: Buckets) {
    forall i :: b.At(i) <= c.At(i)
  }
}
