/** What the buckets of a histogram alone say about the values counted in them. */
module Edges {
  import opened Numbers
  import opened Buckets
  import opened Replay

  lemma BoundaryGrows(e: Exp2, i: int, j: int, scale: int)
    requires e.Valid()
    ensures i < j ==> Boundary(e, i, scale) < Boundary(e, j, scale)
    ensures i <= j ==> Boundary(e, i, scale) <= Boundary(e, j, scale)
    ensures Boundary(e, i, scale) > 0.0
  {
    var m := ScaleFactor(scale);
    if i < j {
      assert j as real / m - i as real / m == (j - i) as real / m;
      assert i as real / m < j as real / m;
    }
  }

  /** v lies in bucket i, its lower boundary included. */
  ghost predicate InBucket(e: Exp2, v: real, i: int, scale: int) {
    Boundary(e, i, scale) <= v < Boundary(e, i + 1, scale)
  }

  /** Bucket i is the first populated one. */
  ghost predicate IsFirst(b: Buckets, i: int) {
    b.At(i) > 0 && forall j :: j < i ==> b.At(j) == 0
  }

  /** Bucket i is the last populated one. */
  ghost predicate IsLast(b: Buckets, i: int) {
    b.At(i) > 0 && forall j :: j > i ==> b.At(j) == 0
  }

  /** What the observations at absolute indices lo .. hi - 1 add up to if each lies on the boundary
      `up` buckets above the lower one of its own. */
  ghost function EdgeSum(e: Exp2, b: Buckets, scale: int, up: int, lo: int, hi: int): real
    decreases if hi > lo then hi - lo else 0
  {
    if hi <= lo then 0.0 else
      EdgeSum(e, b, scale, up, lo, hi - 1) + Scaled(Boundary(e, hi - 1 + up, scale), b.At(hi - 1) as real)
  }

  /** The least and the greatest sum of observations in these buckets. */
  ghost function LeastSum(e: Exp2, b: Buckets, scale: int): real {
    EdgeSum(e, b, scale, 0, b.offset, b.offset + |b.counts|)
  }

  ghost function GreatestSum(e: Exp2, b: Buckets, scale: int): real {
    EdgeSum(e, b, scale, 1, b.offset, b.offset + |b.counts|)
  }

  lemma WeightedBetween(low: real, v: real, high: real, n: nat)
    requires low <= v <= high
    ensures Scaled(low, n as real) <= Scaled(v, n as real) <= Scaled(high, n as real)
  {
    ScaledMonotone(low, v, n as real);
    ScaledMonotone(v, high, n as real);
  }
}
