/** An instance's copy of an exponential histogram (instance_variation.go). */
module ExpoVariation {
  import opened Numbers
  import opened Config
  import opened Hash
  import opened Buckets
  import opened Randomize
  import opened Replay
  import opened Edges
  import opened Expo
  import opened ExpoMerge

  function CountUnit(identityHash: bv64, instanceID: bv64, bucketIdx: int): (u: real)
    ensures 0.0 <= u < 1.0
  {
    HashToUnitInterval(MixInstanceID(Xor(identityHash, Uint64(bucketIdx) * 0xd1342543de82ef95), instanceID))
  }

  function SumFraction(identityHash: bv64, instanceID: bv64, bucketIdx: int): (u: real)
    ensures 0.0 <= u < 1.0
  {
    HashToUnitInterval(MixInstanceID(Xor(identityHash, Uint64(bucketIdx) * 0x9e3779b97f4a7c15), instanceID))
  }

  function BucketMultiplier(unit: real): real { StableMultiplier(0.8, 1.2, unit) }

  /** The copy's count of a bucket; a populated bucket stays populated. */
  function VariedCount(identityHash: bv64, instanceID: bv64, bucketIdx: int, count: nat): nat {
    if count == 0 then 0
    else MaxInt(1, Round(Scaled(count as real, BucketMultiplier(CountUnit(identityHash, instanceID, bucketIdx)))))
  }

  function Varied(identityHash: bv64, instanceID: bv64, b: Buckets): Buckets {
    Buckets(b.offset, seq(|b.counts|, k requires 0 <= k < |b.counts| =>
      VariedCount(identityHash, instanceID, b.offset + k, b.counts[k])))
  }

  /** The value an observation of this bucket adds to the copy's sum. */
  function Representative(e: Exp2, identityHash: bv64, instanceID: bv64, bucketIdx: int, scale: nat): real {
    LowerBucketBoundary(e, bucketIdx as real + SumFraction(identityHash, instanceID, bucketIdx), scale)
  }

  /** Sum over the copy's buckets, weighted by their representatives. */
  function WeightedSum(e: Exp2, identityHash: bv64, instanceID: bv64, scale: nat, offset: int, counts: seq<nat>): real {
    if counts == [] then 0.0 else
      var n := |counts| - 1;
      WeightedSum(e, identityHash, instanceID, scale, offset, counts[..n])
      + (if counts[n] == 0 then 0.0
         else Scaled(Representative(e, identityHash, instanceID, offset + n, scale), counts[n] as real))
  }

  const NEGATIVE_SALT: bv64 := 0xa1b2c3d4e5f60718

  lemma PopulatedStays(identityHash: bv64, instanceID: bv64, bucketIdx: int, count: nat)
    ensures VariedCount(identityHash, instanceID, bucketIdx, count) == 0 <==> count == 0
  {
  }

  method VaryBucketCounts(e: Exp2, buckets: BucketStore, instanceID: bv64, identityHash: bv64, scale: nat)
    returns (totalCount: nat, totalSum: real)
    modifies buckets
    ensures buckets.Value() == Varied(identityHash, instanceID, old(buckets.Value()))
    ensures totalCount == Total(buckets.counts)
    ensures totalSum == WeightedSum(e, identityHash, instanceID, scale, buckets.offset, buckets.counts)
  {
    hide VariedCount, Representative, Scaled;
    totalCount, totalSum := 0, 0.0;
    ghost var was := buckets.counts;
    assert was[..0] == [];
    for i := 0 to |buckets.counts|
      invariant buckets.offset == old(buckets.offset) && |buckets.counts| == |was|
      invariant forall k :: 0 <= k < i ==>
        buckets.counts[k] == VariedCount(identityHash, instanceID, buckets.offset + k, was[k])
      invariant forall k :: i <= k < |was| ==> buckets.counts[k] == was[k]
      invariant totalCount == Total(buckets.counts[..i])
      invariant totalSum == WeightedSum(e, identityHash, instanceID, scale, buckets.offset, buckets.counts[..i])
    {
      var count := buckets.counts[i];
      ghost var before := buckets.counts[..i];
      PopulatedStays(identityHash, instanceID, buckets.offset + i, count);
      if count != 0 {
        var bucketIdx := buckets.offset + i;
        var varied := VariedCount(identityHash, instanceID, bucketIdx, count);
        buckets.counts := buckets.counts[i := varied];
        totalCount := totalCount + varied;
        totalSum := totalSum + Scaled(Representative(e, identityHash, instanceID, bucketIdx, scale), varied as real);
      }
      assert buckets.counts[..i + 1][..i] == before;
    }
    assert buckets.counts[..|was|] == buckets.counts;
    assert buckets.counts == Varied(identityHash, instanceID, Buckets(buckets.offset, was)).counts;
  }

  function Emitted(e: Exp2, h: Hist, instanceID: bv64, identityHash: bv64): Hist
    requires h.scale >= 0
  {
    var positive := Varied(identityHash, instanceID, h.positive);
    var negative := Varied(Xor(identityHash, NEGATIVE_SALT), instanceID, h.negative);
    h.(positive := positive, negative := negative,
       count := Total(positive.counts) + Total(negative.counts) + h.zeroCount,
       sum := if h.sum.None? then None else
         Some(WeightedSum(e, identityHash, instanceID, h.scale, positive.offset, positive.counts)
              - WeightedSum(e, Xor(identityHash, NEGATIVE_SALT), instanceID, h.scale, negative.offset,
                            negative.counts)))
  }

  // ----- the copy's Sum comes from the copy's buckets -----

  lemma {:induction false} WeightedWithinEdges(e: Exp2, identityHash: bv64, instanceID: bv64, scale: nat, b: Buckets,
                                               n: nat)
    requires e.Valid() && n <= |b.counts|
    ensures EdgeSum(e, b, scale, 0, b.offset, b.offset + n)
         <= WeightedSum(e, identityHash, instanceID, scale, b.offset, b.counts[..n])
         <= EdgeSum(e, b, scale, 1, b.offset, b.offset + n)
  {
    hide SumFraction, LowerBucketBoundary, Boundary, Scaled;
    if n > 0 {
      WeightedWithinEdges(e, identityHash, instanceID, scale, b, n - 1);
      var i, c := b.offset + n - 1, b.counts[n - 1];
      DrawInBucket(e, i, SumFraction(identityHash, instanceID, i), scale);
      WeightedBetween(Boundary(e, i, scale), Representative(e, identityHash, instanceID, i, scale),
                      Boundary(e, i + 1, scale), c);
      NoWeightAtZero(Boundary(e, i, scale), Boundary(e, i + 1, scale));
      assert b.counts[..n][..n - 1] == b.counts[..n - 1];
    }
  }

  lemma WeightedFromBuckets(e: Exp2, identityHash: bv64, instanceID: bv64, scale: nat, b: Buckets)
    requires e.Valid()
    ensures LeastSum(e, b, scale) <= WeightedSum(e, identityHash, instanceID, scale, b.offset, b.counts)
         <= GreatestSum(e, b, scale)
  {
    hide WeightedSum, EdgeSum, Boundary, Exp2.Valid;
    WeightedWithinEdges(e, identityHash, instanceID, scale, b, |b.counts|);
    assert b.counts[..|b.counts|] == b.counts;
  }

  /** A Sum that can be made up by values in these buckets. */
  ghost predicate SumWithinBuckets(e: Exp2, h: Hist) {
    h.sum.Some? ==>
      LeastSum(e, h.positive, h.scale) - GreatestSum(e, h.negative, h.scale) <= h.sum.value
      <= GreatestSum(e, h.positive, h.scale) - LeastSum(e, h.negative, h.scale)
  }

  /** A copy has a Sum when the template has one; it belongs to the copy's own buckets, at the
      point's scale. */
  lemma EmittedSumWithinBuckets(e: Exp2, h: Hist, instanceID: bv64, identityHash: bv64)
    requires e.Valid() && h.scale >= 0
    ensures var c := Emitted(e, h, instanceID, identityHash);
            SumWithinBuckets(e, c) && (c.sum.Some? <==> h.sum.Some?)
  {
    var salted := Xor(identityHash, NEGATIVE_SALT);
    hide Varied, LeastSum, GreatestSum, WeightedSum, Total, Xor;
    WeightedFromBuckets(e, identityHash, instanceID, h.scale, Varied(identityHash, instanceID, h.positive));
    WeightedFromBuckets(e, salted, instanceID, h.scale, Varied(salted, instanceID, h.negative));
  }

  method ApplyExponentialHistogramVariation(e: Exp2, v: HistogramPoint, instanceID: bv64, identityHash: bv64)
    requires e.Valid() && v.scale >= 0 && v.positive != v.negative
    modifies v, v.positive, v.negative
    ensures v.Value() == Emitted(e, old(v.Value()), instanceID, identityHash)
    ensures SumWithinBuckets(e, v.Value()) && (v.sum.Some? <==> old(v.sum).Some?)
  {
    hide Varied, WeightedSum, Total, SumWithinBuckets, LeastSum, GreatestSum, Xor, Exp2.Valid;
    EmittedSumWithinBuckets(e, v.Value(), instanceID, identityHash);
    var posCount, posSum := VaryBucketCounts(e, v.positive, instanceID, identityHash, v.scale);
    var negCount, negSum := VaryBucketCounts(e, v.negative, instanceID, Xor(identityHash, NEGATIVE_SALT), v.scale);
    v.count := posCount + negCount + v.zeroCount;
    if v.sum.Some? {
      v.sum := Some(posSum - negSum);
    }
  }

  // ----- the copy is a consistent histogram -----

  lemma VariedAt(identityHash: bv64, instanceID: bv64, b: Buckets, i: int)
    ensures Varied(identityHash, instanceID, b).At(i) == VariedCount(identityHash, instanceID, i, b.At(i))
  {
  }

  /** The copy's Count is the sum of all its buckets, exactly the populated buckets stay
      populated, and scale, zero count, min and max are the template's. */
  lemma EmittedIsConsistent(e: Exp2, h: Hist, instanceID: bv64, identityHash: bv64, i: int)
    requires h.scale >= 0
    ensures var c := Emitted(e, h, instanceID, identityHash);
            && c.count == Observations(c)
            && (c.positive.At(i) == 0 <==> h.positive.At(i) == 0)
            && (c.negative.At(i) == 0 <==> h.negative.At(i) == 0)
            && c.scale == h.scale && c.zeroCount == h.zeroCount && c.min == h.min && c.max == h.max
  {
    hide VariedCount, WeightedSum, Varied;
    VariedAt(identityHash, instanceID, h.positive, i);
    VariedAt(Xor(identityHash, NEGATIVE_SALT), instanceID, h.negative, i);
    PopulatedStays(identityHash, instanceID, i, h.positive.At(i));
    PopulatedStays(Xor(identityHash, NEGATIVE_SALT), instanceID, i, h.negative.At(i));
  }

  // ----- monotonicity -----

  lemma VariedCountMonotone(identityHash: bv64, instanceID: bv64, bucketIdx: int, m: nat, n: nat)
    requires m <= n
    ensures VariedCount(identityHash, instanceID, bucketIdx, m) <= VariedCount(identityHash, instanceID, bucketIdx, n)
  {
    var f := BucketMultiplier(CountUnit(identityHash, instanceID, bucketIdx));
    assert f >= 0.8 by { hide CountUnit; }
    ScaledMonotone(m as real, n as real, f);
    RoundMonotone(Scaled(m as real, f), Scaled(n as real, f));
    hide Scaled, Round, CountUnit, BucketMultiplier;
  }

  lemma VariedMonotone(identityHash: bv64, instanceID: bv64, b: Buckets, c: Buckets)
    requires PointwiseAtMost(b, c)
    ensures PointwiseAtMost(Varied(identityHash, instanceID, b), Varied(identityHash, instanceID, c))
  {
    hide VariedCount, Varied;
    forall i ensures Varied(identityHash, instanceID, b).At(i) <= Varied(identityHash, instanceID, c).At(i) {
      VariedAt(identityHash, instanceID, b, i);
      VariedAt(identityHash, instanceID, c, i);
      VariedCountMonotone(identityHash, instanceID, i, b.At(i), c.At(i));
    }
  }

  lemma {:induction false} RangeMonotone(b: Buckets, c: Buckets, lo: int, hi: int)
    requires PointwiseAtMost(b, c)
    ensures RangeTotal(b, lo, hi) <= RangeTotal(c, lo, hi)
    decreases if hi > lo then hi - lo else 0
  {
    if hi > lo {
      RangeMonotone(b, c, lo, hi - 1);
    }
  }

  lemma TotalMonotone(b: Buckets, c: Buckets)
    requires PointwiseAtMost(b, c)
    ensures Total(b.counts) <= Total(c.counts)
  {
    var lo := MinInt(b.offset, c.offset);
    var hi := MaxInt(b.offset + |b.counts|, c.offset + |c.counts|);
    TotalIsRange(b, lo, hi);
    TotalIsRange(c, lo, hi);
    RangeMonotone(b, c, lo, hi);
  }

  /** What one bucket holding n observations adds to the sum. */
  function Contribution(e: Exp2, identityHash: bv64, instanceID: bv64, scale: nat, i: int, n: nat): real {
    if n == 0 then 0.0 else Scaled(Representative(e, identityHash, instanceID, i, scale), n as real)
  }

  ghost function WeightedRange(e: Exp2, identityHash: bv64, instanceID: bv64, scale: nat, b: Buckets, lo: int,
                               hi: int): real
    decreases if hi > lo then hi - lo else 0
  {
    if hi <= lo then 0.0 else
      WeightedRange(e, identityHash, instanceID, scale, b, lo, hi - 1)
      + Contribution(e, identityHash, instanceID, scale, hi - 1, b.At(hi - 1))
  }

  lemma {:induction false} WeightedRangeOutside(e: Exp2, identityHash: bv64, instanceID: bv64, scale: nat, b: Buckets,
                                                lo: int, mid: int, hi: int)
    requires lo <= mid <= hi && (mid >= b.offset + |b.counts| || hi <= b.offset)
    ensures WeightedRange(e, identityHash, instanceID, scale, b, lo, hi)
         == WeightedRange(e, identityHash, instanceID, scale, b, lo, mid)
    decreases hi - mid
  {
    if mid < hi {
      WeightedRangeOutside(e, identityHash, instanceID, scale, b, lo, mid, hi - 1);
    }
  }

  lemma {:induction false} WeightedPrefix(e: Exp2, identityHash: bv64, instanceID: bv64, scale: nat, b: Buckets,
                                          lo: int, n: nat)
    requires n <= |b.counts| && lo <= b.offset
    ensures WeightedRange(e, identityHash, instanceID, scale, b, lo, b.offset + n)
         == WeightedSum(e, identityHash, instanceID, scale, b.offset, b.counts[..n])
  {
    hide Representative, Scaled;
    if n > 0 {
      WeightedPrefix(e, identityHash, instanceID, scale, b, lo, n - 1);
      assert b.counts[..n][..n - 1] == b.counts[..n - 1];
    } else {
      WeightedRangeOutside(e, identityHash, instanceID, scale, b, lo, lo, b.offset);
    }
  }

  lemma WeightedSumIsRange(e: Exp2, identityHash: bv64, instanceID: bv64, scale: nat, b: Buckets, lo: int, hi: int)
    requires lo <= b.offset && b.offset + |b.counts| <= hi
    ensures WeightedRange(e, identityHash, instanceID, scale, b, lo, hi)
         == WeightedSum(e, identityHash, instanceID, scale, b.offset, b.counts)
  {
    WeightedRangeOutside(e, identityHash, instanceID, scale, b, lo, b.offset + |b.counts|, hi);
    WeightedPrefix(e, identityHash, instanceID, scale, b, lo, |b.counts|);
    assert b.counts[..|b.counts|] == b.counts;
  }

  lemma ContributionMonotone(e: Exp2, identityHash: bv64, instanceID: bv64, scale: nat, i: int, m: nat, n: nat)
    requires e.Valid() && m <= n
    ensures Contribution(e, identityHash, instanceID, scale, i, m)
         <= Contribution(e, identityHash, instanceID, scale, i, n)
  {
    hide SumFraction;
    BoundaryPositive(e, i as real + SumFraction(identityHash, instanceID, i), scale);
    var v := Representative(e, identityHash, instanceID, i, scale);
    hide Representative, LowerBucketBoundary;
    NonNegativeProduct(v, (n - m) as real);
    NonNegativeProduct(v, m as real);
    assert n as real == m as real + (n - m) as real;
    DistributeScaled(v, m as real, (n - m) as real);
  }

  lemma {:induction false} WeightedRangeMonotone(e: Exp2, identityHash: bv64, instanceID: bv64, scale: nat, b: Buckets,
                                                 c: Buckets, lo: int, hi: int)
    requires e.Valid() && PointwiseAtMost(b, c)
    ensures WeightedRange(e, identityHash, instanceID, scale, b, lo, hi)
         <= WeightedRange(e, identityHash, instanceID, scale, c, lo, hi)
    decreases if hi > lo then hi - lo else 0
  {
    hide Contribution;
    if hi > lo {
      WeightedRangeMonotone(e, identityHash, instanceID, scale, b, c, lo, hi - 1);
      ContributionMonotone(e, identityHash, instanceID, scale, hi - 1, b.At(hi - 1), c.At(hi - 1));
    }
  }

  lemma WeightedSumMonotone(e: Exp2, identityHash: bv64, instanceID: bv64, scale: nat, b: Buckets, c: Buckets)
    requires e.Valid() && PointwiseAtMost(b, c)
    ensures WeightedSum(e, identityHash, instanceID, scale, b.offset, b.counts)
         <= WeightedSum(e, identityHash, instanceID, scale, c.offset, c.counts)
  {
    var lo := MinInt(b.offset, c.offset);
    var hi := MaxInt(b.offset + |b.counts|, c.offset + |c.counts|);
    hide WeightedSum, WeightedRange, PointwiseAtMost;
    WeightedSumIsRange(e, identityHash, instanceID, scale, b, lo, hi);
    WeightedSumIsRange(e, identityHash, instanceID, scale, c, lo, hi);
    WeightedRangeMonotone(e, identityHash, instanceID, scale, b, c, lo, hi);
  }

  /** g is a later state of the same cumulative template at the same scale. */
  ghost predicate Grows(g: Hist, h: Hist) {
    && g.scale == h.scale && g.zeroCount <= h.zeroCount
    && PointwiseAtMost(g.positive, h.positive) && PointwiseAtMost(g.negative, h.negative)
  }

  /** All observations are positive or zero. */
  ghost predicate OnlyPositive(h: Hist) { !h.negative.Populated() && h.sum.Some? }

  lemma {:induction false} NothingWeighted(e: Exp2, identityHash: bv64, instanceID: bv64, scale: nat, offset: int,
                                           counts: seq<nat>)
    requires forall k :: 0 <= k < |counts| ==> counts[k] == 0
    ensures WeightedSum(e, identityHash, instanceID, scale, offset, counts) == 0.0
  {
    if counts != [] {
      NothingWeighted(e, identityHash, instanceID, scale, offset, counts[..|counts| - 1]);
    }
  }

  lemma UnpopulatedAddsNothing(e: Exp2, identityHash: bv64, instanceID: bv64, scale: nat, b: Buckets)
    requires !b.Populated()
    ensures var v := Varied(identityHash, instanceID, b);
            WeightedSum(e, identityHash, instanceID, scale, v.offset, v.counts) == 0.0
  {
    hide VariedCount;
    var v := Varied(identityHash, instanceID, b);
    forall k | 0 <= k < |v.counts| ensures v.counts[k] == 0 {
      PopulatedStays(identityHash, instanceID, b.offset + k, b.counts[k]);
    }
    NothingWeighted(e, identityHash, instanceID, scale, v.offset, v.counts);
  }

  /** One instance's copies of a growing template grow: every bucket, the Count and, for
      positive data, the Sum. The bucket ranges of the two states may start anywhere. */
  lemma EmissionMonotone(e: Exp2, g: Hist, h: Hist, instanceID: bv64, identityHash: bv64)
    requires e.Valid() && g.scale >= 0 && Grows(g, h)
    ensures var c, d := Emitted(e, g, instanceID, identityHash), Emitted(e, h, instanceID, identityHash);
            && Grows(c, d) && c.count <= d.count
            && (OnlyPositive(g) && OnlyPositive(h) ==> c.sum.value <= d.sum.value)
  {
    var salted := Xor(identityHash, NEGATIVE_SALT);
    VariedMonotone(identityHash, instanceID, g.positive, h.positive);
    VariedMonotone(salted, instanceID, g.negative, h.negative);
    TotalMonotone(Varied(identityHash, instanceID, g.positive), Varied(identityHash, instanceID, h.positive));
    TotalMonotone(Varied(salted, instanceID, g.negative), Varied(salted, instanceID, h.negative));
    WeightedSumMonotone(e, identityHash, instanceID, g.scale, Varied(identityHash, instanceID, g.positive),
                        Varied(identityHash, instanceID, h.positive));
    if OnlyPositive(g) && OnlyPositive(h) {
      UnpopulatedAddsNothing(e, salted, instanceID, g.scale, g.negative);
      UnpopulatedAddsNothing(e, salted, instanceID, g.scale, h.negative);
    }
    hide VariedCount, PointwiseAtMost, Xor, Varied, WeightedSum, Total, Buckets.Populated;
  }

  lemma PointwiseTransitive(a: Buckets, b: Buckets, c: Buckets)
    requires PointwiseAtMost(a, b) && PointwiseAtMost(b, c)
    ensures PointwiseAtMost(a, c)
  {
    forall i ensures a.At(i) <= c.At(i) {
      assert a.At(i) <= b.At(i) <= c.At(i);
    }
  }

  /** While the library keeps the template's scale, the template grows tick by tick. */
  lemma {:induction false} RunGrows(start: Hist, deltas: nat -> Hist, lib: nat -> Settled, m: nat, n: nat)
    requires m <= n && forall t :: m <= t < n ==> lib(t).scale == MergedRun(start, deltas, lib, m).scale
    ensures Grows(MergedRun(start, deltas, lib, m), MergedRun(start, deltas, lib, n))
    decreases n - m
  {
    hide Merged, Buckets.At;
    if m < n {
      RunGrows(start, deltas, lib, m, n - 1);
      var g, h, k := MergedRun(start, deltas, lib, m), MergedRun(start, deltas, lib, n - 1),
        MergedRun(start, deltas, lib, n);
      assert k == Merged(h, deltas(n - 1), lib(n - 1));
      MergeGrows(h, deltas(n - 1), lib(n - 1));
      MergedSide(h, deltas(n - 1), lib(n - 1), Pos);
      PointwiseTransitive(g.positive, h.positive, k.positive);
      PointwiseTransitive(g.negative, h.negative, k.negative);
    }
  }

  lemma {:induction false} NoNegativeBuckets(us: seq<Update>, scale: int)
    requires forall u :: u in us ==> !HasSign(u, Neg)
    ensures ReadOut(us, Neg, scale).counts == []
  {
    if us != [] {
      assert us[|us| - 1] in us;
      NoNegativeBuckets(us[..|us| - 1], scale);
    }
  }

  lemma {:induction false} PositiveReplay(offset: int, counts: seq<nat>, scale: int)
    ensures forall u :: u in ReplaySide(offset, counts, Pos, scale) ==> !HasSign(u, Neg)
  {
    if counts != [] {
      PositiveReplay(offset, counts[..|counts| - 1], scale);
    }
  }

  lemma {:induction false} NothingReplayed(offset: int, counts: seq<nat>, sign: Sign, scale: int)
    requires forall k :: 0 <= k < |counts| ==> counts[k] == 0
    ensures ReplaySide(offset, counts, sign, scale) == []
  {
    if counts != [] {
      NothingReplayed(offset, counts[..|counts| - 1], sign, scale);
    }
  }

  lemma PositiveUpdates(h: Hist)
    requires !h.negative.Populated()
    ensures forall u :: u in ReplayOf(h) ==> !HasSign(u, Neg)
  {
    PositiveReplay(h.positive.offset, h.positive.counts, h.scale);
    NothingReplayed(h.negative.offset, h.negative.counts, Neg, h.scale);
    hide ReplaySide;
  }

  lemma MergeStaysPositive(h: Hist, delta: Hist, lib: Settled)
    requires OnlyPositive(h) && OnlyPositive(delta)
    ensures OnlyPositive(Merged(h, delta, lib))
  {
    PositiveUpdates(h);
    PositiveUpdates(delta);
    hide ReadOut, ReplayOf, HasSign;
    NoNegativeBuckets(ReplayOf(h) + ReplayOf(delta), lib.scale);
    MergedSide(h, delta, lib, Neg);
    hide UpdatesTotal, ZeroTotal, MergedMin, MergedMax;
  }

  /** Positive data stays positive, whatever scale the library picks. */
  lemma {:induction false} RunStaysPositive(start: Hist, deltas: nat -> Hist, lib: nat -> Settled, n: nat)
    requires OnlyPositive(start) && forall t: nat :: OnlyPositive(deltas(t))
    ensures OnlyPositive(MergedRun(start, deltas, lib, n))
  {
    hide OnlyPositive, Merged;
    if n > 0 {
      RunStaysPositive(start, deltas, lib, n - 1);
      MergeStaysPositive(MergedRun(start, deltas, lib, n - 1), deltas(n - 1), lib(n - 1));
    }
  }

  /** Over any run of merges that keeps the scale, an instance's emitted Count never falls,
      nor does its Sum when the data are positive. */
  lemma EmittedNeverDecreases(e: Exp2, start: Hist, deltas: nat -> Hist, lib: nat -> Settled, instanceID: bv64,
                              identityHash: bv64, m: nat, n: nat)
    requires e.Valid() && m <= n
    requires MergedRun(start, deltas, lib, m).scale >= 0
    requires forall t :: m <= t < n ==> lib(t).scale == MergedRun(start, deltas, lib, m).scale
    ensures MergedRun(start, deltas, lib, n).scale >= 0
    ensures var c := Emitted(e, MergedRun(start, deltas, lib, m), instanceID, identityHash);
            var d := Emitted(e, MergedRun(start, deltas, lib, n), instanceID, identityHash);
            && Grows(c, d) && c.count <= d.count
            && (OnlyPositive(start) && (forall t: nat :: OnlyPositive(deltas(t))) ==>
                  c.sum.Some? && d.sum.Some? && c.sum.value <= d.sum.value)
  {
    var g, h := MergedRun(start, deltas, lib, m), MergedRun(start, deltas, lib, n);
    RunGrows(start, deltas, lib, m, n);
    EmissionMonotone(e, g, h, instanceID, identityHash);
    if OnlyPositive(start) && forall t: nat :: OnlyPositive(deltas(t)) {
      RunStaysPositive(start, deltas, lib, m);
      RunStaysPositive(start, deltas, lib, n);
    }
    hide Varied, WeightedSum, MergedRun, Total;
  }

  // ----- how far a copy's Count is from the template's, at any scale -----

  lemma RoundsUp()
    ensures Round(0.8) == 1
  {
  }

  lemma ScaledNear(x: real, f: real)
    requires x >= 1.0 && 0.8 <= f <= 1.2
    ensures Abs(Scaled(x, f) - x) <= 0.2 * x && Scaled(x, f) >= 0.8
  {
    NonNegativeProduct(x, f - 0.8);
    NonNegativeProduct(x, 1.2 - f);
  }

  lemma VariedCountNear(identityHash: bv64, instanceID: bv64, bucketIdx: int, count: nat)
    ensures var varied := VariedCount(identityHash, instanceID, bucketIdx, count);
            Abs(varied as real - count as real) <= if count == 0 then 0.0 else 0.2 * count as real + 0.5
  {
    if count > 0 {
      var f := BucketMultiplier(CountUnit(identityHash, instanceID, bucketIdx));
      assert 0.8 <= f < 1.2 by { hide CountUnit; }
      var x := count as real;
      hide CountUnit, BucketMultiplier;
      ScaledNear(x, f);
      RoundNearest(Scaled(x, f));
      RoundMonotone(0.8, Scaled(x, f));
      RoundsUp();
      hide Round, Scaled;
    }
  }

  lemma {:induction false} VariedTotalNear(identityHash: bv64, instanceID: bv64, b: Buckets, n: nat)
    requires n <= |b.counts|
    ensures Abs(Total(Varied(identityHash, instanceID, b).counts[..n]) as real - Total(b.counts[..n]) as real)
         <= 0.2 * Total(b.counts[..n]) as real + 0.5 * PopulatedCount(b.counts[..n]) as real
  {
    hide VariedCount;
    if n > 0 {
      VariedTotalNear(identityHash, instanceID, b, n - 1);
      VariedCountNear(identityHash, instanceID, b.offset + n - 1, b.counts[n - 1]);
      var v := Varied(identityHash, instanceID, b).counts;
      assert v[..n][..n - 1] == v[..n - 1] && b.counts[..n][..n - 1] == b.counts[..n - 1];
    }
  }

  /** Buckets of either sign that hold something. */
  function PopulatedBuckets(h: Hist): nat { PopulatedCount(h.positive.counts) + PopulatedCount(h.negative.counts) }

  lemma VariedTotalOf(identityHash: bv64, instanceID: bv64, b: Buckets)
    ensures Abs(Total(Varied(identityHash, instanceID, b).counts) as real - Total(b.counts) as real)
         <= 0.2 * Total(b.counts) as real + 0.5 * PopulatedCount(b.counts) as real
  {
    hide VariedCount, Total, PopulatedCount;
    VariedTotalNear(identityHash, instanceID, b, |b.counts|);
    var v := Varied(identityHash, instanceID, b).counts;
    assert v[..|b.counts|] == v && b.counts[..|b.counts|] == b.counts;
  }

  /** Whatever the scale, a copy's Count is within 20% and rounding of the template's observations. */
  lemma EmittedCountNearTemplate(e: Exp2, h: Hist, instanceID: bv64, identityHash: bv64)
    requires h.scale >= 0
    ensures Abs(Emitted(e, h, instanceID, identityHash).count as real - Observations(h) as real)
         <= 0.2 * (Observations(h) - h.zeroCount) as real + 0.5 * PopulatedBuckets(h) as real
  {
    hide VariedCount, Varied, WeightedSum, Total, PopulatedCount, Xor;
    var salted := Xor(identityHash, NEGATIVE_SALT);
    VariedTotalOf(identityHash, instanceID, h.positive);
    VariedTotalOf(salted, instanceID, h.negative);
  }

  lemma {:induction false} ObservationsNeverDecrease(start: Hist, deltas: nat -> Hist, lib: nat -> Settled, m: nat,
                                                     n: nat)
    requires m <= n
    ensures Observations(MergedRun(start, deltas, lib, m)) <= Observations(MergedRun(start, deltas, lib, n))
    decreases n - m
  {
    hide Observations, Merged;
    if m < n {
      ObservationsNeverDecrease(start, deltas, lib, m, n - 1);
      MergeTotals(MergedRun(start, deltas, lib, n - 1), deltas(n - 1), lib(n - 1));
    }
  }

  /** Even across changes of scale an instance's Count cannot fall below four fifths of what the
      template had observed in any earlier tick, less half an observation per populated bucket. */
  lemma EmittedCountKeepsUp(e: Exp2, start: Hist, deltas: nat -> Hist, lib: nat -> Settled, instanceID: bv64,
                            identityHash: bv64, m: nat, n: nat)
    requires m <= n && MergedRun(start, deltas, lib, n).scale >= 0
    ensures var g, h := MergedRun(start, deltas, lib, m), MergedRun(start, deltas, lib, n);
            Emitted(e, h, instanceID, identityHash).count as real
            >= 0.8 * Observations(g) as real - 0.5 * PopulatedBuckets(h) as real
  {
    ObservationsNeverDecrease(start, deltas, lib, m, n);
    EmittedCountNearTemplate(e, MergedRun(start, deltas, lib, n), instanceID, identityHash);
    hide MergedRun, Emitted, PopulatedBuckets, Total;
  }
}
