/** Exponential histogram points: generating a delta and merging it into a cumulative
    point (expohistogen.go). */
module Expo {
  import opened Numbers
  import opened Config
  import opened Random
  import opened Buckets
  import opened Randomize
  import opened Replay
  import opened Edges

  /** The contents of a histogram point. */
  datatype Hist = Hist(scale: int, positive: Buckets, negative: Buckets, zeroCount: nat, count: nat,
                       sum: Option<real>, min: Option<real>, max: Option<real>)

  /** Getters of an absent optional field answer 0. */
  function OrZero(x: Option<real>): real {
    match x
    case None => 0.0
    case Some(v) => v
  }

  class BucketStore {
    var offset: int
    var counts: seq<nat>

    constructor (b: Buckets)
      ensures Value() == b
    {
      offset, counts := b.offset, b.counts;
    }

    function Value(): Buckets
      reads this
    {
      Buckets(offset, counts)
    }

    method Set(b: Buckets)
      modifies this
      ensures Value() == b
    {
      offset, counts := b.offset, b.counts;
    }
  }

  const EMPTY := Hist(0, Buckets(0, []), Buckets(0, []), 0, 0, None, None, None)

  class HistogramPoint {
    var scale: int
    const positive: BucketStore
    const negative: BucketStore
    var zeroCount: nat
    var count: nat
    var sum: Option<real>
    var min: Option<real>
    var max: Option<real>

    constructor ()
      ensures fresh(positive) && fresh(negative) && positive != negative
      ensures Value() == EMPTY
    {
      positive := new BucketStore(Buckets(0, []));
      negative := new BucketStore(Buckets(0, []));
      scale, zeroCount, count, sum, min, max := 0, 0, 0, None, None, None;
    }

    function Value(): Hist
      reads this, positive, negative
    {
      Hist(scale, positive.Value(), negative.Value(), zeroCount, count, sum, min, max)
    }
  }

  // ----- representative values -----

  /** 2 * exp((index - 2^scale) * ln 2 / 2^scale). */
  function LowerBucketBoundary(e: Exp2, index: real, scale: nat): real {
    2.0 * e.f((index - Pow2(scale) as real) / Pow2(scale) as real)
  }

  lemma ShiftedQuotient(x: real, m: real)
    requires m > 0.0
    ensures (x - m) / m + 1.0 == x / m
  {
    var q := (x - m) / m;
    assert q * m == x - m;
    QuotientIs(x, m, q + 1.0);
  }

  lemma QuotientMonotone(x: real, y: real, m: real)
    requires m > 0.0 && x < y
    ensures x / m < y / m
  {
    assert y / m - x / m == (y - x) / m;
  }

  /** A representative drawn at fraction u of bucket k lies between that bucket's boundaries;
      since buckets include their upper boundary only, it belongs to bucket k unless u is 0. */
  lemma RepresentativeInBucket(e: Exp2, k: int, u: real, scale: nat)
    requires e.Valid() && 0.0 <= u < 1.0
    ensures var v := LowerBucketBoundary(e, k as real + u, scale);
            && 0.0 < v && Boundary(e, k, scale) <= v < Boundary(e, k + 1, scale)
            && (Boundary(e, k, scale) < v <==> u > 0.0)
  {
    var m, x := ScaleFactor(scale), k as real + u;
    WholeFactor(scale);
    ShiftedQuotient(x, m);
    assert LowerBucketBoundary(e, x, scale) == e.f(x / m);
    QuotientMonotone(x, k as real + 1.0, m);
    if u > 0.0 {
      QuotientMonotone(k as real, x, m);
    }
  }

  datatype Summary = Summary(count: nat, sum: real, min: real, max: real, next: nat)

  /** Running count, sum, min and max over representatives of the populated buckets. */
  function SummaryOf(e: Exp2, b: Buckets, n: nat, scale: nat, bound: real, tape: Tape, pos: nat): Summary
    requires n <= |b.counts|
  {
    if n == 0 then Summary(0, 0.0, bound, -bound, pos) else
      var s := SummaryOf(e, b, n - 1, scale, bound, tape, pos);
      if b.counts[n - 1] == 0 then s else
        var value := LowerBucketBoundary(e, (b.offset + n - 1) as real + tape.uniform(s.next), scale);
        Summary(s.count + b.counts[n - 1], s.sum + Scaled(value, b.counts[n - 1] as real),
                if value < s.min then value else s.min, if value > s.max then value else s.max, s.next + 1)
  }

  ghost predicate Bounded(s: Summary) {
    && s.min > 0.0 && s.sum >= 0.0 && (s.count > 0 ==> s.max > 0.0)
    && Scaled(s.min, s.count as real) <= s.sum <= Scaled(s.max, s.count as real)
  }

  lemma BoundaryPositive(e: Exp2, index: real, scale: nat)
    requires e.Valid()
    ensures LowerBucketBoundary(e, index, scale) > 0.0
  {
  }

  lemma DistributeScaled(x: real, a: real, b: real)
    ensures Scaled(x, a + b) == Scaled(x, a) + Scaled(x, b)
  {
  }

  /** Adding c observations of `value` keeps count * min <= sum <= count * max. */
  lemma BoundsStep(min: real, max: real, sum: real, count: real, value: real, c: real, min': real, max': real)
    requires count >= 0.0 && c >= 0.0 && Scaled(min, count) <= sum <= Scaled(max, count)
    requires min' <= min && min' <= value && max' >= max && max' >= value
    ensures Scaled(min', count + c) <= sum + Scaled(value, c) <= Scaled(max', count + c)
  {
    NonNegativeProduct(min - min', count);
    NonNegativeProduct(value - min', c);
    NonNegativeProduct(max' - max, count);
    NonNegativeProduct(max' - value, c);
    DistributeScaled(min', count, c);
    DistributeScaled(max', count, c);
  }

  lemma AddObservations(s: Summary, value: real, c: nat)
    requires Bounded(s) && value > 0.0
    ensures Bounded(Summary(s.count + c, s.sum + Scaled(value, c as real),
                            if value < s.min then value else s.min, if value > s.max then value else s.max, s.next + 1))
  {
    assert (s.count + c) as real == s.count as real + c as real;
    assert Scaled(value, c as real) >= 0.0 by { NonNegativeProduct(value, c as real); }
    hide Scaled;
    BoundsStep(s.min, s.max, s.sum, s.count as real, value, c as real,
               if value < s.min then value else s.min, if value > s.max then value else s.max);
  }

  lemma SummaryStep(e: Exp2, b: Buckets, n: nat, scale: nat, bound: real, tape: Tape, pos: nat)
    requires e.Valid() && 0 < n <= |b.counts| && Bounded(SummaryOf(e, b, n - 1, scale, bound, tape, pos))
    ensures Bounded(SummaryOf(e, b, n, scale, bound, tape, pos))
    ensures SummaryOf(e, b, n, scale, bound, tape, pos).count
         == SummaryOf(e, b, n - 1, scale, bound, tape, pos).count + b.counts[n - 1]
    ensures SummaryOf(e, b, n, scale, bound, tape, pos).next >= SummaryOf(e, b, n - 1, scale, bound, tape, pos).next
  {
    hide LowerBucketBoundary, Bounded;
    var s := SummaryOf(e, b, n - 1, scale, bound, tape, pos);
    var index := (b.offset + n - 1) as real + tape.uniform(s.next);
    BoundaryPositive(e, index, scale);
    AddObservations(s, LowerBucketBoundary(e, index, scale), b.counts[n - 1]);
  }

  lemma {:induction false} SummaryBounds(e: Exp2, b: Buckets, n: nat, scale: nat, bound: real, tape: Tape, pos: nat)
    requires e.Valid() && n <= |b.counts| && bound > 0.0
    ensures SummaryOf(e, b, n, scale, bound, tape, pos).count == Total(b.counts[..n])
    ensures SummaryOf(e, b, n, scale, bound, tape, pos).next >= pos
    ensures Bounded(SummaryOf(e, b, n, scale, bound, tape, pos))
  {
    if n > 0 {
      SummaryBounds(e, b, n - 1, scale, bound, tape, pos);
      SummaryStep(e, b, n, scale, bound, tape, pos);
      assert b.counts[..n][..n - 1] == b.counts[..n - 1];
      hide SummaryOf, Bounded;
    } else {
      assert b.counts[..0] == [];
    }
  }

  method RandomizedBucketSummary(e: Exp2, ra: Rand, b: Buckets, scale: nat, bound: real) returns (s: Summary)
    modifies ra
    ensures s == SummaryOf(e, b, |b.counts|, scale, bound, ra.tape, old(ra.pos)) && ra.pos == s.next
  {
    hide LowerBucketBoundary, Scaled;
    s := Summary(0, 0.0, bound, -bound, ra.pos);
    for i := 0 to |b.counts|
      invariant s == SummaryOf(e, b, i, scale, bound, ra.tape, old(ra.pos)) && ra.pos == s.next
    {
      var count := b.counts[i];
      if count > 0 {
        var u := ra.Float64();
        var value := LowerBucketBoundary(e, (b.offset + i) as real + u, scale);
        s := Summary(s.count + count, s.sum + Scaled(value, count as real),
                     if value < s.min then value else s.min, if value > s.max then value else s.max, ra.pos);
      }
      assert b.offset + (i + 1) - 1 == b.offset + i;
    }
  }

  // ----- generating a delta -----

  /** Draws of at least 1/12 keep coming. */
  ghost predicate LuckyAfter(tape: Tape, p: nat) {
    exists q: nat :: q >= p && tape.uniform(q) >= 1.0 / 12.0
  }

  /** Randomizing these buckets ends wherever on the tape it starts. */
  ghost predicate AlwaysEnds(b: Buckets, tape: Tape) {
    b.Populated() ==> (exists k :: 0 <= k < |b.counts| && b.counts[k] >= 2) || forall p: nat :: LuckyAfter(tape, p)
  }

  lemma AlwaysEndsEnds(b: Buckets, tape: Tape, pos: nat)
    requires AlwaysEnds(b, tape) && b.Populated()
    ensures Ends(b.counts, tape, pos)
  {
    if !exists k :: 0 <= k < |b.counts| && b.counts[k] >= 2 {
      assert LuckyAfter(tape, pos);
    }
  }

  ghost predicate UsableSample(h: Hist, tape: Tape) {
    h.scale >= 0 && AlwaysEnds(h.positive, tape) && AlwaysEnds(h.negative, tape)
  }

  ghost predicate RandomizedSide(result: Buckets, source: Buckets, tape: Tape)
    requires tape.Valid()
  {
    if source.Populated() then exists start :: IsRandomized(result, source, tape, start) else result == source
  }

  /** Observations counted bucket by bucket, zero bucket included. */
  function Observations(h: Hist): nat {
    Total(h.positive.counts) + Total(h.negative.counts) + h.zeroCount
  }

  /** What every generated delta satisfies, whatever the signs of its buckets. */
  ghost predicate ConsistentDelta(h: Hist) {
    && h.count == Total(h.positive.counts) + Total(h.negative.counts)
    && h.sum.Some?
    && (h.min.Some? <==> h.count > 0) && (h.max.Some? <==> h.count > 0)
    && (h.count > 0 ==> Scaled(h.min.value, h.count as real) <= h.sum.value <= Scaled(h.max.value, h.count as real))
  }

  function MinOf(p: Summary, n: Summary): Option<real> {
    if n.count > 0 then Some(-n.max) else if p.count > 0 then Some(p.min) else None
  }

  function MaxOf(p: Summary, n: Summary): Option<real> {
    if p.count > 0 then Some(p.max) else if n.count > 0 then Some(-n.min) else None
  }

  lemma NegatedProduct(x: real, a: real)
    ensures Scaled(-x, a) == -Scaled(x, a) && Scaled(x, a) == x * a
  {
  }

  lemma NoWeight(s: Summary)
    requires s.count == 0 && Scaled(s.min, s.count as real) <= s.sum <= Scaled(s.max, s.count as real)
    ensures s.sum == 0.0
  {
  }

  /** Positive values pull the sum up from below and negative ones down from above. */
  lemma MixedSigns(p: Summary, n: Summary)
    requires Bounded(p) && Bounded(n) && p.count + n.count > 0
    ensures Scaled(MinOf(p, n).value, (p.count + n.count) as real) <= p.sum - n.sum
         <= Scaled(MaxOf(p, n).value, (p.count + n.count) as real)
  {
    var a, b := p.count as real, n.count as real;
    assert (p.count + n.count) as real == a + b;
    if n.count > 0 {
      NonNegativeProduct(n.max, a);
      NegatedProduct(n.max, b);
      NegatedProduct(n.max, a);
      DistributeScaled(-n.max, a, b);
    } else {
      NoWeight(n);
      assert a + b == a;
    }
    if p.count > 0 {
      NonNegativeProduct(p.max, b);
      DistributeScaled(p.max, a, b);
    } else {
      NoWeight(p);
      NegatedProduct(n.min, b);
      assert a + b == b;
    }
  }

  lemma GeneratedIsConsistent(p: Summary, n: Summary, h: Hist)
    requires Bounded(p) && Bounded(n) && p.count == Total(h.positive.counts) && n.count == Total(h.negative.counts)
    requires h.count == p.count + n.count && h.sum == Some(p.sum - n.sum) && h.min == MinOf(p, n)
      && h.max == MaxOf(p, n)
    ensures ConsistentDelta(h)
  {
    hide Bounded, Scaled, Total;
    if h.count > 0 {
      MixedSigns(p, n);
    }
  }

  function SideSummary(e: Exp2, b: Buckets, scale: nat, bound: real, tape: Tape, pos: nat): Summary {
    SummaryOf(e, b, |b.counts|, scale, bound, tape, pos)
  }

  /** h holds the totals and extremes of representatives drawn from positions p and n on. */
  ghost predicate SummarizedFrom(e: Exp2, h: Hist, bound: real, tape: Tape, p: nat, n: nat) {
    h.scale >= 0 &&
    var pos, neg := SideSummary(e, h.positive, h.scale, bound, tape, p),
      SideSummary(e, h.negative, h.scale, bound, tape, n);
    h.count == pos.count + neg.count && h.sum == Some(pos.sum - neg.sum) && h.min == MinOf(pos, neg)
      && h.max == MaxOf(pos, neg)
  }

  ghost predicate PopulatedSample(h: Hist) { h.positive.Populated() || h.negative.Populated() }

  /** delta was generated from the sample, its values drawn from positions p and n on. */
  ghost predicate GeneratedFrom(e: Exp2, delta: Hist, sample: Hist, bound: real, tape: Tape, p: nat, n: nat)
    requires tape.Valid()
  {
    && delta.scale == sample.scale && delta.zeroCount == sample.zeroCount
    && RandomizedSide(delta.positive, sample.positive, tape)
    && RandomizedSide(delta.negative, sample.negative, tape)
    && SummarizedFrom(e, delta, bound, tape, p, n)
    && ConsistentDelta(delta)
  }

  lemma {:induction false} TotalIsZero(counts: seq<nat>)
    ensures Total(counts) == 0 <==> forall k :: 0 <= k < |counts| ==> counts[k] == 0
  {
    if counts != [] {
      TotalIsZero(counts[..|counts| - 1]);
    }
  }

  lemma RandomizedSidePopulated(result: Buckets, source: Buckets, tape: Tape)
    requires tape.Valid() && RandomizedSide(result, source, tape)
    ensures Total(result.counts) > 0 <==> source.Populated()
  {
    TotalIsZero(result.counts);
    hide Landed;
    if source.Populated() {
      var start :| IsRandomized(result, source, tape, start);
      assert result.counts[0] > 0;
    }
  }

  /** A delta has observations exactly when its sample had a populated bucket. */
  lemma DeltaPopulatedExactlyWhen(e: Exp2, delta: Hist, sample: Hist, bound: real, tape: Tape, p: nat, n: nat)
    requires tape.Valid() && GeneratedFrom(e, delta, sample, bound, tape, p, n)
    ensures delta.count > 0 <==> PopulatedSample(sample)
  {
    hide RandomizedSide, SummarizedFrom;
    RandomizedSidePopulated(delta.positive, sample.positive, tape);
    RandomizedSidePopulated(delta.negative, sample.negative, tape);
  }

  /** Generation sets Count from the populated buckets alone: it is the number of observations
      exactly when the sample's zero bucket is empty. */
  lemma GeneratedCountOmitsZeros(e: Exp2, delta: Hist, sample: Hist, bound: real, tape: Tape, p: nat, n: nat)
    requires tape.Valid() && GeneratedFrom(e, delta, sample, bound, tape, p, n)
    ensures delta.count + sample.zeroCount == Observations(delta)
    ensures delta.count == Observations(delta) <==> sample.zeroCount == 0
  {
  }

  /** Ten observations in bucket 0 and five zeros. */
  const TEN_AND_FIVE_ZEROS :=
    Hist(0, Buckets(0, [10]), Buckets(0, []), 5, 15, Some(15.0), Some(0.0), Some(2.0))

  /** A sample every tape can be used on, whose five zeros every delta generated from it leaves
      out of a Count that is not 0. */
  lemma ZerosAreOmitted(e: Exp2, delta: Hist, bound: real, tape: Tape, p: nat, n: nat)
    requires tape.Valid() && GeneratedFrom(e, delta, TEN_AND_FIVE_ZEROS, bound, tape, p, n)
    ensures UsableSample(TEN_AND_FIVE_ZEROS, tape) && 0 < delta.count == Observations(delta) - 5
  {
    hide RandomizedSide, SummarizedFrom;
    assert TEN_AND_FIVE_ZEROS.positive.counts[0] == 10;
    DeltaPopulatedExactlyWhen(e, delta, TEN_AND_FIVE_ZEROS, bound, tape, p, n);
    GeneratedCountOmitsZeros(e, delta, TEN_AND_FIVE_ZEROS, bound, tape, p, n);
  }

  // ----- the summary comes from the buckets -----

  lemma DrawInBucket(e: Exp2, i: int, u: real, scale: nat)
    requires e.Valid() && 0.0 <= u < 1.0
    ensures InBucket(e, LowerBucketBoundary(e, i as real + u, scale), i, scale)
  {
    RepresentativeInBucket(e, i, u, scale);
    hide LowerBucketBoundary, Boundary;
  }

  lemma NoWeightAtZero(x: real, y: real)
    ensures Scaled(x, 0.0) == 0.0 && Scaled(y, 0.0) == 0.0
  {
  }

  /** The running sum lies between the sums of the buckets' boundaries. */
  lemma {:induction false} SumWithinEdges(e: Exp2, b: Buckets, n: nat, scale: nat, bound: real, tape: Tape, pos: nat)
    requires e.Valid() && tape.Valid() && n <= |b.counts|
    ensures EdgeSum(e, b, scale, 0, b.offset, b.offset + n)
         <= SummaryOf(e, b, n, scale, bound, tape, pos).sum
         <= EdgeSum(e, b, scale, 1, b.offset, b.offset + n)
  {
    hide LowerBucketBoundary, Boundary;
    if n > 0 {
      SumWithinEdges(e, b, n - 1, scale, bound, tape, pos);
      var s, i, c := SummaryOf(e, b, n - 1, scale, bound, tape, pos), b.offset + n - 1, b.counts[n - 1];
      var value := LowerBucketBoundary(e, i as real + tape.uniform(s.next), scale);
      DrawInBucket(e, i, tape.uniform(s.next), scale);
      WeightedBetween(Boundary(e, i, scale), value, Boundary(e, i + 1, scale), c);
      NoWeightAtZero(Boundary(e, i, scale), Boundary(e, i + 1, scale));
    }
    hide Scaled;
  }

  /** The running maximum is below the next bucket, and lies in the last populated one so far. */
  lemma {:induction false} MaxInLastBucket(e: Exp2, b: Buckets, n: nat, scale: nat, bound: real, tape: Tape, pos: nat,
                                           i: int)
    requires e.Valid() && tape.Valid() && n <= |b.counts| && bound > 0.0
    ensures SummaryOf(e, b, n, scale, bound, tape, pos).max < Boundary(e, b.offset + n, scale)
    ensures b.offset <= i < b.offset + n && b.At(i) > 0 && (forall j :: i < j < b.offset + n ==> b.At(j) == 0) ==>
      InBucket(e, SummaryOf(e, b, n, scale, bound, tape, pos).max, i, scale)
  {
    hide LowerBucketBoundary, Boundary, Scaled;
    BoundaryGrows(e, b.offset + n - 1, b.offset + n, scale);
    if n > 0 {
      MaxInLastBucket(e, b, n - 1, scale, bound, tape, pos, i);
      var s, k := SummaryOf(e, b, n - 1, scale, bound, tape, pos), b.offset + n - 1;
      DrawInBucket(e, k, tape.uniform(s.next), scale);
      assert b.At(k) == b.counts[n - 1];
    }
  }

  /** The running minimum lies in the first populated bucket so far, if that bucket is within the
      bound the loop starts from. */
  lemma {:induction false} MinInFirstBucket(e: Exp2, b: Buckets, n: nat, scale: nat, bound: real, tape: Tape,
                                            pos: nat, i: int)
    requires e.Valid() && tape.Valid() && n <= |b.counts| && IsFirst(b, i) && Boundary(e, i + 1, scale) <= bound
    ensures if b.offset + n <= i then SummaryOf(e, b, n, scale, bound, tape, pos).min == bound
            else InBucket(e, SummaryOf(e, b, n, scale, bound, tape, pos).min, i, scale)
  {
    hide LowerBucketBoundary, Boundary, Scaled;
    if n > 0 {
      MinInFirstBucket(e, b, n - 1, scale, bound, tape, pos, i);
      var s, k := SummaryOf(e, b, n - 1, scale, bound, tape, pos), b.offset + n - 1;
      DrawInBucket(e, k, tape.uniform(s.next), scale);
      assert b.At(k) == b.counts[n - 1];
      BoundaryGrows(e, i + 1, k, scale);
    }
  }

  /** The totals and extremes of a point, held against its buckets: Max lies in the last positive
      bucket or else, turned, in the first negative one; Min in the last negative bucket, turned, or
      else in the first positive one; Sum between the sums of the boundaries, negative sides turned.
      A first bucket must be within the greatest float, from which the minimum is searched. */
  ghost predicate WithinBuckets(e: Exp2, h: Hist, bound: real) {
    && h.scale >= 0 && h.sum.Some?
    && LeastSum(e, h.positive, h.scale) - GreatestSum(e, h.negative, h.scale) <= h.sum.value
       <= GreatestSum(e, h.positive, h.scale) - LeastSum(e, h.negative, h.scale)
    && (forall i :: IsLast(h.positive, i) ==> h.max.Some? && InBucket(e, h.max.value, i, h.scale))
    && (forall i :: IsLast(h.negative, i) ==> h.min.Some? && InBucket(e, -h.min.value, i, h.scale))
    && (forall i :: IsFirst(h.positive, i) && !h.negative.Populated() && Boundary(e, i + 1, h.scale) <= bound ==>
          h.min.Some? && InBucket(e, h.min.value, i, h.scale))
    && (forall i :: IsFirst(h.negative, i) && !h.positive.Populated() && Boundary(e, i + 1, h.scale) <= bound ==>
          h.max.Some? && InBucket(e, -h.max.value, i, h.scale))
  }

  /** What a side's summary owes to the side's buckets. */
  ghost predicate FromBuckets(e: Exp2, s: Summary, b: Buckets, scale: nat, bound: real) {
    && LeastSum(e, b, scale) <= s.sum <= GreatestSum(e, b, scale)
    && (forall i :: IsLast(b, i) ==> InBucket(e, s.max, i, scale))
    && (forall i :: IsFirst(b, i) && Boundary(e, i + 1, scale) <= bound ==> InBucket(e, s.min, i, scale))
    && (s.count > 0 <==> b.Populated())
  }

  lemma SummaryFromBuckets(e: Exp2, b: Buckets, scale: nat, bound: real, tape: Tape, pos: nat)
    requires e.Valid() && tape.Valid() && bound > 0.0
    ensures FromBuckets(e, SideSummary(e, b, scale, bound, tape, pos), b, scale, bound)
  {
    var n := |b.counts|;
    SumWithinEdges(e, b, n, scale, bound, tape, pos);
    SummaryBounds(e, b, n, scale, bound, tape, pos);
    assert b.counts[..n] == b.counts;
    TotalIsZero(b.counts);
    hide SummaryOf, InBucket, Boundary, EdgeSum, Bounded, Total;
    var s := SideSummary(e, b, scale, bound, tape, pos);
    forall i | IsLast(b, i) ensures InBucket(e, s.max, i, scale) {
      MaxInLastBucket(e, b, n, scale, bound, tape, pos, i);
    }
    forall i | IsFirst(b, i) && Boundary(e, i + 1, scale) <= bound ensures InBucket(e, s.min, i, scale) {
      MinInFirstBucket(e, b, n, scale, bound, tape, pos, i);
    }
  }

  lemma SomePopulated(b: Buckets, i: int)
    requires b.At(i) > 0
    ensures b.Populated()
  {
    assert b.counts[i - b.offset] > 0;
  }

  lemma SidesWithinBuckets(e: Exp2, h: Hist, pos: Summary, neg: Summary, bound: real)
    requires h.scale >= 0 && h.sum == Some(pos.sum - neg.sum) && h.min == MinOf(pos, neg) && h.max == MaxOf(pos, neg)
    requires FromBuckets(e, pos, h.positive, h.scale, bound) && FromBuckets(e, neg, h.negative, h.scale, bound)
    ensures WithinBuckets(e, h, bound)
  {
    hide InBucket, Boundary, LeastSum, GreatestSum, Buckets.Populated;
    forall i | h.positive.At(i) > 0 ensures h.positive.Populated() {
      SomePopulated(h.positive, i);
    }
    forall i | h.negative.At(i) > 0 ensures h.negative.Populated() {
      SomePopulated(h.negative, i);
    }
    hide Buckets.At;
  }

  /** A generated delta's Sum, Min and Max belong to the buckets that were written with them. */
  lemma GeneratedWithinBuckets(e: Exp2, delta: Hist, sample: Hist, bound: real, tape: Tape, p: nat, n: nat)
    requires e.Valid() && tape.Valid() && bound > 0.0 && GeneratedFrom(e, delta, sample, bound, tape, p, n)
    ensures WithinBuckets(e, delta, bound)
  {
    hide FromBuckets, WithinBuckets, SideSummary, RandomizedSide, ConsistentDelta;
    var pos, neg := SideSummary(e, delta.positive, delta.scale, bound, tape, p),
      SideSummary(e, delta.negative, delta.scale, bound, tape, n);
    SummaryFromBuckets(e, delta.positive, delta.scale, bound, tape, p);
    SummaryFromBuckets(e, delta.negative, delta.scale, bound, tape, n);
    SidesWithinBuckets(e, delta, pos, neg, bound);
  }

  /** The setters that overwrite the target with the randomized sample. */
  method WriteDelta(target: HistogramPoint, sample: Hist, posBuckets: Buckets, posSummary: Summary,
                    negBuckets: Buckets, negSummary: Summary)
    requires target.positive != target.negative
    modifies target, target.positive, target.negative
    ensures target.Value()
         == Hist(sample.scale, posBuckets, negBuckets, sample.zeroCount, posSummary.count + negSummary.count,
                 Some(posSummary.sum - negSummary.sum), MinOf(posSummary, negSummary), MaxOf(posSummary, negSummary))
  {
    target.scale := sample.scale;
    target.zeroCount := sample.zeroCount;
    target.min := None;
    target.max := None;
    target.count := posSummary.count + negSummary.count;
    target.sum := Some(posSummary.sum - negSummary.sum);
    if negSummary.count > 0 {
      target.min := Some(-negSummary.max);
    } else if posSummary.count > 0 {
      target.min := Some(posSummary.min);
    }
    if posSummary.count > 0 {
      target.max := Some(posSummary.max);
    } else if negSummary.count > 0 {
      target.max := Some(-negSummary.min);
    }
    target.positive.Set(posBuckets);
    target.negative.Set(negBuckets);
  }

  /** Randomizes one side of a sample and summarizes the result with the draws from pos on. */
  method RandomizeSide(e: Exp2, ra: Rand, source: Buckets, scale: nat, bound: real)
    returns (b: Buckets, s: Summary, ghost pos: nat)
    requires e.Valid() && ra.tape.Valid() && AlwaysEnds(source, ra.tape) && bound > 0.0
    modifies ra
    ensures RandomizedSide(b, source, ra.tape)
    ensures s == SideSummary(e, b, scale, bound, ra.tape, pos) && old(ra.pos) <= pos <= ra.pos
    ensures s.count == Total(b.counts) && Bounded(s)
  {
    if source.Populated() {
      AlwaysEndsEnds(source, ra.tape, ra.pos);
    }
    ghost var start;
    b, start := RandomizeBuckets(ra, source);
    pos := ra.pos;
    s := RandomizedBucketSummary(e, ra, b, scale, bound);
    SummaryBounds(e, b, |b.counts|, scale, bound, ra.tape, pos);
    assert b.counts[..|b.counts|] == b.counts;
    hide SummaryOf, Bounded;
  }

  method GenerateInto(e: Exp2, ra: Rand, samples: seq<Hist>, bound: real, target: HistogramPoint)
    returns (ghost sample: Hist, ghost p: nat, ghost n: nat)
    requires e.Valid() && ra.tape.Valid() && samples != [] && bound > 0.0
    requires forall s :: s in samples ==> UsableSample(s, ra.tape)
    requires target.positive != target.negative
    modifies ra, target, target.positive, target.negative
    ensures sample == samples[ra.tape.index(old(ra.pos)) % |samples|] && old(ra.pos) < p <= n
    ensures GeneratedFrom(e, target.Value(), sample, bound, ra.tape, p, n)
    ensures target.count > 0 <==> PopulatedSample(sample)
    ensures target.count == Observations(target.Value()) <==> sample.zeroCount == 0
    ensures WithinBuckets(e, target.Value(), bound)
  {
    var idx := ra.Intn(|samples|);
    var chosen := samples[idx];
    sample := chosen;
    assert UsableSample(chosen, ra.tape);
    hide AlwaysEnds, WithinBuckets, RandomizedSide, Total, Scaled, ConsistentDelta, Bounded, SideSummary,
      PopulatedSample;
    var posBuckets, posSummary, negBuckets, negSummary;
    posBuckets, posSummary, p := RandomizeSide(e, ra, chosen.positive, chosen.scale, bound);
    negBuckets, negSummary, n := RandomizeSide(e, ra, chosen.negative, chosen.scale, bound);
    WriteDelta(target, chosen, posBuckets, posSummary, negBuckets, negSummary);
    GeneratedIsConsistent(posSummary, negSummary, target.Value());
    DeltaPopulatedExactlyWhen(e, target.Value(), sample, bound, ra.tape, p, n);
    GeneratedCountOmitsZeros(e, target.Value(), sample, bound, ra.tape, p, n);
    GeneratedWithinBuckets(e, target.Value(), sample, bound, ra.tape, p, n);
  }
}
