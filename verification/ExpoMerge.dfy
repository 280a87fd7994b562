/** Cumulative exponential histograms: merging a delta, and whole runs of merges
    (expohistogen.go, MergeInto). */
module ExpoMerge {
  import opened Config
  import opened Random
  import opened Buckets
  import opened Replay
  import opened Expo

  function Side(h: Hist, sign: Sign): Buckets {
    if sign == Pos then h.positive else h.negative
  }

  function ZeroUpdates(n: nat): seq<Update> {
    if n > 0 then [Update(ZeroValue, n)] else []
  }

  /** Everything a histogram point is replayed as. */
  function ReplayOf(h: Hist): seq<Update> {
    ReplaySide(h.positive.offset, h.positive.counts, Pos, h.scale)
    + ReplaySide(h.negative.offset, h.negative.counts, Neg, h.scale)
    + ZeroUpdates(h.zeroCount)
  }

  /** The library's accumulator: the updates it received. */
  class Accumulator {
    var updates: seq<Update>

    constructor ()
      ensures updates == []
    {
      updates := [];
    }

    method UpdateByIncr(value: LogValue, incr: nat)
      modifies this
      ensures updates == old(updates) + [Update(value, incr)]
    {
      updates := updates + [Update(value, incr)];
    }
  }

  method MergeSideIntoAccumulator(acc: Accumulator, b: Buckets, sign: Sign, scale: int)
    modifies acc
    ensures acc.updates == old(acc.updates) + ReplaySide(b.offset, b.counts, sign, scale)
  {
    ghost var was := acc.updates;
    assert b.counts[..0] == [];
    for i := 0 to |b.counts|
      invariant acc.updates == was + ReplaySide(b.offset, b.counts[..i], sign, scale)
    {
      assert b.counts[..i + 1][..i] == b.counts[..i];
      var count := b.counts[i];
      if count > 0 {
        var bucketIdx := b.offset + i;
        acc.UpdateByIncr(NonZero(sign, MidpointExponent(bucketIdx, scale)), count);
      }
    }
    assert b.counts[..|b.counts|] == b.counts;
  }

  method MergePdataIntoAccumulator(acc: Accumulator, h: Hist)
    modifies acc
    ensures acc.updates == old(acc.updates) + ReplayOf(h)
  {
    MergeSideIntoAccumulator(acc, h.positive, Pos, h.scale);
    MergeSideIntoAccumulator(acc, h.negative, Neg, h.scale);
    if h.zeroCount > 0 {
      acc.UpdateByIncr(ZeroValue, h.zeroCount);
    }
  }

  /** What the library decides by itself: the scale it settles on, and its own extremes. */
  datatype Settled = Settled(scale: int, min: real, max: real)

  /** The bounds MergeInto writes: the first populated delta sets them, later ones widen them. */
  function MergedMin(prevCount: nat, prev: Option<real>, delta: Option<real>, own: Option<real>): Option<real> {
    if prevCount == 0 then (if delta.Some? then delta else own)
    else if delta.Some? && delta.value < OrZero(prev) then delta else Some(OrZero(prev))
  }

  function MergedMax(prevCount: nat, prev: Option<real>, delta: Option<real>, own: Option<real>): Option<real> {
    if prevCount == 0 then (if delta.Some? then delta else own)
    else if delta.Some? && delta.value > OrZero(prev) then delta else Some(OrZero(prev))
  }

  function UpdatesTotal(us: seq<Update>): nat {
    SignTotal(us, Pos) + SignTotal(us, Neg) + ZeroTotal(us)
  }

  function Merged(target: Hist, delta: Hist, lib: Settled): Hist {
    var us := ReplayOf(target) + ReplayOf(delta);
    var n := UpdatesTotal(us);
    Hist(lib.scale, ReadOut(us, Pos, lib.scale), ReadOut(us, Neg, lib.scale), ZeroTotal(us), n,
         Some(OrZero(target.sum) + OrZero(delta.sum)),
         MergedMin(target.count, target.min, delta.min, if n > 0 then Some(lib.min) else None),
         MergedMax(target.count, target.max, delta.max, if n > 0 then Some(lib.max) else None))
  }

  /** The library's state written into the point; absent extremes when it holds nothing. */
  method WriteAccumulator(acc: Accumulator, lib: Settled, target: HistogramPoint)
    requires target.positive != target.negative
    modifies target, target.positive, target.negative
    ensures var us := acc.updates;
            var n := UpdatesTotal(us);
            target.Value() == Hist(lib.scale, ReadOut(us, Pos, lib.scale), ReadOut(us, Neg, lib.scale), ZeroTotal(us),
                                   n, old(target.sum),
                                   if n > 0 then Some(lib.min) else None, if n > 0 then Some(lib.max) else None)
  {
    target.scale := lib.scale;
    target.count := UpdatesTotal(acc.updates);
    target.zeroCount := ZeroTotal(acc.updates);
    if target.count > 0 {
      target.min := Some(lib.min);
      target.max := Some(lib.max);
    } else {
      target.min := None;
      target.max := None;
    }
    target.positive.Set(ReadOut(acc.updates, Pos, lib.scale));
    target.negative.Set(ReadOut(acc.updates, Neg, lib.scale));
  }

  method WriteTotals(target: HistogramPoint, prev: Hist, delta: Hist)
    modifies target`sum, target`min, target`max
    ensures target.sum == Some(OrZero(prev.sum) + OrZero(delta.sum))
    ensures target.min == MergedMin(prev.count, prev.min, delta.min, old(target.min))
    ensures target.max == MergedMax(prev.count, prev.max, delta.max, old(target.max))
  {
    target.sum := Some(OrZero(prev.sum) + OrZero(delta.sum));
    if prev.count == 0 {
      if delta.min.Some? {
        target.min := delta.min;
      }
      if delta.max.Some? {
        target.max := delta.max;
      }
    } else {
      var newMin := OrZero(prev.min);
      if delta.min.Some? && delta.min.value < newMin {
        newMin := delta.min.value;
      }
      target.min := Some(newMin);
      var newMax := OrZero(prev.max);
      if delta.max.Some? && delta.max.value > newMax {
        newMax := delta.max.value;
      }
      target.max := Some(newMax);
    }
  }

  ghost predicate PopulatedDelta(h: Hist) { ConsistentDelta(h) && h.count > 0 }

  method MergeDelta(delta: Hist, lib: Settled, target: HistogramPoint)
    requires target.positive != target.negative
    modifies target, target.positive, target.negative
    ensures target.Value() == Merged(old(target.Value()), delta, lib)
  {
    hide ReplayOf, ReadOut, UpdatesTotal, ZeroTotal, MergedMin, MergedMax;
    var prev := target.Value();
    var acc := new Accumulator();
    MergePdataIntoAccumulator(acc, prev);
    MergePdataIntoAccumulator(acc, delta);
    assert acc.updates == ReplayOf(prev) + ReplayOf(delta);
    WriteAccumulator(acc, lib, target);
    WriteTotals(target, prev, delta);
  }

  /** Generates a delta from a drawn sample and merges it into the point. */
  method MergeInto(e: Exp2, ra: Rand, samples: seq<Hist>, bound: real, lib: Settled, target: HistogramPoint)
    returns (ghost delta: Hist, ghost sample: Hist, ghost p: nat, ghost n: nat)
    requires e.Valid() && ra.tape.Valid() && samples != [] && bound > 0.0
    requires forall s :: s in samples ==> UsableSample(s, ra.tape)
    requires target.positive != target.negative
    modifies ra, target, target.positive, target.negative
    ensures sample == samples[ra.tape.index(old(ra.pos)) % |samples|] && old(ra.pos) < p <= n
    ensures GeneratedFrom(e, delta, sample, bound, ra.tape, p, n)
    ensures PopulatedDelta(delta) <==> PopulatedSample(sample)
    ensures WithinBuckets(e, delta, bound)
    ensures target.Value() == Merged(old(target.Value()), delta, lib)
  {
    hide Merged, ReplayOf, ReadOut, UsableSample, WithinBuckets, UpdatesTotal, ZeroTotal, SummarizedFrom,
      RandomizedSide,
      PopulatedSample;
    var point := new HistogramPoint();
    sample, p, n := GenerateInto(e, ra, samples, bound, point);
    delta := point.Value();
    MergeDelta(point.Value(), lib, target);
  }

  // ----- one merge conserves counts -----

  lemma ZeroLandsNowhere(n: nat, sign: Sign, scale: int, i: int)
    ensures BucketCount(ZeroUpdates(n), sign, scale, i) == 0
    ensures SignTotal(ZeroUpdates(n), sign) == 0 && ZeroTotal(ZeroUpdates(n)) == n
  {
  }

  lemma ReplayCounts(h: Hist, sign: Sign, coarse: int, d: nat, i: int)
    requires h.scale == coarse + d
    ensures BucketCount(ReplayOf(h), sign, coarse, i) == RunTotal(Side(h, sign), i, d)
  {
    var p := ReplaySide(h.positive.offset, h.positive.counts, Pos, h.scale);
    var n := ReplaySide(h.negative.offset, h.negative.counts, Neg, h.scale);
    hide ReplaySide, RunTotal, Index;
    CountsAppend(p + n, ZeroUpdates(h.zeroCount), sign, coarse, i);
    CountsAppend(p, n, sign, coarse, i);
    ReplayConservesRuns(h.positive.offset, h.positive.counts, Pos, coarse, d, i);
    ReplayConservesRuns(h.negative.offset, h.negative.counts, Neg, coarse, d, i);
    ReplaySideTotals(h.positive.offset, h.positive.counts, Pos, Neg, h.scale, i);
    ReplaySideTotals(h.negative.offset, h.negative.counts, Neg, Pos, h.scale, i);
    ZeroLandsNowhere(h.zeroCount, sign, coarse, i);
    assert Side(h, sign) == if sign == Pos then Buckets(h.positive.offset, h.positive.counts)
                            else Buckets(h.negative.offset, h.negative.counts);
  }

  lemma ReplayTotals(h: Hist)
    ensures SignTotal(ReplayOf(h), Pos) == Total(h.positive.counts)
    ensures SignTotal(ReplayOf(h), Neg) == Total(h.negative.counts)
    ensures ZeroTotal(ReplayOf(h)) == h.zeroCount
  {
    var p := ReplaySide(h.positive.offset, h.positive.counts, Pos, h.scale);
    var n := ReplaySide(h.negative.offset, h.negative.counts, Neg, h.scale);
    var z := ZeroUpdates(h.zeroCount);
    hide ReplaySide;
    ReplaySideTotals(h.positive.offset, h.positive.counts, Pos, Neg, h.scale, 0);
    ReplaySideTotals(h.negative.offset, h.negative.counts, Neg, Pos, h.scale, 0);
    TotalsAppend(p + n, z, Pos);
    TotalsAppend(p + n, z, Neg);
    TotalsAppend(p, n, Pos);
    TotalsAppend(p, n, Neg);
    ZeroLandsNowhere(h.zeroCount, Pos, 0, 0);
    ZeroLandsNowhere(h.zeroCount, Neg, 0, 0);
  }

  lemma MergedSide(target: Hist, delta: Hist, lib: Settled, sign: Sign)
    ensures Side(Merged(target, delta, lib), sign) == ReadOut(ReplayOf(target) + ReplayOf(delta), sign, lib.scale)
    ensures Merged(target, delta, lib).scale == lib.scale
  {
    hide ReplayOf, ReadOut, UpdatesTotal, ZeroTotal, MergedMin, MergedMax;
  }

  /** At every scale no finer than the three involved, each bucket of the result holds the
      sum of what the target and the delta hold there: nothing moves between buckets. */
  lemma MergeConservesBuckets(target: Hist, delta: Hist, lib: Settled, sign: Sign, coarse: int, dt: nat, dd: nat,
                              dr: nat, i: int)
    requires target.scale == coarse + dt && delta.scale == coarse + dd && lib.scale == coarse + dr
    ensures RunTotal(Side(Merged(target, delta, lib), sign), i, dr)
         == RunTotal(Side(target, sign), i, dt) + RunTotal(Side(delta, sign), i, dd)
  {
    hide *;
    var a, b := ReplayOf(target), ReplayOf(delta);
    MergedSide(target, delta, lib, sign);
    CoarsenedReadOut(a + b, sign, coarse, dr, i);
    CountsAppend(a, b, sign, coarse, i);
    ReplayCounts(target, sign, coarse, dt, i);
    ReplayCounts(delta, sign, coarse, dd, i);
  }

  lemma OneBucket(b: Buckets, i: int)
    ensures RunTotal(b, i, 0) == b.At(i)
  {
    assert i * Pow2(0) == i && (i + 1) * Pow2(0) == i + 1;
    assert RangeTotal(b, i, i) == 0;
  }

  lemma BucketGrows(target: Hist, delta: Hist, lib: Settled, sign: Sign, i: int)
    requires lib.scale == target.scale
    ensures Side(target, sign).At(i) <= Side(Merged(target, delta, lib), sign).At(i)
  {
    hide *;
    var a, b := ReplayOf(target), ReplayOf(delta);
    MergedSide(target, delta, lib, sign);
    ReadOutCounts(a + b, sign, lib.scale, i);
    CountsAppend(a, b, sign, lib.scale, i);
    ReplayCounts(target, sign, target.scale, 0, i);
    OneBucket(Side(target, sign), i);
  }

  /** A merge at any scale adds the delta's observations to the target's. */
  lemma MergeTotals(target: Hist, delta: Hist, lib: Settled)
    ensures var m := Merged(target, delta, lib);
            && m.count == Observations(m) == Observations(target) + Observations(delta)
            && m.zeroCount == target.zeroCount + delta.zeroCount
  {
    var a, b := ReplayOf(target), ReplayOf(delta);
    ReadOutConserves(a + b, Pos, lib.scale);
    ReadOutConserves(a + b, Neg, lib.scale);
    ReplayTotals(target);
    ReplayTotals(delta);
    hide ReplayOf, ReadOut, SignTotal, ZeroTotal, Total;
    TotalsAppend(a, b, Pos);
    TotalsAppend(a, b, Neg);
  }

  /** While the scale stays the same no bucket, and not the zero count, ever shrinks. */
  lemma MergeGrows(target: Hist, delta: Hist, lib: Settled)
    requires lib.scale == target.scale
    ensures PointwiseAtMost(target.positive, Merged(target, delta, lib).positive)
    ensures PointwiseAtMost(target.negative, Merged(target, delta, lib).negative)
    ensures target.zeroCount <= Merged(target, delta, lib).zeroCount
  {
    var m := Merged(target, delta, lib);
    forall i ensures target.positive.At(i) <= m.positive.At(i) && target.negative.At(i) <= m.negative.At(i) {
      BucketGrows(target, delta, lib, Pos, i);
      BucketGrows(target, delta, lib, Neg, i);
    }
    MergeTotals(target, delta, lib);
  }

  /** A delta without observations in buckets leaves the extremes of a point that has some; an empty
      point takes the library's, if anything but zeros is missing. */
  lemma MergeOfZeros(target: Hist, delta: Hist, lib: Settled)
    requires ConsistentDelta(delta) && delta.count == 0
    ensures var m := Merged(target, delta, lib);
            && m.zeroCount == target.zeroCount + delta.zeroCount
            && (target.count > 0 ==> m.min == Some(OrZero(target.min)) && m.max == Some(OrZero(target.max)))
            && (target.count == 0 && Observations(target) + delta.zeroCount > 0 ==>
                  m.min == Some(lib.min) && m.max == Some(lib.max))
            && (target.count == 0 && Observations(target) + delta.zeroCount == 0 ==> m.min == None == m.max)
  {
    MergeTotals(target, delta, lib);
    hide ReplayOf, ReadOut, UpdatesTotal, ZeroTotal;
  }

  // ----- runs of merges -----

  /** The cumulative point after merging the first n deltas into `start`. */
  ghost function MergedRun(start: Hist, deltas: nat -> Hist, lib: nat -> Settled, n: nat): Hist {
    if n == 0 then start else Merged(MergedRun(start, deltas, lib, n - 1), deltas(n - 1), lib(n - 1))
  }

  ghost function SumOfSums(deltas: nat -> Hist, n: nat): real {
    if n == 0 then 0.0 else SumOfSums(deltas, n - 1) + OrZero(deltas(n - 1).sum)
  }

  ghost function SumOfObservations(deltas: nat -> Hist, n: nat): nat {
    if n == 0 then 0 else SumOfObservations(deltas, n - 1) + Observations(deltas(n - 1))
  }

  /** x is the least value f takes on 0 .. n - 1. */
  ghost predicate IsLeast(x: real, f: nat -> real, n: nat) {
    (exists k :: 0 <= k < n && f(k) == x) && forall k :: 0 <= k < n ==> x <= f(k)
  }

  /** h carries the least minimum and the greatest maximum of the first n deltas. */
  ghost predicate CarriesExtremes(h: Hist, deltas: nat -> Hist, n: nat) {
    && h.min.Some? && h.max.Some?
    && IsLeast(h.min.value, (k: nat) => OrZero(deltas(k).min), n)
    && IsLeast(-h.max.value, (k: nat) => -OrZero(deltas(k).max), n)
  }

  /** h holds exactly the totals and extremes of the first n deltas. */
  ghost predicate IsFold(h: Hist, deltas: nat -> Hist, n: nat) {
    && Observations(h) == SumOfObservations(deltas, n)
    && OrZero(h.sum) == SumOfSums(deltas, n)
    && (if n > 0 then h.count > 0 && CarriesExtremes(h, deltas, n) else h.count == 0)
  }

  lemma EmptyIsFold(deltas: nat -> Hist)
    ensures IsFold(EMPTY, deltas, 0)
  {
  }

  lemma MergeSums(target: Hist, delta: Hist, lib: Settled)
    ensures OrZero(Merged(target, delta, lib).sum) == OrZero(target.sum) + OrZero(delta.sum)
  {
    hide ReplayOf, ReadOut, UpdatesTotal, ZeroTotal, MergedMin, MergedMax;
  }

  lemma LeastExtends(was: real, x: real, f: nat -> real, n: nat)
    requires n > 0 && (n > 1 ==> IsLeast(was, f, n - 1))
    requires x == if n == 1 || f(n - 1) < was then f(n - 1) else was
    ensures IsLeast(x, f, n)
  {
  }

  lemma FoldExtremes(h: Hist, delta: Hist, lib: Settled, deltas: nat -> Hist, n: nat)
    requires n > 0 && delta == deltas(n - 1) && delta.min.Some? && delta.max.Some?
    requires n == 1 ==> h.count == 0
    requires n > 1 ==> h.count > 0 && CarriesExtremes(h, deltas, n - 1)
    ensures CarriesExtremes(Merged(h, delta, lib), deltas, n)
  {
    hide ReplayOf, ReadOut, UpdatesTotal, ZeroTotal, IsLeast;
    var m := Merged(h, delta, lib);
    LeastExtends(if n > 1 then h.min.value else 0.0, m.min.value, (k: nat) => OrZero(deltas(k).min), n);
    LeastExtends(if n > 1 then -h.max.value else 0.0, -m.max.value, (k: nat) => -OrZero(deltas(k).max), n);
  }

  lemma FoldStep(h: Hist, deltas: nat -> Hist, lib: Settled, n: nat)
    requires n > 0 && PopulatedDelta(deltas(n - 1)) && IsFold(h, deltas, n - 1)
    ensures IsFold(Merged(h, deltas(n - 1), lib), deltas, n)
    ensures Merged(h, deltas(n - 1), lib).count == SumOfObservations(deltas, n)
  {
    hide Merged, CarriesExtremes, Total;
    var delta := deltas(n - 1);
    assert Observations(delta) >= delta.count;
    MergeTotals(h, delta, lib);
    MergeSums(h, delta, lib);
    FoldExtremes(h, delta, lib, deltas, n);
  }

  /** From an empty point, a run of populated deltas leaves exactly their totals and extremes. */
  lemma {:induction false} MergeIsFold(deltas: nat -> Hist, lib: nat -> Settled, n: nat)
    requires forall k: nat :: PopulatedDelta(deltas(k))
    ensures IsFold(MergedRun(EMPTY, deltas, lib, n), deltas, n)
    ensures MergedRun(EMPTY, deltas, lib, n).count == SumOfObservations(deltas, n)
  {
    hide IsFold, Merged, PopulatedDelta;
    if n == 0 {
      EmptyIsFold(deltas);
    } else {
      MergeIsFold(deltas, lib, n - 1);
      FoldStep(MergedRun(EMPTY, deltas, lib, n - 1), deltas, lib(n - 1), n);
    }
  }

  // ----- positive data -----

  ghost predicate PositiveSample(h: Hist) { h.positive.Populated() && !h.negative.Populated() }

  /** Holds observations, all above 0. */
  ghost predicate PositivePoint(h: Hist) {
    h.count > 0 && h.min.Some? && h.max.Some? && 0.0 < h.min.value && 0.0 < h.max.value && OrZero(h.sum) > 0.0
  }

  lemma PositiveSummary(s: Summary)
    requires Bounded(s) && s.count > 0
    ensures s.min > 0.0 && s.max > 0.0 && s.sum > 0.0
  {
    assert s.min * s.count as real > 0.0;
  }

  lemma NothingSummarized(s: Summary)
    requires Bounded(s) && s.count == 0
    ensures s.sum == 0.0
  {
    NoWeight(s);
  }

  /** A delta generated from a sample without negative buckets has a positive Min and Sum. */
  lemma GeneratedIsPositive(e: Exp2, delta: Hist, sample: Hist, bound: real, tape: Tape, p: nat, n: nat)
    requires e.Valid() && bound > 0.0 && tape.Valid() && PositiveSample(sample)
    requires GeneratedFrom(e, delta, sample, bound, tape, p, n)
    ensures PositivePoint(delta)
  {
    SummaryBounds(e, delta.positive, |delta.positive.counts|, delta.scale, bound, tape, p);
    SummaryBounds(e, delta.negative, |delta.negative.counts|, delta.scale, bound, tape, n);
    assert delta.positive.counts[..|delta.positive.counts|] == delta.positive.counts;
    assert delta.negative.counts[..|delta.negative.counts|] == delta.negative.counts;
    hide SummaryOf, Bounded, Total;
    RandomizedSidePopulated(delta.positive, sample.positive, tape);
    RandomizedSidePopulated(delta.negative, sample.negative, tape);
    hide RandomizedSide;
    var pos := SideSummary(e, delta.positive, delta.scale, bound, tape, p);
    PositiveSummary(pos);
    NothingSummarized(SideSummary(e, delta.negative, delta.scale, bound, tape, n));
  }

  ghost predicate AllPositive(samples: seq<Hist>) { forall s :: s in samples ==> PositiveSample(s) }

  lemma DrawnIsPositive(e: Exp2, delta: Hist, samples: seq<Hist>, sample: Hist, bound: real, tape: Tape, p: nat, n: nat)
    requires e.Valid() && bound > 0.0 && tape.Valid() && sample in samples
    requires GeneratedFrom(e, delta, sample, bound, tape, p, n)
    ensures AllPositive(samples) ==> PositivePoint(delta)
  {
    hide GeneratedFrom, PositivePoint, PositiveSample;
    if AllPositive(samples) {
      GeneratedIsPositive(e, delta, sample, bound, tape, p, n);
    }
  }

  // ----- a run as the receiver starts it -----

  /** The i-th of a sequence of deltas, the last one repeated for ever. */
  function Nth(ds: seq<Hist>): nat -> Hist
    requires ds != []
  {
    (k: nat) => if k < |ds| then ds[k] else ds[|ds| - 1]
  }

  lemma {:induction false} SumsAgree(f: nat -> Hist, g: nat -> Hist, n: nat)
    requires forall k: nat :: k < n ==> f(k) == g(k)
    ensures SumOfSums(f, n) == SumOfSums(g, n) && SumOfObservations(f, n) == SumOfObservations(g, n)
  {
    hide Observations;
    if n > 0 {
      SumsAgree(f, g, n - 1);
    }
  }

  lemma LeastAgrees(x: real, f: nat -> real, g: nat -> real, n: nat)
    requires IsLeast(x, f, n) && forall k: nat :: k < n ==> f(k) == g(k)
    ensures IsLeast(x, g, n)
  {
    var k :| 0 <= k < n && f(k) == x;
    assert g(k) == x;
  }

  /** Later deltas do not matter. */
  lemma FoldAgrees(h: Hist, f: nat -> Hist, g: nat -> Hist, n: nat)
    requires IsFold(h, f, n) && forall k: nat :: k < n ==> f(k) == g(k)
    ensures IsFold(h, g, n)
  {
    SumsAgree(f, g, n);
    hide SumOfSums, SumOfObservations, Observations;
    if n > 0 {
      LeastAgrees(h.min.value, (k: nat) => OrZero(f(k).min), (k: nat) => OrZero(g(k).min), n);
      LeastAgrees(-h.max.value, (k: nat) => -OrZero(f(k).max), (k: nat) => -OrZero(g(k).max), n);
    }
  }

  lemma FirstIsFold(h: Hist)
    requires PopulatedDelta(h)
    ensures IsFold(h, Nth([h]), 1)
  {
    var f := Nth([h]);
    assert f(0) == h;
    assert SumOfObservations(f, 1) == SumOfObservations(f, 0) + Observations(h);
    assert SumOfSums(f, 1) == SumOfSums(f, 0) + OrZero(h.sum);
    hide Observations, Nth, IsLeast;
    LeastExtends(0.0, h.min.value, (k: nat) => OrZero(f(k).min), 1);
    LeastExtends(0.0, -h.max.value, (k: nat) => -OrZero(f(k).max), 1);
  }

  lemma NextIsFold(h: Hist, ds: seq<Hist>, delta: Hist, lib: Settled)
    requires ds != [] && PopulatedDelta(delta) && IsFold(h, Nth(ds), |ds|)
    ensures IsFold(Merged(h, delta, lib), Nth(ds + [delta]), |ds| + 1)
    ensures Merged(h, delta, lib).count == Observations(Merged(h, delta, lib))
  {
    var f := Nth(ds + [delta]);
    assert f(|ds|) == delta;
    hide IsFold, Merged, PopulatedDelta;
    FoldAgrees(h, Nth(ds), f, |ds|);
    FoldStep(h, f, lib, |ds| + 1);
    MergeTotals(h, delta, lib);
  }

  lemma FoldTotals(h: Hist, deltas: nat -> Hist, n: nat)
    requires IsFold(h, deltas, n)
    ensures Observations(h) == SumOfObservations(deltas, n)
  {
  }

  lemma GeneratedIsPopulated(e: Exp2, delta: Hist, sample: Hist, bound: real, tape: Tape, p: nat, n: nat)
    requires tape.Valid() && GeneratedFrom(e, delta, sample, bound, tape, p, n) && PopulatedSample(sample)
    ensures PopulatedDelta(delta)
  {
    hide PopulatedSample;
    DeltaPopulatedExactlyWhen(e, delta, sample, bound, tape, p, n);
  }

  /** A cumulative point over a run: generated once at startup, then one merge a tick. It always
      holds the total Sum, the least Min and the greatest Max of all that was generated, and
      from the first tick on Count is the total of all observations. */
  method CumulativeRun(e: Exp2, ra: Rand, samples: seq<Hist>, bound: real, libs: seq<Settled>, target: HistogramPoint)
    returns (ghost ds: seq<Hist>)
    requires e.Valid() && ra.tape.Valid() && samples != [] && bound > 0.0
    requires forall s :: s in samples ==> UsableSample(s, ra.tape) && PopulatedSample(s)
    requires target.positive != target.negative
    modifies ra, target, target.positive, target.negative
    ensures |ds| == |libs| + 1
    ensures forall k :: 0 <= k < |ds| ==> PopulatedDelta(ds[k]) && WithinBuckets(e, ds[k], bound)
    ensures IsFold(target.Value(), Nth(ds), |ds|)
    ensures libs != [] ==> target.count == SumOfObservations(Nth(ds), |ds|)
    ensures AllPositive(samples) ==> forall k :: 0 <= k < |ds| ==> PositivePoint(ds[k])
  {
    hide UsableSample, WithinBuckets, PopulatedSample, GeneratedFrom, AllPositive, PositivePoint, IsFold, Merged,
      Observations,
      SumOfObservations, Nth;
    ghost var sample, p, n := GenerateInto(e, ra, samples, bound, target);
    GeneratedIsPopulated(e, target.Value(), sample, bound, ra.tape, p, n);
    DrawnIsPositive(e, target.Value(), samples, sample, bound, ra.tape, p, n);
    ds := [target.Value()];
    FirstIsFold(target.Value());
    for i := 0 to |libs|
      invariant |ds| == i + 1
      invariant forall k :: 0 <= k < |ds| ==> PopulatedDelta(ds[k]) && WithinBuckets(e, ds[k], bound)
      invariant IsFold(target.Value(), Nth(ds), |ds|)
      invariant i > 0 ==> target.count == Observations(target.Value())
      invariant AllPositive(samples) ==> forall k :: 0 <= k < |ds| ==> PositivePoint(ds[k])
    {
      ghost var was := target.Value();
      ghost var delta;
      delta, sample, p, n := MergeInto(e, ra, samples, bound, libs[i], target);
      NextIsFold(was, ds, delta, libs[i]);
      DrawnIsPositive(e, delta, samples, sample, bound, ra.tape, p, n);
      ds := ds + [delta];
    }
    FoldTotals(target.Value(), Nth(ds), |ds|);
  }

  /** Whatever scales the library picks, the template's Count never decreases. */
  lemma {:induction false} CountNeverDecreases(start: Hist, deltas: nat -> Hist, lib: nat -> Settled, m: nat, n: nat)
    requires m <= n && start.count <= Observations(start)
    ensures MergedRun(start, deltas, lib, m).count <= MergedRun(start, deltas, lib, n).count
    ensures MergedRun(start, deltas, lib, n).count <= Observations(MergedRun(start, deltas, lib, n))
    decreases n
  {
    if n > 0 {
      CountNeverDecreases(start, deltas, lib, if m == n then m - 1 else m, n - 1);
      MergeTotals(MergedRun(start, deltas, lib, n - 1), deltas(n - 1), lib(n - 1));
    }
  }

  // ----- runs of positive data -----

  /** Widened by a positive delta: no total shrinks, and the bounds only move apart. */
  ghost predicate Widens(h: Hist, g: Hist) {
    && OrZero(h.sum) < OrZero(g.sum)
    && OrZero(g.min) <= OrZero(h.min) && OrZero(h.max) <= OrZero(g.max)
  }

  lemma PositiveMerge(h: Hist, delta: Hist, lib: Settled)
    requires PositivePoint(delta) && ConsistentDelta(delta) && (PositivePoint(h) || h == EMPTY)
    ensures PositivePoint(Merged(h, delta, lib)) && (h != EMPTY ==> Widens(h, Merged(h, delta, lib)))
  {
    MergeTotals(h, delta, lib);
    assert Observations(delta) >= delta.count;
    hide ReplayOf, ReadOut, UpdatesTotal, ZeroTotal, Total, ConsistentDelta, Observations;
  }

  lemma {:induction false} PositiveRun(start: Hist, deltas: nat -> Hist, lib: nat -> Settled, n: nat)
    requires PositivePoint(start) || start == EMPTY
    requires forall t: nat :: PositivePoint(deltas(t)) && ConsistentDelta(deltas(t))
    ensures var h := MergedRun(start, deltas, lib, n);
            PositivePoint(h) || (n == 0 && h == EMPTY)
  {
    hide Merged, PositivePoint, ConsistentDelta;
    if n > 0 {
      PositiveRun(start, deltas, lib, n - 1);
      PositiveMerge(MergedRun(start, deltas, lib, n - 1), deltas(n - 1), lib(n - 1));
    }
  }

  /** Over any run of merges of positive deltas, into an empty point or one that holds positive
      data, at any scales: Sum grows with every merge, Min stays positive and never rises, Max
      never falls, and Count is positive. */
  lemma {:induction false} PositiveRunWidens(start: Hist, deltas: nat -> Hist, lib: nat -> Settled, m: nat, n: nat)
    requires m < n && (PositivePoint(start) || (start == EMPTY && m > 0))
    requires forall t: nat :: PositivePoint(deltas(t)) && ConsistentDelta(deltas(t))
    ensures PositivePoint(MergedRun(start, deltas, lib, m)) && PositivePoint(MergedRun(start, deltas, lib, n))
    ensures Widens(MergedRun(start, deltas, lib, m), MergedRun(start, deltas, lib, n))
    decreases n
  {
    hide Merged, ConsistentDelta;
    var h := MergedRun(start, deltas, lib, n - 1);
    PositiveRun(start, deltas, lib, m);
    PositiveRun(start, deltas, lib, n - 1);
    PositiveMerge(h, deltas(n - 1), lib(n - 1));
    if m < n - 1 {
      PositiveRunWidens(start, deltas, lib, m, n - 1);
    }
  }
}
