/** The Sum of a cumulative histogram belongs to its own buckets, merge after merge (expohistogen.go). */
module EdgeRuns {
  import opened Numbers
  import opened Buckets
  import opened Replay
  import opened Edges
  import opened Expo
  import opened ExpoMerge
  import opened ExpoVariation

  // ----- edges of a read-out -----

  lemma {:induction false} EdgeSumOutside(e: Exp2, b: Buckets, scale: int, up: int, lo: int, mid: int, hi: int)
    requires lo <= mid <= hi && (mid >= b.offset + |b.counts| || hi <= b.offset)
    ensures EdgeSum(e, b, scale, up, lo, hi) == EdgeSum(e, b, scale, up, lo, mid)
    decreases hi - mid
  {
    hide Boundary;
    if mid < hi {
      EdgeSumOutside(e, b, scale, up, lo, mid, hi - 1);
      NoWeightAtZero(Boundary(e, hi - 1 + up, scale), 0.0);
    }
  }

  lemma {:induction false} EdgeSumFrom(e: Exp2, b: Buckets, scale: int, up: int, lo: int, hi: int)
    requires lo <= b.offset <= hi
    ensures EdgeSum(e, b, scale, up, lo, hi) == EdgeSum(e, b, scale, up, b.offset, hi)
    decreases hi - b.offset
  {
    hide Boundary;
    if b.offset < hi {
      EdgeSumFrom(e, b, scale, up, lo, hi - 1);
    } else {
      EdgeSumOutside(e, b, scale, up, lo, lo, hi);
    }
  }

  /** The sum over all buckets, by any range that covers them. */
  lemma EdgeSumCovers(e: Exp2, b: Buckets, scale: int, up: int, lo: int, hi: int)
    requires lo <= b.offset && b.offset + |b.counts| <= hi
    ensures EdgeSum(e, b, scale, up, lo, hi) == EdgeSum(e, b, scale, up, b.offset, b.offset + |b.counts|)
  {
    EdgeSumOutside(e, b, scale, up, lo, b.offset + |b.counts|, hi);
    EdgeSumFrom(e, b, scale, up, lo, b.offset + |b.counts|);
    hide EdgeSum;
  }

  lemma WeightAdds(x: real, m: nat, n: nat)
    ensures Scaled(x, (m + n) as real) == Scaled(x, m as real) + Scaled(x, n as real)
  {
    assert (m + n) as real == m as real + n as real;
  }

  lemma {:induction false} EdgeSumAddAt(e: Exp2, b: Buckets, scale: int, up: int, i: int, n: nat, lo: int, hi: int)
    ensures EdgeSum(e, AddAt(b, i, n), scale, up, lo, hi)
         == EdgeSum(e, b, scale, up, lo, hi)
            + if lo <= i < hi then Scaled(Boundary(e, i + up, scale), n as real) else 0.0
    decreases if hi > lo then hi - lo else 0
  {
    hide Boundary, Scaled;
    if hi > lo {
      EdgeSumAddAt(e, b, scale, up, i, n, lo, hi - 1);
      WeightAdds(Boundary(e, hi - 1 + up, scale), b.At(hi - 1), n);
      hide AddAt;
    }
  }

  ghost function AllEdges(e: Exp2, b: Buckets, scale: int, up: int): real {
    EdgeSum(e, b, scale, up, b.offset, b.offset + |b.counts|)
  }

  lemma AllEdgesAddAt(e: Exp2, b: Buckets, scale: int, up: int, i: int, n: nat)
    ensures AllEdges(e, AddAt(b, i, n), scale, up)
         == AllEdges(e, b, scale, up) + Scaled(Boundary(e, i + up, scale), n as real)
  {
    var r := AddAt(b, i, n);
    var lo := MinInt(MinInt(b.offset, r.offset), i);
    var hi := MaxInt(MaxInt(b.offset + |b.counts|, r.offset + |r.counts|), i + 1);
    hide AddAt, EdgeSum, Boundary, Scaled;
    EdgeSumCovers(e, b, scale, up, lo, hi);
    EdgeSumCovers(e, r, scale, up, lo, hi);
    EdgeSumAddAt(e, b, scale, up, i, n, lo, hi);
  }

  /** What the updates of one sign add up to on the edges of the buckets they land in at this scale. */
  ghost function UpdateEdges(e: Exp2, us: seq<Update>, sign: Sign, scale: int, up: int): real {
    if us == [] then 0.0 else
      var u := us[|us| - 1];
      UpdateEdges(e, us[..|us| - 1], sign, scale, up)
      + if HasSign(u, sign) then Scaled(Boundary(e, Index(u.value.exponent, scale) + up, scale),
                                        u.incr as real) else 0.0
  }

  lemma NoEdges(e: Exp2, scale: int, up: int)
    ensures AllEdges(e, Buckets(0, []), scale, up) == 0.0
  {
  }

  lemma {:induction false} ReadOutEdges(e: Exp2, us: seq<Update>, sign: Sign, scale: int, up: int)
    ensures AllEdges(e, ReadOut(us, sign, scale), scale, up) == UpdateEdges(e, us, sign, scale, up)
  {
    hide AllEdges, Boundary, Index, AddAt, Scaled;
    if us == [] {
      NoEdges(e, scale, up);
    } else {
      var n := |us| - 1;
      ReadOutEdges(e, us[..n], sign, scale, up);
      if HasSign(us[n], sign) {
        AllEdgesAddAt(e, ReadOut(us[..n], sign, scale), scale, up, Index(us[n].value.exponent, scale), us[n].incr);
      }
    }
  }

  lemma {:induction false} UpdateEdgesAppend(e: Exp2, us: seq<Update>, ws: seq<Update>, sign: Sign, scale: int, up: int)
    ensures UpdateEdges(e, us + ws, sign, scale, up)
         == UpdateEdges(e, us, sign, scale, up) + UpdateEdges(e, ws, sign, scale, up)
  {
    hide Boundary, Index, Scaled;
    if ws == [] {
      assert us + ws == us;
    } else {
      var n := |ws| - 1;
      UpdateEdgesAppend(e, us, ws[..n], sign, scale, up);
      assert (us + ws)[..|us + ws| - 1] == us + ws[..n];
    }
  }

  // ----- a coarser bucket reaches at least as far -----

  lemma EqualQuotients(x: real, f: real, m: real)
    requires f > 0.0 && m > 0.0
    ensures x / f == x * m / (f * m)
  {
    var q := x / f;
    assert q * f == x;
    assert q * (f * m) == x * m;
    QuotientIs(x * m, f * m, q);
  }

  lemma SameExponent(i: int, coarse: int, d: nat)
    ensures i as real / ScaleFactor(coarse) == (i * Pow2(d)) as real / ScaleFactor(coarse + d)
  {
    ScaleFactorShift(coarse, d);
    hide ScaleFactor, Pow2;
    ProductAsReal(i, Pow2(d));
    EqualQuotients(i as real, ScaleFactor(coarse), Pow2(d) as real);
  }

  /** A boundary of a coarser scale is one of the finer scale, 2^d apart. */
  lemma SameBoundary(e: Exp2, i: int, coarse: int, d: nat)
    ensures Boundary(e, i, coarse) == Boundary(e, i * Pow2(d), coarse + d)
  {
    SameExponent(i, coarse, d);
    hide ScaleFactor, Pow2;
  }

  lemma RunEdges(k: int, m: int)
    requires m >= 1
    ensures k / m * m <= k && k + 1 <= (k / m + 1) * m
  {
    DivisionIdentity(k, m);
  }

  lemma CoarserReachesFurther(e: Exp2, k: int, coarse: int, d: nat)
    requires e.Valid()
    ensures Boundary(e, k / Pow2(d), coarse) <= Boundary(e, k, coarse + d)
    ensures Boundary(e, k + 1, coarse + d) <= Boundary(e, k / Pow2(d) + 1, coarse)
  {
    hide Boundary, Pow2, Exp2.Valid;
    var m, i := Pow2(d), k / Pow2(d);
    SameBoundary(e, i, coarse, d);
    SameBoundary(e, i + 1, coarse, d);
    RunEdges(k, m);
    BoundaryGrows(e, i * m, k, coarse + d);
    BoundaryGrows(e, k + 1, (i + 1) * m, coarse + d);
  }

  lemma NothingReplayed(e: Exp2, offset: int, sign: Sign, coarse: int, d: nat, up: int)
    ensures UpdateEdges(e, ReplaySide(offset, [], sign, coarse + d), sign, coarse, up) == 0.0
    ensures EdgeSum(e, Buckets(offset, []), coarse + d, up, offset, offset) == 0.0
  {
  }

  lemma BucketEdges(e: Exp2, k: int, coarse: int, d: nat, n: nat)
    requires e.Valid()
    ensures Scaled(Boundary(e, k / Pow2(d) + 0, coarse), n as real) <= Scaled(Boundary(e, k + 0, coarse + d), n as real)
    ensures Scaled(Boundary(e, k + 1, coarse + d), n as real) <= Scaled(Boundary(e, k / Pow2(d) + 1, coarse), n as real)
  {
    CoarserReachesFurther(e, k, coarse, d);
    hide Boundary;
    ScaledMonotone(Boundary(e, k / Pow2(d), coarse), Boundary(e, k, coarse + d), n as real);
    ScaledMonotone(Boundary(e, k + 1, coarse + d), Boundary(e, k / Pow2(d) + 1, coarse), n as real);
  }

  lemma OneMoreUpdate(e: Exp2, before: seq<Update>, sign: Sign, exponent: real, n: nat, scale: int, up: int)
    ensures UpdateEdges(e, before + [Update(NonZero(sign, exponent), n)], sign, scale, up)
         == UpdateEdges(e, before, sign, scale, up) + Scaled(Boundary(e, Index(exponent, scale) + up, scale), n as real)
  {
    assert (before + [Update(NonZero(sign, exponent), n)])[..|before|] == before;
    hide Boundary, Index, Scaled;
  }

  /** The last bucket is replayed into the coarser bucket above it, if there is anything in it. */
  lemma ReplayedStep(e: Exp2, offset: int, counts: seq<nat>, sign: Sign, coarse: int, d: nat, up: int)
    requires counts != []
    ensures var n := |counts| - 1;
            UpdateEdges(e, ReplaySide(offset, counts, sign, coarse + d), sign, coarse, up)
            == UpdateEdges(e, ReplaySide(offset, counts[..n], sign, coarse + d), sign, coarse, up)
               + Scaled(Boundary(e, (offset + n) / Pow2(d) + up, coarse), counts[n] as real)
  {
    var n := |counts| - 1;
    hide Boundary, Index, MidpointExponent, Scaled, Pow2, UpdateEdges;
    NoWeightAtZero(Boundary(e, (offset + n) / Pow2(d) + up, coarse), 0.0);
    if counts[n] > 0 {
      MidpointIsFaithful(offset + n, coarse + d, d);
      assert coarse + d - d == coarse;
      OneMoreUpdate(e, ReplaySide(offset, counts[..n], sign, coarse + d), sign,
                    MidpointExponent(offset + n, coarse + d), counts[n], coarse, up);
    }
  }

  lemma {:induction false} EdgeOfPrefix(e: Exp2, offset: int, counts: seq<nat>, scale: int, up: int, hi: int)
    requires counts != [] && hi <= offset + |counts| - 1
    ensures EdgeSum(e, Buckets(offset, counts), scale, up, offset, hi)
         == EdgeSum(e, Buckets(offset, counts[..|counts| - 1]), scale, up, offset, hi)
    decreases if hi > offset then hi - offset else 0
  {
    hide Boundary;
    if hi > offset {
      EdgeOfPrefix(e, offset, counts, scale, up, hi - 1);
    }
  }

  lemma EdgePrefix(e: Exp2, offset: int, counts: seq<nat>, scale: int, up: int)
    requires counts != []
    ensures var n := |counts| - 1;
            EdgeSum(e, Buckets(offset, counts), scale, up, offset, offset + |counts|)
            == EdgeSum(e, Buckets(offset, counts[..n]), scale, up, offset, offset + n)
               + Scaled(Boundary(e, offset + n + up, scale), counts[n] as real)
  {
    EdgeOfPrefix(e, offset, counts, scale, up, offset + |counts| - 1);
    hide Boundary, Scaled;
  }

  lemma {:induction false} ReplayedEdges(e: Exp2, offset: int, counts: seq<nat>, sign: Sign, coarse: int, d: nat)
    requires e.Valid()
    ensures UpdateEdges(e, ReplaySide(offset, counts, sign, coarse + d), sign, coarse, 0)
         <= EdgeSum(e, Buckets(offset, counts), coarse + d, 0, offset, offset + |counts|)
    ensures EdgeSum(e, Buckets(offset, counts), coarse + d, 1, offset, offset + |counts|)
         <= UpdateEdges(e, ReplaySide(offset, counts, sign, coarse + d), sign, coarse, 1)
  {
    hide Boundary, EdgeSum, UpdateEdges, ReplaySide;
    if counts == [] {
      NothingReplayed(e, offset, sign, coarse, d, 0);
      NothingReplayed(e, offset, sign, coarse, d, 1);
      assert offset + |counts| == offset;
    } else {
      var n := |counts| - 1;
      ReplayedEdges(e, offset, counts[..n], sign, coarse, d);
      EdgePrefix(e, offset, counts, coarse + d, 0);
      EdgePrefix(e, offset, counts, coarse + d, 1);
      ReplayedStep(e, offset, counts, sign, coarse, d, 0);
      ReplayedStep(e, offset, counts, sign, coarse, d, 1);
      BucketEdges(e, offset + n, coarse, d, counts[n]);
      hide Scaled, Pow2;
    }
  }

  lemma OtherSide(e: Exp2, offset: int, counts: seq<nat>, sign: Sign, other: Sign, scale: int, at: int, up: int)
    requires sign != other
    ensures UpdateEdges(e, ReplaySide(offset, counts, sign, scale), other, at, up) == 0.0
  {
    hide Boundary, Index, MidpointExponent;
    if counts != [] {
      OtherSide(e, offset, counts[..|counts| - 1], sign, other, scale, at, up);
    }
  }

  lemma ZeroHasNoEdges(e: Exp2, n: nat, sign: Sign, at: int, up: int)
    ensures UpdateEdges(e, ZeroUpdates(n), sign, at, up) == 0.0
  {
  }

  /** Replayed at a coarser scale, a side's edges only move apart. */
  lemma SideEdges(e: Exp2, h: Hist, sign: Sign, coarse: int, d: nat)
    requires e.Valid() && h.scale == coarse + d
    ensures UpdateEdges(e, ReplayOf(h), sign, coarse, 0) <= LeastSum(e, Side(h, sign), h.scale)
    ensures GreatestSum(e, Side(h, sign), h.scale) <= UpdateEdges(e, ReplayOf(h), sign, coarse, 1)
  {
    var p := ReplaySide(h.positive.offset, h.positive.counts, Pos, h.scale);
    var n := ReplaySide(h.negative.offset, h.negative.counts, Neg, h.scale);
    hide ReplaySide, UpdateEdges, EdgeSum;
    forall up: int ensures UpdateEdges(e, ReplayOf(h), sign, coarse, up)
                        == UpdateEdges(e, if sign == Pos then p else n, sign, coarse, up)
    {
      UpdateEdgesAppend(e, p + n, ZeroUpdates(h.zeroCount), sign, coarse, up);
      UpdateEdgesAppend(e, p, n, sign, coarse, up);
      ZeroHasNoEdges(e, h.zeroCount, sign, coarse, up);
      OtherSide(e, h.positive.offset, h.positive.counts, Pos, Neg, h.scale, coarse, up);
      OtherSide(e, h.negative.offset, h.negative.counts, Neg, Pos, h.scale, coarse, up);
    }
    var b := Side(h, sign);
    ReplayedEdges(e, b.offset, b.counts, sign, coarse, d);
    assert Buckets(b.offset, b.counts) == b;
  }

  /** Merging at a scale no finer than either moves the edges of each side apart. */
  lemma MergedEdges(e: Exp2, target: Hist, delta: Hist, lib: Settled, sign: Sign)
    requires e.Valid() && lib.scale <= target.scale && lib.scale <= delta.scale
    ensures var m := Merged(target, delta, lib);
            && LeastSum(e, Side(m, sign), m.scale)
               <= LeastSum(e, Side(target, sign), target.scale) + LeastSum(e, Side(delta, sign), delta.scale)
            && GreatestSum(e, Side(target, sign), target.scale) + GreatestSum(e, Side(delta, sign), delta.scale)
               <= GreatestSum(e, Side(m, sign), m.scale)
  {
    var a, b := ReplayOf(target), ReplayOf(delta);
    MergedSide(target, delta, lib, sign);
    ReadOutEdges(e, a + b, sign, lib.scale, 0);
    ReadOutEdges(e, a + b, sign, lib.scale, 1);
    hide ReplayOf, ReadOut, Merged, UpdateEdges, EdgeSum;
    UpdateEdgesAppend(e, a, b, sign, lib.scale, 0);
    UpdateEdgesAppend(e, a, b, sign, lib.scale, 1);
    SideEdges(e, target, sign, lib.scale, target.scale - lib.scale);
    SideEdges(e, delta, sign, lib.scale, delta.scale - lib.scale);
  }

  lemma MergeKeepsSumWithin(e: Exp2, target: Hist, delta: Hist, lib: Settled)
    requires e.Valid() && lib.scale <= target.scale && lib.scale <= delta.scale
    requires target.sum.Some? && delta.sum.Some? && SumWithinBuckets(e, target) && SumWithinBuckets(e, delta)
    ensures SumWithinBuckets(e, Merged(target, delta, lib)) && Merged(target, delta, lib).sum.Some?
  {
    hide LeastSum, GreatestSum, ReplayOf, ReadOut, UpdatesTotal, ZeroTotal, MergedMin, MergedMax;
    MergedEdges(e, target, delta, lib, Pos);
    MergedEdges(e, target, delta, lib, Neg);
  }

  /** The scale before merge t. */
  function ScaleBefore(start: Hist, lib: nat -> Settled, t: nat): int {
    if t == 0 then start.scale else lib(t - 1).scale
  }

  /** The library never settles on a scale finer than what it is given. */
  ghost predicate NeverRefines(start: Hist, deltas: nat -> Hist, lib: nat -> Settled) {
    forall t: nat :: lib(t).scale <= deltas(t).scale && lib(t).scale <= ScaleBefore(start, lib, t)
  }

  lemma NotRefined(start: Hist, deltas: nat -> Hist, lib: nat -> Settled, t: nat)
    requires NeverRefines(start, deltas, lib)
    ensures lib(t).scale <= deltas(t).scale && lib(t).scale <= ScaleBefore(start, lib, t)
  {
  }

  lemma ScaleAfter(start: Hist, deltas: nat -> Hist, lib: nat -> Settled, n: nat)
    ensures MergedRun(start, deltas, lib, n).scale == ScaleBefore(start, lib, n)
  {
    if n > 0 {
      MergedSide(MergedRun(start, deltas, lib, n - 1), deltas(n - 1), lib(n - 1), Pos);
    }
    hide Merged;
  }

  /** Over any run of merges that never refine the scale, the template's Sum lies between the sums of
      the boundaries of its own buckets, however often they have been coarsened. */
  lemma {:induction false} SumStaysWithinBuckets(e: Exp2, start: Hist, deltas: nat -> Hist, lib: nat -> Settled, n: nat)
    requires e.Valid() && NeverRefines(start, deltas, lib) && start.sum.Some? && SumWithinBuckets(e, start)
    requires forall t: nat :: deltas(t).sum.Some? && SumWithinBuckets(e, deltas(t))
    ensures MergedRun(start, deltas, lib, n).sum.Some? && SumWithinBuckets(e, MergedRun(start, deltas, lib, n))
  {
    hide Merged, SumWithinBuckets, NeverRefines, ScaleBefore, Exp2.Valid;
    if n > 0 {
      SumStaysWithinBuckets(e, start, deltas, lib, n - 1);
      ScaleAfter(start, deltas, lib, n - 1);
      NotRefined(start, deltas, lib, n - 1);
      MergeKeepsSumWithin(e, MergedRun(start, deltas, lib, n - 1), deltas(n - 1), lib(n - 1));
    }
  }

  /** What generation gives, the run keeps. */
  lemma GeneratedSumIsWithin(e: Exp2, delta: Hist, bound: real)
    requires WithinBuckets(e, delta, bound)
    ensures delta.sum.Some? && SumWithinBuckets(e, delta)
  {
    hide LeastSum, GreatestSum;
  }
}
