/** Replaying buckets through their midpoints into an accumulator, and reading the
    accumulator out at another scale (expohistogen.go). Values are kept by their base-2
    exponent: a positive value v is 2^x for exactly one real x. */
module Replay {
  import opened Numbers
  import opened Buckets

  function Pow2(d: nat): (r: int)
    ensures r >= 1
  {
    if d == 0 then 1 else 2 * Pow2(d - 1)
  }

  /** 2^scale for any integer scale. */
  function ScaleFactor(scale: int): (r: real)
    ensures r > 0.0
    decreases if scale < 0 then -scale else scale
  {
    if scale == 0 then 1.0
    else if scale > 0 then ScaleFactor(scale - 1) + ScaleFactor(scale - 1)
    else ScaleFactor(scale + 1) / 2.0
  }

  function Ceil(x: real): int { -((-x).Floor) }

  /** The bucket of 2^exponent: buckets include their upper boundary. */
  function Index(exponent: real, scale: int): int {
    Ceil(Scaled(exponent, ScaleFactor(scale))) - 1
  }

  /** 2^x, of which only 2^0 = 1, positivity, strict growth and 2^(x+1) = 2 * 2^x are used. */
  datatype Exp2 = Exp2(f: real -> real) {
    ghost predicate Valid() {
      && f(0.0) == 1.0
      && (forall x :: f(x) > 0.0)
      && (forall x, y :: x < y ==> f(x) < f(y))
      && (forall x :: f(x + 1.0) == 2.0 * f(x))
    }
  }

  /** Powers of two joined by straight lines. */
  function Interpolated(x: real): real {
    Scaled(ScaleFactor(x.Floor), 1.0 + (x - x.Floor as real))
  }

  lemma BetweenPowers(p: real, f: real)
    requires p > 0.0 && 0.0 <= f < 1.0
    ensures p <= Scaled(p, 1.0 + f) < p + p
    ensures Scaled(p + p, 1.0 + f) == 2.0 * Scaled(p, 1.0 + f)
  {
  }

  lemma ScaleFactorDoubles(scale: int)
    ensures ScaleFactor(scale + 1) == ScaleFactor(scale) + ScaleFactor(scale)
  {
  }

  lemma InterpolatedBetween(x: real)
    ensures ScaleFactor(x.Floor) <= Interpolated(x) < ScaleFactor(x.Floor + 1)
    ensures Interpolated(x + 1.0) == 2.0 * Interpolated(x)
  {
    var n, f := x.Floor, x - x.Floor as real;
    assert (x + 1.0).Floor == n + 1;
    ScaleFactorDoubles(n);
    hide ScaleFactor;
    BetweenPowers(ScaleFactor(n), f);
    assert Interpolated(x) == Scaled(ScaleFactor(n), 1.0 + f);
    assert Interpolated(x + 1.0) == Scaled(ScaleFactor(n + 1), 1.0 + f);
  }

  lemma {:induction false} ScaleFactorGrows(m: int, n: int)
    requires m <= n
    ensures ScaleFactor(m) <= ScaleFactor(n)
    decreases n - m
  {
    if m < n {
      ScaleFactorGrows(m, n - 1);
      ScaleFactorDoubles(n - 1);
    }
  }

  lemma StrictFactor(p: real, x: real, y: real)
    requires p > 0.0 && x < y
    ensures Scaled(p, x) < Scaled(p, y)
  {
    assert p * (y - x) > 0.0;
  }

  lemma InterpolatedGrows(x: real, y: real)
    requires x < y
    ensures Interpolated(x) < Interpolated(y)
  {
    InterpolatedBetween(x);
    InterpolatedBetween(y);
    var n := x.Floor;
    if y.Floor == n {
      hide ScaleFactor;
      StrictFactor(ScaleFactor(n), 1.0 + (x - n as real), 1.0 + (y - n as real));
    } else {
      ScaleFactorGrows(n + 1, y.Floor);
    }
  }

  /** A function with the assumed properties exists. */
  lemma Exp2Exists() returns (e: Exp2)
    ensures e.Valid()
  {
    e := Exp2(Interpolated);
    assert Interpolated(0.0) == 1.0;
    hide Interpolated;
    forall x ensures e.f(x) > 0.0 && e.f(x + 1.0) == 2.0 * e.f(x) {
      InterpolatedBetween(x);
    }
    forall x, y | x < y ensures e.f(x) < e.f(y) {
      InterpolatedGrows(x, y);
    }
  }

  function Boundary(e: Exp2, i: int, scale: int): real {
    e.f(i as real / ScaleFactor(scale))
  }

  lemma {:induction false} WholePowers(e: Exp2, n: int)
    requires e.Valid()
    ensures e.f(n as real) == ScaleFactor(n)
    decreases if n < 0 then -n else n
  {
    if n > 0 {
      WholePowers(e, n - 1);
      assert e.f((n - 1) as real + 1.0) == 2.0 * e.f((n - 1) as real);
    } else if n < 0 {
      WholePowers(e, n + 1);
      assert e.f(n as real + 1.0) == 2.0 * e.f(n as real);
    }
  }

  lemma {:induction false} WholeFactor(scale: nat)
    ensures ScaleFactor(scale) == Pow2(scale) as real
  {
    if scale > 0 {
      WholeFactor(scale - 1);
    }
  }

  lemma WholeQuotient(n: int, m: nat)
    requires m > 0
    ensures (n * m) as real / m as real == n as real
  {
    ProductAsReal(n, m);
    QuotientIs((n * m) as real, m as real, n as real);
  }

  /** Every 2^scale-th boundary is a power of two: bucket boundaries divide each doubling evenly. */
  lemma BoundariesHitPowers(e: Exp2, n: int, scale: nat)
    requires e.Valid()
    ensures Boundary(e, n * Pow2(scale), scale) == ScaleFactor(n)
  {
    WholeFactor(scale);
    WholePowers(e, n);
    hide Pow2, ScaleFactor, Exp2.Valid;
    WholeQuotient(n, Pow2(scale));
  }

  lemma QuotientOrder(i: int, x: real, m: real)
    requires m > 0.0
    ensures i as real / m < x <==> (i as real) < Scaled(x, m)
  {
    var q := i as real / m;
    assert q * m == i as real;
    assert Scaled(x, m) - i as real == (x - q) * m;
    if q < x { assert (x - q) * m > 0.0; } else { NonNegativeProduct(q - x, m); }
  }

  /** Index is the one i with 2^(i/2^scale) < value <= 2^((i+1)/2^scale). */
  lemma IndexIsTheBucket(e: Exp2, exponent: real, scale: int, i: int)
    requires e.Valid()
    ensures Boundary(e, i, scale) < e.f(exponent) <= Boundary(e, i + 1, scale) <==> i == Index(exponent, scale)
  {
    var m := ScaleFactor(scale);
    QuotientOrder(i, exponent, m);
    QuotientOrder(i + 1, exponent, m);
    var y := Scaled(exponent, m);
    assert (i as real) < y <= (i + 1) as real <==> i == Ceil(y) - 1;
    var low, high := i as real / m, (i + 1) as real / m;
    assert e.f(low) < e.f(exponent) <==> low < exponent;
    assert e.f(exponent) <= e.f(high) <==> exponent <= high;
  }

  lemma DoubledProduct(x: real, n: int)
    ensures Scaled(x, (2 * n) as real) == Scaled(x, n as real) + Scaled(x, n as real)
  {
    assert (2 * n) as real == n as real + n as real;
  }

  lemma {:induction false} ScaleFactorShift(scale: int, d: nat)
    ensures ScaleFactor(scale + d) == Scaled(ScaleFactor(scale), Pow2(d) as real)
  {
    if d == 0 {
      assert Scaled(ScaleFactor(scale), 1.0) == ScaleFactor(scale);
    } else {
      ScaleFactorShift(scale, d - 1);
      ScaleFactorDoubles(scale + d - 1);
      DoubledProduct(ScaleFactor(scale), Pow2(d - 1));
      assert Pow2(d) == 2 * Pow2(d - 1);
      hide *;
    }
  }

  lemma DistributeStep(x: real, m: real)
    ensures Scaled(x + 1.0, m) == Scaled(x, m) + m
  {
  }

  lemma StrictScale(x: real, y: real, m: real)
    requires x < y && m > 0.0
    ensures Scaled(x, m) < Scaled(y, m)
  {
    assert (y - x) * m > 0.0;
  }

  lemma ScaledBetween(z: real, k: int, m: int)
    requires m >= 1 && (k as real) < z <= k as real + 1.0
    ensures ((k * m) as real) < Scaled(z, m as real) <= (k * m + m) as real
  {
    var mr := m as real;
    ProductAsReal(k, m);
    StrictScale(k as real, z, mr);
    ScaledMonotone(z, k as real + 1.0, mr);
    DistributeStep(k as real, mr);
    assert (k * m + m) as real == (k * m) as real + mr;
  }

  lemma CeilOfMultiple(z: real, m: int)
    requires m >= 1
    ensures (Ceil(Scaled(z, m as real)) - 1) / m == Ceil(z) - 1
  {
    hide Scaled;
    var k, y := Ceil(z) - 1, Scaled(z, m as real);
    ScaledBetween(z, k, m);
    assert k * m < Ceil(y) <= k * m + m;
    UniqueQuotient(Ceil(y) - 1, m, k, Ceil(y) - 1 - k * m);
  }

  lemma Reassociate(x: real, f: real, m: real)
    ensures Scaled(Scaled(x, f), m) == Scaled(x, Scaled(f, m))
  {
  }

  /** Perfect subsetting: each bucket at a coarser scale is a run of whole finer buckets. */
  lemma PerfectSubsetting(exponent: real, scale: int, d: nat)
    ensures Index(exponent, scale) == Index(exponent, scale + d) / Pow2(d)
  {
    hide ScaleFactor, Scaled, Pow2;
    var f, m := ScaleFactor(scale), Pow2(d);
    ScaleFactorShift(scale, d);
    Reassociate(exponent, f, m as real);
    CeilOfMultiple(Scaled(exponent, f), m);
  }

  /** The exponent of the value replayed for bucket `index`. */
  function MidpointExponent(index: int, scale: int): real {
    (index as real + 0.5) / ScaleFactor(scale)
  }

  lemma MidpointMapsBack(index: int, scale: int)
    ensures Index(MidpointExponent(index, scale), scale) == index
  {
    var m, y := ScaleFactor(scale), index as real + 0.5;
    assert Scaled(y / m, m) == y;
    assert Ceil(y) == index + 1;
  }

  /** The replayed midpoint falls back into its own bucket, into that bucket's ancestor at
      every coarser scale, and into one of its descendants at every finer scale. */
  lemma MidpointIsFaithful(index: int, scale: int, d: nat)
    ensures Index(MidpointExponent(index, scale), scale) == index
    ensures Index(MidpointExponent(index, scale), scale - d) == index / Pow2(d)
    ensures Index(MidpointExponent(index, scale), scale + d) / Pow2(d) == index
  {
    var x := MidpointExponent(index, scale);
    MidpointMapsBack(index, scale);
    PerfectSubsetting(x, scale - d, d);
    PerfectSubsetting(x, scale, d);
    assert scale - d + d == scale;
  }

  // ----- the accumulator -----

  datatype Sign = Pos | Neg

  /** A value handed to the accumulator. */
  datatype LogValue = ZeroValue | NonZero(sign: Sign, exponent: real)

  datatype Update = Update(value: LogValue, incr: nat)

  /** Did this update land in bucket i of the given sign at the given scale? */
  predicate Lands(u: Update, sign: Sign, scale: int, i: int) {
    u.value.NonZero? && u.value.sign == sign && Index(u.value.exponent, scale) == i
  }

  function BucketCount(us: seq<Update>, sign: Sign, scale: int, i: int): nat {
    if us == [] then 0 else
      BucketCount(us[..|us| - 1], sign, scale, i) + if Lands(us[|us| - 1], sign, scale, i) then us[|us| - 1].incr else 0
  }

  predicate HasSign(u: Update, sign: Sign) { u.value.NonZero? && u.value.sign == sign }

  function SignTotal(us: seq<Update>, sign: Sign): nat {
    if us == [] then 0 else
      SignTotal(us[..|us| - 1], sign) + if HasSign(us[|us| - 1], sign) then us[|us| - 1].incr else 0
  }

  function ZeroTotal(us: seq<Update>): nat {
    if us == [] then 0 else
      ZeroTotal(us[..|us| - 1]) + if us[|us| - 1].value.ZeroValue? then us[|us| - 1].incr else 0
  }

  lemma {:induction false} CountsAppend(us: seq<Update>, vs: seq<Update>, sign: Sign, scale: int, i: int)
    ensures BucketCount(us + vs, sign, scale, i) == BucketCount(us, sign, scale, i) + BucketCount(vs, sign, scale, i)
  {
    if vs == [] {
      assert us + vs == us;
    } else {
      CountsAppend(us, vs[..|vs| - 1], sign, scale, i);
      assert (us + vs)[..|us + vs| - 1] == us + vs[..|vs| - 1];
    }
  }

  lemma {:induction false} TotalsAppend(us: seq<Update>, vs: seq<Update>, sign: Sign)
    ensures SignTotal(us + vs, sign) == SignTotal(us, sign) + SignTotal(vs, sign)
    ensures ZeroTotal(us + vs) == ZeroTotal(us) + ZeroTotal(vs)
  {
    if vs == [] {
      assert us + vs == us;
    } else {
      TotalsAppend(us, vs[..|vs| - 1], sign);
      assert (us + vs)[..|us + vs| - 1] == us + vs[..|vs| - 1];
    }
  }

  function Zeros(n: nat): (z: seq<nat>)
    ensures |z| == n && forall k :: 0 <= k < n ==> z[k] == 0
  {
    seq(n, _ => 0)
  }

  /** Adds n at absolute index i, growing the bucket range when needed. */
  function AddAt(b: Buckets, i: int, n: nat): (r: Buckets)
    ensures forall k :: r.At(k) == b.At(k) + if k == i then n else 0
  {
    if b.counts == [] then Buckets(i, [n])
    else if i < b.offset then Buckets(i, [n] + Zeros(b.offset - i - 1) + b.counts)
    else if i >= b.offset + |b.counts| then Buckets(b.offset, b.counts + Zeros(i - b.offset - |b.counts|) + [n])
    else Buckets(b.offset, b.counts[i - b.offset := b.counts[i - b.offset] + n])
  }

  /** The accumulator's buckets of one sign, as reported at a scale. */
  function ReadOut(us: seq<Update>, sign: Sign, scale: int): Buckets {
    if us == [] then Buckets(0, []) else
      var before, u := ReadOut(us[..|us| - 1], sign, scale), us[|us| - 1];
      if HasSign(u, sign) then AddAt(before, Index(u.value.exponent, scale), u.incr) else before
  }

  lemma {:induction false} ReadOutCounts(us: seq<Update>, sign: Sign, scale: int, i: int)
    ensures ReadOut(us, sign, scale).At(i) == BucketCount(us, sign, scale, i)
  {
    if us != [] {
      ReadOutCounts(us[..|us| - 1], sign, scale, i);
    }
  }

  lemma {:induction false} RangeAdd(b: Buckets, i: int, n: nat, lo: int, hi: int)
    ensures RangeTotal(AddAt(b, i, n), lo, hi) == RangeTotal(b, lo, hi) + if lo <= i < hi then n else 0
    decreases if hi > lo then hi - lo else 0
  {
    if hi > lo {
      RangeAdd(b, i, n, lo, hi - 1);
    }
  }

  lemma {:induction false} ReadOutConserves(us: seq<Update>, sign: Sign, scale: int)
    ensures Total(ReadOut(us, sign, scale).counts) == SignTotal(us, sign)
  {
    if us != [] {
      var before, u := ReadOut(us[..|us| - 1], sign, scale), us[|us| - 1];
      ReadOutConserves(us[..|us| - 1], sign, scale);
      if HasSign(u, sign) {
        var i := Index(u.value.exponent, scale);
        var after := AddAt(before, i, u.incr);
        var lo := MinInt(i, MinInt(before.offset, after.offset));
        var hi := MaxInt(i + 1, MaxInt(before.offset + |before.counts|, after.offset + |after.counts|));
        TotalIsRange(before, lo, hi);
        TotalIsRange(after, lo, hi);
        RangeAdd(before, i, u.incr, lo, hi);
      }
    }
  }

  /** What b holds in bucket i of a scale coarser by d. */
  function RunTotal(b: Buckets, i: int, d: nat): nat {
    RangeTotal(b, i * Pow2(d), (i + 1) * Pow2(d))
  }

  /** Index k at scale + d lies below index i at `scale` exactly when it is in this run. */
  lemma InRun(k: int, i: int, m: int)
    requires m >= 1
    ensures k / m == i <==> i * m <= k < (i + 1) * m
  {
    QuotientAtLeast(k, m, i);
    QuotientAtLeast(k, m, i + 1);
  }

  /** Coarsening what was read out gives what would have been read out at the coarser scale. */
  lemma {:induction false} CoarsenedReadOut(us: seq<Update>, sign: Sign, coarse: int, d: nat, i: int)
    ensures RunTotal(ReadOut(us, sign, coarse + d), i, d) == BucketCount(us, sign, coarse, i)
  {
    hide Index, Pow2, AddAt, RangeTotal;
    var m := Pow2(d);
    if us == [] {
      RangeOfEmpty(0, i * m, (i + 1) * m);
    } else {
      var before, u := us[..|us| - 1], us[|us| - 1];
      CoarsenedReadOut(before, sign, coarse, d, i);
      if HasSign(u, sign) {
        var k := Index(u.value.exponent, coarse + d);
        PerfectSubsetting(u.value.exponent, coarse, d);
        InRun(k, i, m);
        RangeAdd(ReadOut(before, sign, coarse + d), k, u.incr, i * m, (i + 1) * m);
      }
    }
  }

  /** The updates one side of a histogram is replayed as: populated buckets in order. */
  function ReplaySide(offset: int, counts: seq<nat>, sign: Sign, scale: int): seq<Update> {
    if counts == [] then [] else
      var n := |counts| - 1;
      var before := ReplaySide(offset, counts[..n], sign, scale);
      if counts[n] > 0 then before + [Update(NonZero(sign, MidpointExponent(offset + n, scale)), counts[n])] else before
  }

  lemma {:induction false} RangeOfLonger(offset: int, counts: seq<nat>, lo: int, hi: int)
    requires counts != []
    ensures var n := |counts| - 1;
            RangeTotal(Buckets(offset, counts), lo, hi)
            == RangeTotal(Buckets(offset, counts[..n]), lo, hi) + if lo <= offset + n < hi then counts[n] else 0
    decreases if hi > lo then hi - lo else 0
  {
    if hi > lo {
      RangeOfLonger(offset, counts, lo, hi - 1);
    }
  }

  /** Replay then coarsen: every coarse bucket receives exactly the counts of its own run,
      and nothing lands on the other side. */
  lemma {:induction false} ReplayConservesRuns(offset: int, counts: seq<nat>, sign: Sign, coarse: int, d: nat, i: int)
    ensures BucketCount(ReplaySide(offset, counts, sign, coarse + d), sign, coarse, i)
         == RunTotal(Buckets(offset, counts), i, d)
  {
    hide Index, MidpointExponent, Pow2, RangeTotal;
    var m := Pow2(d);
    if counts == [] {
      RangeOfEmpty(offset, i * m, (i + 1) * m);
    } else {
      var n := |counts| - 1;
      ReplayConservesRuns(offset, counts[..n], sign, coarse, d, i);
      RangeOfLonger(offset, counts, i * m, (i + 1) * m);
      if counts[n] > 0 {
        MidpointIsFaithful(offset + n, coarse + d, d);
        InRun(offset + n, i, m);
        var us := ReplaySide(offset, counts, sign, coarse + d);
        assert us[..|us| - 1] == ReplaySide(offset, counts[..n], sign, coarse + d);
      }
    }
  }

  lemma {:induction false} ReplaySideTotals(offset: int, counts: seq<nat>, sign: Sign, other: Sign, scale: int, i: int)
    requires sign != other
    ensures var us := ReplaySide(offset, counts, sign, scale);
            && SignTotal(us, sign) == Total(counts) && SignTotal(us, other) == 0 && ZeroTotal(us) == 0
            && BucketCount(us, other, scale, i) == 0
    ensures forall c :: BucketCount(ReplaySide(offset, counts, sign, scale), other, c, i) == 0
  {
    if counts != [] {
      var n := |counts| - 1;
      ReplaySideTotals(offset, counts[..n], sign, other, scale, i);
      if counts[n] > 0 {
        var us := ReplaySide(offset, counts, sign, scale);
        assert us[..|us| - 1] == ReplaySide(offset, counts[..n], sign, scale);
      }
    }
  }
}
