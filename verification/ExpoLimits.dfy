/** When the library changes the scale of a cumulative histogram, an instance's Count and Sum can
    fall (expohistogen.go, instance_variation.go). */
module ExpoLimits {
  import opened Numbers
  import opened Config
  import opened Hash
  import opened Buckets
  import opened Replay
  import opened Expo
  import opened ExpoMerge
  import opened ExpoVariation

  // ----- two buckets whose multipliers differ -----

  function SpreadBucket(h: bv64): bv64 { h * 0xd1342543de82ef95 }

  function UnspreadBucket(h: bv64): bv64 { h * 0x572b5ee77a54e3bd }

  /** What a bucket index adds to the identity hash for its multiplier. */
  function BucketKey(bucketIdx: int): bv64 { SpreadBucket(Uint64(bucketIdx)) }

  lemma SpreadBucketInverts(h: bv64)
    ensures SpreadBucket(h) == h * 0xd1342543de82ef95 && UnspreadBucket(h * 0xd1342543de82ef95) == h
  {
  }

  lemma KeysDiffer(i: int, j: int)
    requires Uint64(i) != Uint64(j)
    ensures BucketKey(i) != BucketKey(j)
  {
    hide Uint64, SpreadBucket, UnspreadBucket;
    SpreadBucketInverts(Uint64(i));
    SpreadBucketInverts(Uint64(j));
  }

  lemma UnitIs(identityHash: bv64, bucketIdx: int)
    ensures CountUnit(identityHash, 0, bucketIdx) == HashToUnitInterval(Mixed(Xor(BucketKey(bucketIdx), identityHash)))
  {
    XorCommutes(identityHash, BucketKey(bucketIdx));
    InstanceZero(Xor(identityHash, BucketKey(bucketIdx)));
    assert CountUnit(identityHash, 0, bucketIdx)
         == HashToUnitInterval(MixInstanceID(Xor(identityHash, BucketKey(bucketIdx)), 0)) by {
      hide HashToUnitInterval, MixInstanceID, Xor, Uint64;
    }
    hide *;
  }

  lemma SwapSalt(g: bv64, h: bv64, salt: bv64)
    ensures Xor(g, Xor(Xor(g, h), salt)) == Xor(h, salt) && Xor(h, Xor(Xor(g, h), salt)) == Xor(g, salt)
  {
    hide *;
    XorAssociates(g, h, salt);
    XorCancels(g, Xor(h, salt));
    XorCommutes(g, h);
    XorAssociates(h, g, salt);
    XorCancels(h, Xor(g, salt));
  }

  lemma Projected(h: bv64, n: nat)
    requires n == h as int
    ensures n < TWO_64 && HashToUnitInterval(h) == UnitOf(n)
  {
    hide UnitOf;
  }

  lemma ProjectionGap(g: bv64, h: bv64)
    requires HashToUnitInterval(g) < HashToUnitInterval(h)
    ensures HashToUnitInterval(h) - HashToUnitInterval(g) >= 1.0 / 9007199254740992.0
  {
    hide *;
    var m, n := g as int, h as int;
    Projected(g, m);
    Projected(h, n);
    UnitGap(m, n);
  }

  lemma CountUnitGap(identityHash: bv64, i: int, j: int)
    requires CountUnit(identityHash, 0, i) > CountUnit(identityHash, 0, j)
    ensures CountUnit(identityHash, 0, i) - CountUnit(identityHash, 0, j) >= 1.0 / 9007199254740992.0
  {
    UnitIs(identityHash, i);
    UnitIs(identityHash, j);
    hide *;
    ProjectionGap(Mixed(Xor(BucketKey(j), identityHash)), Mixed(Xor(BucketKey(i), identityHash)));
  }

  /** For two buckets with different keys some identity hash gives the first the larger multiplier. */
  lemma LargerUnit(i: int, j: int) returns (identityHash: bv64)
    requires Uint64(i) != Uint64(j)
    ensures CountUnit(identityHash, 0, i) - CountUnit(identityHash, 0, j) >= 1.0 / 9007199254740992.0
  {
    KeysDiffer(i, j);
    var g, h := BucketKey(i), BucketKey(j);
    hide *;
    var salt := SaltSeparates(g, h);
    var swapped := Xor(Xor(g, h), salt);
    SwapSalt(g, h, salt);
    UnitIs(salt, i);
    UnitIs(salt, j);
    UnitIs(swapped, i);
    UnitIs(swapped, j);
    identityHash := if CountUnit(salt, 0, i) > CountUnit(salt, 0, j) then salt else swapped;
    CountUnitGap(identityHash, i, j);
  }

  // ----- a template with one populated bucket, and one more observation -----

  /** n observations of value v, all in bucket i. */
  function Single(scale: int, i: int, n: nat, v: real): Hist {
    Hist(scale, Buckets(i, [n]), Buckets(0, []), 0, n, Some(Scaled(v, n as real)), Some(v), Some(v))
  }

  /** Where the replayed observations of bucket i land. */
  function Landing(i: int, scale: int, at: int): int { Index(MidpointExponent(i, scale), at) }

  lemma SingleIsConsistent(scale: int, i: int, n: nat, v: real)
    requires n > 0
    ensures PopulatedDelta(Single(scale, i, n, v))
      && Single(scale, i, n, v).count == Observations(Single(scale, i, n, v))
  {
    assert Total([n]) == Total([]) + n by { assert [n][..0] == []; }
  }

  lemma SingleReplay(scale: int, i: int, n: nat, v: real)
    requires n > 0
    ensures ReplayOf(Single(scale, i, n, v)) == [Update(NonZero(Pos, MidpointExponent(i, scale)), n)]
  {
    var h := Single(scale, i, n, v);
    assert [n][..0] == [];
    assert ReplaySide(i, [], Pos, scale) == [] && ReplaySide(0, [], Neg, scale) == [];
    assert ReplaySide(i, [n], Pos, scale) == [] + [Update(NonZero(Pos, MidpointExponent(i + 0, scale)), n)];
    hide ReplaySide, MidpointExponent;
  }

  function NoBuckets(): Buckets { Buckets(0, []) }

  lemma MergedZeros(a: Hist, b: Hist, lib: Settled)
    ensures Merged(a, b, lib).zeroCount == a.zeroCount + b.zeroCount
  {
    MergeTotals(a, b, lib);
    hide Merged;
  }

  lemma ReadTwo(u: Update, w: Update, at: int)
    requires u.value.NonZero? && u.value.sign == Pos && w.value.NonZero? && w.value.sign == Pos
    ensures ReadOut([u, w], Neg, at) == NoBuckets()
    ensures ReadOut([u, w], Pos, at)
         == AddAt(AddAt(NoBuckets(), Index(u.value.exponent, at), u.incr), Index(w.value.exponent, at), w.incr)
  {
    hide AddAt, Index;
    assert [u, w][..1] == [u] && [u][..0] == [];
    assert ReadOut([], Neg, at) == NoBuckets() && ReadOut([], Pos, at) == NoBuckets();
    assert ReadOut([u], Neg, at) == NoBuckets();
    assert ReadOut([u], Pos, at) == AddAt(NoBuckets(), Index(u.value.exponent, at), u.incr);
  }

  /** Merging two such points: each lands in one bucket of the result. */
  lemma MergedSingles(scale: int, i: int, n: nat, scale': int, k: int, m: nat, v: real, lib: Settled)
    requires n > 0 && m > 0
    ensures var h := Merged(Single(scale, i, n, v), Single(scale', k, m, v), lib);
            && h.scale == lib.scale && h.zeroCount == 0 && h.negative == NoBuckets()
            && h.positive == AddAt(AddAt(NoBuckets(), Landing(i, scale, lib.scale), n), Landing(k, scale', lib.scale),
                                   m)
  {
    var a, b := Single(scale, i, n, v), Single(scale', k, m, v);
    SingleReplay(scale, i, n, v);
    SingleReplay(scale', k, m, v);
    MergedSide(a, b, lib, Pos);
    MergedSide(a, b, lib, Neg);
    var u, w := Update(NonZero(Pos, MidpointExponent(i, scale)), n),
      Update(NonZero(Pos, MidpointExponent(k, scale')), m);
    assert ReplayOf(a) + ReplayOf(b) == [u, w];
    ReadTwo(u, w, lib.scale);
    MergedZeros(a, b, lib);
    hide *;
  }

  lemma SamePoints(b: Buckets, c: Buckets)
    requires PointwiseAtMost(b, c) && PointwiseAtMost(c, b)
    ensures Total(b.counts) == Total(c.counts)
  {
    TotalMonotone(b, c);
    TotalMonotone(c, b);
  }

  lemma TotalAddAt(b: Buckets, i: int, n: nat)
    ensures Total(AddAt(b, i, n).counts) == Total(b.counts) + n
  {
    var r := AddAt(b, i, n);
    var lo := MinInt(MinInt(b.offset, r.offset), i);
    var hi := MaxInt(MaxInt(b.offset + |b.counts|, r.offset + |r.counts|), i + 1);
    hide AddAt, Total, RangeTotal;
    TotalIsRange(b, lo, hi);
    TotalIsRange(r, lo, hi);
    RangeAdd(b, i, n, lo, hi);
  }

  lemma NoTotal()
    ensures Total(NoBuckets().counts) == 0
  {
  }

  /** One bucket more or less varied with the others. */
  lemma CopyOfTwo(identityHash: bv64, instanceID: bv64, j: int, n: nat, k: int, m: nat)
    ensures Total(Varied(identityHash, instanceID, AddAt(AddAt(NoBuckets(), j, n), k, m)).counts)
         == if j == k then VariedCount(identityHash, instanceID, j, n + m)
            else VariedCount(identityHash, instanceID, j, n) + VariedCount(identityHash, instanceID, k, m)
  {
    hide VariedCount, Varied, AddAt, Total;
    var b := AddAt(AddAt(NoBuckets(), j, n), k, m);
    var v := Varied(identityHash, instanceID, b);
    var x, y := VariedCount(identityHash, instanceID, j, if j == k then n + m else n),
      VariedCount(identityHash, instanceID, k, m);
    var w := AddAt(AddAt(NoBuckets(), j, x), k, if j == k then 0 else y);
    forall i ensures v.At(i) == w.At(i) {
      VariedAt(identityHash, instanceID, b, i);
      PopulatedStays(identityHash, instanceID, i, 0);
      assert NoBuckets().At(i) == 0;
    }
    hide Buckets.At;
    SamePoints(v, w);
    NoTotal();
    TotalAddAt(NoBuckets(), j, x);
    TotalAddAt(AddAt(NoBuckets(), j, x), k, if j == k then 0 else y);
  }

  lemma NothingVaried(identityHash: bv64)
    ensures Total(Varied(identityHash, 0, NoBuckets()).counts) == 0
  {
  }

  lemma OneVaried(identityHash: bv64, i: int, n: nat)
    ensures Total(Varied(identityHash, 0, Buckets(i, [n])).counts) == VariedCount(identityHash, 0, i, n)
  {
    hide VariedCount;
    var c := Varied(identityHash, 0, Buckets(i, [n])).counts;
    assert c == [VariedCount(identityHash, 0, i + 0, n)] && c[..0] == [];
  }

  /** The Count of an instance's copy of one bucket, and of two merged ones. */
  lemma EmittedSingles(e: Exp2, scale: nat, i: int, n: nat, scale': int, k: int, m: nat, v: real, lib: Settled,
                       identityHash: bv64)
    requires n > 0 && m > 0 && lib.scale >= 0
    ensures Emitted(e, Single(scale, i, n, v), 0, identityHash).count == VariedCount(identityHash, 0, i, n)
    ensures var j, l := Landing(i, scale, lib.scale), Landing(k, scale', lib.scale);
            Merged(Single(scale, i, n, v), Single(scale', k, m, v), lib).scale >= 0 &&
            Emitted(e, Merged(Single(scale, i, n, v), Single(scale', k, m, v), lib), 0, identityHash).count
            == if j == l then VariedCount(identityHash, 0, j, n + m)
               else VariedCount(identityHash, 0, j, n) + VariedCount(identityHash, 0, l, m)
  {
    MergedSingles(scale, i, n, scale', k, m, v, lib);
    hide VariedCount, Merged, AddAt, Landing, WeightedSum, Total, Xor;
    NothingVaried(Xor(identityHash, NEGATIVE_SALT));
    OneVaried(identityHash, i, n);
    CopyOfTwo(identityHash, 0, Landing(i, scale, lib.scale), n, Landing(k, scale', lib.scale), m);
    hide Varied;
  }

  // ----- counts large enough to tell any two multipliers apart -----

  const LARGE: nat := 54043195528445952

  lemma RoundApart(x: real, y: real)
    requires x >= y + 2.0
    ensures Round(x) >= Round(y) + 2
  {
  }

  lemma LargeCountFalls(identityHash: bv64, i: int, j: int)
    requires CountUnit(identityHash, 0, i) - CountUnit(identityHash, 0, j) >= 1.0 / 9007199254740992.0
    ensures VariedCount(identityHash, 0, i, LARGE) > VariedCount(identityHash, 0, j, LARGE) + 1
  {
    var u, w := CountUnit(identityHash, 0, i), CountUnit(identityHash, 0, j);
    hide CountUnit;
    var x, y := Scaled(LARGE as real, BucketMultiplier(u)), Scaled(LARGE as real, BucketMultiplier(w));
    assert x >= y + 2.0 && y >= 1.0;
    RoundApart(x, y);
    RoundMonotone(1.0, y);
    RoundInteger(1);
    hide Round, Scaled, BucketMultiplier;
  }

  // ----- where bucket 1 lands -----

  lemma HalfStep(d: nat)
    requires d > 0
    ensures Pow2(d) == 2 * Pow2(d - 1)
  {
  }

  lemma QuotientScaled(x: real, f: real, m: real)
    requires f > 0.0
    ensures Scaled(x / f, Scaled(f, m)) == Scaled(x, m)
  {
    var q := x / f;
    assert q * f == x;
    Reassociate(q, f, m);
  }

  lemma HalfProduct(i: real, h: real)
    ensures Scaled(i + 0.5, 2.0 * h) == Scaled(i, 2.0 * h) + h
  {
  }

  /** d scales finer, a midpoint lands on the last descendant below the middle. */
  lemma MidpointDescends(i: int, scale: int, d: nat)
    requires d > 0
    ensures Landing(i, scale, scale + d) == i * Pow2(d) + Pow2(d - 1) - 1
  {
    var f, m := ScaleFactor(scale), Pow2(d) as real;
    ScaleFactorShift(scale, d);
    HalfStep(d);
    hide ScaleFactor, Pow2;
    var x := i as real + 0.5;
    assert Scaled(x / f, Scaled(f, m)) == Scaled(x, m) by { QuotientScaled(x, f, m); }
    ProductAsReal(i, Pow2(d));
    HalfProduct(i as real, Pow2(d - 1) as real);
    assert m == 2.0 * Pow2(d - 1) as real;
    var n := i * Pow2(d) + Pow2(d - 1);
    assert Scaled(x, m) == n as real;
    assert Ceil(n as real) == n;
  }

  lemma OneModuloFour(j: int)
    requires j % TWO_64 == 1
    ensures j % 4 == 1
  {
    DivisionIdentity(j, TWO_64);
  }

  lemma NotOne(p: int)
    requires p == 1 || p == 2 || p % 4 == 0
    ensures (3 * p - 1) % TWO_64 != 1
  {
    if (3 * p - 1) % TWO_64 == 1 {
      OneModuloFour(3 * p - 1);
    }
  }

  lemma PowersOfTwo(d: nat)
    ensures Pow2(d) == 1 || Pow2(d) == 2 || Pow2(d) % 4 == 0
  {
    if d >= 2 {
      assert Pow2(d) == 2 * Pow2(d - 1) && Pow2(d - 1) == 2 * Pow2(d - 2);
    }
  }

  lemma PatternOne(n: nat)
    requires n < TWO_64 && n as bv64 == 1
    ensures n == 1
  {
    assert (n as bv64) as int == 1;
  }

  lemma OnlyOneIsOne(j: int)
    requires j % TWO_64 != 1
    ensures Uint64(j) != Uint64(1)
  {
    var n := j % TWO_64;
    if n as bv64 == 1 {
      PatternOne(n);
    }
  }

  lemma BucketOneCoarser(scale: int, d: nat)
    requires d > 0
    ensures Landing(1, scale, scale - d) == 0
  {
    MidpointIsFaithful(1, scale, d);
    HalfStep(d);
    hide MidpointExponent, Index;
    assert 1 / Pow2(d) == 0 by { UniqueQuotient(1, Pow2(d), 0, 1); }
  }

  lemma BucketOneFiner(scale: int, d: nat)
    requires d > 0
    ensures Landing(1, scale, scale + d) % TWO_64 != 1
  {
    MidpointDescends(1, scale, d);
    HalfStep(d);
    PowersOfTwo(d - 1);
    hide *;
    NotOne(Pow2(d - 1));
  }

  lemma ZeroIsNotOne()
    ensures 0 % TWO_64 != 1
  {
  }

  /** At any other scale bucket 1 lands in a bucket with another key. */
  lemma BucketOneMoves(scale: int, at: int)
    requires at != scale
    ensures Uint64(Landing(1, scale, at)) != Uint64(1)
  {
    hide *;
    if at < scale {
      BucketOneCoarser(scale, scale - at);
      assert scale - (scale - at) == at;
      ZeroIsNotOne();
      OnlyOneIsOne(0);
    } else {
      BucketOneFiner(scale, at - scale);
      assert scale + (at - scale) == at;
      OnlyOneIsOne(Landing(1, scale, at));
    }
  }

  // ----- a thousand observations, the identity hash 0 and instance 0 -----

  lemma KeysOfZeroAndOne()
    ensures BucketKey(0) == 0 && BucketKey(1) == 0xd1342543de82ef95
  {
    assert Uint64(0) == 0 && Uint64(1) == 1;
  }

  lemma KeyOfOneMixes()
    ensures Mixed(0xd1342543de82ef95) == 0x7baaa2fb16267b3
  {
  }

  lemma ValueOfOne()
    ensures HashToUnitInterval(0x7baaa2fb16267b3) > 0.03 && HashToUnitInterval(0) == 0.0
  {
    assert 0x7baaa2fb16267b3 as bv64 as int == 0x7baaa2fb16267b3;
    assert 0 as bv64 as int == 0;
  }

  /** Bucket 0 has the least multiplier there is, bucket 1 a larger one. */
  lemma UnitsOfZeroAndOne()
    ensures CountUnit(0, 0, 0) == 0.0 && CountUnit(0, 0, 1) > 0.03
  {
    hide *;
    UnitIs(0, 0);
    UnitIs(0, 1);
    KeysOfZeroAndOne();
    XorZero(0);
    XorZero(0xd1342543de82ef95);
    ZeroMixes();
    KeyOfOneMixes();
    ValueOfOne();
  }

  lemma RoundEightTenths()
    ensures Round(0.8 * 1000.0) == 800 && Round(0.8 * 1001.0) == 801
  {
  }

  lemma CountsOfZeroAndOne(n: nat)
    requires n == 1000 || n == 1001
    ensures VariedCount(0, 0, 0, n) <= 801 && (n == 1000 ==> VariedCount(0, 0, 0, n) == 800)
    ensures VariedCount(0, 0, 1, 1000) >= 812
  {
    UnitsOfZeroAndOne();
    var u := CountUnit(0, 0, 1);
    hide CountUnit;
    assert Scaled(1000.0, BucketMultiplier(u)) >= 812.0;
    RoundMonotone(812.0, Scaled(1000.0, BucketMultiplier(u)));
    RoundInteger(812);
    assert Scaled(n as real, BucketMultiplier(0.0)) == 0.8 * n as real;
    RoundEightTenths();
    hide Scaled, BucketMultiplier, Round;
  }

  lemma OneStaysOne(identityHash: bv64, i: int)
    ensures VariedCount(identityHash, 0, i, 1) == 1
  {
    var f := BucketMultiplier(CountUnit(identityHash, 0, i));
    assert f < 1.2 by { hide CountUnit; }
    hide CountUnit, BucketMultiplier;
    assert Scaled(1.0, f) == f;
    RoundMonotone(f, 1.2);
    assert Round(1.2) == 1;
    hide Round, Scaled;
  }

  // ----- the limit that forces a coarser scale -----

  /** The most buckets of one sign the library keeps. */
  const MAX_SIZE := 320

  /** All observations of one sign fit into that many buckets. */
  ghost predicate Fits(us: seq<Update>, at: int) {
    forall u, w :: u in us && w in us && u.value.NonZero? && w.value.NonZero? && u.value.sign == w.value.sign ==>
      Index(u.value.exponent, at) - Index(w.value.exponent, at) < MAX_SIZE
  }

  lemma SpreadProduct(q: int, m: int)
    ensures (q + MAX_SIZE) * m == (q + 1) * m + (MAX_SIZE - 1) * m
  {
  }

  lemma QuotientSpread(a: int, b: int, m: int)
    requires m >= 1 && a - b < MAX_SIZE
    ensures a / m - b / m < MAX_SIZE
  {
    var q := b / m + MAX_SIZE;
    if a / m >= q {
      QuotientAtLeast(a, m, q);
      QuotientAtLeast(b, m, b / m + 1);
      MulOrder(1, m, MAX_SIZE - 1);
      SpreadProduct(b / m, m);
    }
  }

  /** What fits at a scale fits at every coarser one. */
  lemma FitsCoarser(us: seq<Update>, at: int, d: nat)
    requires Fits(us, at + d)
    ensures Fits(us, at)
  {
    forall u, w | u in us && w in us && u.value.NonZero? && w.value.NonZero? && u.value.sign == w.value.sign
      ensures Index(u.value.exponent, at) - Index(w.value.exponent, at) < MAX_SIZE
    {
      PerfectSubsetting(u.value.exponent, at, d);
      PerfectSubsetting(w.value.exponent, at, d);
      QuotientSpread(Index(u.value.exponent, at + d), Index(w.value.exponent, at + d), Pow2(d));
    }
  }

  /** The scale the library settles on: the finest one at which everything fits. */
  ghost predicate IsFinestFit(us: seq<Update>, at: int) {
    Fits(us, at) && forall k :: k > at ==> !Fits(us, k)
  }

  lemma FitsTwo(u: Update, w: Update, at: int)
    requires u.value.NonZero? && w.value.NonZero? && u.value.sign == w.value.sign
    ensures Fits([u, w], at) <==> -MAX_SIZE < Index(u.value.exponent, at) - Index(w.value.exponent, at) < MAX_SIZE
  {
    hide Index;
    assert u in [u, w] && w in [u, w];
  }

  lemma FinestFit(us: seq<Update>, at: int)
    requires Fits(us, at) && !Fits(us, at + 1)
    ensures IsFinestFit(us, at)
  {
    hide Fits;
    forall k | k > at ensures !Fits(us, k) {
      if Fits(us, k) {
        assert (at + 1) + (k - at - 1) == k;
        FitsCoarser(us, at + 1, k - at - 1);
      }
    }
  }

  /** Two points settle where their buckets are close enough, and one scale finer are not. */
  lemma SinglesSettle(scale: int, i: int, n: nat, scale': int, k: int, m: nat, v: real, at: int)
    requires n > 0 && m > 0
    requires -MAX_SIZE < Landing(i, scale, at) - Landing(k, scale', at) < MAX_SIZE
    requires !(-MAX_SIZE < Landing(i, scale, at + 1) - Landing(k, scale', at + 1) < MAX_SIZE)
    ensures IsFinestFit(ReplayOf(Single(scale, i, n, v)) + ReplayOf(Single(scale', k, m, v)), at)
  {
    var u, w := Update(NonZero(Pos, MidpointExponent(i, scale)), n),
      Update(NonZero(Pos, MidpointExponent(k, scale')), m);
    SingleReplay(scale, i, n, v);
    SingleReplay(scale', k, m, v);
    assert ReplayOf(Single(scale, i, n, v)) + ReplayOf(Single(scale', k, m, v)) == [u, w];
    FitsTwo(u, w, at);
    FitsTwo(u, w, at + 1);
    FinestFit([u, w], at);
    hide ReplayOf, MidpointExponent, Index, IsFinestFit;
  }

  /** A bucket so far from bucket 1 that both fit only d scales coarser. */
  function FarBucket(d: nat): int
    requires d > 0
  {
    321 * Pow2(d - 1)
  }

  lemma FarLands(scale: int, d: nat)
    requires d > 0
    ensures Landing(FarBucket(d), scale, scale - d) == 160
    ensures Landing(FarBucket(d), scale, scale - (d - 1)) == 321
    ensures 0 <= Landing(1, scale, scale - (d - 1)) <= 1
  {
    var p := Pow2(d - 1);
    HalfStep(d);
    MidpointIsFaithful(FarBucket(d), scale, d);
    MidpointIsFaithful(FarBucket(d), scale, d - 1);
    MidpointIsFaithful(1, scale, d - 1);
    hide MidpointExponent, Index, Pow2;
    UniqueQuotient(321 * p, 2 * p, 160, p);
    UniqueQuotient(321 * p, p, 321, 0);
    QuotientAtLeast(1, p, 2);
    QuotientAtLeast(1, p, 0);
  }

  lemma FarForcesScale(scale: int, d: nat, n: nat, v: real)
    requires d > 0 && n > 0
    ensures IsFinestFit(ReplayOf(Single(scale, 1, n, v)) + ReplayOf(Single(scale, FarBucket(d), 1, v)), scale - d)
  {
    hide Landing, FarBucket, ReplayOf, IsFinestFit;
    BucketOneCoarser(scale, d);
    FarLands(scale, d);
    assert scale - (d - 1) == scale - d + 1;
    SinglesSettle(scale, 1, n, scale, FarBucket(d), 1, v, scale - d);
  }

  lemma CountsAfterMerge(e: Exp2, s: nat, k: int, v: real, lib: Settled)
    requires lib.scale >= 0 && Landing(1, s, lib.scale) == 0 && Landing(k, s, lib.scale) == 160
    ensures var a, b := Single(s, 1, 1000, v), Single(s, k, 1, v);
            Merged(a, b, lib).scale >= 0
            && Emitted(e, a, 0, 0).count == VariedCount(0, 0, 1, 1000)
            && Emitted(e, Merged(a, b, lib), 0, 0).count == VariedCount(0, 0, 0, 1000) + VariedCount(0, 0, 160, 1)
  {
    hide *;
    EmittedSingles(e, s, 1, 1000, s, k, 1, v, lib, 0);
  }

  /** A delta with one far observation makes the library coarsen by d, and the copy of a
      template with a thousand observations falls from at least 812 to 801. */
  lemma CoarserMergeLosesCount(e: Exp2, s: nat, d: nat, v: real, lib: Settled)
    requires 0 < d <= s && lib.scale == s - d
    ensures var a, b := Single(s, 1, 1000, v), Single(s, FarBucket(d), 1, v);
            && PopulatedDelta(a) && a.count == Observations(a) && PopulatedDelta(b)
            && IsFinestFit(ReplayOf(a) + ReplayOf(b), lib.scale)
            && Merged(a, b, lib).scale >= 0
            && Emitted(e, a, 0, 0).count >= 812 && Emitted(e, Merged(a, b, lib), 0, 0).count == 801
  {
    var k := FarBucket(d);
    SingleIsConsistent(s, 1, 1000, v);
    SingleIsConsistent(s, k, 1, v);
    hide *;
    FarForcesScale(s, d, 1000, v);
    BucketOneCoarser(s, d);
    FarLands(s, d);
    CountsAfterMerge(e, s, k, v, lib);
    CountsOfZeroAndOne(1000);
    OneStaysOne(0, 160);
  }

  // ----- the exact condition -----

  /** A new observation this far below the landing of bucket 1 keeps the library at c, and adds little. */
  function Below(s: int, c: int): int { Landing(1, s, c) - (MAX_SIZE - 1) }

  lemma BelowLands(s: int, c: int)
    ensures Landing(Below(s, c), c, c) == Below(s, c)
    ensures Landing(Below(s, c), c, c + 1) == 2 * Below(s, c)
    ensures Landing(1, s, c + 1) / 2 == Landing(1, s, c)
  {
    assert Pow2(1) == 2 && Pow2(0) == 1;
    hide Index, MidpointExponent, Below, Pow2;
    MidpointIsFaithful(Below(s, c), c, 0);
    MidpointDescends(Below(s, c), c, 1);
    PerfectSubsetting(MidpointExponent(1, s), c, 1);
  }

  lemma BelowForcesScale(s: int, c: int, n: nat, v: real)
    requires n > 0
    ensures IsFinestFit(ReplayOf(Single(s, 1, n, v)) + ReplayOf(Single(c, Below(s, c), 1, v)), c)
  {
    BelowLands(s, c);
    hide Landing, ReplayOf, IsFinestFit;
    SinglesSettle(s, 1, n, c, Below(s, c), 1, v, c);
  }

  /** At any other scale some instance's Count falls. */
  lemma OtherScaleFalls(e: Exp2, s: nat, c: nat, v: real, lib: Settled) returns (identityHash: bv64)
    requires lib.scale == c && c != s
    ensures var a, b := Single(s, 1, LARGE, v), Single(c, Below(s, c), 1, v);
            Merged(a, b, lib).scale >= 0
            && Emitted(e, Merged(a, b, lib), 0, identityHash).count < Emitted(e, a, 0, identityHash).count
  {
    var j := Landing(1, s, c);
    assert LARGE > 0 && j != Below(s, c);
    hide *;
    BucketOneMoves(s, c);
    identityHash := LargerUnit(1, j);
    LargeCountFalls(identityHash, 1, j);
    BelowLands(s, c);
    EmittedSingles(e, s, 1, LARGE, c, Below(s, c), 1, v, lib, identityHash);
    OneStaysOne(identityHash, Below(s, c));
  }

  ghost predicate CountKept(e: Exp2, target: Hist, delta: Hist, lib: Settled, instanceID: bv64, identityHash: bv64) {
    target.scale >= 0 && Merged(target, delta, lib).scale >= 0
    && Emitted(e, target, instanceID, identityHash).count
       <= Emitted(e, Merged(target, delta, lib), instanceID, identityHash).count
  }

  /** A merge as it happens: populated and consistent points, and the scale the library settles on. */
  ghost predicate Happens(target: Hist, delta: Hist, lib: Settled) {
    && target.count == Observations(target) && PopulatedDelta(target) && PopulatedDelta(delta)
    && IsFinestFit(ReplayOf(target) + ReplayOf(delta), lib.scale)
  }

  /** No merge from scale s to scale c leaves any instance's copy with a smaller Count. */
  ghost predicate KeepsCount(e: Exp2, s: nat, c: nat) {
    forall target: Hist, delta: Hist, lib: Settled, instanceID: bv64, identityHash: bv64 ::
      (target.scale == s && lib.scale == c && Happens(target, delta, lib))
      ==> CountKept(e, target, delta, lib, instanceID, identityHash)
  }

  lemma CountKeptAtScale(e: Exp2, target: Hist, delta: Hist, lib: Settled, instanceID: bv64, identityHash: bv64)
    requires e.Valid() && target.scale >= 0 && lib.scale == target.scale
    ensures CountKept(e, target, delta, lib, instanceID, identityHash)
  {
    hide Merged, Emitted;
    MergeGrows(target, delta, lib);
    MergedSide(target, delta, lib, Pos);
    EmissionMonotone(e, target, Merged(target, delta, lib), instanceID, identityHash);
  }

  lemma SinglesHappen(s: int, c: int, n: nat, v: real, lib: Settled)
    requires lib.scale == c && n > 0
    ensures Happens(Single(s, 1, n, v), Single(c, Below(s, c), 1, v), lib)
  {
    SingleIsConsistent(s, 1, n, v);
    SingleIsConsistent(c, Below(s, c), 1, v);
    BelowForcesScale(s, c, n, v);
    hide Single, IsFinestFit, PopulatedDelta, Observations, ReplayOf;
  }

  lemma NotKept(e: Exp2, a: Hist, b: Hist, lib: Settled, identityHash: bv64)
    requires a.scale >= 0 && Merged(a, b, lib).scale >= 0
    requires Emitted(e, Merged(a, b, lib), 0, identityHash).count < Emitted(e, a, 0, identityHash).count
    ensures !CountKept(e, a, b, lib, 0, identityHash)
  {
    hide Merged, Emitted;
  }

  /** No instance's Count ever falls in a merge from scale s to scale c exactly when c is s. */
  lemma KeepsCountExactlyWhen(e: Exp2, s: nat, c: nat)
    requires e.Valid()
    ensures KeepsCount(e, s, c) <==> c == s
  {
    hide CountKept, Happens, Landing, Merged, Emitted;
    if c == s {
      forall target: Hist, delta: Hist, lib: Settled, instanceID: bv64, identityHash: bv64
        | target.scale == s && lib.scale == c
        ensures CountKept(e, target, delta, lib, instanceID, identityHash)
      {
        CountKeptAtScale(e, target, delta, lib, instanceID, identityHash);
      }
    } else {
      var lib, v := Settled(c, 0.0, 0.0), 1.0;
      var a, b := Single(s, 1, LARGE, v), Single(c, Below(s, c), 1, v);
      SinglesHappen(s, c, LARGE, v, lib);
      var identityHash := OtherScaleFalls(e, s, c, v, lib);
      NotKept(e, a, b, lib, identityHash);
    }
  }

  // ----- the Sum of positive data -----

  lemma {:induction false} WeightedRangeAdd(e: Exp2, identityHash: bv64, scale: nat, b: Buckets, i: int, n: nat,
                                            lo: int, hi: int)
    requires b.At(i) == 0
    ensures WeightedRange(e, identityHash, 0, scale, AddAt(b, i, n), lo, hi)
         == WeightedRange(e, identityHash, 0, scale, b, lo, hi)
            + if lo <= i < hi then Contribution(e, identityHash, 0, scale, i, n) else 0.0
    decreases if hi > lo then hi - lo else 0
  {
    hide Representative, Scaled;
    if hi > lo {
      WeightedRangeAdd(e, identityHash, scale, b, i, n, lo, hi - 1);
    }
    hide AddAt;
  }

  function SumOf(e: Exp2, identityHash: bv64, scale: nat, b: Buckets): real {
    WeightedSum(e, identityHash, 0, scale, b.offset, b.counts)
  }

  lemma SumAddAt(e: Exp2, identityHash: bv64, scale: nat, b: Buckets, i: int, n: nat)
    requires b.At(i) == 0
    ensures SumOf(e, identityHash, scale, AddAt(b, i, n))
         == SumOf(e, identityHash, scale, b) + Contribution(e, identityHash, 0, scale, i, n)
  {
    var r := AddAt(b, i, n);
    var lo := MinInt(MinInt(b.offset, r.offset), i);
    var hi := MaxInt(MaxInt(b.offset + |b.counts|, r.offset + |r.counts|), i + 1);
    hide AddAt, WeightedRange, Contribution, WeightedSum;
    WeightedSumIsRange(e, identityHash, 0, scale, b, lo, hi);
    WeightedSumIsRange(e, identityHash, 0, scale, r, lo, hi);
    WeightedRangeAdd(e, identityHash, scale, b, i, n, lo, hi);
  }

  lemma SameSums(e: Exp2, identityHash: bv64, scale: nat, b: Buckets, c: Buckets)
    requires e.Valid() && PointwiseAtMost(b, c) && PointwiseAtMost(c, b)
    ensures SumOf(e, identityHash, scale, b) == SumOf(e, identityHash, scale, c)
  {
    WeightedSumMonotone(e, identityHash, 0, scale, b, c);
    WeightedSumMonotone(e, identityHash, 0, scale, c, b);
    hide WeightedSum, PointwiseAtMost;
  }

  lemma NoSum(e: Exp2, identityHash: bv64, scale: nat)
    ensures SumOf(e, identityHash, scale, NoBuckets()) == 0.0
  {
  }

  /** The Sum of a copy of two buckets. */
  lemma SumOfTwo(e: Exp2, identityHash: bv64, scale: nat, j: int, n: nat, k: int, m: nat)
    requires e.Valid() && j != k
    ensures SumOf(e, identityHash, scale, Varied(identityHash, 0, AddAt(AddAt(NoBuckets(), j, n), k, m)))
         == Contribution(e, identityHash, 0, scale, j, VariedCount(identityHash, 0, j, n))
            + Contribution(e, identityHash, 0, scale, k, VariedCount(identityHash, 0, k, m))
  {
    hide VariedCount, Varied, AddAt, WeightedSum, Contribution;
    var b := AddAt(AddAt(NoBuckets(), j, n), k, m);
    var v := Varied(identityHash, 0, b);
    var x, y := VariedCount(identityHash, 0, j, n), VariedCount(identityHash, 0, k, m);
    var first := AddAt(NoBuckets(), j, x);
    forall i ensures v.At(i) == AddAt(first, k, y).At(i) {
      VariedAt(identityHash, 0, b, i);
      PopulatedStays(identityHash, 0, i, 0);
      assert NoBuckets().At(i) == 0;
    }
    assert first.At(k) == 0 && NoBuckets().At(j) == 0;
    hide Buckets.At;
    SameSums(e, identityHash, scale, v, AddAt(first, k, y));
    SumAddAt(e, identityHash, scale, NoBuckets(), j, x);
    SumAddAt(e, identityHash, scale, first, k, y);
    NoSum(e, identityHash, scale);
  }

  lemma SumOfOne(e: Exp2, identityHash: bv64, scale: nat, i: int, n: nat)
    ensures SumOf(e, identityHash, scale, Varied(identityHash, 0, Buckets(i, [n])))
         == Contribution(e, identityHash, 0, scale, i, VariedCount(identityHash, 0, i, n))
  {
    hide VariedCount, Representative, Scaled;
    var x := VariedCount(identityHash, 0, i + 0, n);
    assert Varied(identityHash, 0, Buckets(i, [n])) == Buckets(i, [x]);
    assert [x][..0] == [] && WeightedSum(e, identityHash, 0, scale, i, []) == 0.0;
    assert WeightedSum(e, identityHash, 0, scale, i, [x]) == Contribution(e, identityHash, 0, scale, i + 0, x);
  }

  /** With no negative buckets the copy's Sum is that of its positive ones. */
  lemma EmittedSum(e: Exp2, h: Hist, identityHash: bv64)
    requires h.scale >= 0 && h.negative == NoBuckets() && h.sum.Some?
    ensures Emitted(e, h, 0, identityHash).sum
         == Some(SumOf(e, identityHash, h.scale, Varied(identityHash, 0, h.positive)))
  {
    var salted := Xor(identityHash, NEGATIVE_SALT);
    assert Varied(salted, 0, NoBuckets()) == NoBuckets();
    NoSum(e, salted, h.scale);
    hide VariedCount, Varied, WeightedSum, Total, Xor;
  }

  lemma MergedHasSum(a: Hist, b: Hist, lib: Settled)
    ensures Merged(a, b, lib).sum.Some?
  {
    hide ReplayOf, ReadOut, UpdatesTotal, ZeroTotal, MergedMin, MergedMax;
  }

  lemma EmittedSumOfOne(e: Exp2, scale: nat, i: int, n: nat, v: real, identityHash: bv64)
    ensures Emitted(e, Single(scale, i, n, v), 0, identityHash).sum
         == Some(Contribution(e, identityHash, 0, scale, i, VariedCount(identityHash, 0, i, n)))
  {
    var a := Single(scale, i, n, v);
    assert a.scale == scale && a.negative == NoBuckets() && a.positive == Buckets(i, [n]) && a.sum.Some?;
    hide *;
    EmittedSum(e, a, identityHash);
    SumOfOne(e, identityHash, scale, i, n);
  }

  lemma EmittedSumOfTwo(e: Exp2, scale: int, i: int, n: nat, scale': int, k: int, m: nat, v: real, lib: Settled,
                        identityHash: bv64)
    requires e.Valid() && n > 0 && m > 0 && lib.scale >= 0
    requires Landing(i, scale, lib.scale) != Landing(k, scale', lib.scale)
    ensures var j, l := Landing(i, scale, lib.scale), Landing(k, scale', lib.scale);
            Merged(Single(scale, i, n, v), Single(scale', k, m, v), lib).scale >= 0 &&
            Emitted(e, Merged(Single(scale, i, n, v), Single(scale', k, m, v), lib), 0, identityHash).sum
            == Some(Contribution(e, identityHash, 0, lib.scale, j, VariedCount(identityHash, 0, j, n))
                    + Contribution(e, identityHash, 0, lib.scale, l, VariedCount(identityHash, 0, l, m)))
  {
    hide *;
    MergedHasSum(Single(scale, i, n, v), Single(scale', k, m, v), lib);
    MergedSingles(scale, i, n, scale', k, m, v, lib);
    EmittedSum(e, Merged(Single(scale, i, n, v), Single(scale', k, m, v), lib), identityHash);
    SumOfTwo(e, identityHash, lib.scale, Landing(i, scale, lib.scale), n, Landing(k, scale', lib.scale), m);
  }

  // ----- its exact condition towards coarser scales -----

  lemma FractionOfZero()
    ensures SumFraction(0, 0, 0) == 0.0
  {
    assert Uint64(0) * 0x9e3779b97f4a7c15 == 0;
    InstanceZero(0);
    ZeroMixes();
    ValueOfOne();
    XorZero(0);
    hide HashToUnitInterval, MixInstanceID, Xor, Uint64;
  }

  lemma PositiveQuotient(x: real, m: real)
    requires m > 0.0
    ensures x > 0.0 ==> x / m > 0.0
    ensures x < 0.0 ==> x / m < 0.0
    ensures x == 0.0 ==> x / m == 0.0
  {
  }

  /** Which side of 2^0 a boundary lies on. */
  lemma BoundarySide(e: Exp2, i: int, scale: int)
    requires e.Valid()
    ensures i > 0 ==> Boundary(e, i, scale) > e.f(0.0)
    ensures i < 0 ==> Boundary(e, i, scale) < e.f(0.0)
    ensures i == 0 ==> Boundary(e, i, scale) == e.f(0.0)
  {
    PositiveQuotient(i as real, ScaleFactor(scale));
    hide ScaleFactor;
  }

  /** Bucket 0 of the copy counts its lower boundary, 2^0, for each observation. */
  lemma ValueOfZero(e: Exp2, c: nat)
    requires e.Valid()
    ensures Representative(e, 0, 0, 0, c) == e.f(0.0)
  {
    FractionOfZero();
    hide SumFraction, LowerBucketBoundary, Boundary;
    RepresentativeInBucket(e, 0, 0.0, c);
    BoundarySide(e, 0, c);
  }

  lemma ValueOfOther(e: Exp2, i: int, scale: nat)
    requires e.Valid()
    ensures i > 0 ==> Representative(e, 0, 0, i, scale) > e.f(0.0)
    ensures i < -1 ==> Representative(e, 0, 0, i, scale) < e.f(0.0)
  {
    hide SumFraction, LowerBucketBoundary, Boundary;
    RepresentativeInBucket(e, i, SumFraction(0, 0, i), scale);
    BoundarySide(e, i, scale);
    BoundarySide(e, i + 1, scale);
  }

  lemma SumArithmetic(unit: real, high: real, low: real, n: nat)
    requires unit > 0.0 && high > unit && low < unit && n >= 812
    ensures Scaled(unit, 800.0) + Scaled(low, 1.0) < Scaled(high, n as real)
  {
    var x := n as real;
    MulMonotone(unit, high, x);
    MulMonotone(812.0, x, unit);
    assert x * unit == unit * x;
    assert Scaled(unit, 800.0) == 800.0 * unit && Scaled(low, 1.0) == low && Scaled(high, x) == high * x;
  }

  lemma ContributionIs(e: Exp2, scale: nat, i: int, n: nat)
    requires n > 0
    ensures Contribution(e, 0, 0, scale, i, n) == Scaled(Representative(e, 0, 0, i, scale), n as real)
  {
  }

  /** At any coarser scale the Sum of one instance's copy falls, with a thousand observations. */
  lemma CoarserMergeLosesSum(e: Exp2, s: nat, c: nat, v: real, lib: Settled)
    requires e.Valid() && lib.scale == c < s
    ensures var a, b := Single(s, 1, 1000, v), Single(c, Below(s, c), 1, v);
            Merged(a, b, lib).scale >= 0
            && Emitted(e, a, 0, 0).sum.Some? && Emitted(e, Merged(a, b, lib), 0, 0).sum.Some?
            && Emitted(e, Merged(a, b, lib), 0, 0).sum.value < Emitted(e, a, 0, 0).sum.value
  {
    BucketOneCoarser(s, s - c);
    assert s - (s - c) == c && Below(s, c) == -319;
    assert e.f(0.0) > 0.0;
    BelowLands(s, c);
    CountsOfZeroAndOne(1000);
    OneStaysOne(0, -319);
    hide *;
    EmittedSumOfOne(e, s, 1, 1000, v, 0);
    EmittedSumOfTwo(e, s, 1, 1000, c, Below(s, c), 1, v, lib, 0);
    ContributionIs(e, s, 1, VariedCount(0, 0, 1, 1000));
    ContributionIs(e, c, 0, 800);
    ContributionIs(e, c, -319, 1);
    ValueOfZero(e, c);
    ValueOfOther(e, 1, s);
    ValueOfOther(e, -319, c);
    SumArithmetic(e.f(0.0), Representative(e, 0, 0, 1, s), Representative(e, 0, 0, -319, c),
                  VariedCount(0, 0, 1, 1000));
  }

  ghost predicate SumKept(e: Exp2, target: Hist, delta: Hist, lib: Settled, instanceID: bv64, identityHash: bv64) {
    target.scale >= 0 && Merged(target, delta, lib).scale >= 0
    && OrZero(Emitted(e, target, instanceID, identityHash).sum)
       <= OrZero(Emitted(e, Merged(target, delta, lib), instanceID, identityHash).sum)
  }

  /** No merge of positive data from scale s to scale c leaves any instance's copy with a smaller Sum. */
  ghost predicate KeepsSum(e: Exp2, s: nat, c: nat) {
    forall target: Hist, delta: Hist, lib: Settled, instanceID: bv64, identityHash: bv64 ::
      (target.scale == s && lib.scale == c && Happens(target, delta, lib) && OnlyPositive(target)
       && OnlyPositive(delta))
      ==> SumKept(e, target, delta, lib, instanceID, identityHash)
  }

  lemma BothHaveSums(h: Hist)
    requires OnlyPositive(h)
    ensures h.sum.Some?
  {
  }

  lemma SumKeptAtScale(e: Exp2, target: Hist, delta: Hist, lib: Settled, instanceID: bv64, identityHash: bv64)
    requires e.Valid() && target.scale >= 0 && lib.scale == target.scale && OnlyPositive(target) && OnlyPositive(delta)
    ensures SumKept(e, target, delta, lib, instanceID, identityHash)
  {
    hide Merged, OnlyPositive;
    MergeGrows(target, delta, lib);
    MergedSide(target, delta, lib, Pos);
    MergeStaysPositive(target, delta, lib);
    EmissionMonotone(e, target, Merged(target, delta, lib), instanceID, identityHash);
    BothHaveSums(target);
    BothHaveSums(Merged(target, delta, lib));
    hide Varied, WeightedSum, Total;
  }

  lemma SinglesArePositive(scale: int, i: int, n: nat, v: real)
    ensures OnlyPositive(Single(scale, i, n, v))
  {
  }

  lemma ScaleOfSingle(scale: int, i: int, n: nat, v: real)
    ensures Single(scale, i, n, v).scale == scale
  {
  }

  lemma SumNotKept(e: Exp2, a: Hist, b: Hist, lib: Settled)
    requires a.scale >= 0 && Merged(a, b, lib).scale >= 0
    requires Emitted(e, a, 0, 0).sum.Some? && Emitted(e, Merged(a, b, lib), 0, 0).sum.Some?
    requires Emitted(e, Merged(a, b, lib), 0, 0).sum.value < Emitted(e, a, 0, 0).sum.value
    ensures !SumKept(e, a, b, lib, 0, 0)
  {
    hide Merged, Emitted;
  }

  /** Towards coarser scales the Sum of positive data never falls exactly when the scale stays. */
  lemma KeepsSumExactlyWhen(e: Exp2, s: nat, c: nat)
    requires e.Valid() && c <= s
    ensures KeepsSum(e, s, c) <==> c == s
  {
    hide SumKept, Happens, Landing, Merged, Emitted, OnlyPositive, Single, Below;
    if c == s {
      forall target: Hist, delta: Hist, lib: Settled, instanceID: bv64, identityHash: bv64
        | target.scale == s && lib.scale == c && OnlyPositive(target) && OnlyPositive(delta)
        ensures SumKept(e, target, delta, lib, instanceID, identityHash)
      {
        SumKeptAtScale(e, target, delta, lib, instanceID, identityHash);
      }
    } else {
      var lib, v := Settled(c, 0.0, 0.0), 1.0;
      var a, b := Single(s, 1, 1000, v), Single(c, Below(s, c), 1, v);
      SinglesHappen(s, c, 1000, v, lib);
      SinglesArePositive(s, 1, 1000, v);
      SinglesArePositive(c, Below(s, c), 1, v);
      CoarserMergeLosesSum(e, s, c, v, lib);
      ScaleOfSingle(s, 1, 1000, v);
      SumNotKept(e, a, b, lib);
    }
  }
}
