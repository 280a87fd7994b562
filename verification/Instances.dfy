/** Every draw an instance makes from its hashes depends on the series, the instance and what it is
    drawn for (series_hash.go, instance_variation.go). */
module Instances {
  import opened Numbers
  import opened Hash
  import opened Noise
  import opened Variation
  import opened Buckets
  import opened Replay
  import opened Expo
  import opened ExpoVariation

  // ----- what a draw is keyed by -----

  /** Noise, counts and sums of a bucket are keyed by its number, each spread by its own multiplier. */
  function NoiseKey(bucket: bv64): bv64 { bucket * 0xbf58476d1ce4e5b9 }
  function CountKey(bucket: bv64): bv64 { bucket * 0xd1342543de82ef95 }
  function SumKey(bucket: bv64): bv64 { bucket * 0x9e3779b97f4a7c15 }

  const PHASE_KEY: bv64 := 0x94d049bb133111eb

  function NoiseBucket(key: bv64): bv64 { key * 0x96de1b173f119089 }
  function CountBucket(key: bv64): bv64 { key * 0x572b5ee77a54e3bd }
  function SumBucket(key: bv64): bv64 { key * 0xf1de83e19937733d }

  lemma NoiseKeyUnfolds(b: bv64)
    ensures NoiseKey(b) == b * 0xbf58476d1ce4e5b9 && NoiseBucket(b * 0xbf58476d1ce4e5b9) == b
  {
  }

  lemma CountKeyUnfolds(b: bv64)
    ensures CountKey(b) == b * 0xd1342543de82ef95 && CountBucket(b * 0xd1342543de82ef95) == b
  {
  }

  lemma SumKeyUnfolds(b: bv64)
    ensures SumKey(b) == b * 0x9e3779b97f4a7c15 && SumBucket(b * 0x9e3779b97f4a7c15) == b
  {
  }

  lemma KeysInvert(b: bv64)
    ensures NoiseBucket(NoiseKey(b)) == b && CountBucket(CountKey(b)) == b && SumBucket(SumKey(b)) == b
  {
    hide *;
    NoiseKeyUnfolds(b);
    CountKeyUnfolds(b);
    SumKeyUnfolds(b);
  }

  /** Buckets with different numbers have different keys of every kind. */
  lemma BucketKeysDiffer(a: bv64, b: bv64)
    requires a != b
    ensures NoiseKey(a) != NoiseKey(b) && CountKey(a) != CountKey(b) && SumKey(a) != SumKey(b)
  {
    hide *;
    KeysInvert(a);
    KeysInvert(b);
  }

  function Keyed(identityHash: bv64, key: bv64, instanceID: bv64): real {
    HashToUnitInterval(MixInstanceID(Xor(identityHash, key), instanceID))
  }

  lemma InstanceUnitIsKeyed(identityHash: bv64, instanceID: bv64)
    ensures InstanceUnit(identityHash, instanceID) == Keyed(identityHash, 0, instanceID)
  {
    XorZero(identityHash);
    hide HashToUnitInterval, MixInstanceID, Xor;
  }

  /** Each draw, by its key: the instance's unit, the noise of a bucket, the phase of the wave, and the
      count and the sum of a histogram bucket on either side. */
  lemma DrawsAreKeyed(trig: Trig, identityHash: bv64, instanceID: bv64, bucket: int)
    ensures BucketNoise(identityHash, instanceID, bucket)
         == 2.0 * Keyed(identityHash, NoiseKey(Uint64(bucket)), instanceID) - 1.0
    ensures WavePhase(trig, identityHash, instanceID) == 2.0 * trig.pi * Keyed(identityHash, PHASE_KEY, instanceID)
    ensures CountUnit(identityHash, instanceID, bucket) == Keyed(identityHash, CountKey(Uint64(bucket)), instanceID)
    ensures SumFraction(identityHash, instanceID, bucket) == Keyed(identityHash, SumKey(Uint64(bucket)), instanceID)
  {
    hide HashToUnitInterval, MixInstanceID, Xor, Uint64;
  }

  lemma NegativeSideIsKeyed(identityHash: bv64, instanceID: bv64, bucket: int)
    ensures CountUnit(Xor(identityHash, NEGATIVE_SALT), instanceID, bucket)
         == Keyed(identityHash, Xor(NEGATIVE_SALT, CountKey(Uint64(bucket))), instanceID)
  {
    XorAssociates(identityHash, NEGATIVE_SALT, CountKey(Uint64(bucket)));
    hide HashToUnitInterval, MixInstanceID, Xor, Uint64;
  }

  // ----- what depends on what -----

  lemma KeyedDiffers(key1: bv64, id1: bv64, key2: bv64, id2: bv64) returns (identityHash: bv64)
    requires key1 == key2 <==> id1 != id2
    ensures Keyed(identityHash, key1, id1) != Keyed(identityHash, key2, id2)
  {
    hide HashToUnitInterval, MixInstanceID, Xor, KeyOf;
    KeysDiffer(key1, id1, key2, id2);
    identityHash := SomeSeriesTellsApart(key1, id1, key2, id2);
  }

  /** Two buckets of time, or two instances in one bucket, have different noise in some series. */
  lemma NoiseDiffers(a: int, id1: bv64, b: int, id2: bv64) returns (identityHash: bv64)
    requires Uint64(a) == Uint64(b) <==> id1 != id2
    ensures BucketNoise(identityHash, id1, a) != BucketNoise(identityHash, id2, b)
  {
    hide BucketNoise, Keyed, NoiseKey, Uint64;
    if Uint64(a) != Uint64(b) {
      BucketKeysDiffer(Uint64(a), Uint64(b));
    }
    identityHash := KeyedDiffers(NoiseKey(Uint64(a)), id1, NoiseKey(Uint64(b)), id2);
    var trig := TrigExists();
    DrawsAreKeyed(trig, identityHash, id1, a);
    DrawsAreKeyed(trig, identityHash, id2, b);
  }

  /** Two buckets of a histogram, or two instances in one bucket, have different multipliers in some
      series, and different fractions in some series. */
  lemma BucketsDiffer(a: int, id1: bv64, b: int, id2: bv64) returns (h1: bv64, h2: bv64)
    requires Uint64(a) == Uint64(b) <==> id1 != id2
    ensures CountUnit(h1, id1, a) != CountUnit(h1, id2, b)
    ensures SumFraction(h2, id1, a) != SumFraction(h2, id2, b)
  {
    hide CountUnit, SumFraction, Keyed, CountKey, SumKey, Uint64;
    if Uint64(a) != Uint64(b) {
      BucketKeysDiffer(Uint64(a), Uint64(b));
    }
    h1 := KeyedDiffers(CountKey(Uint64(a)), id1, CountKey(Uint64(b)), id2);
    h2 := KeyedDiffers(SumKey(Uint64(a)), id1, SumKey(Uint64(b)), id2);
    var trig := TrigExists();
    DrawsAreKeyed(trig, h1, id1, a);
    DrawsAreKeyed(trig, h1, id2, b);
    DrawsAreKeyed(trig, h2, id1, a);
    DrawsAreKeyed(trig, h2, id2, b);
  }

  lemma SaltChanges(key: bv64)
    ensures Xor(NEGATIVE_SALT, key) != key
  {
  }

  /** The negative side of a histogram draws multipliers of its own. */
  lemma SidesDiffer(bucket: int, id: bv64) returns (identityHash: bv64)
    ensures CountUnit(Xor(identityHash, NEGATIVE_SALT), id, bucket) != CountUnit(identityHash, id, bucket)
  {
    hide CountUnit, Keyed, CountKey, Uint64, Xor;
    var key := CountKey(Uint64(bucket));
    SaltChanges(key);
    identityHash := KeyedDiffers(Xor(NEGATIVE_SALT, key), id, key, id);
    var trig := TrigExists();
    NegativeSideIsKeyed(identityHash, id, bucket);
    DrawsAreKeyed(trig, identityHash, id, bucket);
  }

  function Turned(trig: Trig, u: real): real { 2.0 * trig.pi * u }

  lemma DifferentTurns(trig: Trig, u: real, v: real)
    requires trig.pi > 0.0 && u != v
    ensures Turned(trig, u) != Turned(trig, v)
  {
    assert 2.0 * trig.pi * (u - v) != 0.0;
  }

  lemma PhaseIsTurned(trig: Trig, identityHash: bv64, instanceID: bv64)
    ensures WavePhase(trig, identityHash, instanceID) == Turned(trig, Keyed(identityHash, PHASE_KEY, instanceID))
  {
    DrawsAreKeyed(trig, identityHash, instanceID, 0);
    hide WavePhase, Keyed;
  }

  /** The phases of two instances differ in some series, and a phase is not the unit turned. */
  lemma PhasesDiffer(trig: Trig, id1: bv64, id2: bv64) returns (h1: bv64, h2: bv64)
    requires trig.pi > 0.0 && id1 != id2
    ensures WavePhase(trig, h1, id1) != WavePhase(trig, h1, id2)
    ensures WavePhase(trig, h2, id1) != Turned(trig, InstanceUnit(h2, id1))
  {
    hide WavePhase, InstanceUnit, Keyed, Turned;
    h1 := KeyedDiffers(PHASE_KEY, id1, PHASE_KEY, id2);
    h2 := KeyedDiffers(PHASE_KEY, id1, 0, id1);
    PhaseIsTurned(trig, h1, id1);
    PhaseIsTurned(trig, h1, id2);
    PhaseIsTurned(trig, h2, id1);
    InstanceUnitIsKeyed(h2, id1);
    DifferentTurns(trig, Keyed(h1, PHASE_KEY, id1), Keyed(h1, PHASE_KEY, id2));
    DifferentTurns(trig, Keyed(h2, PHASE_KEY, id1), Keyed(h2, 0, id1));
  }

  // ----- what the multipliers do to a histogram -----

  /** A populated bucket's count is scaled by 0.8 to 1.2 with the unit drawn for it, and rounded. */
  lemma CountIsScaled(identityHash: bv64, instanceID: bv64, bucket: int, n: nat)
    requires n > 0
    ensures Abs(VariedCount(identityHash, instanceID, bucket, n) as real
                - Scaled(n as real, 0.8 + 0.4 * CountUnit(identityHash, instanceID, bucket))) <= 0.5
  {
    var u := CountUnit(identityHash, instanceID, bucket);
    hide CountUnit;
    assert BucketMultiplier(u) == 0.8 + 0.4 * u;
    hide BucketMultiplier;
    ScaledMonotone(1.0, n as real, 0.8 + 0.4 * u);
    RoundNearest(Scaled(n as real, 0.8 + 0.4 * u));
    RoundMonotone(0.8, Scaled(n as real, 0.8 + 0.4 * u));
    assert Round(0.8) == 1;
    hide Round;
  }

  /** In a copy every populated bucket, on either side, is scaled by 0.8 to 1.2 with a draw of its own:
      keyed by the bucket's number, and on the negative side also by the salt of that side. */
  lemma EmittedBucketsAreScaled(e: Exp2, h: Hist, instanceID: bv64, identityHash: bv64, i: int)
    requires h.scale >= 0
    ensures var c, key := Emitted(e, h, instanceID, identityHash), CountKey(Uint64(i));
            && (h.positive.At(i) > 0 ==>
                  Abs(c.positive.At(i) as real
                      - Scaled(h.positive.At(i) as real, 0.8 + 0.4 * Keyed(identityHash, key, instanceID))) <= 0.5)
            && (h.negative.At(i) > 0 ==>
                  Abs(c.negative.At(i) as real
                      - Scaled(h.negative.At(i) as real,
                               0.8 + 0.4 * Keyed(identityHash, Xor(0xa1b2c3d4e5f60718, key), instanceID))) <= 0.5)
  {
    var salted := Xor(identityHash, NEGATIVE_SALT);
    var trig := TrigExists();
    hide Keyed, CountUnit, VariedCount, Varied, WeightedSum, Total, Scaled, Xor, CountKey, Uint64;
    VariedAt(identityHash, instanceID, h.positive, i);
    VariedAt(salted, instanceID, h.negative, i);
    DrawsAreKeyed(trig, identityHash, instanceID, i);
    NegativeSideIsKeyed(identityHash, instanceID, i);
    if h.positive.At(i) > 0 {
      CountIsScaled(identityHash, instanceID, i, h.positive.At(i));
    }
    if h.negative.At(i) > 0 {
      CountIsScaled(salted, instanceID, i, h.negative.At(i));
    }
  }

  lemma UnitsApart(n: real, u: real, v: real, x: real, y: real)
    requires Abs(x - Scaled(n, 0.8 + 0.4 * u)) <= 0.5 && Abs(y - Scaled(n, 0.8 + 0.4 * v)) <= 0.5
    ensures Abs((x - y) - Scaled(0.4 * n, u - v)) <= 1.0
  {
    assert Scaled(n, 0.8 + 0.4 * u) - Scaled(n, 0.8 + 0.4 * v) == Scaled(0.4 * n, u - v);
    hide Scaled;
  }

  /** Two instances' counts of one bucket lie four tenths of the template's count apart, times the
      difference of their units, up to rounding. */
  lemma InstancesCountApart(identityHash: bv64, id1: bv64, id2: bv64, bucket: int, n: nat)
    requires n > 0
    ensures Abs((VariedCount(identityHash, id1, bucket, n) as real - VariedCount(identityHash, id2, bucket, n) as real)
                - Scaled(0.4 * n as real,
                         CountUnit(identityHash, id1, bucket) - CountUnit(identityHash, id2, bucket))) <= 1.0
  {
    hide VariedCount, CountUnit, Scaled;
    CountIsScaled(identityHash, id1, bucket, n);
    CountIsScaled(identityHash, id2, bucket, n);
    UnitsApart(n as real, CountUnit(identityHash, id1, bucket), CountUnit(identityHash, id2, bucket),
               VariedCount(identityHash, id1, bucket, n) as real, VariedCount(identityHash, id2, bucket, n) as real);
  }

  /** The mixer and its projection on known inputs. */
  lemma KnownAnswers()
    ensures MixInstanceID(1, 0) == 0xff51afd792fd5b26 && MixInstanceID(0, 1) == 0x9341ca263702a9e6
    ensures MixInstanceID(0x0123456789abcdef, 7) == 0xed556a47f5e4e6ad
    ensures UnitOf(0x8000000000000000) == 0.5 && UnitOf(0xc000000000000000) == 0.75
  {
  }
}
