/** Stateless time-varying noise and the integrated rate wave (instance_variation.go). */
module Noise {
  import opened Numbers
  import opened Config
  import opened Hash

  /** Times and the interval are nanoseconds. */
  datatype VariationOptions = VariationOptions(timestamp: int, startTime: int, interval: int, counterBaseDelta: real)

  const BUCKET_INTERVALS := 10

  function Smoothstep(v: real): real {
    v * v * (3.0 - 2.0 * v)
  }

  function Lerp(start: real, end: real, fraction: real): real {
    start + (end - start) * fraction
  }

  function TemporalBucketHash(identityHash: bv64, instanceID: bv64, bucket: int): bv64 {
    MixInstanceID(Xor(identityHash, Uint64(bucket) * 0xbf58476d1ce4e5b9), instanceID)
  }

  function BucketNoise(identityHash: bv64, instanceID: bv64, bucket: int): (u: real)
    ensures -1.0 <= u < 1.0
  {
    HashToSignedUnit(TemporalBucketHash(identityHash, instanceID, bucket))
  }

  function TemporalNoise(identityHash: bv64, instanceID: bv64, opts: VariationOptions): real {
    if opts.timestamp == ZERO_TIME || opts.interval <= 0 then 0.0 else
      var bucketNanos := opts.interval * BUCKET_INTERVALS;
      var truncated := TruncDiv(opts.timestamp, bucketNanos);
      var part := TruncMod(opts.timestamp, bucketNanos) as real / bucketNanos as real;
      var bucket := if part < 0.0 then truncated - 1 else truncated;
      var fraction := if part < 0.0 then part + 1.0 else part;
      Lerp(BucketNoise(identityHash, instanceID, bucket), BucketNoise(identityHash, instanceID, bucket + 1),
           Smoothstep(fraction))
  }

  /** The curve from knot k (f = 0) to knot k + 1 (f = 1). */
  function Within(h: int -> real, k: int, f: real): real {
    Lerp(h(k), h(k + 1), Smoothstep(f))
  }

  /** Interpolated noise over knots h at multiples of b, for any time including negative ones. */
  function NoiseAt(h: int -> real, b: int, t: int): real
    requires b > 0
  {
    Within(h, t / b, (t % b) as real / b as real)
  }

  lemma DivideReal(m: int, b: int)
    requires b > 0
    ensures (m + b) as real / b as real == m as real / b as real + 1.0
    ensures m < 0 <==> m as real / b as real < 0.0
    ensures m >= b <==> m as real / b as real >= 1.0
  {
    var x := b as real;
    assert (m + b) as real == m as real + x;
    var q := m as real / x;
    assert q * x == m as real;
    if q < 0.0 { assert q * x < 0.0; } else { assert q * x >= 0.0; }
    if q < 1.0 { assert (q - 1.0) * x < 0.0; } else { assert (q - 1.0) * x >= 0.0; }
    QuotientIs((m + b) as real, x, q + 1.0);
  }

  /** Correcting Go's truncated bucket and fraction gives floor division. */
  lemma TruncationCorrected(t: int, b: int)
    requires b > 0
    ensures var part := TruncMod(t, b) as real / b as real;
            && t / b == (if part < 0.0 then TruncDiv(t, b) - 1 else TruncDiv(t, b))
            && (t % b) as real / b as real == (if part < 0.0 then part + 1.0 else part)
  {
    var r := TruncMod(t, b);
    DivisionIdentity(t, b);
    DivisionIdentity(-t, b);
    DivideReal(r, b);
    if t < 0 && r < 0 {
      UniqueQuotient(t, b, TruncDiv(t, b) - 1, r + b);
    } else {
      UniqueQuotient(t, b, TruncDiv(t, b), r);
    }
  }

  lemma TemporalNoiseIsInterpolation(identityHash: bv64, instanceID: bv64, opts: VariationOptions)
    requires opts.timestamp != ZERO_TIME && opts.interval > 0
    ensures TemporalNoise(identityHash, instanceID, opts)
         == NoiseAt(k => BucketNoise(identityHash, instanceID, k), opts.interval * BUCKET_INTERVALS, opts.timestamp)
  {
    hide BucketNoise;
    TruncationCorrected(opts.timestamp, opts.interval * BUCKET_INTERVALS);
  }

  lemma Square(x: real)
    ensures x * x >= 0.0
  {
  }

  lemma SmoothstepBounds(f: real)
    requires 0.0 <= f <= 1.0
    ensures 0.0 <= Smoothstep(f) <= 1.0
  {
    assert 1.0 - Smoothstep(f) == (1.0 - f) * (1.0 - f) * (1.0 + 2.0 * f);
    Square(f);
    Square(1.0 - f);
    NonNegativeProduct(f * f, 3.0 - 2.0 * f);
    NonNegativeProduct((1.0 - f) * (1.0 - f), 1.0 + 2.0 * f);
  }

  lemma QuadraticNonNegative(u: real, v: real)
    ensures u * u + u * v + v * v >= 0.0
  {
    Square(u + v);
    Square(u);
    Square(v);
    assert (u + v) * (u + v) == u * u + u * v + v * v + u * v;
  }

  lemma QuarterSquare(u: real)
    requires -0.5 <= u <= 0.5
    ensures u * u <= 0.25
  {
    NonNegativeProduct(0.5 - u, 0.5 + u);
  }

  lemma QuarterProduct(u: real, v: real)
    requires -0.5 <= u <= 0.5 && -0.5 <= v <= 0.5
    ensures u * v <= 0.25
  {
    Square(u - v);
    QuarterSquare(u);
    QuarterSquare(v);
    assert (u - v) * (u - v) == u * u - 2.0 * (u * v) + v * v;
  }

  lemma QuadraticBounds(u: real, v: real)
    requires -0.5 <= u <= 0.5 && -0.5 <= v <= 0.5
    ensures 0.0 <= u * u + u * v + v * v <= 0.75
  {
    QuadraticNonNegative(u, v);
    QuarterSquare(u);
    QuarterSquare(v);
    QuarterProduct(u, v);
  }

  /** The slope of smoothstep is between 0 and 3/2. */
  lemma SmoothstepSlope(a: real, b: real)
    requires 0.0 <= a <= b <= 1.0
    ensures 0.0 <= Smoothstep(b) - Smoothstep(a) <= 1.5 * (b - a)
  {
    var u, v := a - 0.5, b - 0.5;
    var slope := 1.5 - 2.0 * (u * u + u * v + v * v);
    assert Smoothstep(b) - Smoothstep(a) == (b - a) * slope;
    QuadraticBounds(u, v);
    NonNegativeProduct(slope, b - a);
    NonNegativeProduct(1.5 - slope, b - a);
  }

  ghost predicate Knots(h: int -> real) {
    forall k :: -1.0 <= h(k) <= 1.0
  }

  lemma LerpBounds(start: real, end: real, s: real)
    requires -1.0 <= start <= 1.0 && -1.0 <= end <= 1.0 && 0.0 <= s <= 1.0
    ensures -1.0 <= Lerp(start, end, s) <= 1.0
  {
    NonNegativeProduct(1.0 + start, 1.0 - s);
    NonNegativeProduct(1.0 - start, 1.0 - s);
    NonNegativeProduct(1.0 + end, s);
    NonNegativeProduct(1.0 - end, s);
  }

  lemma WithinBounds(h: int -> real, k: int, f: real)
    requires Knots(h) && 0.0 <= f <= 1.0
    ensures -1.0 <= Within(h, k, f) <= 1.0
    ensures Within(h, k, 0.0) == h(k) && Within(h, k, 1.0) == h(k + 1)
  {
    SmoothstepBounds(f);
    LerpBounds(h(k), h(k + 1), Smoothstep(f));
  }

  lemma ScaledGap(d: real, s: real, width: real)
    requires -2.0 <= d <= 2.0 && 0.0 <= s <= 1.5 * width
    ensures Abs(d * s) <= 3.0 * width
  {
    NonNegativeProduct(2.0 + d, s);
    NonNegativeProduct(2.0 - d, s);
  }

  lemma WithinSlope(h: int -> real, k: int, f: real, g: real)
    requires Knots(h) && 0.0 <= f <= g <= 1.0
    ensures Abs(Within(h, k, g) - Within(h, k, f)) <= 3.0 * (g - f)
  {
    var d, s := h(k + 1) - h(k), Smoothstep(g) - Smoothstep(f);
    SmoothstepSlope(f, g);
    assert Within(h, k, g) - Within(h, k, f) == d * s;
    ScaledGap(d, s, g - f);
  }

  lemma FractionBounds(t: int, b: int)
    requires b > 0
    ensures 0.0 <= (t % b) as real / b as real < 1.0
  {
    DivideReal(t % b, b);
  }

  lemma FractionGap(m: int, n: int, b: int)
    requires b > 0
    ensures n as real / b as real - m as real / b as real == (n - m) as real / b as real
    ensures b as real / b as real == 1.0 && 0 as real / b as real == 0.0
    ensures m <= n ==> m as real / b as real <= n as real / b as real
  {
    DivideReal(m - n, b);
    DivideReal(n - m, b);
  }

  /** Walking from time s to the next knot, and from knot to knot, never exceeds the slope. */
  lemma {:induction false} NoiseIsSmooth(h: int -> real, b: int, s: int, t: int)
    requires Knots(h) && b > 0 && s <= t
    ensures Abs(NoiseAt(h, b, t) - NoiseAt(h, b, s)) <= 3.0 * ((t - s) as real / b as real)
    decreases t - s
  {
    var k, next := s / b, (s / b + 1) * b;
    DivisionIdentity(s, b);
    FractionBounds(s, b);
    var f := (s % b) as real / b as real;
    if t < next {
      UniqueQuotient(t, b, k, t - k * b);
      FractionBounds(t, b);
      FractionGap(s % b, t % b, b);
      WithinSlope(h, k, f, (t % b) as real / b as real);
    } else {
      UniqueQuotient(next, b, k + 1, 0);
      FractionGap(s % b, b, b);
      WithinSlope(h, k, f, 1.0);
      WithinBounds(h, k, 1.0);
      WithinBounds(h, k + 1, 0.0);
      NoiseIsSmooth(h, b, next, t);
      FractionGap(next - s, t - s, b);
    }
  }

  /** Bounded by one everywhere, equal to the bucket's own hash at a bucket boundary. */
  lemma TemporalNoiseBounded(identityHash: bv64, instanceID: bv64, opts: VariationOptions)
    ensures -1.0 <= TemporalNoise(identityHash, instanceID, opts) <= 1.0
    ensures
      (opts.timestamp != ZERO_TIME && opts.interval > 0 && opts.timestamp % (opts.interval * BUCKET_INTERVALS) == 0) ==>
      TemporalNoise(identityHash, instanceID, opts)
        == BucketNoise(identityHash, instanceID, opts.timestamp / (opts.interval * BUCKET_INTERVALS))
  {
    hide BucketNoise;
    if opts.timestamp != ZERO_TIME && opts.interval > 0 {
      var b, h := opts.interval * BUCKET_INTERVALS, k => BucketNoise(identityHash, instanceID, k);
      TemporalNoiseIsInterpolation(identityHash, instanceID, opts);
      FractionBounds(opts.timestamp, b);
      WithinBounds(h, opts.timestamp / b, (opts.timestamp % b) as real / b as real);
      FractionGap(0, 0, b);
    }
  }

  lemma TenthOf(d: real, i: real)
    requires i > 0.0
    ensures 3.0 * (d / (10.0 * i)) == 0.3 * (d / i)
  {
    var q := d / i;
    assert q * i == d;
    assert (q / 10.0) * (10.0 * i) == d;
  }

  /** However many bucket boundaries lie between, noise moves at most 3/10 per interval. */
  lemma TemporalNoiseIsSmooth(identityHash: bv64, instanceID: bv64, opts1: VariationOptions, opts2: VariationOptions)
    requires opts1.interval == opts2.interval > 0
    requires ZERO_TIME != opts1.timestamp && ZERO_TIME != opts2.timestamp && opts1.timestamp <= opts2.timestamp
    ensures Abs(TemporalNoise(identityHash, instanceID, opts2) - TemporalNoise(identityHash, instanceID, opts1))
         <= 0.3 * ((opts2.timestamp - opts1.timestamp) as real / opts1.interval as real)
  {
    hide BucketNoise;
    var h := k => BucketNoise(identityHash, instanceID, k);
    var i, d := opts1.interval, opts2.timestamp - opts1.timestamp;
    TemporalNoiseIsInterpolation(identityHash, instanceID, opts1);
    TemporalNoiseIsInterpolation(identityHash, instanceID, opts2);
    NoiseIsSmooth(h, i * BUCKET_INTERVALS, opts1.timestamp, opts2.timestamp);
    TenthOf(d as real, i as real);
    assert (i * BUCKET_INTERVALS) as real == 10.0 * i as real;
  }

  // ----- the rate wave of cumulative counters -----

  /** sin and pi; all the proofs need is that sin is 1-Lipschitz and pi positive. */
  datatype Trig = Trig(sin: real -> real, pi: real) {
    ghost predicate Valid() {
      && pi > 0.0
      && forall x, y :: Abs(sin(x) - sin(y)) <= Abs(x - y)
    }
  }

  /** A pair with the assumed properties exists. */
  lemma TrigExists() returns (trig: Trig)
    ensures trig.Valid()
  {
    trig := Trig((x: real) => x, 3.0);
  }

  const RATE_WAVE_AMPLITUDE := 0.80
  const RATE_WAVE_PERIOD := 20.0
  const EXTRA_RATE_MAX := 0.20

  /** Integral of the rate 1 + c w cos(w e + phase). */
  function Wave(sin: real -> real, w: real, c: real, elapsed: real, phase: real): real {
    elapsed + c * (sin(w * elapsed + phase) - sin(phase))
  }

  function IntegratedCounterRateWave(trig: Trig, elapsed: real, phase: real): real
    requires trig.pi > 0.0
  {
    var angularFrequency := 2.0 * trig.pi / RATE_WAVE_PERIOD;
    Wave(trig.sin, angularFrequency, RATE_WAVE_AMPLITUDE / angularFrequency, elapsed, phase)
  }

  lemma AmplitudeCancels(w: real, c: real, s: real, d: real)
    requires w > 0.0 && c > 0.0 && c * w == 0.8 && d >= 0.0 && -(w * d) <= s <= w * d
    ensures -0.8 * d <= c * s <= 0.8 * d
  {
    NonNegativeProduct(c, w * d - s);
    NonNegativeProduct(c, w * d + s);
    assert c * (w * d) == (c * w) * d;
  }

  lemma ScaledDifference(c: real, x: real, y: real, z: real)
    ensures c * (x - z) - c * (y - z) == c * (x - y)
  {
  }

  lemma WaveDifference(sin: real -> real, w: real, c: real, e: real, d: real, phase: real)
    ensures Wave(sin, w, c, e + d, phase) - Wave(sin, w, c, e, phase)
         == d + c * (sin(w * (e + d) + phase) - sin(w * e + phase))
  {
    ScaledDifference(c, sin(w * (e + d) + phase), sin(w * e + phase), sin(phase));
  }

  lemma SinStep(trig: Trig, w: real, e: real, d: real, phase: real) returns (s: real)
    requires trig.Valid() && w > 0.0 && d >= 0.0
    ensures s == trig.sin(w * (e + d) + phase) - trig.sin(w * e + phase)
    ensures -(w * d) <= s <= w * d
  {
    var x, y := w * (e + d) + phase, w * e + phase;
    s := trig.sin(x) - trig.sin(y);
    assert Abs(trig.sin(x) - trig.sin(y)) <= Abs(x - y);
    assert x - y == w * d;
    NonNegativeProduct(w, d);
  }

  lemma StepOfWave(trig: Trig, w: real, c: real, e: real, d: real, phase: real)
    requires trig.Valid() && w > 0.0 && c > 0.0 && c * w == 0.8 && d >= 0.0
    ensures 0.2 * d <= Wave(trig.sin, w, c, e + d, phase) - Wave(trig.sin, w, c, e, phase) <= 1.8 * d
  {
    var s := SinStep(trig, w, e, d, phase);
    AmplitudeCancels(w, c, s, d);
    WaveDifference(trig.sin, w, c, e, d, phase);
    hide *;
  }

  lemma PositiveQuotient(a: real, w: real)
    requires a > 0.0 && w > 0.0
    ensures a / w > 0.0 && a / w * w == a
  {
  }

  /** Over d intervals the wave rises by at least d/5 and at most 9d/5. */
  lemma WaveStep(trig: Trig, e: real, d: real, phase: real)
    requires trig.Valid() && d >= 0.0
    ensures 0.2 * d <= IntegratedCounterRateWave(trig, e + d, phase) - IntegratedCounterRateWave(trig, e, phase)
         <= 1.8 * d
  {
    hide Wave;
    var w := 2.0 * trig.pi / RATE_WAVE_PERIOD;
    PositiveQuotient(0.8, w);
    StepOfWave(trig, w, RATE_WAVE_AMPLITUDE / w, e, d, phase);
  }

  lemma WaveStartsAtZero(trig: Trig, phase: real)
    requires trig.pi > 0.0
    ensures IntegratedCounterRateWave(trig, 0.0, phase) == 0.0
  {
    var w := 2.0 * trig.pi / RATE_WAVE_PERIOD;
    assert w * 0.0 + phase == phase;
  }

  function Elapsed(opts: VariationOptions): real
    requires opts.interval > 0
  {
    (opts.timestamp - opts.startTime) as real / opts.interval as real
  }

  function WavePhase(trig: Trig, identityHash: bv64, instanceID: bv64): real {
    2.0 * trig.pi * HashToUnitInterval(MixInstanceID(Xor(identityHash, 0x94d049bb133111eb), instanceID))
  }

  function CounterRateOffset(trig: Trig, identityHash: bv64, instanceID: bv64, instanceUnit: real,
                             opts: VariationOptions): real
    requires trig.pi > 0.0
  {
    if opts.timestamp == ZERO_TIME || opts.startTime == ZERO_TIME || opts.interval <= 0 then 0.0
    else if Elapsed(opts) <= 0.0 then 0.0
    else
      opts.counterBaseDelta * EXTRA_RATE_MAX * instanceUnit
      * IntegratedCounterRateWave(trig, Elapsed(opts), WavePhase(trig, identityHash, instanceID))
  }

  lemma ElapsedGrows(opts: VariationOptions, later: int)
    requires opts.interval > 0 && opts.startTime <= opts.timestamp <= later
    ensures 0.0 <= Elapsed(opts) <= Elapsed(opts.(timestamp := later))
  {
    FractionGap(opts.timestamp - opts.startTime, later - opts.startTime, opts.interval);
    FractionGap(0, opts.timestamp - opts.startTime, opts.interval);
  }

  lemma WaveMonotone(trig: Trig, e: real, e': real, phase: real)
    requires trig.Valid() && 0.0 <= e <= e'
    ensures 0.0 <= IntegratedCounterRateWave(trig, e, phase) <= IntegratedCounterRateWave(trig, e', phase)
  {
    WaveStartsAtZero(trig, phase);
    WaveStep(trig, 0.0, e, phase);
    assert 0.0 + e == e;
    WaveStep(trig, e, e' - e, phase);
    assert e + (e' - e) == e';
  }

  lemma GainMonotone(gain: real, w: real, w': real)
    requires gain >= 0.0 && 0.0 <= w <= w'
    ensures 0.0 <= gain * w <= gain * w'
  {
  }

  /** The offset is never negative and never falls as time passes. */
  lemma OffsetMonotone(trig: Trig, identityHash: bv64, instanceID: bv64, unit: real, opts: VariationOptions, later: int)
    requires trig.Valid() && unit >= 0.0 && opts.counterBaseDelta >= 0.0 && opts.interval > 0
    requires ZERO_TIME <= opts.startTime <= opts.timestamp <= later
    ensures 0.0 <= CounterRateOffset(trig, identityHash, instanceID, unit, opts)
                <= CounterRateOffset(trig, identityHash, instanceID, unit, opts.(timestamp := later))
  {
    hide WavePhase, IntegratedCounterRateWave, Elapsed;
    var next := opts.(timestamp := later);
    var phase := WavePhase(trig, identityHash, instanceID);
    var gain := opts.counterBaseDelta * EXTRA_RATE_MAX * unit;
    assert gain >= 0.0 by { GainMonotone(opts.counterBaseDelta * EXTRA_RATE_MAX, 0.0, unit); }
    ElapsedGrows(opts, later);
    WaveMonotone(trig, Elapsed(opts), Elapsed(next), phase);
    GainMonotone(gain, IntegratedCounterRateWave(trig, Elapsed(opts), phase),
                 IntegratedCounterRateWave(trig, Elapsed(next), phase));
    if opts.timestamp == ZERO_TIME {
      assert opts.startTime == ZERO_TIME;
    }
  }
}
