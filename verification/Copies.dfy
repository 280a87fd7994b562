/** What an instance emits for a given template value, in numbers, and how instances differ
    (instance_variation.go). */
module Copies {
  import opened Numbers
  import opened Config
  import opened Metrics
  import opened Hash
  import opened Noise
  import opened Advance
  import opened Variation
  import opened CounterRuns
  import opened CounterLimits
  import opened GaugeRuns
  import opened CountRuns
  import opened Steps

  /** The noise applies: neither the zero time nor an empty interval. */
  predicate Timely(opts: VariationOptions) { opts.timestamp != ZERO_TIME && opts.interval > 0 }

  // ----- the noise is flat where its buckets meet -----

  function Squared(x: real): real { x * x }

  lemma SmoothstepIsFlat(f: real)
    requires 0.0 <= f <= 1.0
    ensures 0.0 <= Smoothstep(f) <= 3.0 * Squared(f) && 0.0 <= 1.0 - Smoothstep(f) <= 3.0 * Squared(1.0 - f)
    ensures Smoothstep(1.0 - f) == 1.0 - Smoothstep(f)
  {
    SmoothstepBounds(f);
    var g := 1.0 - f;
    assert Smoothstep(f) == 3.0 * (f * f) - 2.0 * (f * f) * f;
    assert 1.0 - Smoothstep(f) == Smoothstep(g) == 3.0 * (g * g) - 2.0 * (g * g) * g;
    Square(f);
    Square(g);
    NonNegativeProduct(f * f, f);
    NonNegativeProduct(g * g, g);
  }

  lemma AtMostTwice(d: real, s: real)
    requires -2.0 <= d <= 2.0 && s >= 0.0
    ensures -2.0 * s <= Scaled(d, s) <= 2.0 * s
  {
    NonNegativeProduct(2.0 + d, s);
    NonNegativeProduct(2.0 - d, s);
  }

  lemma LerpIs(start: real, end: real, s: real)
    ensures Lerp(start, end, s) == start + Scaled(end - start, s) == end + Scaled(start - end, 1.0 - s)
  {
  }

  lemma LerpGap(start: real, end: real, s: real)
    requires -1.0 <= start <= 1.0 && -1.0 <= end <= 1.0 && 0.0 <= s <= 1.0
    ensures Abs(Lerp(start, end, s) - start) <= 2.0 * s
    ensures Abs(Lerp(start, end, s) - end) <= 2.0 * (1.0 - s)
  {
    hide Lerp, Scaled;
    AtMostTwice(end - start, s);
    AtMostTwice(start - end, 1.0 - s);
    LerpIs(start, end, s);
  }

  lemma LerpNear(start: real, end: real, s: real, p: real, q: real)
    requires -1.0 <= start <= 1.0 && -1.0 <= end <= 1.0 && 0.0 <= s <= 1.0 && s <= 3.0 * p && 1.0 - s <= 3.0 * q
    ensures Abs(Lerp(start, end, s) - start) <= 6.0 * p && Abs(Lerp(start, end, s) - end) <= 6.0 * q
  {
    LerpGap(start, end, s);
    hide Lerp;
  }

  /** In a bucket the noise leaves its first knot, and meets the next one, no faster than the square
      of the distance to it. */
  lemma NoiseIsFlatAtKnots(h: int -> real, b: int, t: int)
    requires Knots(h) && b > 0
    ensures var f := (t % b) as real / b as real;
            && 0.0 <= f < 1.0
            && Abs(NoiseAt(h, b, t) - h(t / b)) <= 6.0 * Squared(f)
            && Abs(NoiseAt(h, b, t) - h(t / b + 1)) <= 6.0 * Squared(1.0 - f)
  {
    var f, k := (t % b) as real / b as real, t / b;
    FractionBounds(t, b);
    hide Smoothstep, Lerp, Squared;
    SmoothstepIsFlat(f);
    LerpNear(h(k), h(k + 1), Smoothstep(f), Squared(f), Squared(1.0 - f));
  }

  /** The noise of a series meets the draw of its bucket of ten intervals where the bucket begins,
      that of the next one where it ends, and is flat at both ends. */
  lemma TemporalNoiseIsFlat(identityHash: bv64, instanceID: bv64, opts: VariationOptions)
    requires Timely(opts)
    ensures var n, b := TemporalNoise(identityHash, instanceID, opts), 10 * opts.interval;
            var f, k := (opts.timestamp % b) as real / b as real, opts.timestamp / b;
            && Abs(n - BucketNoise(identityHash, instanceID, k)) <= 6.0 * Squared(f)
            && Abs(n - BucketNoise(identityHash, instanceID, k + 1)) <= 6.0 * Squared(1.0 - f)
  {
    hide BucketNoise, TemporalNoise, NoiseAt, Squared;
    var h := k => BucketNoise(identityHash, instanceID, k);
    assert opts.interval * BUCKET_INTERVALS == 10 * opts.interval;
    TemporalNoiseIsInterpolation(identityHash, instanceID, opts);
    NoiseIsFlatAtKnots(h, 10 * opts.interval, opts.timestamp);
  }

  // ----- the rate wave oscillates -----

  /** A sine turns its sign after pi. */
  ghost predicate Alternates(trig: Trig) {
    forall x :: trig.sin(x + trig.pi) == -trig.sin(x)
  }

  function Triangle(x: real): real { BounceBetweenZeroAndOne(x) - 0.5 }

  lemma BounceTurnsUp(x: real)
    requires x >= 0.0
    ensures BounceBetweenZeroAndOne(x + 1.0) == 1.0 - BounceBetweenZeroAndOne(x)
  {
    assert (x + 1.0).Floor == x.Floor + 1;
  }

  lemma BounceTurns(x: real)
    ensures BounceBetweenZeroAndOne(x + 1.0) == 1.0 - BounceBetweenZeroAndOne(x)
  {
    if x >= 0.0 {
      BounceTurnsUp(x);
    } else if x <= -1.0 {
      BounceTurnsUp(-x - 1.0);
      BounceIsSymmetric(x);
      BounceIsSymmetric(x + 1.0);
      assert -(x + 1.0) == -x - 1.0 && -x - 1.0 + 1.0 == -x;
    } else {
      BounceIsSymmetric(x);
      BounceIdentity(-x);
      BounceIdentity(x + 1.0);
    }
    hide BounceBetweenZeroAndOne;
  }

  /** A triangle wave has all the assumed properties. */
  lemma AlternatingTrigExists() returns (trig: Trig)
    ensures trig.Valid() && Alternates(trig)
  {
    trig := Trig(Triangle, 1.0);
    hide BounceBetweenZeroAndOne;
    forall x, y ensures Abs(Triangle(x) - Triangle(y)) <= Abs(x - y) {
      BounceIsLipschitz(x, y);
    }
    forall x ensures Triangle(x + 1.0) == -Triangle(x) {
      BounceTurns(x);
    }
  }

  /** Where the wave stands after e intervals: half a turn takes ten. */
  function Angle(trig: Trig, e: real, phase: real): real { trig.pi / 10.0 * e + phase }

  /** What the wave adds at most: 0.8 of a rate that takes 10 / pi intervals to turn by 1. */
  function Swing(trig: Trig): real
    requires trig.pi > 0.0
  {
    0.8 / (trig.pi / 10.0)
  }

  lemma WaveUnfolds(sin: real -> real, w: real, c: real, e: real, phase: real)
    ensures Wave(sin, w, c, e, phase) == e + Scaled(c, sin(w * e + phase) - sin(phase))
  {
  }

  lemma AngleIs(trig: Trig, w: real, e: real, phase: real)
    requires w == trig.pi / 10.0
    ensures Angle(trig, e, phase) == w * e + phase
  {
  }

  lemma WaveIs(trig: Trig, e: real, phase: real)
    requires trig.pi > 0.0
    ensures IntegratedCounterRateWave(trig, e, phase)
         == e + Scaled(Swing(trig), trig.sin(Angle(trig, e, phase)) - trig.sin(phase))
  {
    var w := 2.0 * trig.pi / RATE_WAVE_PERIOD;
    assert w == trig.pi / 10.0 && Swing(trig) == 0.8 / w;
    assert IntegratedCounterRateWave(trig, e, phase) == Wave(trig.sin, w, 0.8 / w, e, phase) by {
      hide Wave;
    }
    hide Wave, IntegratedCounterRateWave, Angle, Swing, Scaled;
    WaveUnfolds(trig.sin, w, 0.8 / w, e, phase);
    AngleIs(trig, w, e, phase);
  }

  lemma HalfATurn(trig: Trig, e: real, phase: real)
    ensures Angle(trig, e + 10.0, phase) == Angle(trig, e, phase) + trig.pi
  {
  }

  lemma SwingOver(c: real, x: real, z: real)
    ensures Scaled(c, -x - z) - Scaled(c, x - z) == -2.0 * Scaled(c, x)
    ensures Scaled(c, -x) == -Scaled(c, x)
  {
  }

  lemma WaveOverHalf(trig: Trig, e: real, phase: real)
    requires trig.pi > 0.0 && Alternates(trig)
    ensures IntegratedCounterRateWave(trig, e + 10.0, phase) - IntegratedCounterRateWave(trig, e, phase)
         == 10.0 - 2.0 * Scaled(Swing(trig), trig.sin(Angle(trig, e, phase)))
    ensures trig.sin(Angle(trig, e + 10.0, phase)) == -trig.sin(Angle(trig, e, phase))
  {
    hide IntegratedCounterRateWave, Angle, Swing, Scaled;
    WaveIs(trig, e, phase);
    WaveIs(trig, e + 10.0, phase);
    HalfATurn(trig, e, phase);
    SwingOver(Swing(trig), trig.sin(Angle(trig, e, phase)), trig.sin(phase));
  }

  /** Half a period: ten intervals' worth, less twice the swing at the sine where the wave stands, so
      instances whose phases differ gain differently. A whole period is worth twenty to all of them. */
  lemma WaveOverAPeriod(trig: Trig, e: real, phase: real)
    requires trig.pi > 0.0 && Alternates(trig)
    ensures IntegratedCounterRateWave(trig, e + 10.0, phase) - IntegratedCounterRateWave(trig, e, phase)
         == 10.0 - 2.0 * Scaled(Swing(trig), trig.sin(Angle(trig, e, phase)))
    ensures IntegratedCounterRateWave(trig, e + 20.0, phase) - IntegratedCounterRateWave(trig, e, phase) == 20.0
  {
    hide IntegratedCounterRateWave, Angle, Swing, Scaled;
    WaveOverHalf(trig, e, phase);
    WaveOverHalf(trig, e + 10.0, phase);
    assert e + 10.0 + 10.0 == e + 20.0;
    SwingOver(Swing(trig), trig.sin(Angle(trig, e, phase)), 0.0);
  }

  // ----- copies in closed form -----

  /** The factor of the moment: 8% either way inside [0, 1], up to 8% upwards outside. */
  function Moment(inUnit: bool, noise: real): real {
    if inUnit then 1.0 + 0.08 * noise else 1.04 + 0.04 * noise
  }

  lemma MomentIs(identityHash: bv64, instanceID: bv64, opts: VariationOptions, inUnit: bool)
    requires Timely(opts)
    ensures TemporalMultiplier(identityHash, instanceID, opts, inUnit)
         == Moment(inUnit, TemporalNoise(identityHash, instanceID, opts)) >= 0.92
  {
    TemporalNoiseBounded(identityHash, instanceID, opts);
    hide TemporalNoise;
  }

  /** A baseline times the instance's own factor and the factor of the moment. */
  function Factored(current: real, own: real, inUnit: bool, noise: real): real {
    Scaled(Scaled(current, own), Moment(inUnit, noise))
  }

  lemma FactoredSign(current: real, own: real, inUnit: bool, noise: real)
    requires own >= 0.9 && Moment(inUnit, noise) >= 0.92
    ensures current >= 0.0 ==> Factored(current, own, inUnit, noise) >= 0.0
    ensures current <= 0.0 ==> Factored(current, own, inUnit, noise) <= 0.0
  {
    hide Moment;
    if current >= 0.0 {
      NonNegativeProduct(current, own);
      NonNegativeProduct(Scaled(current, own), Moment(inUnit, noise));
    } else {
      NonNegativeProduct(-current, own);
      NonNegativeProduct(-Scaled(current, own), Moment(inUnit, noise));
    }
  }

  lemma ScaledGaugeOf(s: Strategy, current: real, identityHash: bv64, instanceID: bv64, opts: VariationOptions,
                      inUnit: bool)
    requires Timely(opts) && s.BoundedMultiplier?
    ensures ScaledGauge(s, current, identityHash, instanceID, opts, inUnit)
         == Factored(current, StableMultiplier(s.min, s.max, InstanceUnit(identityHash, instanceID)), inUnit,
                     TemporalNoise(identityHash, instanceID, opts))
  {
    MomentIs(identityHash, instanceID, opts, inUnit);
    hide TemporalMultiplier, TemporalNoise, StableMultiplier, InstanceUnit, Scaled, Moment;
  }

  /** A counter's own factor, from 0.9 to 1.1. */
  function CounterFactor(u: real): real { 0.9 + 0.2 * u }

  /** A gauge's own factor, from 1 to 2. */
  function GaugeFactor(u: real): real { 1.0 + u }

  lemma FactorsAre(u: real)
    requires 0.0 <= u < 1.0
    ensures StableMultiplier(1.0, 2.0, u) == GaugeFactor(u) >= 1.0
    ensures StableMultiplier(0.9, 1.1, u) == CounterFactor(u) >= 0.9
  {
  }

  lemma CopyOfFactored(s: Strategy, current: real, identityHash: bv64, instanceID: bv64, opts: VariationOptions,
                       own: real)
    requires Timely(opts) && s.BoundedMultiplier? && own >= 0.9
    requires own == StableMultiplier(s.min, s.max, InstanceUnit(identityHash, instanceID))
    ensures var inUnit := 0.0 <= current <= 1.0;
            var y := Factored(current, own, inUnit, TemporalNoise(identityHash, instanceID, opts));
            && NonCumulativeVariation(s, current, identityHash, instanceID, opts)
               == (if s.autoBounce && inUnit then BounceBetweenZeroAndOne(y) else if current <= 0.0 then 0.0 else y)
            && (current >= 0.0 ==> y >= 0.0)
  {
    var inUnit := 0.0 <= current <= 1.0;
    hide InstanceUnit, TemporalNoise, Factored, ScaledGauge, BounceBetweenZeroAndOne, StableMultiplier, Timely,
      TemporalMultiplier;
    ScaledGaugeOf(s, current, identityHash, instanceID, opts, inUnit);
    MomentIs(identityHash, instanceID, opts, inUnit);
    hide Moment;
    FactoredSign(current, own, inUnit, TemporalNoise(identityHash, instanceID, opts));
  }

  /** A gauge: one to two times the baseline by the instance's unit, times the factor of the moment;
      inside [0, 1] reflected at the ends, and 0 for a negative baseline. */
  lemma GaugeCopyIs(current: real, identityHash: bv64, instanceID: bv64, opts: VariationOptions)
    requires Timely(opts)
    ensures var u, n := InstanceUnit(identityHash, instanceID), TemporalNoise(identityHash, instanceID, opts);
            var x := NonCumulativeVariation(GAUGE_VARIATION, current, identityHash, instanceID, opts);
            && (current > 1.0 ==> x == Factored(current, GaugeFactor(u), false, n))
            && (current < 0.0 ==> x == 0.0)
            && (0.0 <= current <= 1.0 ==>
                  Reflected(x, Factored(current, GaugeFactor(u), true, n))
                  && (Factored(current, GaugeFactor(u), true, n) <= 1.0
                      ==> x == Factored(current, GaugeFactor(u), true, n)))
  {
    var u, n := InstanceUnit(identityHash, instanceID), TemporalNoise(identityHash, instanceID, opts);
    FactorsAre(u);
    hide GaugeFactor, InstanceUnit, TemporalNoise, Factored, BounceBetweenZeroAndOne, Reflected, StableMultiplier,
      Timely,
      NonCumulativeVariation;
    CopyOfFactored(GAUGE_VARIATION, current, identityHash, instanceID, opts, GaugeFactor(u));
    BounceReflects(Factored(current, GaugeFactor(u), true, n));
  }

  /** A sum that is not a cumulative counter: 0.9 to 1.1 times the value by the instance's unit, times
      the factor of the moment, never below 0 and never reflected. */
  lemma SumCopyIs(current: real, identityHash: bv64, instanceID: bv64, opts: VariationOptions)
    requires Timely(opts)
    ensures var u, n := InstanceUnit(identityHash, instanceID), TemporalNoise(identityHash, instanceID, opts);
            NonCumulativeVariation(COUNTER_VARIATION, current, identityHash, instanceID, opts)
            == if current <= 0.0 then 0.0 else Factored(current, CounterFactor(u), current <= 1.0, n)
  {
    var u := InstanceUnit(identityHash, instanceID);
    FactorsAre(u);
    hide CounterFactor, InstanceUnit, TemporalNoise, Factored, BounceBetweenZeroAndOne, StableMultiplier, Timely,
      NonCumulativeVariation;
    CopyOfFactored(COUNTER_VARIATION, current, identityHash, instanceID, opts, CounterFactor(u));
  }

  /** A cumulative counter: 0.9 to 1.1 times the value by the instance's unit, and its offset. */
  lemma CounterCopyIs(trig: Trig, current: real, identityHash: bv64, instanceID: bv64, opts: VariationOptions)
    requires trig.pi > 0.0
    ensures var u := InstanceUnit(identityHash, instanceID);
            CumulativeVariation(trig, COUNTER_VARIATION, current, identityHash, instanceID, opts)
            == MaxReal(0.0, Scaled(current, CounterFactor(u))
                            + CounterRateOffset(trig, identityHash, instanceID, u, opts))
  {
    var u := InstanceUnit(identityHash, instanceID);
    FactorsAre(u);
    hide CounterFactor, InstanceUnit, CounterRateOffset, StableMultiplier, Scaled;
  }

  lemma GainProduct(m: real, u: real)
    requires m >= 0.0 && u >= 0.0
    ensures m * EXTRA_RATE_MAX * u == 0.2 * Scaled(m, u) && Scaled(m, u) >= 0.0
  {
    NonNegativeProduct(m, u);
  }

  lemma GainIs(s: Series, e: Surroundings, instanceID: bv64)
    ensures var u, m := InstanceUnit(s.identityHash, instanceID), e.dist.medianMonotonicSum as real;
            GainOf(s, e, instanceID) == 0.2 * Scaled(m, u) && Scaled(m, u) >= 0.0
  {
    hide InstanceUnit, Scaled;
    GainProduct(e.dist.medianMonotonicSum as real, InstanceUnit(s.identityHash, instanceID));
  }

  /** What an instance's offset gains from tick t1 to tick t2. */
  function OffsetGain(s: Series, e: Surroundings, instanceID: bv64, t1: nat, t2: nat): real
    requires e.trig.pi > 0.0
  {
    var u := InstanceUnit(s.identityHash, instanceID);
    CounterRateOffset(e.trig, s.identityHash, instanceID, u, OptionsAt(e, t2))
    - CounterRateOffset(e.trig, s.identityHash, instanceID, u, OptionsAt(e, t1))
  }

  lemma OffsetGainIs(s: Series, e: Surroundings, instanceID: bv64, t1: nat, t2: nat)
    requires e.Valid() && WaveLifts(s, e, instanceID) && 0 < t1 <= t2
    ensures var phase := WavePhase(e.trig, s.identityHash, instanceID);
            OffsetGain(s, e, instanceID, t1, t2)
            == Scaled(GainOf(s, e, instanceID), IntegratedCounterRateWave(e.trig, t2 as real, phase))
               - Scaled(GainOf(s, e, instanceID), IntegratedCounterRateWave(e.trig, t1 as real, phase))
  {
    hide CounterRateOffset, OptionsAt, WavePhase, IntegratedCounterRateWave, InstanceUnit, WaveLifts, GainOf, Scaled;
    OffsetIs(s, e, instanceID, t1);
    OffsetIs(s, e, instanceID, t2);
  }

  lemma GainBetween(x: real, was: real, now: real, d: real)
    requires x >= 0.0 && 0.2 * d <= now - was <= 1.8 * d
    ensures Scaled(x, 0.04 * d) <= Scaled(0.2 * x, now) - Scaled(0.2 * x, was) <= Scaled(x, 0.36 * d)
  {
    assert Scaled(0.2 * x, now) - Scaled(0.2 * x, was) == 0.2 * (x * (now - was));
    NonNegativeProduct(x, now - was - 0.2 * d);
    NonNegativeProduct(x, 1.8 * d - (now - was));
  }

  /** Per interval an instance's offset grows by between 0.04 and 0.36 times its unit times the median. */
  lemma OffsetRate(s: Series, e: Surroundings, instanceID: bv64, t1: nat, t2: nat)
    requires e.Valid() && WaveLifts(s, e, instanceID) && 0 < t1 <= t2
    ensures var full := Scaled(e.dist.medianMonotonicSum as real, InstanceUnit(s.identityHash, instanceID));
            Scaled(full, 0.04 * (t2 - t1) as real) <= OffsetGain(s, e, instanceID, t1, t2)
            <= Scaled(full, 0.36 * (t2 - t1) as real)
  {
    hide OffsetGain, WavePhase, IntegratedCounterRateWave, InstanceUnit, WaveLifts, GainOf, Scaled;
    var phase, d := WavePhase(e.trig, s.identityHash, instanceID), (t2 - t1) as real;
    GainIs(s, e, instanceID);
    OffsetGainIs(s, e, instanceID, t1, t2);
    WaveStep(e.trig, t1 as real, d, phase);
    assert t1 as real + d == t2 as real;
    GainBetween(Scaled(e.dist.medianMonotonicSum as real, InstanceUnit(s.identityHash, instanceID)),
                IntegratedCounterRateWave(e.trig, t1 as real, phase),
                IntegratedCounterRateWave(e.trig, t2 as real, phase), d);
  }

  lemma RestOfSigned(k: int)
    requires -TWO_64 / 2 <= k < TWO_64 / 2
    ensures k % TWO_64 == if k < 0 then k + TWO_64 else k
  {
    if k < 0 {
      UniqueQuotient(k, TWO_64, -1, k + TWO_64);
    } else {
      UniqueQuotient(k, TWO_64, 0, k);
    }
  }

  lemma SignedPattern(id: bv64, n: nat)
    requires n == id as int
    ensures SignedValue(id) == if n < TWO_64 / 2 then n else n - TWO_64
  {
  }

  lemma SignedValueIs(id: bv64, k: int)
    requires -TWO_64 / 2 <= k < TWO_64 / 2 && k % TWO_64 == id as int
    ensures SignedValue(id) == k
  {
    SignedPattern(id, k % TWO_64);
    hide SignedValue;
    RestOfSigned(k);
  }

  lemma PositiveModIs(v: int, m: int)
    requires m > 0
    ensures PositiveMod(v, m) == v % m
  {
    DivisionIdentity(v, m);
    DivisionIdentity(-v, m);
    if v < 0 && -v % m != 0 {
      UniqueQuotient(v, m, -(-v / m) - 1, m - -v % m);
    } else if v < 0 {
      UniqueQuotient(v, m, -(-v / m), 0);
    }
  }

  lemma SameRest(a: int, b: int, m: int)
    requires m > 0
    ensures (a + b % m) % m == (a + b) % m
  {
    DivisionIdentity(b, m);
    DivisionIdentity(a + b % m, m);
    UniqueQuotient(a + b, m, (a + b % m) / m + b / m, (a + b % m) % m);
  }

  lemma FixedPart(k: int, h: nat) returns (f: int)
    ensures f == PositiveMod(k + h % 5, 5) - 2 && -2 <= f <= 2 && (f + 2) % 5 == (k + h) % 5
  {
    var rest := k + h % 5;
    hide PositiveMod;
    PositiveModIs(rest, 5);
    SameRest(k, h, 5);
    DivisionIdentity(rest, 5);
    f := PositiveMod(rest, 5) - 2;
    SmallModulus(f + 2, 5);
  }

  lemma CountValueIs(current: real, identityHash: bv64, id: bv64, opts: VariationOptions)
    ensures CurrentCountValue(CurrentCountVariation(-2, 2), current, identityHash, id, opts)
         == MaxReal(0.0, Scaled(current, GaugeFactor(InstanceUnit(identityHash, id)))
                         + CountOffset(CurrentCountVariation(-2, 2), identityHash, id, opts) as real)
  {
    FactorsAre(InstanceUnit(identityHash, id));
    hide GaugeFactor, InstanceUnit, CountOffset, Scaled, StableMultiplier;
  }

  lemma CountOffsetIs(identityHash: bv64, id: bv64, opts: VariationOptions)
    ensures CountOffset(CurrentCountVariation(-2, 2), identityHash, id, opts)
         == PositiveMod(SignedValue(id) + identityHash as int % 5, 5) - 2
            + Round(3.0 * TemporalNoise(identityHash, id, opts))
  {
    hide TemporalNoise, Round, PositiveMod, SignedValue;
  }

  /** A count: one to two times the baseline, plus an offset made of a fixed part f between -2 and 2,
      which steps through all five values with the instance id k, and the noise of the moment times 3. */
  lemma CountCopyIs(current: real, identityHash: bv64, id: bv64, k: int, opts: VariationOptions) returns (f: int)
    requires -TWO_64 / 2 <= k < TWO_64 / 2 && k % TWO_64 == id as int
    ensures CurrentCountValue(CurrentCountVariation(-2, 2), current, identityHash, id, opts)
         == MaxReal(0.0, Scaled(current, GaugeFactor(InstanceUnit(identityHash, id)))
                         + (f + Round(3.0 * TemporalNoise(identityHash, id, opts))) as real)
    ensures -2 <= f <= 2 && (f + 2) % 5 == (k + identityHash as int) % 5
  {
    hide CurrentCountValue, CountOffset, InstanceUnit, TemporalNoise, Round, PositiveMod, SignedValue, Scaled;
    CountValueIs(current, identityHash, id, opts);
    CountOffsetIs(identityHash, id, opts);
    SignedValueIs(id, k);
    f := FixedPart(k, identityHash as int);
  }

  /** Without a time or an interval there is no noise, no factor of the moment and no offset. */
  lemma NothingWithoutTime(trig: Trig, identityHash: bv64, id: bv64, opts: VariationOptions, inUnit: bool, unit: real)
    requires !Timely(opts) && trig.pi > 0.0
    ensures TemporalNoise(identityHash, id, opts) == 0.0 && TemporalMultiplier(identityHash, id, opts, inUnit) == 1.0
    ensures CounterRateOffset(trig, identityHash, id, unit, opts) == 0.0
  {
  }

  // ----- which points get which copy -----

  /** What an instance emits for a template value v. */
  function CopyOf(s: Series, e: Surroundings, v: NumberValue, instanceID: bv64, opts: VariationOptions): NumberValue
    requires e.trig.pi > 0.0
  {
    ApplyNumber(e.trig, StrategyFor(s.metric, s.hint), v, s.metric, s.precision, s.identityHash, instanceID, opts)
  }

  /** Gauges without a hint and slow gauges, whatever their type, unless a cumulative counter. */
  predicate VariesAsGauge(s: Series) {
    (s.hint == Some(SlowGauge) || (s.hint.None? && s.metric.Gauge?)) && !IsCumulativeMonotonicSum(s.metric)
  }

  /** Sums without a hint and hinted counters, whatever their type. */
  predicate VariesAsSum(s: Series) {
    s.hint == Some(SteadyCounter) || s.hint == Some(SparseCounter) || (s.hint.None? && s.metric.Sum?)
  }

  /** A value of 0 is emitted as it is; any other as its copy, written in its own number type. */
  lemma CopiesByKind(s: Series, e: Surroundings, v: NumberValue, instanceID: bv64, opts: VariationOptions)
    requires e.trig.pi > 0.0 && AsReal(v) != 0.0
    ensures VariesAsGauge(s) ==>
      CopyOf(s, e, v, instanceID, opts)
      == Written(v, NonCumulativeVariation(GAUGE_VARIATION, AsReal(v), s.identityHash, instanceID, opts), s.precision)
    ensures VariesAsSum(s) ==>
      CopyOf(s, e, v, instanceID, opts)
      == Written(v,
                 if s.metric == Sum(true, Cumulative)
                 then CumulativeVariation(e.trig, COUNTER_VARIATION, AsReal(v), s.identityHash, instanceID, opts)
                 else NonCumulativeVariation(COUNTER_VARIATION, AsReal(v), s.identityHash, instanceID, opts),
                 s.precision)
    ensures s.hint == Some(CurrentCount) ==>
      CopyOf(s, e, v, instanceID, opts)
      == Written(v, CurrentCountValue(CurrentCountVariation(-2, 2), AsReal(v), s.identityHash, instanceID, opts),
                 s.precision)
  {
    hide Written, NonCumulativeVariation, CumulativeVariation, CurrentCountValue;
  }

  lemma ZeroStays(s: Series, e: Surroundings, v: NumberValue, instanceID: bv64, opts: VariationOptions)
    requires e.trig.pi > 0.0 && AsReal(v) == 0.0 && s.hint != Some(CurrentCount)
    ensures CopyOf(s, e, v, instanceID, opts) == v
  {
    hide Written, NonCumulativeVariation, CumulativeVariation, CurrentCountValue;
  }

  // ----- instances differ -----

  lemma CrossScaled(x: real, a: real, b: real, k: real)
    ensures Scaled(Scaled(Scaled(x, a), k), b) == Scaled(Scaled(Scaled(x, b), k), a)
  {
  }

  /** Two instances scale a gauge above 1 in the ratio of 1 + their units, at equal noise. */
  lemma GaugesInRatio(current: real, identityHash: bv64, id1: bv64, id2: bv64, opts: VariationOptions)
    requires Timely(opts) && current > 1.0
    requires TemporalNoise(identityHash, id1, opts) == TemporalNoise(identityHash, id2, opts)
    ensures Scaled(NonCumulativeVariation(GAUGE_VARIATION, current, identityHash, id1, opts),
                   GaugeFactor(InstanceUnit(identityHash, id2)))
         == Scaled(NonCumulativeVariation(GAUGE_VARIATION, current, identityHash, id2, opts),
                   GaugeFactor(InstanceUnit(identityHash, id1)))
  {
    hide NonCumulativeVariation, InstanceUnit, TemporalNoise, Scaled, Moment;
    GaugeCopyIs(current, identityHash, id1, opts);
    GaugeCopyIs(current, identityHash, id2, opts);
    CrossScaled(current, GaugeFactor(InstanceUnit(identityHash, id1)), GaugeFactor(InstanceUnit(identityHash, id2)),
                Moment(false, TemporalNoise(identityHash, id1, opts)));
  }

  lemma DifferentProducts(x: real, a: real, b: real)
    requires x > 0.0 && a != b
    ensures Scaled(x, a) != Scaled(x, b)
  {
    assert x * (a - b) != 0.0;
  }

  lemma NoOffsetYet(s: Series, e: Surroundings, instanceID: bv64)
    requires e.Valid()
    ensures CounterRateOffset(e.trig, s.identityHash, instanceID, InstanceUnit(s.identityHash, instanceID),
                              OptionsAt(e, 0)) == 0.0
  {
    ElapsedTicks(e, 0);
    hide InstanceUnit, IntegratedCounterRateWave, WavePhase, Elapsed;
  }

  lemma NonNegativeScaled(x: real, m: real)
    requires x >= 0.0 && m >= 0.0
    ensures Scaled(x, m) >= 0.0
  {
    NonNegativeProduct(x, m);
  }

  /** Instances with different units start a counter, and vary a gauge at equal noise, differently. */
  lemma DifferentUnitsDifferentCopies(s: Series, e: Surroundings, current: real, id1: bv64, id2: bv64,
                                      opts: VariationOptions)
    requires e.Valid() && current > 0.0 && Timely(opts)
    requires InstanceUnit(s.identityHash, id1) != InstanceUnit(s.identityHash, id2)
    ensures CumulativeVariation(e.trig, COUNTER_VARIATION, current, s.identityHash, id1, OptionsAt(e, 0))
         != CumulativeVariation(e.trig, COUNTER_VARIATION, current, s.identityHash, id2, OptionsAt(e, 0))
    ensures current > 1.0 && TemporalNoise(s.identityHash, id1, opts) == TemporalNoise(s.identityHash, id2, opts) ==>
      NonCumulativeVariation(GAUGE_VARIATION, current, s.identityHash, id1, opts)
      != NonCumulativeVariation(GAUGE_VARIATION, current, s.identityHash, id2, opts)
  {
    var u, v := InstanceUnit(s.identityHash, id1), InstanceUnit(s.identityHash, id2);
    hide CumulativeVariation, NonCumulativeVariation, InstanceUnit, TemporalNoise, CounterRateOffset, OptionsAt,
      Scaled;
    CounterCopyIs(e.trig, current, s.identityHash, id1, OptionsAt(e, 0));
    CounterCopyIs(e.trig, current, s.identityHash, id2, OptionsAt(e, 0));
    NoOffsetYet(s, e, id1);
    NoOffsetYet(s, e, id2);
    DifferentProducts(current, CounterFactor(u), CounterFactor(v));
    NonNegativeScaled(current, CounterFactor(u));
    NonNegativeScaled(current, CounterFactor(v));
    if current > 1.0 && TemporalNoise(s.identityHash, id1, opts) == TemporalNoise(s.identityHash, id2, opts) {
      GaugesInRatio(current, s.identityHash, id1, id2, opts);
      OutsideGaugeScalesUp(current, s.identityHash, id1, opts);
      DifferentProducts(NonCumulativeVariation(GAUGE_VARIATION, current, s.identityHash, id1, opts), GaugeFactor(u),
                        GaugeFactor(v));
    }
  }

  lemma NoKey(h: bv64)
    ensures Xor(h, 0) == h
  {
    XorZero(h);
  }

  /** Any two instances have different units in some series. */
  lemma InstancesDiffer(id1: bv64, id2: bv64) returns (identityHash: bv64)
    requires id1 != id2
    ensures InstanceUnit(identityHash, id1) != InstanceUnit(identityHash, id2)
  {
    hide HashToUnitInterval, MixInstanceID, KeyOf, Xor;
    KeysDiffer(0, id1, 0, id2);
    identityHash := SomeSeriesTellsApart(0, id1, 0, id2);
    NoKey(identityHash);
  }

  /** Any two series have different units for some instance. */
  lemma SeriesDiffer(h1: bv64, h2: bv64) returns (id: bv64)
    requires h1 != h2
    ensures InstanceUnit(h1, id) != InstanceUnit(h2, id)
  {
    hide HashToUnitInterval, MixInstanceID;
    id := SomeInstanceTellsApart(h1, h2);
  }
}
