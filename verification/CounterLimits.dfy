/** Which cumulative counters never fall, decided from the inputs of a run: counters without a
    hint, and hinted ones with seeds of any sign (distribution.go, instance_variation.go). */
module CounterLimits {
  import opened Numbers
  import opened Config
  import opened Metrics
  import opened Hash
  import opened Random
  import opened Noise
  import opened Advance
  import opened Variation
  import opened CounterRuns

  /** What one instance emits never falls during the run. */
  ghost predicate NeverFalls(s: Series, e: Surroundings, seed: NumberValue, instanceID: bv64)
    requires e.Valid()
  {
    forall t1: nat, t2: nat :: t1 <= t2 ==>
      AtMost(EmittedAt(s, e, seed, instanceID, t1), EmittedAt(s, e, seed, instanceID, t2))
  }

  ghost predicate NeverFallsOnAnyTape(s: Series, e: Surroundings, seed: NumberValue, instanceID: bv64)
    requires e.Valid()
  {
    forall tape: Tape, at: nat -> nat :: tape.Valid() ==> NeverFalls(s, WithDraws(e, tape, at), seed, instanceID)
  }

  // ----- counters without a hint -----

  ghost predicate UnhintedCounter(s: Series) { s.hint.None? && IsCumulativeMonotonicSum(s.metric) }

  /** The same kind of point holding x. */
  function WithReal(was: NumberValue, x: real): NumberValue {
    match was
    case NoValue => NoValue
    case IntValue(_) => IntValue(x.Floor)
    case DoubleValue(_) => DoubleValue(x)
  }

  /** x can be stored in the point as it is. */
  ghost predicate Storable(was: NumberValue, x: real, precision: Option<nat>) {
    match was
    case NoValue => true
    case IntValue(_) => x == x.Floor as real
    case DoubleValue(_) => precision.Some? ==> OnGrid(x, precision.value)
  }

  lemma WholeAbs(x: real)
    requires x == x.Floor as real
    ensures Abs(x).Floor as real == Abs(x)
  {
    var n := x.Floor;
    assert Abs(x) == (if n < 0 then -n else n) as real;
  }

  lemma UnhintedIntStep(metric: MetricType, value: int, dist: Distribution, opts: AdvanceOptions, tape: Tape, pos: nat,
                        x: real)
    requires IsCumulativeMonotonicSum(metric) && opts.hint.None? && tape.Valid()
    requires x == value as real + FloatDelta(metric, tape.normal(pos), dist) && x == x.Floor as real
    ensures AdvanceNumber(metric, IntValue(value), dist, opts, tape, pos).value == IntValue(Abs(x).Floor)
    ensures Abs(x).Floor as real == Abs(x)
  {
    hide FloatDelta;
    assert AdvanceFloat(metric, value as real, dist, tape, pos).value == Abs(x);
    assert Abs(x).Floor as real == Abs(x) by { WholeAbs(x); }
    AdvanceIntRounds(metric, value, dist, tape, pos);
    hide AdvanceFloat, AdvanceInt;
  }

  lemma UnhintedDoubleStep(metric: MetricType, value: real, dist: Distribution, opts: AdvanceOptions, tape: Tape,
                           pos: nat, x: real)
    requires IsCumulativeMonotonicSum(metric) && opts.hint.None?
    requires x == value + FloatDelta(metric, tape.normal(pos), dist)
    requires opts.precision.Some? ==> OnGrid(x, opts.precision.value)
    ensures AdvanceNumber(metric, DoubleValue(value), dist, opts, tape, pos).value == DoubleValue(Abs(x))
    ensures opts.precision.Some? ==> OnGrid(Abs(x), opts.precision.value)
  {
    hide FloatDelta, RoundToPrecision, OnGrid;
    assert AdvanceDouble(metric, value, dist, tape, pos).value == Abs(x);
    if opts.precision.Some? {
      GridAbs(x, opts.precision.value);
      RoundToPrecisionFixesGrid(Abs(x), opts.precision.value);
    }
  }

  /** A step that lands on a storable number stores its absolute value. */
  lemma UnhintedStep(s: Series, e: Surroundings, seed: NumberValue, t: nat, x: real)
    requires UnhintedCounter(s) && e.tape.Valid()
    requires x == AsReal(TemplateAt(s, e, seed, t)) + FloatDelta(s.metric, e.tape.normal(e.at(t)), e.dist)
    requires Storable(seed, x, s.precision)
      && WithReal(seed, AsReal(TemplateAt(s, e, seed, t))) == TemplateAt(s, e, seed, t)
    ensures TemplateAt(s, e, seed, t + 1) == WithReal(seed, Abs(x))
    ensures Storable(seed, Abs(x), s.precision) && (!seed.NoValue? ==> AsReal(WithReal(seed, Abs(x))) == Abs(x))
  {
    var was, opts := TemplateAt(s, e, seed, t), AdvanceOptions(s.hint, e.interval, s.precision);
    assert TemplateAt(s, e, seed, t + 1) == AdvanceNumber(s.metric, was, e.dist, opts, e.tape, e.at(t)).value;
    hide TemplateAt, FloatDelta, OnGrid;
    match was
    case NoValue => assert AdvanceNumber(s.metric, was, e.dist, opts, e.tape, e.at(t)).value == NoValue;
    case IntValue(i) =>
      hide AdvanceNumber;
      UnhintedIntStep(s.metric, i, e.dist, opts, e.tape, e.at(t), x);
    case DoubleValue(d) =>
      hide AdvanceNumber;
      UnhintedDoubleStep(s.metric, d, e.dist, opts, e.tape, e.at(t), x);
  }

  lemma WholeSum(x: real, k: int)
    requires x == x.Floor as real
    ensures x + k as real == (x + k as real).Floor as real
  {
    var n := x.Floor + k;
    assert x + k as real == n as real;
  }

  lemma StorableSum(was: NumberValue, x: real, k: int, precision: Option<nat>)
    requires Storable(was, x, precision)
    ensures Storable(was, x + k as real, precision)
  {
    hide OnGrid;
    match was
    case NoValue =>
    case IntValue(_) => WholeSum(x, k);
    case DoubleValue(_) => if precision.Some? { GridPlusInteger(x, k, precision.value); }
  }

  lemma StorableSeed(seed: NumberValue, precision: Option<nat>)
    requires OnSeriesGrid(seed, precision)
    ensures Storable(seed, AsReal(seed), precision) && WithReal(seed, AsReal(seed)) == seed
  {
  }

  lemma DeltaWithoutSpread(metric: MetricType, z: real, dist: Distribution)
    requires IsCumulativeMonotonicSum(metric) && dist.stdDev == 0.0
    ensures FloatDelta(metric, z, dist) == dist.medianMonotonicSum as real
  {
    assert z * dist.stdDev == 0.0;
  }

  /** Without spread every tick adds the median; only the first can change a sign. */
  lemma {:induction false} UnhintedWithoutSpread(s: Series, e: Surroundings, seed: NumberValue, t: nat)
    requires UnhintedCounter(s) && e.tape.Valid() && e.dist.stdDev == 0.0 && OnSeriesGrid(seed, s.precision)
      && !seed.NoValue?
    ensures var v, w := TemplateAt(s, e, seed, t), TemplateAt(s, e, seed, t + 1);
            && Storable(seed, AsReal(v), s.precision) && WithReal(seed, AsReal(v)) == v
            && WithReal(seed, AsReal(w)) == w && AsReal(w) == Abs(AsReal(v) + e.dist.medianMonotonicSum as real)
            && Storable(seed, AsReal(w), s.precision)
  {
    if t == 0 {
      assert TemplateAt(s, e, seed, 0) == seed;
      StorableSeed(seed, s.precision);
    } else {
      UnhintedWithoutSpread(s, e, seed, t - 1);
    }
    hide TemplateAt, FloatDelta, Storable;
    var v := TemplateAt(s, e, seed, t);
    DeltaWithoutSpread(s.metric, e.tape.normal(e.at(t)), e.dist);
    StorableSum(seed, AsReal(v), e.dist.medianMonotonicSum, s.precision);
    UnhintedStep(s, e, seed, t, AsReal(v) + e.dist.medianMonotonicSum as real);
  }

  lemma {:induction false} UnhintedGrowsWithoutSpread(s: Series, e: Surroundings, seed: NumberValue, t1: nat, t2: nat)
    requires UnhintedCounter(s) && e.tape.Valid() && e.dist.stdDev == 0.0 && OnSeriesGrid(seed, s.precision)
    requires !seed.NoValue? && 0 < t1 <= t2
    ensures AtMost(TemplateAt(s, e, seed, t1), TemplateAt(s, e, seed, t2))
    ensures AsReal(TemplateAt(s, e, seed, t1)) >= 0.0 && OnSeriesGrid(TemplateAt(s, e, seed, t1), s.precision)
    decreases t2 - t1
  {
    hide TemplateAt;
    UnhintedWithoutSpread(s, e, seed, t1 - 1);
    if t1 < t2 {
      UnhintedWithoutSpread(s, e, seed, t2 - 2);
      UnhintedWithoutSpread(s, e, seed, t2 - 1);
      UnhintedGrowsWithoutSpread(s, e, seed, t1, t2 - 1);
    }
    hide OnGrid;
  }

  lemma UnhintedNeverFallsWithoutSpread(s: Series, e: Surroundings, seed: NumberValue, instanceID: bv64)
    requires e.Valid() && UnhintedCounter(s) && e.dist.stdDev == 0.0 && OnSeriesGrid(seed, s.precision)
      && !seed.NoValue?
    ensures NeverFalls(s, e, seed, instanceID)
  {
    assert CounterSeries(s);
    hide TemplateAt, ApplyNumber, OnSeriesGrid, OptionsAt, StrategyFor, AtMost;
    forall t1: nat, t2: nat | t1 <= t2
      ensures AtMost(EmittedAt(s, e, seed, instanceID, t1), EmittedAt(s, e, seed, instanceID, t2))
    {
      UnhintedGrowsWithoutSpread(s, e, seed, t1 + 1, t2 + 1);
      CopiesInOrder(s, e, TemplateAt(s, e, seed, t1 + 1), TemplateAt(s, e, seed, t2 + 1), instanceID, t1, t2);
    }
  }

  // ----- a fall: something positive, then 0 -----

  lemma WrittenAtLeast(was: NumberValue, x: real, k: nat, precision: Option<nat>)
    requires x >= k as real && !was.NoValue?
    ensures AsReal(Written(was, x, precision)) >= k as real
  {
    hide RoundToPrecision, Round;
    RoundMonotone(k as real, x);
    RoundInteger(k);
    if precision.Some? {
      RoundingKeepsIntegerBounds(x, k, precision.value);
    }
  }

  /** A template that stands at v in one tick and rests at 0 in a later one lets an instance
      fall when its copy of v is positive. */
  lemma FallsToZero(s: Series, e: Surroundings, seed: NumberValue, instanceID: bv64, t1: nat, t2: nat)
    requires e.Valid() && CounterSeries(s) && t1 <= t2
    requires AsReal(TemplateAt(s, e, seed, t2 + 1)) == 0.0 && AsReal(EmittedAt(s, e, seed, instanceID, t1)) > 0.0
    ensures !AtMost(EmittedAt(s, e, seed, instanceID, t1), EmittedAt(s, e, seed, instanceID, t2))
    ensures !NeverFalls(s, e, seed, instanceID)
  {
    CounterCopy(s, e, TemplateAt(s, e, seed, t2 + 1), instanceID, t2);
    hide TemplateAt, ApplyNumber, OptionsAt, StrategyFor;
  }

  lemma TenAtLeastNine(trig: Trig, identityHash: bv64, instanceID: bv64, opts: VariationOptions)
    requires trig.Valid() && opts.counterBaseDelta >= 0.0 && opts.interval > 0
    requires ZERO_TIME <= opts.startTime <= opts.timestamp
    ensures CumulativeVariation(trig, COUNTER_VARIATION, 10.0, identityHash, instanceID, opts) >= 9.0
  {
    var unit := InstanceUnit(identityHash, instanceID);
    hide InstanceUnit, CounterRateOffset, StableMultiplier;
    OffsetMonotone(trig, identityHash, instanceID, unit, opts, opts.timestamp);
    MultiplierPositive(unit);
    var m := StableMultiplier(0.9, 1.1, unit);
    assert Scaled(10.0, m) >= 9.0;
  }

  /** In the first tick a copy of ten is at least nine. */
  lemma TenIsEmitted(s: Series, e: Surroundings, v: NumberValue, instanceID: bv64)
    requires e.Valid() && CounterSeries(s) && AsReal(v) == 10.0
    ensures AsReal(ApplyNumber(e.trig, StrategyFor(s.metric, s.hint), v, s.metric, s.precision, s.identityHash,
                               instanceID,
                               OptionsAt(e, 0))) >= 9.0
  {
    CounterCopy(s, e, v, instanceID, 0);
    var opts := OptionsAt(e, 0);
    hide ApplyNumber, StrategyFor;
    TenAtLeastNine(e.trig, s.identityHash, instanceID, opts);
    hide CumulativeVariation;
    WrittenAtLeast(v, CumulativeVariation(e.trig, COUNTER_VARIATION, 10.0, s.identityHash, instanceID, opts), 9,
                   s.precision);
  }

  lemma QuotientTimes(x: real, d: real)
    requires d != 0.0
    ensures x / d * d == x
  {
  }

  /** Draws that take the template to ten and then to zero. */
  function TenThenZero(seed: NumberValue, dist: Distribution): Tape
    requires dist.stdDev != 0.0
  {
    var up := (10.0 - AsReal(seed) - dist.medianMonotonicSum as real) / dist.stdDev;
    var down := (-10.0 - dist.medianMonotonicSum as real) / dist.stdDev;
    Tape((p: nat) => 0.5, (p: nat) => if p == 0 then up else down, (p: nat) => 0)
  }

  lemma DeltaIs(metric: MetricType, x: real, dist: Distribution)
    requires IsCumulativeMonotonicSum(metric) && dist.stdDev != 0.0
    ensures FloatDelta(metric, (x - dist.medianMonotonicSum as real) / dist.stdDev, dist) == x
  {
    QuotientTimes(x - dist.medianMonotonicSum as real, dist.stdDev);
  }

  lemma StorableInteger(was: NumberValue, k: int, precision: Option<nat>)
    ensures Storable(was, k as real, precision)
  {
    if was.DoubleValue? && precision.Some? {
      IntegerOnGrid(k, precision.value);
    }
  }

  lemma UnhintedReachesZero(s: Series, e: Surroundings, seed: NumberValue)
    requires UnhintedCounter(s) && e.dist.stdDev != 0.0 && OnSeriesGrid(seed, s.precision) && !seed.NoValue?
    requires e.tape == TenThenZero(seed, e.dist) && e.at(0) == 0 && e.at(1) == 2
    ensures AsReal(TemplateAt(s, e, seed, 1)) == 10.0 && AsReal(TemplateAt(s, e, seed, 2)) == 0.0
  {
    assert TemplateAt(s, e, seed, 0) == seed;
    assert e.tape.Valid();
    var up, down := e.tape.normal(0), e.tape.normal(2);
    DeltaIs(s.metric, 10.0 - AsReal(seed), e.dist);
    DeltaIs(s.metric, -10.0, e.dist);
    assert FloatDelta(s.metric, up, e.dist) == 10.0 - AsReal(seed);
    assert FloatDelta(s.metric, down, e.dist) == -10.0;
    StorableSeed(seed, s.precision);
    StorableInteger(seed, 10, s.precision);
    StorableInteger(seed, 0, s.precision);
    hide TemplateAt, FloatDelta, TenThenZero, OnGrid, Storable;
    UnhintedStep(s, e, seed, 0, 10.0);
    UnhintedStep(s, e, seed, 1, 0.0);
  }

  lemma UnhintedFalls(s: Series, e: Surroundings, seed: NumberValue, instanceID: bv64)
    requires e.Valid() && UnhintedCounter(s) && e.dist.stdDev != 0.0 && OnSeriesGrid(seed, s.precision)
      && !seed.NoValue?
    requires e.tape == TenThenZero(seed, e.dist) && e.at(0) == 0 && e.at(1) == 2
    ensures !AtMost(EmittedAt(s, e, seed, instanceID, 0), EmittedAt(s, e, seed, instanceID, 1))
    ensures !NeverFalls(s, e, seed, instanceID)
  {
    assert CounterSeries(s);
    hide TemplateAt, ApplyNumber, OptionsAt, StrategyFor, TenThenZero, NeverFalls;
    UnhintedReachesZero(s, e, seed);
    TenIsEmitted(s, e, TemplateAt(s, e, seed, 1), instanceID);
    FallsToZero(s, e, seed, instanceID, 0, 1);
  }

  /** An instance of a counter without a hint emits values that never fall on any tape exactly
      when the deltas have no spread; whatever the seed, the median and the instance. */
  lemma UnhintedNeverFallsExactlyWhen(s: Series, e: Surroundings, seed: NumberValue, instanceID: bv64)
    requires e.Valid() && UnhintedCounter(s) && OnSeriesGrid(seed, s.precision) && !seed.NoValue?
    ensures NeverFallsOnAnyTape(s, e, seed, instanceID) <==> e.dist.stdDev == 0.0
  {
    if e.dist.stdDev == 0.0 {
      forall tape: Tape, at: nat -> nat | tape.Valid() ensures NeverFalls(s, WithDraws(e, tape, at), seed, instanceID) {
        UnhintedNeverFallsWithoutSpread(s, WithDraws(e, tape, at), seed, instanceID);
      }
    } else {
      var tape, at := TenThenZero(seed, e.dist), (t: nat) => 2 * t;
      assert tape.Valid();
      UnhintedFalls(s, WithDraws(e, tape, at), seed, instanceID);
      assert !NeverFalls(s, WithDraws(e, tape, at), seed, instanceID);
    }
  }

  /** With the default distribution, a double seeded at 0: every instance falls. */
  lemma UnhintedCounterCanDecrease(trig: Trig, instanceID: bv64) returns (s: Series, e: Surroundings, seed: NumberValue)
    requires trig.Valid()
    ensures e.Valid() && e.trig == trig && s == Series(Sum(true, Cumulative), None, None, 0)
    ensures seed == DoubleValue(0.0) && e.dist == Distribution(100, 0.01, 1.0)
    ensures !AtMost(EmittedAt(s, e, seed, instanceID, 0), EmittedAt(s, e, seed, instanceID, 1))
  {
    s, seed := Series(Sum(true, Cumulative), None, None, 0), DoubleValue(0.0);
    var dist := Distribution(100, 0.01, 1.0);
    e := Surroundings(trig, dist, 0, SECOND, TenThenZero(seed, dist), (t: nat) => 2 * t);
    UnhintedFalls(s, e, seed, instanceID);
  }

  // ----- hinted counters with a negative seed -----

  predicate IsWhole(x: real) { x == x.Floor as real }

  /** The rate wave lifts this instance's copies: every factor of its offset is positive. */
  predicate WaveLifts(s: Series, e: Surroundings, instanceID: bv64) {
    e.dist.medianMonotonicSum > 0 && e.startTime != ZERO_TIME && InstanceUnit(s.identityHash, instanceID) > 0.0
  }

  /** The steps of the counter can add up to exactly -x. */
  predicate CanReachZero(x: real, dist: Distribution) { dist.stdDev != 0.0 || IsWhole(x) }

  lemma NoGain(base: real, unit: real, wave: real)
    requires base == 0.0 || unit == 0.0
    ensures base * EXTRA_RATE_MAX * unit * wave == 0.0
  {
    assert base * EXTRA_RATE_MAX * unit == 0.0;
  }

  lemma OffsetWithoutLift(s: Series, e: Surroundings, instanceID: bv64, t: nat)
    requires e.Valid() && !WaveLifts(s, e, instanceID)
    ensures CounterRateOffset(e.trig, s.identityHash, instanceID, InstanceUnit(s.identityHash, instanceID),
                              OptionsAt(e, t)) == 0.0
  {
    hide InstanceUnit, IntegratedCounterRateWave, WavePhase, Elapsed;
    var opts, unit := OptionsAt(e, t), InstanceUnit(s.identityHash, instanceID);
    if e.startTime != ZERO_TIME && Elapsed(opts) > 0.0 {
      NoGain(opts.counterBaseDelta, unit,
             IntegratedCounterRateWave(e.trig, Elapsed(opts), WavePhase(e.trig, s.identityHash, instanceID)));
    }
  }

  lemma ScaledNotPositive(x: real, m: real)
    requires x <= 0.0 && m >= 0.9
    ensures Scaled(x, m) <= 0.0
  {
    NonNegativeProduct(-x, m);
  }

  lemma WrittenZero(was: NumberValue, precision: Option<nat>)
    ensures AsReal(Written(was, 0.0, precision)) == 0.0
  {
    hide RoundToPrecision, Round;
    RoundInteger(0);
    if precision.Some? {
      RoundingKeepsIntegerBounds(0.0, 0, precision.value);
    }
  }

  /** Without lift a template that is not positive is emitted as nothing positive. */
  lemma CopyWithoutLift(s: Series, e: Surroundings, v: NumberValue, instanceID: bv64, t: nat)
    requires e.Valid() && CounterSeries(s) && !WaveLifts(s, e, instanceID) && AsReal(v) <= 0.0
    ensures AsReal(ApplyNumber(e.trig, StrategyFor(s.metric, s.hint), v, s.metric, s.precision, s.identityHash,
                               instanceID,
                               OptionsAt(e, t))) <= 0.0
  {
    var unit, opts := InstanceUnit(s.identityHash, instanceID), OptionsAt(e, t);
    CounterCopy(s, e, v, instanceID, t);
    OffsetWithoutLift(s, e, instanceID, t);
    hide ApplyNumber, StrategyFor, CounterRateOffset, InstanceUnit, OptionsAt, StableMultiplier;
    MultiplierPositive(unit);
    ScaledNotPositive(AsReal(v), StableMultiplier(0.9, 1.1, unit));
    hide Scaled;
    assert CumulativeVariation(e.trig, COUNTER_VARIATION, AsReal(v), s.identityHash, instanceID, opts) == 0.0;
    hide CumulativeVariation;
    WrittenZero(v, s.precision);
  }

  /** The template rests at 0 in tick t2 after something positive was emitted in tick t1. */
  ghost predicate PositiveThenZero(s: Series, e: Surroundings, seed: NumberValue, instanceID: bv64, t1: nat, t2: nat)
    requires e.Valid()
  {
    AsReal(TemplateAt(s, e, seed, t2 + 1)) == 0.0 && AsReal(EmittedAt(s, e, seed, instanceID, t1)) > 0.0
  }

  lemma NeverFallsUnless(s: Series, e: Surroundings, seed: NumberValue, instanceID: bv64)
    requires e.Valid() && HintedCounter(s) && OnSeriesGrid(seed, s.precision)
    requires forall t1: nat, t2: nat :: t1 <= t2 ==> !PositiveThenZero(s, e, seed, instanceID, t1, t2)
    ensures NeverFalls(s, e, seed, instanceID)
  {
    hide TemplateAt, ApplyNumber, OnSeriesGrid, OptionsAt, StrategyFor, HintedCounter, AtMost;
    forall t1: nat, t2: nat | t1 <= t2
      ensures AtMost(EmittedAt(s, e, seed, instanceID, t1), EmittedAt(s, e, seed, instanceID, t2))
    {
      assert !PositiveThenZero(s, e, seed, instanceID, t1, t2);
      CounterDecreasesExactlyWhen(s, e, seed, instanceID, t1, t2);
    }
  }

  lemma NeverFallsWithoutLift(s: Series, e: Surroundings, seed: NumberValue, instanceID: bv64)
    requires e.Valid() && HintedCounter(s) && OnSeriesGrid(seed, s.precision) && !WaveLifts(s, e, instanceID)
    ensures NeverFalls(s, e, seed, instanceID)
  {
    assert CounterSeries(s);
    hide TemplateAt, ApplyNumber, OnSeriesGrid, OptionsAt, StrategyFor, WaveLifts, CounterSeries, NeverFalls;
    forall t1: nat, t2: nat | t1 <= t2 ensures !PositiveThenZero(s, e, seed, instanceID, t1, t2) {
      CounterTemplateGrows(s, e, seed, t1 + 1, t2 + 1);
      if AsReal(TemplateAt(s, e, seed, t2 + 1)) == 0.0 {
        CopyWithoutLift(s, e, TemplateAt(s, e, seed, t1 + 1), instanceID, t1);
      }
    }
    NeverFallsUnless(s, e, seed, instanceID);
  }

  /** A hinted step that lands on the grid is stored as it is. */
  lemma HintedStep(s: Series, e: Surroundings, seed: NumberValue, t: nat, x: real)
    requires HintedCounter(s) && TemplateAt(s, e, seed, t).DoubleValue?
    requires x == HintAdvance(s.hint.value, s.metric, TemplateAt(s, e, seed, t).d, e.dist, e.interval, e.tape,
                              e.at(t)).value
    requires OnSeriesGrid(DoubleValue(x), s.precision)
    ensures TemplateAt(s, e, seed, t + 1) == DoubleValue(x)
  {
    hide HintAdvance, OnGrid, RoundToPrecision;
    if s.precision.Some? {
      RoundToPrecisionFixesGrid(x, s.precision.value);
    }
  }

  lemma GridStep(v: real, k: int, precision: Option<nat>)
    requires OnSeriesGrid(DoubleValue(v), precision)
    ensures OnSeriesGrid(DoubleValue(v + k as real), precision)
  {
    if precision.Some? {
      GridPlusInteger(v, k, precision.value);
    }
  }

  lemma SparseStepWithoutSpread(metric: MetricType, current: real, dist: Distribution, tape: Tape, pos: nat)
    requires IsCumulativeMonotonicSum(metric) && dist.stdDev == 0.0
    ensures SparseCounterAdvance(metric, current, dist, tape, pos).value
         == current + if tape.uniform(pos) < 0.05 then 1.0 else 0.0
  {
    assert tape.normal(pos + 1) * dist.stdDev == 0.0;
  }

  /** Without spread a sparse counter only ever moves by whole numbers. */
  lemma {:induction false} SparseMovesByWholes(s: Series, e: Surroundings, seed: NumberValue, t: nat) returns (k: nat)
    requires HintedCounter(s) && s.hint == Some(SparseCounter) && e.dist.stdDev == 0.0
    requires seed.DoubleValue? && OnSeriesGrid(seed, s.precision)
    ensures TemplateAt(s, e, seed, t) == DoubleValue(seed.d + k as real)
  {
    assert TemplateAt(s, e, seed, 0) == seed;
    if t == 0 {
      k := 0;
    } else {
      var j := SparseMovesByWholes(s, e, seed, t - 1);
      SparseStepWithoutSpread(s.metric, seed.d + j as real, e.dist, e.tape, e.at(t - 1));
      k := j + if e.tape.uniform(e.at(t - 1)) < 0.05 then 1 else 0;
      GridStep(seed.d, k, s.precision);
      hide TemplateAt, SparseCounterAdvance, OnSeriesGrid;
      HintedStep(s, e, seed, t - 1, seed.d + k as real);
    }
  }

  lemma IntegerIsWhole(n: int)
    ensures IsWhole(n as real)
  {
  }

  lemma ZeroSumIsWhole(x: real, k: nat)
    requires x + k as real == 0.0
    ensures IsWhole(x)
  {
    var n := 0 - k;
    IntegerIsWhole(n);
    assert x == n as real;
  }

  lemma NeverFallsPastFractions(s: Series, e: Surroundings, seed: NumberValue, instanceID: bv64)
    requires e.Valid() && HintedCounter(s) && s.hint == Some(SparseCounter) && e.dist.stdDev == 0.0
    requires seed.DoubleValue? && OnSeriesGrid(seed, s.precision) && !IsWhole(seed.d)
    ensures NeverFalls(s, e, seed, instanceID)
  {
    hide TemplateAt, ApplyNumber, OnSeriesGrid, OptionsAt, StrategyFor, NeverFalls, IsWhole;
    forall t: nat ensures AsReal(TemplateAt(s, e, seed, t)) != 0.0 {
      var k := SparseMovesByWholes(s, e, seed, t);
      if seed.d + k as real == 0.0 {
        ZeroSumIsWhole(seed.d, k);
      }
    }
    forall t1: nat, t2: nat | t1 <= t2 ensures !PositiveThenZero(s, e, seed, instanceID, t1, t2) {
      assert AsReal(TemplateAt(s, e, seed, t2 + 1)) != 0.0;
    }
    NeverFallsUnless(s, e, seed, instanceID);
  }

  lemma ElapsedTicks(e: Surroundings, t: nat)
    requires e.Valid()
    ensures Elapsed(OptionsAt(e, t)) == t as real
  {
    ProductAsReal(t, e.interval);
    QuotientIs((t * e.interval) as real, e.interval as real, t as real);
  }

  /** What the rate wave is multiplied by for this instance. */
  function GainOf(s: Series, e: Surroundings, instanceID: bv64): real {
    e.dist.medianMonotonicSum as real * EXTRA_RATE_MAX * InstanceUnit(s.identityHash, instanceID)
  }

  /** The offset an instance gains per tick at the slowest. */
  function SlowestGain(s: Series, e: Surroundings, instanceID: bv64): real { GainOf(s, e, instanceID) * 0.2 }

  lemma GainPositive(s: Series, e: Surroundings, instanceID: bv64)
    requires WaveLifts(s, e, instanceID)
    ensures GainOf(s, e, instanceID) > 0.0 && SlowestGain(s, e, instanceID) > 0.0
  {
    var base, unit := e.dist.medianMonotonicSum as real, InstanceUnit(s.identityHash, instanceID);
    hide InstanceUnit;
    assert base > 0.0 && unit > 0.0;
    assert base * EXTRA_RATE_MAX * unit > 0.0;
  }

  lemma WaveAtLeast(trig: Trig, t: real, phase: real)
    requires trig.Valid() && t >= 0.0
    ensures IntegratedCounterRateWave(trig, t, phase) >= 0.2 * t
  {
    hide IntegratedCounterRateWave;
    WaveStartsAtZero(trig, phase);
    WaveStep(trig, 0.0, t, phase);
    assert 0.0 + t == t;
  }

  lemma OffsetIs(s: Series, e: Surroundings, instanceID: bv64, t: nat)
    requires e.Valid() && WaveLifts(s, e, instanceID) && t > 0
    ensures var unit := InstanceUnit(s.identityHash, instanceID);
            CounterRateOffset(e.trig, s.identityHash, instanceID, unit, OptionsAt(e, t))
            == Scaled(GainOf(s, e, instanceID),
                      IntegratedCounterRateWave(e.trig, t as real, WavePhase(e.trig, s.identityHash, instanceID)))
  {
    ElapsedTicks(e, t);
    MulOrder(1, t, e.interval);
    hide InstanceUnit, IntegratedCounterRateWave, WavePhase, Elapsed;
  }

  lemma CombineGain(gain: real, wave: real, t: real)
    requires gain > 0.0 && wave >= 0.2 * t
    ensures Scaled(gain, wave) >= Scaled(gain * 0.2, t)
  {
    MulMonotone(0.2 * t, wave, gain);
    assert gain * (0.2 * t) == Scaled(gain * 0.2, t);
  }

  lemma OffsetGrowsAtLeast(s: Series, e: Surroundings, instanceID: bv64, t: nat)
    requires e.Valid() && WaveLifts(s, e, instanceID) && t > 0
    ensures CounterRateOffset(e.trig, s.identityHash, instanceID, InstanceUnit(s.identityHash, instanceID),
                              OptionsAt(e, t))
         >= Scaled(SlowestGain(s, e, instanceID), t as real)
  {
    var phase := WavePhase(e.trig, s.identityHash, instanceID);
    OffsetIs(s, e, instanceID, t);
    GainPositive(s, e, instanceID);
    hide GainOf, Scaled, IntegratedCounterRateWave, WavePhase, CounterRateOffset, InstanceUnit, OptionsAt;
    WaveAtLeast(e.trig, t as real, phase);
    CombineGain(GainOf(s, e, instanceID), IntegratedCounterRateWave(e.trig, t as real, phase), t as real);
  }

  lemma EnoughSteps(need: real, gain: real) returns (n: nat)
    requires gain > 0.0 && need > 0.0
    ensures n > 0 && Scaled(gain, n as real) >= need
  {
    var q := need / gain;
    assert q > 0.0 && gain * q == need;
    n := q.Floor + 1;
    MulMonotone(q, n as real, gain);
  }

  lemma ScaledDebt(x: real, m: real)
    requires x < 0.0 && m <= 1.1
    ensures Scaled(x, m) >= 1.1 * x
  {
    NonNegativeProduct(-x, 1.1 - m);
  }

  /** However negative the template, the wave lifts its copy to 1 or more after enough ticks. */
  lemma LiftedCopy(s: Series, e: Surroundings, v: NumberValue, instanceID: bv64) returns (t: nat)
    requires e.Valid() && CounterSeries(s) && WaveLifts(s, e, instanceID) && AsReal(v) < 0.0
    ensures AsReal(ApplyNumber(e.trig, StrategyFor(s.metric, s.hint), v, s.metric, s.precision, s.identityHash,
                               instanceID,
                               OptionsAt(e, t))) >= 1.0
  {
    var x, unit := AsReal(v), InstanceUnit(s.identityHash, instanceID);
    GainPositive(s, e, instanceID);
    t := EnoughSteps(1.0 - 1.1 * x, SlowestGain(s, e, instanceID));
    CounterCopy(s, e, v, instanceID, t);
    OffsetGrowsAtLeast(s, e, instanceID, t);
    var opts := OptionsAt(e, t);
    hide ApplyNumber, StrategyFor, CounterRateOffset, InstanceUnit, OptionsAt, StableMultiplier, SlowestGain, Scaled;
    MultiplierPositive(unit);
    ScaledDebt(x, StableMultiplier(0.9, 1.1, unit));
    assert CumulativeVariation(e.trig, COUNTER_VARIATION, x, s.identityHash, instanceID, opts) >= 1.0;
    hide CumulativeVariation;
    WrittenAtLeast(v, CumulativeVariation(e.trig, COUNTER_VARIATION, x, s.identityHash, instanceID, opts), 1,
                   s.precision);
  }

  // ----- a run that rests at a negative seed and then climbs to 0 -----

  /** The counter's delta in tick t adds k to v. */
  ghost predicate AddsWhole(s: Series, e: Surroundings, t: nat, v: real, k: real) {
    s.hint.Some? && HintAdvance(s.hint.value, s.metric, v, e.dist, e.interval, e.tape, e.at(t)).value == v + k
  }

  lemma {:induction false} RestsAtSeed(s: Series, e: Surroundings, seed: NumberValue, t: nat)
    requires HintedCounter(s) && seed.DoubleValue? && OnSeriesGrid(seed, s.precision)
    requires forall u: nat :: u < t ==> AddsWhole(s, e, u, seed.d, 0.0)
    ensures TemplateAt(s, e, seed, t) == seed
  {
    assert TemplateAt(s, e, seed, 0) == seed;
    hide TemplateAt, OnSeriesGrid;
    if t > 0 {
      RestsAtSeed(s, e, seed, t - 1);
      assert AddsWhole(s, e, t - 1, seed.d, 0.0);
      HintedStep(s, e, seed, t - 1, seed.d);
    }
  }

  /** One draw of the whole distance. */
  lemma ClimbsAtOnce(s: Series, e: Surroundings, seed: NumberValue, t: nat)
    requires HintedCounter(s) && TemplateAt(s, e, seed, t) == seed && seed.DoubleValue?
    requires AddsWhole(s, e, t, seed.d, -seed.d)
    ensures TemplateAt(s, e, seed, t + 1) == DoubleValue(0.0)
  {
    if s.precision.Some? {
      IntegerOnGrid(0, s.precision.value);
    }
    hide TemplateAt;
    HintedStep(s, e, seed, t, 0.0);
  }

  /** Steps of 1. */
  lemma {:induction false} ClimbsByOnes(s: Series, e: Surroundings, seed: NumberValue, t: nat, k: nat)
    requires HintedCounter(s) && TemplateAt(s, e, seed, t) == seed && seed.DoubleValue?
      && OnSeriesGrid(seed, s.precision)
    requires forall u: nat, v: real :: t <= u ==> AddsWhole(s, e, u, v, 1.0)
    ensures TemplateAt(s, e, seed, t + k) == DoubleValue(seed.d + k as real)
  {
    hide TemplateAt;
    if k > 0 {
      ClimbsByOnes(s, e, seed, t, k - 1);
      GridStep(seed.d, k, s.precision);
      var v := seed.d + (k - 1) as real;
      assert AddsWhole(s, e, t + k - 1, v, 1.0);
      HintedStep(s, e, seed, t + k - 1, seed.d + k as real);
    }
  }

  /** Holds the template up to tick last, then lets it rise: position 2t belongs to tick t. */
  function HeldTape(last: nat, held: real, raised: real): Tape {
    Tape((p: nat) => if p <= 2 * last then 0.5 else 0.0,
         (p: nat) => if p <= 2 * last then held else raised,
         (p: nat) => 0)
  }

  function HeldTapeFor(hint: HintClass, dist: Distribution, x: real, last: nat): Tape {
    if dist.stdDev == 0.0 then HeldTape(last, 0.0, 0.0)
    else if hint == SteadyCounter then
      HeldTape(last, (0.0 - dist.medianMonotonicSum as real) / dist.stdDev,
               (-x - dist.medianMonotonicSum as real) / dist.stdDev)
    else HeldTape(last, 0.0, -x / dist.stdDev)
  }

  /** A run on the tape made for this seed. */
  ghost predicate HeldRun(s: Series, e: Surroundings, x: real, last: nat) {
    && HintedCounter(s) && x < 0.0 && (s.hint == Some(SteadyCounter) ==> e.dist.stdDev != 0.0)
    && e.tape == HeldTapeFor(s.hint.value, e.dist, x, last) && forall t: nat :: e.at(t) == 2 * t
  }

  lemma SteadyDelta(metric: MetricType, v: real, dist: Distribution, interval: int, tape: Tape, pos: nat, k: real)
    requires IsCumulativeMonotonicSum(metric) && dist.stdDev != 0.0 && k >= 0.0
    requires tape.normal(pos) == (k - dist.medianMonotonicSum as real) / dist.stdDev
    ensures HintAdvance(SteadyCounter, metric, v, dist, interval, tape, pos).value == v + k
  {
    QuotientTimes(k - dist.medianMonotonicSum as real, dist.stdDev);
  }

  lemma SparseDelta(metric: MetricType, v: real, dist: Distribution, interval: int, tape: Tape, pos: nat)
    requires IsCumulativeMonotonicSum(metric)
    ensures tape.uniform(pos) == 0.5 ==> HintAdvance(SparseCounter, metric, v, dist, interval, tape, pos).value == v
    ensures tape.uniform(pos) == 0.0 && dist.stdDev == 0.0 ==>
      HintAdvance(SparseCounter, metric, v, dist, interval, tape, pos).value == v + 1.0
  {
    if dist.stdDev == 0.0 {
      SparseStepWithoutSpread(metric, v, dist, tape, pos);
    }
  }

  lemma SparseRise(metric: MetricType, v: real, dist: Distribution, interval: int, tape: Tape, pos: nat, k: real)
    requires IsCumulativeMonotonicSum(metric) && dist.stdDev != 0.0 && k > 0.0
    requires tape.uniform(pos) == 0.0 && tape.normal(pos + 1) == k / dist.stdDev
    ensures HintAdvance(SparseCounter, metric, v, dist, interval, tape, pos).value == v + k
  {
    QuotientTimes(k, dist.stdDev);
  }

  lemma HeldSteps(s: Series, e: Surroundings, x: real, last: nat, t: nat, v: real)
    requires HeldRun(s, e, x, last)
    ensures t <= last ==> AddsWhole(s, e, t, v, 0.0)
    ensures t == last + 1 && e.dist.stdDev != 0.0 ==> AddsWhole(s, e, t, v, -x)
    ensures t > last && e.dist.stdDev == 0.0 ==> AddsWhole(s, e, t, v, 1.0)
  {
    var pos := e.at(t);
    assert pos == 2 * t;
    hide HintAdvance;
    if s.hint == Some(SteadyCounter) {
      SteadyDelta(s.metric, v, e.dist, e.interval, e.tape, pos, if t <= last then 0.0 else -x);
    } else {
      SparseDelta(s.metric, v, e.dist, e.interval, e.tape, pos);
      if t > last && e.dist.stdDev != 0.0 {
        SparseRise(s.metric, v, e.dist, e.interval, e.tape, pos, -x);
      }
    }
  }

  lemma HeldIsHinted(s: Series, e: Surroundings, x: real, last: nat)
    requires HeldRun(s, e, x, last)
    ensures HintedCounter(s) && x < 0.0
  {
  }

  lemma WholeDistance(x: real) returns (k: nat)
    requires IsWhole(x) && x < 0.0
    ensures k > 0 && x + k as real == 0.0
  {
    k := -x.Floor;
  }

  /** On that tape the template rests at the seed through tick last and is 0 in some later tick. */
  lemma HeldThenZero(s: Series, e: Surroundings, seed: NumberValue, last: nat) returns (t: nat)
    requires seed.DoubleValue? && OnSeriesGrid(seed, s.precision) && CanReachZero(seed.d, e.dist)
      && HeldRun(s, e, seed.d, last)
    ensures TemplateAt(s, e, seed, last + 1) == seed && last < t && TemplateAt(s, e, seed, t + 1) == DoubleValue(0.0)
  {
    hide TemplateAt, OnSeriesGrid, AddsWhole, HeldRun, IsWhole;
    forall u: nat | u < last + 1 ensures AddsWhole(s, e, u, seed.d, 0.0) {
      HeldSteps(s, e, seed.d, last, u, seed.d);
    }
    HeldIsHinted(s, e, seed.d, last);
    RestsAtSeed(s, e, seed, last + 1);
    if e.dist.stdDev != 0.0 {
      t := last + 1;
      HeldSteps(s, e, seed.d, last, t, seed.d);
      ClimbsAtOnce(s, e, seed, t);
    } else {
      var k := WholeDistance(seed.d);
      t := last + k;
      forall u: nat, v: real | last + 1 <= u ensures AddsWhole(s, e, u, v, 1.0) {
        HeldSteps(s, e, seed.d, last, u, v);
      }
      ClimbsByOnes(s, e, seed, last + 1, k);
      assert last + 1 + k == t + 1;
    }
  }

  lemma NegativeSeedFalls(s: Series, e: Surroundings, seed: NumberValue, instanceID: bv64)
    returns (tape: Tape, at: nat -> nat)
    requires e.Valid() && HintedCounter(s) && OnSeriesGrid(seed, s.precision) && seed.DoubleValue? && seed.d < 0.0
    requires s.hint == Some(SteadyCounter) ==> e.dist.stdDev != 0.0
    requires WaveLifts(s, e, instanceID) && CanReachZero(seed.d, e.dist)
    ensures tape.Valid() && !NeverFalls(s, WithDraws(e, tape, at), seed, instanceID)
  {
    assert CounterSeries(s);
    var last := LiftedCopy(s, e, seed, instanceID);
    tape, at := HeldTapeFor(s.hint.value, e.dist, seed.d, last), (t: nat) => 2 * t;
    var run := WithDraws(e, tape, at);
    assert run.Valid() && HeldRun(s, run, seed.d, last) && OptionsAt(run, last) == OptionsAt(e, last);
    hide TemplateAt, ApplyNumber, OptionsAt, StrategyFor, HeldTapeFor, NeverFalls, WaveLifts, HeldRun, OnSeriesGrid;
    var t := HeldThenZero(s, run, seed, last);
    FallsToZero(s, run, seed, instanceID, last, t);
  }

  lemma SteadyDeltaWithoutSpread(metric: MetricType, v: real, dist: Distribution, interval: int, tape: Tape, pos: nat)
    requires IsCumulativeMonotonicSum(metric) && dist.stdDev == 0.0
    ensures HintAdvance(SteadyCounter, metric, v, dist, interval, tape, pos).value
         == v + dist.medianMonotonicSum as real
  {
    assert tape.normal(pos) * dist.stdDev == 0.0;
  }

  /** Without spread a steady counter adds the median every tick, so its template is known in advance. */
  lemma {:induction false} SteadyWithoutSpread(s: Series, e: Surroundings, seed: NumberValue, t: nat)
    requires HintedCounter(s) && s.hint == Some(SteadyCounter) && e.dist.stdDev == 0.0
    requires seed.DoubleValue? && OnSeriesGrid(seed, s.precision)
    ensures TemplateAt(s, e, seed, t) == DoubleValue(seed.d + (t * e.dist.medianMonotonicSum) as real)
  {
    assert TemplateAt(s, e, seed, 0) == seed;
    if t > 0 {
      SteadyWithoutSpread(s, e, seed, t - 1);
      var m := e.dist.medianMonotonicSum;
      assert t * m == (t - 1) * m + m;
      GridStep(seed.d, t * m, s.precision);
      SteadyDeltaWithoutSpread(s.metric, seed.d + ((t - 1) * m) as real, e.dist, e.interval, e.tape, e.at(t - 1));
      hide TemplateAt, HintAdvance, OnSeriesGrid;
      HintedStep(s, e, seed, t - 1, seed.d + (t * m) as real);
    }
  }

  /** What the copy of -m holds in tick k before it is cut off at 0 and written. */
  function BeforeZero(s: Series, e: Surroundings, instanceID: bv64, k: nat): real
    requires e.trig.pi > 0.0
  {
    Scaled(-(e.dist.medianMonotonicSum as real), StableMultiplier(0.9, 1.1, InstanceUnit(s.identityHash, instanceID)))
    + Scaled(GainOf(s, e, instanceID),
             IntegratedCounterRateWave(e.trig, k as real, WavePhase(e.trig, s.identityHash, instanceID)))
  }

  /** More than 0 once written: half of the last decimal that is kept, or anything. */
  predicate WritesPositive(x: real, precision: Option<nat>) {
    match precision
    case None => x > 0.0
    case Some(decimals) => Scaled(x, Pow10(decimals)) >= 0.5
  }

  /** The template stands at -m in tick k, at 0 in the next, and the wave has lifted the copy of
      -m far enough to be written above 0. */
  predicate FallsAfter(s: Series, e: Surroundings, seed: real, instanceID: bv64, k: nat)
    requires e.trig.pi > 0.0
  {
    && seed == -(((k + 2) * e.dist.medianMonotonicSum) as real)
    && WaveLifts(s, e, instanceID)
    && WritesPositive(BeforeZero(s, e, instanceID, k), s.precision)
  }

  lemma QuotientSign(x: real, mul: real)
    requires mul > 0.0
    ensures x / mul > 0.0 <==> x > 0.0
  {
    var q := x / mul;
    assert q * mul == x;
  }

  lemma RoundToGridPositive(x: real, mul: real)
    requires mul > 0.0
    ensures RoundToGrid(x, mul) > 0.0 <==> Scaled(x, mul) >= 0.5
  {
    var n := Round(Scaled(x, mul));
    assert n > 0 <==> Scaled(x, mul) >= 0.5;
    hide Round, Scaled;
    QuotientSign(n as real, mul);
  }

  lemma WrittenPositive(was: real, x: real, precision: Option<nat>)
    ensures AsReal(Written(DoubleValue(was), MaxReal(0.0, x), precision)) > 0.0 <==> WritesPositive(x, precision)
  {
    hide Round;
    match precision
    case None =>
    case Some(decimals) =>
      var mul := Pow10(decimals);
      RoundToGridPositive(MaxReal(0.0, x), mul);
      if x < 0.0 {
        ScaledMonotone(x, 0.0, mul);
      }
      hide RoundToGrid;
  }

  lemma NoScale(x: real)
    ensures Scaled(x, 0.0) == 0.0
  {
  }

  lemma CopyBeforeZero(s: Series, e: Surroundings, instanceID: bv64, k: nat)
    requires e.Valid() && WaveLifts(s, e, instanceID)
    ensures CumulativeVariation(e.trig, COUNTER_VARIATION, -(e.dist.medianMonotonicSum as real), s.identityHash,
                                instanceID, OptionsAt(e, k))
         == MaxReal(0.0, BeforeZero(s, e, instanceID, k))
  {
    hide IntegratedCounterRateWave, WavePhase, Scaled, InstanceUnit, GainOf, Elapsed;
    if k > 0 {
      OffsetIs(s, e, instanceID, k);
      hide CounterRateOffset, OptionsAt, WaveLifts;
    } else {
      ElapsedTicks(e, 0);
      WaveStartsAtZero(e.trig, WavePhase(e.trig, s.identityHash, instanceID));
      NoScale(GainOf(s, e, instanceID));
    }
  }

  lemma CopyWrittenPositive(s: Series, e: Surroundings, instanceID: bv64, k: nat)
    requires e.Valid() && CounterSeries(s) && WaveLifts(s, e, instanceID)
    ensures AsReal(ApplyNumber(e.trig, StrategyFor(s.metric, s.hint),
                               DoubleValue(-(e.dist.medianMonotonicSum as real)), s.metric,
                               s.precision, s.identityHash, instanceID, OptionsAt(e, k))) > 0.0
       <==> WritesPositive(BeforeZero(s, e, instanceID, k), s.precision)
  {
    var m := e.dist.medianMonotonicSum as real;
    assert m != 0.0;
    CounterCopy(s, e, DoubleValue(-m), instanceID, k);
    CopyBeforeZero(s, e, instanceID, k);
    WrittenPositive(-m, BeforeZero(s, e, instanceID, k), s.precision);
    hide ApplyNumber, OptionsAt, StrategyFor, CumulativeVariation, BeforeZero, WritesPositive, Written, WaveLifts;
  }

  lemma SteadyLastSteps(s: Series, e: Surroundings, seed: NumberValue, k: nat)
    requires HintedCounter(s) && s.hint == Some(SteadyCounter) && e.dist.stdDev == 0.0
    requires seed.DoubleValue? && OnSeriesGrid(seed, s.precision)
    requires seed.d == -(((k + 2) * e.dist.medianMonotonicSum) as real)
    ensures TemplateAt(s, e, seed, k + 1) == DoubleValue(-(e.dist.medianMonotonicSum as real))
    ensures TemplateAt(s, e, seed, k + 2) == DoubleValue(0.0)
  {
    var m := e.dist.medianMonotonicSum;
    SteadyWithoutSpread(s, e, seed, k + 1);
    SteadyWithoutSpread(s, e, seed, k + 2);
    assert (k + 2) * m == (k + 1) * m + m;
    hide TemplateAt, OnSeriesGrid;
  }

  /** The last emission before the template reaches 0. */
  lemma EmittedBeforeZero(s: Series, e: Surroundings, seed: NumberValue, instanceID: bv64, k: nat)
    requires e.Valid() && HintedCounter(s) && s.hint == Some(SteadyCounter) && e.dist.stdDev == 0.0
    requires seed.DoubleValue? && OnSeriesGrid(seed, s.precision)
    requires WaveLifts(s, e, instanceID) && seed.d == -(((k + 2) * e.dist.medianMonotonicSum) as real)
    ensures AsReal(EmittedAt(s, e, seed, instanceID, k)) > 0.0
       <==> WritesPositive(BeforeZero(s, e, instanceID, k), s.precision)
    ensures AsReal(TemplateAt(s, e, seed, k + 1)) != 0.0 && AsReal(TemplateAt(s, e, seed, k + 2)) == 0.0
  {
    assert CounterSeries(s);
    hide TemplateAt, ApplyNumber, OptionsAt, StrategyFor, OnSeriesGrid, BeforeZero, WritesPositive, CounterSeries;
    SteadyLastSteps(s, e, seed, k);
    CopyWrittenPositive(s, e, instanceID, k);
  }

  lemma ReachesZero(x: real, m: nat, t: nat)
    requires x + ((t + 1) * m) as real == 0.0 && t > 0
    ensures x == -(((t - 1 + 2) * m) as real)
  {
  }

  lemma PositiveStays(v: NumberValue, w: NumberValue)
    requires AtMost(v, w) && AsReal(v) > 0.0
    ensures AsReal(w) > 0.0
  {
  }

  lemma NothingAtZero(s: Series, e: Surroundings, seed: NumberValue, instanceID: bv64, t: nat)
    requires e.Valid() && CounterSeries(s) && AsReal(TemplateAt(s, e, seed, t + 1)) == 0.0
    ensures AsReal(EmittedAt(s, e, seed, instanceID, t)) == 0.0
  {
    hide TemplateAt, ApplyNumber, OptionsAt, StrategyFor;
    CounterCopy(s, e, TemplateAt(s, e, seed, t + 1), instanceID, t);
  }

  lemma HintedIsCounter(s: Series)
    requires HintedCounter(s)
    ensures CounterSeries(s)
  {
  }

  lemma RisesWhileNotZero(s: Series, e: Surroundings, seed: NumberValue, instanceID: bv64, t: nat, u: nat)
    requires e.Valid() && HintedCounter(s) && OnSeriesGrid(seed, s.precision) && t <= u
    requires AsReal(EmittedAt(s, e, seed, instanceID, t)) > 0.0 && AsReal(TemplateAt(s, e, seed, u + 1)) != 0.0
    ensures AsReal(EmittedAt(s, e, seed, instanceID, u)) > 0.0
  {
    hide TemplateAt, ApplyNumber, OptionsAt, StrategyFor, OnSeriesGrid, AtMost, AsReal;
    CounterDecreasesExactlyWhen(s, e, seed, instanceID, t, u);
    PositiveStays(EmittedAt(s, e, seed, instanceID, t), EmittedAt(s, e, seed, instanceID, u));
  }

  /** The copies rise until the template is 0, so the tick before that decides. */
  lemma SteadyFallIsAfter(s: Series, e: Surroundings, seed: NumberValue, instanceID: bv64, t1: nat, t2: nat)
    requires e.Valid() && HintedCounter(s) && s.hint == Some(SteadyCounter) && e.dist.stdDev == 0.0
    requires seed.DoubleValue? && OnSeriesGrid(seed, s.precision) && WaveLifts(s, e, instanceID)
    requires t1 <= t2 && PositiveThenZero(s, e, seed, instanceID, t1, t2)
    ensures t2 > 0 && FallsAfter(s, e, seed.d, instanceID, t2 - 1)
  {
    hide TemplateAt, ApplyNumber, OptionsAt, StrategyFor, OnSeriesGrid, BeforeZero, WritesPositive, WaveLifts,
      CounterSeries, HintedCounter, AtMost;
    HintedIsCounter(s);
    NothingAtZero(s, e, seed, instanceID, t2);
    SteadyWithoutSpread(s, e, seed, t2 + 1);
    ReachesZero(seed.d, e.dist.medianMonotonicSum, t2);
    EmittedBeforeZero(s, e, seed, instanceID, t2 - 1);
    RisesWhileNotZero(s, e, seed, instanceID, t1, t2 - 1);
  }

  /** Without spread no draw matters to a steady counter. An instance's emissions fall exactly
      when its float seed lies a whole number of medians below 0, two or more, and the wave has
      lifted the copy of the last negative value above 0 by then. */
  lemma SteadyNeverFallsExactlyWhen(s: Series, e: Surroundings, seed: NumberValue, instanceID: bv64)
    requires e.Valid() && HintedCounter(s) && s.hint == Some(SteadyCounter) && e.dist.stdDev == 0.0
    requires seed.DoubleValue? && OnSeriesGrid(seed, s.precision)
    ensures NeverFalls(s, e, seed, instanceID) <==> !exists k: nat :: FallsAfter(s, e, seed.d, instanceID, k)
  {
    assert CounterSeries(s);
    hide TemplateAt, ApplyNumber, OptionsAt, StrategyFor, OnSeriesGrid, BeforeZero, WritesPositive, WaveLifts,
      CounterSeries, NeverFalls;
    if k: nat :| FallsAfter(s, e, seed.d, instanceID, k) {
      EmittedBeforeZero(s, e, seed, instanceID, k);
      FallsToZero(s, e, seed, instanceID, k, k + 1);
    } else if !WaveLifts(s, e, instanceID) {
      NeverFallsWithoutLift(s, e, seed, instanceID);
    } else {
      hide FallsAfter;
      forall t1: nat, t2: nat | t1 <= t2 ensures !PositiveThenZero(s, e, seed, instanceID, t1, t2) {
        if PositiveThenZero(s, e, seed, instanceID, t1, t2) {
          SteadyFallIsAfter(s, e, seed, instanceID, t1, t2);
        }
      }
      NeverFallsUnless(s, e, seed, instanceID);
    }
  }

  lemma MultipleOfMedianOnGrid(n: int, precision: Option<nat>)
    ensures OnSeriesGrid(DoubleValue(n as real), precision)
  {
    if precision.Some? {
      IntegerOnGrid(n, precision.value);
    }
  }

  /** Every instance that the wave lifts has seeds from which its emissions fall. */
  lemma SteadySeedFalls(s: Series, e: Surroundings, instanceID: bv64) returns (seed: NumberValue, t: nat)
    requires e.Valid() && HintedCounter(s) && s.hint == Some(SteadyCounter) && e.dist.stdDev == 0.0
    requires WaveLifts(s, e, instanceID)
    ensures seed == DoubleValue(-(((t + 2) * e.dist.medianMonotonicSum) as real)) && OnSeriesGrid(seed, s.precision)
    ensures !AtMost(EmittedAt(s, e, seed, instanceID, t), EmittedAt(s, e, seed, instanceID, t + 1))
  {
    var m := e.dist.medianMonotonicSum;
    HintedIsCounter(s);
    hide ApplyNumber, OptionsAt, StrategyFor, CounterSeries, HintedCounter, AtMost, TemplateAt;
    t := LiftedCopy(s, e, DoubleValue(-(m as real)), instanceID);
    seed := DoubleValue(-(((t + 2) * m) as real));
    MultipleOfMedianOnGrid(-((t + 2) * m), s.precision);
    hide OnSeriesGrid;
    SteadyLastSteps(s, e, seed, t);
    FallsToZero(s, e, seed, instanceID, t, t + 1);
  }

  lemma HintedNeverFalls(s: Series, e: Surroundings, seed: NumberValue, instanceID: bv64)
    requires e.Valid() && HintedCounter(s) && OnSeriesGrid(seed, s.precision)
    requires seed.DoubleValue? && s.hint == Some(SteadyCounter) ==> e.dist.stdDev != 0.0
    requires !(seed.DoubleValue? && seed.d < 0.0 && WaveLifts(s, e, instanceID) && CanReachZero(seed.d, e.dist))
    ensures NeverFalls(s, e, seed, instanceID)
  {
    hide TemplateAt, ApplyNumber, OptionsAt, StrategyFor, OnSeriesGrid, IsWhole, AtMost;
    if !(seed.DoubleValue? && seed.d < 0.0) {
      forall t1: nat, t2: nat | t1 <= t2
        ensures AtMost(EmittedAt(s, e, seed, instanceID, t1), EmittedAt(s, e, seed, instanceID, t2))
      {
        CountersNeverDecrease(s, e, seed, instanceID, t1, t2);
      }
    } else if !WaveLifts(s, e, instanceID) {
      NeverFallsWithoutLift(s, e, seed, instanceID);
    } else {
      NeverFallsPastFractions(s, e, seed, instanceID);
    }
  }

  /** Draws exist that make the instance fall. The steps of a steady counter without spread are
      known in advance; those of any other hinted counter need only be able to add up to -x. */
  ghost predicate CanFall(s: Series, e: Surroundings, x: real, instanceID: bv64)
    requires e.trig.pi > 0.0
  {
    if s.hint == Some(SteadyCounter) && e.dist.stdDev == 0.0 then
      exists k: nat :: FallsAfter(s, e, x, instanceID, k)
    else
      WaveLifts(s, e, instanceID) && CanReachZero(x, e.dist)
  }

  lemma FallsAfterNegative(s: Series, e: Surroundings, x: real, instanceID: bv64, k: nat)
    requires e.trig.pi > 0.0 && FallsAfter(s, e, x, instanceID, k)
    ensures x < 0.0
  {
    hide BeforeZero, WritesPositive;
  }

  lemma DrawsDoNotMatter(s: Series, e: Surroundings, tape: Tape, at: nat -> nat, x: real, instanceID: bv64, k: nat)
    requires e.trig.pi > 0.0
    ensures FallsAfter(s, WithDraws(e, tape, at), x, instanceID, k) == FallsAfter(s, e, x, instanceID, k)
    ensures WaveLifts(s, WithDraws(e, tape, at), instanceID) == WaveLifts(s, e, instanceID)
  {
    var run := WithDraws(e, tape, at);
    assert run.trig == e.trig && run.dist == e.dist && run.startTime == e.startTime;
    assert GainOf(s, run, instanceID) == GainOf(s, e, instanceID);
    hide GainOf, Scaled, StableMultiplier, InstanceUnit, WavePhase, IntegratedCounterRateWave, WritesPositive,
      WithDraws;
    assert BeforeZero(s, run, instanceID, k) == BeforeZero(s, e, instanceID, k);
    hide BeforeZero;
  }

  lemma SteadyNeverFallsOnAnyTape(s: Series, e: Surroundings, seed: NumberValue, instanceID: bv64)
    requires e.Valid() && HintedCounter(s) && s.hint == Some(SteadyCounter) && e.dist.stdDev == 0.0
    requires seed.DoubleValue? && OnSeriesGrid(seed, s.precision)
    ensures NeverFallsOnAnyTape(s, e, seed, instanceID)
       <==> !exists k: nat :: FallsAfter(s, e, seed.d, instanceID, k)
  {
    hide NeverFalls, OnSeriesGrid, FallsAfter;
    forall tape: Tape, at: nat -> nat | tape.Valid()
      ensures NeverFalls(s, WithDraws(e, tape, at), seed, instanceID)
         <==> !exists k: nat :: FallsAfter(s, e, seed.d, instanceID, k)
    {
      SteadyNeverFallsExactlyWhen(s, WithDraws(e, tape, at), seed, instanceID);
      forall k: nat
        ensures FallsAfter(s, WithDraws(e, tape, at), seed.d, instanceID, k) == FallsAfter(s, e, seed.d, instanceID, k)
      {
        DrawsDoNotMatter(s, e, tape, at, seed.d, instanceID, k);
      }
    }
    assert WithDraws(e, e.tape, e.at) == e;
  }

  /** An instance of a hinted counter emits values that never fall on any tape, unless the seed
      is a negative float and the instance can fall from there. */
  lemma HintedNeverFallsExactlyWhen(s: Series, e: Surroundings, seed: NumberValue, instanceID: bv64)
    requires e.Valid() && HintedCounter(s) && OnSeriesGrid(seed, s.precision)
    ensures NeverFallsOnAnyTape(s, e, seed, instanceID)
       <==> !(seed.DoubleValue? && seed.d < 0.0 && CanFall(s, e, seed.d, instanceID))
  {
    hide NeverFalls, WaveLifts, IsWhole, OnSeriesGrid, FallsAfter;
    if seed.DoubleValue? && s.hint == Some(SteadyCounter) && e.dist.stdDev == 0.0 {
      SteadyNeverFallsOnAnyTape(s, e, seed, instanceID);
      if k: nat :| FallsAfter(s, e, seed.d, instanceID, k) {
        FallsAfterNegative(s, e, seed.d, instanceID, k);
      }
    } else if seed.DoubleValue? && seed.d < 0.0 && CanFall(s, e, seed.d, instanceID) {
      var tape, at := NegativeSeedFalls(s, e, seed, instanceID);
      assert !NeverFalls(s, WithDraws(e, tape, at), seed, instanceID);
    } else {
      forall tape: Tape, at: nat -> nat | tape.Valid() ensures NeverFalls(s, WithDraws(e, tape, at), seed, instanceID) {
        DrawsDoNotMatter(s, e, tape, at, 0.0, instanceID, 0);
        HintedNeverFalls(s, WithDraws(e, tape, at), seed, instanceID);
      }
    }
  }
}
