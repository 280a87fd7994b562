/** Ranges of gauges over whole runs (distribution.go, instance_variation.go). */
module GaugeRuns {
  import opened Numbers
  import opened Config
  import opened Metrics
  import opened Hash
  import opened Random
  import opened Noise
  import opened Advance
  import opened Variation
  import opened CounterRuns

  function Distance(v: real, n: int): real { Abs(v - n as real) }

  /** The even integer nearest to v. */
  function NearestEven(v: real): int {
    var down := Abs(v).Floor;
    var even := if down % 2 == 0 then down else down + 1;
    if v < 0.0 then -even else even
  }

  lemma NearestEvenIsEven(v: real)
    ensures NearestEven(v) % 2 == 0
  {
    var down := Abs(v).Floor;
    var even := if down % 2 == 0 then down else down + 1;
    assert even % 2 == 0 && (-even) % 2 == 0;
  }

  lemma BounceOfPositive(v: real)
    requires v >= 0.0
    ensures BounceBetweenZeroAndOne(v) == Distance(v, NearestEven(v)) <= 1.0
  {
    var down := v.Floor;
    assert down as real <= v < down as real + 1.0;
  }

  /** Bouncing does not look at the sign. */
  lemma BounceIsSymmetric(v: real)
    ensures BounceBetweenZeroAndOne(-v) == BounceBetweenZeroAndOne(v)
    ensures Distance(-v, NearestEven(-v)) == Distance(v, NearestEven(v))
  {
    assert Abs(-v) == Abs(v);
  }

  lemma EvenGap(near: int, even: int)
    requires near % 2 == 0 && even % 2 == 0 && even != near
    ensures even >= near + 2 || even <= near - 2
  {
    var p, q := near / 2, even / 2;
    assert near == 2 * p && even == 2 * q;
  }

  lemma FurtherReal(v: real, near: real, other: real)
    requires Abs(v - near) <= 1.0 && (other >= near + 2.0 || other <= near - 2.0)
    ensures Abs(v - near) <= Abs(v - other)
  {
  }

  lemma OtherEvenIsFurther(v: real, near: int, even: int)
    requires near % 2 == 0 && even % 2 == 0 && Distance(v, near) <= 1.0
    ensures Distance(v, near) <= Distance(v, even)
  {
    if even != near {
      EvenGap(near, even);
      hide *;
      var a, b := near as real, even as real;
      FurtherReal(v, a, b);
    }
  }

  /** Bouncing is the distance to the nearest even integer. */
  lemma BounceIsDistanceToEven(v: real, even: int)
    requires even % 2 == 0
    ensures NearestEven(v) % 2 == 0 && BounceBetweenZeroAndOne(v) == Distance(v, NearestEven(v))
    ensures BounceBetweenZeroAndOne(v) <= Distance(v, even)
    ensures 0.0 <= BounceBetweenZeroAndOne(v) <= 1.0
  {
    hide BounceBetweenZeroAndOne, NearestEven;
    NearestEvenIsEven(v);
    BounceIsSymmetric(v);
    BounceOfPositive(if v < 0.0 then -v else v);
    OtherEvenIsFurther(v, NearestEven(v), even);
  }

  lemma BounceIdentity(v: real)
    requires 0.0 <= v <= 1.0
    ensures BounceBetweenZeroAndOne(v) == v
  {
    if v == 1.0 {
      assert v.Floor == 1;
    } else {
      assert v.Floor == 0;
    }
  }

  /** Reflection never moves two values further apart. */
  lemma BounceIsLipschitz(v: real, w: real)
    ensures Abs(BounceBetweenZeroAndOne(v) - BounceBetweenZeroAndOne(w)) <= Abs(v - w)
  {
    hide BounceBetweenZeroAndOne, NearestEven;
    BounceIsDistanceToEven(v, 0);
    BounceIsDistanceToEven(w, 0);
    BounceIsDistanceToEven(v, NearestEven(w));
    BounceIsDistanceToEven(w, NearestEven(v));
  }

  predicate UnitValue(v: NumberValue) { 0.0 <= AsReal(v) <= 1.0 }

  /** The series whose documentation promises a range of [0, 1]. */
  predicate UnitGauge(s: Series, seed: NumberValue) {
    && UnitValue(seed)
    && ((s.hint == Some(SlowGauge) && !IsCumulativeMonotonicSum(s.metric))
        || (s.hint.None? && s.metric.Gauge? && seed.DoubleValue?))
  }

  lemma WrittenKeepsUnit(was: NumberValue, x: real, precision: Option<nat>)
    requires 0.0 <= x <= 1.0
    ensures UnitValue(Written(was, x, precision))
  {
    hide RoundToPrecision;
    RoundMonotone(0.0, x);
    RoundMonotone(x, 1.0);
    if precision.Some? {
      RoundingKeepsIntegerBounds(x, 0, precision.value);
      RoundingKeepsIntegerBounds(x, 1, precision.value);
    }
  }

  lemma BouncedStepsInUnit(value: real, dist: Distribution, tape: Tape, pos: nat)
    ensures 0.0 <= AdvanceZeroToOne(value, dist, tape, pos).value <= 1.0
    ensures 0.0 <= value <= 1.0 ==> 0.0 <= SlowGaugeAdvance(value, dist, tape, pos).value <= 1.0
  {
    var moved, slow := value + tape.normal(pos) * dist.stdDevGaugePct, SlowGaugeStep(value, tape.normal(pos), dist);
    hide BounceBetweenZeroAndOne, SlowGaugeStep;
    assert AdvanceZeroToOne(value, dist, tape, pos).value == BounceBetweenZeroAndOne(moved);
    BounceIsDistanceToEven(moved, 0);
    BounceIsDistanceToEven(slow, 0);
  }

  lemma WrittenDouble(was: NumberValue, x: real, precision: Option<nat>)
    requires was.DoubleValue?
    ensures Written(was, x, precision) == DoubleValue(RoundIfSet(x, precision))
  {
  }

  lemma UnitGaugeStep(s: Series, e: Surroundings, seed: NumberValue, t: nat)
    requires UnitGauge(s, TemplateAt(s, e, seed, t))
    ensures UnitGauge(s, TemplateAt(s, e, seed, t + 1))
  {
    var was, pos := TemplateAt(s, e, seed, t), e.at(t);
    BouncedStepsInUnit(AsReal(was), e.dist, e.tape, pos);
    hide AdvanceZeroToOne, SlowGaugeAdvance, Written, RoundIfSet;
    if s.hint.Some? {
      WrittenKeepsUnit(was, SlowGaugeAdvance(AsReal(was), e.dist, e.tape, pos).value, s.precision);
    } else {
      var next := AdvanceZeroToOne(was.d, e.dist, e.tape, pos).value;
      WrittenKeepsUnit(was, next, s.precision);
      WrittenDouble(was, next, s.precision);
    }
  }

  /** A gauge that is in [0, 1] in some tick, however it got there, is in every later one. */
  lemma {:induction false} UnitGaugeStays(s: Series, e: Surroundings, seed: NumberValue, t1: nat, t2: nat)
    requires UnitGauge(s, TemplateAt(s, e, seed, t1)) && t1 <= t2
    ensures UnitGauge(s, TemplateAt(s, e, seed, t2))
    decreases t2 - t1
  {
    hide TemplateAt;
    if t1 < t2 {
      UnitGaugeStays(s, e, seed, t1, t2 - 1);
      UnitGaugeStep(s, e, seed, t2 - 1);
    }
  }

  lemma UnitCopy(current: real, identityHash: bv64, instanceID: bv64, opts: VariationOptions)
    requires 0.0 <= current <= 1.0
    ensures 0.0 <= NonCumulativeVariation(GAUGE_VARIATION, current, identityHash, instanceID, opts) <= 1.0
  {
    hide BounceBetweenZeroAndOne, ScaledGauge;
    BounceIsDistanceToEven(MaxReal(0.0, ScaledGauge(GAUGE_VARIATION, current, identityHash, instanceID, opts, true)),
                           0);
  }

  lemma UnitGaugeCopy(s: Series, e: Surroundings, v: NumberValue, instanceID: bv64, opts: VariationOptions)
    requires e.Valid() && UnitGauge(s, v)
    ensures UnitValue(ApplyNumber(e.trig, StrategyFor(s.metric, s.hint), v, s.metric, s.precision, s.identityHash,
                                  instanceID, opts))
  {
    hide NonCumulativeVariation, Written;
    assert !IsCumulativeMonotonicSum(s.metric) && StrategyFor(s.metric, s.hint) == GAUGE_VARIATION;
    UnitCopy(AsReal(v), s.identityHash, instanceID, opts);
    WrittenKeepsUnit(v, NonCumulativeVariation(GAUGE_VARIATION, AsReal(v), s.identityHash, instanceID, opts),
                     s.precision);
  }

  lemma SeedIsFirst(s: Series, e: Surroundings, seed: NumberValue)
    ensures TemplateAt(s, e, seed, 0) == seed
  {
  }

  /** A gauge seeded in [0, 1] stays there, in the template and in every instance's copy. */
  lemma UnitGaugeStaysInRange(s: Series, e: Surroundings, seed: NumberValue, instanceID: bv64, t: nat)
    requires e.Valid() && UnitGauge(s, seed)
    ensures UnitValue(TemplateAt(s, e, seed, t)) && UnitValue(EmittedAt(s, e, seed, instanceID, t))
  {
    SeedIsFirst(s, e, seed);
    hide TemplateAt, ApplyNumber, OptionsAt, StrategyFor;
    UnitGaugeStays(s, e, seed, 0, t);
    UnitGaugeStays(s, e, seed, 0, t + 1);
    UnitGaugeCopy(s, e, TemplateAt(s, e, seed, t + 1), instanceID, OptionsAt(e, t));
  }

  // ----- gauges outside [0, 1] -----

  lemma PushedOut(v: real)
    requires v >= 0.0
    ensures var x := AvoidUnitInterval(v); x > 1.0 || -1.0 <= x < -0.5
  {
  }

  /** Where a step of an unhinted gauge lands before it is pushed out of [0, 1]. */
  function RawStep(value: real, z: real, dist: Distribution): real { Abs(value + z * dist.stdDev) }

  /** Above 1 by less than half a unit of the last decimal. */
  predicate JustAboveOne(raw: real, precision: Option<nat>) {
    precision.Some? && 1.0 < raw && Scaled(raw, Pow10(precision.value)) < Pow10(precision.value) + 0.5
  }

  /** A value pushed out of [0, 1] does not round back. */
  lemma PushedOutIsFar(raw: real, mul: real)
    requires raw >= 0.0 && mul >= 1.0
    ensures var x := AvoidUnitInterval(raw);
            1.0 < x && Scaled(x, mul) < mul + 0.5 <==> 1.0 < raw && Scaled(raw, mul) < mul + 0.5
  {
    if 0.5 <= raw <= 1.0 {
      NonNegativeProduct(raw - 0.5, mul);
    }
  }

  lemma StrictProduct(x: real, mul: real)
    requires x > 0.0 && mul >= 1.0
    ensures x * mul > 0.0
  {
  }

  lemma ScaledSide(x: real, mul: real)
    requires mul >= 1.0
    ensures x > 1.0 ==> Scaled(x, mul) > mul
    ensures x < -0.5 ==> Scaled(x, mul) < -0.5
  {
    if x > 1.0 { StrictProduct(x - 1.0, mul); }
    if x < -0.5 { StrictProduct(-0.5 - x, mul); }
  }

  lemma GridSign(k: int, mul: real, n: int)
    requires mul == n as real && n >= 1
    ensures 0.0 <= GridPoint(k, mul) <= 1.0 <==> 0 <= k <= n
    ensures k == n ==> GridPoint(k, mul) == 1.0
  {
    var g := GridPoint(k, mul);
    assert g * mul == k as real;
    if g < 0.0 { StrictProduct(-g, mul); } else { NonNegativeProduct(g, mul); }
    if g <= 1.0 { NonNegativeProduct(1.0 - g, mul); } else { StrictProduct(g - 1.0, mul); }
  }

  lemma RoundsIntoUnitGrid(x: real, mul: real, n: int)
    requires (x > 1.0 || -1.0 <= x < -0.5) && mul == n as real && n >= 1
    ensures 0.0 <= RoundToGrid(x, mul) <= 1.0 <==> 1.0 < x && Scaled(x, mul) < mul + 0.5
    ensures 0.0 <= RoundToGrid(x, mul) <= 1.0 ==> RoundToGrid(x, mul) == 1.0
  {
    var y := Scaled(x, mul);
    GridSign(Round(y), mul, n);
    ScaledSide(x, mul);
    hide Scaled, GridPoint;
    if x > 1.0 {
      assert Round(y) >= n;
      assert Round(y) == n <==> y < n as real + 0.5;
    } else {
      assert Round(y) <= -1;
    }
  }

  lemma RoundsIntoUnit(x: real, decimals: nat)
    requires x > 1.0 || -1.0 <= x < -0.5
    ensures IsUnitIntervalGaugeValue(RoundToPrecision(x, decimals))
         <==> 1.0 < x && Scaled(x, Pow10(decimals)) < Pow10(decimals) + 0.5
    ensures IsUnitIntervalGaugeValue(RoundToPrecision(x, decimals)) ==> RoundToPrecision(x, decimals) == 1.0
  {
    var n := Pow10IsInteger(decimals);
    RoundsIntoUnitGrid(x, Pow10(decimals), n);
  }

  /** An unhinted double gauge outside [0, 1] enters it exactly when its draw lands just above
      1 and rounds to 1; a draw that lands in [0, 1] is pushed far enough out. */
  lemma OutsideGaugeEntersExactlyWhen(value: real, dist: Distribution, tape: Tape, pos: nat, precision: Option<nat>)
    requires !IsUnitIntervalGaugeValue(value)
    ensures var x := AdvanceDouble(Gauge, value, dist, tape, pos).value;
            && !IsUnitIntervalGaugeValue(x)
            && (IsUnitIntervalGaugeValue(RoundIfSet(x, precision))
                <==> JustAboveOne(RawStep(value, tape.normal(pos), dist), precision))
            && (IsUnitIntervalGaugeValue(RoundIfSet(x, precision)) ==> RoundIfSet(x, precision) == 1.0)
  {
    var raw := RawStep(value, tape.normal(pos), dist);
    assert AdvanceDouble(Gauge, value, dist, tape, pos).value == AvoidUnitInterval(raw);
    PushedOut(raw);
    if precision.Some? {
      RoundsIntoUnit(AvoidUnitInterval(raw), precision.value);
      PushedOutIsFar(raw, Pow10(precision.value));
    }
  }

  /** With whole numbers and a baseline of 2, a draw of -0.8 enters. */
  lemma OutsideGaugeCanEnter(tape: Tape, pos: nat)
    requires tape.normal(pos) == -0.8
    ensures RoundIfSet(AdvanceDouble(Gauge, 2.0, Distribution(100, 0.01, 1.0), tape, pos).value, Some(0)) == 1.0
  {
    OutsideGaugeEntersExactlyWhen(2.0, Distribution(100, 0.01, 1.0), tape, pos, Some(0));
    hide AdvanceDouble;
  }

  predicate OutsideGauge(s: Series, seed: NumberValue) {
    s.metric.Gauge? && s.hint.None? && seed.DoubleValue? && !UnitValue(seed)
  }

  /** The draw of tick t lands just above 1. */
  ghost predicate LandsAboveOne(s: Series, e: Surroundings, seed: NumberValue, t: nat) {
    JustAboveOne(RawStep(AsReal(TemplateAt(s, e, seed, t)), e.tape.normal(e.at(t)), e.dist), s.precision)
  }

  lemma OutsideGaugeStep(s: Series, e: Surroundings, seed: NumberValue, t: nat)
    requires OutsideGauge(s, TemplateAt(s, e, seed, t))
    ensures TemplateAt(s, e, seed, t + 1).DoubleValue?
    ensures UnitValue(TemplateAt(s, e, seed, t + 1)) <==> LandsAboveOne(s, e, seed, t)
  {
    var was, pos := TemplateAt(s, e, seed, t), e.at(t);
    var next := AdvanceDouble(s.metric, was.d, e.dist, e.tape, pos).value;
    assert TemplateAt(s, e, seed, t + 1) == DoubleValue(RoundIfSet(next, s.precision)) by { hide AdvanceDouble; }
    OutsideGaugeEntersExactlyWhen(was.d, e.dist, e.tape, pos, s.precision);
    hide AdvanceDouble, RawStep, JustAboveOne, RoundIfSet, TemplateAt;
  }

  lemma {:induction false} OutsideWithoutLanding(s: Series, e: Surroundings, seed: NumberValue, n: nat)
    requires OutsideGauge(s, seed) && forall t: nat :: t < n ==> !LandsAboveOne(s, e, seed, t)
    ensures OutsideGauge(s, TemplateAt(s, e, seed, n))
  {
    assert TemplateAt(s, e, seed, 0) == seed;
    hide TemplateAt, LandsAboveOne;
    if n > 0 {
      OutsideWithoutLanding(s, e, seed, n - 1);
      OutsideGaugeStep(s, e, seed, n - 1);
    }
  }

  ghost predicate OutsideThrough(s: Series, e: Surroundings, seed: NumberValue, n: nat) {
    forall t: nat :: t <= n ==> OutsideGauge(s, TemplateAt(s, e, seed, t))
  }

  ghost predicate NoLandingBefore(s: Series, e: Surroundings, seed: NumberValue, n: nat) {
    forall t: nat :: t < n ==> !LandsAboveOne(s, e, seed, t)
  }

  /** Over a run: a gauge is outside [0, 1] up to tick n exactly when no draw before landed just above 1. */
  lemma OutsideUntilLanding(s: Series, e: Surroundings, seed: NumberValue, n: nat)
    requires OutsideGauge(s, seed)
    ensures OutsideThrough(s, e, seed, n) <==> NoLandingBefore(s, e, seed, n)
  {
    hide TemplateAt, LandsAboveOne;
    if NoLandingBefore(s, e, seed, n) {
      forall t: nat | t <= n ensures OutsideGauge(s, TemplateAt(s, e, seed, t)) {
        OutsideWithoutLanding(s, e, seed, t);
      }
    }
    if OutsideThrough(s, e, seed, n) {
      forall t: nat | t < n ensures !LandsAboveOne(s, e, seed, t) {
        OutsideGaugeStep(s, e, seed, t);
        assert OutsideGauge(s, TemplateAt(s, e, seed, t + 1));
      }
    }
  }

  lemma GridNotBetween(v: real, mul: real, k: int, n: int)
    requires mul == n as real && n >= 1 && Scaled(v, mul) == k as real
    ensures !(1.0 < Abs(v) && Scaled(Abs(v), mul) < mul + 0.5)
  {
    var a, m := Abs(v), if v < 0.0 then -k else k;
    assert Scaled(a, mul) == m as real;
    if a > 1.0 {
      ScaledSide(a, mul);
      hide Scaled;
      assert m > n;
    }
  }

  /** A decimal on the grid is never just above 1. */
  lemma GridNotJustAboveOne(v: real, decimals: nat)
    requires OnGrid(v, decimals)
    ensures !JustAboveOne(Abs(v), Some(decimals))
  {
    var k :| GridPoint(k, Pow10(decimals)) == v;
    var n := Pow10IsInteger(decimals);
    assert Scaled(v, Pow10(decimals)) == k as real;
    GridNotBetween(v, Pow10(decimals), k, n);
  }

  lemma OutsideGaugeOnGrid(s: Series, e: Surroundings, seed: NumberValue, t: nat)
    requires OutsideGauge(s, seed) && OnSeriesGrid(seed, s.precision)
    requires t > 0 ==> OutsideGauge(s, TemplateAt(s, e, seed, t - 1))
    ensures OnSeriesGrid(TemplateAt(s, e, seed, t), s.precision)
  {
    if t > 0 && s.precision.Some? {
      var was := TemplateAt(s, e, seed, t - 1);
      RoundToPrecisionOnGrid(AdvanceDouble(s.metric, was.d, e.dist, e.tape, e.at(t - 1)).value, s.precision.value);
      hide AdvanceDouble, RoundToPrecision;
    }
  }

  lemma StepWithoutSpread(value: real, z: real, dist: Distribution)
    requires dist.stdDev == 0.0
    ensures RawStep(value, z, dist) == Abs(value)
  {
    assert z * dist.stdDev == 0.0;
  }

  /** Without rounding or without spread no draw lands just above 1. */
  lemma NeverLandsAboveOne(s: Series, e: Surroundings, seed: NumberValue, t: nat)
    requires s.precision.None? || e.dist.stdDev == 0.0
    requires TemplateAt(s, e, seed, t).DoubleValue? && OnSeriesGrid(TemplateAt(s, e, seed, t), s.precision)
    ensures !LandsAboveOne(s, e, seed, t)
  {
    var was := TemplateAt(s, e, seed, t);
    hide TemplateAt, RawStep;
    if s.precision.Some? {
      StepWithoutSpread(was.d, e.tape.normal(e.at(t)), e.dist);
      GridNotJustAboveOne(was.d, s.precision.value);
    }
  }

  lemma {:induction false} OutsideGaugeStaysOutside(s: Series, e: Surroundings, seed: NumberValue, t: nat)
    requires OutsideGauge(s, seed) && OnSeriesGrid(seed, s.precision) && (s.precision.None? || e.dist.stdDev == 0.0)
    ensures OutsideGauge(s, TemplateAt(s, e, seed, t)) && OnSeriesGrid(TemplateAt(s, e, seed, t), s.precision)
  {
    assert TemplateAt(s, e, seed, 0) == seed;
    hide TemplateAt, OnSeriesGrid, LandsAboveOne, UnitValue;
    if t > 0 {
      OutsideGaugeStaysOutside(s, e, seed, t - 1);
      NeverLandsAboveOne(s, e, seed, t - 1);
      OutsideGaugeStep(s, e, seed, t - 1);
      OutsideGaugeOnGrid(s, e, seed, t);
    }
  }

  lemma EntersAtOnce(s: Series, e: Surroundings, seed: NumberValue)
    requires OutsideGauge(s, seed) && e.at(0) == 0
    requires JustAboveOne(RawStep(AsReal(seed), e.tape.normal(0), e.dist), s.precision)
    ensures UnitValue(TemplateAt(s, e, seed, 1))
  {
    assert TemplateAt(s, e, seed, 0) == seed;
    OutsideGaugeStep(s, e, seed, 0);
  }

  lemma QuarterAbove(mul: real)
    requires mul >= 1.0
    ensures 0.25 / mul > 0.0 && Scaled(1.0 + 0.25 / mul, mul) == mul + 0.25
  {
  }

  /** A constant draw that takes the seed to 1 and a quarter of the last decimal. */
  lemma EnteringTape(s: Series, e: Surroundings, seed: NumberValue) returns (tape: Tape)
    requires OutsideGauge(s, seed) && s.precision.Some? && e.dist.stdDev != 0.0
    ensures tape.Valid() && JustAboveOne(RawStep(AsReal(seed), tape.normal(0), e.dist), s.precision)
  {
    var mul := Pow10(s.precision.value);
    var z := (1.0 + 0.25 / mul - AsReal(seed)) / e.dist.stdDev;
    tape := Tape((p: nat) => 0.5, (p: nat) => z, (p: nat) => 0);
    assert z * e.dist.stdDev == 1.0 + 0.25 / mul - AsReal(seed);
    QuarterAbove(mul);
  }

  /** An unhinted double gauge seeded outside [0, 1] stays outside for every tape exactly when
      it is not rounded or its steps have no spread. */
  lemma OutsideGaugeStaysOutsideExactlyWhen(s: Series, e: Surroundings, seed: NumberValue)
    requires OutsideGauge(s, seed) && OnSeriesGrid(seed, s.precision)
    ensures (forall tape: Tape, at: nat -> nat, t: nat ::
               tape.Valid() ==> !UnitValue(TemplateAt(s, WithDraws(e, tape, at), seed, t)))
       <==> s.precision.None? || e.dist.stdDev == 0.0
  {
    hide TemplateAt, RawStep, JustAboveOne, OnSeriesGrid, UnitValue;
    if s.precision.None? || e.dist.stdDev == 0.0 {
      forall tape: Tape, at: nat -> nat, t: nat | tape.Valid()
        ensures !UnitValue(TemplateAt(s, WithDraws(e, tape, at), seed, t))
      {
        OutsideGaugeStaysOutside(s, WithDraws(e, tape, at), seed, t);
      }
    } else {
      var tape := EnteringTape(s, e, seed);
      var at := (t: nat) => t;
      EntersAtOnce(s, WithDraws(e, tape, at), seed);
      assert UnitValue(TemplateAt(s, WithDraws(e, tape, at), seed, 1));
    }
  }

  lemma AtLeastScaled(x: real, m: real, n: real)
    requires x >= 0.0 && m >= 1.0 && n >= 1.0
    ensures Scaled(Scaled(x, m), n) >= x
  {
    NonNegativeProduct(x, m - 1.0);
    NonNegativeProduct(Scaled(x, m), n - 1.0);
  }

  lemma OutsideCopy(current: real, identityHash: bv64, instanceID: bv64, opts: VariationOptions)
    requires current > 1.0
    ensures NonCumulativeVariation(GAUGE_VARIATION, current, identityHash, instanceID, opts)
         == MaxReal(0.0, Scaled(Scaled(current, StableMultiplier(1.0, 2.0, InstanceUnit(identityHash, instanceID))),
                                TemporalMultiplier(identityHash, instanceID, opts, false)))
  {
    hide StableMultiplier, InstanceUnit, TemporalMultiplier, BounceBetweenZeroAndOne, Scaled;
  }

  lemma GaugeMultipliersAtLeastOne(identityHash: bv64, instanceID: bv64, opts: VariationOptions)
    ensures StableMultiplier(1.0, 2.0, InstanceUnit(identityHash, instanceID)) >= 1.0
    ensures TemporalMultiplier(identityHash, instanceID, opts, false) >= 1.0
  {
    TemporalNoiseBounded(identityHash, instanceID, opts);
    var unit := InstanceUnit(identityHash, instanceID);
    hide InstanceUnit, TemporalNoise;
  }

  /** A baseline above 1 is never scaled below itself. */
  lemma OutsideGaugeScalesUp(current: real, identityHash: bv64, instanceID: bv64, opts: VariationOptions)
    requires current > 1.0
    ensures NonCumulativeVariation(GAUGE_VARIATION, current, identityHash, instanceID, opts) >= current
  {
    hide NonCumulativeVariation, StableMultiplier, InstanceUnit, TemporalMultiplier;
    GaugeMultipliersAtLeastOne(identityHash, instanceID, opts);
    var m, n := StableMultiplier(1.0, 2.0, InstanceUnit(identityHash, instanceID)),
      TemporalMultiplier(identityHash, instanceID, opts, false);
    AtLeastScaled(current, m, n);
    OutsideCopy(current, identityHash, instanceID, opts);
  }

  /** A point emitted with the gauge variation. */
  predicate GaugeSeries(s: Series) {
    StrategyFor(s.metric, s.hint) == GAUGE_VARIATION && !IsCumulativeMonotonicSum(s.metric)
  }

  lemma GaugeCopy(s: Series, e: Surroundings, v: NumberValue, instanceID: bv64, opts: VariationOptions)
    requires e.Valid() && GaugeSeries(s) && AsReal(v) != 0.0
    ensures ApplyNumber(e.trig, StrategyFor(s.metric, s.hint), v, s.metric, s.precision, s.identityHash, instanceID,
                        opts)
         == Written(v, NonCumulativeVariation(GAUGE_VARIATION, AsReal(v), s.identityHash, instanceID, opts),
                    s.precision)
  {
    hide NonCumulativeVariation, Written;
  }

  /** What is written for a baseline above 1, rounded as the point requires, is at least the baseline. */
  lemma OutsideGaugeWritten(s: Series, e: Surroundings, v: NumberValue, instanceID: bv64, opts: VariationOptions)
    requires e.Valid() && GaugeSeries(s) && AsReal(v) > 1.0 && OnSeriesGrid(v, s.precision)
    ensures AtMost(v, ApplyNumber(e.trig, StrategyFor(s.metric, s.hint), v, s.metric, s.precision, s.identityHash,
                                  instanceID, opts))
  {
    GaugeCopy(s, e, v, instanceID, opts);
    OutsideGaugeScalesUp(AsReal(v), s.identityHash, instanceID, opts);
    var x := NonCumulativeVariation(GAUGE_VARIATION, AsReal(v), s.identityHash, instanceID, opts);
    hide NonCumulativeVariation, Written, ApplyNumber, GaugeSeries, StrategyFor, OnSeriesGrid;
    WrittenFixes(v, s.precision);
    WrittenMonotone(v, v, AsReal(v), x, s.precision);
    AtMostTransitive(v, Written(v, AsReal(v), s.precision), Written(v, x, s.precision));
  }

  // ----- smoothness of an instance's copy -----

  /** Both options describe one series, at two times in order. */
  ghost predicate Later(opts1: VariationOptions, opts2: VariationOptions) {
    && opts1.interval == opts2.interval > 0 && opts1.timestamp <= opts2.timestamp
    && opts1.timestamp != ZERO_TIME && opts2.timestamp != ZERO_TIME
  }

  /** Intervals that lie between. */
  function Intervals(opts1: VariationOptions, opts2: VariationOptions): real
    requires opts1.interval > 0
  {
    (opts2.timestamp - opts1.timestamp) as real / opts1.interval as real
  }

  lemma TemporalMultiplierIsSmooth(identityHash: bv64, instanceID: bv64, opts1: VariationOptions,
                                   opts2: VariationOptions, inUnit: bool)
    requires Later(opts1, opts2)
    ensures Abs(TemporalMultiplier(identityHash, instanceID, opts2, inUnit)
                - TemporalMultiplier(identityHash, instanceID, opts1, inUnit))
         <= 0.024 * Intervals(opts1, opts2)
  {
    TemporalNoiseIsSmooth(identityHash, instanceID, opts1, opts2);
    hide TemporalNoise;
  }

  /** What a copy moves when its temporal multiplier moves by `gap`: the other one is below 2. */
  function MostMoved(x: real, gap: real): real { Scaled(2.0 * Abs(x), gap) }

  lemma BelowTwice(x: real, m: real, gap: real)
    requires 0.0 <= m < 2.0 && gap >= 0.0 && x >= 0.0
    ensures Scaled(Scaled(x, m), gap) <= Scaled(2.0 * x, gap)
  {
    NonNegativeProduct(x, 2.0 - m);
    assert Scaled(x, m) <= 2.0 * x;
    ScaledMonotone(Scaled(x, m), 2.0 * x, gap);
  }

  lemma MulUpTo(x: real, d: real, gap: real)
    requires x >= 0.0 && d <= gap
    ensures x * d <= Scaled(x, gap)
  {
    MulMonotone(d, gap, x);
  }

  lemma ProductGap(x: real, m: real, n1: real, n2: real, gap: real)
    requires 1.0 <= m < 2.0 && Abs(n2 - n1) <= gap
    ensures Abs(Scaled(Scaled(x, m), n2) - Scaled(Scaled(x, m), n1)) <= MostMoved(x, gap)
  {
    var d := Abs(n2 - n1);
    assert Scaled(Scaled(x, m), n2) - Scaled(Scaled(x, m), n1) == Scaled(x, m) * (n2 - n1);
    AbsProduct(Scaled(x, m), n2 - n1);
    AbsProduct(x, m);
    assert Abs(Scaled(x, m)) == Scaled(Abs(x), m);
    hide Scaled, Abs;
    MulUpTo(Abs(Scaled(x, m)), d, gap);
    BelowTwice(Abs(x), m, gap);
  }

  lemma MostMovedIs(x: real, k: real)
    ensures MostMoved(x, 0.024 * k) == 0.048 * Abs(x) * k
  {
  }

  lemma ScaledGaugeIs(current: real, identityHash: bv64, instanceID: bv64, opts: VariationOptions, inUnit: bool)
    ensures ScaledGauge(GAUGE_VARIATION, current, identityHash, instanceID, opts, inUnit)
         == Scaled(Scaled(current, StableMultiplier(1.0, 2.0, InstanceUnit(identityHash, instanceID))),
                   TemporalMultiplier(identityHash, instanceID, opts, inUnit))
  {
    hide TemporalMultiplier, StableMultiplier, InstanceUnit, Scaled;
  }

  lemma StableMultiplierSpan(unit: real)
    requires 0.0 <= unit < 1.0
    ensures 1.0 <= StableMultiplier(1.0, 2.0, unit) < 2.0
  {
  }

  lemma ScaledGaugeIsSmooth(current: real, identityHash: bv64, instanceID: bv64, opts1: VariationOptions,
                            opts2: VariationOptions, inUnit: bool)
    requires Later(opts1, opts2)
    ensures Abs(ScaledGauge(GAUGE_VARIATION, current, identityHash, instanceID, opts2, inUnit)
                - ScaledGauge(GAUGE_VARIATION, current, identityHash, instanceID, opts1, inUnit))
         <= MostMoved(current, 0.024 * Intervals(opts1, opts2))
  {
    assert opts1.interval > 0;
    hide *;
    TemporalMultiplierIsSmooth(identityHash, instanceID, opts1, opts2, inUnit);
    StableMultiplierSpan(InstanceUnit(identityHash, instanceID));
    ScaledGaugeIs(current, identityHash, instanceID, opts1, inUnit);
    ScaledGaugeIs(current, identityHash, instanceID, opts2, inUnit);
    ProductGap(current, StableMultiplier(1.0, 2.0, InstanceUnit(identityHash, instanceID)),
               TemporalMultiplier(identityHash, instanceID, opts1, inUnit),
               TemporalMultiplier(identityHash, instanceID, opts2, inUnit), 0.024 * Intervals(opts1, opts2));
  }

  lemma CutOffAndReflected(x: real, y: real)
    ensures Abs(MaxReal(0.0, y) - MaxReal(0.0, x)) <= Abs(y - x)
    ensures Abs(BounceBetweenZeroAndOne(MaxReal(0.0, y)) - BounceBetweenZeroAndOne(MaxReal(0.0, x))) <= Abs(y - x)
  {
    BounceIsLipschitz(MaxReal(0.0, y), MaxReal(0.0, x));
    hide BounceBetweenZeroAndOne;
  }

  /** However far apart the two times, the copy of a fixed baseline moves at most 4.8% of the
      baseline per interval. */
  lemma GaugeCopyIsSmooth(current: real, identityHash: bv64, instanceID: bv64, opts1: VariationOptions,
                          opts2: VariationOptions)
    requires Later(opts1, opts2)
    ensures Abs(NonCumulativeVariation(GAUGE_VARIATION, current, identityHash, instanceID, opts2)
                - NonCumulativeVariation(GAUGE_VARIATION, current, identityHash, instanceID, opts1))
         <= 0.048 * Abs(current) * Intervals(opts1, opts2)
  {
    MostMovedIs(current, Intervals(opts1, opts2));
    hide ScaledGauge, Intervals, BounceBetweenZeroAndOne, MaxReal, MostMoved;
    var inUnit := IsUnitIntervalGaugeValue(current);
    ScaledGaugeIsSmooth(current, identityHash, instanceID, opts1, opts2, inUnit);
    CutOffAndReflected(ScaledGauge(GAUGE_VARIATION, current, identityHash, instanceID, opts1, inUnit),
                       ScaledGauge(GAUGE_VARIATION, current, identityHash, instanceID, opts2, inUnit));
  }

  /** The distance between neighbouring numbers a point can hold. */
  function Grain(v: NumberValue, precision: Option<nat>): real {
    match v
    case NoValue => 0.0
    case IntValue(_) => 1.0
    case DoubleValue(_) => if precision.Some? then 1.0 / Pow10(precision.value) else 0.0
  }

  lemma RoundGap(x: real, y: real)
    ensures Abs(Round(y) as real - Round(x) as real) <= Abs(y - x) + 1.0
  {
    RoundNearest(x);
    RoundNearest(y);
    hide Round;
  }

  lemma QuotientGap(a: real, b: real, mul: real, gap: real)
    requires mul > 0.0 && Abs(b - a) <= gap * mul + 1.0
    ensures Abs(b / mul - a / mul) <= gap + 1.0 / mul
  {
    var r := 1.0 / mul;
    assert r * mul == 1.0 && a / mul == a * r && b / mul == b * r;
    AbsProduct(b - a, r);
    assert (b - a) * r == b * r - a * r;
    MulMonotone(Abs(b - a), gap * mul + 1.0, r);
    assert gap * mul * r == gap * (r * mul);
  }

  lemma ScaledDifference(x: real, y: real, mul: real)
    requires mul > 0.0
    ensures Abs(Scaled(y, mul) - Scaled(x, mul)) == Abs(y - x) * mul
  {
    AbsProduct(y - x, mul);
    assert (y - x) * mul == Scaled(y, mul) - Scaled(x, mul);
  }

  lemma RoundToGridGap(x: real, y: real, mul: real)
    requires mul > 0.0
    ensures Abs(RoundToGrid(y, mul) - RoundToGrid(x, mul)) <= Abs(y - x) + 1.0 / mul
  {
    hide Round, Scaled;
    RoundGap(Scaled(x, mul), Scaled(y, mul));
    ScaledDifference(x, y, mul);
    QuotientGap(Round(Scaled(x, mul)) as real, Round(Scaled(y, mul)) as real, mul, Abs(y - x));
  }

  lemma WrittenGap(was: NumberValue, x: real, y: real, precision: Option<nat>)
    ensures Abs(AsReal(Written(was, y, precision)) - AsReal(Written(was, x, precision)))
         <= Abs(y - x) + Grain(was, precision)
  {
    RoundGap(x, y);
    if precision.Some? {
      RoundToGridGap(x, y, Pow10(precision.value));
    }
    hide Round, RoundToGrid;
  }

  lemma NothingVaried(s: Series, e: Surroundings, v: NumberValue, instanceID: bv64, opts: VariationOptions)
    requires e.Valid() && GaugeSeries(s) && AsReal(v) == 0.0
    ensures ApplyNumber(e.trig, StrategyFor(s.metric, s.hint), v, s.metric, s.precision, s.identityHash, instanceID,
                        opts) == v
    ensures Grain(v, s.precision) >= 0.0
  {
  }

  lemma TickApart(e: Surroundings, t: nat)
    requires e.Valid() && e.startTime != ZERO_TIME
    ensures Later(OptionsAt(e, t), OptionsAt(e, t + 1)) && Intervals(OptionsAt(e, t), OptionsAt(e, t + 1)) == 1.0
  {
    MulOrder(0, t, e.interval);
    assert (t + 1) * e.interval == t * e.interval + e.interval;
    QuotientIs(e.interval as real, e.interval as real, 1.0);
  }

  /** From one tick to the next an instance's copy of a fixed baseline moves at most 4.8% of
      the baseline, and what rounding adds. */
  lemma GaugeCopyPerTick(s: Series, e: Surroundings, v: NumberValue, instanceID: bv64, t: nat)
    requires e.Valid() && GaugeSeries(s) && e.startTime != ZERO_TIME
    ensures var was := ApplyNumber(e.trig, StrategyFor(s.metric, s.hint), v, s.metric, s.precision, s.identityHash,
                                   instanceID, OptionsAt(e, t));
            var now := ApplyNumber(e.trig, StrategyFor(s.metric, s.hint), v, s.metric, s.precision, s.identityHash,
                                   instanceID, OptionsAt(e, t + 1));
            Abs(AsReal(now) - AsReal(was)) <= 0.048 * Abs(AsReal(v)) + Grain(v, s.precision)
  {
    var o1, o2, current := OptionsAt(e, t), OptionsAt(e, t + 1), AsReal(v);
    TickApart(e, t);
    hide OptionsAt, Intervals, Later, GaugeSeries, StrategyFor, ApplyNumber, NonCumulativeVariation, Written, Grain;
    if current == 0.0 {
      NothingVaried(s, e, v, instanceID, o1);
      NothingVaried(s, e, v, instanceID, o2);
    } else {
      GaugeCopy(s, e, v, instanceID, o1);
      GaugeCopy(s, e, v, instanceID, o2);
      GaugeCopyIsSmooth(current, s.identityHash, instanceID, o1, o2);
      WrittenGap(v, NonCumulativeVariation(GAUGE_VARIATION, current, s.identityHash, instanceID, o1),
                 NonCumulativeVariation(GAUGE_VARIATION, current, s.identityHash, instanceID, o2), s.precision);
    }
  }
}
