/** What a tick does to the shared template, kind by kind, and whole runs of the deterministic hints
    (distribution.go, generation_hints.go). */
module Steps {
  import opened Numbers
  import opened Config
  import opened Metrics
  import opened Random
  import opened Noise
  import opened Advance
  import opened Variation
  import opened CounterRuns
  import opened DeltaRuns

  // ----- unhinted points -----

  /** What a normal draw adds to a point that is neither a delta nor a gauge in [0, 1]. */
  function Change(metric: MetricType, dist: Distribution, z: real): real {
    Scaled(z, dist.stdDev) + if metric.Sum? && metric.monotonic then dist.medianMonotonicSum as real else 0.0
  }

  lemma FloatStep(metric: MetricType, x: real, dist: Distribution, tape: Tape, pos: nat)
    requires !IsDeltaSum(metric)
    ensures AdvanceFloat(metric, x, dist, tape, pos).value == Abs(x + Change(metric, dist, tape.normal(pos)))
  {
  }

  lemma AccumulatesDouble(metric: MetricType, d: real, dist: Distribution, opts: AdvanceOptions, tape: Tape, pos: nat)
    requires opts.hint.None? && !IsDeltaSum(metric) && !metric.Gauge?
    ensures AdvanceNumber(metric, DoubleValue(d), dist, opts, tape, pos).value
         == DoubleValue(RoundIfSet(Abs(d + Change(metric, dist, tape.normal(pos))), opts.precision))
  {
    FloatStep(metric, d, dist, tape, pos);
    hide RoundIfSet, AdvanceFloat, Change;
  }

  lemma AccumulatesInt(metric: MetricType, i: int, dist: Distribution, opts: AdvanceOptions, tape: Tape, pos: nat)
    requires opts.hint.None? && !IsDeltaSum(metric) && tape.Valid()
    ensures AdvanceNumber(metric, IntValue(i), dist, opts, tape, pos).value.IntValue?
    ensures Stores(AdvanceNumber(metric, IntValue(i), dist, opts, tape, pos).value,
                   Abs(i as real + Change(metric, dist, tape.normal(pos))), opts.precision, 1.0)
  {
    FloatStep(metric, i as real, dist, tape, pos);
    hide AdvanceFloat, Change;
    AdvanceIntRounds(metric, i, dist, tape, pos);
    hide AdvanceInt;
  }

  lemma TickIs(s: Series, e: Surroundings, seed: NumberValue, t: nat)
    ensures TemplateAt(s, e, seed, t + 1)
         == AdvanceNumber(s.metric, TemplateAt(s, e, seed, t), e.dist, AdvanceOptions(s.hint, e.interval, s.precision),
                          e.tape, e.at(t)).value
  {
    hide AdvanceNumber;
  }

  /** A sum, and any integer, moves by the change and is kept positive; only monotonic sums drift. */
  lemma UnhintedAccumulates(s: Series, e: Surroundings, seed: NumberValue, t: nat)
    requires e.tape.Valid() && s.hint.None? && !IsDeltaSum(s.metric)
    requires !TemplateAt(s, e, seed, t).NoValue? && (TemplateAt(s, e, seed, t).DoubleValue? ==> !s.metric.Gauge?)
    ensures var was, now := TemplateAt(s, e, seed, t), TemplateAt(s, e, seed, t + 1);
            && Alike(now, was)
            && Stores(now, Abs(AsReal(was) + Change(s.metric, e.dist, e.tape.normal(e.at(t)))), s.precision, 1.0)
  {
    var was, opts := TemplateAt(s, e, seed, t), AdvanceOptions(s.hint, e.interval, s.precision);
    TickIs(s, e, seed, t);
    hide TemplateAt, Change, RoundToPrecision, AdvanceNumber;
    match was
    case IntValue(i) => AccumulatesInt(s.metric, i, e.dist, opts, e.tape, e.at(t));
    case DoubleValue(d) => AccumulatesDouble(s.metric, d, e.dist, opts, e.tape, e.at(t));
  }

  /** x is where reflection at 0 and 1 takes y. */
  ghost predicate Reflected(x: real, y: real) {
    0.0 <= x <= 1.0 && exists even: int :: even % 2 == 0 && x == Abs(y - even as real)
  }

  lemma BounceReflects(y: real)
    ensures Reflected(BounceBetweenZeroAndOne(y), y)
    ensures 0.0 <= y <= 1.0 ==> BounceBetweenZeroAndOne(y) == y
  {
    var down := Abs(y).Floor;
    var even := if down % 2 == 0 then down else down + 1;
    var signed := if y < 0.0 then -even else even;
    assert signed % 2 == 0 && BounceBetweenZeroAndOne(y) == Abs(y - signed as real);
    if y == 1.0 {
      assert y.Floor == 1;
    }
  }

  /** Where a draw takes a float gauge in [0, 1], before it is reflected. */
  function UnitTarget(d: real, dist: Distribution, z: real): real { d + Scaled(z, dist.stdDevGaugePct) }

  /** Where a draw takes any other float gauge, before it is pushed out of [0, 1]. */
  function OutsideTarget(d: real, dist: Distribution, z: real): real { Abs(d + Scaled(z, dist.stdDev)) }

  lemma GaugeIsRounded(metric: MetricType, d: real, dist: Distribution, opts: AdvanceOptions, tape: Tape, pos: nat)
    requires opts.hint.None?
    ensures AdvanceNumber(metric, DoubleValue(d), dist, opts, tape, pos).value
         == DoubleValue(RoundIfSet(AdvanceDouble(metric, d, dist, tape, pos).value, opts.precision))
  {
    hide RoundIfSet, AdvanceDouble;
  }

  lemma UnitStep(metric: MetricType, d: real, dist: Distribution, tape: Tape, pos: nat)
    requires metric.Gauge? && 0.0 <= d <= 1.0
    ensures AdvanceDouble(metric, d, dist, tape, pos).value
         == BounceBetweenZeroAndOne(UnitTarget(d, dist, tape.normal(pos)))
  {
    hide BounceBetweenZeroAndOne, Scaled;
  }

  lemma OutsideStep(metric: MetricType, d: real, dist: Distribution, tape: Tape, pos: nat)
    requires metric.Gauge? && !(0.0 <= d <= 1.0)
    ensures AdvanceDouble(metric, d, dist, tape, pos).value
         == AvoidUnitInterval(OutsideTarget(d, dist, tape.normal(pos)))
  {
    FloatStep(metric, d, dist, tape, pos);
    assert Change(metric, dist, tape.normal(pos)) == Scaled(tape.normal(pos), dist.stdDev);
    hide AvoidUnitInterval, AdvanceFloat, Change;
  }

  /** A float gauge in [0, 1] moves by the draw times std_dev_gauge_pct, reflected at the ends; x is
      the value before it is rounded. */
  lemma UnitGaugeMoves(s: Series, e: Surroundings, seed: NumberValue, t: nat) returns (x: real)
    requires s.hint.None? && s.metric.Gauge? && TemplateAt(s, e, seed, t).DoubleValue?
    requires 0.0 <= TemplateAt(s, e, seed, t).d <= 1.0
    ensures var y := UnitTarget(TemplateAt(s, e, seed, t).d, e.dist, e.tape.normal(e.at(t)));
            Reflected(x, y) && (0.0 <= y <= 1.0 ==> x == y)
    ensures TemplateAt(s, e, seed, t + 1) == DoubleValue(RoundIfSet(x, s.precision))
  {
    TickIs(s, e, seed, t);
    hide RoundIfSet, TemplateAt, AdvanceNumber, AdvanceDouble, BounceBetweenZeroAndOne, UnitTarget, Reflected;
    var d, z := TemplateAt(s, e, seed, t).d, e.tape.normal(e.at(t));
    GaugeIsRounded(s.metric, d, e.dist, AdvanceOptions(s.hint, e.interval, s.precision), e.tape, e.at(t));
    UnitStep(s.metric, d, e.dist, e.tape, e.at(t));
    x := BounceBetweenZeroAndOne(UnitTarget(d, e.dist, z));
    BounceReflects(UnitTarget(d, e.dist, z));
  }

  lemma PushedOutByOne(y: real)
    requires y >= 0.0
    ensures var x := AvoidUnitInterval(y);
            if y > 1.0 then x == y else Abs(x - y) == 1.0 && (x >= 1.5 || x < -0.5)
  {
  }

  /** Any other float gauge moves by the draw times std_dev and is kept positive; a step that lands in
      [0, 1] is moved by 1, out of it on the nearer side. */
  lemma OutsideGaugeMoves(s: Series, e: Surroundings, seed: NumberValue, t: nat) returns (x: real)
    requires s.hint.None? && s.metric.Gauge? && TemplateAt(s, e, seed, t).DoubleValue?
    requires !(0.0 <= TemplateAt(s, e, seed, t).d <= 1.0)
    ensures var y := OutsideTarget(TemplateAt(s, e, seed, t).d, e.dist, e.tape.normal(e.at(t)));
            if y > 1.0 then x == y else Abs(x - y) == 1.0 && (x >= 1.5 || x < -0.5)
    ensures TemplateAt(s, e, seed, t + 1) == DoubleValue(RoundIfSet(x, s.precision))
  {
    TickIs(s, e, seed, t);
    var d, z := TemplateAt(s, e, seed, t).d, e.tape.normal(e.at(t));
    assert OutsideTarget(d, e.dist, z) >= 0.0;
    hide RoundIfSet, TemplateAt, AdvanceNumber, AdvanceDouble, AvoidUnitInterval, OutsideTarget;
    GaugeIsRounded(s.metric, d, e.dist, AdvanceOptions(s.hint, e.interval, s.precision), e.tape, e.at(t));
    OutsideStep(s.metric, d, e.dist, e.tape, e.at(t));
    x := AvoidUnitInterval(OutsideTarget(d, e.dist, z));
    PushedOutByOne(OutsideTarget(d, e.dist, z));
  }

  // ----- hinted points -----

  lemma HintedTick(s: Series, e: Surroundings, seed: NumberValue, t: nat)
    requires s.hint.Some?
    ensures var was := TemplateAt(s, e, seed, t);
            TemplateAt(s, e, seed, t + 1)
            == Written(was, HintAdvance(s.hint.value, s.metric, AsReal(was), e.dist, e.interval, e.tape,
                                        e.at(t)).value, s.precision)
  {
    hide HintAdvance, Written;
  }

  /** The distance a slow gauge may go for a draw of 1: a fifth of std_dev, and at least half a percent
      of the value or of 1. */
  function Pace(current: real, dist: Distribution): real {
    if dist.stdDev >= 0.025 * Abs(current) && dist.stdDev >= 0.025 then 0.2 * dist.stdDev
    else if Abs(current) >= 1.0 then 0.005 * Abs(current)
    else 0.005
  }

  lemma PaceIs(current: real, dist: Distribution)
    ensures Pace(current, dist) == MaxReal(dist.stdDev * 0.2, MaxReal(Abs(current), 1.0) * 0.005)
  {
  }

  /** Where a draw takes a slow gauge, before it is reflected. */
  function SlowTarget(current: real, dist: Distribution,
                      z: real): real { Abs(current + Scaled(z, Pace(current, dist))) }

  lemma SlowStepIs(current: real, z: real, dist: Distribution)
    ensures SlowGaugeStep(current, z, dist) == SlowTarget(current, dist, z) >= 0.0
  {
    PaceIs(current, dist);
    hide Pace;
  }

  lemma SlowStepReflects(current: real, dist: Distribution, tape: Tape, pos: nat)
    ensures SlowGaugeAdvance(current, dist, tape, pos).value
         == var y := SlowTarget(current, dist, tape.normal(pos));
            if 0.0 <= current <= 1.0 then BounceBetweenZeroAndOne(y) else y
  {
    SlowStepIs(current, tape.normal(pos), dist);
    hide SlowGaugeStep, SlowTarget, BounceBetweenZeroAndOne;
  }

  /** A slow gauge moves by the draw times its pace and is kept positive; in [0, 1] it is reflected at
      the ends. */
  lemma SlowGaugeMoves(s: Series, e: Surroundings, seed: NumberValue, t: nat) returns (x: real)
    requires s.hint == Some(SlowGauge)
    ensures var v := AsReal(TemplateAt(s, e, seed, t));
            var y := SlowTarget(v, e.dist, e.tape.normal(e.at(t)));
            if 0.0 <= v <= 1.0 then Reflected(x, y) && (y <= 1.0 ==> x == y) else x == y
    ensures TemplateAt(s, e, seed, t + 1) == Written(TemplateAt(s, e, seed, t), x, s.precision)
  {
    HintedTick(s, e, seed, t);
    var v, z := AsReal(TemplateAt(s, e, seed, t)), e.tape.normal(e.at(t));
    SlowStepIs(v, z, e.dist);
    SlowStepReflects(v, e.dist, e.tape, e.at(t));
    hide TemplateAt, Written, BounceBetweenZeroAndOne, SlowTarget, SlowGaugeStep, Reflected, SlowGaugeAdvance;
    BounceReflects(SlowTarget(v, e.dist, z));
    x := SlowGaugeAdvance(v, e.dist, e.tape, e.at(t)).value;
  }

  /** An integer count moves by k: not at all for seven draws in ten, by 1 for two and by 2 for one,
      up for one half of the second draws and down for the other; never below 0. */
  lemma CountMoves(s: Series, e: Surroundings, seed: NumberValue, t: nat) returns (k: int)
    requires s.hint == Some(CurrentCount) && TemplateAt(s, e, seed, t).IntValue?
    ensures TemplateAt(s, e, seed, t + 1) == IntValue(MaxInt(0, TemplateAt(s, e, seed, t).i + k))
    ensures k == 0 <==> e.tape.uniform(e.at(t)) < 0.7
    ensures k in {-1, 1} <==> 0.7 <= e.tape.uniform(e.at(t)) < 0.9
    ensures k in {-2, 2} <==> 0.9 <= e.tape.uniform(e.at(t))
    ensures k > 0 ==> e.tape.uniform(e.at(t) + 1) >= 0.5
    ensures k < 0 ==> e.tape.uniform(e.at(t) + 1) < 0.5
  {
    var i, p, q := TemplateAt(s, e, seed, t).i, e.tape.uniform(e.at(t)), e.tape.uniform(e.at(t) + 1);
    var up := if q < 0.5 then -1 else 1;
    k := if p < 0.7 then 0 else if p < 0.9 then up else 2 * up;
    HintedTick(s, e, seed, t);
    assert CurrentCountAdvance(i as real, e.tape, e.at(t)).value == MaxInt(0, i + k) as real;
    RoundInteger(MaxInt(0, i + k));
    hide TemplateAt, Round, CurrentCountAdvance;
  }

  // ----- deterministic hints over whole runs -----

  lemma EmittedUnvaried(s: Series, e: Surroundings, seed: NumberValue, instanceID: bv64, t: nat)
    requires e.Valid() && s.hint in {Some(Clock), Some(Constant), Some(StableBinary)}
    ensures EmittedAt(s, e, seed, instanceID, t) == TemplateAt(s, e, seed, t + 1)
  {
    hide TemplateAt;
  }

  lemma WrittenTwice(v: NumberValue, x: real, precision: Option<nat>)
    ensures Written(Written(v, x, precision), AsReal(Written(v, x, precision)), precision) == Written(v, x, precision)
  {
    hide Round, RoundToPrecision;
    match v
    case NoValue =>
    case IntValue(_) => RoundInteger(MaxInt(0, Round(x)));
    case DoubleValue(_) =>
      if precision.Some? {
        RoundToPrecisionOnGrid(x, precision.value);
        RoundToPrecisionFixesGrid(RoundToPrecision(x, precision.value), precision.value);
      }
  }

  lemma FirstTick(s: Series, e: Surroundings, seed: NumberValue)
    requires s.hint.Some?
    ensures TemplateAt(s, e, seed, 1)
         == Written(seed, HintAdvance(s.hint.value, s.metric, AsReal(seed), e.dist, e.interval, e.tape, e.at(0)).value,
                    s.precision)
  {
    HintedTick(s, e, seed, 0);
    assert TemplateAt(s, e, seed, 0) == seed;
    hide HintAdvance, Written;
  }

  lemma FirstConstant(s: Series, e: Surroundings, seed: NumberValue)
    requires s.hint == Some(Constant) && OnSeriesGrid(seed, s.precision)
    ensures TemplateAt(s, e, seed, 1) == if seed.IntValue? && seed.i < 0 then IntValue(0) else seed
  {
    FirstTick(s, e, seed);
    hide RoundToPrecision, Round, TemplateAt;
    match seed
    case NoValue =>
    case IntValue(i) => RoundInteger(i);
    case DoubleValue(d) => if s.precision.Some? { RoundToPrecisionFixesGrid(d, s.precision.value); }
  }

  /** A constant: every instance emits the first tick's value for ever. That is the seed itself, unless
      the seed is a negative integer. */
  lemma {:induction false} ConstantStays(s: Series, e: Surroundings, seed: NumberValue, instanceID: bv64, t: nat)
    requires e.Valid() && s.hint == Some(Constant) && OnSeriesGrid(seed, s.precision)
    ensures EmittedAt(s, e, seed, instanceID, t) == TemplateAt(s, e, seed, t + 1) == TemplateAt(s, e, seed, 1)
    ensures TemplateAt(s, e, seed, 1) == if seed.IntValue? && seed.i < 0 then IntValue(0) else seed
  {
    EmittedUnvaried(s, e, seed, instanceID, t);
    FirstConstant(s, e, seed);
    hide ApplyNumber, TemplateAt, Written, OnSeriesGrid, OptionsAt, StrategyFor;
    if t > 0 {
      ConstantStays(s, e, seed, instanceID, t - 1);
      HintedTick(s, e, seed, t);
      FirstTick(s, e, seed);
      WrittenTwice(seed, AsReal(seed), s.precision);
    }
  }

  /** The value of a binary point, kept in its own number type. */
  function Bit(was: NumberValue, one: bool): NumberValue {
    match was
    case NoValue => NoValue
    case IntValue(_) => IntValue(if one then 1 else 0)
    case DoubleValue(_) => DoubleValue(if one then 1.0 else 0.0)
  }

  lemma WrittenBit(was: NumberValue, one: bool, precision: Option<nat>)
    ensures Written(was, if one then 1.0 else 0.0, precision) == Bit(was, one)
  {
    RoundInteger(1);
    RoundInteger(0);
    if precision.Some? {
      RoundingKeepsIntegerBounds(1.0, 1, precision.value);
      RoundingKeepsIntegerBounds(0.0, 0, precision.value);
    }
    hide Round, RoundToPrecision;
  }

  lemma RoundsToOne(x: real)
    ensures Round(x) >= 1 <==> x >= 0.5
  {
  }

  /** A binary point: every instance emits 0 or 1 and never flips; 1 exactly when the seed is at least
      one half. */
  lemma {:induction false} BinaryNeverFlips(s: Series, e: Surroundings, seed: NumberValue, instanceID: bv64, t: nat)
    requires e.Valid() && s.hint == Some(StableBinary)
    ensures EmittedAt(s, e, seed, instanceID, t) == TemplateAt(s, e, seed, t + 1) == Bit(seed, AsReal(seed) >= 0.5)
  {
    EmittedUnvaried(s, e, seed, instanceID, t);
    hide ApplyNumber, TemplateAt, Written, OptionsAt, StrategyFor, Round;
    if t > 0 {
      BinaryNeverFlips(s, e, seed, instanceID, t - 1);
      HintedTick(s, e, seed, t);
      RoundInteger(1);
      RoundInteger(0);
    } else {
      FirstTick(s, e, seed);
      RoundsToOne(AsReal(seed));
    }
    var was := TemplateAt(s, e, seed, t);
    WrittenBit(was, AsReal(seed) >= 0.5, s.precision);
    WrittenBit(seed, AsReal(seed) >= 0.5, s.precision);
  }

  /** Seconds between two ticks. */
  function Seconds(e: Surroundings): real { e.interval as real / 1000000000.0 }

  /** What a clock of this kind adds per tick: the seconds as they would be stored alone. */
  function ClockStep(s: Series, e: Surroundings, seed: NumberValue): real {
    AsReal(Written(seed, Seconds(e), s.precision))
  }

  /** n steps. */
  function Elapse(n: nat, step: real): real { n as real * step }

  lemma NextStep(n: nat, step: real)
    ensures Elapse(n + 1, step) == Elapse(n, step) + step
  {
  }

  lemma OneStep(step: real)
    ensures Elapse(1, step) == step && Elapse(0, step) == 0.0
  {
  }

  /** Over a run a clock advances by equal steps, whatever the tape, the same for every instance. */
  lemma {:induction false} ClockAdvances(s: Series, e: Surroundings, seed: NumberValue, t: nat)
    requires e.Valid() && s.hint == Some(Clock) && OnSeriesGrid(seed, s.precision) && AsReal(seed) >= 0.0
    ensures AsReal(TemplateAt(s, e, seed, t)) == AsReal(seed) + Elapse(t, ClockStep(s, e, seed))
    ensures Alike(TemplateAt(s, e, seed, t), seed) && AsReal(TemplateAt(s, e, seed, t)) >= 0.0
      && OnSeriesGrid(TemplateAt(s, e, seed, t), s.precision)
  {
    hide Written, OnSeriesGrid;
    if t > 0 {
      ClockAdvances(s, e, seed, t - 1);
      HintedTick(s, e, seed, t - 1);
      hide TemplateAt;
      var was := TemplateAt(s, e, seed, t - 1);
      assert e.interval as real / SECOND as real == Seconds(e);
      WrittenSplits(was, seed, Seconds(e), s.precision);
      WrittenKind(was, AsReal(was) + Seconds(e), s.precision);
      NextStep(t - 1, ClockStep(s, e, seed));
      hide Elapse;
    }
  }

  /** The seconds of an interval can be stored in this kind of point. */
  ghost predicate StoresSeconds(s: Series, e: Surroundings, seed: NumberValue) {
    match seed
    case NoValue => false
    case IntValue(_) => e.interval % 1000000000 == 0
    case DoubleValue(_) => s.precision.Some? ==> OnGrid(Seconds(e), s.precision.value)
  }

  lemma MultipleHasNoRest(k: int, n: int)
    requires n > 0
    ensures k * n % n == 0
  {
    UniqueQuotient(k * n, n, k, 0);
  }

  lemma WholeSeconds(interval: int)
    requires interval >= 0
    ensures Round(interval as real / 1000000000.0) as real == interval as real / 1000000000.0
       <==> interval % 1000000000 == 0
  {
    var x, n := interval as real / 1000000000.0, 1000000000;
    assert x * 1000000000.0 == interval as real;
    if interval % n == 0 {
      assert x == (interval / n) as real;
      RoundInteger(interval / n);
    } else if Round(x) as real == x {
      assert (Round(x) * n) as real == interval as real;
      assert interval == Round(x) * n;
      MultipleHasNoRest(Round(x), n);
    }
  }

  lemma ClockStepIs(s: Series, e: Surroundings, seed: NumberValue)
    requires e.Valid()
    ensures ClockStep(s, e, seed) == Seconds(e) <==> StoresSeconds(s, e, seed)
  {
    assert Seconds(e) > 0.0;
    match seed
    case NoValue =>
    case IntValue(_) =>
      WholeSeconds(e.interval);
      RoundMonotone(0.0, Seconds(e));
      RoundInteger(0);
      hide Round;
    case DoubleValue(_) =>
      if s.precision.Some? {
        RoundToPrecisionOnGrid(Seconds(e), s.precision.value);
        if OnGrid(Seconds(e), s.precision.value) {
          RoundToPrecisionFixesGrid(Seconds(e), s.precision.value);
        }
      }
      hide RoundToPrecision;
  }

  /** Every emission is the seed and the time elapsed since, in seconds. */
  ghost predicate KeepsTime(s: Series, e: Surroundings, seed: NumberValue, instanceID: bv64)
    requires e.Valid()
  {
    forall t: nat :: AsReal(EmittedAt(s, e, seed, instanceID, t)) == AsReal(seed) + Elapse(t + 1, Seconds(e))
  }

  /** A clock keeps time exactly when the interval's seconds fit its kind of point: whole seconds for an
      integer, on the inferred grid for a float. */
  lemma ClockKeepsTimeExactlyWhen(s: Series, e: Surroundings, seed: NumberValue, instanceID: bv64)
    requires e.Valid() && s.hint == Some(Clock) && OnSeriesGrid(seed, s.precision) && AsReal(seed) >= 0.0
    ensures KeepsTime(s, e, seed, instanceID) <==> StoresSeconds(s, e, seed)
  {
    ClockStepIs(s, e, seed);
    hide TemplateAt, ClockStep, Seconds, OnSeriesGrid, ApplyNumber, StrategyFor, OptionsAt, StoresSeconds;
    forall t: nat
      ensures AsReal(EmittedAt(s, e, seed, instanceID, t)) == AsReal(seed) + Elapse(t + 1, ClockStep(s, e, seed))
    {
      EmittedUnvaried(s, e, seed, instanceID, t);
      ClockAdvances(s, e, seed, t + 1);
    }
    assert AsReal(EmittedAt(s, e, seed, instanceID, 0)) == AsReal(seed) + Elapse(1, ClockStep(s, e, seed));
    OneStep(ClockStep(s, e, seed));
    OneStep(Seconds(e));
    hide Elapse, AsReal;
  }
}
