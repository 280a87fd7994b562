/** How the shared template moves from one tick to the next (distribution.go, generation_hints.go). */
module Advance {
  import opened Numbers
  import opened Config
  import opened Metrics
  import opened Random

  /** A value and the position of the tape after the draws it took. */
  datatype Drawn = Drawn(value: real, pos: nat)

  function BounceBetweenZeroAndOne(v: real): real {
    var value := Abs(v);
    var fractional := value - value.Floor as real;
    if value.Floor % 2 == 0 then fractional else 1.0 - fractional
  }

  predicate IsUnitIntervalGaugeValue(v: real) { 0.0 <= v <= 1.0 }

  function ApplyCounterDelta(metric: MetricType, current: real, delta: real): real {
    if IsDelta(metric) then delta else current + delta
  }

  function SignedUnitStep(u: real): real { if u < 0.5 then -1.0 else 1.0 }

  // ----- hinted strategies -----

  function SteadyCounterAdvance(metric: MetricType, current: real, dist: Distribution, tape: Tape, pos: nat): Drawn {
    var delta := Abs(Scaled(tape.normal(pos), dist.stdDev) + dist.medianMonotonicSum as real);
    Drawn(ApplyCounterDelta(metric, current, delta), pos + 1)
  }

  function SparseCounterAdvance(metric: MetricType, current: real, dist: Distribution, tape: Tape, pos: nat): Drawn {
    if tape.uniform(pos) < 0.05 then
      var raw := Abs(Scaled(tape.normal(pos + 1), dist.stdDev));
      Drawn(ApplyCounterDelta(metric, current, if raw == 0.0 then 1.0 else raw), pos + 2)
    else
      Drawn(ApplyCounterDelta(metric, current, 0.0), pos + 1)
  }

  function SlowGaugeStep(current: real, z: real, dist: Distribution): real {
    var scale := MaxReal(Abs(current), 1.0);
    Abs(current + Scaled(z, MaxReal(dist.stdDev * 0.2, scale * 0.005)))
  }

  function SlowGaugeAdvance(current: real, dist: Distribution, tape: Tape, pos: nat): Drawn {
    var value := SlowGaugeStep(current, tape.normal(pos), dist);
    Drawn(if IsUnitIntervalGaugeValue(current) then BounceBetweenZeroAndOne(value) else value, pos + 1)
  }

  function CurrentCountAdvance(current: real, tape: Tape, pos: nat): Drawn {
    var p := tape.uniform(pos);
    if p < 0.70 then Drawn(MaxReal(0.0, current), pos + 1)
    else if p < 0.90 then Drawn(MaxReal(0.0, current + SignedUnitStep(tape.uniform(pos + 1))), pos + 2)
    else Drawn(MaxReal(0.0, current + 2.0 * SignedUnitStep(tape.uniform(pos + 1))), pos + 2)
  }

  function HintAdvance(hint: HintClass, metric: MetricType, current: real, dist: Distribution, interval: int,
                       tape: Tape, pos: nat): Drawn {
    match hint
    case Clock => Drawn(current + interval as real / SECOND as real, pos)
    case Constant => Drawn(current, pos)
    case StableBinary => Drawn(if Round(current) < 1 then 0.0 else 1.0, pos)
    case CurrentCount => CurrentCountAdvance(current, tape, pos)
    case SlowGauge => SlowGaugeAdvance(current, dist, tape, pos)
    case SparseCounter => SparseCounterAdvance(metric, current, dist, tape, pos)
    case SteadyCounter => SteadyCounterAdvance(metric, current, dist, tape, pos)
  }

  function RoundIfSet(v: real, precision: Option<nat>): real {
    match precision
    case None => v
    case Some(decimals) => RoundToPrecision(v, decimals)
  }

  /** Writes v back in the data point's own number type. */
  function Written(was: NumberValue, v: real, precision: Option<nat>): NumberValue {
    match was
    case NoValue => NoValue
    case DoubleValue(_) => DoubleValue(RoundIfSet(v, precision))
    case IntValue(_) => IntValue(MaxInt(0, Round(v)))
  }

  // ----- unhinted evolution -----

  function FloatDelta(metric: MetricType, z: real, dist: Distribution): real {
    if IsMonotonicSum(metric) then Scaled(z, dist.stdDev) + dist.medianMonotonicSum as real else Scaled(z, dist.stdDev)
  }

  function AdvanceFloat(metric: MetricType, value: real, dist: Distribution, tape: Tape, pos: nat): Drawn {
    var delta := FloatDelta(metric, tape.normal(pos), dist);
    Drawn(Abs(if IsDelta(metric) then delta else value + delta), pos + 1)
  }

  function AdvanceZeroToOne(value: real, dist: Distribution, tape: Tape, pos: nat): Drawn {
    Drawn(BounceBetweenZeroAndOne(value + Scaled(tape.normal(pos), dist.stdDevGaugePct)), pos + 1)
  }

  /** A gauge outside [0, 1] is pushed out again when a step lands inside. */
  function AvoidUnitInterval(v: real): real {
    if !IsUnitIntervalGaugeValue(v) then v
    else if v < 0.5 then v - 1.0 else v + 1.0
  }

  function AdvanceDouble(metric: MetricType, value: real, dist: Distribution, tape: Tape, pos: nat): Drawn {
    if metric.Gauge? then
      if IsUnitIntervalGaugeValue(value) then AdvanceZeroToOne(value, dist, tape, pos)
      else
        var next := AdvanceFloat(metric, value, dist, tape, pos);
        next.(value := AvoidUnitInterval(next.value))
    else AdvanceFloat(metric, value, dist, tape, pos)
  }

  /** Probabilistic rounding of a non-negative step result. */
  function AdvanceInt(metric: MetricType, value: int, dist: Distribution, tape: Tape, pos: nat): (int, nat) {
    var vf := AdvanceFloat(metric, value as real, dist, tape, pos);
    var vi := vf.value.Floor;
    (if vf.value - vi as real > tape.uniform(vf.pos) then vi + 1 else vi, vf.pos + 1)
  }

  /** An integer point moves like a float one, rounded to a neighbouring integer: down to the
      integer below when the draw is at least the fraction, up to the one above otherwise. */
  lemma AdvanceIntRounds(metric: MetricType, value: int, dist: Distribution, tape: Tape, pos: nat)
    requires tape.Valid()
    ensures var step, next := AdvanceFloat(metric, value as real, dist, tape, pos).value,
      AdvanceInt(metric, value, dist, tape, pos);
            && next.0 >= 0 && Abs(next.0 as real - step) < 1.0
            && (next.0 as real > step ==> tape.uniform(pos + 1) < 1.0 - (next.0 as real - step))
            && (next.0 as real < step ==> tape.uniform(pos + 1) >= step - next.0 as real)
            && (step == step.Floor as real ==> next.0 as real == step)
            && next.1 == pos + 2
  {
    hide FloatDelta;
    var step := AdvanceFloat(metric, value as real, dist, tape, pos).value;
    assert 0.0 <= tape.uniform(pos + 1) < 1.0;
  }

  datatype AdvanceOptions = AdvanceOptions(hint: Option<HintClass>, interval: int, precision: Option<nat>)

  datatype Advanced = Advanced(value: NumberValue, pos: nat)

  function AdvanceNumber(metric: MetricType, was: NumberValue, dist: Distribution, opts: AdvanceOptions, tape: Tape,
                         pos: nat): Advanced {
    match opts.hint
    case Some(hint) =>
      var next := HintAdvance(hint, metric, AsReal(was), dist, opts.interval, tape, pos);
      Advanced(Written(was, next.value, opts.precision), next.pos)
    case None =>
      match was
      case NoValue => Advanced(NoValue, pos)
      case DoubleValue(d) =>
        var next := AdvanceDouble(metric, d, dist, tape, pos);
        Advanced(DoubleValue(RoundIfSet(next.value, opts.precision)), next.pos)
      case IntValue(i) =>
        var next := AdvanceInt(metric, i, dist, tape, pos);
        Advanced(IntValue(next.0), next.1)
  }

  method DrawCurrentCount(current: real, ra: Rand) returns (next: real)
    modifies ra
    ensures Drawn(next, ra.pos) == CurrentCountAdvance(current, ra.tape, old(ra.pos))
  {
    var step := 0.0;
    var p := ra.Float64();
    if p < 0.70 {
      step := 0.0;
    } else if p < 0.90 {
      var u := ra.Float64();
      step := SignedUnitStep(u);
    } else {
      var u := ra.Float64();
      step := 2.0 * SignedUnitStep(u);
    }
    next := MaxReal(0.0, current + step);
  }

  method DrawSlowGauge(current: real, dist: Distribution, ra: Rand) returns (value: real)
    modifies ra
    ensures Drawn(value, ra.pos) == SlowGaugeAdvance(current, dist, ra.tape, old(ra.pos))
  {
    hide BounceBetweenZeroAndOne, SlowGaugeStep;
    var z := ra.NormFloat64();
    value := SlowGaugeStep(current, z, dist);
    if IsUnitIntervalGaugeValue(current) {
      value := BounceBetweenZeroAndOne(value);
    }
  }

  method DrawSparseCounter(metric: MetricType, current: real, dist: Distribution, ra: Rand) returns (next: real)
    modifies ra
    ensures Drawn(next, ra.pos) == SparseCounterAdvance(metric, current, dist, ra.tape, old(ra.pos))
  {
    var delta := 0.0;
    var u := ra.Float64();
    if u < 0.05 {
      var z := ra.NormFloat64();
      delta := Abs(Scaled(z, dist.stdDev));
      if delta == 0.0 {
        delta := 1.0;
      }
    }
    next := ApplyCounterDelta(metric, current, delta);
  }

  method DrawSteadyCounter(metric: MetricType, current: real, dist: Distribution, ra: Rand) returns (next: real)
    modifies ra
    ensures Drawn(next, ra.pos) == SteadyCounterAdvance(metric, current, dist, ra.tape, old(ra.pos))
  {
    var z := ra.NormFloat64();
    next := ApplyCounterDelta(metric, current, Abs(Scaled(z, dist.stdDev) + dist.medianMonotonicSum as real));
  }

  /** The strategy dispatch of a hinted metric. */
  method DrawHint(hint: HintClass, metric: MetricType, current: real, dist: Distribution, interval: int, ra: Rand)
    returns (next: real)
    modifies ra
    ensures Drawn(next, ra.pos) == HintAdvance(hint, metric, current, dist, interval, ra.tape, old(ra.pos))
  {
    hide SlowGaugeAdvance, SparseCounterAdvance, SteadyCounterAdvance, CurrentCountAdvance;
    match hint {
      case Clock => next := current + interval as real / SECOND as real;
      case Constant => next := current;
      case StableBinary => next := if Round(current) < 1 then 0.0 else 1.0;
      case CurrentCount => next := DrawCurrentCount(current, ra);
      case SlowGauge => next := DrawSlowGauge(current, dist, ra);
      case SparseCounter => next := DrawSparseCounter(metric, current, dist, ra);
      case SteadyCounter => next := DrawSteadyCounter(metric, current, dist, ra);
    }
  }

  method DrawZeroToOne(value: real, dist: Distribution, ra: Rand) returns (next: real)
    modifies ra
    ensures Drawn(next, ra.pos) == AdvanceZeroToOne(value, dist, ra.tape, old(ra.pos))
  {
    hide BounceBetweenZeroAndOne;
    var z := ra.NormFloat64();
    next := BounceBetweenZeroAndOne(value + Scaled(z, dist.stdDevGaugePct));
  }

  method DrawFloat(metric: MetricType, value: real, dist: Distribution, ra: Rand) returns (next: real)
    modifies ra
    ensures Drawn(next, ra.pos) == AdvanceFloat(metric, value, dist, ra.tape, old(ra.pos))
  {
    hide FloatDelta;
    var z := ra.NormFloat64();
    var delta := FloatDelta(metric, z, dist);
    next := Abs(if IsDelta(metric) then delta else value + delta);
  }

  method DrawDouble(metric: MetricType, value: real, dist: Distribution, ra: Rand) returns (next: real)
    modifies ra
    ensures Drawn(next, ra.pos) == AdvanceDouble(metric, value, dist, ra.tape, old(ra.pos))
  {
    hide AdvanceZeroToOne, AdvanceFloat, AvoidUnitInterval;
    if metric.Gauge? {
      if IsUnitIntervalGaugeValue(value) {
        next := DrawZeroToOne(value, dist, ra);
      } else {
        next := DrawFloat(metric, value, dist, ra);
        next := AvoidUnitInterval(next);
      }
    } else {
      next := DrawFloat(metric, value, dist, ra);
    }
  }

  method DrawInt(metric: MetricType, value: int, dist: Distribution, ra: Rand) returns (vi: int)
    modifies ra
    ensures (vi, ra.pos) == AdvanceInt(metric, value, dist, ra.tape, old(ra.pos))
  {
    hide AdvanceFloat;
    var vf := DrawFloat(metric, value as real, dist, ra);
    vi := vf.Floor;
    var u := ra.Float64();
    if vf - vi as real > u {
      vi := vi + 1;
    }
  }

  /** The number branch of AdvanceDataPoint. */
  method AdvanceDataPoint(dp: NumberDataPoint, metric: MetricType, dist: Distribution, opts: AdvanceOptions, ra: Rand)
    modifies dp, ra
    ensures Advanced(dp.value, ra.pos) == AdvanceNumber(metric, old(dp.value), dist, opts, ra.tape, old(ra.pos))
  {
    hide HintAdvance, AdvanceDouble, AdvanceInt, Written, RoundIfSet;
    if opts.hint.Some? {
      var next := DrawHint(opts.hint.value, metric, AsReal(dp.value), dist, opts.interval, ra);
      dp.value := Written(dp.value, next, opts.precision);
      return;
    }
    match dp.value {
      case NoValue =>
      case DoubleValue(d) =>
        var value := DrawDouble(metric, d, dist, ra);
        dp.value := DoubleValue(RoundIfSet(value, opts.precision));
      case IntValue(i) =>
        var vi := DrawInt(metric, i, dist, ra);
        dp.value := IntValue(vi);
    }
  }
}
