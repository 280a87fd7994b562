/** The deterministic per-instance copy of a number data point (instance_variation.go). */
module Variation {
  import opened Numbers
  import opened Config
  import opened Metrics
  import opened Hash
  import opened Noise
  import opened Advance

  datatype Strategy =
    | NoVariation
    | BoundedMultiplier(min: real, max: real, autoBounce: bool)
    | CurrentCountVariation(minOffset: int, maxOffset: int)

  const GAUGE_VARIATION := BoundedMultiplier(1.0, 2.0, true)
  const COUNTER_VARIATION := BoundedMultiplier(0.9, 1.1, false)

  function StrategyOf(hint: HintClass): Strategy {
    match hint
    case Clock => NoVariation
    case Constant => NoVariation
    case StableBinary => NoVariation
    case CurrentCount => CurrentCountVariation(-2, 2)
    case SlowGauge => GAUGE_VARIATION
    case SparseCounter => COUNTER_VARIATION
    case SteadyCounter => COUNTER_VARIATION
  }

  function DefaultStrategyFor(metric: MetricType): Strategy {
    match metric
    case Gauge => GAUGE_VARIATION
    case Sum(_, _) => COUNTER_VARIATION
    case _ => NoVariation
  }

  function StrategyFor(metric: MetricType, hint: Option<HintClass>): Strategy {
    match hint
    case Some(h) => StrategyOf(h)
    case None => DefaultStrategyFor(metric)
  }

  function InstanceUnit(identityHash: bv64, instanceID: bv64): (u: real)
    ensures 0.0 <= u < 1.0
  {
    HashToUnitInterval(MixInstanceID(identityHash, instanceID))
  }

  function TemporalMultiplier(identityHash: bv64, instanceID: bv64, opts: VariationOptions,
                              allowNegativeNoise: bool): real {
    if opts.timestamp == ZERO_TIME || opts.interval <= 0 then 1.0 else
      var noise := TemporalNoise(identityHash, instanceID, opts);
      1.0 + 0.08 * (if allowNegativeNoise then noise else 0.5 + 0.5 * noise)
  }

  function CumulativeVariation(trig: Trig, s: Strategy, current: real, identityHash: bv64, instanceID: bv64,
                               opts: VariationOptions): real
    requires s.BoundedMultiplier? && trig.pi > 0.0
  {
    var unit := InstanceUnit(identityHash, instanceID);
    MaxReal(0.0, Scaled(current, StableMultiplier(s.min, s.max, unit))
                 + CounterRateOffset(trig, identityHash, instanceID, unit, opts))
  }

  function ScaledGauge(s: Strategy, current: real, identityHash: bv64, instanceID: bv64, opts: VariationOptions,
                       inUnit: bool): real
    requires s.BoundedMultiplier?
  {
    Scaled(Scaled(current, StableMultiplier(s.min, s.max, InstanceUnit(identityHash, instanceID))),
           TemporalMultiplier(identityHash, instanceID, opts, inUnit))
  }

  function NonCumulativeVariation(s: Strategy, current: real, identityHash: bv64, instanceID: bv64,
                                  opts: VariationOptions): real
    requires s.BoundedMultiplier?
  {
    var inUnit := IsUnitIntervalGaugeValue(current);
    var next := MaxReal(0.0, ScaledGauge(s, current, identityHash, instanceID, opts, inUnit));
    if s.autoBounce && inUnit then BounceBetweenZeroAndOne(next) else next
  }

  /** The signed integer with this bit pattern. */
  function SignedValue(id: bv64): int {
    if id as int < TWO_64 / 2 then id as int else id as int - TWO_64
  }

  function PositiveMod(v: int, m: int): int
    requires m > 0
  {
    var r := TruncMod(v, m);
    if r < 0 then r + m else r
  }

  function CountOffset(s: Strategy, identityHash: bv64, instanceID: bv64, opts: VariationOptions): int
    requires s.CurrentCountVariation? && s.minOffset <= s.maxOffset
  {
    var span := s.maxOffset - s.minOffset + 1;
    var base := (identityHash as int) % span;
    PositiveMod(SignedValue(instanceID) + base, span) + s.minOffset
    + Round(3.0 * TemporalNoise(identityHash, instanceID, opts))
  }

  function CurrentCountValue(s: Strategy, current: real, identityHash: bv64, instanceID: bv64,
                             opts: VariationOptions): real
    requires s.CurrentCountVariation? && s.minOffset <= s.maxOffset
  {
    var multiplier := StableMultiplier(1.0, 2.0, InstanceUnit(identityHash, instanceID));
    MaxReal(0.0, Scaled(current, multiplier) + CountOffset(s, identityHash, instanceID, opts) as real)
  }

  /** What a strategy writes for one instance. */
  function ApplyNumber(trig: Trig, s: Strategy, was: NumberValue, metric: MetricType, precision: Option<nat>,
                       identityHash: bv64, instanceID: bv64, opts: VariationOptions): NumberValue
    requires trig.pi > 0.0 && (s.CurrentCountVariation? ==> s.minOffset <= s.maxOffset)
  {
    var current := AsReal(was);
    match s
    case NoVariation => was
    case BoundedMultiplier(_, _, _) =>
      if current == 0.0 then was
      else if IsCumulativeMonotonicSum(metric) then
        Written(was, CumulativeVariation(trig, s, current, identityHash, instanceID, opts), precision)
      else
        Written(was, NonCumulativeVariation(s, current, identityHash, instanceID, opts), precision)
    case CurrentCountVariation(_, _) =>
      Written(was, CurrentCountValue(s, current, identityHash, instanceID, opts), precision)
  }

  /** The in-place write of an instance's copy. */
  method ApplyNumberTo(dp: NumberDataPoint, trig: Trig, s: Strategy, metric: MetricType, precision: Option<nat>,
                       identityHash: bv64, instanceID: bv64, opts: VariationOptions)
    requires trig.pi > 0.0 && (s.CurrentCountVariation? ==> s.minOffset <= s.maxOffset)
    modifies dp
    ensures dp.value == ApplyNumber(trig, s, old(dp.value), metric, precision, identityHash, instanceID, opts)
  {
    hide CumulativeVariation, NonCumulativeVariation, CurrentCountValue, Written;
    var current := AsReal(dp.value);
    match s {
      case NoVariation =>
      case BoundedMultiplier(_, _, _) =>
        if current == 0.0 {
          return;
        }
        var next: real;
        if IsCumulativeMonotonicSum(metric) {
          next := CumulativeVariation(trig, s, current, identityHash, instanceID, opts);
        } else {
          next := NonCumulativeVariation(s, current, identityHash, instanceID, opts);
        }
        dp.value := Written(dp.value, next, precision);
      case CurrentCountVariation(_, _) =>
        var next := CurrentCountValue(s, current, identityHash, instanceID, opts);
        dp.value := Written(dp.value, next, precision);
    }
  }
}
