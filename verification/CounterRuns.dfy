/** Whole runs of one number series: template ticks, then the copy an instance emits. */
module CounterRuns {
  import opened Numbers
  import opened Config
  import opened Metrics
  import opened Hash
  import opened Random
  import opened Noise
  import opened Advance
  import opened Variation

  /** What is fixed for a series during a run. */
  datatype Series = Series(metric: MetricType, hint: Option<HintClass>, precision: Option<nat>, identityHash: bv64)

  /** A run's fixed surroundings; `at(t)` is where on the tape tick t reaches this series. */
  datatype Surroundings = Surroundings(trig: Trig, dist: Distribution, startTime: int, interval: int, tape: Tape,
                                       at: nat -> nat) {
    ghost predicate Valid() {
      trig.Valid() && interval >= SECOND && startTime >= ZERO_TIME && tape.Valid()
    }
  }

  /** The same surroundings with other draws. */
  function WithDraws(e: Surroundings, tape: Tape, at: nat -> nat): Surroundings { e.(tape := tape, at := at) }

  /** The template value after t ticks. */
  ghost function TemplateAt(s: Series, e: Surroundings, seed: NumberValue, t: nat): NumberValue {
    if t == 0 then seed else
      AdvanceNumber(s.metric, TemplateAt(s, e, seed, t - 1), e.dist,
                    AdvanceOptions(s.hint, e.interval, s.precision), e.tape, e.at(t - 1)).value
  }

  function OptionsAt(e: Surroundings, t: nat): VariationOptions {
    VariationOptions(e.startTime + t * e.interval, e.startTime, e.interval, e.dist.medianMonotonicSum as real)
  }

  /** What an instance emits in tick t: the template is advanced first. */
  ghost function EmittedAt(s: Series, e: Surroundings, seed: NumberValue, instanceID: bv64, t: nat): NumberValue
    requires e.Valid()
  {
    ApplyNumber(e.trig, StrategyFor(s.metric, s.hint), TemplateAt(s, e, seed, t + 1), s.metric, s.precision,
                s.identityHash,
                instanceID, OptionsAt(e, t))
  }

  predicate AtMost(v: NumberValue, w: NumberValue) {
    match (v, w)
    case (NoValue, NoValue) => true
    case (IntValue(i), IntValue(j)) => i <= j
    case (DoubleValue(x), DoubleValue(y)) => x <= y
    case _ => false
  }

  /** On the decimal grid inferred for its metric. */
  ghost predicate OnSeriesGrid(v: NumberValue, precision: Option<nat>) {
    v.DoubleValue? && precision.Some? ==> OnGrid(v.d, precision.value)
  }

  /** A cumulative monotonic counter, emitted with the counter variation. */
  ghost predicate CounterSeries(s: Series) {
    IsCumulativeMonotonicSum(s.metric) && StrategyFor(s.metric, s.hint) == COUNTER_VARIATION
  }

  ghost predicate HintedCounter(s: Series) {
    IsCumulativeMonotonicSum(s.metric) && (s.hint == Some(SteadyCounter) || s.hint == Some(SparseCounter))
  }

  lemma WrittenMonotone(was: NumberValue, w: NumberValue, x: real, y: real, precision: Option<nat>)
    requires x <= y && AtMost(was, w)
    ensures AtMost(Written(was, x, precision), Written(w, y, precision))
  {
    hide RoundToPrecision, Round;
    RoundMonotone(x, y);
    if precision.Some? {
      RoundToPrecisionMonotone(x, y, precision.value);
    }
  }

  /** Writing back a value on the grid never writes less. */
  lemma WrittenFixes(v: NumberValue, precision: Option<nat>)
    requires OnSeriesGrid(v, precision)
    ensures AtMost(v, Written(v, AsReal(v), precision))
    ensures AsReal(v) == 0.0 ==> Written(v, 0.0, precision) == v
  {
    hide RoundToPrecision, Round;
    match v
    case NoValue =>
    case IntValue(i) => RoundInteger(i);
    case DoubleValue(d) => if precision.Some? { RoundToPrecisionFixesGrid(d, precision.value); }
  }

  lemma WrittenStaysOnGrid(was: NumberValue, x: real, precision: Option<nat>)
    ensures OnSeriesGrid(Written(was, x, precision), precision)
    ensures was.IntValue? || x >= 0.0 ==> AsReal(Written(was, x, precision)) >= 0.0
  {
    hide RoundToPrecision, Round;
    if precision.Some? && was.DoubleValue? {
      RoundToPrecisionOnGrid(x, precision.value);
      RoundingKeepsIntegerBounds(x, 0, precision.value);
    }
  }

  lemma AtMostTransitive(u: NumberValue, v: NumberValue, w: NumberValue)
    requires AtMost(u, v) && AtMost(v, w)
    ensures AtMost(u, w)
  {
  }

  lemma CounterDeltaNotNegative(hint: HintClass, metric: MetricType, current: real, dist: Distribution, interval: int,
                                tape: Tape, pos: nat)
    requires IsCumulativeMonotonicSum(metric) && (hint == SteadyCounter || hint == SparseCounter)
    ensures HintAdvance(hint, metric, current, dist, interval, tape, pos).value >= current
  {
  }

  lemma CounterTemplateStep(s: Series, e: Surroundings, seed: NumberValue, t: nat)
    requires HintedCounter(s) && OnSeriesGrid(TemplateAt(s, e, seed, t), s.precision)
    ensures AtMost(TemplateAt(s, e, seed, t), TemplateAt(s, e, seed, t + 1))
    ensures OnSeriesGrid(TemplateAt(s, e, seed, t + 1), s.precision)
  {
    var was := TemplateAt(s, e, seed, t);
    var next := HintAdvance(s.hint.value, s.metric, AsReal(was), e.dist, e.interval, e.tape, e.at(t));
    assert next.value >= AsReal(was) by {
      CounterDeltaNotNegative(s.hint.value, s.metric, AsReal(was), e.dist, e.interval, e.tape, e.at(t));
    }
    hide HintAdvance;
    assert TemplateAt(s, e, seed, t + 1) == Written(was, next.value, s.precision);
    WrittenFixes(was, s.precision);
    WrittenMonotone(was, was, AsReal(was), next.value, s.precision);
    WrittenStaysOnGrid(was, next.value, s.precision);
    hide Written, OnSeriesGrid;
    AtMostTransitive(was, Written(was, AsReal(was), s.precision), Written(was, next.value, s.precision));
  }

  lemma {:induction false} CounterTemplateGrows(s: Series, e: Surroundings, seed: NumberValue, t1: nat, t2: nat)
    requires HintedCounter(s) && OnSeriesGrid(seed, s.precision) && t1 <= t2
    ensures AtMost(TemplateAt(s, e, seed, t1), TemplateAt(s, e, seed, t2))
    ensures OnSeriesGrid(TemplateAt(s, e, seed, t1), s.precision)
      && OnSeriesGrid(TemplateAt(s, e, seed, t2), s.precision)
    decreases t2
  {
    hide AdvanceNumber, OnSeriesGrid;
    if t1 < t2 {
      CounterTemplateGrows(s, e, seed, t1, t2 - 1);
      CounterTemplateStep(s, e, seed, t2 - 1);
    } else if t2 > 0 {
      CounterTemplateGrows(s, e, seed, t1 - 1, t2 - 1);
      CounterTemplateStep(s, e, seed, t2 - 1);
    }
  }

  lemma MultiplierPositive(unit: real)
    requires 0.0 <= unit < 1.0
    ensures 0.9 <= StableMultiplier(0.9, 1.1, unit) < 1.1
  {
  }

  lemma ScaledSumMonotone(x: real, y: real, m: real, a: real, b: real)
    requires x <= y && m >= 0.0 && a <= b
    ensures 0.0 <= MaxReal(0.0, Scaled(x, m) + a) <= MaxReal(0.0, Scaled(y, m) + b)
  {
    ScaledMonotone(x, y, m);
    hide Scaled;
  }

  lemma CumulativeVariationMonotone(trig: Trig, x: real, y: real, identityHash: bv64, instanceID: bv64,
                                    opts: VariationOptions, later: int)
    requires trig.Valid() && x <= y && opts.counterBaseDelta >= 0.0 && opts.interval > 0
    requires ZERO_TIME <= opts.startTime <= opts.timestamp <= later
    ensures 0.0 <= CumulativeVariation(trig, COUNTER_VARIATION, x, identityHash, instanceID, opts)
                <= CumulativeVariation(trig, COUNTER_VARIATION, y, identityHash, instanceID, opts.(timestamp := later))
  {
    var unit := InstanceUnit(identityHash, instanceID);
    hide InstanceUnit, CounterRateOffset, StableMultiplier;
    OffsetMonotone(trig, identityHash, instanceID, unit, opts, later);
    MultiplierPositive(unit);
    ScaledSumMonotone(x, y, StableMultiplier(0.9, 1.1, unit),
                      CounterRateOffset(trig, identityHash, instanceID, unit, opts),
                      CounterRateOffset(trig, identityHash, instanceID, unit, opts.(timestamp := later)));
  }

  /** A zero baseline is emitted as it is; a non-zero one as a value that is not negative. */
  lemma CounterCopy(s: Series, e: Surroundings, v: NumberValue, instanceID: bv64, t: nat)
    requires e.Valid() && CounterSeries(s)
    ensures var copy := ApplyNumber(e.trig, StrategyFor(s.metric, s.hint), v, s.metric, s.precision, s.identityHash,
                                    instanceID,
                                    OptionsAt(e, t));
            if AsReal(v) == 0.0 then copy == v
            else
              var x := CumulativeVariation(e.trig, COUNTER_VARIATION, AsReal(v), s.identityHash, instanceID,
                                           OptionsAt(e, t));
              copy == Written(v, x, s.precision)
  {
    hide CumulativeVariation, Written;
  }

  /** A later template value that is larger and not zero is emitted as at least as much. */
  lemma CounterEmissionMonotone(s: Series, e: Surroundings, v: NumberValue, w: NumberValue, instanceID: bv64, t1: nat,
                                t2: nat)
    requires e.Valid() && CounterSeries(s) && AtMost(v, w) && t1 <= t2 && AsReal(w) != 0.0
    requires OnSeriesGrid(v, s.precision)
    ensures AtMost(ApplyNumber(e.trig, StrategyFor(s.metric, s.hint), v, s.metric, s.precision, s.identityHash,
                               instanceID,
                               OptionsAt(e, t1)),
                   ApplyNumber(e.trig, StrategyFor(s.metric, s.hint), w, s.metric, s.precision, s.identityHash,
                               instanceID,
                               OptionsAt(e, t2)))
  {
    var x, y := AsReal(v), AsReal(w);
    var o1, o2 := OptionsAt(e, t1), OptionsAt(e, t2);
    MulOrder(t1, t2, e.interval);
    MulOrder(0, t1, e.interval);
    assert o2 == o1.(timestamp := o2.timestamp);
    CounterCopy(s, e, v, instanceID, t1);
    CounterCopy(s, e, w, instanceID, t2);
    hide ApplyNumber, CumulativeVariation, Written, OptionsAt, StrategyFor, OnSeriesGrid;
    CumulativeVariationMonotone(e.trig, x, y, s.identityHash, instanceID, o1, o2.timestamp);
    var b := CumulativeVariation(e.trig, COUNTER_VARIATION, y, s.identityHash, instanceID, o2);
    if x == 0.0 {
      WrittenMonotone(v, w, 0.0, b, s.precision);
      WrittenFixes(v, s.precision);
    } else {
      WrittenMonotone(v, w, CumulativeVariation(e.trig, COUNTER_VARIATION, x, s.identityHash, instanceID, o1), b,
                      s.precision);
    }
  }

  lemma SameKind(s: Series, e: Surroundings, v: NumberValue, w: NumberValue, instanceID: bv64, t: nat)
    requires e.Valid() && CounterSeries(s) && AtMost(v, w) && AsReal(w) == 0.0
    ensures var copy := ApplyNumber(e.trig, StrategyFor(s.metric, s.hint), v, s.metric, s.precision, s.identityHash,
                                    instanceID,
                                    OptionsAt(e, t));
            AtMost(copy, w) <==> AsReal(copy) <= 0.0
  {
    CounterCopy(s, e, v, instanceID, t);
    hide ApplyNumber, CumulativeVariation, StrategyFor;
  }

  /** For any seed on the grid, whatever its sign, a hinted cumulative monotonic counter
      emits less at t2 than at t1 exactly when its template has come to rest at 0 in t2
      (which is emitted unvaried) after something positive was emitted at t1. */
  lemma CounterDecreasesExactlyWhen(s: Series, e: Surroundings, seed: NumberValue, instanceID: bv64, t1: nat, t2: nat)
    requires e.Valid() && HintedCounter(s) && OnSeriesGrid(seed, s.precision) && t1 <= t2
    ensures AtMost(EmittedAt(s, e, seed, instanceID, t1), EmittedAt(s, e, seed, instanceID, t2))
       <==> !(AsReal(TemplateAt(s, e, seed, t2 + 1)) == 0.0 && AsReal(EmittedAt(s, e, seed, instanceID, t1)) > 0.0)
  {
    assert CounterSeries(s);
    hide TemplateAt, ApplyNumber, OnSeriesGrid, StrategyFor, OptionsAt, CounterSeries;
    CounterTemplateGrows(s, e, seed, t1 + 1, t2 + 1);
    var v, w := TemplateAt(s, e, seed, t1 + 1), TemplateAt(s, e, seed, t2 + 1);
    if AsReal(w) == 0.0 {
      CounterCopy(s, e, w, instanceID, t2);
      SameKind(s, e, v, w, instanceID, t1);
    } else {
      CounterEmissionMonotone(s, e, v, w, instanceID, t1, t2);
    }
  }

  lemma WrittenNothing(x: real, precision: Option<nat>)
    ensures Written(NoValue, x, precision) == NoValue
  {
  }

  /** From its first tick on, an integer template is not negative, nor is a double one
      seeded at 0 or above. */
  lemma {:induction false} CounterTemplateNotNegative(s: Series, e: Surroundings, seed: NumberValue, t: nat)
    requires HintedCounter(s) && OnSeriesGrid(seed, s.precision) && (seed.DoubleValue? ==> seed.d >= 0.0)
    ensures AsReal(TemplateAt(s, e, seed, t + 1)) >= 0.0
  {
    var was := TemplateAt(s, e, seed, t);
    CounterTemplateGrows(s, e, seed, 0, t);
    assert TemplateAt(s, e, seed, 0) == seed;
    CounterDeltaNotNegative(s.hint.value, s.metric, AsReal(was), e.dist, e.interval, e.tape, e.at(t));
    var next := HintAdvance(s.hint.value, s.metric, AsReal(was), e.dist, e.interval, e.tape, e.at(t));
    hide HintAdvance, OnSeriesGrid;
    assert TemplateAt(s, e, seed, t + 1) == Written(was, next.value, s.precision);
    WrittenStaysOnGrid(was, next.value, s.precision);
    hide Written, TemplateAt;
    if was.NoValue? {
      WrittenNothing(next.value, s.precision);
    }
  }

  /** Copies of template values that are not negative come out in the order of the values. */
  lemma CopiesInOrder(s: Series, e: Surroundings, v: NumberValue, w: NumberValue, instanceID: bv64, t1: nat, t2: nat)
    requires e.Valid() && CounterSeries(s) && AtMost(v, w) && AsReal(v) >= 0.0 && OnSeriesGrid(v, s.precision)
      && t1 <= t2
    ensures AtMost(ApplyNumber(e.trig, StrategyFor(s.metric, s.hint), v, s.metric, s.precision, s.identityHash,
                               instanceID,
                               OptionsAt(e, t1)),
                   ApplyNumber(e.trig, StrategyFor(s.metric, s.hint), w, s.metric, s.precision, s.identityHash,
                               instanceID,
                               OptionsAt(e, t2)))
  {
    hide ApplyNumber, OnSeriesGrid, OptionsAt, StrategyFor;
    if AsReal(w) == 0.0 {
      CounterCopy(s, e, v, instanceID, t1);
      CounterCopy(s, e, w, instanceID, t2);
    } else {
      CounterEmissionMonotone(s, e, v, w, instanceID, t1, t2);
    }
  }

  /** Every instance of a hinted cumulative monotonic counter emits values that never
      decrease, over any run and for every tape; a double seed must not be negative. */
  lemma CountersNeverDecrease(s: Series, e: Surroundings, seed: NumberValue, instanceID: bv64, t1: nat, t2: nat)
    requires e.Valid() && HintedCounter(s) && OnSeriesGrid(seed, s.precision) && t1 <= t2
    requires seed.DoubleValue? ==> seed.d >= 0.0
    ensures AtMost(EmittedAt(s, e, seed, instanceID, t1), EmittedAt(s, e, seed, instanceID, t2))
  {
    assert CounterSeries(s);
    hide TemplateAt, ApplyNumber, OnSeriesGrid, StrategyFor, OptionsAt, AtMost;
    CounterTemplateGrows(s, e, seed, t1 + 1, t2 + 1);
    CounterTemplateNotNegative(s, e, seed, t1);
    CopiesInOrder(s, e, TemplateAt(s, e, seed, t1 + 1), TemplateAt(s, e, seed, t2 + 1), instanceID, t1, t2);
  }
}
