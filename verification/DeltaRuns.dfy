/** Sums of delta temporality: every tick starts afresh, and a hinted counter is the running sum
    of the deltas (distribution.go, generation_hints.go). */
module DeltaRuns {
  import opened Numbers
  import opened Config
  import opened Metrics
  import opened Random
  import opened Advance
  import opened CounterRuns

  /** The same kind of number. */
  predicate Alike(v: NumberValue, w: NumberValue) {
    (v.NoValue? <==> w.NoValue?) && (v.IntValue? <==> w.IntValue?)
  }

  predicate IsDeltaSum(metric: MetricType) { metric.Sum? && metric.temporality == Delta }

  /** The hints of counters, and none. */
  predicate CountsUp(hint: Option<HintClass>) {
    hint == None || hint == Some(SteadyCounter) || hint == Some(SparseCounter)
  }

  /** What the draws from pos on are worth to a sum of either temporality. */
  function Worth(metric: MetricType, hint: Option<HintClass>, dist: Distribution, tape: Tape, pos: nat): real {
    match hint
    case Some(SteadyCounter) => Abs(Scaled(tape.normal(pos), dist.stdDev) + dist.medianMonotonicSum as real)
    case Some(SparseCounter) =>
      if tape.uniform(pos) >= 0.05 then 0.0
      else if Scaled(tape.normal(pos + 1), dist.stdDev) == 0.0 then 1.0
      else Abs(Scaled(tape.normal(pos + 1), dist.stdDev))
    case _ =>
      Abs(Scaled(tape.normal(pos), dist.stdDev)
          + if metric.Sum? && metric.monotonic then dist.medianMonotonicSum as real else 0.0)
  }

  /** A delta sum forgets what it held. */
  lemma DeltaIgnoresValue(metric: MetricType, v: NumberValue, w: NumberValue, dist: Distribution, opts: AdvanceOptions,
                          tape: Tape, pos: nat)
    requires IsDeltaSum(metric) && Alike(v, w) && CountsUp(opts.hint)
    ensures AdvanceNumber(metric, v, dist, opts, tape, pos) == AdvanceNumber(metric, w, dist, opts, tape, pos)
  {
    hide RoundIfSet, Round, FloatDelta;
  }

  /** v holds x as its number type allows: rounded to the grid, or an integer within `slack` of it
      that is x itself when x is whole. */
  ghost predicate Stores(v: NumberValue, x: real, precision: Option<nat>, slack: real) {
    match v
    case NoValue => true
    case DoubleValue(d) => d == (if precision.Some? then RoundToPrecision(x, precision.value) else x)
    case IntValue(i) => Abs(i as real - x) <= slack && (x == x.Floor as real ==> i as real == x)
  }

  lemma WrittenStores(was: NumberValue, x: real, precision: Option<nat>)
    requires x >= 0.0
    ensures Stores(Written(was, x, precision), x, precision, 0.5) && Alike(was, Written(was, x, precision))
  {
    RoundNearest(x);
    RoundMonotone(0.0, x);
    RoundInteger(x.Floor);
    hide Round, RoundToPrecision;
  }

  lemma UnhintedDoubleIs(metric: MetricType, d: real, dist: Distribution, opts: AdvanceOptions, tape: Tape, pos: nat)
    requires IsDeltaSum(metric) && opts.hint.None?
    ensures AdvanceNumber(metric, DoubleValue(d), dist, opts, tape, pos).value
         == DoubleValue(RoundIfSet(Worth(metric, None, dist, tape, pos), opts.precision))
  {
    hide RoundIfSet, Scaled;
  }

  lemma UnhintedIntIs(metric: MetricType, i: int, dist: Distribution, opts: AdvanceOptions, tape: Tape, pos: nat)
    requires IsDeltaSum(metric) && opts.hint.None? && tape.Valid()
    ensures Stores(AdvanceNumber(metric, IntValue(i), dist, opts, tape, pos).value,
                   Worth(metric, None, dist, tape, pos), opts.precision, 1.0)
    ensures AdvanceNumber(metric, IntValue(i), dist, opts, tape, pos).value.IntValue?
  {
    assert AdvanceFloat(metric, i as real, dist, tape, pos).value == Worth(metric, None, dist, tape, pos);
    AdvanceIntRounds(metric, i, dist, tape, pos);
    hide AdvanceFloat, AdvanceInt, Worth;
  }

  lemma HintedDeltaIs(metric: MetricType, v: NumberValue, hint: HintClass, dist: Distribution, opts: AdvanceOptions,
                      tape: Tape, pos: nat)
    requires IsDeltaSum(metric) && opts.hint == Some(hint) && hint in {SteadyCounter, SparseCounter}
    ensures AdvanceNumber(metric, v, dist, opts, tape, pos).value
         == Written(v, Worth(metric, opts.hint, dist, tape, pos), opts.precision)
  {
    hide Written, Scaled;
  }

  /** A tick of a delta sum stores what its draws are worth, hinted or not, whatever it held. */
  lemma DeltaIsWorth(metric: MetricType, v: NumberValue, dist: Distribution, opts: AdvanceOptions, tape: Tape, pos: nat)
    requires IsDeltaSum(metric) && CountsUp(opts.hint) && tape.Valid()
    ensures Stores(AdvanceNumber(metric, v, dist, opts, tape, pos).value, Worth(metric, opts.hint, dist, tape, pos),
                   opts.precision, if opts.hint.Some? then 0.5 else 1.0)
    ensures Alike(AdvanceNumber(metric, v, dist, opts, tape, pos).value, v)
  {
    match opts.hint
    case Some(hint) =>
      HintedDeltaIs(metric, v, hint, dist, opts, tape, pos);
      assert Worth(metric, opts.hint, dist, tape, pos) >= 0.0;
      hide AdvanceNumber, Worth;
      WrittenStores(v, Worth(metric, opts.hint, dist, tape, pos), opts.precision);
    case None =>
      match v
      case NoValue =>
        hide Worth;
      case IntValue(i) =>
        hide AdvanceNumber, Worth;
        UnhintedIntIs(metric, i, dist, opts, tape, pos);
      case DoubleValue(d) =>
        hide AdvanceNumber, Worth;
        UnhintedDoubleIs(metric, d, dist, opts, tape, pos);
  }

  ghost predicate DeltaSeries(s: Series) { IsDeltaSum(s.metric) && CountsUp(s.hint) }

  lemma {:induction false} TemplateKind(s: Series, e: Surroundings, seed: NumberValue, t: nat)
    requires DeltaSeries(s) && e.tape.Valid()
    ensures Alike(TemplateAt(s, e, seed, t), seed)
  {
    hide AdvanceNumber;
    if t > 0 {
      TemplateKind(s, e, seed, t - 1);
      DeltaIsWorth(s.metric, TemplateAt(s, e, seed, t - 1), e.dist, AdvanceOptions(s.hint, e.interval, s.precision),
                   e.tape, e.at(t - 1));
    }
  }

  /** Over a run every tick of a delta sum stores the worth of its own draws: neither the seed nor
      any earlier tick matters. */
  lemma DeltaRunIsMemoryless(s: Series, e: Surroundings, seed: NumberValue, other: NumberValue, t: nat)
    requires DeltaSeries(s) && e.tape.Valid() && Alike(seed, other)
    ensures TemplateAt(s, e, seed, t + 1) == TemplateAt(s, e, other, t + 1)
    ensures Alike(TemplateAt(s, e, seed, t + 1), seed)
    ensures Stores(TemplateAt(s, e, seed, t + 1), Worth(s.metric, s.hint, e.dist, e.tape, e.at(t)), s.precision,
                   if s.hint.Some? then 0.5 else 1.0)
  {
    TemplateKind(s, e, seed, t);
    TemplateKind(s, e, other, t);
    TemplateKind(s, e, seed, t + 1);
    var opts := AdvanceOptions(s.hint, e.interval, s.precision);
    hide AdvanceNumber, Worth, Stores;
    DeltaIgnoresValue(s.metric, TemplateAt(s, e, seed, t), TemplateAt(s, e, other, t), e.dist, opts, e.tape, e.at(t));
    DeltaIsWorth(s.metric, TemplateAt(s, e, seed, t), e.dist, opts, e.tape, e.at(t));
  }

  // ----- cumulative counters are the running sums of the deltas -----

  /** The same series reported as deltas. */
  function AsDelta(s: Series): Series { s.(metric := Sum(true, Delta)) }

  /** The sum of the first t deltas of a run. */
  ghost function SumOfDeltas(s: Series, e: Surroundings, seed: NumberValue, t: nat): real {
    if t == 0 then 0.0 else SumOfDeltas(s, e, seed, t - 1) + AsReal(TemplateAt(s, e, seed, t))
  }

  lemma IntegersAddUp(m: int, n: int)
    ensures (m + n) as real == m as real + n as real
  {
  }

  /** Adding x to a stored number that is not negative adds what storing x alone would hold. */
  lemma WrittenSplits(v: NumberValue, w: NumberValue, x: real, precision: Option<nat>)
    requires Alike(v, w) && AsReal(v) >= 0.0 && OnSeriesGrid(v, precision) && x >= 0.0
    ensures AsReal(Written(v, AsReal(v) + x, precision)) == AsReal(v) + AsReal(Written(w, x, precision))
    ensures OnSeriesGrid(Written(v, AsReal(v) + x, precision), precision)
    ensures AsReal(Written(w, x, precision)) >= 0.0
  {
    WrittenStaysOnGrid(v, AsReal(v) + x, precision);
    WrittenStaysOnGrid(w, x, precision);
    hide OnGrid, RoundToPrecision, Round;
    match v
    case NoValue =>
    case IntValue(i) =>
      RoundSplits(i, x);
      RoundMonotone(0.0, x);
      RoundInteger(0);
      IntegersAddUp(i, Round(x));
    case DoubleValue(d) =>
      if precision.Some? {
        RoundToPrecisionSplits(d, x, precision.value);
      }
  }

  lemma CumulativeStep(s: Series, v: NumberValue, dist: Distribution, opts: AdvanceOptions, tape: Tape, pos: nat)
    requires HintedCounter(s) && opts.hint == s.hint
    ensures AdvanceNumber(s.metric, v, dist, opts, tape, pos).value
         == Written(v, AsReal(v) + Worth(s.metric, s.hint, dist, tape, pos), opts.precision)
    ensures Worth(s.metric, s.hint, dist, tape, pos) >= 0.0
  {
    hide Written, Scaled;
  }

  lemma WrittenKind(v: NumberValue, x: real, precision: Option<nat>)
    ensures Alike(Written(v, x, precision), v)
  {
  }

  /** What the draws are worth to a hinted counter does not depend on the temporality. */
  lemma HintedWorthAlike(s: Series, dist: Distribution, tape: Tape, pos: nat)
    requires HintedCounter(s)
    ensures Worth(s.metric, s.hint, dist, tape, pos) == Worth(AsDelta(s).metric, s.hint, dist, tape, pos)
  {
  }

  /** With any hinted counter, cumulative values are the seed and the deltas of the same draws added
      up, exactly, after rounding too: for integers and for floats on their grid. */
  lemma {:induction false} CumulativeIsSumOfDeltas(s: Series, e: Surroundings, seed: NumberValue, t: nat)
    requires HintedCounter(s) && e.tape.Valid() && OnSeriesGrid(seed, s.precision) && AsReal(seed) >= 0.0
    ensures AsReal(TemplateAt(s, e, seed, t)) == AsReal(seed) + SumOfDeltas(AsDelta(s), e, seed, t)
    ensures AsReal(TemplateAt(s, e, seed, t)) >= 0.0 && OnSeriesGrid(TemplateAt(s, e, seed, t), s.precision)
    ensures Alike(TemplateAt(s, e, seed, t), seed)
  {
    hide AdvanceNumber, Worth, Written, OnSeriesGrid, IsCumulativeMonotonicSum;
    if t > 0 {
      CumulativeIsSumOfDeltas(s, e, seed, t - 1);
      var d, opts := AsDelta(s), AdvanceOptions(s.hint, e.interval, s.precision);
      var v, w := TemplateAt(s, e, seed, t - 1), TemplateAt(d, e, seed, t - 1);
      TemplateKind(d, e, seed, t - 1);
      CumulativeStep(s, v, e.dist, opts, e.tape, e.at(t - 1));
      HintedDeltaIs(d.metric, w, s.hint.value, e.dist, opts, e.tape, e.at(t - 1));
      HintedWorthAlike(s, e.dist, e.tape, e.at(t - 1));
      WrittenSplits(v, w, Worth(s.metric, s.hint, e.dist, e.tape, e.at(t - 1)), s.precision);
      WrittenKind(v, AsReal(v) + Worth(s.metric, s.hint, e.dist, e.tape, e.at(t - 1)), s.precision);
    }
  }
}
