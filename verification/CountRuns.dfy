/** Metrics hinted as current counts over whole runs (generation_hints.go, instance_variation.go). */
module CountRuns {
  import opened Numbers
  import opened Config
  import opened Metrics
  import opened Hash
  import opened Noise
  import opened Advance
  import opened Variation
  import opened CounterRuns
  import opened GaugeRuns

  ghost predicate CurrentCountSeries(s: Series) { s.hint == Some(CurrentCount) }

  /** A tick moves an integer count by at most 2 and never below 0. */
  lemma CountTemplateStep(s: Series, e: Surroundings, seed: NumberValue, t: nat)
    requires CurrentCountSeries(s) && TemplateAt(s, e, seed, t).IntValue?
    ensures var was, now := TemplateAt(s, e, seed, t), TemplateAt(s, e, seed, t + 1);
            now.IntValue? && now.i >= 0 && (was.i >= 0 ==> was.i - 2 <= now.i <= was.i + 2)
  {
    var was := TemplateAt(s, e, seed, t);
    var next := CurrentCountAdvance(was.i as real, e.tape, e.at(t)).value;
    assert TemplateAt(s, e, seed, t + 1) == Written(was, next, s.precision);
    RoundMonotone(0.0, next);
    if was.i >= 0 {
      RoundMonotone(next, (was.i + 2) as real);
      RoundMonotone((was.i - 2) as real, next);
      RoundInteger(was.i + 2);
      RoundInteger(was.i - 2);
    }
  }

  lemma {:induction false} CountTemplateNotNegative(s: Series, e: Surroundings, seed: NumberValue, t: nat)
    requires CurrentCountSeries(s) && seed.IntValue?
    ensures TemplateAt(s, e, seed, t).IntValue? && (t > 0 ==> TemplateAt(s, e, seed, t).i >= 0)
  {
    if t > 0 {
      CountTemplateNotNegative(s, e, seed, t - 1);
      CountTemplateStep(s, e, seed, t - 1);
    }
  }

  lemma RoundThree(noise: real)
    requires -1.0 <= noise <= 1.0
    ensures -3 <= Round(3.0 * noise) <= 3
  {
  }

  lemma PositiveModBounds(v: int, m: int)
    requires m > 0
    ensures 0 <= PositiveMod(v, m) < m
  {
    DivisionIdentity(v, m);
    DivisionIdentity(-v, m);
  }

  /** An instance's offset: a fixed part in -2 .. 2 and a slow part in -3 .. 3. */
  lemma CountOffsetBounds(identityHash: bv64, instanceID: bv64, opts: VariationOptions)
    ensures -5 <= CountOffset(CurrentCountVariation(-2, 2), identityHash, instanceID, opts) <= 5
  {
    TemporalNoiseBounded(identityHash, instanceID, opts);
    var noise := TemporalNoise(identityHash, instanceID, opts);
    var fixed := SignedValue(instanceID) + (identityHash as int) % 5;
    PositiveModBounds(fixed, 5);
    RoundThree(noise);
    hide TemporalNoise, Round, PositiveMod, SignedValue;
  }

  lemma MultiplierSpan(current: real, unit: real)
    requires current >= 0.0 && 0.0 <= unit < 1.0
    ensures current <= Scaled(current, StableMultiplier(1.0, 2.0, unit)) <= current + current
  {
    var m := StableMultiplier(1.0, 2.0, unit);
    assert 1.0 <= m <= 2.0;
    NonNegativeProduct(current, m - 1.0);
    NonNegativeProduct(current, 2.0 - m);
  }

  /** A count's copy lies between the count less 5 and twice the count plus 5, and never below 0. */
  lemma CountCopyBounds(current: real, identityHash: bv64, instanceID: bv64, opts: VariationOptions)
    requires current >= 0.0
    ensures var copy := CurrentCountValue(CurrentCountVariation(-2, 2), current, identityHash, instanceID, opts);
            0.0 <= copy && current - 5.0 <= copy <= current + current + 5.0
  {
    CountOffsetBounds(identityHash, instanceID, opts);
    var unit := InstanceUnit(identityHash, instanceID);
    hide InstanceUnit, CountOffset;
    MultiplierSpan(current, unit);
  }

  /** Writing a value between two integer bounds keeps it between them. */
  lemma WrittenCountBounds(value: real, low: int, high: int)
    requires low as real <= value <= high as real && high >= 0
    ensures low <= MaxInt(0, Round(value)) <= high
  {
    RoundMonotone(low as real, value);
    RoundMonotone(value, high as real);
    RoundInteger(low);
    RoundInteger(high);
    hide Round;
  }

  lemma EmittedCount(s: Series, e: Surroundings, seed: NumberValue, instanceID: bv64, t: nat)
    requires e.Valid() && CurrentCountSeries(s) && TemplateAt(s, e, seed, t + 1).IntValue?
    ensures var shared := TemplateAt(s, e, seed, t + 1);
            var value := CurrentCountValue(CurrentCountVariation(-2, 2), shared.i as real, s.identityHash, instanceID,
                                           OptionsAt(e, t));
            EmittedAt(s, e, seed, instanceID, t) == IntValue(MaxInt(0, Round(value)))
  {
    hide TemplateAt, CurrentCountValue, Round, OptionsAt;
  }

  /** Every instance of an integer current count emits an integer that is never negative and
      stays within the offset of one to two times the shared count, at every tick. */
  lemma CountsStayCounts(s: Series, e: Surroundings, seed: NumberValue, instanceID: bv64, t: nat)
    requires e.Valid() && CurrentCountSeries(s) && seed.IntValue?
    ensures var shared, copy := TemplateAt(s, e, seed, t + 1), EmittedAt(s, e, seed, instanceID, t);
            shared.IntValue? && copy.IntValue? && 0 <= copy.i && shared.i - 5 <= copy.i <= 2 * shared.i + 5
  {
    CountTemplateNotNegative(s, e, seed, t + 1);
    EmittedCount(s, e, seed, instanceID, t);
    var n, opts := TemplateAt(s, e, seed, t + 1).i, OptionsAt(e, t);
    hide *;
    CountCopyBounds(n as real, s.identityHash, instanceID, opts);
    var value := CurrentCountValue(CurrentCountVariation(-2, 2), n as real, s.identityHash, instanceID, opts);
    WrittenCountBounds(value, n - 5, 2 * n + 5);
    WrittenCountBounds(value, 0, 2 * n + 5);
  }

  lemma WholeGap(d: int)
    requires Abs(d as real) < 2.0
    ensures Abs(d as real) <= 1.0
  {
  }

  lemma RoundedNoiseGap(was: real, now: real, intervals: real)
    requires Abs(now - was) <= 0.3 * intervals
    ensures var gap := Abs(Round(3.0 * now) as real - Round(3.0 * was) as real);
            gap <= 0.9 * intervals + 1.0 && (intervals <= 1.0 ==> gap <= 1.0)
  {
    var i, j := Round(3.0 * was), Round(3.0 * now);
    RoundGap(3.0 * was, 3.0 * now);
    hide Round;
    assert Abs(3.0 * now - 3.0 * was) == 3.0 * Abs(now - was);
    assert j as real - i as real == (j - i) as real;
    if intervals <= 1.0 {
      WholeGap(j - i);
    }
  }

  lemma OffsetDifference(identityHash: bv64, instanceID: bv64, opts1: VariationOptions, opts2: VariationOptions)
    ensures CountOffset(CurrentCountVariation(-2, 2), identityHash, instanceID, opts2)
         - CountOffset(CurrentCountVariation(-2, 2), identityHash, instanceID, opts1)
         == Round(3.0 * TemporalNoise(identityHash, instanceID, opts2))
         - Round(3.0 * TemporalNoise(identityHash, instanceID, opts1))
  {
    hide TemporalNoise, Round, PositiveMod, SignedValue;
  }

  /** However far apart the two times, an instance's offset moves at most 0.9 per interval and
      one for rounding; from one tick to the next, at most 1. */
  lemma CountOffsetIsSmooth(identityHash: bv64, instanceID: bv64, opts1: VariationOptions, opts2: VariationOptions)
    requires Later(opts1, opts2)
    ensures var gap := Abs(CountOffset(CurrentCountVariation(-2, 2), identityHash, instanceID, opts2) as real
                           - CountOffset(CurrentCountVariation(-2, 2), identityHash, instanceID, opts1) as real);
            && gap <= 0.9 * Intervals(opts1, opts2) + 1.0
            && (Intervals(opts1, opts2) <= 1.0 ==> gap <= 1.0)
  {
    hide TemporalNoise, Round, CountOffset;
    TemporalNoiseIsSmooth(identityHash, instanceID, opts1, opts2);
    OffsetDifference(identityHash, instanceID, opts1, opts2);
    RoundedNoiseGap(TemporalNoise(identityHash, instanceID, opts1), TemporalNoise(identityHash, instanceID, opts2),
                    Intervals(opts1, opts2));
  }
}
