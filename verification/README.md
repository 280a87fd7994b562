# Verified model of the metrics generator

A Dafny model of `metricsgenreceiver`: a shared metrics template takes random steps every
tick, each simulated instance emits a hash-varied copy of it, and a churn scheduler retires
and replaces instances. The receiver promises invariants over whole runs (exact sample
counts, counters that never fall, gauges that stay in range, histograms that stay
consistent); here they are stated for every run, every seed and every interleaving.

Verify with `dafny verify dfyconfig.toml`.

## How the model is laid out

| modules | source | subject |
|---|---|---|
| `Numbers`, `Random` | Go's `math`, `math/rand` | rounding, truncated division, the tape of draws |
| `Config`, `ChurnSchedule`, `Churn`, `Emit`, `ChurnRun` | `config.go`, `receiver.go` | validation, the reduced rate, slots, emission in order or by workers, the tick loop over all scenarios |
| `Hash`, `SeriesKey`, `KeyText`, `SeriesLimits`, `Instances` | `series_hash.go`, `instance_variation.go` | the 64-bit mixer, the canonical text of a series, which strings it can hold, what every hashed draw depends on |
| `Metrics`, `Advance`, `Steps`, `DeltaRuns`, `Noise`, `Variation`, `Copies`, `CounterRuns`, `CounterLimits`, `GaugeRuns`, `CountRuns`, `Precision` | `distribution.go`, `generation_hints.go`, `instance_variation.go` | the two-stage pipeline of number points |
| `Buckets`, `Randomize`, `Replay`, `Edges`, `Expo`, `ExpoMerge`, `EdgeRuns`, `ExpoVariation`, `ExpoLimits` | `expohistogen.go`, `instance_variation.go` | exponential histograms |
| `Hints` | `metricstmpl/generation_hints.go` | extraction of generation hints |
| `Traversal`, `Plans`, `Pipeline`, `Workers` | `dp/datapoint.go`, `receiver.go` | numbering, cached plans, what a worker emits over a run, concurrent emission |

Modelling choices:

- Floats are exact reals; `math.Round`, decimal rounding, truncating `/` and `%` are written out.
- A random source is an arbitrary tape read front to back, so a theorem about all tapes is
  one about all seeds. Positions between ticks are arbitrary, because other points draw too.
- `sin` and `pi` are parameters: `sin` is 1-Lipschitz, `pi` is positive (`TrigExists`). `2^x` is
  a parameter: positive, strictly increasing, 1 at 0, and `2^(x+1) = 2 * 2^x` (`Exp2Exists`). That the
  sine alternates is assumed by one theorem only (`AlternatingTrigExists`).
- Integers and bytes are spelled as `FormatInt` and `EncodeToString` do. The spelling of a float64
  bit pattern that is a number is a parameter: injective, not `NaN`, free of the key's delimiters
  (`SpellingExists`); all NaN patterns are spelled alike. A seed stands for the decimal
  that spells it, not for its binary value; its number of decimals is a parameter, the least that
  spells it (`PlacesExist`). The named lemmas construct such parameters.
- `go-expohisto` is represented by the updates it received, read out at whatever scale it
  settles on. Buckets are upper-inclusive, as in the section "ExponentialHistogram" of the
  OpenTelemetry Metrics Data Model; a value is kept as its base-2 exponent.
- Instance ids are 64-bit patterns where they are hashed, integers where they are scheduled.
- Rendering a resource is an arbitrary function of the raw id that may fail; a raw id is
  rendered at most once in a run, so this loses nothing.
- Preconditions the source leaves implicit: no overflow outside the mixer, histogram scale
  not negative where `1 << scale` is computed, a start time not before the zero `time.Time`.

What turned out not to hold, each with the condition under which it does:

- counters without a hint never fall exactly when the deltas have no spread
  (`UnhintedNeverFallsExactlyWhen`; a run with the defaults in `UnhintedCounterCanDecrease`);
- hinted counters with a negative float seed fall on some tape exactly when the rate wave lifts the
  instance and the steps can add up to the seed; without spread no draw matters to a steady counter,
  and it falls exactly when the seed is -(k + 2) medians for some tick k in which the copy of minus one
  median is written above 0 (`HintedNeverFallsExactlyWhen`, `SteadyNeverFallsExactlyWhen`; falling
  runs in `NegativeSeedFalls` and, for every instance that is lifted, `SteadySeedFalls`);
- a merge from scale s to scale c leaves every instance's Count at least as large exactly when c is s,
  and so for the Sum of positive data when c is at most s (`KeepsCountExactlyWhen`,
  `KeepsSumExactlyWhen`): a new scale gives a bucket a new index, hence a new multiplier. One far
  observation that forces a coarser scale takes a copy's Count from at least 812 to 801
  (`CoarserMergeLosesCount`); `EmittedCountKeepsUp` bounds what can be lost;
- an unhinted gauge outside [0, 1] stays outside exactly when it is not rounded or its steps have
  no spread (`OutsideGaugeStaysOutsideExactlyWhen`; an entering draw in `OutsideGaugeCanEnter`);
- the text of a series identifies it exactly when names may hold no `|`, keys no `:` or `}`, and
  strings none of `,`, `}`, `]` and `|` (`IdentifiesExactlyWhen`);
- a clock keeps time exactly when the interval is a whole number of seconds, for an integer, or on the
  grid of its decimals, for a float (`ClockKeepsTimeExactlyWhen`);
- a generated template's Count is its number of observations exactly when the sample's zero bucket is
  empty (`GenerateInto`; five zeros that are left out in `ZerosAreOmitted`);
- the retry loop ends exactly when some count is 2 or more or a lucky draw comes
  (`RandomizeBuckets`, `NoPassSucceedsOtherwise`);
- a tick's count is exact exactly when no sequential scenario follows a busy concurrent one
  (`TickCountIsExact`).

The README of the repository says the default `std_dev` is 5 and
`std_dev_gauge_pct` 0.05; the code uses 1.0 and 0.01, and the model takes both as parameters. It also
says (README.md:19) that histograms are randomized per instance; exponential ones get a deterministic
copy in the code, and so in the model.

## Model

| member | source | states |
|---|---|---|
| `Config.Validate` | metricsgenreceiver/config.go:117-166 | no error exactly when times and every scenario are valid: scale a multiple of concurrency, and one churn mode with a usable value; otherwise the error names something that is wrong |
| `Config.ValidateScenario` | metricsgenreceiver/config.go:134-164 | the scenario checks, in order, accept exactly the valid scenarios, and an error names what is wrong with this one |
| `Config.GcdInt64` | metricsgenreceiver/config.go:80-85 | on any two integers: terminates with a common divisor that every common divisor divides, positive for positive input |
| `Config.ReduceChurnRate` | metricsgenreceiver/config.go:67-78 | the same fraction in lowest terms, or the disabled rate for non-positive input |
| `Config.NewChurnRate` | metricsgenreceiver/config.go:56-65 | the reduced form of scale per samples_per_series, else of scale*interval per lifetime |
| `ChurnSchedule.AccumulatorStep` | metricsgenreceiver/receiver.go:335-345 | one tick advances the total to floor((n+1)*rate) and leaves the exact residue |
| `ChurnSchedule.ReducedRateIsExact` | metricsgenreceiver/config.go:72-77 | after n ticks the reduced rate has made floor(n*replacements/intervals) of the unreduced rate, its remainder the unreduced residue scaled |
| `ChurnSchedule.LiveBetweenBirthAndRetirement` | metricsgenreceiver/receiver.go:214-245 | an id is live at tick t exactly between its birth and retirement ticks, given as ceilings of the rate |
| `ChurnSchedule.LiveTicksClosedForm` | metricsgenreceiver/receiver.go:214-245 | the number of ticks an id is live within any run length |
| `ChurnSchedule.SamplesPerSeriesIsExact` | README.md:158-160 | every new instance is live for exactly k ticks; initial instance x for ceil((x+1)k/scale), at most k |
| `ChurnSchedule.LifetimeIsWithinOneTick` | README.md:161-164 | every new instance is live for floor or ceiling of lifetime/interval ticks |
| `ChurnSchedule.AtMostScalePerTick` | metricsgenreceiver/receiver.go:310-333 | no tick replaces more than scale slots, so none twice |
| `ChurnSchedule.ValidRateIsBounded` | metricsgenreceiver/config.go:143-163 | validated churn meets the bound the previous row needs, in both modes |
| `Churn.Scenario.constructor` | metricsgenreceiver/receiver.go:164-187 | initial slots, ids from the offset on, next id the scale |
| `Churn.Scenario.ConsumeNextChurnCount` | metricsgenreceiver/receiver.go:335-345 | count*intervals + new remainder = old remainder + replacements, remainder in [0, intervals) |
| `Churn.Scenario.ApplyChurn` | metricsgenreceiver/receiver.go:310-333 | the slots become the old ones with the due raw ids handled in order, failed renderings skipped |
| `Churn.ReplaceInTwoParts` | metricsgenreceiver/receiver.go:319-331 | replacing m then n ids is replacing m+n |
| `Churn.SlotHoldsLatest` | metricsgenreceiver/receiver.go:319-331 | with failing renderings slot j holds the latest handled id congruent to j that was initial or rendered, with that id's own resource |
| `Churn.SlotIdsDistinct` | metricsgenreceiver/receiver.go:319-331 | slot ids never repeat, whether or not rendering fails |
| `Churn.LiveSet` | metricsgenreceiver/receiver.go:319-331 | without failures slot j holds x exactly when m <= x < m + scale and x is congruent to j |
| `Churn.ReplacementEvictsOldest` | README.md:155 | each replacement evicts the oldest live id, its successor by scale takes the slot, all else stays |
| `Emit.AddJitter` | metricsgenreceiver/receiver.go:299-308 | the jittered time stays inside the tick; it is the truncated draw capped at interval - 1 |
| `Emit.EmitByWorkers` | metricsgenreceiver/receiver.go:372-384 | in any interleaving of the workers, each with its own source, every slot's id is emitted once, with its resource, inside the tick |
| `Emit.ProduceMetrics` | metricsgenreceiver/receiver.go:365-384 | a scenario's part of a tick: every slot's id once, with its resource, inside the tick; in slot order without workers |
| `ChurnRun.ChurnTick` | metricsgenreceiver/receiver.go:310-345 | churn moves a scenario from the slots of the exact schedule in one tick to those of the next |
| `ChurnRun.Tick` | metricsgenreceiver/receiver.go:228-229 | all scenarios emit the ids due in this tick, then all move to the next tick's slots |
| `ChurnRun.Run` | metricsgenreceiver/receiver.go:213-239 | over [start, end), for every scenario: the number of ticks, each id's emission count, strictly increasing times per id, one and the same resource per id, the final slots |
| `ChurnRun.SlotTicksAreLiveTicks` | metricsgenreceiver/receiver.go:213-239 | counting an id in the slots over a run is counting the ticks it is live |
| `ChurnRun.SamplesOf` | README.md:153-164 | the exact number of an id's samples within any run, in every mode, from the unreduced rate; hence no more than k, exactly k for a new series that is over, and floor or ceiling of lifetime/interval |
| `ChurnRun.Simulate` | metricsgenreceiver/receiver.go:164-245 | from validated scenarios, sequential or concurrent, to one log each: every id, initial, new or still live at the end, has exactly that number of samples, all with its own resource; a scenario of scale 0 emits nothing |
| `Hash.MixIsBijectiveInInstance` | metricsgenreceiver/internal/distribution/series_hash.go:29-35 | for a fixed identity hash, mixing has an explicit two-sided inverse in the instance id |
| `Hash.MixIsBijectiveInIdentity` | metricsgenreceiver/internal/distribution/series_hash.go:29-35 | for a fixed instance id, mixing has an explicit two-sided inverse in the identity hash |
| `Hash.MixedHashesAreDistinct` | metricsgenreceiver/internal/distribution/series_hash.go:29-35 | distinct instances never share a mixed hash, nor distinct identity hashes |
| `Hash.OddMultipliersInvert` | metricsgenreceiver/internal/distribution/series_hash.go:30-32 | both multipliers are undone by their inverses modulo 2^64 |
| `Hash.XorShiftIsInvolution` | metricsgenreceiver/internal/distribution/series_hash.go:31-33 | the 33-bit xor-shift undoes itself |
| `Hash.UnitOf` | metricsgenreceiver/internal/distribution/series_hash.go:39-41 | the projection lands in [0, 1) |
| `Hash.UnitIntervalMonotone` | metricsgenreceiver/internal/distribution/series_hash.go:39-41 | the projection is monotone |
| `Hash.SaltSeparates` | metricsgenreceiver/internal/distribution/series_hash.go:29-41 | two different inputs, shifted by some one salt, mix and project to different numbers |
| `Hash.MultiplierIsAffine` | metricsgenreceiver/internal/distribution/instance_variation.go:248-250 | the bounds of a multiplier belong to the units 0 and 1, and it grows evenly between them |
| `Instances.KnownAnswers` | metricsgenreceiver/internal/distribution/series_hash.go:29-41 | the mixer and the projection on known inputs |
| `Instances.DrawsAreKeyed` | metricsgenreceiver/internal/distribution/instance_variation.go:314-320 | the noise of a bucket of time, the phase, and the count and sum of a histogram bucket are each drawn from the mixer under a key of their own |
| `Instances.NoiseDiffers` | metricsgenreceiver/internal/distribution/instance_variation.go:314-316 | two buckets of time, or two instances in one, have different noise in some series |
| `Instances.PhasesDiffer` | metricsgenreceiver/internal/distribution/instance_variation.go:281-283 | two instances' phases differ in some series, and a phase is not the instance's unit |
| `Instances.BucketsDiffer` | metricsgenreceiver/internal/distribution/instance_variation.go:386-392 | two buckets, or two instances in one, have different multipliers, and different fractions, in some series |
| `Instances.SidesDiffer` | metricsgenreceiver/internal/distribution/instance_variation.go:363-364 | the two sides of a histogram draw different multipliers |
| `SeriesKey.Sort` | metricsgenreceiver/internal/distribution/series_hash.go:112 | a sorted arrangement of the same keys |
| `SeriesKey.SortedIsUnique` | metricsgenreceiver/internal/distribution/series_hash.go:106-114 | there is only one sorted arrangement |
| `SeriesKey.SortedMapKeys` | metricsgenreceiver/internal/distribution/series_hash.go:106-114 | fills in insertion order and sorts |
| `SeriesKey.AppendValueKey` | metricsgenreceiver/internal/distribution/series_hash.go:59-104 | the recursive writer appends exactly the value's key |
| `SeriesKey.AppendMapKey` | metricsgenreceiver/internal/distribution/series_hash.go:78-90 | nested maps: sorted keys, commas between, braces around |
| `SeriesKey.AppendSliceKey` | metricsgenreceiver/internal/distribution/series_hash.go:91-100 | slices: items in order, commas between, brackets around |
| `SeriesKey.AppendAttributesKey` | metricsgenreceiver/internal/distribution/series_hash.go:49-57 | one tagged entry per sorted attribute |
| `SeriesKey.WriteIdentity` | metricsgenreceiver/internal/distribution/series_hash.go:17-24 | the text that IdentityHash hashes |
| `SeriesKey.SameValueSameKey` | metricsgenreceiver/internal/distribution/series_hash.go:59-104 | values equal as maps at every depth have one key, whatever the insertion order |
| `SeriesKey.FormatIntInjective` | metricsgenreceiver/internal/distribution/series_hash.go:66-68 | different integers are spelled differently |
| `SeriesKey.EncodeInjective` | metricsgenreceiver/internal/distribution/series_hash.go:75-77 | different byte strings are spelled differently |
| `SeriesKey.KeyDeterminesValue` | metricsgenreceiver/internal/distribution/series_hash.go:59-104 | clean values with equal text, read from the left before any closing text, are equal as maps |
| `SeriesKey.KeyIsCanonical` | metricsgenreceiver/internal/distribution/series_hash.go:59-104 | for clean values: equal keys if and only if equal values, slices order-sensitive |
| `SeriesKey.IdentityIsCanonical` | metricsgenreceiver/internal/distribution/series_hash.go:14-24 | two series have the same identity text if and only if names agree and attributes agree as maps |
| `SeriesKey.DelimitersCollide` | metricsgenreceiver/internal/distribution/series_hash.go:91-100 | a string holding a delimiter makes two different values print alike |
| `KeyText.FormatIntReads` | metricsgenreceiver/internal/distribution/series_hash.go:66-68 | the decimal spelling of an integer reads back as the integer |
| `KeyText.EncodeReads` | metricsgenreceiver/internal/distribution/series_hash.go:75-77 | the hexadecimal spelling of bytes reads back byte by byte |
| `KeyText.KeysAreCompared` | metricsgenreceiver/internal/distribution/series_hash.go:106-114 | one key sorts before another exactly when at their first difference it ends or has the smaller character |
| `KeyText.AttributesSpelled` | metricsgenreceiver/internal/distribution/series_hash.go:17-57 | a series of two attributes, inserted out of order, spelled out |
| `KeyText.MapSpelled` | metricsgenreceiver/internal/distribution/series_hash.go:78-90 | a nested map of two entries, inserted out of order, spelled out |
| `SeriesLimits.IdentifiesExactlyWhen` | metricsgenreceiver/internal/distribution/series_hash.go:14-24 | with all other characters allowed: no two different series share an identity text if and only if names may hold no bar, keys no colon or closing brace, strings no closing character; allowing any one of them gives a collision |
| `Noise.TruncationCorrected` | metricsgenreceiver/internal/distribution/instance_variation.go:301-308 | correcting the truncated bucket and fraction gives floor division, for negative times too |
| `Noise.TemporalNoiseIsInterpolation` | metricsgenreceiver/internal/distribution/instance_variation.go:293-312 | the noise is smooth interpolation between bucket hashes |
| `Noise.TemporalNoiseBounded` | metricsgenreceiver/internal/distribution/instance_variation.go:293-312 | within [-1, 1], and the bucket's own hash at a boundary |
| `Noise.SmoothstepSlope` | metricsgenreceiver/internal/distribution/instance_variation.go:322-324 | the slope of smoothstep is between 0 and 3/2 |
| `Noise.NoiseIsSmooth` | metricsgenreceiver/internal/distribution/instance_variation.go:293-328 | change bounded by 3 times elapsed over bucket length, across any number of buckets |
| `Noise.TemporalNoiseIsSmooth` | metricsgenreceiver/internal/distribution/instance_variation.go:293-328 | noise moves at most 0.3 per interval |
| `Copies.TemporalNoiseIsFlat` | metricsgenreceiver/internal/distribution/instance_variation.go:293-328 | in each bucket of ten intervals the noise leaves its own draw, and meets the next bucket's, no faster than six times the square of the fraction |
| `Copies.WaveOverAPeriod` | metricsgenreceiver/internal/distribution/instance_variation.go:286-291 | for a sine that alternates: over ten intervals the wave gains ten, less twice its swing at the sine of where it stands; over twenty, twenty |
| `Copies.OffsetRate` | metricsgenreceiver/internal/distribution/instance_variation.go:273-284 | per interval an instance's offset grows by 0.04 to 0.36 of its unit times the median |
| `Noise.WaveStep` | metricsgenreceiver/internal/distribution/instance_variation.go:286-291 | over d intervals the wave rises by between 0.2 d and 1.8 d |
| `Noise.OffsetMonotone` | metricsgenreceiver/internal/distribution/instance_variation.go:273-284 | an instance's rate offset is never negative and never falls |
| `Advance.AdvanceDataPoint` | metricsgenreceiver/internal/distribution/distribution.go:67-104 | the in-place step writes the value, and takes the draws, of the functional step, hinted or not; the rows of `Steps` and `DeltaRuns` say what that step does to each kind of point |
| `Advance.DrawHint` | metricsgenreceiver/internal/distribution/generation_hints.go:80-86 | strategy dispatch with each strategy's draws in order |
| `Advance.DrawCurrentCount` | metricsgenreceiver/internal/distribution/generation_hints.go:113-124 | steps of 0, 1 or 2 with their draws, floored at 0 |
| `Advance.DrawSlowGauge` | metricsgenreceiver/internal/distribution/generation_hints.go:128-135 | the scaled step, reflected when the current value is in [0, 1] |
| `Advance.DrawSparseCounter` | metricsgenreceiver/internal/distribution/generation_hints.go:139-148 | one draw, and a second one only in a step |
| `Advance.DrawInt` | metricsgenreceiver/internal/distribution/distribution.go:139-147 | the draws and result of the integer step that the next row and the counter theorems are about |
| `Advance.AdvanceIntRounds` | metricsgenreceiver/internal/distribution/distribution.go:139-147 | an integer step is never negative, less than 1 from the float step and equal to it when that is whole; it goes up only for draws below the fraction and down only for others |
| `DeltaRuns.DeltaIgnoresValue` | metricsgenreceiver/internal/distribution/distribution.go:149-161 | a delta sum, unhinted or a hinted counter, takes a step that does not depend on the value it holds |
| `DeltaRuns.DeltaRunIsMemoryless` | README.md:106-107 | over a run every tick of a delta sum stores the worth of its own draws, median and deviation, rounded to the grid or to a neighbouring integer, whatever the seed and the ticks before |
| `DeltaRuns.CumulativeIsSumOfDeltas` | metricsgenreceiver/internal/distribution/generation_hints.go:139-175 | a hinted cumulative counter, integer or on-grid double, is at every tick exactly the seed plus the deltas of the same draws |
| `Steps.UnhintedAccumulates` | metricsgenreceiver/internal/distribution/distribution.go:94-161 | any sum that is not a delta, and any integer, moves by the draw times std_dev, plus the median for monotonic sums only, and is kept positive |
| `Steps.UnitGaugeMoves` | metricsgenreceiver/internal/distribution/distribution.go:76-80 | a float gauge in [0, 1] moves by the draw times std_dev_gauge_pct, reflected at the ends |
| `Steps.OutsideGaugeMoves` | metricsgenreceiver/internal/distribution/distribution.go:79-90 | any other float gauge moves by the draw times std_dev; landing in [0, 1] it is moved by 1 to the nearer side outside |
| `Steps.SlowGaugeMoves` | metricsgenreceiver/internal/distribution/generation_hints.go:128-135 | a slow gauge moves by the draw times a fifth of std_dev, or half a percent of its size if that is more |
| `Steps.CountMoves` | metricsgenreceiver/internal/distribution/generation_hints.go:113-124 | a count stays for seven draws in ten, moves by 1 for two and by 2 for one, up or down by the second draw, never below 0 |
| `Steps.ConstantStays` | metricsgenreceiver/internal/distribution/generation_hints.go:16-18 | every instance emits a constant's first value for ever, the seed itself unless that is a negative integer |
| `Steps.BinaryNeverFlips` | metricsgenreceiver/internal/distribution/generation_hints.go:29-31 | every instance emits 0 or 1 and never flips; 1 if and only if the seed is at least one half |
| `Steps.ClockAdvances` | metricsgenreceiver/internal/distribution/generation_hints.go:99-103 | over a run a clock advances by equal steps, the stored seconds of the interval, whatever the tape |
| `Steps.ClockKeepsTimeExactlyWhen` | metricsgenreceiver/internal/distribution/generation_hints.go:14-16 | every emission is the seed and the seconds elapsed, if and only if the interval's seconds fit the point's number type and grid |
| `Variation.ApplyNumberTo` | metricsgenreceiver/internal/distribution/instance_variation.go:190-240 | the in-place copy is the functional one, including the zero early return; the rows of `Copies` give it in closed form |
| `Copies.CopiesByKind` | metricsgenreceiver/internal/distribution/instance_variation.go:142-203 | which points are varied as gauges, sums, cumulative counters and counts, each written in its own number type |
| `Copies.GaugeCopyIs` | metricsgenreceiver/internal/distribution/instance_variation.go:211-220 | a gauge's copy is (1 + unit) times the baseline times 1 +- 0.08 of the noise in [0, 1], reflected, or 1 to 1.08 outside; 0 for a negative baseline |
| `Copies.SumCopyIs` | metricsgenreceiver/internal/distribution/instance_variation.go:211-220 | the copy of a sum that is no cumulative counter is (0.9 + 0.2 unit) times the value times the factor of the moment, never reflected |
| `Copies.CounterCopyIs` | metricsgenreceiver/internal/distribution/instance_variation.go:205-209 | a cumulative counter's copy is (0.9 + 0.2 unit) times the value plus its offset, not below 0 |
| `Copies.CountCopyIs` | metricsgenreceiver/internal/distribution/instance_variation.go:227-240 | a count's copy is (1 + unit) times the count plus three times the noise, rounded, and a fixed part that runs through -2 .. 2 with the instance id |
| `Copies.GaugesInRatio` | metricsgenreceiver/internal/distribution/instance_variation.go:242-250 | two instances scale a gauge above 1 in the ratio of (1 + unit) at equal noise |
| `Copies.DifferentUnitsDifferentCopies` | README.md:115 | instances with different units start a counter, and vary a gauge at equal noise, differently |
| `Copies.InstancesDiffer` | README.md:18 | any two instances have different units in some series |
| `Copies.SeriesDiffer` | README.md:18 | any two series have different units for some instance |
| `CounterRuns.CounterTemplateGrows` | metricsgenreceiver/internal/distribution/generation_hints.go:139-164 | the template of a hinted cumulative counter never falls and stays on its grid |
| `CounterRuns.CounterEmissionMonotone` | metricsgenreceiver/internal/distribution/instance_variation.go:190-209 | multiplier, wave, clamp and write preserve the order of template states |
| `CounterRuns.CopiesInOrder` | metricsgenreceiver/internal/distribution/instance_variation.go:190-209 | copies of template values that are not negative come out in the order of the values, through the zero early return |
| `CounterRuns.CountersNeverDecrease` | metricsgenreceiver/receiver.go:352-354 | every instance of a hinted cumulative monotonic counter emits values that never decrease, over any run and tape |
| `CounterLimits.UnhintedWithoutSpread` | metricsgenreceiver/internal/distribution/distribution.go:139-161 | without spread an unhinted counter, integer or on-grid double, adds the median every tick |
| `CounterLimits.UnhintedNeverFallsExactlyWhen` | metricsgenreceiver/internal/distribution/distribution.go:149-161 | for any seed, median and instance: emitted values of an unhinted cumulative counter never fall on any tape if and only if std_dev is 0 |
| `CounterLimits.UnhintedCounterCanDecrease` | metricsgenreceiver/internal/distribution/distribution.go:15-19 | with the default distribution, a run in which an unhinted counter falls, for every instance |
| `CounterLimits.LiftedCopy` | metricsgenreceiver/internal/distribution/instance_variation.go:205-209 | however negative the template, the wave lifts its copy to at least 1 after enough ticks |
| `CounterLimits.NegativeSeedFalls` | metricsgenreceiver/internal/distribution/generation_hints.go:139-164 | a tape on which a hinted counter with a negative seed falls |
| `CounterLimits.HintedNeverFallsExactlyWhen` | metricsgenreceiver/internal/distribution/instance_variation.go:190-209 | for hinted counters of every kind and seeds of any sign: never falling on any tape if and only if not (negative float seed, and the instance lifted and std_dev not 0 or a whole seed; or, for a steady counter with std_dev 0, the condition of the next row) |
| `CounterLimits.SteadyNeverFallsExactlyWhen` | metricsgenreceiver/internal/distribution/generation_hints.go:159-164 | a steady counter without spread falls if and only if its seed is -(k + 2) medians and the instance's copy of minus one median in tick k, multiplier and wave together, is at least half the last decimal kept (above 0 without one) |
| `CounterLimits.SteadySeedFalls` | metricsgenreceiver/internal/distribution/generation_hints.go:159-164 | every instance that the wave lifts has such a seed, on the grid, and a tick after which its emission falls |
| `GaugeRuns.BounceIsDistanceToEven` | metricsgenreceiver/internal/distribution/distribution.go:130-137 | bouncing is the distance to the nearest even integer, hence in [0, 1] |
| `GaugeRuns.BounceIdentity` | metricsgenreceiver/internal/distribution/distribution.go:130-137 | the identity on [0, 1] |
| `GaugeRuns.BounceIsLipschitz` | metricsgenreceiver/internal/distribution/distribution.go:130-137 | never moves two values apart |
| `GaugeRuns.UnitGaugeStays` | metricsgenreceiver/internal/distribution/distribution.go:76-79 | a gauge that is in [0, 1] in one tick, however it got there, is in every later one |
| `GaugeRuns.UnitGaugeStaysInRange` | README.md:100 | a gauge seeded in [0, 1] stays there at every tick, in the template and in every copy, after rounding |
| `GaugeRuns.OutsideGaugeEntersExactlyWhen` | metricsgenreceiver/internal/distribution/distribution.go:76-97 | a gauge outside [0, 1] enters it, at 1, if and only if a precision is set and its draw lands above 1 by less than half the last decimal; a draw landing in [0, 1] is pushed out for good |
| `GaugeRuns.OutsideGaugeCanEnter` | metricsgenreceiver/internal/distribution/distribution.go:76-97 | an entering draw: from 2 by -0.8 with no decimals |
| `GaugeRuns.OutsideUntilLanding` | metricsgenreceiver/internal/distribution/distribution.go:76-97 | over a run with any precision: outside up to tick n if and only if no draw before landed just above 1 |
| `GaugeRuns.OutsideGaugeStaysOutsideExactlyWhen` | metricsgenreceiver/internal/distribution/distribution.go:76-97 | seeded outside on its grid, it stays outside on every tape if and only if it has no precision or std_dev is 0 |
| `GaugeRuns.OutsideGaugeScalesUp` | metricsgenreceiver/internal/distribution/instance_variation.go:211-220 | a baseline above 1 is never scaled below itself |
| `GaugeRuns.OutsideGaugeWritten` | metricsgenreceiver/internal/distribution/instance_variation.go:211-246 | what is written for an on-grid baseline above 1, rounded, is at least the baseline |
| `GaugeRuns.GaugeCopyIsSmooth` | metricsgenreceiver/internal/distribution/instance_variation.go:211-220 | between any two times the copy of a fixed baseline moves at most 4.8% of it per interval, through multiplier, clamp and reflection |
| `GaugeRuns.GaugeCopyPerTick` | metricsgenreceiver/internal/distribution/instance_variation.go:211-220 | from one tick to the next the written copy moves at most 4.8% of the baseline and one unit of its last place |
| `CountRuns.CountTemplateStep` | metricsgenreceiver/internal/distribution/generation_hints.go:111-124 | a tick moves an integer count by at most 2, never below 0 |
| `CountRuns.CountCopyBounds` | metricsgenreceiver/internal/distribution/instance_variation.go:227-240 | a copy lies between the count less 5 and twice the count plus 5, never below 0 |
| `CountRuns.CountOffsetIsSmooth` | metricsgenreceiver/internal/distribution/instance_variation.go:227-240 | an instance's offset moves at most 0.9 per interval and one for rounding, and at most 1 from one tick to the next |
| `CountRuns.CountsStayCounts` | metricsgenreceiver/internal/distribution/generation_hints.go:20-22 | over any run every instance emits a non-negative integer within those bounds of the shared count |
| `Precision.InferPrecision` | metricsgenreceiver/internal/distribution/distribution.go:34-51 | exactly the metrics with a non-zero double get a precision, the greatest of their points' |
| `Precision.SeedsFitTheirPrecision` | metricsgenreceiver/internal/distribution/distribution.go:34-60 | every decimal seed is on the grid inferred for its metric |
| `Precision.InferCoarsestGrid` | metricsgenreceiver/internal/distribution/distribution.go:34-60 | d decimals hold all counted seeds of a metric if and only if d is at least the inferred precision |
| `Precision.FloatIsDecimal` | metricsgenreceiver/internal/distribution/distribution.go:53-60 | the exact value of a finite float64 is a decimal fraction too; its places are not those of the decimal that spells it, which is what decimalPlaces counts and a seed stands for here |
| `Randomize.Pass` | metricsgenreceiver/internal/expohistogen/expohistogen.go:257-284 | one pass writes in range, holds every contribution at its slot, and tracks the populated span |
| `Randomize.RandomizeBuckets` | metricsgenreceiver/internal/expohistogen/expohistogen.go:238-298 | the result holds the contributions at their absolute indices, trimmed to populated ends; one pass when some count is at least 2, else up to the first lucky draw |
| `Randomize.RescaledBounds` | metricsgenreceiver/internal/expohistogen/expohistogen.go:267-269 | a count changes by at most 60% and rounding, and vanishes if and only if it is 1 and the draw is below 1/12 |
| `Randomize.ContributionBounds` | metricsgenreceiver/internal/expohistogen/expohistogen.go:264-282 | each source bucket moves at most one index and keeps its count within bounds |
| `Randomize.DrawsDecide` | metricsgenreceiver/internal/expohistogen/expohistogen.go:264-281 | which draw decides a bucket's count, which its shift and in which direction, and how many draws it takes |
| `Randomize.SingleBucketMoves` | metricsgenreceiver/internal/expohistogen/expohistogen.go:255-295 | a source of one bucket stays one, scaled by 0.4 to 1.6 with the first draw and moved as the second says |
| `Randomize.RandomizedIsLocal` | metricsgenreceiver/internal/expohistogen/expohistogen.go:270-281 | whatever the result holds at an index came from a source bucket next to it |
| `Randomize.RandomizedConserves` | metricsgenreceiver/internal/expohistogen/expohistogen.go:254-295 | the result's total is the sum of contributions, within 60% and rounding of the source's |
| `Randomize.NoPassSucceedsOtherwise` | metricsgenreceiver/internal/expohistogen/expohistogen.go:255-296 | when the loop's ending condition fails, every pass is empty wherever it starts |
| `Replay.IndexIsTheBucket` | metricsgenreceiver/internal/expohistogen/expohistogen.go:164-169 | the index in log space is the one bucket with exclusive lower and inclusive upper boundary |
| `Replay.PerfectSubsetting` | metricsgenreceiver/internal/expohistogen/expohistogen.go:164-169 | an index at a coarser scale is the floor of the finer index |
| `Replay.BoundariesHitPowers` | metricsgenreceiver/internal/expohistogen/expohistogen.go:232-235 | every 2^scale-th bucket boundary is a power of two |
| `Replay.MidpointIsFaithful` | metricsgenreceiver/internal/expohistogen/expohistogen.go:164-169 | a midpoint maps back to its bucket, to its ancestor at every coarser and to a descendant at every finer scale |
| `ExpoLimits.MidpointDescends` | metricsgenreceiver/internal/expohistogen/expohistogen.go:164-169 | at a finer scale a midpoint lands in the last descendant below the middle of its bucket |
| `Replay.CoarsenedReadOut` | metricsgenreceiver/internal/expohistogen/expohistogen.go:171-199 | coarsening a read-out equals reading out coarser |
| `Replay.ReadOutConserves` | metricsgenreceiver/internal/expohistogen/expohistogen.go:192-199 | a read-out at any scale totals the updates of its sign |
| `Replay.ReplayConservesRuns` | metricsgenreceiver/internal/expohistogen/expohistogen.go:138-150 | replaying buckets then coarsening gives every coarse bucket the counts of its run |
| `Expo.RepresentativeInBucket` | metricsgenreceiver/internal/expohistogen/expohistogen.go:232-235 | a representative lies within its bucket's boundaries, on the excluded lower one only for draw 0 |
| `Expo.RandomizedBucketSummary` | metricsgenreceiver/internal/expohistogen/expohistogen.go:208-230 | the loop computes the running count, sum, min and max over the populated buckets' draws; `Expo.GenerateInto` holds them against the buckets |
| `Expo.SummaryBounds` | metricsgenreceiver/internal/expohistogen/expohistogen.go:208-230 | the summary's count is the bucket total and count*min <= sum <= count*max |
| `Expo.GeneratedWithinBuckets` | metricsgenreceiver/internal/expohistogen/expohistogen.go:208-230 | a generated Sum, Min and Max belong to the buckets written with them |
| `Expo.MixedSigns` | metricsgenreceiver/internal/expohistogen/expohistogen.go:65-77 | with buckets of both signs, Count*Min <= Sum <= Count*Max |
| `Expo.GenerateInto` | metricsgenreceiver/internal/expohistogen/expohistogen.go:47-82 | the delta has the drawn sample's scale and zero count and randomized sides; held against its own buckets, Max lies in the last populated positive one (or the first negative one, turned), Min in the last negative one, turned (or the first positive one), and Sum between the sums of the boundaries; observations exactly when the sample has a populated bucket; Count is all of them exactly when the sample's zero bucket is empty |
| `Expo.ZerosAreOmitted` | metricsgenreceiver/internal/expohistogen/expohistogen.go:58-66 | a sample usable on every tape with ten observations and five zeros: every delta generated from it has a positive Count that misses the five |
| `Expo.GeneratedCountOmitsZeros` | metricsgenreceiver/internal/expohistogen/expohistogen.go:58-66 | a generated Count is the number of observations if and only if the sample's zero bucket is empty |
| `Expo.DeltaPopulatedExactlyWhen` | metricsgenreceiver/internal/expohistogen/expohistogen.go:238-298 | randomizing never loses all observations of a sample and never invents any |
| `ExpoMerge.MergePdataIntoAccumulator` | metricsgenreceiver/internal/expohistogen/expohistogen.go:138-162 | replays positive, negative and zero buckets in order |
| `ExpoMerge.WriteAccumulator` | metricsgenreceiver/internal/expohistogen/expohistogen.go:173-190 | the point receives the read-out, counts and the library's extremes |
| `ExpoMerge.WriteTotals` | metricsgenreceiver/internal/expohistogen/expohistogen.go:104-126 | Sum is added; Min and Max are set by the first populated delta and then only widened |
| `ExpoMerge.MergeInto` | metricsgenreceiver/internal/expohistogen/expohistogen.go:91-127 | generates a delta from the drawn sample, populated exactly when the sample is and with totals that belong to its buckets, and leaves the merge of the two |
| `ExpoMerge.MergeConservesBuckets` | metricsgenreceiver/internal/expohistogen/expohistogen.go:100-102 | at every scale no finer than the three involved, each bucket of the result is the sum of target and delta |
| `ExpoMerge.MergeGrows` | metricsgenreceiver/internal/expohistogen/expohistogen.go:91-127 | while the scale stays, no bucket and not the zero count shrinks |
| `ExpoMerge.MergeTotals` | metricsgenreceiver/internal/expohistogen/expohistogen.go:91-102 | at any scale the result's Count is all its observations: the target's plus the delta's |
| `ExpoMerge.MergeOfZeros` | metricsgenreceiver/internal/expohistogen/expohistogen.go:104-126 | a delta of zeros only leaves a point's extremes; an empty point takes the library's, or none |
| `EdgeRuns.SumStaysWithinBuckets` | metricsgenreceiver/internal/expohistogen/expohistogen.go:91-127 | over any run of merges that never refine the scale, the template's Sum lies between the sums of the boundaries of its own buckets, however often they are coarsened |
| `ExpoMerge.MergeIsFold` | metricsgenreceiver/internal/expohistogen/expohistogen.go:91-127 | from an empty point any run leaves the deltas' total Count and Sum, least Min and greatest Max |
| `ExpoMerge.CumulativeRun` | metricsgenreceiver/receiver.go:152-159 | generated at startup and merged every tick: the point always holds the total Sum, least Min and greatest Max of all generated deltas, from the first tick on their total Count, and the deltas are positive when the samples are |
| `ExpoMerge.CountNeverDecreases` | metricsgenreceiver/internal/expohistogen/expohistogen.go:91-127 | the template's Count never decreases, even when the scale changes |
| `ExpoMerge.GeneratedIsPositive` | metricsgenreceiver/internal/expohistogen/expohistogen.go:51-81 | a delta generated from a sample with positive buckets only has positive Count, Min, Max and Sum |
| `ExpoMerge.PositiveRunWidens` | metricsgenreceiver/internal/expohistogen/expohistogen_test.go:252-286 | over any run of merges of positive deltas, from an empty or a positive point and at any scales: Sum grows, Min stays positive and never rises, Max never falls |
| `ExpoVariation.VaryBucketCounts` | metricsgenreceiver/internal/distribution/instance_variation.go:375-396 | the in-place loop varies every bucket by its absolute index and returns their total and weighted sum; the next two rows say what these are |
| `Instances.EmittedBucketsAreScaled` | metricsgenreceiver/internal/distribution/instance_variation.go:375-389 | in a copy every populated bucket of either side is scaled by 0.8 + 0.4 of a draw keyed by its number and side, and rounded |
| `Instances.InstancesCountApart` | metricsgenreceiver/internal/distribution/instance_variation.go:375-389 | two instances' counts of one bucket lie 0.4 of the count times the difference of their draws apart, up to rounding |
| `ExpoVariation.EmittedSumWithinBuckets` | metricsgenreceiver/internal/distribution/instance_variation.go:391-392 | a copy has a Sum when the template has one, and it can be made up by values in the copy's own buckets |
| `ExpoVariation.ApplyExponentialHistogramVariation` | metricsgenreceiver/internal/distribution/instance_variation.go:360-370 | the point becomes the instance's copy, whose Sum, when it had one, lies between the sums of the boundaries of the copy's own buckets at the point's scale |
| `ExpoVariation.EmittedIsConsistent` | metricsgenreceiver/internal/distribution/instance_variation.go:355-370 | every copy's Count is the sum of all its buckets, populated buckets stay populated, empty ones empty, Min and Max stay |
| `ExpoVariation.EmissionMonotone` | metricsgenreceiver/internal/distribution/instance_variation.go:360-396 | copies of pointwise growing templates, offsets free, grow in every bucket, in Count and, for positive data, in Sum |
| `ExpoVariation.RunStaysPositive` | metricsgenreceiver/internal/expohistogen/expohistogen.go:91-127 | positive data stays positive over any run of merges |
| `ExpoVariation.EmittedNeverDecreases` | metricsgenreceiver/internal/distribution/instance_variation.go:360-396 | over any run of merges that keeps the scale, one instance's buckets, Count and (positive data) Sum never fall |
| `ExpoVariation.EmittedCountNearTemplate` | metricsgenreceiver/internal/distribution/instance_variation.go:360-396 | at any scale a copy's Count is within 20% and half an observation per populated bucket of the template's observations |
| `ExpoVariation.EmittedCountKeepsUp` | metricsgenreceiver/internal/distribution/instance_variation.go:360-396 | across changes of scale a copy's Count stays above four fifths of what the template had observed in any earlier tick, less half an observation per populated bucket |
| `ExpoLimits.CoarserMergeLosesCount` | metricsgenreceiver/internal/distribution/instance_variation.go:360-396 | for every scale s and coarsening d a merge, forced to that scale by the limit of 320 buckets, after which a copy's Count falls from at least 812 to 801 |
| `ExpoLimits.KeepsCountExactlyWhen` | metricsgenreceiver/internal/distribution/instance_variation_test.go:510-541 | no instance's Count falls in any merge from scale s to the scale c on which 320 buckets force it to settle, if and only if c = s; for all s and c |
| `ExpoLimits.CoarserMergeLosesSum` | metricsgenreceiver/internal/distribution/instance_variation.go:360-396 | for every coarser scale a merge of positive data after which a copy's Sum falls |
| `ExpoLimits.KeepsSumExactlyWhen` | metricsgenreceiver/internal/distribution/instance_variation_test.go:510-541 | no instance's Sum falls in any merge of positive data from scale s to scale c <= s if and only if c = s |
| `Hints.CollectHints` | metricsgenreceiver/internal/metricstmpl/generation_hints.go:33-76 | the per-name state machine finds no error if and only if the template is consistent, and then the hints are exactly those declared; errors are justified and none of an invalid declaration is missing |
| `Hints.VisitDecides` | metricsgenreceiver/internal/metricstmpl/generation_hints.go:36-73 | the verdict on one metric decides whether the longer prefix is consistent |
| `Hints.VisitJustified` | metricsgenreceiver/internal/metricstmpl/generation_hints.go:36-73 | an error of one visit is justified by this metric and what was seen before, even after other errors |
| `Hints.ExtractGenerationHints` | metricsgenreceiver/internal/metricstmpl/generation_hints.go:26-82 | succeeds if and only if consistent; strips exactly the key on success, leaves everything unchanged on failure; reports every invalid declaration and nothing unjustified |
| `Hints.StrippedTemplateIsConsistent` | metricsgenreceiver/internal/metricstmpl/generation_hints.go:77-80 | a stripped template declares nothing: extraction succeeds with no hints |
| `Traversal.ForEachMetric` | metricsgenreceiver/internal/dp/datapoint.go:8-22 | visits every metric of every scope of every resource once, each at the number of metrics before it, and nothing else |
| `Traversal.ForEachDataPoint` | metricsgenreceiver/internal/dp/datapoint.go:24-62 | over those metrics indices run 0 .. count-1, each data point once, at its place in document order |
| `Plans.Precompute` | metricsgenreceiver/receiver.go:172-179 | stores every data point's hash and plan at its index, over all metrics of all resources in document order |
| `Plans.RunKeepsShape` | metricsgenreceiver/receiver.go:355-364 | any number of ticks keeps names, types, attributes and point kinds |
| `Plans.CachedEntryIsCurrent` | metricsgenreceiver/receiver.go:51-59 | an entry computed at startup is right for every template of the same shape |
| `Plans.CachedEmissionIsDirect` | metricsgenreceiver/receiver.go:402-420 | at every tick and index the cached hash and plan emit what fresh lookups would |
| `Pipeline.PointIsItsSeries` | metricsgenreceiver/receiver.go:352-364 | the number at a data point of the whole template after any number of ticks is that of its own series' run |
| `Pipeline.WorkerEmitsSeries` | metricsgenreceiver/receiver.go:391-420 | what a worker emits for a data point, with the entries cached at its index, is the series' emission |
| `Pipeline.RunPoint` | metricsgenreceiver/receiver.go:347-420 | each tick advances the template's point in place and emits every instance's copy of it, leaving the template alone: the results are exactly the emissions the run theorems are about |
| `Pipeline.WorkersNeverLowerCounters` | metricsgenreceiver/receiver.go:352-354 | what workers emit for a hinted counter of the template with an on-grid seed that is not negative never falls |
| `Workers.WorkersPartitionSlots` | metricsgenreceiver/receiver.go:372-384 | each slot is emitted by exactly one worker, once |
| `Workers.SafeWithoutRisk` | metricsgenreceiver/receiver.go:347-389 | without a plain addition after a busy worker every interleaving counts every point |
| `Workers.LostUpdate` | metricsgenreceiver/receiver.go:367 | otherwise some interleaving finishes with too small a count |
| `Workers.ExactIffNotRisky` | metricsgenreceiver/receiver.go:347-389 | the count is exact under every interleaving if and only if there is no such pair |
| `Workers.TickCountIsExact` | metricsgenreceiver/receiver.go:347-389 | a tick counts scale times points over its scenarios under every interleaving if and only if no sequential scenario follows a concurrent one with points |

## Left out

- ChurnRun.Run: keeps one log per scenario; how emissions of different scenarios interleave within a tick is not recorded.
- ChurnRun.Simulate: the scenarios share one random source whose draws are arbitrary, so how one scenario's draws shift another's is not modelled.
- ExpoVariation.EmittedNeverDecreases: is about runs that keep the scale; `ExpoLimits.KeepsCountExactlyWhen` shows that no other scale keeps the Count.
- ExpoLimits.KeepsSumExactlyWhen: says nothing of merges at which the library settles on a finer scale than the template's.
- ExpoLimits.KeepsCountExactlyWhen: the library's own ceiling on scales is not modelled; the merges shown settle where they do because of the limit on buckets alone.
- ExpoMerge.MergeInto: the library's choice of scale is an arbitrary parameter; `ExpoLimits` derives it from the limit of 320 buckets.
- Instances.NoiseDiffers: two numbers of buckets count as different when their 64-bit patterns are.
- Copies.WaveOverAPeriod: assumes a sine that alternates; all other results use only that it is 1-Lipschitz.
- Plans.Precompute: attributes and the hash of the identity text are parameters; FNV is not modelled.
- Template rendering, JSON and YAML parsing, embedded samples and random attribute values: input, taken as given.
- Collector lifecycle, logging, progress, ticker and shutdown: plumbing around the tick loop; a run ends at its end time.
- Explicit-bucket histograms and summaries: re-randomized for every instance, with no promise over time.
- Overriding existing resource attributes, temporality and histogram overrides: single-branch setup.
- The zero threshold of exponential histograms: copied from the sample, reset to 0 by a merge, read by nothing.
- Floating-point rounding error, integer overflow outside the mixer, and the quality of the hash and of the distributions.
- Writing through shared data points: the pipeline methods write one point object; the copy of the template per instance is taken as separate.
