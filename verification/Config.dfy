/** Scenario configuration, its validation, and the reduced churn rate (config.go). */
module Config {
  import opened Numbers

  /** Durations are nanoseconds; 0 stands for "not set", as in the source. */
  datatype ChurnCfg = ChurnCfg(instanceLifetime: int, samplesPerSeries: int)

  datatype Option<+T> = None | Some(value: T)

  function Lookup<V>(m: map<string, V>, name: string): Option<V> {
    if name in m then Some(m[name]) else None
  }

  datatype ScenarioCfg = ScenarioCfg(scale: int, concurrency: int, churn: Option<ChurnCfg>)

  datatype Config = Config(
    startTime: int, endTime: int, startNowMinus: int, endNowMinus: int,
    interval: int, realTime: bool, runIndefinitely: bool, scenarios: seq<ScenarioCfg>)

  datatype ConfigError =
    | IntervalTooShort | StartAfterEnd | RealTimeLag | IndefiniteWithEnd
    | ScaleNotMultiple | NegativeConcurrency | ScaleNotPositive | ChurnModeAmbiguous
    | SamplesTooSmall | LifetimeNegative | LifetimeBelowInterval

  const SECOND := 1_000_000_000

  /** The zero time.Time (1 January of year 1) in nanoseconds since 1970. */
  const ZERO_TIME := -62135596800 * SECOND

  predicate ValidChurn(churn: ChurnCfg, interval: int) {
    || (churn.instanceLifetime == 0 && churn.samplesPerSeries >= 1)
    || (churn.samplesPerSeries == 0 && churn.instanceLifetime > 0 && churn.instanceLifetime >= interval)
  }

  predicate ValidScenario(scn: ScenarioCfg, interval: int) {
    && scn.concurrency >= 0
    && (scn.concurrency > 0 ==> TruncMod(scn.scale, scn.concurrency) == 0)
    && (scn.churn.Some? ==> scn.scale > 0 && ValidChurn(scn.churn.value, interval))
  }

  predicate ValidTimes(cfg: Config) {
    && cfg.interval >= SECOND
    && cfg.startTime <= cfg.endTime
    && !(cfg.realTime && cfg.startNowMinus > 0)
    && !(cfg.runIndefinitely && (cfg.endTime != ZERO_TIME || cfg.endNowMinus > 0))
  }

  /** What each complaint about a scenario says is wrong with it. */
  predicate Justified(e: ConfigError, scn: ScenarioCfg, interval: int) {
    match e
    case ScaleNotMultiple => scn.concurrency != 0 && TruncMod(scn.scale, scn.concurrency) != 0
    case NegativeConcurrency => scn.concurrency < 0
    case ScaleNotPositive => scn.churn.Some? && scn.scale <= 0
    case ChurnModeAmbiguous => scn.churn.Some?
      && (scn.churn.value.instanceLifetime == 0 <==> scn.churn.value.samplesPerSeries == 0)
    case SamplesTooSmall => scn.churn.Some? && scn.churn.value.samplesPerSeries < 0
    case LifetimeNegative => scn.churn.Some? && scn.churn.value.instanceLifetime < 0
    case LifetimeBelowInterval => scn.churn.Some? && 0 < scn.churn.value.instanceLifetime < interval
    case _ => false
  }

  /** What each complaint about the times says is wrong. */
  predicate TimesJustified(e: ConfigError, cfg: Config) {
    match e
    case IntervalTooShort => cfg.interval < SECOND
    case StartAfterEnd => cfg.startTime > cfg.endTime
    case RealTimeLag => cfg.realTime && cfg.startNowMinus > 0
    case IndefiniteWithEnd => cfg.runIndefinitely && (cfg.endTime != ZERO_TIME || cfg.endNowMinus > 0)
    case _ => false
  }

  /** One round of the scenario loop; the first failing check decides the error. */
  method ValidateScenario(scn: ScenarioCfg, interval: int) returns (err: Option<ConfigError>)
    ensures err.None? <==> ValidScenario(scn, interval)
    ensures err.Some? ==> Justified(err.value, scn, interval)
  {
    if scn.concurrency != 0 && TruncMod(scn.scale, scn.concurrency) != 0 { return Some(ScaleNotMultiple); }
    if scn.concurrency < 0 { return Some(NegativeConcurrency); }
    if scn.churn.None? { return None; }
    var churn := scn.churn.value;
    if scn.scale <= 0 { return Some(ScaleNotPositive); }
    var hasInstanceLifetime := churn.instanceLifetime != 0;
    var hasSamplesPerSeries := churn.samplesPerSeries != 0;
    if hasInstanceLifetime == hasSamplesPerSeries { return Some(ChurnModeAmbiguous); }
    if hasSamplesPerSeries && churn.samplesPerSeries < 1 { return Some(SamplesTooSmall); }
    if !hasInstanceLifetime { return None; }
    if churn.instanceLifetime < 0 { return Some(LifetimeNegative); }
    if churn.instanceLifetime < interval { return Some(LifetimeBelowInterval); }
    return None;
  }

  method Validate(cfg: Config) returns (err: Option<ConfigError>)
    ensures err.None? <==> ValidTimes(cfg) && forall scn :: scn in cfg.scenarios ==> ValidScenario(scn, cfg.interval)
    ensures err.Some? ==>
      || TimesJustified(err.value, cfg)
      || exists scn :: scn in cfg.scenarios && Justified(err.value, scn, cfg.interval)
  {
    if cfg.interval < SECOND { return Some(IntervalTooShort); }
    if cfg.startTime > cfg.endTime { return Some(StartAfterEnd); }
    if cfg.realTime && cfg.startNowMinus > 0 { return Some(RealTimeLag); }
    if cfg.runIndefinitely && (cfg.endTime != ZERO_TIME || cfg.endNowMinus > 0) { return Some(IndefiniteWithEnd); }
    for i := 0 to |cfg.scenarios|
      invariant forall k :: 0 <= k < i ==> ValidScenario(cfg.scenarios[k], cfg.interval)
    {
      var scn := cfg.scenarios[i];
      var invalid := ValidateScenario(scn, cfg.interval);
      if invalid.Some? { return invalid; }
    }
    return None;
  }

  /** Replacements per interval, as a fraction. */
  datatype Rate = Rate(replacements: int, intervals: int) {
    predicate Enabled() { replacements > 0 && intervals > 0 }
  }

  function Times(d: int, q: int): int { d * q }

  ghost predicate Divides(d: int, n: int) {
    exists q :: Times(d, q) == n
  }

  lemma DividesLinear(d: int, x: int, y: int, k: int)
    requires Divides(d, x) && Divides(d, y)
    ensures Divides(d, x + k * y)
  {
    var p :| Times(d, p) == x;
    var q :| Times(d, q) == y;
    assert Times(d, p + k * q) == x + k * y;
  }

  /** The common divisors of (a, b) and of (b, a % b) are the same. */
  lemma EuclidStep(a: int, b: int, d: int)
    requires b != 0
    ensures Divides(d, a) && Divides(d, b) <==> Divides(d, b) && Divides(d, TruncMod(a, b))
  {
    var q := TruncDiv(a, b);
    if Divides(d, a) && Divides(d, b) {
      DividesLinear(d, a, b, -q);
    }
    if Divides(d, b) && Divides(d, TruncMod(a, b)) {
      DividesLinear(d, TruncMod(a, b), b, q);
    }
  }

  function AbsInt(a: int): int { if a < 0 then -a else a }

  lemma TruncModShrinks(a: int, b: int)
    requires b != 0
    ensures -AbsInt(b) < TruncMod(a, b) < AbsInt(b)
    ensures a >= 0 ==> TruncMod(a, b) >= 0
  {
    if a >= 0 {
      assert a == a / b * b + a % b;
    } else {
      assert -a == (-a) / b * b + (-a) % b;
    }
  }

  /** Euclid's loop on any two integers: a common divisor that every common divisor divides. */
  method GcdInt64(a0: int, b0: int) returns (a: int)
    ensures Divides(a, a0) && Divides(a, b0)
    ensures forall d :: Divides(d, a0) && Divides(d, b0) ==> Divides(d, a)
    ensures a0 > 0 && b0 >= 0 ==> a > 0
  {
    a := a0;
    var b := b0;
    while b != 0
      invariant forall d :: Divides(d, a) && Divides(d, b) <==> Divides(d, a0) && Divides(d, b0)
      invariant a0 > 0 && b0 >= 0 ==> a > 0 && b >= 0
      decreases AbsInt(b)
    {
      TruncModShrinks(a, b);
      forall d ensures Divides(d, a) && Divides(d, b) <==> Divides(d, b) && Divides(d, TruncMod(a, b)) {
        EuclidStep(a, b, d);
      }
      a, b := b, TruncMod(a, b);
    }
    assert Times(a, 1) == a && Times(a, 0) == 0;
    forall d | Divides(d, a) ensures Divides(d, b) {
      assert Times(d, 0) == b;
    }
    assert Divides(a, a) && Divides(a, b);
  }

  /** `rate` is the same fraction as replacements/intervals, in lowest terms. */
  ghost predicate Reduces(rate: Rate, replacements: int, intervals: int) {
    && rate.Enabled()
    && rate.replacements * intervals == replacements * rate.intervals
    && forall d :: Divides(d, rate.replacements) && Divides(d, rate.intervals) ==> d == 1 || d == -1
  }

  lemma ExactQuotient(n: int, g: int) returns (q: int)
    requires g > 0 && n > 0 && Divides(g, n)
    ensures q == TruncDiv(n, g) && Times(g, q) == n && q > 0
  {
    q :| Times(g, q) == n;
    QuotientAtLeast(n, g, q);
    QuotientAtLeast(n, g, q + 1);
  }

  lemma CrossMultiply(g: int, r: int, i: int)
    ensures r * Times(g, i) == Times(g, r) * i
  {
  }

  lemma ScaledDivisor(g: int, d: int, n: int)
    requires Divides(d, n)
    ensures Divides(Times(g, d), Times(g, n))
  {
    var p :| Times(d, p) == n;
    assert Times(Times(g, d), p) == Times(g, n) by {
      assert (g * d) * p == g * (d * p);
    }
  }

  lemma ProductNotOne(d: int, u: int)
    requires d > 1 || d < -1
    ensures d * u != 1
  {
    if u == 0 {
    } else if (d > 0) == (u > 0) {
      assert d * u >= 2;
    } else {
      assert d * u < 0;
    }
  }

  lemma OnlyUnits(g: int, d: int)
    requires g > 0 && Divides(Times(g, d), g)
    ensures d == 1 || d == -1
  {
    var u :| Times(Times(g, d), u) == g;
    assert g * (d * u) == (g * d) * u;
    assert d * u == 1 by {
      assert g * (d * u - 1) == 0;
    }
    if d > 1 || d < -1 {
      ProductNotOne(d, u);
    }
  }

  /** What dividing both sides by their greatest common divisor achieves. */
  lemma DividingByGcdReduces(replacements: int, intervals: int, g: int)
    requires replacements > 0 && intervals > 0 && g > 0
    requires Divides(g, replacements) && Divides(g, intervals)
    requires forall d :: Divides(d, replacements) && Divides(d, intervals) ==> Divides(d, g)
    ensures Reduces(Rate(TruncDiv(replacements, g), TruncDiv(intervals, g)), replacements, intervals)
  {
    var r := ExactQuotient(replacements, g);
    var i := ExactQuotient(intervals, g);
    CrossMultiply(g, r, i);
    forall d | Divides(d, r) && Divides(d, i) ensures d == 1 || d == -1 {
      ScaledDivisor(g, d, r);
      ScaledDivisor(g, d, i);
      assert Divides(Times(g, d), g);
      OnlyUnits(g, d);
    }
  }

  method ReduceChurnRate(replacements: int, intervals: int) returns (rate: Rate)
    ensures replacements > 0 && intervals > 0 ==> Reduces(rate, replacements, intervals)
    ensures replacements <= 0 || intervals <= 0 ==> rate == Rate(0, 0)
  {
    if replacements <= 0 || intervals <= 0 {
      return Rate(0, 0);
    }
    var divisor := GcdInt64(replacements, intervals);
    DividingByGcdReduces(replacements, intervals, divisor);
    return Rate(TruncDiv(replacements, divisor), TruncDiv(intervals, divisor));
  }

  /** The unreduced rate a scenario asks for: scale replacements every samplesPerSeries ticks,
      or scale replacements every instanceLifetime. */
  function RequestedRate(churn: Option<ChurnCfg>, scale: int, interval: int): Rate {
    match churn
    case None => Rate(0, 0)
    case Some(c) =>
      if c.samplesPerSeries > 0 then Rate(scale, c.samplesPerSeries)
      else Rate(scale * interval, c.instanceLifetime)
  }

  method NewChurnRate(churn: Option<ChurnCfg>, scale: int, interval: int) returns (rate: Rate)
    ensures var want := RequestedRate(churn, scale, interval);
            if want.Enabled() then Reduces(rate, want.replacements, want.intervals) else rate == Rate(0, 0)
  {
    if churn.None? {
      return Rate(0, 0);
    }
    if churn.value.samplesPerSeries > 0 {
      rate := ReduceChurnRate(scale, churn.value.samplesPerSeries);
    } else {
      rate := ReduceChurnRate(scale * interval, churn.value.instanceLifetime);
    }
  }
}
