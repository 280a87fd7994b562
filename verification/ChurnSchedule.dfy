/** When an id is born and replaced: floor and ceiling facts about the exact rate. */
module ChurnSchedule {
  import opened Numbers
  import opened Config

  /** Replacements made by the first n ticks, by the exact rate. */
  ghost function Replaced(rate: Rate, n: nat): (m: nat) {
    if rate.Enabled() then
      MulOrder(0, n, rate.replacements);
      QuotientAtLeast(n * rate.replacements, rate.intervals, 0);
      n * rate.replacements / rate.intervals
    else 0
  }

  ghost function Residue(rate: Rate, n: nat): int
    requires rate.Enabled()
  {
    n * rate.replacements % rate.intervals
  }

  /** One tick of the accumulator keeps it exact: nothing is lost to rounding. */
  lemma AccumulatorStep(rate: Rate, n: nat, churn: nat, remainder: int)
    requires rate.Enabled() && 0 <= remainder < rate.intervals
    requires churn * rate.intervals + remainder == Residue(rate, n) + rate.replacements
    ensures Replaced(rate, n + 1) == Replaced(rate, n) + churn
    ensures remainder == Residue(rate, n + 1)
  {
    DivisionIdentity(n * rate.replacements, rate.intervals);
    var q := n * rate.replacements / rate.intervals;
    assert (n + 1) * rate.replacements == n * rate.replacements + rate.replacements;
    assert (q + churn) * rate.intervals == q * rate.intervals + churn * rate.intervals;
    UniqueQuotient((n + 1) * rate.replacements, rate.intervals, q + churn, remainder);
  }

  lemma SameSign(x: int, d: int, y: int, b: int)
    requires d > 0 && b > 0 && x * d == y * b
    ensures x >= 0 <==> y >= 0
  {
    if x >= 0 { assert x * d >= 0; }
    if y >= 0 { assert y * b >= 0; }
    if x < 0 { assert x * d < 0; }
    if y < 0 { assert y * b < 0; }
  }

  lemma SameFraction(a: int, b: int, c: int, d: int, t: int, v: int)
    requires a > 0 && b > 0 && c > 0 && d > 0 && a * d == c * b
    ensures v * b <= t * a <==> v * d <= t * c
  {
    var x, y := t * a - v * b, t * c - v * d;
    assert x * d == y * b by {
      assert t * a * d == t * c * b by {
        assert t * a * d == t * (a * d);
        assert t * c * b == t * (c * b);
      }
      assert v * b * d == v * d * b;
    }
    SameSign(x, d, y, b);
  }

  lemma ScaledResidue(n: int, q: int, a: int, b: int, c: int, d: int)
    requires a * d == c * b
    ensures (n * a - q * b) * d == (n * c - q * d) * b
  {
    assert n * a * d == n * (a * d);
    assert n * c * b == n * (c * b);
  }

  /** Reducing the fraction does not change the schedule, and the remainder is the
      unreduced residue scaled down by the same factor. */
  lemma ReducedRateIsExact(rate: Rate, want: Rate, n: nat)
    requires want.Enabled() && Reduces(rate, want.replacements, want.intervals)
    ensures Replaced(rate, n) == n * want.replacements / want.intervals
    ensures Residue(rate, n) * want.intervals == Residue(want, n) * rate.intervals
  {
    var q := Replaced(rate, n);
    var a, b, c, d := rate.replacements, rate.intervals, want.replacements, want.intervals;
    SameFraction(a, b, c, d, n, q);
    SameFraction(a, b, c, d, n, q + 1);
    QuotientAtLeast(n * a, b, q);
    QuotientAtLeast(n * a, b, q + 1);
    QuotientAtLeast(n * c, d, q);
    QuotientAtLeast(n * c, d, q + 1);
    DivisionIdentity(n * a, b);
    DivisionIdentity(n * c, d);
    ScaledResidue(n, q, a, b, c, d);
  }

  /** First tick count after which at least v replacements have been made. */
  ghost function FirstTick(rate: Rate, v: int): int
    requires rate.Enabled()
  {
    CeilDiv(v * rate.intervals, rate.replacements)
  }

  lemma ReachedAt(rate: Rate, v: int, t: nat)
    requires rate.Enabled()
    ensures Replaced(rate, t) >= v <==> FirstTick(rate, v) <= t
  {
    QuotientAtLeast(t * rate.replacements, rate.intervals, v);
    CeilAtMost(v * rate.intervals, rate.replacements, t);
  }

  lemma FirstTickOfReduced(rate: Rate, want: Rate, v: int)
    requires want.Enabled() && Reduces(rate, want.replacements, want.intervals)
    ensures FirstTick(rate, v) == FirstTick(want, v)
  {
    var t, u := FirstTick(rate, v), FirstTick(want, v);
    var a, b, c, d := rate.replacements, rate.intervals, want.replacements, want.intervals;
    CeilAtMost(v * b, a, t);
    CeilAtMost(v * d, c, t);
    SameFraction(a, b, c, d, t, v);
    CeilAtMost(v * b, a, u);
    CeilAtMost(v * d, c, u);
    SameFraction(a, b, c, d, u, v);
  }

  /** x is in a slot during tick t (counted from 0): created, and not yet replaced. */
  ghost predicate LiveAt(rate: Rate, scale: nat, x: int, t: nat) {
    Replaced(rate, t) <= x < Replaced(rate, t) + scale
  }

  ghost function BornTick(rate: Rate, scale: nat, x: int): int
    requires rate.Enabled()
  {
    if x < scale then 0 else FirstTick(rate, x - scale + 1)
  }

  ghost function RetiredTick(rate: Rate, x: int): int
    requires rate.Enabled()
  {
    FirstTick(rate, x + 1)
  }

  lemma LiveBetweenBirthAndRetirement(rate: Rate, scale: nat, x: int, t: nat)
    requires rate.Enabled() && x >= 0
    ensures LiveAt(rate, scale, x, t) <==> BornTick(rate, scale, x) <= t < RetiredTick(rate, x)
  {
    ReachedAt(rate, x - scale + 1, t);
    ReachedAt(rate, x + 1, t);
  }

  ghost function LiveTicks(rate: Rate, scale: nat, x: int, n: nat): nat {
    if n == 0 then 0 else LiveTicks(rate, scale, x, n - 1) + if LiveAt(rate, scale, x, n - 1) then 1 else 0
  }

  lemma BirthBeforeRetirement(rate: Rate, scale: nat, x: int)
    requires rate.Enabled() && x >= 0
    ensures 0 <= BornTick(rate, scale, x) <= RetiredTick(rate, x)
  {
    var late := RetiredTick(rate, x);
    CeilAtMost((x + 1) * rate.intervals, rate.replacements, late);
    MulOrder(1, x + 1, rate.intervals);
    CeilAtMost((x + 1) * rate.intervals, rate.replacements, 0);
    assert late > 0;
    if x >= scale {
      CeilAtMost((x - scale + 1) * rate.intervals, rate.replacements, late);
      MulOrder(x - scale + 1, x + 1, rate.intervals);
      MulOrder(1, x - scale + 1, rate.intervals);
      CeilAtMost((x - scale + 1) * rate.intervals, rate.replacements, 0);
    }
  }

  lemma {:induction false} LiveTicksClosedForm(rate: Rate, scale: nat, x: int, n: nat)
    requires rate.Enabled() && x >= 0
    ensures 0 <= BornTick(rate, scale, x) <= RetiredTick(rate, x)
    ensures LiveTicks(rate, scale, x, n) == MinInt(n, RetiredTick(rate, x)) - MinInt(n, BornTick(rate, scale, x))
  {
    BirthBeforeRetirement(rate, scale, x);
    if n > 0 {
      LiveTicksClosedForm(rate, scale, x, n - 1);
      LiveBetweenBirthAndRetirement(rate, scale, x, n - 1);
    }
  }

  lemma CeilShift(a: int, b: int, q: int)
    requires b > 0
    ensures CeilDiv(a + q * b, b) == CeilDiv(a, b) + q
  {
    var t := CeilDiv(a, b);
    var u := CeilDiv(a + q * b, b);
    CeilAtMost(a, b, t);
    CeilAtMost(a, b, u - q);
    CeilAtMost(a + q * b, b, t + q);
    CeilAtMost(a + q * b, b, u);
    assert (t + q) * b == t * b + q * b;
    assert (u - q) * b == u * b - q * b;
  }

  /** samples_per_series = k: a new instance is live for exactly k ticks, and initial
      instance x for ceil((x + 1) k / scale), which is at most k. */
  lemma SamplesPerSeriesIsExact(rate: Rate, scale: nat, k: nat, x: nat)
    requires scale > 0 && k > 0 && Reduces(rate, scale, k)
    ensures x >= scale ==> RetiredTick(rate, x) - BornTick(rate, scale, x) == k
    ensures x >= scale ==> BornTick(rate, scale, x) == CeilDiv((x - scale + 1) * k, scale)
    ensures x < scale ==> RetiredTick(rate, x) == CeilDiv((x + 1) * k, scale) <= k
  {
    var want := Rate(scale, k);
    FirstTickOfReduced(rate, want, x + 1);
    FirstTickOfReduced(rate, want, x - scale + 1);
    assert (x - scale + 1) * k + k * scale == (x + 1) * k;
    CeilShift((x - scale + 1) * k, scale, k);
    if x < scale {
      MulOrder(x + 1, scale, k);
      CeilAtMost((x + 1) * k, scale, k);
    }
  }

  lemma CeilGap(a: int, r: int, b: int)
    requires 0 <= r < b
    ensures CeilDiv(a, b) <= CeilDiv(a + r, b) <= CeilDiv(a, b) + 1
  {
    var t, u := CeilDiv(a, b), CeilDiv(a + r, b);
    CeilAtMost(a, b, t);
    CeilAtMost(a, b, u);
    CeilAtMost(a + r, b, u);
    CeilAtMost(a + r, b, t + 1);
    assert (t + 1) * b == t * b + b;
  }

  lemma CeilOfQuotient(n: int, d: int)
    requires d > 0
    ensures CeilDiv(n, d) == n / d + if n % d == 0 then 0 else 1
  {
    DivisionIdentity(n, d);
    CeilAtMost(n, d, n / d);
    CeilAtMost(n, d, n / d + 1);
    CeilAtMost(n, d, n / d - 1);
    assert (n / d + 1) * d == n / d * d + d && (n / d - 1) * d == n / d * d - d;
  }

  lemma LifetimeSplit(scale: int, interval: int, lifetime: int, q: int, r: int)
    requires lifetime == q * interval + r
    ensures scale * lifetime == q * (scale * interval) + scale * r
  {
    assert scale * (q * interval) == q * (scale * interval);
  }

  lemma ScaledBelow(scale: int, r: int, interval: int)
    requires scale > 0 && 0 <= r < interval
    ensures 0 <= scale * r < scale * interval
  {
    assert scale * interval - scale * r == scale * (interval - r);
  }

  lemma LifetimeGap(a: int, scale: int, interval: int, lifetime: int)
    requires scale > 0 && interval > 0 && scale * interval > 0
    ensures lifetime / interval <= CeilDiv(a + scale * lifetime, scale * interval) - CeilDiv(a, scale * interval)
         <= CeilDiv(lifetime, interval)
  {
    var b, q, r := scale * interval, lifetime / interval, lifetime % interval;
    DivisionIdentity(lifetime, interval);
    LifetimeSplit(scale, interval, lifetime, q, r);
    assert a + scale * lifetime == (a + scale * r) + q * b;
    CeilShift(a + scale * r, b, q);
    ScaledBelow(scale, r, interval);
    CeilGap(a, scale * r, b);
    CeilOfQuotient(lifetime, interval);
    assert r == 0 ==> a + scale * r == a;
    hide CeilDiv;
  }

  /** instance_lifetime = L: a new instance is live for floor(L / I) or ceil(L / I) ticks. */
  lemma LifetimeIsWithinOneTick(rate: Rate, scale: nat, interval: int, lifetime: int, x: nat)
    requires 0 < scale <= x && 0 < interval <= lifetime && Reduces(rate, scale * interval, lifetime)
    ensures lifetime / interval <= RetiredTick(rate, x) - BornTick(rate, scale, x) <= CeilDiv(lifetime, interval)
  {
    MulOrder(1, scale, interval);
    var want := Rate(scale * interval, lifetime);
    FirstTickOfReduced(rate, want, x + 1);
    FirstTickOfReduced(rate, want, x - scale + 1);
    LifetimeGap((x - scale + 1) * lifetime, scale, interval, lifetime);
    assert (x + 1) * lifetime == (x - scale + 1) * lifetime + scale * lifetime;
    hide CeilDiv;
  }

  /** When a full turnover takes at least one tick, no tick replaces a slot twice. */
  lemma AtMostScalePerTick(rate: Rate, scale: nat, n: nat)
    requires rate.Enabled() && rate.replacements <= scale * rate.intervals
    ensures Replaced(rate, n + 1) - Replaced(rate, n) <= scale
  {
    var p, q := n * rate.replacements, rate.intervals;
    DivisionIdentity(p, q);
    DivisionIdentity(p + rate.replacements, q);
    assert (n + 1) * rate.replacements == p + rate.replacements;
    QuotientAtLeast(p + rate.replacements, q, p / q + scale + 1);
    assert (p / q + scale + 1) * q == p / q * q + scale * q + q;
  }

  lemma BoundCarriesOver(a: int, b: int, c: int, d: int, scale: int)
    requires a > 0 && b > 0 && c > 0 && d > 0 && a * d == c * b && c <= scale * d
    ensures a <= scale * b
  {
    SameFraction(a, b, c, d, -1, -scale);
  }

  /** Both churn modes meet the bound once the configuration is valid. */
  lemma ValidRateIsBounded(rate: Rate, churn: ChurnCfg, scale: nat, interval: int)
    requires scale > 0 && interval > 0 && ValidChurn(churn, interval)
    requires var want := RequestedRate(Some(churn), scale, interval);
             want.Enabled() ==> Reduces(rate, want.replacements, want.intervals)
    ensures RequestedRate(Some(churn), scale, interval).Enabled()
    ensures rate.replacements <= scale * rate.intervals
  {
    var want := RequestedRate(Some(churn), scale, interval);
    MulOrder(1, scale, interval);
    BoundCarriesOver(rate.replacements, rate.intervals, want.replacements, want.intervals, scale) by {
      if churn.samplesPerSeries > 0 {
        MulOrder(1, want.intervals, scale);
      } else {
        MulOrder(interval, churn.instanceLifetime, scale);
      }
    }
  }
}
