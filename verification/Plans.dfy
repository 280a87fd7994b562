/** The per-series plans resolved at startup agree with direct lookup at every tick
    (receiver.go, instance_variation.go). */
module Plans {
  import opened Config
  import opened Metrics
  import opened Noise
  import opened Advance
  import opened Variation
  import opened Random
  import opened Traversal

  /** A data point: numbers carry a value, the other kinds an opaque payload. */
  datatype Point =
    | NumberPoint(attrs: string, value: NumberValue)
    | OtherPoint(attrs: string, payload: int)

  datatype Metric = Metric(name: string, kind: MetricType, points: seq<Point>)

  type Template = seq<ResourceMetrics<Metric>>

  function PointCount(m: Metric): nat {
    if m.kind.EmptyMetric? then 0 else |m.points|
  }

  datatype Plan = Plan(strategy: Option<Strategy>, precision: Option<nat>)

  function PlanNumberSeries(m: Metric, hints: map<string, HintClass>, precision: map<string, nat>): Plan {
    Plan(Some(StrategyFor(m.kind, Lookup(hints, m.name))), Lookup(precision, m.name))
  }

  /** The identity hash of a series; the hash function itself is a parameter. */
  type Hasher = (string, string) -> bv64

  ghost predicate CachedAt(plan: Plan, h: bv64, m: Metric, l: nat, hints: map<string, HintClass>,
                           precision: map<string, nat>, hash: Hasher)
    requires l < PointCount(m)
  {
    && h == hash(m.name, m.points[l].attrs)
    && plan == if m.points[l].NumberPoint? then PlanNumberSeries(m, hints, precision) else Plan(None, None)
  }

  /** What the startup visitor stores for one data point. */
  method Resolve(m: Metric, l: nat, hints: map<string, HintClass>, precision: map<string, nat>, hash: Hasher)
    returns (plan: Plan, h: bv64)
    requires l < PointCount(m)
    ensures CachedAt(plan, h, m, l, hints, precision, hash)
  {
    plan, h := Plan(None, None), hash(m.name, m.points[l].attrs);
    if m.points[l].NumberPoint? {
      plan := PlanNumberSeries(m, hints, precision);
    }
  }

  method FillByIndex(visits: seq<PointVisit>, metrics: seq<Metric>, hints: map<string, HintClass>,
                     precision: map<string, nat>, hash: Hasher)
    returns (plans: array<Plan>, hashes: array<bv64>)
    requires Numbered(visits, metrics, PointCount)
    ensures plans.Length == hashes.Length == |visits|
    ensures forall k :: 0 <= k < |visits| ==>
      CachedAt(plans[k], hashes[k], metrics[visits[k].m], visits[k].l, hints, precision, hash)
  {
    hide CachedAt, PointTotal;
    plans := new Plan[|visits|](_ => Plan(None, None));
    hashes := new bv64[|visits|](_ => 0);
    for v := 0 to |visits|
      invariant forall k :: 0 <= k < v ==>
        CachedAt(plans[k], hashes[k], metrics[visits[k].m], visits[k].l, hints, precision, hash)
    {
      var visit := visits[v];
      var plan, h := Resolve(metrics[visit.m], visit.l, hints, precision, hash);
      plans[visit.index] := plan;
      hashes[visit.index] := h;
    }
  }

  ghost predicate Cached(plans: seq<Plan>, hashes: seq<bv64>, metrics: seq<Metric>, hints: map<string, HintClass>,
                         precision: map<string, nat>, hash: Hasher) {
    && |plans| == |hashes| == PointTotal(metrics, PointCount)
    && forall m, l :: 0 <= m < |metrics| && 0 <= l < PointCount(metrics[m]) ==>
         IndexOf(metrics, PointCount, m, l) < |plans|
         && CachedAt(plans[IndexOf(metrics, PointCount, m, l)], hashes[IndexOf(metrics, PointCount, m, l)], metrics[m],
                     l, hints, precision, hash)
  }

  lemma FilledIsCached(plans: seq<Plan>, hashes: seq<bv64>, visits: seq<PointVisit>, metrics: seq<Metric>,
                       hints: map<string, HintClass>, precision: map<string, nat>, hash: Hasher)
    requires Numbered(visits, metrics, PointCount) && |plans| == |hashes| == |visits|
    requires forall k :: 0 <= k < |visits| ==>
      CachedAt(plans[k], hashes[k], metrics[visits[k].m], visits[k].l, hints, precision, hash)
    ensures Cached(plans, hashes, metrics, hints, precision, hash)
  {
    hide CachedAt;
    forall m: nat, l: nat | m < |metrics| && l < PointCount(metrics[m])
      ensures IndexOf(metrics, PointCount, m, l) < |plans|
      ensures CachedAt(plans[IndexOf(metrics, PointCount, m, l)], hashes[IndexOf(metrics, PointCount, m, l)],
                       metrics[m], l, hints, precision, hash)
    {
      assert visits[IndexOf(metrics, PointCount, m, l)] == PointVisit(IndexOf(metrics, PointCount, m, l), m, l);
    }
  }

  /** The startup pass: one plan and one hash per visited data point, stored by index. */
  method Precompute(t: Template, hints: map<string, HintClass>, precision: map<string, nat>, hash: Hasher)
    returns (plans: array<Plan>, hashes: array<bv64>)
    ensures Cached(plans[..], hashes[..], MetricsOf(t), hints, precision, hash) && InDocumentOrder(MetricsOf(t), t)
  {
    hide Cached, CachedAt, PointTotal, InDocumentOrder;
    var visits, metrics := ForEachDataPoint(t, PointCount);
    plans, hashes := FillByIndex(visits, metrics, hints, precision, hash);
    FilledIsCached(plans[..], hashes[..], visits, metrics, hints, precision, hash);
  }

  // ----- ticks keep the template's shape -----

  ghost predicate SamePoint(p: Point, q: Point) {
    p.attrs == q.attrs && (p.NumberPoint? <==> q.NumberPoint?)
  }

  /** Same name, type, and points with the same attributes and kinds. */
  ghost predicate SameShape(m: Metric, n: Metric) {
    && m.name == n.name && m.kind == n.kind && |m.points| == |n.points|
    && forall l :: 0 <= l < |m.points| ==> SamePoint(m.points[l], n.points[l])
  }

  /** What one tick of the template pass draws: where on the tape each number point is
      reached, and the new payload of every other point. */
  datatype TickDraws = TickDraws(tape: Tape, at: (nat, nat) -> nat, payload: (nat, nat) -> int)

  function AdvancePoint(m: Metric, p: Point, hints: map<string, HintClass>, precision: map<string, nat>,
                        dist: Distribution, interval: int,
                        draws: TickDraws, i: nat, l: nat): Point {
    match p
    case NumberPoint(attrs, value) =>
      NumberPoint(attrs, AdvanceNumber(m.kind, value, dist,
                                       AdvanceOptions(Lookup(hints, m.name), interval, Lookup(precision, m.name)),
                                       draws.tape, draws.at(i, l)).value)
    case OtherPoint(attrs, _) => OtherPoint(attrs, draws.payload(i, l))
  }

  function AdvanceMetric(m: Metric, hints: map<string, HintClass>, precision: map<string, nat>, dist: Distribution,
                         interval: int, draws: TickDraws, i: nat): Metric {
    m.(points := seq(|m.points|, l requires 0 <= l < |m.points| =>
      AdvancePoint(m, m.points[l], hints, precision, dist, interval, draws, i, l)))
  }

  function AdvanceAll(metrics: seq<Metric>, hints: map<string, HintClass>, precision: map<string, nat>,
                      dist: Distribution, interval: int, draws: TickDraws): seq<Metric> {
    seq(|metrics|, i requires 0 <= i < |metrics| =>
      AdvanceMetric(metrics[i], hints, precision, dist, interval, draws, i))
  }

  ghost function TemplateAfter(metrics: seq<Metric>, hints: map<string, HintClass>, precision: map<string, nat>,
                               dist: Distribution, interval: int,
                               draws: nat -> TickDraws, t: nat): seq<Metric> {
    if t == 0 then metrics
    else AdvanceAll(TemplateAfter(metrics, hints, precision, dist, interval, draws, t - 1), hints, precision, dist,
                    interval, draws(t - 1))
  }

  ghost predicate SameShapes(a: seq<Metric>, b: seq<Metric>) {
    |a| == |b| && forall i :: 0 <= i < |a| ==> SameShape(a[i], b[i])
  }

  lemma AdvanceKeepsShape(m: Metric, hints: map<string, HintClass>, precision: map<string, nat>, dist: Distribution,
                          interval: int, draws: TickDraws, i: nat)
    ensures SameShape(m, AdvanceMetric(m, hints, precision, dist, interval, draws, i))
  {
    hide AdvanceNumber;
  }

  lemma {:induction false} RunKeepsShape(metrics: seq<Metric>, hints: map<string, HintClass>,
                                         precision: map<string, nat>, dist: Distribution, interval: int,
                                         draws: nat -> TickDraws, t: nat)
    ensures SameShapes(metrics, TemplateAfter(metrics, hints, precision, dist, interval, draws, t))
  {
    hide AdvanceMetric;
    if t > 0 {
      RunKeepsShape(metrics, hints, precision, dist, interval, draws, t - 1);
      var was := TemplateAfter(metrics, hints, precision, dist, interval, draws, t - 1);
      forall i | 0 <= i < |metrics|
        ensures SameShape(metrics[i], TemplateAfter(metrics, hints, precision, dist, interval, draws, t)[i]) {
        AdvanceKeepsShape(was[i], hints, precision, dist, interval, draws(t - 1), i);
      }
    }
  }

  lemma {:induction false} SameIndices(a: seq<Metric>, b: seq<Metric>, m: nat)
    requires SameShapes(a, b) && m <= |a|
    ensures PointTotal(a[..m], PointCount) == PointTotal(b[..m], PointCount)
  {
    if m > 0 {
      SameIndices(a, b, m - 1);
      assert a[..m][..m - 1] == a[..m - 1] && b[..m][..m - 1] == b[..m - 1];
    }
  }

  // ----- emission -----

  /** What surrounds one instance's emission of a number point. */
  datatype EmitContext = EmitContext(trig: Trig, instanceID: bv64, opts: VariationOptions)

  function ValidStrategy(s: Strategy): bool { s.CurrentCountVariation? ==> s.minOffset <= s.maxOffset }

  /** EmitForInstance on a number point: the plan when it has a strategy, else the lookups. */
  function EmitNumber(c: EmitContext, m: Metric, value: NumberValue, plan: Plan, h: bv64,
                      hints: map<string, HintClass>, precision: map<string, nat>): NumberValue
    requires c.trig.pi > 0.0 && (plan.strategy.Some? ==> ValidStrategy(plan.strategy.value))
  {
    if plan.strategy.Some? then
      ApplyNumber(c.trig, plan.strategy.value, value, m.kind, plan.precision, h, c.instanceID, c.opts)
    else
      ApplyNumber(c.trig, StrategyFor(m.kind, Lookup(hints, m.name)), value, m.kind, Lookup(precision, m.name), h,
                  c.instanceID, c.opts)
  }

  /** The number emitted for a point with its identity hash and strategy looked up afresh. */
  function EmitDirect(c: EmitContext, m: Metric, p: Point, hints: map<string, HintClass>, precision: map<string, nat>,
                      hash: Hasher): NumberValue
    requires c.trig.pi > 0.0 && p.NumberPoint?
  {
    EmitNumber(c, m, p.value, Plan(None, None), hash(m.name, p.attrs), hints, precision)
  }

  lemma SameIndex(a: seq<Metric>, b: seq<Metric>, m: nat, l: nat)
    requires SameShapes(a, b) && m < |a|
    ensures IndexOf(a, PointCount, m, l) == IndexOf(b, PointCount, m, l)
    ensures PointTotal(a, PointCount) == PointTotal(b, PointCount)
  {
    SameIndices(a, b, m);
    SameIndices(a, b, |a|);
    assert a[..|a|] == a && b[..|b|] == b;
    hide PointTotal, SameShapes, PointCount;
  }

  /** An entry depends on nothing that a tick changes. */
  lemma SameShapeSameEntry(plan: Plan, h: bv64, a: Metric, b: Metric, l: nat,
                           hints: map<string, HintClass>, precision: map<string, nat>, hash: Hasher)
    requires SameShape(a, b) && l < PointCount(a) && CachedAt(plan, h, a, l, hints, precision, hash)
    ensures l < PointCount(b) && CachedAt(plan, h, b, l, hints, precision, hash)
  {
    assert SamePoint(a.points[l], b.points[l]);
  }

  /** The startup entry of a data point is right for any template of the same shape. */
  lemma CachedEntryIsCurrent(metrics: seq<Metric>, now: seq<Metric>, plans: seq<Plan>, hashes: seq<bv64>,
                             hints: map<string, HintClass>, precision: map<string, nat>, hash: Hasher, m: nat, l: nat)
    requires Cached(plans, hashes, metrics, hints, precision, hash) && SameShapes(metrics, now)
    requires m < |now| && l < PointCount(now[m])
    ensures |plans| == |hashes| == PointTotal(now, PointCount) && IndexOf(now, PointCount, m, l) < |plans|
    ensures CachedAt(plans[IndexOf(now, PointCount, m, l)], hashes[IndexOf(now, PointCount, m, l)], now[m], l, hints,
                     precision, hash)
  {
    hide PointTotal, IndexOf, CachedAt;
    SameIndex(metrics, now, m, l);
    assert SameShape(metrics[m], now[m]) && l < PointCount(metrics[m]);
    var idx := IndexOf(metrics, PointCount, m, l);
    SameShapeSameEntry(plans[idx], hashes[idx], metrics[m], now[m], l, hints, precision, hash);
  }

  /** A right entry emits what fresh lookups would. */
  lemma EntryEmitsDirect(c: EmitContext, m: Metric, l: nat, plan: Plan, h: bv64, hints: map<string, HintClass>,
                         precision: map<string, nat>, hash: Hasher)
    requires c.trig.pi > 0.0 && l < PointCount(m) && m.points[l].NumberPoint?
    requires CachedAt(plan, h, m, l, hints, precision, hash)
    ensures plan.strategy.Some? && ValidStrategy(plan.strategy.value)
    ensures EmitNumber(c, m, m.points[l].value, plan, h, hints, precision)
         == EmitDirect(c, m, m.points[l], hints, precision, hash)
  {
    hide ApplyNumber;
  }

  /** At every tick and for every data point, the entry cached at the point's index at
      startup yields the identity hash and the emission that fresh lookups would. */
  lemma CachedEmissionIsDirect(metrics: seq<Metric>, plans: seq<Plan>, hashes: seq<bv64>,
                               hints: map<string, HintClass>, precision: map<string, nat>, hash: Hasher,
                               dist: Distribution, interval: int, draws: nat -> TickDraws, t: nat, m: nat, l: nat,
                               c: EmitContext)
    requires c.trig.pi > 0.0 && Cached(plans, hashes, metrics, hints, precision, hash)
    requires m < |TemplateAfter(metrics, hints, precision, dist, interval, draws, t)|
    requires l < PointCount(TemplateAfter(metrics, hints, precision, dist, interval, draws, t)[m])
    ensures var now := TemplateAfter(metrics, hints, precision, dist, interval, draws, t);
            var idx := IndexOf(now, PointCount, m, l);
            && idx < |plans| == |hashes| == PointTotal(now, PointCount)
            && hashes[idx] == hash(now[m].name, now[m].points[l].attrs)
            && (now[m].points[l].NumberPoint? ==>
                  && plans[idx].strategy.Some? && ValidStrategy(plans[idx].strategy.value)
                  && EmitNumber(c, now[m], now[m].points[l].value, plans[idx], hashes[idx], hints, precision)
                  == EmitDirect(c, now[m], now[m].points[l], hints, precision, hash))
  {
    hide TemplateAfter, EmitNumber, EmitDirect, StrategyFor, Cached, SameShapes, PointTotal;
    var now := TemplateAfter(metrics, hints, precision, dist, interval, draws, t);
    RunKeepsShape(metrics, hints, precision, dist, interval, draws, t);
    CachedEntryIsCurrent(metrics, now, plans, hashes, hints, precision, hash, m, l);
    if now[m].points[l].NumberPoint? {
      var idx := IndexOf(now, PointCount, m, l);
      EntryEmitsDirect(c, now[m], l, plans[idx], hashes[idx], hints, precision, hash);
    }
  }
}
