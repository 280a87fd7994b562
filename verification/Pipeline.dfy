/** What a worker emits for one data point over a run of the whole template: the single series
    of CounterRuns are the columns of that run (receiver.go). */
module Pipeline {
  import opened Config
  import opened Metrics
  import opened Noise
  import opened Random
  import opened Advance
  import opened Variation
  import opened Traversal
  import opened Plans
  import opened CounterRuns

  /** What startup leaves for the run: the template's metrics and the tables built from them. */
  datatype Startup = Startup(metrics: seq<Metric>, hints: map<string, HintClass>, precision: map<string, nat>,
                             hash: Hasher, plans: seq<Plan>, hashes: seq<bv64>) {
    ghost predicate Valid() { Cached(plans, hashes, metrics, hints, precision, hash) }

    /** Data point l of metric m is a number. */
    predicate HasNumber(m: nat, l: nat) {
      m < |metrics| && l < PointCount(metrics[m]) && metrics[m].points[l].NumberPoint?
    }

    function Seed(m: nat, l: nat): NumberValue
      requires HasNumber(m, l)
    {
      metrics[m].points[l].value
    }

    function SeriesAt(m: nat, l: nat): Series
      requires HasNumber(m, l)
    {
      Series(metrics[m].kind, Lookup(hints, metrics[m].name), Lookup(precision, metrics[m].name),
             hash(metrics[m].name, metrics[m].points[l].attrs))
    }

    /** The template after t ticks. */
    ghost function After(e: Surroundings, draws: nat -> TickDraws, t: nat): seq<Metric> {
      TemplateAfter(metrics, hints, precision, e.dist, e.interval, draws, t)
    }
  }

  /** All ticks draw from the one generator of the template. */
  ghost predicate OneTape(draws: nat -> TickDraws, tape: Tape) {
    forall t: nat :: draws(t).tape == tape
  }

  /** The surroundings as data point l of metric m meets them. */
  function SeenFrom(e: Surroundings, draws: nat -> TickDraws, m: nat, l: nat): Surroundings {
    e.(at := (t: nat) => draws(t).at(m, l))
  }

  /** Data point l of metric m, some ticks later. */
  ghost predicate Holds(now: seq<Metric>, r: Startup, m: nat, l: nat, value: NumberValue)
    requires r.HasNumber(m, l)
  {
    && m < |now| && now[m].name == r.metrics[m].name && now[m].kind == r.metrics[m].kind
    && |now[m].points| == |r.metrics[m].points|
    && now[m].points[l] == NumberPoint(r.metrics[m].points[l].attrs, value)
  }

  /** The number a data point of the template holds after t ticks is that of its own series. */
  lemma {:induction false} PointIsItsSeries(r: Startup, e: Surroundings, draws: nat -> TickDraws, t: nat, m: nat,
                                            l: nat)
    requires OneTape(draws, e.tape) && r.HasNumber(m, l)
    ensures Holds(r.After(e, draws, t), r, m, l,
                  TemplateAt(r.SeriesAt(m, l), SeenFrom(e, draws, m, l), r.Seed(m, l), t))
  {
    hide AdvanceNumber;
    if t > 0 {
      PointIsItsSeries(r, e, draws, t - 1, m, l);
      assert draws(t - 1).tape == e.tape;
    }
  }

  /** In tick t a worker writes v for data point l of metric m: the advanced template's value
      varied with the entries cached at the point's index. */
  ghost predicate WorkerEmits(r: Startup, e: Surroundings, draws: nat -> TickDraws, instanceID: bv64, t: nat, m: nat,
                              l: nat, v: NumberValue)
    requires e.Valid()
  {
    var now := r.After(e, draws, t + 1);
    && m < |now| && l < PointCount(now[m]) && now[m].points[l].NumberPoint?
    && var idx := IndexOf(now, PointCount, m, l);
       && idx < |r.plans| && idx < |r.hashes|
       && (r.plans[idx].strategy.Some? ==> ValidStrategy(r.plans[idx].strategy.value))
       && v == EmitNumber(EmitContext(e.trig, instanceID, OptionsAt(e, t)), now[m], now[m].points[l].value,
                          r.plans[idx], r.hashes[idx], r.hints, r.precision)
  }

  lemma DirectEmission(c: EmitContext, m: Metric, p: Point, r: Startup)
    requires c.trig.pi > 0.0 && p.NumberPoint?
    ensures EmitDirect(c, m, p, r.hints, r.precision, r.hash)
         == ApplyNumber(c.trig, StrategyFor(m.kind, Lookup(r.hints, m.name)), p.value, m.kind,
                        Lookup(r.precision, m.name), r.hash(m.name, p.attrs), c.instanceID, c.opts)
  {
    hide ApplyNumber;
  }

  lemma SeenFromKeepsTime(e: Surroundings, draws: nat -> TickDraws, m: nat, l: nat, t: nat)
    ensures OptionsAt(SeenFrom(e, draws, m, l), t) == OptionsAt(e, t)
    ensures e.Valid() ==> SeenFrom(e, draws, m, l).Valid()
  {
  }

  /** Direct emission of a point that holds the series' value is the series' emission. */
  lemma DirectIsEmittedAt(r: Startup, e: Surroundings, draws: nat -> TickDraws, instanceID: bv64, t: nat, m: nat,
                          l: nat, now: seq<Metric>)
    requires e.Valid() && r.HasNumber(m, l)
    requires Holds(now, r, m, l, TemplateAt(r.SeriesAt(m, l), SeenFrom(e, draws, m, l), r.Seed(m, l), t + 1))
    ensures m < |now| && l < PointCount(now[m]) && now[m].points[l].NumberPoint?
    ensures EmitDirect(EmitContext(e.trig, instanceID, OptionsAt(e, t)), now[m], now[m].points[l], r.hints, r.precision,
                       r.hash)
         == EmittedAt(r.SeriesAt(m, l), SeenFrom(e, draws, m, l), r.Seed(m, l), instanceID, t)
  {
    hide TemplateAt, ApplyNumber, StrategyFor, OptionsAt, EmitDirect;
    SeenFromKeepsTime(e, draws, m, l, t);
    DirectEmission(EmitContext(e.trig, instanceID, OptionsAt(e, t)), now[m], now[m].points[l], r);
  }

  /** A worker emits exactly what the series' own run emits. */
  lemma WorkerEmitsSeries(r: Startup, e: Surroundings, draws: nat -> TickDraws, instanceID: bv64, t: nat, m: nat,
                          l: nat, v: NumberValue)
    requires r.Valid() && e.Valid() && OneTape(draws, e.tape) && r.HasNumber(m, l)
    ensures WorkerEmits(r, e, draws, instanceID, t, m, l, v)
       <==> v == EmittedAt(r.SeriesAt(m, l), SeenFrom(e, draws, m, l), r.Seed(m, l), instanceID, t)
  {
    hide TemplateAfter, TemplateAt, EmitDirect, EmitNumber, ApplyNumber, IndexOf, Cached, StrategyFor, OptionsAt,
      SeenFrom, OneTape, Holds;
    PointIsItsSeries(r, e, draws, t + 1, m, l);
    DirectIsEmittedAt(r, e, draws, instanceID, t, m, l, r.After(e, draws, t + 1));
    CachedEmissionIsDirect(r.metrics, r.plans, r.hashes, r.hints, r.precision, r.hash, e.dist, e.interval, draws, t + 1,
                           m, l, EmitContext(e.trig, instanceID, OptionsAt(e, t)));
  }

  /** What a worker emits for a hinted counter with a seed that is not negative never falls. */
  lemma WorkersNeverLowerCounters(r: Startup, e: Surroundings, draws: nat -> TickDraws, instanceID: bv64, t1: nat,
                                  t2: nat, m: nat, l: nat, v: NumberValue, w: NumberValue)
    requires r.Valid() && e.Valid() && OneTape(draws, e.tape) && t1 <= t2
    requires r.HasNumber(m, l) && HintedCounter(r.SeriesAt(m, l))
    requires OnSeriesGrid(r.Seed(m, l), Lookup(r.precision, r.metrics[m].name))
    requires r.Seed(m, l).DoubleValue? ==> r.Seed(m, l).d >= 0.0
    requires WorkerEmits(r, e, draws, instanceID, t1, m, l, v) && WorkerEmits(r, e, draws, instanceID, t2, m, l, w)
    ensures AtMost(v, w)
  {
    hide WorkerEmits, ApplyNumber, TemplateAt, OptionsAt, StrategyFor, OnSeriesGrid, AtMost, Cached;
    WorkerEmitsSeries(r, e, draws, instanceID, t1, m, l, v);
    WorkerEmitsSeries(r, e, draws, instanceID, t2, m, l, w);
    CountersNeverDecrease(r.SeriesAt(m, l), SeenFrom(e, draws, m, l), r.Seed(m, l), instanceID, t1, t2);
  }

  // ----- one point of the template, tick after tick -----

  /** The positions noted so far; later ticks do not matter yet. */
  function Noted(positions: seq<nat>): nat -> nat {
    (t: nat) => if t < |positions| then positions[t] else 0
  }

  function PlacedAt(e: Surroundings, positions: seq<nat>): Surroundings { e.(at := Noted(positions)) }

  /** Where later ticks draw does not change what earlier ones made. */
  lemma {:induction false} LaterDrawsDoNotMatter(s: Series, e: Surroundings, seed: NumberValue, positions: seq<nat>,
                                                 next: nat, t: nat)
    requires t <= |positions|
    ensures TemplateAt(s, PlacedAt(e, positions), seed, t) == TemplateAt(s, PlacedAt(e, positions + [next]), seed, t)
  {
    hide AdvanceNumber;
    if t > 0 {
      LaterDrawsDoNotMatter(s, e, seed, positions, next, t - 1);
    }
  }

  /** All instances' copies of the template's value in tick t: the template itself stays as it is. */
  method EmitCopies(template: NumberDataPoint, s: Series, e: Surroundings, ids: seq<bv64>, t: nat)
    returns (copies: seq<NumberValue>)
    requires e.Valid()
    ensures |copies| == |ids| && forall i :: 0 <= i < |ids| ==>
      copies[i] == ApplyNumber(e.trig, StrategyFor(s.metric, s.hint), template.value, s.metric, s.precision,
                               s.identityHash, ids[i], OptionsAt(e, t))
  {
    hide ApplyNumber, OptionsAt;
    copies := [];
    for i := 0 to |ids|
      invariant |copies| == i && forall k :: 0 <= k < i ==>
        copies[k] == ApplyNumber(e.trig, StrategyFor(s.metric, s.hint), template.value, s.metric, s.precision,
                                 s.identityHash, ids[k], OptionsAt(e, t))
    {
      var copy := new NumberDataPoint(template.value);
      ApplyNumberTo(copy, e.trig, StrategyFor(s.metric, s.hint), s.metric, s.precision, s.identityHash, ids[i],
                    OptionsAt(e, t));
      copies := copies + [copy.value];
    }
  }

  /** The emissions of tick t are those of the series' run. */
  ghost predicate TickEmitted(copies: seq<NumberValue>, s: Series, run: Surroundings, seed: NumberValue,
                              ids: seq<bv64>, t: nat)
    requires run.Valid()
  {
    |copies| == |ids| && forall i :: 0 <= i < |ids| ==> copies[i] == EmittedAt(s, run, seed, ids[i], t)
  }

  ghost predicate AllEmitted(emitted: seq<seq<NumberValue>>, s: Series, run: Surroundings, seed: NumberValue,
                             ids: seq<bv64>)
    requires run.Valid()
  {
    forall t: nat :: t < |emitted| ==> TickEmitted(emitted[t], s, run, seed, ids, t)
  }

  lemma NothingEmitted(s: Series, e: Surroundings, seed: NumberValue, ids: seq<bv64>)
    requires e.Valid()
    ensures AllEmitted([], s, PlacedAt(e, []), seed, ids)
  {
  }

  lemma SameEmission(s: Series, e: Surroundings, seed: NumberValue, id: bv64, positions: seq<nat>, next: nat, t: nat)
    requires e.Valid() && t < |positions|
    ensures EmittedAt(s, PlacedAt(e, positions), seed, id, t)
         == EmittedAt(s, PlacedAt(e, positions + [next]), seed, id, t)
  {
    LaterDrawsDoNotMatter(s, e, seed, positions, next, t + 1);
    assert OptionsAt(PlacedAt(e, positions), t) == OptionsAt(PlacedAt(e, positions + [next]), t);
    hide TemplateAt, ApplyNumber, StrategyFor, OptionsAt, Noted;
  }

  lemma TickStaysEmitted(copies: seq<NumberValue>, s: Series, e: Surroundings, seed: NumberValue, ids: seq<bv64>,
                         positions: seq<nat>, next: nat, t: nat)
    requires e.Valid() && t < |positions| && TickEmitted(copies, s, PlacedAt(e, positions), seed, ids, t)
    ensures TickEmitted(copies, s, PlacedAt(e, positions + [next]), seed, ids, t)
  {
    hide TemplateAt, ApplyNumber, StrategyFor, OptionsAt, Noted;
    forall i | 0 <= i < |ids| ensures copies[i] == EmittedAt(s, PlacedAt(e, positions + [next]), seed, ids[i], t) {
      SameEmission(s, e, seed, ids[i], positions, next, t);
    }
  }

  /** Copies of the template after the new tick are that tick's emissions. */
  lemma NewTickEmitted(copies: seq<NumberValue>, s: Series, e: Surroundings, seed: NumberValue, ids: seq<bv64>,
                       run: Surroundings, t: nat)
    requires e.Valid() && run == e.(at := run.at) && |copies| == |ids|
    requires forall i :: 0 <= i < |ids| ==>
      copies[i] == ApplyNumber(e.trig, StrategyFor(s.metric, s.hint), TemplateAt(s, run, seed, t + 1), s.metric,
                               s.precision, s.identityHash, ids[i], OptionsAt(e, t))
    ensures TickEmitted(copies, s, run, seed, ids, t)
  {
    assert OptionsAt(run, t) == OptionsAt(e, t);
    hide TemplateAt, ApplyNumber, StrategyFor, OptionsAt;
  }

  lemma OneMoreTick(emitted: seq<seq<NumberValue>>, copies: seq<NumberValue>, s: Series, e: Surroundings,
                    seed: NumberValue, ids: seq<bv64>, positions: seq<nat>, next: nat)
    requires e.Valid() && |emitted| == |positions| && AllEmitted(emitted, s, PlacedAt(e, positions), seed, ids)
    requires TickEmitted(copies, s, PlacedAt(e, positions + [next]), seed, ids, |positions|)
    ensures AllEmitted(emitted + [copies], s, PlacedAt(e, positions + [next]), seed, ids)
  {
    hide TickEmitted, Noted;
    var run := PlacedAt(e, positions + [next]);
    forall t: nat | t < |emitted + [copies]| ensures TickEmitted((emitted + [copies])[t], s, run, seed, ids, t) {
      if t < |emitted| {
        TickStaysEmitted(emitted[t], s, e, seed, ids, positions, next, t);
      }
    }
  }

  /** The template after the new tick. */
  lemma TemplateAdvanced(s: Series, e: Surroundings, seed: NumberValue, positions: seq<nat>, next: nat)
    requires e.Valid()
    ensures var run, t := PlacedAt(e, positions + [next]), |positions|;
            TemplateAt(s, run, seed, t + 1)
            == AdvanceNumber(s.metric, TemplateAt(s, run, seed, t), e.dist,
                             AdvanceOptions(s.hint, e.interval, s.precision), e.tape, next).value
  {
    hide AdvanceNumber;
  }

  /** Each tick advances the point of the template in place and then emits every instance's copy of
      it: exactly the emissions of the series' run. */
  method RunPoint(template: NumberDataPoint, s: Series, e: Surroundings, ids: seq<bv64>, ticks: nat, ra: Rand)
    returns (emitted: seq<seq<NumberValue>>, ghost at: nat -> nat)
    requires e.Valid() && e.tape == ra.tape
    modifies template, ra
    ensures |emitted| == ticks
    ensures AllEmitted(emitted, s, e.(at := at), old(template.value), ids)
  {
    hide ApplyNumber, AdvanceNumber, OptionsAt, StrategyFor, AllEmitted;
    assert AllEmitted([], s, PlacedAt(e, []), template.value, ids) by { NothingEmitted(s, e, template.value, ids); }
    ghost var seed, positions := template.value, [];
    emitted, at := [], Noted([]);
    for t := 0 to ticks
      invariant |emitted| == |positions| == t
      invariant at == Noted(positions) && template.value == TemplateAt(s, PlacedAt(e, positions), seed, t)
      invariant AllEmitted(emitted, s, PlacedAt(e, positions), seed, ids)
    {
      ghost var before, here := positions, ra.pos;
      positions := before + [here];
      LaterDrawsDoNotMatter(s, e, seed, before, here, t);
      AdvanceDataPoint(template, s.metric, e.dist, AdvanceOptions(s.hint, e.interval, s.precision), ra);
      var copies := EmitCopies(template, s, e, ids, t);
      TemplateAdvanced(s, e, seed, before, here);
      NewTickEmitted(copies, s, e, seed, ids, PlacedAt(e, positions), t);
      OneMoreTick(emitted, copies, s, e, seed, ids, before, here);
      emitted, at := emitted + [copies], Noted(positions);
    }
  }
}
