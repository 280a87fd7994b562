/** The tick loop over all scenarios: a tick emits every slot of every scenario once, in order
    or by workers, then applies churn (receiver.go). */
module ChurnRun {
  import opened Numbers
  import opened Config
  import opened Random
  import opened Churn
  import opened ChurnSchedule
  import opened Emit

  /** How often an id was emitted. */
  ghost function Samples(log: seq<Emission>, id: int): nat {
    multiset(EmissionIds(log))[id]
  }

  /** How often the instance with raw id x was emitted. */
  ghost function SamplesOfRaw(log: seq<Emission>, offset: nat, x: nat): nat {
    Samples(log, x + offset)
  }

  /** Number of tick starts in [startTime, endTime). */
  ghost function TickCount(startTime: int, endTime: int, interval: int): (n: nat)
    requires interval > 0
    ensures n > 0 ==> startTime + (n - 1) * interval < endTime
    ensures startTime + n * interval >= endTime
  {
    CeilAtMost(endTime - startTime, interval, CeilDiv(endTime - startTime, interval));
    CeilAtMost(endTime - startTime, interval, CeilDiv(endTime - startTime, interval) - 1);
    if endTime <= startTime then 0 else CeilDiv(endTime - startTime, interval)
  }

  lemma TickCountIs(startTime: int, endTime: int, interval: int, n: nat)
    requires interval > 0
    requires n > 0 ==> startTime + (n - 1) * interval < endTime
    requires startTime + n * interval >= endTime
    ensures n == TickCount(startTime, endTime, interval)
  {
    var m := TickCount(startTime, endTime, interval);
    if m < n {
      MulOrder(m, n - 1, interval);
    } else if n < m {
      MulOrder(n, m - 1, interval);
    }
  }

  /** How often an id occurs in the slots over the first n ticks, whatever rendering does. */
  ghost function SlotTicks(resources: seq<Resource>, render: Renderer, offset: nat, rate: Rate, id: int, n: nat): nat
    requires |resources| > 0
  {
    if n == 0 then 0 else
      SlotTicks(resources, render, offset, rate, id, n - 1)
      + multiset(SlotIds(SlotsAfter(resources, render, offset, Replaced(rate, n - 1))))[id]
  }

  lemma CountsDistinct(ids: seq<int>, x: int)
    requires forall i, j :: 0 <= i < j < |ids| ==> ids[i] != ids[j]
    ensures multiset(ids)[x] == if x in ids then 1 else 0
  {
    if x in ids {
      var k :| 0 <= k < |ids| && ids[k] == x;
      assert ids == ids[..k] + [x] + ids[k + 1..];
      assert x !in ids[..k] && x !in ids[k + 1..];
      assert multiset(ids) == multiset(ids[..k]) + multiset([x]) + multiset(ids[k + 1..]);
    }
  }

  /** With m replacements made and rendering never failing, a live id is in one slot, any other in none. */
  lemma OccursWhenLive(resources: seq<Resource>, render: Renderer, offset: nat, m: nat, x: nat)
    requires |resources| > 0 && AllRender(render, |resources|)
    ensures multiset(SlotIds(SlotsAfter(resources, render, offset, m)))[x + offset]
         == if m <= x < m + |resources| then 1 else 0
  {
    var ids := SlotIds(SlotsAfter(resources, render, offset, m));
    hide SlotsAfter, AllRender;
    forall i, j | 0 <= i < j < |ids| ensures ids[i] != ids[j] {
      SlotIdsDistinct(resources, render, offset, m, i, j);
    }
    CountsDistinct(ids, x + offset);
    forall j: nat | j < |ids| ensures ids[j] == x + offset <==> m <= x < m + |ids| && x % |ids| == j {
      LiveSet(resources, render, offset, m, x, j);
    }
    DivisionIdentity(x, |ids|);
    assert ids[x % |ids|] == x + offset <==> m <= x < m + |ids|;
  }

  /** When rendering never fails, the slots are the interval of live ids. */
  lemma {:induction false} SlotTicksAreLiveTicks(resources: seq<Resource>, render: Renderer, offset: nat, rate: Rate,
                                                 x: nat, n: nat)
    requires |resources| > 0 && AllRender(render, |resources|)
    ensures SlotTicks(resources, render, offset, rate, x + offset, n) == LiveTicks(rate, |resources|, x, n)
  {
    hide SlotsAfter, AllRender;
    if n > 0 {
      SlotTicksAreLiveTicks(resources, render, offset, rate, x, n - 1);
      OccursWhenLive(resources, render, offset, Replaced(rate, n - 1), x);
    }
  }

  ghost predicate TimesIncrease(log: seq<Emission>) {
    forall p, q :: 0 <= p < q < |log| && log[p].id == log[q].id ==> log[p].time < log[q].time
  }

  lemma AppendBatch(log: seq<Emission>, batch: seq<Emission>, t: int)
    requires TimesIncrease(log) && forall e :: e in log ==> e.time < t
    requires forall e :: e in batch ==> e.time >= t
    requires forall i, j :: 0 <= i < j < |batch| ==> batch[i].id != batch[j].id
    ensures TimesIncrease(log + batch)
    ensures EmissionIds(log + batch) == EmissionIds(log) + EmissionIds(batch)
  {
    forall p, q | 0 <= p < q < |log + batch| && (log + batch)[p].id == (log + batch)[q].id
      ensures (log + batch)[p].time < (log + batch)[q].time
    {
      if p < |log| {
        assert (log + batch)[p] in log;
        if q >= |log| { assert (log + batch)[q] in batch; }
      }
    }
  }

  /** How often an id should have been emitted after n ticks. */
  ghost function Expected(resources: seq<Resource>, render: Renderer, offset: nat, rate: Rate, id: int, n: nat): nat {
    if resources == [] then 0 else SlotTicks(resources, render, offset, rate, id, n)
  }

  /** The ids a scenario emits in tick n. */
  ghost function DueIds(resources: seq<Resource>, render: Renderer, offset: nat, rate: Rate, n: nat): seq<int> {
    if resources == [] then [] else SlotIds(SlotsAfter(resources, render, offset, Replaced(rate, n)))
  }

  /** Every emission carries its id's own resource. */
  ghost predicate OwnResources(log: seq<Emission>, resources: seq<Resource>, render: Renderer, offset: nat) {
    forall e :: e in log ==> Some(e.resource) == ResourceOf(resources, render, e.id - offset)
  }

  lemma SlotsCarryOwn(batch: seq<Emission>, resources: seq<Resource>, render: Renderer, offset: nat, m: nat)
    requires resources != [] && FromSlots(batch, SlotsAfter(resources, render, offset, m))
    ensures OwnResources(batch, resources, render, offset)
  {
    var slots := SlotsAfter(resources, render, offset, m);
    hide SlotsAfter, ResourceOf;
    forall e | e in batch ensures Some(e.resource) == ResourceOf(resources, render, e.id - offset) {
      var j :| 0 <= j < |slots| && slots[j] == Instance(e.id, e.resource);
      SlotHoldsLatest(resources, render, offset, m, j);
    }
  }

  lemma BatchCarriesOwn(batch: seq<Emission>, slots: seq<Instance>, resources: seq<Resource>, render: Renderer,
                        offset: nat, m: nat)
    requires FromSlots(batch, slots) && |slots| == |resources|
    requires resources != [] ==> slots == SlotsAfter(resources, render, offset, m)
    ensures OwnResources(batch, resources, render, offset)
  {
    hide SlotsAfter, ResourceOf;
    if resources != [] {
      SlotsCarryOwn(batch, resources, render, offset, m);
    } else {
      assert forall e: Emission :: Instance(e.id, e.resource) !in slots;
    }
  }

  /** The scenario's state after n ticks of a run that began in slots InitialSlots(resources, offset). */
  ghost predicate AfterTicks(scn: Scenario, resources: seq<Resource>, render: Renderer, n: nat)
    reads scn, scn.instances
  {
    && scn.churnRemainder == (if scn.rate.Enabled() then Residue(scn.rate, n) else 0)
    && scn.instances.Length == |resources|
    && (resources != [] ==>
          && scn.instances[..] == SlotsAfter(resources, render, scn.offset, Replaced(scn.rate, n))
          && scn.nextReplacementInstanceID == |resources| + Replaced(scn.rate, n))
  }

  /** The churn half of a tick for one scenario. */
  method ChurnTick(scn: Scenario, ghost resources: seq<Resource>, render: Renderer, ghost n: nat)
    requires AfterTicks(scn, resources, render, n)
    modifies scn, scn.instances
    ensures AfterTicks(scn, resources, render, n + 1)
  {
    ghost var churn := scn.ApplyChurn(render);
    if scn.rate.Enabled() {
      AccumulatorStep(scn.rate, n, churn, scn.churnRemainder);
    }
    if resources != [] {
      ReplaceInTwoParts(InitialSlots(resources, scn.offset), render, scn.offset, |resources|, Replaced(scn.rate, n),
                        churn);
    }
  }

  /** The scenarios of a run: separate objects, workers that divide the instances evenly. */
  ghost predicate Scenarios(scns: seq<Scenario>, resources: seq<seq<Resource>>, renders: seq<Renderer>) {
    && |scns| == |resources| == |renders|
    && (forall i, j :: 0 <= i < j < |scns| ==> scns[i] != scns[j] && scns[i].instances != scns[j].instances)
    && forall i :: 0 <= i < |scns| && scns[i].concurrency > 0 ==> scns[i].instances.Length % scns[i].concurrency == 0
  }

  /** The churn half of a tick for all scenarios. */
  method ApplyChurn(scns: seq<Scenario>, ghost resources: seq<seq<Resource>>, renders: seq<Renderer>, ghost n: nat)
    requires Scenarios(scns, resources, renders)
    requires forall i :: 0 <= i < |scns| ==> AfterTicks(scns[i], resources[i], renders[i], n)
    modifies scns, set s | s in scns :: s.instances
    ensures forall i :: 0 <= i < |scns| ==> AfterTicks(scns[i], resources[i], renders[i], n + 1)
  {
    hide SlotsAfter, Residue, Replaced;
    for k := 0 to |scns|
      invariant forall i :: 0 <= i < k ==> AfterTicks(scns[i], resources[i], renders[i], n + 1)
      invariant forall i :: k <= i < |scns| ==> AfterTicks(scns[i], resources[i], renders[i], n)
    {
      ChurnTick(scns[k], resources[k], renders[k], n);
    }
  }

  /** One turn of the loop: all scenarios emit, then all churn. */
  method Tick(scns: seq<Scenario>, ghost resources: seq<seq<Resource>>, renders: seq<Renderer>,
              currentTime: int, interval: int, stdDev: int, seeded: nat -> Tape, ra: Rand, ghost n: nat)
    returns (batches: seq<seq<Emission>>)
    requires interval >= 1 && Scenarios(scns, resources, renders)
    requires forall i :: 0 <= i < |scns| ==> AfterTicks(scns[i], resources[i], renders[i], n)
    modifies ra, scns, set s | s in scns :: s.instances
    ensures forall i :: 0 <= i < |scns| ==> AfterTicks(scns[i], resources[i], renders[i], n + 1)
    ensures |batches| == |scns| && forall i :: 0 <= i < |scns| ==>
      && multiset(EmissionIds(batches[i]))
           == multiset(DueIds(resources[i], renders[i], scns[i].offset, scns[i].rate, n))
      && Within(batches[i], currentTime, interval)
      && OwnResources(batches[i], resources[i], renders[i], scns[i].offset)
  {
    hide SlotsAfter, Residue, Replaced, OwnResources;
    batches := [];
    for k := 0 to |scns|
      modifies ra
      invariant |batches| == k && forall i :: 0 <= i < k ==>
        && multiset(EmissionIds(batches[i]))
             == multiset(DueIds(resources[i], renders[i], scns[i].offset, scns[i].rate, n))
        && Within(batches[i], currentTime, interval)
        && OwnResources(batches[i], resources[i], renders[i], scns[i].offset)
    {
      var batch := ProduceMetrics(scns[k], currentTime, interval, stdDev, seeded, ra);
      assert SlotIds(scns[k].instances[..]) == DueIds(resources[k], renders[k], scns[k].offset, scns[k].rate, n);
      BatchCarriesOwn(batch, scns[k].instances[..], resources[k], renders[k], scns[k].offset,
                      Replaced(scns[k].rate, n));
      batches := batches + [batch];
    }
    ApplyChurn(scns, resources, renders, n);
  }

  /** A scenario's log after n ticks, the last of them before time now. */
  ghost predicate RightLog(log: seq<Emission>, resources: seq<Resource>, render: Renderer, offset: nat, rate: Rate,
                           n: nat, now: int) {
    && (forall id :: Samples(log, id) == Expected(resources, render, offset, rate, id, n))
    && TimesIncrease(log) && (forall e :: e in log ==> e.time < now) && OwnResources(log, resources, render, offset)
  }

  lemma SamplesAppend(log: seq<Emission>, batch: seq<Emission>, id: int)
    ensures Samples(log + batch, id) == Samples(log, id) + multiset(EmissionIds(batch))[id]
  {
    assert EmissionIds(log + batch) == EmissionIds(log) + EmissionIds(batch);
  }

  lemma ExpectedStep(resources: seq<Resource>, render: Renderer, offset: nat, rate: Rate, id: int, n: nat)
    ensures Expected(resources, render, offset, rate, id, n + 1)
         == Expected(resources, render, offset, rate, id, n) + multiset(DueIds(resources, render, offset, rate, n))[id]
  {
    hide SlotsAfter, Replaced;
  }

  lemma OccursTwice(ids: seq<int>, i: nat, j: nat)
    requires i < j < |ids| && ids[i] == ids[j]
    ensures multiset(ids)[ids[i]] >= 2
  {
    assert ids == ids[..j] + ids[j..];
    assert ids[i] in ids[..j] && ids[j] in ids[j..];
    assert multiset(ids) == multiset(ids[..j]) + multiset(ids[j..]);
  }

  lemma DistinctBatch(resources: seq<Resource>, render: Renderer, offset: nat, rate: Rate, n: nat, batch: seq<Emission>)
    requires multiset(EmissionIds(batch)) == multiset(DueIds(resources, render, offset, rate, n))
    ensures forall i, j :: 0 <= i < j < |batch| ==> batch[i].id != batch[j].id
  {
    var ids, due := EmissionIds(batch), DueIds(resources, render, offset, rate, n);
    forall i, j | 0 <= i < j < |due| ensures due[i] != due[j] {
      SlotIdsDistinct(resources, render, offset, Replaced(rate, n), i, j);
    }
    forall i, j | 0 <= i < j < |batch| ensures batch[i].id != batch[j].id {
      if ids[i] == ids[j] {
        OccursTwice(ids, i, j);
        CountsDistinct(due, ids[i]);
      }
    }
  }

  lemma LogStep(log: seq<Emission>, batch: seq<Emission>, resources: seq<Resource>, render: Renderer, offset: nat,
                rate: Rate, n: nat, now: int, interval: int)
    requires RightLog(log, resources, render, offset, rate, n, now) && Within(batch, now, interval) && interval >= 1
    requires OwnResources(batch, resources, render, offset)
    requires multiset(EmissionIds(batch)) == multiset(DueIds(resources, render, offset, rate, n))
    ensures RightLog(log + batch, resources, render, offset, rate, n + 1, now + interval)
  {
    assert forall e :: e in log ==> e.time < now;
    assert forall e :: e in batch ==> now <= e.time < now + interval;
    DistinctBatch(resources, render, offset, rate, n, batch);
    AppendBatch(log, batch, now);
    hide DueIds, Expected, TimesIncrease, Within;
    forall id ensures Samples(log + batch, id) == Expected(resources, render, offset, rate, id, n + 1) {
      SamplesAppend(log, batch, id);
      assert Samples(log, id) == Expected(resources, render, offset, rate, id, n);
      ExpectedStep(resources, render, offset, rate, id, n);
    }
    hide Samples;
  }

  lemma NothingLogged()
    ensures forall resources, render, offset, rate, now :: RightLog([], resources, render, offset, rate, 0, now)
  {
  }

  /** The loop of Start from StartTime (inclusive) to EndTime (exclusive), one log a scenario. */
  method Run(scns: seq<Scenario>, ghost resources: seq<seq<Resource>>, renders: seq<Renderer>,
             startTime: int, endTime: int, interval: int, stdDev: int, seeded: nat -> Tape, ra: Rand)
    returns (logs: seq<seq<Emission>>, ghost ticks: nat)
    requires interval >= 1 && Scenarios(scns, resources, renders)
    requires forall i :: 0 <= i < |scns| ==> AfterTicks(scns[i], resources[i], renders[i], 0)
    modifies ra, scns, set s | s in scns :: s.instances
    ensures ticks == TickCount(startTime, endTime, interval) && |logs| == |scns|
    ensures forall i :: 0 <= i < |scns| ==> AfterTicks(scns[i], resources[i], renders[i], ticks)
    ensures forall i, id :: 0 <= i < |scns| ==>
      Samples(logs[i], id) == Expected(resources[i], renders[i], scns[i].offset, scns[i].rate, id, ticks)
    ensures forall i :: 0 <= i < |scns| ==>
      TimesIncrease(logs[i]) && OwnResources(logs[i], resources[i], renders[i], scns[i].offset)
  {
    hide AfterTicks;
    logs, ticks := seq(|scns|, _ => []), 0;
    NothingLogged();
    var currentTime := startTime;
    while currentTime < endTime
      invariant currentTime == startTime + ticks * interval
      invariant ticks > 0 ==> startTime + (ticks - 1) * interval < endTime
      invariant |logs| == |scns|
      invariant forall i :: 0 <= i < |scns| ==> AfterTicks(scns[i], resources[i], renders[i], ticks)
      invariant forall i :: 0 <= i < |scns| ==>
        RightLog(logs[i], resources[i], renders[i], scns[i].offset, scns[i].rate, ticks, currentTime)
      decreases endTime - currentTime
    {
      var batches := Tick(scns, resources, renders, currentTime, interval, stdDev, seeded, ra, ticks);
      hide RightLog, Within, DueIds, TickCount, OwnResources;
      forall i | 0 <= i < |scns|
        ensures RightLog(logs[i] + batches[i], resources[i], renders[i], scns[i].offset, scns[i].rate, ticks + 1,
                         currentTime + interval)
      {
        LogStep(logs[i], batches[i], resources[i], renders[i], scns[i].offset, scns[i].rate, ticks, currentTime,
                interval);
      }
      logs := seq(|scns|, i requires 0 <= i < |scns| => logs[i] + batches[i]);
      assert startTime + ticks * interval + interval == startTime + (ticks + 1) * interval;
      currentTime, ticks := currentTime + interval, ticks + 1;
    }
    TickCountIs(startTime, endTime, interval, ticks);
  }

  lemma SomethingSampled(log: seq<Emission>)
    requires log != []
    ensures Samples(log, log[0].id) > 0
  {
    assert EmissionIds(log)[0] == log[0].id;
    assert log[0].id in multiset(EmissionIds(log));
  }

  lemma NothingSampled(log: seq<Emission>)
    requires forall id :: Samples(log, id) == 0
    ensures log == []
  {
    if log != [] {
      SomethingSampled(log);
    }
  }

  /** The rate of a scenario is the reduced form of the one its configuration asks for. */
  ghost predicate ReducesTo(rate: Rate, cfg: ScenarioCfg, interval: int)
    requires interval >= SECOND && ValidScenario(cfg, interval)
  {
    var want := RequestedRate(cfg.churn, cfg.scale, interval);
    if want.Enabled() then Reduces(rate, want.replacements, want.intervals) else rate == Rate(0, 0)
  }

  method NewScenario(cfg: ScenarioCfg, interval: int, offset: nat, resources: seq<Resource>, render: Renderer)
    returns (scn: Scenario)
    requires interval >= SECOND && ValidScenario(cfg, interval) && |resources| == cfg.scale
    ensures fresh(scn) && fresh(scn.instances)
    ensures AfterTicks(scn, resources, render, 0) && scn.offset == offset && ReducesTo(scn.rate, cfg, interval)
    ensures scn.concurrency > 0 ==> scn.instances.Length % scn.concurrency == 0
  {
    var rate := NewChurnRate(cfg.churn, cfg.scale, interval);
    scn := new Scenario(resources, cfg.concurrency, offset, rate);
  }

  /** The scenarios as the receiver is created. */
  method Setup(cfgs: seq<ScenarioCfg>, interval: int, offset: nat, resources: seq<seq<Resource>>,
               renders: seq<Renderer>)
    returns (scns: seq<Scenario>)
    requires interval >= SECOND && |cfgs| == |resources| == |renders|
    requires forall i :: 0 <= i < |cfgs| ==> ValidScenario(cfgs[i], interval) && |resources[i]| == cfgs[i].scale
    ensures Scenarios(scns, resources, renders)
    ensures forall i :: 0 <= i < |scns| ==> fresh(scns[i]) && fresh(scns[i].instances)
    ensures forall i :: 0 <= i < |scns| ==>
      && AfterTicks(scns[i], resources[i], renders[i], 0) && scns[i].offset == offset
      && ReducesTo(scns[i].rate, cfgs[i], interval)
  {
    hide ReducesTo, AfterTicks;
    scns := [];
    for i := 0 to |cfgs|
      invariant |scns| == i && Scenarios(scns, resources[..i], renders[..i])
      invariant forall k :: 0 <= k < i ==> fresh(scns[k]) && fresh(scns[k].instances)
      invariant forall k :: 0 <= k < i ==>
        && AfterTicks(scns[k], resources[k], renders[k], 0) && scns[k].offset == offset
        && ReducesTo(scns[k].rate, cfgs[k], interval)
    {
      var scn := NewScenario(cfgs[i], interval, offset, resources[i], renders[i]);
      scns := scns + [scn];
    }
    assert resources[..|cfgs|] == resources && renders[..|cfgs|] == renders;
  }

  /** Ticks raw id x is live in, of the first `ticks`, when `replacements` slots are replaced in every
      `intervals` ticks: from its birth (initial ids are there at the start) to its retirement. */
  ghost function TicksOf(want: Rate, scale: nat, x: nat, ticks: nat): int
    requires want.Enabled()
  {
    var born := if x < scale then 0 else CeilDiv((x - scale + 1) * want.intervals, want.replacements);
    var retired := CeilDiv((x + 1) * want.intervals, want.replacements);
    MinInt(ticks, retired) - MinInt(ticks, born)
  }

  /** What the configuration promises about the samples of raw id x within the first `ticks` ticks:
      their exact number, and the bounds its settings are documented with. */
  ghost predicate SamplesAreRight(cfg: ScenarioCfg, interval: int, x: nat, ticks: nat, samples: nat)
    requires interval >= SECOND && cfg.scale > 0 && ValidScenario(cfg, interval)
  {
    var s := cfg.scale;
    match cfg.churn
    case None => samples == if x < s then ticks else 0
    case Some(churn) =>
      var k, l := churn.samplesPerSeries, churn.instanceLifetime;
      MulOrder(1, s, interval);
      && samples == TicksOf(if k > 0 then Rate(s, k) else Rate(s * interval, l), s, x, ticks)
      && if k > 0 then
           && samples <= k
           && (x >= s && CeilDiv((x + 1) * k, s) <= ticks ==> samples == k)
           && (x < s ==> samples == MinInt(ticks, CeilDiv((x + 1) * k, s)))
         else
           && (x >= s ==> samples <= CeilDiv(l, interval))
           && (x >= s && CeilDiv((x + 1) * l, s * interval) <= ticks ==> l / interval <= samples)
           && (x < s ==> samples == MinInt(ticks, CeilDiv((x + 1) * l, s * interval)))
  }

  lemma {:induction false} WithoutChurn(rate: Rate, scale: nat, x: nat, n: nat)
    requires !rate.Enabled()
    ensures LiveTicks(rate, scale, x, n) == if x < scale then n else 0
  {
    if n > 0 {
      WithoutChurn(rate, scale, x, n - 1);
    }
  }

  lemma SamplesOf(cfg: ScenarioCfg, interval: int, rate: Rate, x: nat, ticks: nat)
    requires interval >= SECOND && cfg.scale > 0 && ValidScenario(cfg, interval)
    requires var want := RequestedRate(cfg.churn, cfg.scale, interval);
             if want.Enabled() then Reduces(rate, want.replacements, want.intervals) else rate == Rate(0, 0)
    ensures SamplesAreRight(cfg, interval, x, ticks, LiveTicks(rate, cfg.scale, x, ticks))
  {
    if cfg.churn.None? {
      WithoutChurn(rate, cfg.scale, x, ticks);
    } else {
      var churn := cfg.churn.value;
      MulOrder(1, cfg.scale, interval);
      LiveTicksClosedForm(rate, cfg.scale, x, ticks);
      FirstTickOfReduced(rate, RequestedRate(cfg.churn, cfg.scale, interval), x + 1);
      FirstTickOfReduced(rate, RequestedRate(cfg.churn, cfg.scale, interval), x - cfg.scale + 1);
      if churn.samplesPerSeries > 0 {
        SamplesPerSeriesIsExact(rate, cfg.scale, churn.samplesPerSeries, x);
      } else if x >= cfg.scale {
        LifetimeIsWithinOneTick(rate, cfg.scale, interval, churn.instanceLifetime, x);
      }
    }
  }

  /** From a validated configuration to the emitted samples of every scenario. */
  method Simulate(cfgs: seq<ScenarioCfg>, interval: int, startTime: int, endTime: int, stdDev: int, offset: nat,
                  resources: seq<seq<Resource>>, renders: seq<Renderer>, seeded: nat -> Tape, ra: Rand)
    returns (logs: seq<seq<Emission>>, ghost ticks: nat)
    requires interval >= SECOND && |cfgs| == |resources| == |renders|
    requires forall i :: 0 <= i < |cfgs| ==> ValidScenario(cfgs[i], interval) && |resources[i]| == cfgs[i].scale
    modifies ra
    ensures ticks == TickCount(startTime, endTime, interval) && |logs| == |cfgs|
    ensures forall i :: 0 <= i < |cfgs| ==>
      && TimesIncrease(logs[i]) && OwnResources(logs[i], resources[i], renders[i], offset)
      && (cfgs[i].scale == 0 ==> logs[i] == [])
    ensures forall i :: 0 <= i < |cfgs| && cfgs[i].scale > 0 && AllRender(renders[i], cfgs[i].scale) ==>
      forall x: nat :: SamplesAreRight(cfgs[i], interval, x, ticks, SamplesOfRaw(logs[i], offset, x))
  {
    var scns := Setup(cfgs, interval, offset, resources, renders);
    logs, ticks := Run(scns, resources, renders, startTime, endTime, interval, stdDev, seeded, ra);
    forall i | 0 <= i < |cfgs| && cfgs[i].scale > 0 && AllRender(renders[i], cfgs[i].scale)
      ensures forall x: nat :: SamplesAreRight(cfgs[i], interval, x, ticks, SamplesOfRaw(logs[i], offset, x))
    {
      forall x: nat ensures SamplesAreRight(cfgs[i], interval, x, ticks, SamplesOfRaw(logs[i], offset, x)) {
        SlotTicksAreLiveTicks(resources[i], renders[i], offset, scns[i].rate, x, ticks);
        SamplesOf(cfgs[i], interval, scns[i].rate, x, ticks);
      }
    }
    forall i | 0 <= i < |cfgs| && cfgs[i].scale == 0 ensures logs[i] == [] {
      NothingSampled(logs[i]);
    }
  }
}
