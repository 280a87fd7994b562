/** Reading, checking and stripping generation hints (metricstmpl/generation_hints.go). */
module Hints {
  import opened Config
  import opened Metrics

  datatype MetaValue = MetaStr(s: string) | MetaOther(tag: int)

  const HINT_KEY := "metricsgen.hint.class"

  class Metric {
    const name: string
    const kind: MetricType
    var metadata: map<string, MetaValue>

    constructor (name: string, kind: MetricType, metadata: map<string, MetaValue>)
      ensures this.name == name && this.kind == kind && this.metadata == metadata
    {
      this.name, this.kind, this.metadata := name, kind, metadata;
    }
  }

  function ParseClass(s: string): Option<HintClass> {
    if s == "clock" then Some(Clock)
    else if s == "constant" then Some(Constant)
    else if s == "current_count" then Some(CurrentCount)
    else if s == "slow_gauge" then Some(SlowGauge)
    else if s == "sparse_counter" then Some(SparseCounter)
    else if s == "stable_binary" then Some(StableBinary)
    else if s == "steady_counter" then Some(SteadyCounter)
    else None
  }

  predicate SupportsGenerationHints(kind: MetricType) { kind.Gauge? || kind.Sum? }

  // ----- what a template declares -----

  datatype Declaration = Declaration(name: string, kind: MetricType, meta: Option<MetaValue>)

  function MetaOf(metadata: map<string, MetaValue>): Option<MetaValue> {
    if HINT_KEY in metadata then Some(metadata[HINT_KEY]) else None
  }

  ghost function Declarations(ms: seq<Metric>): (ds: seq<Declaration>)
    reads ms
    ensures |ds| == |ms|
    ensures forall k :: 0 <= k < |ms| ==> ds[k] == Declaration(ms[k].name, ms[k].kind, MetaOf(ms[k].metadata))
  {
    seq(|ms|, k requires 0 <= k < |ms| reads ms => Declaration(ms[k].name, ms[k].kind, MetaOf(ms[k].metadata)))
  }

  /** No hint, or a known class in a string on a gauge or sum. */
  predicate ValidDeclaration(d: Declaration) {
    d.meta.Some? ==> SupportsGenerationHints(d.kind) && d.meta.value.MetaStr? && ParseClass(d.meta.value.s).Some?
  }

  function ClassOf(d: Declaration): Option<HintClass>
    requires ValidDeclaration(d)
  {
    if d.meta.None? then None else ParseClass(d.meta.value.s)
  }

  /** Every declaration is valid, and all metrics of one name declare the same class or none. */
  ghost predicate Consistent(ds: seq<Declaration>) {
    && (forall k :: 0 <= k < |ds| ==> ValidDeclaration(ds[k]))
    && (forall j, k :: 0 <= j < |ds| && 0 <= k < |ds| && ds[j].name == ds[k].name ==> ClassOf(ds[j]) == ClassOf(ds[k]))
  }

  /** hints holds exactly the hinted names, each with its class. */
  ghost predicate Collects(hints: map<string, HintClass>, ds: seq<Declaration>)
    requires Consistent(ds)
  {
    && (forall k :: 0 <= k < |ds| && ds[k].meta.Some? ==>
           ds[k].name in hints && Some(hints[ds[k].name]) == ClassOf(ds[k]))
    && (forall name :: name in hints ==> exists k :: 0 <= k < |ds| && ds[k].name == name && ds[k].meta.Some?)
  }

  // ----- the consistency state machine -----

  /** What has been seen of one metric name so far. */
  datatype NameState = NameState(hintClass: Option<HintClass>, seen: bool) {
    predicate HasHint() { hintClass.Some? }
  }

  function StateOf(consistency: map<string, NameState>, name: string): NameState {
    if name in consistency then consistency[name] else NameState(None, false)
  }

  datatype HintError = Inconsistent(name: string) | NotGaugeOrSum(name: string) | NonString(name: string)
                     | UnsupportedClass(name: string) | DifferentClass(name: string)

  /** The visitor's verdict on one metric, given the state of its name. */
  function Visit(state: NameState, d: Declaration): Option<HintError> {
    if d.meta.None? then (if state.HasHint() then Some(Inconsistent(d.name)) else None)
    else if !SupportsGenerationHints(d.kind) then Some(NotGaugeOrSum(d.name))
    else if !d.meta.value.MetaStr? then Some(NonString(d.name))
    else
      var class' := ParseClass(d.meta.value.s);
      if class'.None? then Some(UnsupportedClass(d.name))
      else if state.seen && !state.HasHint() then Some(Inconsistent(d.name))
      else if state.HasHint() && state.hintClass != class' then Some(DifferentClass(d.name))
      else None
  }

  /** While no error has been found, the state of every name summarizes the prefix. */
  ghost predicate TracksNames(consistency: map<string, NameState>, ds: seq<Declaration>)
    requires Consistent(ds)
  {
    && (forall k :: 0 <= k < |ds| ==>
           StateOf(consistency, ds[k].name).seen && StateOf(consistency, ds[k].name).hintClass == ClassOf(ds[k]))
    && (forall name :: StateOf(consistency, name).seen ==> exists k :: 0 <= k < |ds| && ds[k].name == name)
    && (forall name :: StateOf(consistency, name).HasHint() ==> StateOf(consistency, name).seen)
  }

  /** The hints are those recorded in the states. */
  ghost predicate TracksHints(consistency: map<string, NameState>, hints: map<string, HintClass>) {
    forall name :: StateOf(consistency, name).hintClass == if name in hints then Some(hints[name]) else None
  }

  ghost predicate Tracks(consistency: map<string, NameState>, hints: map<string, HintClass>, ds: seq<Declaration>)
    requires Consistent(ds)
  {
    TracksNames(consistency, ds) && TracksHints(consistency, hints)
  }

  /** The verdict decides whether the longer prefix is still consistent. */
  lemma VisitDecides(consistency: map<string, NameState>, hints: map<string, HintClass>, ds: seq<Declaration>,
                     d: Declaration)
    requires Consistent(ds) && Tracks(consistency, hints, ds)
    ensures Visit(StateOf(consistency, d.name), d).None? <==> Consistent(ds + [d])
  {
    var state, all := StateOf(consistency, d.name), ds + [d];
    assert all[|ds|] == d;
    forall k | 0 <= k < |ds| ensures all[k] == ds[k] {}
    if Consistent(all) {
      if state.seen {
        var k :| 0 <= k < |ds| && ds[k].name == d.name;
        assert ClassOf(all[k]) == ClassOf(all[|ds|]);
      }
    }
    if Visit(state, d).None? {
      assert ValidDeclaration(d);
      forall k | 0 <= k < |ds| && ds[k].name == d.name ensures ClassOf(ds[k]) == ClassOf(d) {
        assert StateOf(consistency, ds[k].name).seen;
      }
    }
  }

  lemma PrefixConsistent(ds: seq<Declaration>, d: Declaration)
    requires Consistent(ds + [d])
    ensures Consistent(ds)
  {
    forall k | 0 <= k < |ds| ensures (ds + [d])[k] == ds[k] {}
  }

  lemma SameClass(ds: seq<Declaration>, d: Declaration, k: nat)
    requires Consistent(ds) && Consistent(ds + [d]) && k < |ds| && ds[k].name == d.name
    ensures ValidDeclaration(d) && ClassOf(ds[k]) == ClassOf(d)
  {
    assert (ds + [d])[|ds|] == d && (ds + [d])[k] == ds[k];
  }

  lemma NamesExtend(consistency: map<string, NameState>, ds: seq<Declaration>, d: Declaration)
    requires Consistent(ds) && Consistent(ds + [d]) && ValidDeclaration(d) && TracksNames(consistency, ds)
    ensures TracksNames(consistency[d.name := NameState(ClassOf(d), true)], ds + [d])
  {
    var all, next := ds + [d], consistency[d.name := NameState(ClassOf(d), true)];
    forall k | 0 <= k < |all|
      ensures StateOf(next, all[k].name).seen && StateOf(next, all[k].name).hintClass == ClassOf(all[k]) {
      if k < |ds| && ds[k].name == d.name {
        SameClass(ds, d, k);
      }
    }
    forall name | StateOf(next, name).HasHint() ensures StateOf(next, name).seen {
      assert name != d.name ==> StateOf(consistency, name).HasHint();
    }
    forall name | StateOf(next, name).seen ensures exists k :: 0 <= k < |all| && all[k].name == name {
      if name == d.name {
        assert all[|ds|].name == name;
      } else {
        assert StateOf(consistency, name).seen;
        var k :| 0 <= k < |ds| && ds[k].name == name;
        assert all[k].name == name;
      }
    }
  }

  lemma TracksExtends(consistency: map<string, NameState>, hints: map<string, HintClass>, ds: seq<Declaration>,
                      d: Declaration)
    requires Consistent(ds) && Consistent(ds + [d]) && Tracks(consistency, hints, ds)
    ensures ValidDeclaration(d)
    ensures Tracks(consistency[d.name := NameState(ClassOf(d), true)],
                   if d.meta.Some? then hints[d.name := ClassOf(d).value] else hints, ds + [d])
  {
    assert (ds + [d])[|ds|] == d;
    NamesExtend(consistency, ds, d);
    if d.meta.None? && StateOf(consistency, d.name).HasHint() {
      var k :| 0 <= k < |ds| && ds[k].name == d.name;
      SameClass(ds, d, k);
    }
  }

  lemma TrackedHintsCollect(consistency: map<string, NameState>, hints: map<string, HintClass>, ds: seq<Declaration>)
    requires Consistent(ds) && Tracks(consistency, hints, ds)
    ensures Collects(hints, ds)
  {
    forall name | name in hints ensures exists k :: 0 <= k < |ds| && ds[k].name == name && ds[k].meta.Some? {
      assert StateOf(consistency, name).seen;
      var k :| 0 <= k < |ds| && ds[k].name == name;
      assert StateOf(consistency, ds[k].name).hintClass == ClassOf(ds[k]);
    }
  }

  // ----- what the errors say -----

  /** The error of a declaration that is invalid by itself. */
  function DeclarationError(d: Declaration): HintError
    requires !ValidDeclaration(d)
  {
    if !SupportsGenerationHints(d.kind) then NotGaugeOrSum(d.name)
    else if !d.meta.value.MetaStr? then NonString(d.name)
    else UnsupportedClass(d.name)
  }

  /** Two declarations of one name that disagree: hinted and not, or two classes. */
  ghost predicate Disagree(c: Declaration, d: Declaration) {
    c.name == d.name && ValidDeclaration(c) && ValidDeclaration(d) && ClassOf(c) != ClassOf(d)
  }

  /** The template contains what the error complains about. */
  ghost predicate Justified(e: HintError, ds: seq<Declaration>) {
    match e
    case Inconsistent(name) => exists j, k ::
      0 <= j < |ds| && 0 <= k < |ds| && ds[j].name == name && ds[j].meta.None? && Disagree(ds[j], ds[k])
    case DifferentClass(name) => exists j, k ::
      0 <= j < |ds| && 0 <= k < |ds| && ds[j].name == name && ds[j].meta.Some? && Disagree(ds[j], ds[k])
    case _ => exists k :: 0 <= k < |ds| && !ValidDeclaration(ds[k]) && DeclarationError(ds[k]) == e
  }

  /** Declaration k is the origin of what a state records. */
  ghost predicate Origin(ds: seq<Declaration>, k: int, name: string, hintClass: Option<HintClass>) {
    0 <= k < |ds| && ds[k].name == name && ValidDeclaration(ds[k]) && ClassOf(ds[k]) == hintClass
  }

  /** What a name's state claims has been seen, errors or not. */
  ghost predicate Witnessed(consistency: map<string, NameState>, ds: seq<Declaration>) {
    forall name :: StateOf(consistency, name).seen || StateOf(consistency, name).HasHint() ==>
      exists k :: Origin(ds, k, name, StateOf(consistency, name).hintClass)
  }

  lemma WitnessedGrows(consistency: map<string, NameState>, ds: seq<Declaration>, d: Declaration)
    requires Witnessed(consistency, ds)
    ensures Witnessed(consistency, ds + [d])
  {
    forall name | StateOf(consistency, name).seen || StateOf(consistency, name).HasHint()
      ensures exists k :: Origin(ds + [d], k, name, StateOf(consistency, name).hintClass)
    {
      var k :| Origin(ds, k, name, StateOf(consistency, name).hintClass);
      assert Origin(ds + [d], k, name, StateOf(consistency, name).hintClass);
    }
  }

  lemma WitnessedUpdate(consistency: map<string, NameState>, ds: seq<Declaration>, d: Declaration, state: NameState)
    requires Witnessed(consistency, ds)
    requires (ValidDeclaration(d) && ClassOf(d) == state.hintClass)
             || (state.hintClass.Some? && state.hintClass == StateOf(consistency, d.name).hintClass)
    ensures Witnessed(consistency[d.name := state], ds + [d])
  {
    var next := consistency[d.name := state];
    WitnessedGrows(consistency, ds, d);
    forall name | StateOf(next, name).seen || StateOf(next, name).HasHint()
      ensures exists k :: Origin(ds + [d], k, name, StateOf(next, name).hintClass)
    {
      if name == d.name && ValidDeclaration(d) && ClassOf(d) == state.hintClass {
        assert Origin(ds + [d], |ds|, name, state.hintClass);
      } else {
        assert StateOf(consistency, name).seen || StateOf(consistency, name).HasHint();
      }
    }
  }

  lemma JustifiedExtends(e: HintError, ds: seq<Declaration>, d: Declaration)
    requires Justified(e, ds)
    ensures Justified(e, ds + [d])
  {
    var all := ds + [d];
    assert forall k :: 0 <= k < |ds| ==> all[k] == ds[k];
    if e.Inconsistent? {
      var j, k :| 0 <= j < |ds| && 0 <= k < |ds| && ds[j].name == e.name && ds[j].meta.None? && Disagree(ds[j], ds[k]);
      assert Disagree(all[j], all[k]);
    } else if e.DifferentClass? {
      var j, k :| 0 <= j < |ds| && 0 <= k < |ds| && ds[j].name == e.name && ds[j].meta.Some? && Disagree(ds[j], ds[k]);
      assert Disagree(all[j], all[k]);
    } else {
      var k :| 0 <= k < |ds| && !ValidDeclaration(ds[k]) && DeclarationError(ds[k]) == e;
      assert DeclarationError(all[k]) == e;
    }
  }

  /** An error raised by a visit is justified by the metric visited and what was seen before. */
  lemma VisitJustified(consistency: map<string, NameState>, ds: seq<Declaration>, d: Declaration)
    requires Witnessed(consistency, ds) && Visit(StateOf(consistency, d.name), d).Some?
    ensures Justified(Visit(StateOf(consistency, d.name), d).value, ds + [d])
    ensures !ValidDeclaration(d) ==> Visit(StateOf(consistency, d.name), d) == Some(DeclarationError(d))
  {
    var all, state := ds + [d], StateOf(consistency, d.name);
    assert all[|ds|] == d && forall k :: 0 <= k < |ds| ==> all[k] == ds[k];
    if ValidDeclaration(d) {
      var k :| Origin(ds, k, d.name, state.hintClass);
      assert Disagree(all[k], all[|ds|]) && Disagree(all[|ds|], all[k]);
    } else {
      assert DeclarationError(all[|ds|]) == DeclarationError(d);
    }
  }

  /** Errors are all justified, and none of an invalid declaration is missing. */
  ghost predicate ErrorsExact(errs: seq<HintError>, ds: seq<Declaration>) {
    && (forall e :: e in errs ==> Justified(e, ds))
    && (forall k :: 0 <= k < |ds| && !ValidDeclaration(ds[k]) ==> DeclarationError(ds[k]) in errs)
  }

  lemma ErrorsExtend(errs: seq<HintError>, consistency: map<string, NameState>, ds: seq<Declaration>, d: Declaration)
    requires ErrorsExact(errs, ds) && Witnessed(consistency, ds)
    ensures var err := Visit(StateOf(consistency, d.name), d);
            ErrorsExact(if err.Some? then errs + [err.value] else errs, ds + [d])
  {
    var all, err := ds + [d], Visit(StateOf(consistency, d.name), d);
    var more := if err.Some? then errs + [err.value] else errs;
    if err.Some? {
      VisitJustified(consistency, ds, d);
    }
    forall e | e in more ensures Justified(e, all) {
      if e in errs {
        JustifiedExtends(e, ds, d);
      }
    }
    forall k | 0 <= k < |all| && !ValidDeclaration(all[k]) ensures DeclarationError(all[k]) in more {
      if k < |ds| {
        assert all[k] == ds[k];
      } else {
        assert all[k] == d;
      }
    }
  }

  lemma NothingSeen()
    ensures Consistent([]) && Tracks(map[], map[], []) && Witnessed(map[], []) && ErrorsExact([], [])
  {
  }

  /** The state of a name after its metric has been visited. */
  function NextStates(consistency: map<string, NameState>, d: Declaration): map<string, NameState> {
    var state := StateOf(consistency, d.name);
    var err := Visit(state, d);
    if d.meta.None? then consistency[d.name := state.(seen := true)]
    else if err.Some? then consistency
    else consistency[d.name := NameState(ParseClass(d.meta.value.s), true)]
  }

  lemma SameNextState(consistency: map<string, NameState>, hints: map<string, HintClass>, ds: seq<Declaration>,
                      d: Declaration)
    requires Visit(StateOf(consistency, d.name), d).None? && ValidDeclaration(d)
    ensures NextStates(consistency, d) == consistency[d.name := NameState(ClassOf(d), true)]
  {
  }

  lemma WitnessedVisit(consistency: map<string, NameState>, ds: seq<Declaration>, d: Declaration)
    requires Witnessed(consistency, ds)
    ensures Witnessed(NextStates(consistency, d), ds + [d])
  {
    var state := StateOf(consistency, d.name);
    if d.meta.None? {
      WitnessedUpdate(consistency, ds, d, state.(seen := true));
    } else if Visit(state, d).None? {
      WitnessedUpdate(consistency, ds, d, NameState(ParseClass(d.meta.value.s), true));
    } else {
      WitnessedGrows(consistency, ds, d);
    }
  }

  lemma VisitKeepsTrack(consistency: map<string, NameState>, hints: map<string, HintClass>, errs: seq<HintError>,
                        ds: seq<Declaration>, d: Declaration)
    requires errs == [] <==> Consistent(ds)
    requires errs == [] ==> Tracks(consistency, hints, ds)
    requires Witnessed(consistency, ds) && ErrorsExact(errs, ds)
    ensures var err := Visit(StateOf(consistency, d.name), d);
            && (errs == [] && err.None? <==> Consistent(ds + [d]))
            && (errs == [] && err.None? ==>
                  ValidDeclaration(d)
                  && Tracks(NextStates(consistency, d),
                            if d.meta.Some? then hints[d.name := ClassOf(d).value] else hints, ds + [d]))
            && ErrorsExact(if err.Some? then errs + [err.value] else errs, ds + [d])
            && Witnessed(NextStates(consistency, d), ds + [d])
  {
    var state := StateOf(consistency, d.name);
    ErrorsExtend(errs, consistency, ds, d);
    WitnessedVisit(consistency, ds, d);
    hide Justified, ErrorsExact, Witnessed;
    if errs == [] {
      VisitDecides(consistency, hints, ds, d);
      if Visit(state, d).None? {
        TracksExtends(consistency, hints, ds, d);
        SameNextState(consistency, hints, ds, d);
      }
    } else if Consistent(ds + [d]) {
      PrefixConsistent(ds, d);
    }
  }

  /** The visiting pass: errors, and the hints collected so far. */
  method CollectHints(ms: seq<Metric>) returns (hints: map<string, HintClass>, errs: seq<HintError>)
    ensures errs == [] <==> Consistent(Declarations(ms))
    ensures errs == [] ==> Collects(hints, Declarations(ms))
    ensures ErrorsExact(errs, Declarations(ms))
  {
    hide Justified, ErrorsExact, Witnessed, Consistent, Tracks, Collects;
    hints, errs := map[], [];
    var consistency: map<string, NameState> := map[];
    ghost var ds := Declarations(ms);
    NothingSeen();
    for i := 0 to |ms|
      invariant errs == [] <==> Consistent(ds[..i])
      invariant errs == [] ==> Tracks(consistency, hints, ds[..i])
      invariant Witnessed(consistency, ds[..i]) && ErrorsExact(errs, ds[..i])
    {
      var m := ms[i];
      var d := Declaration(m.name, m.kind, MetaOf(m.metadata));
      assert d == ds[i] && ds[..i + 1] == ds[..i] + [d];
      VisitKeepsTrack(consistency, hints, errs, ds[..i], d);
      var state := StateOf(consistency, m.name);
      var err := Visit(state, d);
      if err.Some? {
        errs := errs + [err.value];
        if d.meta.None? {
          consistency := consistency[m.name := state.(seen := true)];
        }
      } else if d.meta.None? {
        consistency := consistency[m.name := state.(seen := true)];
      } else {
        var hintClass := ParseClass(d.meta.value.s).value;
        consistency := consistency[m.name := NameState(Some(hintClass), true)];
        hints := hints[m.name := hintClass];
      }
    }
    assert ds[..|ms|] == ds;
    if errs == [] {
      TrackedHintsCollect(consistency, hints, ds);
    }
  }

  /** The stripping pass. */
  method StripHints(ms: seq<Metric>)
    modifies ms
    ensures forall m :: m in ms ==> m.metadata == old(m.metadata) - {HINT_KEY}
  {
    for i := 0 to |ms|
      invariant forall k :: 0 <= k < i ==> ms[k].metadata == old(ms[k].metadata) - {HINT_KEY}
      invariant forall m :: m in ms ==> m.metadata == old(m.metadata) || m.metadata == old(m.metadata) - {HINT_KEY}
    {
      ms[i].metadata := ms[i].metadata - {HINT_KEY};
    }
  }

  /** Succeeds exactly on consistent templates; only then is the key stripped, and nothing else. */
  method ExtractGenerationHints(ms: seq<Metric>) returns (hints: map<string, HintClass>, errs: seq<HintError>)
    modifies ms
    ensures errs == [] <==> Consistent(old(Declarations(ms)))
    ensures errs == [] ==> Collects(hints, old(Declarations(ms)))
    ensures ErrorsExact(errs, old(Declarations(ms)))
    ensures errs == [] ==> forall m :: m in ms ==> m.metadata == old(m.metadata) - {HINT_KEY}
    ensures errs != [] ==> hints == map[] && forall m :: m in ms ==> m.metadata == old(m.metadata)
  {
    hide Consistent, Collects, ErrorsExact;
    hints, errs := CollectHints(ms);
    if errs != [] {
      return map[], errs;
    }
    StripHints(ms);
  }

  /** Stripping leaves a template that declares nothing, so extracting again finds no hints. */
  lemma StrippedTemplateIsConsistent(ds: seq<Declaration>)
    requires forall k :: 0 <= k < |ds| ==> ds[k].meta.None?
    ensures Consistent(ds) && forall hints: map<string, HintClass> :: Collects(hints, ds) ==> hints == map[]
  {
    forall hints: map<string, HintClass> | Collects(hints, ds) ensures hints == map[] {
      forall name ensures name !in hints {}
    }
  }
}
