/** Inferring a decimal grid that holds every seed of a metric (distribution.go). */
module Precision {
  import opened Numbers
  import opened Config
  import opened Metrics
  import opened CounterRuns

  datatype NamedPoint = NamedPoint(name: string, value: NumberValue)

  /** v is a decimal fraction. */
  ghost predicate IsDecimal(v: real) {
    exists d: nat :: OnGrid(v, d)
  }

  /** A decimal v has p places and not fewer. */
  ghost predicate HasPlaces(v: real, p: nat) {
    IsDecimal(v) ==> OnGrid(v, p) && forall d: nat :: OnGrid(v, d) ==> p <= d
  }

  /** decimalPlaces: the length of the shortest decimal fraction that spells v. */
  ghost predicate SpellsDecimals(places: real -> nat) {
    forall v :: HasPlaces(v, places(v))
  }

  /** Points that count toward the precision of their metric. */
  predicate Counts(p: NamedPoint) { p.value.DoubleValue? && p.value.d != 0.0 }

  method InferPrecision(points: seq<NamedPoint>, places: real -> nat) returns (precision: map<string, nat>)
    ensures forall name ::
      name in precision
      <==> exists k :: 0 <= k < |points| && points[k].name == name && points[k].value.DoubleValue?
                       && points[k].value.d != 0.0
    ensures forall k :: 0 <= k < |points| && Counts(points[k]) ==>
      places(points[k].value.d) <= precision[points[k].name]
    ensures forall name :: name in precision ==>
      exists k :: 0 <= k < |points| && points[k].name == name && Counts(points[k])
        && precision[name] == places(points[k].value.d)
  {
    precision := map[];
    for i := 0 to |points|
      invariant forall name ::
        name in precision <==> exists k :: 0 <= k < i && points[k].name == name && Counts(points[k])
      invariant forall k :: 0 <= k < i && Counts(points[k]) ==> places(points[k].value.d) <= precision[points[k].name]
      invariant forall name :: name in precision ==>
        exists k :: 0 <= k < i && points[k].name == name && Counts(points[k])
          && precision[name] == places(points[k].value.d)
    {
      var p := points[i];
      if !p.value.DoubleValue? || p.value.d == 0.0 {
        continue;
      }
      var decimals := places(p.value.d);
      if p.name !in precision || decimals > precision[p.name] {
        precision := precision[p.name := decimals];
      }
    }
  }

  lemma FinerGridPoint(n: int, mul: real)
    requires mul > 0.0
    ensures GridPoint(10 * n, 10.0 * mul) == GridPoint(n, mul)
  {
    var g := GridPoint(n, mul);
    assert g * mul == n as real;
    assert g * (10.0 * mul) == 10.0 * n as real;
  }

  lemma {:induction false} FinerGrid(v: real, coarse: nat, fine: nat)
    requires coarse <= fine && OnGrid(v, coarse)
    ensures OnGrid(v, fine)
    decreases fine
  {
    if coarse < fine {
      FinerGrid(v, coarse, fine - 1);
      var n :| GridPoint(n, Pow10(fine - 1)) == v;
      FinerGridPoint(n, Pow10(fine - 1));
      assert GridPoint(10 * n, Pow10(fine)) == v;
    }
  }

  /** Every seed is on the grid inferred for its metric, as the counter theorem requires. */
  lemma SeedsFitTheirPrecision(points: seq<NamedPoint>, places: real -> nat, precision: map<string, nat>, k: nat)
    requires SpellsDecimals(places) && k < |points| && (Counts(points[k]) ==> IsDecimal(points[k].value.d))
    requires Counts(points[k]) ==> points[k].name in precision && places(points[k].value.d) <= precision[points[k].name]
    ensures OnSeriesGrid(points[k].value, Lookup(precision, points[k].name))
  {
    var p := points[k];
    if p.value.DoubleValue? && p.name in precision {
      if p.value.d == 0.0 {
        IntegerOnGrid(0, precision[p.name]);
      } else {
        assert HasPlaces(p.value.d, places(p.value.d));
        FinerGrid(p.value.d, places(p.value.d), precision[p.name]);
      }
    }
  }

  /** All counted seeds of a metric lie on the grid of d decimals. */
  ghost predicate SeedsOnGrid(points: seq<NamedPoint>, name: string, d: nat) {
    forall k :: 0 <= k < |points| && points[k].name == name && Counts(points[k]) ==> OnGrid(points[k].value.d, d)
  }

  lemma CoarsestGrid(points: seq<NamedPoint>, places: real -> nat, precision: map<string, nat>, name: string, d: nat)
    requires SpellsDecimals(places) && name in precision
    requires forall k :: 0 <= k < |points| ==> OnSeriesGrid(points[k].value, Lookup(precision, points[k].name))
    requires exists k :: 0 <= k < |points| && points[k].name == name && Counts(points[k])
               && precision[name] == places(points[k].value.d)
    ensures SeedsOnGrid(points, name, d) <==> precision[name] <= d
  {
    var top :| 0 <= top < |points| && points[top].name == name && Counts(points[top])
               && precision[name] == places(points[top].value.d);
    assert HasPlaces(points[top].value.d, places(points[top].value.d));
    if precision[name] <= d {
      forall k | 0 <= k < |points| && points[k].name == name && Counts(points[k]) ensures OnGrid(points[k].value.d, d) {
        assert OnSeriesGrid(points[k].value, Lookup(precision, points[k].name));
        FinerGrid(points[k].value.d, precision[name], d);
      }
    }
  }

  /** The inferred precision is the coarsest common grid: d decimals hold all seeds of the
      metric if and only if d is at least the precision. */
  method InferCoarsestGrid(points: seq<NamedPoint>, places: real -> nat) returns (precision: map<string, nat>)
    requires SpellsDecimals(places)
    requires forall k :: 0 <= k < |points| && Counts(points[k]) ==> IsDecimal(points[k].value.d)
    ensures forall name, d: nat :: name in precision ==> (SeedsOnGrid(points, name, d) <==> precision[name] <= d)
    ensures forall k :: 0 <= k < |points| ==> OnSeriesGrid(points[k].value, Lookup(precision, points[k].name))
  {
    precision := InferPrecision(points, places);
    forall k | 0 <= k < |points| ensures OnSeriesGrid(points[k].value, Lookup(precision, points[k].name)) {
      SeedsFitTheirPrecision(points, places, precision, k);
    }
    forall name, d: nat | name in precision ensures SeedsOnGrid(points, name, d) <==> precision[name] <= d {
      CoarsestGrid(points, places, precision, name, d);
    }
  }

  // ----- such spellings exist -----

  ghost function LeastGrid(v: real, d: nat): (p: nat)
    requires OnGrid(v, d)
    ensures HasPlaces(v, p)
  {
    if exists q: nat :: q < d && OnGrid(v, q) then
      var q: nat :| q < d && OnGrid(v, q);
      LeastGrid(v, q)
    else d
  }

  ghost function ShortestPlaces(v: real): (p: nat)
    ensures HasPlaces(v, p)
  {
    if IsDecimal(v) then
      var d: nat :| OnGrid(v, d);
      LeastGrid(v, d)
    else 0
  }

  lemma PlacesExist() returns (places: real -> nat)
    ensures SpellsDecimals(places)
  {
    places := v => ShortestPlaces(v);
  }

  /** Halving an n/m with m a power of ten stays decimal, one place further. */
  lemma HalfIsDecimal(v: real, d: nat)
    requires OnGrid(v, d)
    ensures OnGrid(v / 2.0, d + 1)
  {
    var n :| GridPoint(n, Pow10(d)) == v;
    assert v * Pow10(d) == n as real;
    QuotientIs((5 * n) as real, Pow10(d + 1), v / 2.0);
    assert GridPoint(5 * n, Pow10(d + 1)) == v / 2.0;
  }

  function HalvedOften(n: int, k: nat): real {
    if k == 0 then n as real else HalvedOften(n, k - 1) / 2.0
  }

  /** Even read exactly rather than by its shortest spelling, a finite float64 is a decimal: an
      integer halved some number of times. Its places are then as many as the halvings needed. */
  lemma {:induction false} FloatIsDecimal(n: int, k: nat)
    ensures OnGrid(HalvedOften(n, k), k) && IsDecimal(HalvedOften(n, k))
  {
    if k == 0 {
      IntegerOnGrid(n, 0);
    } else {
      FloatIsDecimal(n, k - 1);
      HalfIsDecimal(HalvedOften(n, k - 1), k - 1);
    }
  }
}
