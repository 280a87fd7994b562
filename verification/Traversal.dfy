/** Visiting metrics and numbering data points (internal/dp/datapoint.go). */
module Traversal {

  datatype ScopeMetrics<M> = ScopeMetrics(scope: string, metrics: seq<M>)

  datatype ResourceMetrics<M> = ResourceMetrics(resource: string, scopes: seq<ScopeMetrics<M>>)

  /** The metrics of a template in document order. */
  function ScopesMetrics<M>(scopes: seq<ScopeMetrics<M>>): seq<M> {
    if scopes == [] then [] else ScopesMetrics(scopes[..|scopes| - 1]) + scopes[|scopes| - 1].metrics
  }

  function MetricsOf<M>(ms: seq<ResourceMetrics<M>>): seq<M> {
    if ms == [] then [] else MetricsOf(ms[..|ms| - 1]) + ScopesMetrics(ms[|ms| - 1].scopes)
  }

  /** Metrics in the first j scopes of a resource. */
  function ScopeTotal<M>(scopes: seq<ScopeMetrics<M>>, j: nat): nat
    requires j <= |scopes|
  {
    if j == 0 then 0 else ScopeTotal(scopes, j - 1) + |scopes[j - 1].metrics|
  }

  /** Metrics in the first i resources. */
  function ResourceTotal<M>(ms: seq<ResourceMetrics<M>>, i: nat): nat
    requires i <= |ms|
  {
    if i == 0 then 0 else ResourceTotal(ms, i - 1) + ScopeTotal(ms[i - 1].scopes, |ms[i - 1].scopes|)
  }

  /** Metric k of scope j of resource i is visited after all metrics of earlier resources and of
      earlier scopes of its own. */
  ghost predicate VisitedInPlace<M>(visits: seq<M>, ms: seq<ResourceMetrics<M>>, i: nat, j: nat, k: nat)
    requires i < |ms| && j < |ms[i].scopes| && k < |ms[i].scopes[j].metrics|
  {
    var at := ResourceTotal(ms, i) + ScopeTotal(ms[i].scopes, j) + k;
    at < |visits| && visits[at] == ms[i].scopes[j].metrics[k]
  }

  /** Every metric of every scope of every resource is in the list, in document order, and nothing else is. */
  ghost predicate InDocumentOrder<M>(visits: seq<M>, ms: seq<ResourceMetrics<M>>) {
    && |visits| == ResourceTotal(ms, |ms|)
    && forall i: nat, j: nat, k: nat :: i < |ms| && j < |ms[i].scopes| && k < |ms[i].scopes[j].metrics| ==>
         VisitedInPlace(visits, ms, i, j, k)
  }

  lemma {:induction false} ScopesMetricsAt<M>(scopes: seq<ScopeMetrics<M>>, n: nat, j: nat, k: nat)
    requires n <= |scopes|
    ensures |ScopesMetrics(scopes[..n])| == ScopeTotal(scopes, n)
    ensures j < n && k < |scopes[j].metrics| ==>
      && ScopeTotal(scopes, j) + k < ScopeTotal(scopes, n)
      && ScopesMetrics(scopes[..n])[ScopeTotal(scopes, j) + k] == scopes[j].metrics[k]
  {
    if n > 0 {
      ScopesMetricsAt(scopes, n - 1, j, k);
      assert scopes[..n][..n - 1] == scopes[..n - 1];
      var before, last := ScopesMetrics(scopes[..n - 1]), scopes[n - 1].metrics;
      assert ScopesMetrics(scopes[..n]) == before + last;
      if j == n - 1 && k < |last| {
        assert (before + last)[|before| + k] == last[k];
      }
    }
  }

  lemma {:induction false} MetricsOfAt<M>(ms: seq<ResourceMetrics<M>>, n: nat, i: nat, j: nat, k: nat)
    requires n <= |ms|
    ensures |MetricsOf(ms[..n])| == ResourceTotal(ms, n)
    ensures i < n && j < |ms[i].scopes| && k < |ms[i].scopes[j].metrics| ==>
      var at := ResourceTotal(ms, i) + ScopeTotal(ms[i].scopes, j) + k;
      at < ResourceTotal(ms, n) && MetricsOf(ms[..n])[at] == ms[i].scopes[j].metrics[k]
  {
    if n > 0 {
      MetricsOfAt(ms, n - 1, i, j, k);
      assert ms[..n][..n - 1] == ms[..n - 1];
      var before, last := MetricsOf(ms[..n - 1]), ms[n - 1].scopes;
      ScopesMetricsAt(last, |last|, j, k);
      assert last[..|last|] == last;
      assert MetricsOf(ms[..n]) == before + ScopesMetrics(last);
      if i == n - 1 && j < |last| && k < |last[j].metrics| {
        var at := ScopeTotal(last, j) + k;
        assert (before + ScopesMetrics(last))[|before| + at] == ScopesMetrics(last)[at];
      }
    }
  }

  lemma MetricsOfInOrder<M>(ms: seq<ResourceMetrics<M>>)
    ensures InDocumentOrder(MetricsOf(ms), ms)
  {
    assert ms[..|ms|] == ms;
    MetricsOfAt(ms, |ms|, 0, 0, 0);
    forall i: nat, j: nat, k: nat | i < |ms| && j < |ms[i].scopes| && k < |ms[i].scopes[j].metrics|
      ensures VisitedInPlace(MetricsOf(ms), ms, i, j, k)
    {
      MetricsOfAt(ms, |ms|, i, j, k);
    }
  }

  /** Three nested loops; the visitor sees each metric once, in document order. */
  method ForEachMetric<M>(ms: seq<ResourceMetrics<M>>) returns (visits: seq<M>)
    ensures visits == MetricsOf(ms) && InDocumentOrder(visits, ms)
  {
    hide InDocumentOrder;
    visits := [];
    for i := 0 to |ms|
      invariant visits == MetricsOf(ms[..i])
    {
      assert ms[..i + 1][..i] == ms[..i];
      var scopes := ms[i].scopes;
      ghost var before := visits;
      for j := 0 to |scopes|
        invariant visits == before + ScopesMetrics(scopes[..j])
      {
        assert scopes[..j + 1][..j] == scopes[..j];
        var metrics := scopes[j].metrics;
        ghost var inScope := visits;
        for k := 0 to |metrics|
          invariant visits == inScope + metrics[..k]
        {
          visits := visits + [metrics[k]];
        }
        assert metrics[..|metrics|] == metrics;
      }
      assert scopes[..|scopes|] == scopes;
    }
    assert ms[..|ms|] == ms;
    MetricsOfInOrder(ms);
  }

  /** Data point l of the m-th visited metric, with the index the visitor receives. */
  datatype PointVisit = PointVisit(index: nat, m: nat, l: nat)

  function PointTotal<M>(metrics: seq<M>, size: M -> nat): nat {
    if metrics == [] then 0 else PointTotal(metrics[..|metrics| - 1], size) + size(metrics[|metrics| - 1])
  }

  /** Index of data point l of metric m in visiting order. */
  ghost function IndexOf<M>(metrics: seq<M>, size: M -> nat, m: nat, l: nat): nat
    requires m <= |metrics|
  {
    PointTotal(metrics[..m], size) + l
  }

  ghost predicate Numbered<M>(visits: seq<PointVisit>, metrics: seq<M>, size: M -> nat) {
    && |visits| == PointTotal(metrics, size)
    && (forall v :: 0 <= v < |visits| ==>
           visits[v].index == v && visits[v].m < |metrics| && visits[v].l < size(metrics[visits[v].m]))
    && (forall m, l :: 0 <= m < |metrics| && 0 <= l < size(metrics[m]) ==>
         IndexOf(metrics, size, m, l) < |visits|
         && visits[IndexOf(metrics, size, m, l)] == PointVisit(IndexOf(metrics, size, m, l), m, l))
  }

  lemma NumberedExtends<M>(visits: seq<PointVisit>, metrics: seq<M>, size: M -> nat, next: M, block: seq<PointVisit>)
    requires Numbered(visits, metrics, size) && |block| == size(next)
    requires forall l :: 0 <= l < |block| ==> block[l] == PointVisit(|visits| + l, |metrics|, l)
    ensures Numbered(visits + block, metrics + [next], size)
  {
    var all, longer := visits + block, metrics + [next];
    assert longer[..|longer| - 1] == metrics && longer[|metrics|] == next;
    assert forall v :: 0 <= v < |visits| ==> all[v] == visits[v];
    assert forall v :: |visits| <= v < |all| ==> all[v] == block[v - |visits|];
    assert forall m :: 0 <= m < |metrics| ==> longer[m] == metrics[m];
    forall m: nat, l: nat | m < |longer| && l < size(longer[m])
      ensures IndexOf(longer, size, m, l) < |all|
        && all[IndexOf(longer, size, m, l)] == PointVisit(IndexOf(longer, size, m, l), m, l)
    {
      if m < |metrics| {
        assert longer[..m] == metrics[..m];
        assert IndexOf(longer, size, m, l) == IndexOf(metrics, size, m, l);
      } else {
        assert longer[..m] == metrics;
        assert all[|visits| + l] == block[l];
      }
    }
  }

  /** The data points of one metric, numbered from `index` on. */
  method VisitPoints(index: nat, m: nat, count: nat) returns (block: seq<PointVisit>, next: nat)
    ensures |block| == count && next == index + count
    ensures forall l :: 0 <= l < count ==> block[l] == PointVisit(index + l, m, l)
  {
    block, next := [], index;
    for l := 0 to count
      invariant |block| == l && next == index + l
      invariant forall k :: 0 <= k < l ==> block[k] == PointVisit(index + k, m, k)
    {
      block := block + [PointVisit(next, m, l)];
      next := next + 1;
    }
  }

  lemma PrefixPlusOne<T>(s: seq<T>, m: nat)
    requires m < |s|
    ensures s[..m] + [s[m]] == s[..m + 1]
  {
  }

  /** One running index across all metrics: 0 .. count - 1, each data point once. */
  method ForEachDataPoint<M>(ms: seq<ResourceMetrics<M>>, size: M -> nat)
    returns (visits: seq<PointVisit>, metrics: seq<M>)
    ensures metrics == MetricsOf(ms) && InDocumentOrder(metrics, ms) && Numbered(visits, metrics, size)
  {
    metrics := ForEachMetric(ms);
    visits := [];
    var index := 0;
    assert metrics[..0] == [];
    for m := 0 to |metrics|
      invariant index == |visits| && Numbered(visits, metrics[..m], size)
    {
      var block, next := VisitPoints(index, m, size(metrics[m]));
      NumberedExtends(visits, metrics[..m], size, metrics[m], block);
      PrefixPlusOne(metrics, m);
      visits, index := visits + block, next;
    }
    assert metrics[..|metrics|] == metrics;
  }
}
