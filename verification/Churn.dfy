/** The slots of one scenario and how churn replaces them (receiver.go). */
module Churn {
  import opened Numbers
  import opened Config

  /** A rendered resource; its text is opaque here. */
  datatype Resource = Resource(text: string)

  datatype Instance = Instance(id: int, resource: Resource)

  /** What rendering the resource of a raw id yields: each raw id is rendered at most once per run. */
  type Renderer = int -> Option<Resource>

  /** The slots after handling the raw ids first, first + 1, ... first + count - 1 in order. */
  ghost function Replace(slots: seq<Instance>, render: Renderer, offset: nat, first: nat,
                         count: nat): (r: seq<Instance>)
    requires |slots| > 0
    ensures |r| == |slots|
  {
    if count == 0 then slots else
      var before := Replace(slots, render, offset, first, count - 1);
      var id := first + count - 1;
      match render(id)
      case None => before
      case Some(resource) => before[id % |slots| := Instance(id + offset, resource)]
  }

  lemma ReplaceStep(slots: seq<Instance>, render: Renderer, offset: nat, first: nat, i: nat)
    requires |slots| > 0
    ensures var before, id := Replace(slots, render, offset, first, i), first + i;
            Replace(slots, render, offset, first, i + 1)
            == if render(id).Some? then before[id % |slots| := Instance(id + offset, render(id).value)] else before
  {
    assert first + (i + 1) - 1 == first + i;
  }

  lemma {:induction false} ReplaceInTwoParts(slots: seq<Instance>, render: Renderer, offset: nat, first: nat, m: nat,
                                             n: nat)
    requires |slots| > 0
    ensures Replace(Replace(slots, render, offset, first, m), render, offset, first + m, n)
         == Replace(slots, render, offset, first, m + n)
  {
    if n > 0 {
      ReplaceInTwoParts(slots, render, offset, first, m, n - 1);
      assert first + m + n - 1 == first + (m + n) - 1;
    }
  }

  ghost function InitialSlots(resources: seq<Resource>, offset: nat): (r: seq<Instance>)
    ensures |r| == |resources|
  {
    seq(|resources|, i requires 0 <= i < |resources| => Instance(i + offset, resources[i]))
  }

  class Scenario {
    const concurrency: nat
    const offset: nat
    const rate: Rate
    const instances: array<Instance>
    var nextReplacementInstanceID: nat
    var churnRemainder: int

    constructor (resources: seq<Resource>, concurrency: nat, offset: nat, rate: Rate)
      ensures fresh(instances) && this.concurrency == concurrency && this.offset == offset && this.rate == rate
      ensures instances[..] == InitialSlots(resources, offset)
      ensures nextReplacementInstanceID == |resources| && churnRemainder == 0
    {
      this.concurrency := concurrency;
      this.offset := offset;
      this.rate := rate;
      var slots := new Instance[|resources|](i requires 0 <= i < |resources| => Instance(i + offset, resources[i]));
      instances := slots;
      nextReplacementInstanceID := |resources|;
      churnRemainder := 0;
      new;
      assert instances[..] == InitialSlots(resources, offset);
    }

    /** The whole replacements due now; the fraction stays in the remainder. */
    method ConsumeNextChurnCount() returns (churn: nat)
      requires churnRemainder >= 0
      modifies this`churnRemainder
      ensures rate.Enabled() ==> churn * rate.intervals + churnRemainder == old(churnRemainder) + rate.replacements
      ensures rate.Enabled() ==> 0 <= churnRemainder < rate.intervals
      ensures !rate.Enabled() ==> churn == 0 && churnRemainder == old(churnRemainder)
    {
      if !rate.Enabled() {
        return 0;
      }
      churnRemainder := churnRemainder + rate.replacements;
      churn := churnRemainder / rate.intervals;
      churnRemainder := churnRemainder % rate.intervals;
    }

    method ApplyChurn(render: Renderer) returns (ghost churn: nat)
      requires churnRemainder >= 0
      modifies this, instances
      ensures rate.Enabled() ==> churn * rate.intervals + churnRemainder == old(churnRemainder) + rate.replacements
      ensures rate.Enabled() ==> 0 <= churnRemainder < rate.intervals
      ensures !rate.Enabled() ==> churn == 0 && churnRemainder == old(churnRemainder)
      ensures instances.Length > 0 ==>
        && instances[..] == Replace(old(instances[..]), render, offset, old(nextReplacementInstanceID), churn)
        && nextReplacementInstanceID == old(nextReplacementInstanceID) + churn
      ensures instances.Length == 0 ==> nextReplacementInstanceID == old(nextReplacementInstanceID)
    {
      var due := ConsumeNextChurnCount();
      churn := due;
      if due == 0 || instances.Length == 0 {
        return;
      }
      ghost var was, first := instances[..], nextReplacementInstanceID;
      for i := 0 to due
        invariant nextReplacementInstanceID == first + i
        invariant churnRemainder == old(churnRemainder) + rate.replacements - churn * rate.intervals
        invariant instances[..] == Replace(was, render, offset, first, i)
      {
        var id := nextReplacementInstanceID;
        nextReplacementInstanceID := nextReplacementInstanceID + 1;
        match render(id) {
          case None =>
          case Some(resource) => instances[id % instances.Length] := Instance(id + offset, resource);
        }
        ReplaceStep(was, render, offset, first, i);
      }
    }
  }

  // ----- which ids the slots hold after m replacements -----

  /** The slots after m raw ids have been handled since the start. */
  ghost function SlotsAfter(resources: seq<Resource>, render: Renderer, offset: nat, m: nat): (r: seq<Instance>)
    requires |resources| > 0
    ensures |r| == |resources|
  {
    Replace(InitialSlots(resources, offset), render, offset, |resources|, m)
  }

  /** x is an initial id or its resource could be rendered. */
  ghost predicate Available(render: Renderer, scale: nat, x: nat) {
    x < scale || render(x).Some?
  }

  /** The resource of a raw id: given for an initial one, rendered for any other. */
  ghost function ResourceOf(resources: seq<Resource>, render: Renderer, x: int): Option<Resource> {
    if 0 <= x < |resources| then Some(resources[x]) else render(x)
  }

  /** Slot j holds the latest available id congruent to j that has been handled, with that id's resource. */
  lemma {:induction false} SlotHoldsLatest(resources: seq<Resource>, render: Renderer, offset: nat, m: nat, j: nat)
    requires j < |resources|
    ensures var x := SlotsAfter(resources, render, offset, m)[j].id - offset;
            && 0 <= x < |resources| + m && x % |resources| == j && Available(render, |resources|, x)
            && (forall y :: x < y < |resources| + m && y % |resources| == j ==> !Available(render, |resources|, y))
            && Some(SlotsAfter(resources, render, offset, m)[j].resource) == ResourceOf(resources, render, x)
  {
    if m == 0 {
      SmallModulus(j, |resources|);
      forall y: nat | j < y < |resources| ensures y % |resources| == y {
        SmallModulus(y, |resources|);
      }
    } else {
      SlotHoldsLatest(resources, render, offset, m - 1, j);
    }
  }

  /** Ids in the slots never repeat, whether or not rendering fails. */
  lemma SlotIdsDistinct(resources: seq<Resource>, render: Renderer, offset: nat, m: nat, i: nat, j: nat)
    requires i < j < |resources|
    ensures SlotsAfter(resources, render, offset, m)[i].id != SlotsAfter(resources, render, offset, m)[j].id
  {
    SlotHoldsLatest(resources, render, offset, m, i);
    SlotHoldsLatest(resources, render, offset, m, j);
  }

  ghost predicate AllRender(render: Renderer, scale: nat) {
    forall x: nat :: x >= scale ==> render(x).Some?
  }

  /** With rendering never failing, x is in a slot exactly when m <= x < m + scale, and then in slot x % scale. */
  lemma LiveSet(resources: seq<Resource>, render: Renderer, offset: nat, m: nat, x: int, j: nat)
    requires j < |resources| && AllRender(render, |resources|)
    ensures SlotsAfter(resources, render, offset, m)[j].id == x + offset
            <==> m <= x < m + |resources| && x % |resources| == j
  {
    var s := |resources|;
    SlotHoldsLatest(resources, render, offset, m, j);
    var y := SlotsAfter(resources, render, offset, m)[j].id - offset;
    if y < m {
      assert Available(render, s, y + s);
      ModulusShift(y, s);
    }
    if m <= x < m + s && x % s == j && x != y {
      TwoCongruent(x, y, s);
    }
  }

  /** Replacement m evicts the oldest live id, m itself, and puts m + scale in its slot. */
  lemma ReplacementEvictsOldest(resources: seq<Resource>, render: Renderer, offset: nat, m: nat)
    requires |resources| > 0 && AllRender(render, |resources|)
    ensures var s, before, after := |resources|, SlotsAfter(resources, render, offset, m),
      SlotsAfter(resources, render, offset, m + 1);
            && before[m % s].id == m + offset && after[m % s].id == m + s + offset
            && forall j :: 0 <= j < s && j != m % s ==> after[j] == before[j] && before[j].id > m + offset
  {
    var s, before := |resources|, SlotsAfter(resources, render, offset, m);
    LiveSet(resources, render, offset, m, m, m % s);
    ModulusShift(m, s);
    forall j | 0 <= j < s && j != m % s ensures before[j].id > m + offset {
      LiveSet(resources, render, offset, m, before[j].id - offset, j);
      LiveSet(resources, render, offset, m, m, j);
    }
  }
}
