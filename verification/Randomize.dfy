/** Random rescaling and shifting of sample buckets (expohistogen.go, randomizeBuckets). */
module Randomize {
  import opened Numbers
  import opened Random
  import opened Buckets

  /** What one source bucket puts into the result: n, `shift` places to the right; next draw position. */
  datatype Contribution = Contribution(n: nat, shift: int, next: nat)

  function CountScale(u: real): real { 0.4 + u * 1.2 }

  function Rescaled(c: nat, u: real): (n: nat)
    requires 0.0 <= u < 1.0
  {
    NonNegativeProduct(c as real, CountScale(u));
    Round(c as real * CountScale(u))
  }

  function ShiftOf(u: real): int {
    if u < 0.2 then -1 else if u < 0.4 then 1 else 0
  }

  function ContributionOf(c: nat, tape: Tape, pos: nat): Contribution
    requires tape.Valid()
  {
    if c == 0 then Contribution(0, 0, pos)
    else
      var n := Rescaled(c, tape.uniform(pos));
      if n == 0 then Contribution(0, 0, pos + 1)
      else Contribution(n, ShiftOf(tape.uniform(pos + 1)), pos + 2)
  }

  function NextPos(cs: seq<Contribution>, pos: nat): nat {
    if cs == [] then pos else cs[|cs| - 1].next
  }

  /** One pass over the source buckets, drawing from tape position pos. */
  function Contributions(counts: seq<nat>, tape: Tape, pos: nat): (cs: seq<Contribution>)
    requires tape.Valid()
    ensures |cs| == |counts|
  {
    if counts == [] then [] else
      var before := Contributions(counts[..|counts| - 1], tape, pos);
      before + [ContributionOf(counts[|counts| - 1], tape, NextPos(before, pos))]
  }

  /** Total that contributions put at position k of an array with one extra slot on each side. */
  function Landed(cs: seq<Contribution>, k: int): nat {
    if cs == [] then 0 else
      var j := |cs| - 1;
      Landed(cs[..j], k) + if j + 1 + cs[j].shift == k then cs[j].n else 0
  }

  function SumOfContributions(cs: seq<Contribution>): nat {
    if cs == [] then 0 else SumOfContributions(cs[..|cs| - 1]) + cs[|cs| - 1].n
  }

  lemma PrefixStep(counts: seq<nat>, tape: Tape, pos: nat, i: nat)
    requires tape.Valid() && i < |counts|
    ensures var before := Contributions(counts[..i], tape, pos);
            var c := ContributionOf(counts[i], tape, NextPos(before, pos));
            && Contributions(counts[..i + 1], tape, pos) == before + [c]
            && NextPos(before + [c], pos) == c.next
  {
    assert counts[..i + 1][..i] == counts[..i];
  }

  lemma LandedStep(before: seq<Contribution>, c: Contribution, k: int)
    ensures Landed(before + [c], k) == Landed(before, k) + if |before| + 1 + c.shift == k then c.n else 0
  {
    assert (before + [c])[..|before|] == before;
  }

  /** The factor is in [0.4, 1.6), so a bucket keeps its count up to 60% and rounding;
      it disappears exactly when it holds one observation and the draw is below 1/12. */
  lemma RescaledBounds(c: nat, u: real)
    requires 0.0 <= u < 1.0 && c > 0
    ensures Abs(Rescaled(c, u) as real - c as real) <= 0.6 * c as real + 0.5
    ensures Rescaled(c, u) == 0 <==> c == 1 && u < 1.0 / 12.0
  {
    var x, f := c as real, CountScale(u);
    NonNegativeProduct(x, f - 0.4);
    NonNegativeProduct(x, 1.6 - f);
    RoundNearest(x * f);
    if c == 1 {
      assert x * f == f;
      assert f < 0.5 <==> u < 1.0 / 12.0;
    } else {
      NonNegativeProduct(x - 2.0, f);
    }
  }

  /** Each source bucket lands within one index of its own. */
  lemma {:induction false} ContributionBounds(counts: seq<nat>, tape: Tape, pos: nat, j: nat)
    requires tape.Valid() && j < |counts|
    ensures var c := Contributions(counts, tape, pos)[j];
            && -1 <= c.shift <= 1
            && Abs(c.n as real - counts[j] as real) <= 0.6 * counts[j] as real + 0.5
            && (counts[j] >= 2 ==> c.n >= 1) && (counts[j] == 0 ==> c.n == 0)
  {
    var last := |counts| - 1;
    if j < last {
      ContributionBounds(counts[..last], tape, pos, j);
    } else if counts[last] > 0 {
      RescaledBounds(counts[last], tape.uniform(NextPos(Contributions(counts[..last], tape, pos), pos)));
    }
  }

  /** Only the three neighbouring source buckets can reach a position. */
  lemma {:induction false} LandedIsLocal(cs: seq<Contribution>, k: int) returns (j: nat)
    requires forall j :: 0 <= j < |cs| ==> -1 <= cs[j].shift <= 1
    requires Landed(cs, k) > 0
    ensures j < |cs| && k - 2 <= j <= k && cs[j].n > 0 && j + 1 + cs[j].shift == k
  {
    var last := |cs| - 1;
    if last + 1 + cs[last].shift == k && cs[last].n > 0 {
      j := last;
    } else {
      j := LandedIsLocal(cs[..last], k);
    }
  }

  /** A pass that contributes nothing consumed only draws below 1/12, one per populated
      bucket, and every bucket holds at most one observation. */
  lemma {:induction false} EmptyPass(counts: seq<nat>, tape: Tape, pos: nat)
    requires tape.Valid()
    requires forall k :: 0 <= k < |counts| ==> Contributions(counts, tape, pos)[k].n == 0
    ensures var end := NextPos(Contributions(counts, tape, pos), pos);
            && pos <= end && (Buckets(0, counts).Populated() ==> pos < end)
            && (forall p :: pos <= p < end ==> tape.uniform(p) < 1.0 / 12.0)
            && (forall k :: 0 <= k < |counts| ==> counts[k] <= 1)
  {
    if counts != [] {
      var last := |counts| - 1;
      var before := Contributions(counts[..last], tape, pos);
      forall k | 0 <= k < last ensures before[k].n == 0 {
        assert Contributions(counts, tape, pos)[k] == before[k];
      }
      EmptyPass(counts[..last], tape, pos);
      assert Contributions(counts, tape, pos)[last].n == 0;
      if counts[last] > 0 {
        RescaledBounds(counts[last], tape.uniform(NextPos(before, pos)));
      } else if Buckets(0, counts).Populated() {
        var k :| 0 <= k < |counts| && counts[k] > 0;
        assert counts[..last][k] > 0;
      }
      forall k | 0 <= k < |counts| ensures counts[k] <= 1 {
        assert k < last ==> counts[..last][k] == counts[k];
      }
    }
  }

  method HasNonEmpty(counts: seq<nat>) returns (found: bool)
    ensures found <==> exists k :: 0 <= k < |counts| && counts[k] > 0
  {
    found := false;
    for i := 0 to |counts|
      invariant !found && forall k :: 0 <= k < i ==> counts[k] == 0
    {
      if counts[i] > 0 {
        return true;
      }
    }
  }

  ghost predicate Holds(slots: seq<nat>, cs: seq<Contribution>) {
    forall k :: 0 <= k < |slots| ==> slots[k] == Landed(cs, k)
  }

  /** first and last are the outermost populated slots. */
  ghost predicate Spans(slots: seq<nat>, first: int, last: int) {
    && (forall k :: 0 <= k < |slots| && slots[k] > 0 ==> first <= k <= last)
    && (first <= last ==> 0 <= first && last < |slots| && slots[first] > 0 && slots[last] > 0)
    && (first > last ==> first == |slots| && last == -1)
  }

  lemma HoldsStep(slots: seq<nat>, cs: seq<Contribution>, c: Contribution)
    requires Holds(slots, cs) && 0 <= |cs| + 1 + c.shift < |slots|
    ensures var index := |cs| + 1 + c.shift;
            Holds(if c.n > 0 then slots[index := slots[index] + c.n] else slots, cs + [c])
  {
    forall k ensures Landed(cs + [c], k) == Landed(cs, k) + if |cs| + 1 + c.shift == k then c.n else 0 {
      LandedStep(cs, c, k);
    }
  }

  lemma SpansStep(slots: seq<nat>, first: int, last: int, index: nat, n: nat)
    requires index < |slots| && n > 0 && Spans(slots, first, last)
    ensures Spans(slots[index := slots[index] + n], MinInt(first, index), MaxInt(last, index))
  {
  }

  /** Adds one contribution to the array and widens the span. */
  method Deposit(newBuckets: array<nat>, ghost cs: seq<Contribution>, c: Contribution, first0: int, last0: int, i: nat)
    returns (first: int, last: int)
    requires i == |cs| && 0 <= i + 1 + c.shift < newBuckets.Length
    requires Holds(newBuckets[..], cs) && Spans(newBuckets[..], first0, last0)
    modifies newBuckets
    ensures Holds(newBuckets[..], cs + [c]) && Spans(newBuckets[..], first, last)
  {
    hide Landed, Holds, Spans, MinInt, MaxInt;
    ghost var slots := newBuckets[..];
    HoldsStep(slots, cs, c);
    first, last := first0, last0;
    if c.n > 0 {
      var index := i + 1 + c.shift;
      SpansStep(slots, first, last, index, c.n);
      first := MinInt(first, index);
      last := MaxInt(last, index);
      newBuckets[index] := newBuckets[index] + c.n;
      assert newBuckets[..] == slots[index := slots[index] + c.n];
    }
  }

  lemma BeforeFirst(slots: seq<nat>, tape: Tape, pos: nat)
    requires tape.Valid() && forall k :: 0 <= k < |slots| ==> slots[k] == 0
    ensures Contributions([], tape, pos) == [] && NextPos([], pos) == pos
    ensures Holds(slots, []) && Spans(slots, |slots|, -1)
  {
  }

  method Draw(oldCount: nat, ra: Rand) returns (c: Contribution)
    requires ra.tape.Valid()
    modifies ra
    ensures c == ContributionOf(oldCount, ra.tape, old(ra.pos)) && old(ra.pos) <= ra.pos == c.next && -1 <= c.shift <= 1
  {
    if oldCount == 0 {
      return Contribution(0, 0, ra.pos);
    }
    var u := ra.Float64();
    var newCount := Rescaled(oldCount, u);
    if newCount == 0 {
      return Contribution(0, 0, ra.pos);
    }
    var shiftChance := ra.Float64();
    return Contribution(newCount, ShiftOf(shiftChance), ra.pos);
  }

  /** One turn of the retry loop: fill the enlarged array and track its populated span. */
  method Pass(counts: seq<nat>, ra: Rand) returns (newBuckets: array<nat>, first: int, last: int)
    requires ra.tape.Valid()
    modifies ra
    ensures fresh(newBuckets) && newBuckets.Length == |counts| + 2
    ensures Holds(newBuckets[..], Contributions(counts, ra.tape, old(ra.pos)))
    ensures Spans(newBuckets[..], first, last)
    ensures old(ra.pos) <= ra.pos == NextPos(Contributions(counts, ra.tape, old(ra.pos)), old(ra.pos))
  {
    newBuckets := new nat[|counts| + 2](_ => 0);
    first, last := |counts| + 2, -1;
    ghost var start := ra.pos;
    ghost var cs: seq<Contribution> := [];
    assert counts[..0] == [];
    BeforeFirst(newBuckets[..], ra.tape, start);
    hide Contributions, ContributionOf, Landed, Holds, Spans, MinInt, MaxInt, NextPos;
    for i := 0 to |counts|
      invariant |cs| == i && cs == Contributions(counts[..i], ra.tape, start)
      invariant start <= ra.pos == NextPos(cs, start)
      invariant Holds(newBuckets[..], cs) && Spans(newBuckets[..], first, last)
    {
      PrefixStep(counts, ra.tape, start, i);
      var c := Draw(counts[i], ra);
      first, last := Deposit(newBuckets, cs, c, first, last, i);
      cs := cs + [c];
    }
    assert counts[..|counts|] == counts;
  }

  lemma {:induction false} ContributionLands(cs: seq<Contribution>, j: nat)
    requires j < |cs|
    ensures Landed(cs, j + 1 + cs[j].shift) >= cs[j].n
  {
    if j < |cs| - 1 {
      ContributionLands(cs[..|cs| - 1], j);
    }
  }

  lemma NothingLanded(slots: seq<nat>, counts: seq<nat>, tape: Tape, pos: nat)
    requires tape.Valid() && |slots| == |counts| + 2 && Holds(slots, Contributions(counts, tape, pos))
    requires forall k :: 0 <= k < |slots| ==> slots[k] == 0
    ensures forall j :: 0 <= j < |counts| ==> Contributions(counts, tape, pos)[j].n == 0
  {
    var cs := Contributions(counts, tape, pos);
    forall j | 0 <= j < |counts| ensures cs[j].n == 0 {
      ContributionLands(cs, j);
      ContributionBounds(counts, tape, pos, j);
      assert slots[j + 1 + cs[j].shift] == 0;
    }
  }

  /** The retry loop ends: some bucket holds two observations, or some later draw reaches 1/12. */
  ghost predicate Ends(counts: seq<nat>, tape: Tape, pos: nat) {
    || (exists k :: 0 <= k < |counts| && counts[k] >= 2)
    || (exists p: nat :: p >= pos && tape.uniform(p) >= 1.0 / 12.0)
  }

  /** The result holds the contributions of the pass that began at `start`, at their absolute indices. */
  ghost predicate IsRandomized(result: Buckets, source: Buckets, tape: Tape, start: nat)
    requires tape.Valid()
  {
    && (forall i :: result.At(i) == Landed(Contributions(source.counts, tape, start), i - source.offset + 1))
    && result.counts != [] && result.counts[0] > 0 && result.counts[|result.counts| - 1] > 0
  }

  lemma TrimmedSlots(slots: seq<nat>, first: int, last: int, offset: int)
    requires Spans(slots, first, last) && first <= last
    ensures var b := Buckets(offset + first - 1, slots[first..last + 1]);
            forall i :: b.At(i) == if 0 <= i - offset + 1 < |slots| then slots[i - offset + 1] else 0
  {
  }

  lemma NothingBeyond(counts: seq<nat>, tape: Tape, pos: nat, k: int)
    requires tape.Valid() && (k < 0 || k >= |counts| + 2)
    ensures Landed(Contributions(counts, tape, pos), k) == 0
  {
    var cs := Contributions(counts, tape, pos);
    forall j | 0 <= j < |cs| ensures -1 <= cs[j].shift <= 1 {
      ContributionBounds(counts, tape, pos, j);
    }
    if Landed(cs, k) > 0 {
      var j := LandedIsLocal(cs, k);
    }
  }

  lemma SuccessfulPass(slots: seq<nat>, first: int, last: int, buckets: Buckets, tape: Tape, start: nat)
    requires tape.Valid() && |slots| == |buckets.counts| + 2 && first <= last && Spans(slots, first, last)
    requires Holds(slots, Contributions(buckets.counts, tape, start))
    ensures IsRandomized(Buckets(buckets.offset + first - 1, slots[first..last + 1]), buckets, tape, start)
  {
    var result := Buckets(buckets.offset + first - 1, slots[first..last + 1]);
    var cs := Contributions(buckets.counts, tape, start);
    hide Contributions, Landed;
    TrimmedSlots(slots, first, last, buckets.offset);
    assert result.counts[0] == slots[first] && result.counts[|result.counts| - 1] == slots[last];
    forall i ensures result.At(i) == Landed(cs, i - buckets.offset + 1) {
      hide Buckets.At;
      var k := i - buckets.offset + 1;
      if 0 <= k < |slots| {
        assert slots[k] == Landed(cs, k);
      } else {
        NothingBeyond(buckets.counts, tape, start, k);
      }
    }
  }

  lemma FailedPass(slots: seq<nat>, buckets: Buckets, tape: Tape, start: nat)
    requires tape.Valid() && |slots| == |buckets.counts| + 2 && buckets.Populated()
    requires Spans(slots, |slots|, -1)
    requires Holds(slots, Contributions(buckets.counts, tape, start))
    ensures var end := NextPos(Contributions(buckets.counts, tape, start), start);
            && start < end
            && (forall p :: start <= p < end ==> tape.uniform(p) < 1.0 / 12.0)
            && (forall k :: 0 <= k < |buckets.counts| ==> buckets.counts[k] <= 1)
  {
    NothingLanded(slots, buckets.counts, tape, start);
    EmptyPass(buckets.counts, tape, start);
    var k :| 0 <= k < |buckets.counts| && buckets.counts[k] > 0;
    assert Buckets(0, buckets.counts).counts[k] > 0;
  }

  method RandomizeBuckets(ra: Rand, buckets: Buckets) returns (result: Buckets, ghost start: nat)
    requires ra.tape.Valid() && (buckets.Populated() ==> Ends(buckets.counts, ra.tape, ra.pos))
    modifies ra
    ensures ra.pos >= old(ra.pos)
    ensures !buckets.Populated() ==> result == buckets && ra.pos == old(ra.pos)
    ensures buckets.Populated() ==> IsRandomized(result, buckets, ra.tape, start)
    ensures buckets.Populated() ==>
      && old(ra.pos) <= start
      && (forall p :: old(ra.pos) <= p < start ==> ra.tape.uniform(p) < 1.0 / 12.0)
      && ((exists k :: 0 <= k < |buckets.counts| && buckets.counts[k] >= 2) ==> start == old(ra.pos))
      && ra.pos == NextPos(Contributions(buckets.counts, ra.tape, start), start)
  {
    hide Contributions, Landed, IsRandomized, Holds, NextPos;
    start := ra.pos;
    var hasNonEmpty := HasNonEmpty(buckets.counts);
    if !hasNonEmpty {
      return buckets, start;
    }
    ghost var large := exists k :: 0 <= k < |buckets.counts| && buckets.counts[k] >= 2;
    ghost var horizon := ra.pos;
    if !large {
      horizon :| horizon >= ra.pos && ra.tape.uniform(horizon) >= 1.0 / 12.0;
    }
    while true
      invariant old(ra.pos) <= ra.pos == start
      invariant forall p :: old(ra.pos) <= p < start ==> ra.tape.uniform(p) < 1.0 / 12.0
      invariant large ==> start == old(ra.pos)
      invariant !large ==> horizon >= ra.pos && ra.tape.uniform(horizon) >= 1.0 / 12.0
      decreases horizon - ra.pos
    {
      var newBuckets, first, last := Pass(buckets.counts, ra);
      if last >= first {
        result := Buckets(buckets.offset + first - 1, newBuckets[first..last + 1]);
        SuccessfulPass(newBuckets[..], first, last, buckets, ra.tape, start);
        assert newBuckets[..][first..last + 1] == newBuckets[first..last + 1];
        return result, start;
      }
      FailedPass(newBuckets[..], buckets, ra.tape, start);
      start := ra.pos;
    }
  }

  // ----- conservation -----

  ghost function LandedRange(cs: seq<Contribution>, lo: int, hi: int): nat
    decreases if hi > lo then hi - lo else 0
  {
    if hi <= lo then 0 else LandedRange(cs, lo, hi - 1) + Landed(cs, hi - 1)
  }

  lemma {:induction false} LandedRangeStep(before: seq<Contribution>, c: Contribution, lo: int, hi: int)
    ensures LandedRange(before + [c], lo, hi)
         == LandedRange(before, lo, hi) + if lo <= |before| + 1 + c.shift < hi then c.n else 0
    decreases if hi > lo then hi - lo else 0
  {
    if hi > lo {
      LandedRangeStep(before, c, lo, hi - 1);
      LandedStep(before, c, hi - 1);
    }
  }

  lemma {:induction false} NothingFromNothing(lo: int, hi: int)
    ensures LandedRange([], lo, hi) == 0
    decreases if hi > lo then hi - lo else 0
  {
    if hi > lo {
      NothingFromNothing(lo, hi - 1);
    }
  }

  /** All positions together hold everything contributed. */
  lemma {:induction false} LandedConserves(cs: seq<Contribution>, len: nat)
    requires forall j :: 0 <= j < |cs| ==> -1 <= cs[j].shift <= 1
    requires |cs| + 2 <= len
    ensures LandedRange(cs, 0, len) == SumOfContributions(cs)
  {
    if cs == [] {
      NothingFromNothing(0, len);
    } else {
      var last := |cs| - 1;
      LandedConserves(cs[..last], len);
      LandedRangeStep(cs[..last], cs[last], 0, len);
      assert cs == cs[..last] + [cs[last]];
    }
  }

  lemma {:induction false} RangeIsLanded(result: Buckets, cs: seq<Contribution>, offset: int, lo: int, hi: int)
    requires forall i :: result.At(i) == Landed(cs, i - offset + 1)
    ensures RangeTotal(result, lo, hi) == LandedRange(cs, lo - offset + 1, hi - offset + 1)
    decreases if hi > lo then hi - lo else 0
  {
    if hi > lo {
      RangeIsLanded(result, cs, offset, lo, hi - 1);
    }
  }

  /** Number of populated buckets. */
  function PopulatedCount(counts: seq<nat>): nat {
    if counts == [] then 0 else
      PopulatedCount(counts[..|counts| - 1]) + if counts[|counts| - 1] > 0 then 1 else 0
  }

  lemma AbsAdds(x: real, y: real)
    ensures Abs(x + y) <= Abs(x) + Abs(y)
  {
  }

  lemma {:induction false} SumNearTotal(counts: seq<nat>, tape: Tape, pos: nat)
    requires tape.Valid()
    ensures Abs(SumOfContributions(Contributions(counts, tape, pos)) as real - Total(counts) as real)
         <= 0.6 * Total(counts) as real + 0.5 * PopulatedCount(counts) as real
  {
    if counts != [] {
      var last := |counts| - 1;
      var cs := Contributions(counts, tape, pos);
      SumNearTotal(counts[..last], tape, pos);
      ContributionBounds(counts, tape, pos, last);
      assert cs[..last] == Contributions(counts[..last], tape, pos);
      hide Contributions;
      AbsAdds(SumOfContributions(cs[..last]) as real - Total(counts[..last]) as real,
              cs[last].n as real - counts[last] as real);
    }
  }

  lemma CountsOfRandomized(result: Buckets, source: Buckets, tape: Tape, start: nat)
    requires tape.Valid() && IsRandomized(result, source, tape, start)
    ensures forall i :: result.At(i) == Landed(Contributions(source.counts, tape, start), i - source.offset + 1)
  {
  }

  lemma ShiftsBounded(counts: seq<nat>, tape: Tape, pos: nat)
    requires tape.Valid()
    ensures var cs := Contributions(counts, tape, pos);
            forall j :: 0 <= j < |cs| ==> -1 <= cs[j].shift <= 1 && (counts[j] == 0 ==> cs[j].n == 0)
  {
    var cs := Contributions(counts, tape, pos);
    forall j | 0 <= j < |cs| ensures -1 <= cs[j].shift <= 1 && (counts[j] == 0 ==> cs[j].n == 0) {
      ContributionBounds(counts, tape, pos, j);
    }
  }

  lemma ResultWithin(result: Buckets, source: Buckets, tape: Tape, start: nat)
    requires tape.Valid() && IsRandomized(result, source, tape, start)
    ensures source.offset - 1 <= result.offset && result.offset + |result.counts| <= source.offset + |source.counts| + 1
  {
    var first, last := result.offset, result.offset + |result.counts| - 1;
    assert result.At(first) > 0 && result.At(last) > 0;
    if first < source.offset - 1 {
      NothingBeyond(source.counts, tape, start, first - source.offset + 1);
    }
    if last > source.offset + |source.counts| {
      NothingBeyond(source.counts, tape, start, last - source.offset + 1);
    }
  }

  /** The result's total is what the pass contributed, within 60% and rounding of the source. */
  lemma RandomizedConserves(result: Buckets, source: Buckets, tape: Tape, start: nat)
    requires tape.Valid() && IsRandomized(result, source, tape, start)
    ensures Total(result.counts) == SumOfContributions(Contributions(source.counts, tape, start))
    ensures Abs(Total(result.counts) as real - Total(source.counts) as real)
         <= 0.6 * Total(source.counts) as real + 0.5 * PopulatedCount(source.counts) as real
  {
    var cs := Contributions(source.counts, tape, start);
    ShiftsBounded(source.counts, tape, start);
    ResultWithin(result, source, tape, start);
    hide Contributions, Landed, IsRandomized, Abs, Buckets.At, SumOfContributions, PopulatedCount, Total;
    var lo, hi := source.offset - 1, source.offset + |cs| + 1;
    TotalIsRange(result, lo, hi);
    assert forall i :: result.At(i) == Landed(cs, i - source.offset + 1) by {
      CountsOfRandomized(result, source, tape, start);
    }
    RangeIsLanded(result, cs, source.offset, lo, hi);
    LandedConserves(cs, |cs| + 2);
    SumNearTotal(source.counts, tape, start);
  }

  lemma CountAt(b: Buckets, k: nat)
    requires k < |b.counts|
    ensures b.At(b.offset + k) == b.counts[k]
  {
  }

  /** Whatever the result holds at index i came from a source index j next to i. */
  lemma RandomizedIsLocal(result: Buckets, source: Buckets, tape: Tape, start: nat, i: int) returns (j: int)
    requires tape.Valid() && IsRandomized(result, source, tape, start) && result.At(i) > 0
    ensures i - 1 <= j <= i + 1 && source.At(j) > 0
  {
    var cs := Contributions(source.counts, tape, start);
    assert Landed(cs, i - source.offset + 1) > 0;
    ShiftsBounded(source.counts, tape, start);
    hide Contributions, Landed, IsRandomized, Buckets.At;
    var k := LandedIsLocal(cs, i - source.offset + 1);
    CountAt(source, k);
    j := source.offset + k;
  }

  lemma {:induction false} UnluckyPass(counts: seq<nat>, tape: Tape, pos: nat)
    requires tape.Valid() && !Ends(counts, tape, pos)
    ensures forall k :: 0 <= k < |counts| ==> Contributions(counts, tape, pos)[k].n == 0
    ensures NextPos(Contributions(counts, tape, pos), pos) >= pos
  {
    if counts != [] {
      var last := |counts| - 1;
      assert forall k :: 0 <= k < last ==> counts[..last][k] == counts[k];
      UnluckyPass(counts[..last], tape, pos);
      var before := Contributions(counts[..last], tape, pos);
      if counts[last] > 0 {
        assert tape.uniform(NextPos(before, pos)) < 1.0 / 12.0;
        RescaledBounds(counts[last], tape.uniform(NextPos(before, pos)));
      }
    }
  }

  /** The condition under which the loop was shown to end is exact: otherwise every pass,
      wherever it starts, contributes nothing and the loop retries forever. */
  lemma NoPassSucceedsOtherwise(counts: seq<nat>, tape: Tape, pos: nat, start: nat)
    requires tape.Valid() && !Ends(counts, tape, pos) && start >= pos
    ensures forall k :: 0 <= k < |counts| ==> Contributions(counts, tape, start)[k].n == 0
    ensures NextPos(Contributions(counts, tape, start), start) >= start
  {
    assert !Ends(counts, tape, start);
    UnluckyPass(counts, tape, start);
  }

  // ----- which draw does what -----

  lemma {:induction false} ContributionAt(counts: seq<nat>, tape: Tape, pos: nat, j: nat)
    requires tape.Valid() && j < |counts|
    ensures var cs := Contributions(counts, tape, pos);
            cs[..j] == Contributions(counts[..j], tape, pos)
            && cs[j] == ContributionOf(counts[j], tape, NextPos(cs[..j], pos))
  {
    var last := |counts| - 1;
    var before := Contributions(counts[..last], tape, pos);
    hide ContributionOf;
    if j < last {
      ContributionAt(counts[..last], tape, pos, j);
      assert counts[..last][..j] == counts[..j];
      assert Contributions(counts, tape, pos)[..j] == before[..j];
    } else {
      assert Contributions(counts, tape, pos)[..j] == before;
    }
  }

  lemma RescaledIs(c: nat, u: real)
    requires 0.0 <= u < 1.0
    ensures Abs(Rescaled(c, u) as real - Scaled(c as real, 0.4 + 1.2 * u)) <= 0.5
  {
    assert CountScale(u) == 0.4 + 1.2 * u;
    RoundNearest(c as real * CountScale(u));
    hide Round;
  }

  /** A populated bucket takes one draw for its count, between 40% and 160% of it as the draw goes from
      0 to 1, and if anything is left a second one for its shift: down for a fifth of the draws, up for
      the next fifth, else none. Empty buckets take no draw. */
  ghost predicate DrawnFrom(c: Contribution, count: nat, tape: Tape, at: nat) {
    && (count == 0 ==> c.n == 0 && c.next == at)
    && (count > 0 ==>
          Abs(c.n as real - Scaled(count as real, 0.4 + 1.2 * tape.uniform(at))) <= 0.5
          && c.next == at + if c.n > 0 then 2 else 1)
    && (c.n > 0 ==>
          && (c.shift == -1 <==> tape.uniform(at + 1) < 0.2)
          && (c.shift == 1 <==> 0.2 <= tape.uniform(at + 1) < 0.4)
          && (c.shift == 0 <==> tape.uniform(at + 1) >= 0.4))
  }

  lemma ContributionDrawn(count: nat, tape: Tape, at: nat)
    requires tape.Valid()
    ensures DrawnFrom(ContributionOf(count, tape, at), count, tape, at)
  {
    RescaledIs(count, tape.uniform(at));
    hide Rescaled, Scaled;
  }

  /** Which draws decide what a pass does with bucket j: those after the buckets before it. */
  lemma DrawsDecide(counts: seq<nat>, tape: Tape, pos: nat, j: nat)
    requires tape.Valid() && j < |counts|
    ensures var cs := Contributions(counts, tape, pos);
            DrawnFrom(cs[j], counts[j], tape, if j == 0 then pos else cs[j - 1].next)
  {
    ContributionAt(counts, tape, pos, j);
    var cs := Contributions(counts, tape, pos);
    assert NextPos(cs[..j], pos) == if j == 0 then pos else cs[j - 1].next;
    hide Contributions, DrawnFrom, ContributionOf;
    ContributionDrawn(counts[j], tape, if j == 0 then pos else cs[j - 1].next);
  }

  lemma OnlyLanding(cs: seq<Contribution>, shift: int)
    requires |cs| == 1 && cs[0].shift == shift
    ensures forall k :: Landed(cs, k) == if k == 1 + shift then cs[0].n else 0
  {
    assert cs[..0] == [];
    assert forall k :: Landed(cs[..0], k) == 0;
  }

  /** A source of one bucket stays one bucket, moved by what the second draw says. */
  lemma SingleBucketMoves(result: Buckets, offset: int, c: nat, tape: Tape, start: nat)
    requires tape.Valid() && c >= 2 && IsRandomized(result, Buckets(offset, [c]), tape, start)
    ensures |result.counts| == 1
    ensures Abs(result.counts[0] as real - Scaled(c as real, 0.4 + 1.2 * tape.uniform(start))) <= 0.5
    ensures result.offset == offset + if tape.uniform(start + 1) < 0.2 then -1
                                      else if tape.uniform(start + 1) < 0.4 then 1 else 0
  {
    var cs := Contributions([c], tape, start);
    DrawsDecide([c], tape, start, 0);
    ContributionBounds([c], tape, start, 0);
    var shift := cs[0].shift;
    hide Contributions, Scaled;
    OnlyLanding(cs, shift);
    assert forall i :: result.At(i) == if i == offset + shift then cs[0].n else 0;
    assert result.At(result.offset) == result.counts[0] > 0;
    var last := |result.counts| - 1;
    assert result.At(result.offset + last) == result.counts[last] > 0;
  }
}
