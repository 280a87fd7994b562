/** The emission half of a tick: every instance of a scenario once, in slot order or by
    concurrent workers (receiver.go, produceMetrics). */
module Emit {
  import opened Numbers
  import opened Random
  import opened Churn
  import opened Workers

  /** One instance's batch as the consumer sees it. */
  datatype Emission = Emission(id: int, time: int, resource: Resource)

  ghost function EmissionIds(log: seq<Emission>): seq<int> {
    seq(|log|, i requires 0 <= i < |log| => log[i].id)
  }

  ghost function SlotIds(slots: seq<Instance>): seq<int> {
    seq(|slots|, i requires 0 <= i < |slots| => slots[i].id)
  }

  method AddJitter(t: int, stdDev: int, interval: int, ra: Rand) returns (r: int)
    requires interval >= 1
    modifies ra
    ensures t <= r < t + interval
    ensures stdDev == 0 ==> r == t && ra.pos == old(ra.pos)
    ensures stdDev != 0 ==> ra.pos == old(ra.pos) + 1
    ensures stdDev != 0 ==> r == t + MinInt(Abs(ra.tape.normal(old(ra.pos)) * stdDev as real).Floor, interval - 1)
  {
    if stdDev == 0 {
      return t;
    }
    var z := ra.NormFloat64();
    var jitter := Abs(z * stdDev as real).Floor;
    if jitter >= interval {
      jitter := interval - 1;
    }
    return t + jitter;
  }

  ghost predicate Within(batch: seq<Emission>, currentTime: int, interval: int) {
    forall e :: e in batch ==> currentTime <= e.time < currentTime + interval
  }

  /** Every batch carries the id and the resource of one slot. */
  ghost predicate FromSlots(batch: seq<Emission>, slots: seq<Instance>) {
    forall e :: e in batch ==> Instance(e.id, e.resource) in slots
  }

  /** The instances one after another, in slot order. */
  method EmitInOrder(scn: Scenario, currentTime: int, interval: int, stdDev: int, ra: Rand)
    returns (batch: seq<Emission>)
    requires interval >= 1
    modifies ra
    ensures EmissionIds(batch) == SlotIds(scn.instances[..]) && Within(batch, currentTime, interval)
    ensures FromSlots(batch, scn.instances[..])
  {
    batch := [];
    for i := 0 to scn.instances.Length
      invariant |batch| == i
      invariant forall k :: 0 <= k < i ==> batch[k].id == scn.instances[k].id
      invariant Within(batch, currentTime, interval) && FromSlots(batch, scn.instances[..])
    {
      var instanceTime := AddJitter(currentTime, stdDev, interval, ra);
      assert scn.instances[i] == scn.instances[..][i];
      batch := batch + [Emission(scn.instances[i].id, instanceTime, scn.instances[i].resource)];
    }
  }

  // ----- workers -----

  /** Everything the workers have still to emit. */
  ghost function AllOf(todo: seq<seq<int>>): multiset<int> {
    if todo == [] then multiset{} else AllOf(todo[..|todo| - 1]) + multiset(todo[|todo| - 1])
  }

  lemma HeadAndTail(xs: seq<int>)
    requires xs != []
    ensures multiset(xs) == multiset{xs[0]} + multiset(xs[1..])
  {
    assert xs == [xs[0]] + xs[1..];
  }

  lemma {:induction false} TakeOne(todo: seq<seq<int>>, w: nat)
    requires w < |todo| && todo[w] != []
    ensures AllOf(todo) == AllOf(todo[w := todo[w][1..]]) + multiset{todo[w][0]}
  {
    var n, next := |todo| - 1, todo[w := todo[w][1..]];
    if w == n {
      assert next[..n] == todo[..n];
      HeadAndTail(todo[n]);
    } else {
      TakeOne(todo[..n], w);
      assert next[..n] == todo[..n][w := todo[w][1..]];
    }
  }

  lemma {:induction false} NothingLeft(todo: seq<seq<int>>)
    requires forall i :: 0 <= i < |todo| ==> todo[i] == []
    ensures AllOf(todo) == multiset{}
  {
    if todo != [] {
      NothingLeft(todo[..|todo| - 1]);
    }
  }

  /** The i-th piece when ids are cut into pieces of the same length. */
  ghost predicate IsPiece(piece: seq<int>, ids: seq<int>, share: nat, i: nat) {
    i * share + share <= |ids| && piece == ids[i * share..i * share + share]
  }

  lemma AppendPiece(before: seq<seq<int>>, piece: seq<int>)
    ensures AllOf(before + [piece]) == AllOf(before) + multiset(piece)
  {
    assert (before + [piece])[..|before|] == before;
  }

  lemma JoinPrefix(ids: seq<int>, m: nat, n: nat)
    requires m <= n <= |ids|
    ensures multiset(ids[..n]) == multiset(ids[..m]) + multiset(ids[m..n])
  {
    assert ids[..n] == ids[..m] + ids[m..n];
  }

  /** Where the i-th piece begins. */
  ghost function Start(share: nat, i: nat): nat { i * share }

  lemma LastPiece(ids: seq<int>, share: nat, n: nat)
    requires n > 0 && Start(share, n) <= |ids|
    ensures Start(share, n - 1) <= Start(share, n)
      && IsPiece(ids[Start(share, n - 1)..Start(share, n)], ids, share, n - 1)
  {
    assert n * share == (n - 1) * share + share;
  }

  lemma {:induction false} Cut(ids: seq<int>, share: nat, n: nat) returns (todo: seq<seq<int>>)
    requires Start(share, n) <= |ids|
    ensures |todo| == n && AllOf(todo) == multiset(ids[..Start(share, n)])
    ensures forall i :: 0 <= i < n ==> IsPiece(todo[i], ids, share, i)
  {
    assert Start(share, 0) == 0;
    hide IsPiece, Start;
    if n == 0 {
      todo := [];
      assert ids[..0] == [];
    } else {
      LastPiece(ids, share, n);
      var from, to := Start(share, n - 1), Start(share, n);
      var before := Cut(ids, share, n - 1);
      hide AllOf;
      todo := before + [ids[from..to]];
      AppendPiece(before, ids[from..to]);
      JoinPrefix(ids, from, to);
    }
  }

  /** One freshly seeded source per worker. */
  method StartWorkers(workers: nat, seeded: nat -> Tape, ra: Rand) returns (sources: seq<Rand>)
    modifies ra
    ensures |sources| == workers && forall i :: 0 <= i < |sources| ==> fresh(sources[i])
  {
    sources := [];
    for i := 0 to workers
      invariant |sources| == i && forall i :: 0 <= i < |sources| ==> fresh(sources[i])
    {
      var seed := ra.Int63();
      var rng := new Rand(seeded(seed));
      sources := sources + [rng];
    }
  }

  /** x is the id in the k-th slot of worker w. */
  ghost predicate InSlot(x: int, ids: seq<int>, workers: nat, w: nat, k: nat)
    requires workers > 0
  {
    SlotOf(|ids|, workers, w, k) < |ids| && x == ids[SlotOf(|ids|, workers, w, k)]
  }

  /** Worker w has emitted its first `done` slots; `left` are the ids of the others. */
  ghost predicate Left(left: seq<int>, ids: seq<int>, workers: nat, w: nat, done: nat)
    requires workers > 0
  {
    |left| + done == Share(|ids|, workers) && forall j: nat :: j < |left| ==> InSlot(left[j], ids, workers, w, done + j)
  }

  lemma SlotOfWorker(scale: nat, workers: nat, w: nat, j: nat)
    requires workers > 0 && scale % workers == 0 && w < workers && j < Share(scale, workers)
    ensures SlotOf(scale, workers, w, j) == w * Share(scale, workers) + j < scale
  {
    ExactShare(scale, workers, w);
    MulOrder(w + 1, workers, Share(scale, workers));
    assert (w + 1) * Share(scale, workers) == w * Share(scale, workers) + Share(scale, workers);
  }

  lemma PieceIsLeft(piece: seq<int>, ids: seq<int>, workers: nat, w: nat)
    requires workers > 0 && |ids| % workers == 0 && w < workers && IsPiece(piece, ids, Share(|ids|, workers), w)
    ensures Left(piece, ids, workers, w, 0)
  {
    var share := Share(|ids|, workers);
    hide Share, SlotOf;
    forall j: nat | j < |piece| ensures InSlot(piece[j], ids, workers, w, 0 + j) {
      SlotOfWorker(|ids|, workers, w, j);
      assert piece[j] == ids[w * share + j];
    }
  }

  lemma BeforeWorkers(ids: seq<int>, workers: nat) returns (todo: seq<seq<int>>)
    requires workers > 0 && |ids| % workers == 0
    ensures |todo| == workers && AllOf(todo) == multiset(ids)
    ensures forall w :: 0 <= w < workers ==> Left(todo[w], ids, workers, w, 0)
  {
    var share := Share(|ids|, workers);
    ExactShare(|ids|, workers, 0);
    todo := Cut(ids, share, workers);
    assert ids[..Start(share, workers)] == ids;
    hide AllOf, Left, IsPiece;
    forall w | 0 <= w < workers ensures Left(todo[w], ids, workers, w, 0) {
      PieceIsLeft(todo[w], ids, workers, w);
    }
  }

  /** What is emitted and what is left make up all ids. */
  ghost predicate Accounted(batch: seq<Emission>, ids: seq<int>, workers: nat, done: seq<nat>, todo: seq<seq<int>>)
    requires workers > 0
  {
    && |done| == |todo| == workers && multiset(EmissionIds(batch)) + AllOf(todo) == multiset(ids)
    && forall w :: 0 <= w < workers ==> Left(todo[w], ids, workers, w, done[w])
  }

  lemma SameSlot(x: int, y: int, ids: seq<int>, workers: nat, w: nat, k: nat)
    requires workers > 0 && InSlot(x, ids, workers, w, k) && InSlot(y, ids, workers, w, k)
    ensures x == y
  {
  }

  lemma LeftAfter(left: seq<int>, ids: seq<int>, workers: nat, w: nat, done: nat)
    requires workers > 0 && left != [] && Left(left, ids, workers, w, done)
    ensures Left(left[1..], ids, workers, w, done + 1)
  {
    hide InSlot, Share;
    forall j: nat | j < |left[1..]| ensures InSlot(left[1..][j], ids, workers, w, done + 1 + j) {
      var k: nat := j + 1;
      assert left[1..][j] == left[k] && InSlot(left[k], ids, workers, w, done + k);
    }
  }

  lemma OneMoreEmitted(batch: seq<Emission>, ids: seq<int>, workers: nat, done: seq<nat>, todo: seq<seq<int>>, w: nat,
                       e: Emission)
    requires workers > 0 && Accounted(batch, ids, workers, done, todo)
    requires w < workers && done[w] < Share(|ids|, workers)
    requires InSlot(e.id, ids, workers, w, done[w])
    ensures todo[w] != [] && |batch| < |ids|
    ensures Accounted(batch + [e], ids, workers, done[w := done[w] + 1], todo[w := todo[w][1..]])
  {
    hide Share, AllOf, InSlot;
    assert Left(todo[w], ids, workers, w, done[w]) && InSlot(todo[w][0], ids, workers, w, done[w] + 0);
    TakeOne(todo, w);
    SameSlot(e.id, todo[w][0], ids, workers, w, done[w]);
    assert EmissionIds(batch + [e]) == EmissionIds(batch) + [e.id];
    assert |multiset(EmissionIds(batch))| + |AllOf(todo)| == |multiset(ids)|;
    LeftAfter(todo[w], ids, workers, w, done[w]);
    hide Left;
  }

  lemma EverythingEmitted(batch: seq<Emission>, ids: seq<int>, workers: nat, done: seq<nat>, todo: seq<seq<int>>)
    requires workers > 0 && Accounted(batch, ids, workers, done, todo)
    requires forall w :: 0 <= w < workers ==> done[w] >= Share(|ids|, workers)
    ensures multiset(EmissionIds(batch)) == multiset(ids)
  {
    hide Share, AllOf;
    forall w | 0 <= w < workers ensures todo[w] == [] {
      assert Left(todo[w], ids, workers, w, done[w]);
    }
    NothingLeft(todo);
  }

  /** The workers in any interleaving: each emits its own slots in order, with its own source. */
  method EmitByWorkers(scn: Scenario, currentTime: int, interval: int, stdDev: int, seeded: nat -> Tape, ra: Rand)
    returns (batch: seq<Emission>)
    requires interval >= 1 && scn.concurrency > 0 && scn.instances.Length % scn.concurrency == 0
    modifies ra
    ensures multiset(EmissionIds(batch)) == multiset(SlotIds(scn.instances[..])) && Within(batch, currentTime, interval)
    ensures FromSlots(batch, scn.instances[..])
  {
    var scale, workers := scn.instances.Length, scn.concurrency;
    ghost var ids := SlotIds(scn.instances[..]);
    var sources := StartWorkers(workers, seeded, ra);
    var done: seq<nat> := seq(workers, _ => 0);
    ghost var todo := BeforeWorkers(ids, workers);
    batch := [];
    assert EmissionIds(batch) == [] && Accounted(batch, ids, workers, done, todo) by { hide Left, AllOf; }
    hide Accounted, Share, SlotOf;
    while exists w :: 0 <= w < workers && done[w] < Share(scale, workers)
      invariant |done| == |todo| == workers && Accounted(batch, ids, workers, done, todo)
      invariant Within(batch, currentTime, interval) && FromSlots(batch, scn.instances[..])
      decreases |ids| - |batch|
    {
      var w :| 0 <= w < workers && done[w] < Share(scale, workers);
      SlotOfWorker(scale, workers, w, done[w]);
      var slot := SlotOf(scale, workers, w, done[w]);
      var instanceTime := AddJitter(currentTime, stdDev, interval, sources[w]);
      var emission := Emission(scn.instances[slot].id, instanceTime, scn.instances[slot].resource);
      assert ids[slot] == emission.id && scn.instances[slot] == scn.instances[..][slot];
      OneMoreEmitted(batch, ids, workers, done, todo, w, emission);
      batch := batch + [emission];
      done := done[w := done[w] + 1];
      todo := todo[w := todo[w][1..]];
    }
    EverythingEmitted(batch, ids, workers, done, todo);
  }

  /** A scenario's part of a tick: every slot's id once, in the tick; in slot order without workers. */
  method ProduceMetrics(scn: Scenario, currentTime: int, interval: int, stdDev: int, seeded: nat -> Tape, ra: Rand)
    returns (batch: seq<Emission>)
    requires interval >= 1 && (scn.concurrency > 0 ==> scn.instances.Length % scn.concurrency == 0)
    modifies ra
    ensures multiset(EmissionIds(batch)) == multiset(SlotIds(scn.instances[..])) && Within(batch, currentTime, interval)
    ensures FromSlots(batch, scn.instances[..])
    ensures scn.concurrency == 0 ==> EmissionIds(batch) == SlotIds(scn.instances[..])
  {
    if scn.concurrency == 0 {
      batch := EmitInOrder(scn, currentTime, interval, stdDev, ra);
    } else {
      batch := EmitByWorkers(scn, currentTime, interval, stdDev, seeded, ra);
    }
  }
}
