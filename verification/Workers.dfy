/** One tick's data-point counter under concurrency (receiver.go, produceMetrics). */
module Workers {
  import opened Numbers
  import opened Config

  // ----- which slots a worker emits -----

  /** Slot of worker i's j-th instance: j + i*scale/concurrency, multiplied before dividing. */
  function SlotOf(scale: nat, concurrency: nat, i: nat, j: nat): nat
    requires concurrency > 0
  {
    j + i * scale / concurrency
  }

  function Share(scale: nat, concurrency: nat): nat
    requires concurrency > 0
  {
    scale / concurrency
  }

  lemma ExactShare(scale: nat, concurrency: nat, i: nat)
    requires concurrency > 0 && scale % concurrency == 0
    ensures i * scale / concurrency == i * Share(scale, concurrency)
    ensures concurrency * Share(scale, concurrency) == scale
  {
    DivisionIdentity(scale, concurrency);
    var q := scale / concurrency;
    assert i * scale == i * q * concurrency;
    UniqueQuotient(i * scale, concurrency, i * q, 0);
  }

  /** The workers' slots are exactly the instances, each visited by one worker once. */
  lemma WorkersPartitionSlots(scale: nat, concurrency: nat, slot: nat, i: nat, j: nat)
    requires concurrency > 0 && scale % concurrency == 0 && j < Share(scale, concurrency)
    ensures i < concurrency && slot == SlotOf(scale, concurrency, i, j)
       <==> slot < scale && i == slot / Share(scale, concurrency) && j == slot % Share(scale, concurrency)
  {
    var q := Share(scale, concurrency);
    ExactShare(scale, concurrency, i);
    DivisionIdentity(slot, q);
    if slot == SlotOf(scale, concurrency, i, j) {
      UniqueQuotient(slot, q, i, j);
    }
    QuotientAtLeast(slot, q, concurrency);
    QuotientAtLeast(slot, q, i);
    QuotientAtLeast(slot, q, i + 1);
  }

  // ----- the interleaved tick -----

  /** The main goroutine's program: a sequential instance adds with a plain load and store,
      a concurrent scenario starts workers, each adding its instances' points atomically. */
  datatype Op = Plain(points: nat) | Go(batch: seq<nat>)

  datatype State = State(todo: seq<Op>, loaded: Option<int>, workers: seq<seq<nat>>, count: int)

  function Init(ops: seq<Op>): State { State(ops, None, [], 0) }

  ghost predicate PlainLoad(s: State, t: State) {
    s.todo != [] && s.todo[0].Plain? && s.loaded.None? && t == s.(loaded := Some(s.count))
  }

  ghost predicate PlainStore(s: State, t: State) {
    && s.todo != [] && s.todo[0].Plain? && s.loaded.Some?
    && t == State(s.todo[1..], None, s.workers, s.loaded.value + s.todo[0].points)
  }

  ghost predicate StartWorker(s: State, t: State) {
    && s.todo != [] && s.todo[0].Go?
    && t == s.(todo := s.todo[1..], workers := s.workers + [s.todo[0].batch])
  }

  ghost predicate AtomicAdd(s: State, t: State, w: nat) {
    && w < |s.workers| && s.workers[w] != []
    && t == s.(workers := s.workers[w := s.workers[w][1..]], count := s.count + s.workers[w][0])
  }

  ghost predicate Step(s: State, t: State) {
    PlainLoad(s, t) || PlainStore(s, t) || StartWorker(s, t) || exists w :: AtomicAdd(s, t, w)
  }

  ghost predicate Reaches(s: State, t: State, n: nat)
    decreases n
  {
    if n == 0 then s == t else exists m :: Step(s, m) && Reaches(m, t, n - 1)
  }

  /** wg.Wait has returned. */
  ghost predicate Done(s: State) {
    s.todo == [] && forall w :: 0 <= w < |s.workers| ==> s.workers[w] == []
  }

  function Sum(xs: seq<nat>): nat {
    if xs == [] then 0 else xs[0] + Sum(xs[1..])
  }

  function Pending(workers: seq<seq<nat>>): nat {
    if workers == [] then 0 else Sum(workers[0]) + Pending(workers[1..])
  }

  function OpPoints(op: Op): nat {
    if op.Plain? then op.points else Sum(op.batch)
  }

  function Points(ops: seq<Op>): nat {
    if ops == [] then 0 else OpPoints(ops[0]) + Points(ops[1..])
  }

  ghost predicate HasPlain(ops: seq<Op>) { exists k :: 0 <= k < |ops| && ops[k].Plain? }

  ghost predicate HasBusyWorker(ops: seq<Op>) { exists k :: 0 <= k < |ops| && ops[k].Go? && Sum(ops[k].batch) > 0 }

  /** A plain addition comes after a worker that has something to add. */
  ghost predicate Risky(ops: seq<Op>) {
    exists i, j :: 0 <= i < j < |ops| && ops[i].Go? && Sum(ops[i].batch) > 0 && ops[j].Plain?
  }

  /** Every finished interleaving counts every point. */
  ghost predicate AlwaysExact(ops: seq<Op>) {
    forall t, n: nat :: Reaches(Init(ops), t, n) && Done(t) ==> t.count == Points(ops)
  }

  // ----- without a risky pair, nothing is lost -----

  ghost predicate Inv(s: State, total: nat) {
    && !Risky(s.todo)
    && (Pending(s.workers) > 0 ==> !HasPlain(s.todo))
    && (s.loaded.Some? ==> s.todo != [] && s.todo[0].Plain? && s.loaded.value == s.count)
    && s.count + Points(s.todo) + Pending(s.workers) == total
  }

  lemma {:induction false} PendingAppend(workers: seq<seq<nat>>, batch: seq<nat>)
    ensures Pending(workers + [batch]) == Pending(workers) + Sum(batch)
  {
    if workers == [] {
      assert [batch][1..] == [];
    } else {
      PendingAppend(workers[1..], batch);
      assert (workers + [batch])[1..] == workers[1..] + [batch];
    }
  }

  lemma {:induction false} PendingUpdate(workers: seq<seq<nat>>, w: nat)
    requires w < |workers| && workers[w] != []
    ensures Pending(workers) == Pending(workers[w := workers[w][1..]]) + workers[w][0]
  {
    var after := workers[w := workers[w][1..]];
    if w == 0 {
      assert after[1..] == workers[1..];
    } else {
      PendingUpdate(workers[1..], w - 1);
      assert after[1..] == workers[1..][w - 1 := workers[w][1..]];
    }
  }

  lemma NotRiskyTail(ops: seq<Op>)
    requires ops != [] && !Risky(ops)
    ensures !Risky(ops[1..])
    ensures HasPlain(ops[1..]) ==> HasPlain(ops)
    ensures ops[0].Go? && Sum(ops[0].batch) > 0 ==> !HasPlain(ops[1..])
  {
    forall i, j | 0 <= i < j < |ops[1..]| && ops[1..][i].Go? && Sum(ops[1..][i].batch) > 0 ensures !ops[1..][j].Plain? {
      assert ops[i + 1] == ops[1..][i] && ops[j + 1] == ops[1..][j];
    }
    forall k | 0 <= k < |ops[1..]| ensures ops[1..][k] == ops[k + 1] {}
  }

  lemma StepKeepsInv(s: State, t: State, total: nat)
    requires Inv(s, total) && Step(s, t)
    ensures Inv(t, total)
  {
    if PlainLoad(s, t) {
    } else if PlainStore(s, t) {
      NotRiskyTail(s.todo);
      assert HasPlain(s.todo);
    } else if StartWorker(s, t) {
      NotRiskyTail(s.todo);
      PendingAppend(s.workers, s.todo[0].batch);
    } else {
      var w :| AtomicAdd(s, t, w);
      PendingUpdate(s.workers, w);
      if s.loaded.Some? {
        assert HasPlain(s.todo);
      }
    }
  }

  lemma {:induction false} RunKeepsInv(s: State, t: State, n: nat, total: nat)
    requires Inv(s, total) && Reaches(s, t, n)
    ensures Inv(t, total)
    decreases n
  {
    if n > 0 {
      var m :| Step(s, m) && Reaches(m, t, n - 1);
      StepKeepsInv(s, m, total);
      RunKeepsInv(m, t, n - 1, total);
    }
  }

  lemma {:induction false} NothingPending(workers: seq<seq<nat>>)
    requires forall w :: 0 <= w < |workers| ==> workers[w] == []
    ensures Pending(workers) == 0
  {
    if workers != [] {
      NothingPending(workers[1..]);
    }
  }

  lemma SafeWithoutRisk(ops: seq<Op>)
    requires !Risky(ops)
    ensures AlwaysExact(ops)
  {
    forall t, n: nat | Reaches(Init(ops), t, n) && Done(t) ensures t.count == Points(ops) {
      RunKeepsInv(Init(ops), t, n, Points(ops));
      NothingPending(t.workers);
    }
  }

  // ----- with a risky pair, some interleaving loses points -----

  lemma {:induction false} ReachesTransitive(s: State, t: State, u: State, m: nat, n: nat)
    requires Reaches(s, t, m) && Reaches(t, u, n)
    ensures Reaches(s, u, m + n)
    decreases m
  {
    if m > 0 {
      var x :| Step(s, x) && Reaches(x, t, m - 1);
      ReachesTransitive(x, t, u, m - 1, n);
      assert m + n - 1 == (m - 1) + n;
    }
  }

  lemma OneStep(s: State, t: State)
    requires Step(s, t)
    ensures Reaches(s, t, 1)
  {
    assert Step(s, t) && Reaches(t, t, 0);
  }

  ghost function Remaining(workers: seq<seq<nat>>): nat {
    if workers == [] then 0 else |workers[0]| + Remaining(workers[1..])
  }

  lemma {:induction false} RemainingUpdate(workers: seq<seq<nat>>, w: nat)
    requires w < |workers| && workers[w] != []
    ensures Remaining(workers) == Remaining(workers[w := workers[w][1..]]) + 1
  {
    var after := workers[w := workers[w][1..]];
    if w == 0 {
      assert after[1..] == workers[1..];
    } else {
      RemainingUpdate(workers[1..], w - 1);
      assert after[1..] == workers[1..][w - 1 := workers[w][1..]];
    }
  }

  /** Let the workers run until they have nothing left, the main goroutine standing still. */
  lemma {:induction false} DrainWorkers(s: State) returns (t: State, n: nat)
    ensures Reaches(s, t, n)
    ensures t.todo == s.todo && t.loaded == s.loaded && t.count == s.count + Pending(s.workers)
    ensures forall w :: 0 <= w < |t.workers| ==> t.workers[w] == []
    decreases Remaining(s.workers)
  {
    if w :| 0 <= w < |s.workers| && s.workers[w] != [] {
      var m := s.(workers := s.workers[w := s.workers[w][1..]], count := s.count + s.workers[w][0]);
      assert AtomicAdd(s, m, w);
      PendingUpdate(s.workers, w);
      RemainingUpdate(s.workers, w);
      t, n := DrainWorkers(m);
      OneStep(s, m);
      ReachesTransitive(s, m, t, 1, n);
      n := 1 + n;
    } else {
      NothingPending(s.workers);
      t, n := s, 0;
    }
  }

  lemma StaysPut(s: State)
    ensures Reaches(s, s, 0)
  {
  }

  lemma BusyHeadOrTail(ops: seq<Op>)
    requires ops != []
    ensures HasBusyWorker(ops) ==> (ops[0].Go? && Sum(ops[0].batch) > 0) || HasBusyWorker(ops[1..])
  {
    if HasBusyWorker(ops) {
      var x :| 0 <= x < |ops| && ops[x].Go? && Sum(ops[x].batch) > 0;
      assert x > 0 ==> ops[1..][x - 1] == ops[x];
    }
  }

  /** The first operation alone. */
  lemma RunOne(s: State) returns (t: State, k: nat)
    requires s.loaded.None? && s.todo != []
    ensures Reaches(s, t, k) && t.todo == s.todo[1..] && t.loaded.None?
    ensures t.count + Pending(t.workers) == s.count + Pending(s.workers) + OpPoints(s.todo[0])
    ensures Pending(t.workers) == Pending(s.workers) + if s.todo[0].Go? then Sum(s.todo[0].batch) else 0
  {
    if s.todo[0].Go? {
      t, k := s.(todo := s.todo[1..], workers := s.workers + [s.todo[0].batch]), 1;
      assert StartWorker(s, t);
      PendingAppend(s.workers, s.todo[0].batch);
      OneStep(s, t);
    } else {
      var m := s.(loaded := Some(s.count));
      t, k := State(s.todo[1..], None, s.workers, s.count + s.todo[0].points), 2;
      assert PlainLoad(s, m) && PlainStore(m, t);
      OneStep(s, m);
      OneStep(m, t);
      ReachesTransitive(s, m, t, 1, 1);
    }
  }

  /** Let the main goroutine run n operations, the workers standing still. */
  lemma {:induction false} RunMain(s: State, n: nat) returns (t: State, k: nat)
    requires s.loaded.None? && n <= |s.todo|
    ensures Reaches(s, t, k) && t.todo == s.todo[n..] && t.loaded.None?
    ensures t.count + Pending(t.workers) == s.count + Pending(s.workers) + Points(s.todo[..n])
    ensures HasBusyWorker(s.todo[..n]) ==> Pending(t.workers) > 0
    ensures Pending(t.workers) >= Pending(s.workers)
    decreases n
  {
    hide Reaches;
    if n == 0 {
      StaysPut(s);
      t, k := s, 0;
    } else {
      var m, j := RunOne(s);
      t, k := RunMain(m, n - 1);
      ReachesTransitive(s, m, t, j, k);
      k := j + k;
      var front := s.todo[..n];
      assert front[1..] == m.todo[..n - 1];
      BusyHeadOrTail(front);
    }
  }

  lemma {:induction false} PointsSplit(ops: seq<Op>, n: nat)
    requires n <= |ops|
    ensures Points(ops) == Points(ops[..n]) + Points(ops[n..])
  {
    if n > 0 {
      PointsSplit(ops[1..], n - 1);
      assert ops[..n][1..] == ops[1..][..n - 1] && ops[1..][n - 1..] == ops[n..];
    } else {
      assert ops[0..] == ops;
    }
  }

  /** The lost update: the main goroutine loads, the workers add, the store overwrites them. */
  lemma Overwrite(s: State) returns (t: State, n: nat)
    requires s.loaded.None? && s.todo != [] && s.todo[0].Plain?
    ensures Reaches(s, t, n) && t.todo == s.todo[1..] && t.loaded.None?
    ensures Pending(t.workers) == 0 && t.count == s.count + s.todo[0].points
  {
    var s1 := s.(loaded := Some(s.count));
    assert PlainLoad(s, s1);
    OneStep(s, s1);
    var s2, k := DrainWorkers(s1);
    t := State(s2.todo[1..], None, s2.workers, s2.loaded.value + s2.todo[0].points);
    assert PlainStore(s2, t);
    OneStep(s2, t);
    NothingPending(t.workers);
    hide Reaches, Step;
    ReachesTransitive(s, s1, s2, 1, k);
    ReachesTransitive(s, s2, t, 1 + k, 1);
    n := 1 + k + 1;
  }

  /** From any state, run the main goroutine to its end and let the workers finish. */
  lemma Finish(s: State) returns (t: State, n: nat)
    requires s.loaded.None?
    ensures Reaches(s, t, n) && Done(t)
    ensures t.count == s.count + Pending(s.workers) + Points(s.todo)
  {
    hide Reaches;
    var m, j := RunMain(s, |s.todo|);
    var k;
    t, k := DrainWorkers(m);
    ReachesTransitive(s, m, t, j, k);
    n := j + k;
    assert s.todo[..|s.todo|] == s.todo;
  }

  lemma LostUpdate(ops: seq<Op>, i: nat, j: nat) returns (t: State, n: nat)
    requires i < j < |ops| && ops[i].Go? && Sum(ops[i].batch) > 0 && ops[j].Plain?
    ensures Reaches(Init(ops), t, n) && Done(t) && t.count < Points(ops)
  {
    hide Reaches, Done, Risky;
    var s0 := Init(ops);
    var s1, k1 := RunMain(s0, j);
    assert ops[..j][i] == ops[i] && s1.todo[0] == ops[j];
    var s2, k2 := Overwrite(s1);
    var k3;
    t, k3 := Finish(s2);
    ReachesTransitive(s0, s1, s2, k1, k2);
    ReachesTransitive(s0, s2, t, k1 + k2, k3);
    n := k1 + k2 + k3;
    PointsSplit(ops, j);
    assert ops[j..][0] == ops[j] && ops[j..][1..] == s2.todo;
    assert Points(ops[j..]) == ops[j].points + Points(s2.todo);
  }

  /** The count is exact under every interleaving exactly when no plain addition follows a busy worker. */
  lemma ExactIffNotRisky(ops: seq<Op>)
    ensures AlwaysExact(ops) <==> !Risky(ops)
  {
    if Risky(ops) {
      var i, j :| 0 <= i < j < |ops| && ops[i].Go? && Sum(ops[i].batch) > 0 && ops[j].Plain?;
      var t, n := LostUpdate(ops, i, j);
      assert Reaches(Init(ops), t, n) && Done(t) && t.count != Points(ops);
    } else {
      SafeWithoutRisk(ops);
    }
  }

  // ----- a tick over the configured scenarios -----

  /** A scenario's instances, workers (0: sequential) and data points per instance. */
  datatype Work = Work(scale: nat, concurrency: nat, points: nat) {
    predicate Valid() { concurrency > 0 ==> scale % concurrency == 0 }
    predicate Busy() { concurrency > 0 && scale > 0 && points > 0 }
    predicate Sequential() { concurrency == 0 && scale > 0 }
  }

  function Repeat<T>(x: T, n: nat): (r: seq<T>)
    ensures |r| == n && forall k :: 0 <= k < n ==> r[k] == x
  {
    seq(n, _ => x)
  }

  function WorkOps(w: Work): seq<Op> {
    if w.concurrency == 0 then Repeat(Plain(w.points), w.scale)
    else Repeat(Go(Repeat(w.points, Share(w.scale, w.concurrency))), w.concurrency)
  }

  function TickOps(ws: seq<Work>): seq<Op> {
    if ws == [] then [] else WorkOps(ws[0]) + TickOps(ws[1..])
  }

  function TickPoints(ws: seq<Work>): nat {
    if ws == [] then 0 else ws[0].scale * ws[0].points + TickPoints(ws[1..])
  }

  lemma {:induction false} SumRepeat(x: nat, n: nat)
    ensures Sum(Repeat(x, n)) == n * x
  {
    if n > 0 {
      SumRepeat(x, n - 1);
      assert Repeat(x, n)[1..] == Repeat(x, n - 1);
      assert n * x == x + (n - 1) * x;
    }
  }

  lemma {:induction false} PointsRepeat(op: Op, n: nat)
    ensures Points(Repeat(op, n)) == n * OpPoints(op)
  {
    if n > 0 {
      PointsRepeat(op, n - 1);
      assert Repeat(op, n)[1..] == Repeat(op, n - 1);
      assert n * OpPoints(op) == OpPoints(op) + (n - 1) * OpPoints(op);
    }
  }

  lemma WorkPoints(w: Work)
    requires w.Valid()
    ensures Points(WorkOps(w)) == w.scale * w.points
  {
    if w.concurrency == 0 {
      PointsRepeat(Plain(w.points), w.scale);
    } else {
      var q := Share(w.scale, w.concurrency);
      PointsRepeat(Go(Repeat(w.points, q)), w.concurrency);
      SumRepeat(w.points, q);
      ExactShare(w.scale, w.concurrency, 0);
      assert w.concurrency * (q * w.points) == (w.concurrency * q) * w.points;
    }
  }

  lemma {:induction false} TickOpsPoints(ws: seq<Work>)
    requires forall w :: w in ws ==> w.Valid()
    ensures Points(TickOps(ws)) == TickPoints(ws)
  {
    if ws != [] {
      var head, rest := WorkOps(ws[0]), TickOps(ws[1..]);
      TickOpsPoints(ws[1..]);
      WorkPoints(ws[0]);
      PointsSplit(head + rest, |head|);
      assert (head + rest)[..|head|] == head && (head + rest)[|head|..] == rest;
    }
  }

  lemma PlainWork(w: Work)
    requires w.Valid()
    ensures HasPlain(WorkOps(w)) <==> w.Sequential()
    ensures HasBusyWorker(WorkOps(w)) <==> w.Busy()
    ensures !Risky(WorkOps(w))
  {
    var ops := WorkOps(w);
    if w.concurrency > 0 {
      var q := Share(w.scale, w.concurrency);
      SumRepeat(w.points, q);
      ExactShare(w.scale, w.concurrency, 0);
      assert q > 0 <==> w.scale > 0 by { if q == 0 { assert w.concurrency * q == 0; } }
      assert q > 0 && w.points > 0 <==> q * w.points > 0;
      assert ops[0].Go?;
    } else if w.scale > 0 {
      assert ops[0].Plain?;
    }
  }

  lemma ConcatElements(a: seq<Op>, b: seq<Op>)
    ensures forall k :: 0 <= k < |a| ==> (a + b)[k] == a[k]
    ensures forall k :: 0 <= k < |b| ==> (a + b)[|a| + k] == b[k]
    ensures forall k :: |a| <= k < |a + b| ==> (a + b)[k] == b[k - |a|]
  {
  }

  lemma ConcatHas(a: seq<Op>, b: seq<Op>)
    ensures HasPlain(a + b) <==> HasPlain(a) || HasPlain(b)
    ensures HasBusyWorker(a + b) <==> HasBusyWorker(a) || HasBusyWorker(b)
  {
    ConcatElements(a, b);
  }

  lemma ConcatRisky(a: seq<Op>, b: seq<Op>)
    requires Risky(a + b)
    ensures Risky(a) || Risky(b) || (HasBusyWorker(a) && HasPlain(b))
  {
    ConcatElements(a, b);
    var c := a + b;
    var i, j :| 0 <= i < j < |c| && c[i].Go? && Sum(c[i].batch) > 0 && c[j].Plain?;
    if j < |a| {
      assert a[i].Go? && Sum(a[i].batch) > 0 && a[j].Plain?;
    } else if i >= |a| {
      assert b[i - |a|].Go? && Sum(b[i - |a|].batch) > 0 && b[j - |a|].Plain?;
    } else {
      assert a[i].Go? && Sum(a[i].batch) > 0 && b[j - |a|].Plain?;
    }
  }

  lemma RiskyConcat(a: seq<Op>, b: seq<Op>)
    requires Risky(a) || Risky(b) || (HasBusyWorker(a) && HasPlain(b))
    ensures Risky(a + b)
  {
    ConcatElements(a, b);
    var c := a + b;
    var i, j;
    if Risky(a) {
      i, j :| 0 <= i < j < |a| && a[i].Go? && Sum(a[i].batch) > 0 && a[j].Plain?;
    } else if Risky(b) {
      var x, y :| 0 <= x < y < |b| && b[x].Go? && Sum(b[x].batch) > 0 && b[y].Plain?;
      i, j := |a| + x, |a| + y;
    } else {
      i :| 0 <= i < |a| && a[i].Go? && Sum(a[i].batch) > 0;
      var y :| 0 <= y < |b| && b[y].Plain?;
      j := |a| + y;
    }
    assert c[i].Go? && Sum(c[i].batch) > 0 && c[j].Plain?;
  }

  ghost predicate SequentialAfterBusy(ws: seq<Work>) {
    exists i, j :: 0 <= i < j < |ws| && ws[i].Busy() && ws[j].Sequential()
  }

  lemma {:induction false} TickRisk(ws: seq<Work>)
    requires forall w :: w in ws ==> w.Valid()
    ensures HasPlain(TickOps(ws)) <==> exists j :: 0 <= j < |ws| && ws[j].Sequential()
    ensures Risky(TickOps(ws)) <==> SequentialAfterBusy(ws)
  {
    if ws != [] {
      TickRisk(ws[1..]);
      PlainWork(ws[0]);
      var head, rest := WorkOps(ws[0]), TickOps(ws[1..]);
      ConcatHas(head, rest);
      if Risky(head + rest) {
        ConcatRisky(head, rest);
      } else if Risky(rest) || (HasBusyWorker(head) && HasPlain(rest)) {
        RiskyConcat(head, rest);
      }
      assert forall k :: 0 <= k < |ws| - 1 ==> ws[1..][k] == ws[k + 1];
      assert forall k :: 1 <= k < |ws| ==> ws[k] == ws[1..][k - 1];
    }
  }

  /** A tick returns scale x points summed over its scenarios, under every interleaving,
      exactly when no sequential scenario comes after a concurrent one with points to add. */
  lemma TickCountIsExact(ws: seq<Work>)
    requires forall w :: w in ws ==> w.Valid()
    ensures Points(TickOps(ws)) == TickPoints(ws)
    ensures AlwaysExact(TickOps(ws)) <==> !SequentialAfterBusy(ws)
  {
    hide AlwaysExact, Risky, SequentialAfterBusy;
    TickOpsPoints(ws);
    TickRisk(ws);
    ExactIffNotRisky(TickOps(ws));
  }
}
