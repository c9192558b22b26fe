/** The daemon executor as a transition system. A step is one action that other threads cannot
    split: a queue operation, a future transition, or a field update under the lock. Workers take
    from the queue without the lock, so they interleave with every locked region. */
module ExecutorSteps {
  import opened Wrappers

  datatype Item = Work(id: nat) | Stop

  datatype Future = Pending | Running | Finished | Cancelled | Notified

  /** Where a worker thread stands. `Broken` is an exception from the future's state machine. */
  datatype Worker = Idle | Holding(id: nat) | Executing(id: nat) | Releasing(id: nat) | Exited | Broken

  /** What the thread that owns the lock is in the middle of. */
  datatype Lock =
    | Free
    | Submitting(id: nat)
    | Draining(retained: nat)
    | DrainHolding(retained: nat, id: nat)
    | Restoring(retained: nat)
    | PuttingStops(left: nat)

  datatype Config = Config(maxWorkers: nat, maxPending: Option<nat>)

  datatype State = State(
    queue: seq<Item>, pending: int, shutdown: bool, workers: seq<Worker>,
    lock: Lock, futures: seq<Future>, started: seq<nat>)

  datatype Step =
    | SubmitBegin
    | SubmitPut
    | Dequeue(w: nat)
    | BeginRun(w: nat)
    | FinishRun(w: nat)
    | Release(w: nat)
    | ExternalCancel(id: nat)
    | ShutdownBegin(cancel: bool)
    | DrainTake
    | DrainRelease
    | RestoreStop
    | PutStop

  const INIT := State([], 0, false, [], Free, [], [])

  predicate Admits(s: State, c: Config) {
    s.lock.Free? && !s.shutdown && (c.maxPending.Some? ==> s.pending < c.maxPending.value)
  }

  predicate Enabled(s: State, a: Step, c: Config) {
    match a
    case SubmitBegin => Admits(s, c)
    case SubmitPut => s.lock.Submitting?
    case Dequeue(w) => w < |s.workers| && s.workers[w].Idle? && s.queue != []
    case BeginRun(w) => w < |s.workers| && s.workers[w].Holding? && s.workers[w].id < |s.futures|
    case FinishRun(w) => w < |s.workers| && s.workers[w].Executing? && s.workers[w].id < |s.futures|
    case Release(w) => w < |s.workers| && s.workers[w].Releasing? && s.lock.Free?
    case ExternalCancel(id) => id < |s.futures|
    case ShutdownBegin(_) => s.lock.Free?
    case DrainTake => s.lock.Draining?
    case DrainRelease => s.lock.DrainHolding? && s.lock.id < |s.futures|
    case RestoreStop => s.lock.Restoring?
    case PutStop => s.lock.PuttingStops?
  }

  function Cancel(f: Future): Future {
    if f == Pending then Cancelled else f
  }

  function ReleaseOne(pending: int): int {
    if pending != 0 then pending - 1 else pending
  }

  function Apply(s: State, a: Step, c: Config): State
    requires Enabled(s, a, c)
  {
    match a
    case SubmitBegin =>
      var workers := if s.workers != [] then s.workers else seq(c.maxWorkers, i => Idle);
      s.(workers := workers, futures := s.futures + [Pending], pending := s.pending + 1, lock := Submitting(|s.futures|))
    case SubmitPut =>
      s.(queue := s.queue + [Work(s.lock.id)], lock := Free)
    case Dequeue(w) =>
      var got := if s.queue[0].Stop? then Exited else Holding(s.queue[0].id);
      s.(queue := s.queue[1..], workers := s.workers[w := got])
    case BeginRun(w) =>
      var id := s.workers[w].id;
      if s.futures[id] == Pending then
        s.(futures := s.futures[id := Running], workers := s.workers[w := Executing(id)], started := s.started + [id])
      else if s.futures[id] == Cancelled then
        s.(futures := s.futures[id := Notified], workers := s.workers[w := Releasing(id)])
      else s.(workers := s.workers[w := Broken])
    case FinishRun(w) =>
      var id := s.workers[w].id;
      s.(futures := s.futures[id := Finished], workers := s.workers[w := Releasing(id)])
    case Release(w) =>
      s.(pending := ReleaseOne(s.pending), workers := s.workers[w := Idle])
    case ExternalCancel(id) =>
      s.(futures := s.futures[id := Cancel(s.futures[id])])
    case ShutdownBegin(cancel) =>
      if s.shutdown then s
      else s.(shutdown := true, lock := if cancel then Draining(0) else PuttingStops(|s.workers|))
    case DrainTake =>
      if s.queue == [] then s.(lock := Restoring(s.lock.retained))
      else if s.queue[0].Stop? then s.(queue := s.queue[1..], lock := Draining(s.lock.retained + 1))
      else s.(queue := s.queue[1..], lock := DrainHolding(s.lock.retained, s.queue[0].id))
    case DrainRelease =>
      var id := s.lock.id;
      s.(futures := s.futures[id := Cancel(s.futures[id])], pending := ReleaseOne(s.pending), lock := Draining(s.lock.retained))
    case RestoreStop =>
      if s.lock.retained > 0 then s.(queue := s.queue + [Stop], lock := Restoring(s.lock.retained - 1))
      else s.(lock := PuttingStops(|s.workers|))
    case PutStop =>
      if s.lock.left > 0 then s.(queue := s.queue + [Stop], lock := PuttingStops(s.lock.left - 1))
      else s.(lock := Free)
  }

  // ----- Counting

  function Works(queue: seq<Item>): nat {
    if queue == [] then 0 else (if queue[0].Work? then 1 else 0) + Works(queue[1..])
  }

  predicate Busy(w: Worker) { w.Holding? || w.Executing? || w.Releasing? }

  function BusyCount(ws: seq<Worker>): nat {
    if ws == [] then 0 else (if Busy(ws[0]) then 1 else 0) + BusyCount(ws[1..])
  }

  function ExitedCount(ws: seq<Worker>): nat {
    if ws == [] then 0 else (if ws[0].Exited? then 1 else 0) + ExitedCount(ws[1..])
  }

  lemma {:induction false} WorksAppend(queue: seq<Item>, x: Item)
    ensures Works(queue + [x]) == Works(queue) + if x.Work? then 1 else 0
  {
    if queue == [] {
      assert queue + [x] == [x];
    } else {
      assert (queue + [x])[1..] == queue[1..] + [x];
      WorksAppend(queue[1..], x);
    }
  }

  lemma {:induction false} WorkerUpdate(ws: seq<Worker>, i: nat, w: Worker)
    requires i < |ws|
    ensures BusyCount(ws[i := w]) == BusyCount(ws) - (if Busy(ws[i]) then 1 else 0) + (if Busy(w) then 1 else 0)
    ensures ExitedCount(ws[i := w]) == ExitedCount(ws) - (if ws[i].Exited? then 1 else 0) + (if w.Exited? then 1 else 0)
  {
    if i == 0 {
      assert ws[i := w][1..] == ws[1..];
    } else {
      assert ws[i := w][1..] == ws[1..][i - 1 := w];
      WorkerUpdate(ws[1..], i - 1, w);
    }
  }

  lemma {:induction false} IdleCounts(ws: seq<Worker>)
    requires forall i | 0 <= i < |ws| :: ws[i].Idle?
    ensures BusyCount(ws) == ExitedCount(ws) == 0
  {
    if ws != [] {
      IdleCounts(ws[1..]);
    }
  }

  lemma {:induction false} CountBounds(ws: seq<Worker>)
    ensures BusyCount(ws) + ExitedCount(ws) <= |ws|
    ensures ExitedCount(ws) == |ws| <==> forall i | 0 <= i < |ws| :: ws[i].Exited?
  {
    if ws != [] {
      CountBounds(ws[1..]);
      assert (forall i | 0 <= i < |ws| :: ws[i].Exited?) <==>
             ws[0].Exited? && forall i | 0 <= i < |ws[1..]| :: ws[1..][i].Exited?;
    }
  }
}
