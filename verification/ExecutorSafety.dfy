/** What every interleaving of executor steps keeps, and what it means for admission and shutdown. */
module ExecutorSafety {
  import opened ExecutorSteps

  /** Work stands before stop markers, in submission order. */
  predicate QueueShape(queue: seq<Item>, submitted: nat) {
    && (forall i, j | 0 <= i < j < |queue| :: queue[i].Stop? ==> queue[j].Stop?)
    && (forall i, j | 0 <= i < j < |queue| :: queue[i].Work? && queue[j].Work? ==> queue[i].id < queue[j].id)
    && (forall i | 0 <= i < |queue| :: queue[i].Work? ==> queue[i].id < submitted)
  }

  predicate LockHolds(s: State) { s.lock.Submitting? || s.lock.DrainHolding? }

  /** The admission counter is exactly the work that is queued, in a worker's hands, or in the
      hands of the lock owner. */
  predicate Conserved(s: State) {
    s.pending == Works(s.queue) + BusyCount(s.workers) + (if LockHolds(s) then 1 else 0)
  }

  predicate Waiting(f: Future) { f == Pending || f == Cancelled }
  predicate Done(f: Future) { f == Finished || f == Cancelled || f == Notified }

  predicate Queued(s: State, id: nat) { Work(id) in s.queue }
  predicate HeldByWorker(s: State, id: nat) {
    exists i | 0 <= i < |s.workers| :: Busy(s.workers[i]) && s.workers[i].id == id
  }
  predicate HeldByLock(s: State, id: nat) { LockHolds(s) && s.lock.id == id }

  /** The future of the item in a worker's hands agrees with what the worker is doing. */
  predicate WorkerAgrees(w: Worker, futures: seq<Future>) {
    && !w.Broken?
    && (Busy(w) ==> w.id < |futures|)
    && (w.Holding? ==> Waiting(futures[w.id]))
    && (w.Executing? ==> futures[w.id] == Running)
    && (w.Releasing? ==> futures[w.id] == Finished || futures[w.id] == Notified)
  }

  /** Every item is in at most one place. */
  predicate Exclusive(s: State) {
    && (forall i, j | 0 <= i < j < |s.workers| :: Busy(s.workers[i]) && Busy(s.workers[j]) ==> s.workers[i].id != s.workers[j].id)
    && (forall i | 0 <= i < |s.workers| :: Busy(s.workers[i]) ==> !Queued(s, s.workers[i].id))
    && (LockHolds(s) ==> s.lock.id < |s.futures| && !Queued(s, s.lock.id) && !HeldByWorker(s, s.lock.id))
    && (s.lock.Submitting? ==> s.lock.id == |s.futures| - 1)
  }

  /** Futures agree with where their items are. */
  predicate FuturesAgree(s: State) {
    && (forall i | 0 <= i < |s.workers| :: WorkerAgrees(s.workers[i], s.futures))
    && (forall i | 0 <= i < |s.queue| :: s.queue[i].Work? ==> s.queue[i].id < |s.futures| && Waiting(s.futures[s.queue[i].id]))
    && (LockHolds(s) ==> s.lock.id < |s.futures| && Waiting(s.futures[s.lock.id]))
  }

  predicate Somewhere(s: State, id: nat) { Queued(s, id) || HeldByWorker(s, id) || HeldByLock(s, id) }

  /** An item that is nowhere has a finished or cancelled future. */
  predicate Accounted(s: State) {
    forall id | 0 <= id < |s.futures| :: Somewhere(s, id) || Done(s.futures[id])
  }

  function StopsToCome(s: State): nat {
    match s.lock
    case PuttingStops(n) => n
    case Draining(_) | DrainHolding(_, _) | Restoring(_) => |s.workers|
    case _ => 0
  }

  predicate InShutdown(l: Lock) { l.Draining? || l.DrainHolding? || l.Restoring? || l.PuttingStops? }

  /** Before shutdown there is no stop marker and no exited worker. From the first shutdown on,
      every worker has exited, has its stop marker queued, or has it still to come. */
  predicate StopsBalance(s: State) {
    && (!s.shutdown ==> Works(s.queue) == |s.queue| && ExitedCount(s.workers) == 0 && !InShutdown(s.lock))
    && (s.shutdown ==> (|s.queue| - Works(s.queue)) + ExitedCount(s.workers) + StopsToCome(s) == |s.workers| && !s.lock.Submitting?)
    && (s.lock.Draining? || s.lock.DrainHolding? || s.lock.Restoring? ==> s.lock.retained == 0)
    && (ExitedCount(s.workers) > 0 ==> Works(s.queue) == 0)
    && (s.lock.PuttingStops? ==> s.lock.left <= |s.workers|)
    && (s.workers == [] ==> s.futures == [])
  }

  predicate RunsOnce(s: State) {
    && (forall i, j | 0 <= i < j < |s.started| :: s.started[i] != s.started[j])
    && (forall i | 0 <= i < |s.started| ::
          s.started[i] < |s.futures| && (s.futures[s.started[i]] == Running || s.futures[s.started[i]] == Finished))
  }

  predicate Bounded(s: State, c: Config) {
    c.maxPending.Some? ==> s.pending <= c.maxPending.value
  }

  /** The threads are started together, as many as configured, with the first item. */
  predicate Staffed(s: State, c: Config) {
    if s.futures == [] then s.workers == [] else |s.workers| == c.maxWorkers
  }

  predicate Inv(s: State, c: Config) {
    && Staffed(s, c) && QueueShape(s.queue, |s.futures|) && Conserved(s) && Exclusive(s) && FuturesAgree(s) && Accounted(s)
    && StopsBalance(s) && RunsOnce(s) && Bounded(s, c) && c.maxWorkers > 0
  }

  lemma {:induction false} WorksBound(queue: seq<Item>)
    ensures Works(queue) <= |queue|
    ensures Works(queue) == |queue| <==> forall i | 0 <= i < |queue| :: queue[i].Work?
    ensures Works(queue) == 0 <==> forall i | 0 <= i < |queue| :: queue[i].Stop?
  {
    if queue != [] {
      WorksBound(queue[1..]);
      assert queue == [queue[0]] + queue[1..];
    }
  }

  lemma {:induction false} BusyWorkerCounts(ws: seq<Worker>, i: nat)
    requires i < |ws| && Busy(ws[i])
    ensures BusyCount(ws) > 0
  {
    if i > 0 {
      BusyWorkerCounts(ws[1..], i - 1);
    }
  }

  lemma AppendWorkShape(queue: seq<Item>, id: nat)
    requires QueueShape(queue, id + 1) && Works(queue) == |queue| && Work(id) !in queue
    ensures QueueShape(queue + [Work(id)], id + 1)
  {
    WorksBound(queue);
    assert forall i | 0 <= i < |queue| :: queue[i] in queue;
  }

  lemma AppendStopShape(queue: seq<Item>, submitted: nat)
    requires QueueShape(queue, submitted)
    ensures QueueShape(queue + [Stop], submitted)
  {
  }

  lemma TailShape(queue: seq<Item>, submitted: nat)
    requires QueueShape(queue, submitted) && queue != []
    ensures QueueShape(queue[1..], submitted)
  {
  }

  lemma ShapeKept(s: State, a: Step, c: Config)
    requires QueueShape(s.queue, |s.futures|) && Exclusive(s) && StopsBalance(s) && Enabled(s, a, c)
    ensures QueueShape(Apply(s, a, c).queue, |Apply(s, a, c).futures|)
  {
    match a
    case SubmitPut => AppendWorkShape(s.queue, s.lock.id);
    case Dequeue(w) => TailShape(s.queue, |s.futures|);
    case DrainTake => if s.queue != [] { TailShape(s.queue, |s.futures|); }
    case RestoreStop => AppendStopShape(s.queue, |s.futures|);
    case PutStop => AppendStopShape(s.queue, |s.futures|);
    case _ =>
  }

  lemma ConservedKept(s: State, a: Step, c: Config)
    requires Conserved(s) && FuturesAgree(s) && Enabled(s, a, c)
    ensures Conserved(Apply(s, a, c))
  {
    var t := Apply(s, a, c);
    match a
    case SubmitBegin => if s.workers == [] { IdleCounts(t.workers); }
    case SubmitPut => WorksAppend(s.queue, Work(s.lock.id));
    case Dequeue(w) => WorkerUpdate(s.workers, w, t.workers[w]);
    case BeginRun(w) =>
      WorkerUpdate(s.workers, w, t.workers[w]);
      assert WorkerAgrees(s.workers[w], s.futures);
    case FinishRun(w) => WorkerUpdate(s.workers, w, t.workers[w]);
    case Release(w) =>
      WorkerUpdate(s.workers, w, t.workers[w]);
      BusyWorkerCounts(s.workers, w);
    case RestoreStop => WorksAppend(s.queue, Stop);
    case PutStop => WorksAppend(s.queue, Stop);
    case _ =>
  }

  lemma HeadLeavesQueue(queue: seq<Item>, submitted: nat)
    requires QueueShape(queue, submitted) && queue != [] && queue[0].Work?
    ensures queue[0] !in queue[1..] && queue[0] in queue
  {
  }

  lemma ExclusiveKeptByQueue(s: State, a: Step, c: Config)
    requires QueueShape(s.queue, |s.futures|) && Exclusive(s) && FuturesAgree(s) && Enabled(s, a, c)
    requires a.Dequeue? || a.DrainTake?
    ensures Exclusive(Apply(s, a, c))
  {
    if s.queue != [] && s.queue[0].Work? {
      HeadLeavesQueue(s.queue, |s.futures|);
    }
  }

  lemma ExclusiveKeptBySubmit(s: State, a: Step, c: Config)
    requires QueueShape(s.queue, |s.futures|) && Exclusive(s) && FuturesAgree(s) && Enabled(s, a, c)
    requires a.SubmitBegin? || a.SubmitPut?
    ensures Exclusive(Apply(s, a, c))
  {
    var t := Apply(s, a, c);
    if a.SubmitBegin? {
      assert forall i | 0 <= i < |t.workers| :: Busy(t.workers[i]) ==> t.workers[i] == s.workers[i] && WorkerAgrees(s.workers[i], s.futures);
      assert Work(|s.futures|) !in s.queue;
    } else {
      assert forall x :: x in t.queue <==> x in s.queue || x == Work(s.lock.id);
    }
  }

  lemma ExclusiveKeptByWorker(s: State, a: Step, c: Config)
    requires Exclusive(s) && Enabled(s, a, c)
    requires a.BeginRun? || a.FinishRun? || a.Release?
    ensures Exclusive(Apply(s, a, c))
  {
    var t := Apply(s, a, c);
    assert forall id :: HeldByWorker(t, id) ==> HeldByWorker(s, id);
  }

  lemma ExclusiveKeptByLock(s: State, a: Step, c: Config)
    requires Exclusive(s) && Enabled(s, a, c)
    requires a.ExternalCancel? || a.ShutdownBegin? || a.DrainRelease? || a.RestoreStop? || a.PutStop?
    ensures Exclusive(Apply(s, a, c))
  {
    var t := Apply(s, a, c);
    assert forall id :: Work(id) in t.queue ==> Work(id) in s.queue;
  }

  predicate WorkerStep(a: Step) { a.BeginRun? || a.FinishRun? || a.Release? }

  lemma FuturesAgreeKeptByWorker(s: State, a: Step, c: Config)
    requires QueueShape(s.queue, |s.futures|) && Exclusive(s) && FuturesAgree(s) && Enabled(s, a, c)
    requires WorkerStep(a)
    ensures FuturesAgree(Apply(s, a, c))
  {
    assert WorkerAgrees(s.workers[a.w], s.futures);
    assert forall i | 0 <= i < |s.queue| :: s.queue[i].Work? ==> Work(s.queue[i].id) in s.queue;
  }

  predicate CancelStep(a: Step) { a.ExternalCancel? || a.DrainRelease? }

  lemma FuturesAgreeKeptByCancel(s: State, a: Step, c: Config)
    requires Exclusive(s) && FuturesAgree(s) && Enabled(s, a, c) && CancelStep(a)
    ensures FuturesAgree(Apply(s, a, c))
  {
  }

  lemma FuturesAgreeKeptByQueue(s: State, a: Step, c: Config)
    requires QueueShape(s.queue, |s.futures|) && Exclusive(s) && FuturesAgree(s) && Enabled(s, a, c)
    requires !WorkerStep(a) && !CancelStep(a)
    ensures FuturesAgree(Apply(s, a, c))
  {
  }

  lemma StillHeld(s: State, t: State, id: nat, w: nat)
    requires HeldByWorker(s, id) && w < |s.workers| && |t.workers| == |s.workers|
    requires forall i | 0 <= i < |s.workers| && i != w :: t.workers[i] == s.workers[i]
    requires Busy(s.workers[w]) && s.workers[w].id == id ==> Busy(t.workers[w]) && t.workers[w].id == id
    ensures HeldByWorker(t, id)
  {
    var i :| 0 <= i < |s.workers| && Busy(s.workers[i]) && s.workers[i].id == id;
    assert Busy(t.workers[i]) && t.workers[i].id == id;
  }

  lemma AccountedKeptByWorker(s: State, a: Step, c: Config)
    requires Accounted(s) && FuturesAgree(s) && Enabled(s, a, c) && WorkerStep(a)
    ensures Accounted(Apply(s, a, c))
  {
    var t := Apply(s, a, c);
    assert WorkerAgrees(s.workers[a.w], s.futures);
    forall id | 0 <= id < |t.futures|
      ensures Somewhere(t, id) || Done(t.futures[id])
    {
      if HeldByWorker(s, id) && !(a.Release? && id == s.workers[a.w].id) {
        StillHeld(s, t, id, a.w);
      }
    }
  }

  lemma AccountedKeptByDequeue(s: State, w: nat, c: Config)
    requires Accounted(s) && Enabled(s, Dequeue(w), c)
    ensures Accounted(Apply(s, Dequeue(w), c))
  {
    var t := Apply(s, Dequeue(w), c);
    assert s.queue == [s.queue[0]] + t.queue;
    forall id | 0 <= id < |t.futures|
      ensures Somewhere(t, id) || Done(t.futures[id])
    {
      if HeldByWorker(s, id) {
        StillHeld(s, t, id, w);
      } else if Work(id) == s.queue[0] {
        assert Busy(t.workers[w]) && t.workers[w].id == id;
      }
    }
  }

  lemma AccountedKeptOtherwise(s: State, a: Step, c: Config)
    requires Accounted(s) && FuturesAgree(s) && Enabled(s, a, c) && !WorkerStep(a) && !a.Dequeue?
    ensures Accounted(Apply(s, a, c))
  {
    var t := Apply(s, a, c);
    forall id | 0 <= id < |t.futures|
      ensures Somewhere(t, id) || Done(t.futures[id])
    {
      if id < |s.futures| && HeldByWorker(s, id) {
        var i :| 0 <= i < |s.workers| && Busy(s.workers[i]) && s.workers[i].id == id;
        assert t.workers[i] == s.workers[i];
      }
      if a.DrainTake? && s.queue != [] {
        assert s.queue == [s.queue[0]] + t.queue;
      }
    }
  }

  lemma StopsBalanceKeptByWorker(s: State, a: Step, c: Config)
    requires QueueShape(s.queue, |s.futures|) && StopsBalance(s) && Enabled(s, a, c) && (WorkerStep(a) || a.Dequeue?)
    ensures StopsBalance(Apply(s, a, c))
  {
    var t := Apply(s, a, c);
    WorkerUpdate(s.workers, a.w, t.workers[a.w]);
    if a.Dequeue? && s.queue[0].Stop? {
      WorksBound(s.queue);
      WorksBound(t.queue);
    }
  }

  lemma StopsBalanceKeptByLock(s: State, a: Step, c: Config)
    requires QueueShape(s.queue, |s.futures|) && StopsBalance(s) && Enabled(s, a, c) && c.maxWorkers > 0
    requires !WorkerStep(a) && !a.Dequeue?
    ensures StopsBalance(Apply(s, a, c))
  {
    WorksBound(s.queue);
    match a
    case SubmitBegin => if s.workers == [] { IdleCounts(Apply(s, a, c).workers); }
    case SubmitPut => WorksAppend(s.queue, Work(s.lock.id));
    case RestoreStop => WorksAppend(s.queue, Stop);
    case PutStop => WorksAppend(s.queue, Stop);
    case _ =>
  }

  lemma RunsOnceKept(s: State, a: Step, c: Config)
    requires RunsOnce(s) && FuturesAgree(s) && Enabled(s, a, c)
    ensures RunsOnce(Apply(s, a, c))
  {
    if WorkerStep(a) {
      assert WorkerAgrees(s.workers[a.w], s.futures);
    }
  }

  lemma StaffedKept(s: State, a: Step, c: Config)
    requires Staffed(s, c) && Enabled(s, a, c) && c.maxWorkers > 0
    ensures Staffed(Apply(s, a, c), c)
  {
  }

  /** The invariant is inductive: no step of any thread breaks it. */
  lemma StepKeepsInv(s: State, a: Step, c: Config)
    requires Inv(s, c) && Enabled(s, a, c)
    ensures Inv(Apply(s, a, c), c)
  {
    ShapeKept(s, a, c);
    ConservedKept(s, a, c);
    if a.Dequeue? || a.DrainTake? { ExclusiveKeptByQueue(s, a, c); }
    else if a.SubmitBegin? || a.SubmitPut? { ExclusiveKeptBySubmit(s, a, c); }
    else if WorkerStep(a) { ExclusiveKeptByWorker(s, a, c); }
    else { ExclusiveKeptByLock(s, a, c); }
    if WorkerStep(a) {
      FuturesAgreeKeptByWorker(s, a, c);
      AccountedKeptByWorker(s, a, c);
    } else {
      if CancelStep(a) { FuturesAgreeKeptByCancel(s, a, c); } else { FuturesAgreeKeptByQueue(s, a, c); }
      if a.Dequeue? { AccountedKeptByDequeue(s, a.w, c); } else { AccountedKeptOtherwise(s, a, c); }
    }
    if WorkerStep(a) || a.Dequeue? { StopsBalanceKeptByWorker(s, a, c); } else { StopsBalanceKeptByLock(s, a, c); }
    RunsOnceKept(s, a, c);
    StaffedKept(s, a, c);
  }

  // ----- Whole runs

  /** `steps` is an interleaving that can happen from `s`. */
  predicate Legal(s: State, steps: seq<Step>, c: Config)
    decreases |steps|
  {
    steps == [] || (Enabled(s, steps[0], c) && Legal(Apply(s, steps[0], c), steps[1..], c))
  }

  function After(s: State, steps: seq<Step>, c: Config): State
    requires Legal(s, steps, c)
    decreases |steps|
  {
    if steps == [] then s else After(Apply(s, steps[0], c), steps[1..], c)
  }

  lemma {:induction false} AfterAppend(s: State, steps: seq<Step>, a: Step, c: Config)
    requires Legal(s, steps, c) && Enabled(After(s, steps, c), a, c)
    ensures Legal(s, steps + [a], c) && After(s, steps + [a], c) == Apply(After(s, steps, c), a, c)
    decreases |steps|
  {
    if steps == [] {
      assert steps + [a] == [a];
    } else {
      assert (steps + [a])[1..] == steps[1..] + [a];
      AfterAppend(Apply(s, steps[0], c), steps[1..], a, c);
    }
  }

  lemma {:induction false} RunKeepsInv(s: State, steps: seq<Step>, c: Config)
    requires Inv(s, c) && Legal(s, steps, c)
    ensures Inv(After(s, steps, c), c)
    decreases |steps|
  {
    if steps != [] {
      StepKeepsInv(s, steps[0], c);
      RunKeepsInv(Apply(s, steps[0], c), steps[1..], c);
    }
  }

  /** What the invariant means in any one state: the counter is the work that is queued or in hand and
      stays within the limit, a release always finds it non-zero, no item has started twice,
      workers take up only waiting futures and complete only running ones, and from the first item on
      there are as many of them as configured. */
  ghost predicate Safe(s: State, c: Config) {
    && (if s.futures == [] then s.workers == [] else |s.workers| == c.maxWorkers)
    && Conserved(s) && (c.maxPending.Some? ==> s.pending <= c.maxPending.value)
    && (forall w: nat | Enabled(s, Release(w), c) :: s.pending > 0)
    && (Enabled(s, DrainRelease, c) ==> s.pending > 0)
    && (forall i, j | 0 <= i < j < |s.started| :: s.started[i] != s.started[j])
    && (forall i | 0 <= i < |s.workers| :: !s.workers[i].Broken?)
    && (forall w: nat | Enabled(s, BeginRun(w), c) :: Waiting(s.futures[s.workers[w].id]))
    && (forall w: nat | Enabled(s, FinishRun(w), c) :: s.futures[s.workers[w].id] == Running)
  }

  lemma InvIsSafe(s: State, c: Config)
    requires Inv(s, c)
    ensures Safe(s, c)
  {
    forall w: nat | Enabled(s, Release(w), c)
      ensures s.pending > 0
    {
      BusyWorkerCounts(s.workers, w);
    }
    assert forall i | 0 <= i < |s.workers| :: WorkerAgrees(s.workers[i], s.futures);
  }

  /** Every interleaving of any length leaves the executor in a safe state. */
  lemma EveryRunIsSafe(steps: seq<Step>, c: Config)
    requires c.maxWorkers > 0 && Legal(INIT, steps, c)
    ensures Safe(After(INIT, steps, c), c)
  {
    RunKeepsInv(INIT, steps, c);
    InvIsSafe(After(INIT, steps, c), c);
  }

  /** From the first shutdown on, no work is ever behind a stop marker, and every worker has
      exited or has its marker queued or about to be queued. */
  lemma AfterShutdownStopsBalance(steps: seq<Step>, c: Config)
    requires c.maxWorkers > 0 && Legal(INIT, steps, c) && After(INIT, steps, c).shutdown
    ensures var s := After(INIT, steps, c);
            && (forall i, j | 0 <= i < j < |s.queue| && s.queue[i].Stop? :: s.queue[j].Stop?)
            && (|s.queue| - Works(s.queue)) + ExitedCount(s.workers) + StopsToCome(s) == (if s.futures == [] then 0 else c.maxWorkers)
            && (s.lock.Free? ==> StopsToCome(s) == 0)
            && !Enabled(s, SubmitBegin, c) && !Enabled(s, SubmitPut, c)
  {
    RunKeepsInv(INIT, steps, c);
  }

  predicate AllExited(s: State) { forall i | 0 <= i < |s.workers| :: s.workers[i].Exited? }

  lemma AllExitedLeavesNothing(s: State, c: Config)
    requires Inv(s, c) && s.shutdown && s.lock.Free? && AllExited(s)
    ensures s.pending == 0 && s.queue == []
    ensures forall id | 0 <= id < |s.futures| :: Done(s.futures[id])
  {
    CountBounds(s.workers);
    WorksBound(s.queue);
    if s.workers == [] {
      assert s.queue == [];
    }
    forall id | 0 <= id < |s.futures|
      ensures Done(s.futures[id])
    {
      assert Somewhere(s, id) || Done(s.futures[id]);
    }
  }

  /** `shutdown(wait=True)` from a thread that is not a worker: once the join returns, every run has
      left nothing queued, nothing pending, and every submitted future finished or cancelled. */
  lemma ShutdownDrains(steps: seq<Step>, c: Config)
    requires c.maxWorkers > 0 && Legal(INIT, steps, c)
    requires var s := After(INIT, steps, c); s.shutdown && s.lock.Free? && AllExited(s)
    ensures var s := After(INIT, steps, c);
            s.pending == 0 && s.queue == [] && forall id | 0 <= id < |s.futures| :: Done(s.futures[id])
  {
    RunKeepsInv(INIT, steps, c);
    AllExitedLeavesNothing(After(INIT, steps, c), c);
  }

  /** Some interleaving from the initial state leads to `s`. */
  ghost predicate Reachable(s: State, c: Config) {
    exists steps: seq<Step> :: Legal(INIT, steps, c) && After(INIT, steps, c) == s
  }

  lemma ReachableStep(s: State, a: Step, c: Config)
    requires Reachable(s, c) && Enabled(s, a, c)
    ensures Reachable(Apply(s, a, c), c)
  {
    var steps: seq<Step> :| Legal(INIT, steps, c) && After(INIT, steps, c) == s;
    AfterAppend(INIT, steps, a, c);
  }

  lemma ReachableInv(s: State, c: Config)
    requires Reachable(s, c) && c.maxWorkers > 0
    ensures Inv(s, c)
  {
    var steps: seq<Step> :| Legal(INIT, steps, c) && After(INIT, steps, c) == s;
    RunKeepsInv(INIT, steps, c);
  }
}
