/** The executor object. Each method performs, without interference, a run of the steps of the
    transition system, so everything proved of all interleavings holds of the object. */
module DaemonExecutor {
  import opened Wrappers
  import opened ExecutorSteps
  import opened ExecutorSafety

  datatype Submission = Accepted(id: nat) | AfterShutdown | QueueFull

  /** The futures of the items are cancelled where that is still possible; the others are as before. */
  predicate CancelledBy(futures: seq<Future>, before: seq<Future>, items: seq<Item>) {
    && |futures| == |before|
    && forall id | 0 <= id < |futures| :: futures[id] == if Work(id) in items then Cancel(before[id]) else before[id]
  }

  /** How far draining has come: what was done, what is left, and the slots given back. */
  predicate Drained(done: seq<Item>, left: seq<Item>, pending: int, futures: seq<Future>, queue: seq<Item>, before: seq<Future>, held: int) {
    done + left == queue && pending - Works(left) == held - Works(queue) && CancelledBy(futures, before, done)
  }

  /** One item more. */
  lemma DrainMore(done: seq<Item>, left: seq<Item>, pending: int, futures: seq<Future>, queue: seq<Item>, before: seq<Future>, held: int)
    requires Drained(done, left, pending, futures, queue, before, held) && left != [] && left[0].Work? && left[0].id < |futures|
    ensures var id := left[0].id;
            Drained(done + [left[0]], left[1..], pending - 1, futures[id := Cancel(futures[id])], queue, before, held)
  {
    CancelMore(futures, before, done, left[0]);
    assert left == [left[0]] + left[1..];
  }

  lemma CancelMore(futures: seq<Future>, before: seq<Future>, items: seq<Item>, item: Item)
    requires CancelledBy(futures, before, items)
    ensures item.Work? && item.id < |futures| ==> CancelledBy(futures[item.id := Cancel(futures[item.id])], before, items + [item])
  {
  }

  class DaemonFutureExecutor {
    const config: Config
    var queue: seq<Item>
    var pending: int
    var shutdown: bool
    var workers: seq<Worker>
    var futures: seq<Future>
    var started: seq<nat>

    /** The object's state while the lock owner stands at `lock`. */
    function View(lock: Lock): State
      reads this
    {
      State(queue, pending, shutdown, workers, lock, futures, started)
    }

    ghost predicate Valid()
      reads this
    {
      config.maxWorkers > 0 && Reachable(View(Free), config)
    }

    constructor (maxWorkers: nat, maxPending: Option<nat>)
      requires maxWorkers > 0
      ensures Valid() && View(Free) == INIT && config == Config(maxWorkers, maxPending)
    {
      config := Config(maxWorkers, maxPending);
      queue, pending, shutdown, workers, futures, started := [], 0, false, [], [], [];
      assert Legal(INIT, [], Config(maxWorkers, maxPending));
    }

    method Submit() returns (result: Submission)
      requires Valid()
      modifies this
      ensures Valid()
      ensures result.Accepted? <==>
                !old(shutdown) && (config.maxPending.None? || old(pending) < config.maxPending.value)
      ensures result.Accepted? ==>
                && result.id == old(|futures|) && |futures| == old(|futures|) + 1
                && queue == old(queue) + [Work(result.id)] && pending == old(pending) + 1
                && futures == old(futures) + [Pending] && started == old(started) && !shutdown
                && workers == (if old(workers) != [] then old(workers) else seq(config.maxWorkers, i => Idle))
      ensures result.AfterShutdown? <==> old(shutdown)
      ensures !result.Accepted? ==> View(Free) == old(View(Free))
    {
      if shutdown {
        return AfterShutdown;
      }
      if config.maxPending.Some? && pending >= config.maxPending.value {
        return QueueFull;
      }
      ReachableStep(View(Free), SubmitBegin, config);
      if workers == [] {
        workers := seq(config.maxWorkers, i => Idle);
      }
      var id := |futures|;
      futures := futures + [Pending];
      pending := pending + 1;
      ReachableStep(View(Submitting(id)), SubmitPut, config);
      queue := queue + [Work(id)];
      return Accepted(id);
    }

    method ReleasePending()
      modifies this`pending
      ensures pending == ReleaseOne(old(pending)) && (old(pending) >= 0 ==> pending >= 0)
    {
      if pending != 0 {
        pending := pending - 1;
      }
    }

    /** Takes the first item off the queue, cancels its future and gives its slot back. */
    method CancelFirstLocked()
      requires config.maxWorkers > 0 && Reachable(View(Draining(0)), config) && queue != []
      modifies this`queue, this`pending, this`futures
      ensures Reachable(View(Draining(0)), config)
      ensures old(queue)[0].Work? && old(queue)[0].id < |old(futures)| && queue == old(queue)[1..] && pending == old(pending) - 1
      ensures futures == old(futures)[old(queue)[0].id := Cancel(old(futures)[old(queue)[0].id])]
    {
      var item := queue[0];
      ReachableStep(View(Draining(0)), DrainTake, config);
      DrainMeetsWork(View(Draining(0)), config);
      queue := queue[1..];
      ReachableStep(View(DrainHolding(0, item.id)), DrainRelease, config);
      futures := futures[item.id := Cancel(futures[item.id])];
      ReleasePending();
    }

    /** Empties the queue: every queued item's future is cancelled and its slot given back. */
    method CancelQueuedLocked()
      requires config.maxWorkers > 0 && Reachable(View(Draining(0)), config)
      modifies this`queue, this`pending, this`futures
      ensures Reachable(View(Restoring(0)), config) && queue == []
      ensures pending == old(pending) - old(Works(queue))
      ensures CancelledBy(futures, old(futures), old(queue))
    {
      ghost var done: seq<Item> := [];
      while queue != []
        invariant Reachable(View(Draining(0)), config)
        invariant Drained(done, queue, pending, futures, old(queue), old(futures), old(pending))
        decreases |queue|
      {
        ghost var q, p, f := queue, pending, futures;
        CancelFirstLocked();
        DrainMore(done, q, p, f, old(queue), old(futures), old(pending));
        done := done + [q[0]];
      }
      assert done == old(queue);
      ReachableStep(View(Draining(0)), DrainTake, config);
    }

    /** One stop marker per worker thread. */
    method PutStops()
      requires Reachable(View(PuttingStops(|workers|)), config)
      modifies this`queue
      ensures Reachable(View(Free), config)
      ensures queue == old(queue) + seq(|workers|, i => Stop)
    {
      for i := 0 to |workers|
        invariant Reachable(View(PuttingStops(|workers| - i)), config)
        invariant queue == old(queue) + seq(i, j => Stop)
      {
        ReachableStep(View(PuttingStops(|workers| - i)), PutStop, config);
        queue := queue + [Stop];
      }
      ReachableStep(View(PuttingStops(0)), PutStop, config);
    }

    method Shutdown(cancelFutures: bool)
      requires Valid()
      modifies this
      ensures Valid() && shutdown
      ensures old(shutdown) ==> View(Free) == old(View(Free))
      ensures !old(shutdown) ==>
                && workers == old(workers)
                && queue == (if cancelFutures then [] else old(queue)) + seq(|workers|, i => Stop)
                && pending == old(pending) - (if cancelFutures then old(Works(queue)) else 0)
                && started == old(started)
                && (if cancelFutures then CancelledBy(futures, old(futures), old(queue)) else futures == old(futures))
    {
      var first := !shutdown;
      ReachableStep(View(Free), ShutdownBegin(cancelFutures), config);
      shutdown := true;
      if first && cancelFutures {
        CancelQueuedLocked();
        ReachableStep(View(Restoring(0)), RestoreStop, config);
      }
      if first {
        PutStops();
      }
    }

    /** A worker runs the item it holds, or notices that its future was cancelled. */
    method RunHeld(w: nat, id: nat)
      requires Valid() && w < |workers| && workers[w] == Holding(id) && id < |futures| && Waiting(futures[id])
      modifies this`workers, this`futures, this`started
      ensures Valid() && workers == old(workers)[w := Releasing(id)]
      ensures old(futures)[id] == Pending ==> futures == old(futures)[id := Finished] && started == old(started) + [id]
      ensures old(futures)[id] == Cancelled ==> futures == old(futures)[id := Notified] && started == old(started)
    {
      ReachableStep(View(Free), BeginRun(w), config);
      if futures[id] == Pending {
        futures := futures[id := Running];
        started := started + [id];
        workers := workers[w := Executing(id)];
        ReachableStep(View(Free), FinishRun(w), config);
        futures := futures[id := Finished];
      } else {
        futures := futures[id := Notified];
      }
      workers := workers[w := Releasing(id)];
    }

    /** One pass of a worker's loop. A cancelled item is dropped without being started. */
    method WorkerTurn(w: nat)
      requires Valid() && Enabled(View(Free), Dequeue(w), config)
      modifies this`queue, this`pending, this`workers, this`futures, this`started
      ensures Valid() && queue == old(queue)[1..]
      ensures old(queue)[0].Stop? ==> workers == old(workers)[w := Exited] && futures == old(futures) && started == old(started) && pending == old(pending)
      ensures old(queue)[0].Work? ==>
                var id := old(queue)[0].id;
                && workers == old(workers) && pending == old(pending) - 1 && id < |old(futures)|
                && (old(futures)[id] == Pending ==> futures == old(futures)[id := Finished] && started == old(started) + [id])
                && (old(futures)[id] == Cancelled ==> futures == old(futures)[id := Notified] && started == old(started))
                && (old(futures)[id] == Pending || old(futures)[id] == Cancelled)
    {
      ReachableStep(View(Free), Dequeue(w), config);
      var item := queue[0];
      queue := queue[1..];
      if item.Stop? {
        workers := workers[w := Exited];
        return;
      }
      workers := workers[w := Holding(item.id)];
      HeldItem(View(Free), w, config);
      RunHeld(w, item.id);
      ReachableStep(View(Free), Release(w), config);
      ReleasePending();
      workers := workers[w := Idle];
      assert workers == old(workers);
    }
  }

  /** While the first shutdown drains the queue there are no stop markers in it yet. */
  lemma DrainMeetsWork(s: State, c: Config)
    requires Reachable(s, c) && c.maxWorkers > 0 && s.lock.Draining? && s.queue != []
    ensures s.queue[0].Work? && s.queue[0].id < |s.futures| && s.pending > 0
  {
    ReachableInv(s, c);
    WorksBound(s.queue);
    assert s.shutdown;
  }

  /** An item in a worker's hands is pending or cancelled, and still counted. */
  lemma HeldItem(s: State, w: nat, c: Config)
    requires Reachable(s, c) && c.maxWorkers > 0 && w < |s.workers| && s.workers[w].Holding?
    ensures s.workers[w].id < |s.futures| && Waiting(s.futures[s.workers[w].id]) && s.pending > 0
  {
    ReachableInv(s, c);
    assert WorkerAgrees(s.workers[w], s.futures);
    BusyWorkerCounts(s.workers, w);
  }
}
