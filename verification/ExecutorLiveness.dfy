/** From the first shutdown on, the executor can only wind down, and it never gets stuck. */
module ExecutorLiveness {
  import opened ExecutorSteps
  import opened ExecutorSafety

  function WorkerWeight(w: Worker): nat {
    match w
    case Holding(_) => 3
    case Executing(_) => 2
    case Releasing(_) => 1
    case _ => 0
  }

  function WorkersWeight(ws: seq<Worker>): nat {
    if ws == [] then 0 else WorkerWeight(ws[0]) + WorkersWeight(ws[1..])
  }

  function LockWeight(l: Lock, workers: nat): nat {
    match l
    case Draining(_) => 2 * workers + 3
    case DrainHolding(_, _) => 2 * workers + 4
    case Restoring(_) => 2 * workers + 2
    case PuttingStops(n) => 2 * n + 1
    case _ => 0
  }

  /** The internal steps still to come, at most. */
  function Remaining(s: State): int {
    4 * Works(s.queue) + (|s.queue| - Works(s.queue)) + WorkersWeight(s.workers) + LockWeight(s.lock, |s.workers|)
  }

  /** Steps the executor takes by itself; the others are requests from outside. */
  predicate Internal(a: Step) { !a.SubmitBegin? && !a.ExternalCancel? && !a.ShutdownBegin? }

  function InternalCount(steps: seq<Step>): nat {
    if steps == [] then 0 else (if Internal(steps[0]) then 1 else 0) + InternalCount(steps[1..])
  }

  lemma {:induction false} WeightUpdate(ws: seq<Worker>, i: nat, w: Worker)
    requires i < |ws|
    ensures WorkersWeight(ws[i := w]) == WorkersWeight(ws) - WorkerWeight(ws[i]) + WorkerWeight(w)
  {
    if i == 0 {
      assert ws[i := w][1..] == ws[1..];
    } else {
      assert ws[i := w][1..] == ws[1..][i - 1 := w];
      WeightUpdate(ws[1..], i - 1, w);
    }
  }

  lemma WorkerWindsDown(s: State, a: Step, c: Config)
    requires Inv(s, c) && s.shutdown && Enabled(s, a, c) && (WorkerStep(a) || a.Dequeue?)
    ensures Apply(s, a, c).shutdown && Remaining(Apply(s, a, c)) < Remaining(s)
  {
    WorksBound(s.queue);
    WeightUpdate(s.workers, a.w, Apply(s, a, c).workers[a.w]);
    assert WorkerAgrees(s.workers[a.w], s.futures);
  }

  lemma LockWindsDown(s: State, a: Step, c: Config)
    requires Inv(s, c) && s.shutdown && Enabled(s, a, c) && !WorkerStep(a) && !a.Dequeue?
    ensures Apply(s, a, c).shutdown
    ensures Remaining(Apply(s, a, c)) <= Remaining(s) - (if Internal(a) then 1 else 0)
  {
    WorksBound(s.queue);
    if a.RestoreStop? || a.PutStop? {
      WorksAppend(s.queue, Stop);
    }
  }

  /** After a shutdown every internal step lowers the bound, and no request raises it. */
  lemma StepWindsDown(s: State, a: Step, c: Config)
    requires Inv(s, c) && s.shutdown && Enabled(s, a, c)
    ensures Apply(s, a, c).shutdown
    ensures Remaining(Apply(s, a, c)) <= Remaining(s) - (if Internal(a) then 1 else 0)
  {
    if WorkerStep(a) || a.Dequeue? {
      WorkerWindsDown(s, a, c);
    } else {
      LockWindsDown(s, a, c);
    }
  }

  lemma NoDeadlock(s: State, c: Config)
    requires Inv(s, c) && s.shutdown && !(s.lock.Free? && AllExited(s))
    ensures exists a :: Internal(a) && Enabled(s, a, c)
  {
    match s.lock
    case Submitting(_) => assert false;
    case Draining(_) => assert Enabled(s, DrainTake, c);
    case DrainHolding(_, _) => assert Enabled(s, DrainRelease, c);
    case Restoring(_) => assert Enabled(s, RestoreStop, c);
    case PuttingStops(_) => assert Enabled(s, PutStop, c);
    case Free =>
      var w :| 0 <= w < |s.workers| && !s.workers[w].Exited?;
      assert WorkerAgrees(s.workers[w], s.futures);
      match s.workers[w]
      case Holding(_) => assert Enabled(s, BeginRun(w), c);
      case Executing(_) => assert Enabled(s, FinishRun(w), c);
      case Releasing(_) => assert Enabled(s, Release(w), c);
      case Idle =>
        CountBounds(s.workers);
        assert Enabled(s, Dequeue(w), c);
  }

  /** Every run after a shutdown, whatever futures are cancelled meanwhile, makes at most
      `Remaining` internal steps, and one that can make no more has let every worker exit. */
  lemma {:induction false} ShutdownTerminates(s: State, steps: seq<Step>, c: Config)
    requires Inv(s, c) && s.shutdown && Legal(s, steps, c)
    ensures InternalCount(steps) + Remaining(After(s, steps, c)) <= Remaining(s)
    ensures 0 <= Remaining(After(s, steps, c))
    ensures (forall a | Internal(a) :: !Enabled(After(s, steps, c), a, c)) ==>
              After(s, steps, c).lock.Free? && AllExited(After(s, steps, c))
    decreases |steps|
  {
    if steps == [] {
      WorksBound(s.queue);
      if !(s.lock.Free? && AllExited(s)) {
        NoDeadlock(s, c);
      }
    } else {
      var t := Apply(s, steps[0], c);
      StepWindsDown(s, steps[0], c);
      StepKeepsInv(s, steps[0], c);
      ShutdownTerminates(t, steps[1..], c);
    }
  }
}
