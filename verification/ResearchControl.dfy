/** The controller of one research run: stop requests, two clocks, durable reservations and
    provider calls. Clocks, stop requests from other threads, the store's answers and the provider
    follow an arbitrary schedule: every value they may take is covered. */
module ResearchControl {
  import opened Wrappers
  import opened ControlTrace

  /** How provider operations are run: in line, or by the stand-alone runner, whose operations may
      be isolated in a child process. */
  datatype Runner = Direct | Standalone(isolated: bool)

  const RESOURCE_NAMES: set<string> := {"retrieval_queries", "candidate_docs", LLM_CALLS, "model_input_chars"}

  // ----- Costs

  predicate CostsOk(costs: map<string, int>) {
    forall n | n in costs :: n in RESOURCE_NAMES && costs[n] >= 0
  }

  function NonZero(costs: map<string, int>): map<string, int> {
    map n | n in costs && costs[n] != 0 :: costs[n]
  }

  /** Accepts exactly the known resources with non-negative costs, and drops the zeros. */
  method NormalizeResourceCosts(costs: map<string, int>) returns (r: Option<map<string, int>>)
    ensures r.Some? <==> CostsOk(costs)
    ensures r.Some? ==> r.value == NonZero(costs)
  {
    var normalized := map n | n in RESOURCE_NAMES :: 0;
    var todo := costs.Keys;
    ghost var done: set<string> := {};
    while todo != {}
      invariant todo !! done && todo + done == costs.Keys
      invariant forall n | n in done :: n in RESOURCE_NAMES && costs[n] >= 0
      invariant normalized.Keys == RESOURCE_NAMES
      invariant forall n | n in RESOURCE_NAMES :: normalized[n] == if n in done then costs[n] else 0
      decreases todo
    {
      var n :| n in todo;
      if n !in normalized || costs[n] < 0 {
        return None;
      }
      normalized := normalized[n := costs[n]];
      todo, done := todo - {n}, done + {n};
    }
    assert done == costs.Keys;
    r := Some(NonZero(normalized));
    assert r.value == NonZero(costs);
  }

  function CallCosts(chars: nat): map<string, int> {
    map[LLM_CALLS := 1, "model_input_chars" := chars]
  }

  lemma CallCostsCoverOneCall(chars: nat)
    ensures CostsOk(CallCosts(chars)) && CallsIn(NonZero(CallCosts(chars))) == 1
  {
    assert LLM_CALLS in NonZero(CallCosts(chars));
  }

  /** A deadline signal that leaves the controller is marked durable, given that those of the store are. */
  ghost predicate Settled(e: Option<Error>, world: World) {
    e == Some(Control(DeadlineExceeded(false))) ==> !DurableStore(world)
  }

  /** The model calls that a reservation may take from the budget. */
  function Asks(costs: map<string, int>): nat {
    if CallsIn(costs) > 0 then CallsIn(costs) else 0
  }

  function AsksFor(admission: Option<map<string, int>>): nat {
    if admission.Some? then Asks(admission.value) else 0
  }

  /** The call reserves at least one model call for itself. */
  predicate Pays(admission: Option<map<string, int>>) {
    admission.Some? && CallsIn(admission.value) >= 1
  }

  /** The admission asks for an unknown resource or for a negative amount. */
  predicate BadAdmission(admission: Option<map<string, int>>) {
    admission.Some? && !CostsOk(admission.value)
  }

  lemma NormalizedCalls(costs: map<string, int>)
    requires CostsOk(costs)
    ensures CallsIn(NonZero(costs)) == CallsIn(costs) >= 0
  {
  }

  // ----- The controller

  /** Every method that deals with the outside returns, as a ghost, what it adds to the history. Only
      dealings with the outside are recorded, where they happen. */
  class ResearchRunController {
    const world: World
    const deadlineAt: Deadline
    const ceiling: Option<real>    // the monotonic deadline
    const commitsDeadlines: bool   // a deadline callback is installed
    const runner: Runner
    const callLimit: nat           // the store's budget of model calls

    var stopSet: bool
    var stopReason: string
    var lastDurablePoll: real

    var now: nat                   // the number of the last dealing with the outside
    var usedCalls: int             // calls the store has granted, to this run and others
    ghost var history: Trace       // all that has happened

    ghost predicate Valid()
      reads this
    {
      && WorldOk(world) && (ceiling.None? <==> deadlineAt.NoDeadline?) && usedCalls <= callLimit
      && (stopSet <==> StopBy(world, now).Some?) && (stopSet ==> stopReason == StopBy(world, now).value)
    }

    ghost function Surroundings(): Setting {
      Setting(world, deadlineAt, ceiling, !commitsDeadlines)
    }

    /** The monotonic clock at the last dealing with the outside. */
    function Mono(): real
      reads this
    {
      world.mono(now)
    }

    /** Nothing more may start: a stop was requested or the monotonic ceiling has passed. */
    ghost predicate Over()
      reads this
    {
      stopSet || (ceiling.Some? && ceiling.value <= Mono())
    }

    ghost function Here(): Moment
      reads this
    {
      Moment(now, usedCalls, callLimit)
    }

    /** How a step that adds `delta` moves the controller: the history grows by it, it has happened during
        this step, and a stop is never withdrawn. */
    twostate predicate Advances(delta: Trace)
      reads this
    {
      && history == old(history) + delta && Happened(delta, Surroundings(), old(Here()), Here())
      && (old(stopSet) ==> stopSet)
    }

    constructor (deadlineAt: Deadline, commitsDeadlines: bool, runner: Runner, callLimit: nat, used: nat, world: World)
      requires used <= callLimit && WorldOk(world)
      ensures Valid() && history == [] && now == 1 && this.deadlineAt == deadlineAt && this.world == world
      ensures this.commitsDeadlines == commitsDeadlines && this.runner == runner && this.callLimit == callLimit && usedCalls == used
      ensures deadlineAt.Unreadable? ==> Over()
      ensures deadlineAt.At? ==> ceiling == Some(Mono() + Max(deadlineAt.time - world.wall(0), 0.0))
    {
      this.world := world;
      this.deadlineAt := deadlineAt;
      this.commitsDeadlines := commitsDeadlines;
      this.runner := runner;
      this.callLimit := callLimit;
      lastDurablePoll, now, usedCalls, history := 0.0, 1, used, [];
      stopSet, stopReason := world.stops(1).Some?, if world.stops(1).Some? then world.stops(1).value else "";
      ceiling := match deadlineAt
        case NoDeadline => None
        case Unreadable => Some(world.mono(1))
        case At(time) => Some(world.mono(1) + Max(time - world.wall(0), 0.0));
    }

    /** On to the next dealing with the outside: clocks have moved, another thread may have requested a
        stop, other runs may have used the budget. */
    method Elapse()
      requires Valid()
      modifies this
      ensures Valid() && Advances([]) && history == old(history) && now == old(now) + 1
      ensures lastDurablePoll == old(lastDurablePoll)
      ensures usedCalls == if old(usedCalls) + world.others(now) <= callLimit then old(usedCalls) + world.others(now) else old(usedCalls)
    {
      now := now + 1;
      if world.stops(now).Some? {
        RequestStop(world.stops(now).value);
      }
      if usedCalls + world.others(now) <= callLimit {
        usedCalls := usedCalls + world.others(now);
      }
    }

    method RequestStop(reason: string)
      modifies this`stopSet, this`stopReason
      ensures stopSet && stopReason == reason
    {
      stopReason := reason;
      stopSet := true;
    }

    /** Looks at the stop event. */
    method RaiseIfStopped() returns (r: Option<Signal>, ghost delta: Trace)
      requires Valid()
      modifies this
      ensures Valid() && Advances(delta) && Plain(delta) && CallsGranted(delta) == 0
      ensures r.None? ==> delta == [Clear(now)]
      ensures r.Some? ==> delta == [StopFound(r.value, now)] && Caused(Control(r.value), delta)
      ensures old(stopSet) ==> r.Some?
      ensures r != Some(DeadlineExceeded(true))
      ensures lastDurablePoll == old(lastDurablePoll)
    {
      Elapse();
      r := if stopSet then Some(SignalFor(stopReason)) else None;
      ghost var seen := if stopSet then StopFound(SignalFor(stopReason), now) else Clear(now);
      OneEvent(seen, Surroundings(), old(Here()), Here());
      delta := [seen];
      history := history + delta;
    }

    /** The time left, the smaller of what the wall clock and the monotonic ceiling allow. */
    method RemainingSeconds() returns (r: Option<real>, ghost delta: Trace)
      requires Valid()
      modifies this
      ensures Valid() && Advances(delta) && Plain(delta) && CallsGranted(delta) == 0
      ensures |delta| == 1
      ensures delta[0] == if r.Some? && r.value <= 0.0 then TimeUp(First(delta[0]), now) else InTime(First(delta[0]), now)
      ensures r == RemainingAt(Surroundings(), First(delta[0]), now)
      ensures lastDurablePoll == old(lastDurablePoll)
    {
      Elapse();
      ghost var wallAt := now;
      match deadlineAt {
        case NoDeadline => r := None;
        case Unreadable => r := Some(0.0);
        case At(time) =>
          var wallRemaining := Max(time - world.wall(now), 0.0);
          Elapse();
          r := Some(Min(wallRemaining, Max(ceiling.value - Mono(), 0.0)));
      }
      ghost var seen := if r.Some? && r.value <= 0.0 then TimeUp(wallAt, now) else InTime(wallAt, now);
      OneEvent(seen, Surroundings(), old(Here()), Here());
      delta := [seen];
      history := history + delta;
    }

    /** Process-local control only: the stop event, then the deadline. */
    method PollLocal() returns (r: Option<Signal>, ghost delta: Trace)
      requires Valid()
      modifies this
      ensures Valid() && Advances(delta) && Plain(delta) && CallsGranted(delta) == 0
      ensures r.None? ==> IsClear(delta)
      ensures r.Some? ==> Caused(Control(r.value), delta)
      ensures old(Over()) ==> r.Some?
      ensures r != Some(DeadlineExceeded(true))
      ensures lastDurablePoll == old(lastDurablePoll)
    {
      r, delta := RaiseIfStopped();
      if r.None? {
        ghost var mid, more := Here(), [];
        var left;
        left, more := RemainingSeconds();
        if left.Some? && left.value <= 0.0 {
          r := Some(DeadlineExceeded(false));
          assert Explains(more[0], Control(DeadlineExceeded(false)));
        }
        Joined(old(history), delta, more, Surroundings(), old(Here()), mid, Here());
        delta := delta + more;
      }
    }

    /** The store's answer: it never grants beyond the budget, and may refuse for any reason. */
    method ReserveCallback(costs: map<string, int>) returns (r: Option<Error>, ghost delta: Trace)
      requires Valid() && CallsIn(costs) >= 0
      modifies this
      ensures Valid() && Advances(delta) && Plain(delta)
      ensures r.None? ==> delta == [Granted(costs, now)]
      ensures r.Some? ==> |delta| == 1 && Caused(r.value, delta) && CallsGranted(delta) == 0
      ensures Settled(r, world)
      ensures lastDurablePoll == old(lastDurablePoll)
    {
      Elapse();
      r := world.answers(now);
      ghost var answer;
      if r.Some? {
        answer := StoreRefused(r.value, now);
      } else if usedCalls + CallsIn(costs) > callLimit {
        r, answer := Some(Control(BudgetExceeded)), OverBudget(costs, now);
      } else {
        usedCalls, answer := usedCalls + CallsIn(costs), Granted(costs, now);
      }
      OneEvent(answer, Surroundings(), old(Here()), Here());
      delta := [answer];
      history := history + delta;
    }

    /** The store is told of the deadline and answers with the state that won. */
    method DeadlineCallback() returns (e: Error, ghost delta: Trace)
      requires Valid() && commitsDeadlines
      modifies this
      ensures Valid() && Advances(delta) && Plain(delta) && CallsGranted(delta) == 0
      ensures e == AnswerTo(world.commits(now))
      ensures delta == [if e == Control(DeadlineExceeded(true)) then Committed(now, now) else Overruled(e, now)]
      ensures Caused(e, delta)
    {
      Elapse();
      var outcome := world.commits(now);
      if outcome.None? {
        e := StoreFailure;
      } else if outcome.value == "deadline" {
        e := Control(DeadlineExceeded(true));
      } else {
        e := Control(if outcome.value == "paused" then Paused else Cancelled);
      }
      ghost var answer := if e == Control(DeadlineExceeded(true)) then Committed(now, now) else Overruled(e, now);
      OneEvent(answer, Surroundings(), old(Here()), Here());
      delta := [answer];
      history := history + delta;
    }

    /** For a run without a durable row: an empty reservation that passes stands for the commitment. */
    method CommitByReservation() returns (e: Error, ghost delta: Trace)
      requires Valid() && !commitsDeadlines
      modifies this
      ensures Valid() && Advances(delta) && Plain(delta) && CallsGranted(delta) == 0
      ensures Caused(e, delta) && Settled(Some(e), world)
      ensures |delta| <= 2
      ensures |delta| == 2 ==> delta[0].Granted? && delta[0].costs == map[] && delta[1] == Committed(delta[0].at, now)
      ensures |delta| == 2 ==> lastDurablePoll == Mono()
    {
      var r;
      r, delta := ReserveCallback(map[]);
      if r.Some? {
        return r.value, delta;
      }
      ghost var granted := now;
      OneEvent(delta[0], Surroundings(), old(Here()), Here());
      Elapse();
      lastDurablePoll := Mono();
      e := Control(DeadlineExceeded(true));
      ghost var commit := Committed(granted, now);
      CommitAfterGrant(delta[0], commit, Surroundings(), old(Here()), Here());
      history := history + [commit];
      delta := delta + [commit];
    }

    /** Has the store take up a local deadline: through the deadline callback, or, for a run without a
        durable row, through an empty reservation. It always ends in an error, and a deadline signal has
        been taken up. */
    method PersistLocalDeadline() returns (e: Error, ghost delta: Trace)
      requires Valid()
      modifies this
      ensures Valid() && Advances(delta) && Plain(delta) && CallsGranted(delta) == 0
      ensures Caused(e, delta) && Settled(Some(e), world)
    {
      if commitsDeadlines {
        e, delta := DeadlineCallback();
      } else {
        e, delta := CommitByReservation();
      }
    }

    /** The local checks, a local deadline being committed before it is raised. */
    method CheckLocal() returns (r: Option<Error>, ghost delta: Trace)
      requires Valid()
      modifies this
      ensures Valid() && Advances(delta) && Plain(delta) && CallsGranted(delta) == 0
      ensures r.None? ==> IsClear(delta) && lastDurablePoll == old(lastDurablePoll)
      ensures r.Some? ==> Caused(r.value, delta)
      ensures old(Over()) ==> r.Some?
      ensures Settled(r, world)
    {
      var s;
      s, delta := PollLocal();
      if s == Some(DeadlineExceeded(false)) {
        ghost var mid, more := Here(), [];
        var e;
        e, more := PersistLocalDeadline();
        Joined(old(history), delta, more, Surroundings(), old(Here()), mid, Here());
        r, delta := Some(e), delta + more;
      } else {
        r := if s.Some? then Some(Control(s.value)) else None;
      }
    }

    /** A reservation followed by the local checks: what arrives while the store is busy wins. */
    method ReserveThenCheck(costs: map<string, int>) returns (r: Option<Error>, ghost delta: Trace)
      requires Valid() && CallsIn(costs) >= 0
      modifies this
      ensures Valid() && Advances(delta) && Plain(delta)
      ensures r.None? ==> |delta| == 3 && delta[0].Granted? && delta[0].costs == costs && IsClear(delta[1..])
      ensures r.None? ==> old(Mono()) <= lastDurablePoll <= Mono()
      ensures r.Some? ==> Caused(r.value, delta)
      ensures Settled(r, world)
      ensures CallsGranted(delta) <= Asks(costs)
    {
      r, delta := ReserveCallback(costs);
      if r.None? {
        ghost var mid, more := Here(), [];
        Elapse();
        Waited(delta, Surroundings(), old(Here()), mid, Here());
        mid := Here();
        lastDurablePoll := Mono();
        r, more := CheckLocal();
        Joined(old(history), delta, more, Surroundings(), old(Here()), mid, Here());
        assert (delta + more)[1..] == more;
        delta := delta + more;
      }
    }

    /** A durable checkpoint. It passes only if the run was clear and in time both before and after
        the reservation, and no deadline signal leaves it that the store has not heard of. */
    method Checkpoint(costs: map<string, int>) returns (r: Option<Error>, ghost delta: Trace)
      requires Valid()
      modifies this
      ensures Valid() && Advances(delta) && Plain(delta)
      ensures r.None? ==> CostsOk(costs) && IsCheckpoint(delta, NonZero(costs))
      ensures r.None? ==> old(Mono()) <= lastDurablePoll <= Mono()
      ensures r.Some? ==> Caused(r.value, delta) || (r.value == BadRequest && !CostsOk(costs))
      ensures old(Over()) ==> r.Some? && CallsGranted(delta) == 0
      ensures Settled(r, world)
      ensures CallsGranted(delta) <= Asks(costs)
    {
      r, delta := CheckLocal();
      if r.None? {
        var normalized := NormalizeResourceCosts(costs);
        if normalized.None? {
          return Some(BadRequest), delta;
        }
        NormalizedCalls(costs);
        ghost var mid, more := Here(), [];
        r, more := ReserveThenCheck(normalized.value);
        Joined(old(history), delta, more, Surroundings(), old(Here()), mid, Here());
        if r.None? {
          CheckpointParts(delta, more, normalized.value);
        }
        delta := delta + more;
      }
    }

    /** A checkpoint when the last durable one is old enough. */
    method PollDurable(interval: real) returns (r: Option<Error>, ghost delta: Trace)
      requires Valid()
      modifies this
      ensures Valid() && Advances(delta) && Plain(delta)
      ensures r.None? ==> old(Mono()) - lastDurablePoll < Max(interval, 0.1)
      ensures r.None? ==> IsCheckpoint(delta, map[]) || (delta == [] && lastDurablePoll == old(lastDurablePoll))
      ensures r.Some? ==> Caused(r.value, delta)
      ensures Settled(r, world)
      ensures CallsGranted(delta) <= 0
    {
      Elapse();
      if Mono() - lastDurablePoll >= Max(interval, 0.1) {
        ghost var mid := Here();
        r, delta := Checkpoint(map[]);
        assert NonZero(map[]) == map[];
        Waited(delta, Surroundings(), old(Here()), mid, Here());
      } else {
        r, delta := None, [];
      }
    }

    /** The local checks, and a checkpoint when the last durable one is old enough: a passed poll leaves
        none older than the interval. */
    method Poll(interval: real) returns (r: Option<Error>, ghost delta: Trace)
      requires Valid()
      modifies this
      ensures Valid() && Advances(delta) && Plain(delta)
      ensures r.None? ==> old(Mono()) - lastDurablePoll < Max(interval, 0.1)
      ensures r.None? ==> |delta| >= 2 && IsClear(delta[..2])
      ensures r.None? ==> IsCheckpoint(delta[2..], map[]) || (delta[2..] == [] && lastDurablePoll == old(lastDurablePoll))
      ensures r.Some? ==> Caused(r.value, delta)
      ensures old(Over()) ==> r.Some?
      ensures Settled(r, world)
      ensures CallsGranted(delta) <= 0
    {
      r, delta := CheckLocal();
      if r.None? {
        ghost var mid, more := Here(), [];
        r, more := PollDurable(interval);
        Joined(old(history), delta, more, Surroundings(), old(Here()), mid, Here());
        assert (delta + more)[..2] == delta && (delta + more)[2..] == more;
        delta := delta + more;
      }
    }

    /** The reservation of a call, when it makes one. */
    method Admit(admission: Option<map<string, int>>) returns (r: Option<Error>, ghost delta: Trace)
      requires Valid()
      modifies this
      ensures Valid() && Advances(delta) && Plain(delta)
      ensures r.None? && admission.Some? ==> CallsGranted(delta) == CallsIn(admission.value)
      ensures r.Some? ==> Caused(r.value, delta) || (r.value == BadRequest && BadAdmission(admission))
      ensures CallsGranted(delta) <= AsksFor(admission)
    {
      r, delta := None, [];
      if admission.Some? {
        r, delta := Checkpoint(admission.value);
        if r.None? {
          CheckpointGrants(delta, NonZero(admission.value));
          NormalizedCalls(admission.value);
        }
      } else {
        assert old(history) + [] == history;
      }
    }

    /** The local checks after a reservation. A local deadline found then is committed here, or left for
        the caller to commit. */
    method CheckAgain(commit: bool) returns (r: Option<Error>, ghost delta: Trace)
      requires Valid()
      modifies this
      ensures Valid() && Advances(delta) && Plain(delta) && CallsGranted(delta) == 0
      ensures r.None? ==> IsClear(delta)
      ensures r.Some? ==> Caused(r.value, delta)
    {
      if commit {
        r, delta := CheckLocal();
      } else {
        var s;
        s, delta := PollLocal();
        r := if s.Some? then Some(Control(s.value)) else None;
      }
    }

    /** The reservation of a call and the local checks after it. */
    method Approach(admission: Option<map<string, int>>, commit: bool) returns (r: Option<Error>, ghost delta: Trace)
      requires Valid()
      modifies this
      ensures Valid() && Advances(delta) && Plain(delta)
      ensures r.None? ==> EndsClear(delta) && (Pays(admission) ==> CallsGranted(delta) >= 1)
      ensures r.Some? ==> Caused(r.value, delta) || (r.value == BadRequest && BadAdmission(admission))
      ensures CallsGranted(delta) <= AsksFor(admission)
    {
      r, delta := Admit(admission);
      if r.None? {
        ghost var mid, more := Here(), [];
        r, more := CheckAgain(commit);
        Joined(old(history), delta, more, Surroundings(), old(Here()), mid, Here());
        assert (delta + more)[|delta|..] == more;
        delta := delta + more;
      }
    }

    /** What is left of the time of a call that began at an earlier step. */
    method LeftOfCall(expires: real, ghost begun: nat, ghost seconds: real) returns (left: real, ghost delta: Trace)
      requires Valid() && begun <= now && expires == world.mono(begun) + seconds
      modifies this
      ensures Valid() && Advances(delta) && Calm(delta) && CallsGranted(delta) == 0
      ensures left == expires - Mono()
      ensures delta == [if left <= 0.0 then CallExpired(begun, seconds, now) else Fresh(begun, seconds, now)]
      ensures left <= 0.0 ==> Caused(ProviderTimeout, delta)
    {
      Elapse();
      left := expires - Mono();
      ghost var seen := if left <= 0.0 then CallExpired(begun, seconds, now) else Fresh(begun, seconds, now);
      OneEvent(seen, Surroundings(), old(Here()), Here());
      delta := [seen];
      history := history + delta;
    }

    /** The provider operation itself: it may return any value or end in any error. */
    method Operate() returns (r: Outcome<int>, ghost delta: Trace)
      requires Valid()
      modifies this
      ensures Valid() && Advances(delta) && IsOperation(delta)
      ensures r.Returned? ==> delta[1] == Completed(r.value, now)
      ensures r.Raised? ==> delta[1] == Failed(r.error, now) && Caused(r.error, delta)
      ensures CallsGranted(delta) == 0
    {
      Elapse();
      ghost var opening := Started(now);
      OneEvent(opening, Surroundings(), old(Here()), Here());
      history := history + [opening];
      ghost var mid := Here();
      Elapse();
      r := world.results(now);
      ghost var ending := if r.Returned? then Completed(r.value, now) else Failed(r.error, now);
      OneEvent(ending, Surroundings(), mid, Here());
      history := history + [ending];
      Joined(old(history), [opening], [ending], Surroundings(), old(Here()), mid, Here());
      delta := [opening] + [ending];
      OperationCounts(delta);
    }

    /** The operation is opened unless its time is already over; then what a poll finds comes first. */
    method OperateBefore(expires: real, ghost begun: nat, ghost seconds: real) returns (r: Outcome<int>, ghost delta: Trace)
      requires Valid() && begun <= now && expires == world.mono(begun) + seconds
      modifies this
      ensures Valid() && Advances(delta) && (Calm(delta) || IsOpening(delta)) && Measured(delta, begun, seconds)
      ensures r.Returned? ==> EndsWithValue(delta, r.value)
      ensures r.Raised? ==> Caused(r.error, delta)
      ensures CallsGranted(delta) <= 0
      ensures IsOpening(delta) ==> |delta| == 3
      ensures delta != [] && (delta[0].CallExpired? && !PollPassed(delta[1..]) ==> r.Raised? && Caused(r.error, delta[1..]))
    {
      var left;
      left, delta := LeftOfCall(expires, begun, seconds);
      ghost var mid, more := Here(), [];
      if left <= 0.0 {
        var p;
        p, more := Poll(5.0);
        r := Raised(if p.Some? then p.value else ProviderTimeout);
      } else {
        r, more := Operate();
        Opens(delta, more, begun, seconds);
      }
      Joined(old(history), delta, more, Surroundings(), old(Here()), mid, Here());
      delta := delta + more;
    }

    /** What is left of the call's own time and of the run. */
    method LeftOfBoth(expires: real, ghost begun: nat, ghost seconds: real) returns (left: real, ghost delta: Trace)
      requires Valid() && begun <= now && expires == world.mono(begun) + seconds
      modifies this
      ensures Valid() && Advances(delta) && Calm(delta) && Measured(delta, begun, seconds)
      ensures left > 0.0 ==> |delta| == 2 && delta[0].Fresh? && delta[1].InTime?
      ensures CallsGranted(delta) == 0
    {
      left, delta := LeftOfCall(expires, begun, seconds);
      ghost var mid, more := Here(), [];
      var remaining;
      remaining, more := RemainingSeconds();
      if remaining.Some? {
        left := Min(left, remaining.value);
      }
      Joined(old(history), delta, more, Surroundings(), old(Here()), mid, Here());
      delta := delta + more;
    }

    /** The child process is spawned with what is left of the timeout and of the run. */
    method OperateIsolated(timeout: real, expires: real, ghost begun: nat) returns (r: Outcome<int>, ghost delta: Trace)
      requires Valid() && begun <= now && expires == world.mono(begun) + timeout
      modifies this
      ensures Valid() && Advances(delta) && (Calm(delta) || IsOpening(delta)) && Measured(delta, begun, timeout)
      ensures IsOpening(delta) ==> 0.0 < timeout && delta[0].Fresh? && delta[1].InTime?
      ensures r.Returned? ==> EndsWithValue(delta, r.value)
      ensures r.Raised? ==> Caused(r.error, delta)
      ensures CallsGranted(delta) <= 0
    {
      var left;
      left, delta := LeftOfBoth(expires, begun, timeout);
      left := Min(timeout, left);
      ghost var mid, more := Here(), [];
      if left <= 0.0 {
        var e;
        e, more := PersistLocalDeadline();
        r := Raised(e);
      } else {
        r, more := Operate();
        Opens(delta, more, begun, timeout);
      }
      Joined(old(history), delta, more, Surroundings(), old(Here()), mid, Here());
      delta := delta + more;
    }

    /** The operation, in line or as the stand-alone runner does it. */
    method OperateByRunner(timeout: real, expires: real, ghost begun: nat) returns (r: Outcome<int>, ghost delta: Trace)
      requires Valid() && begun <= now && expires == world.mono(begun) + timeout
      modifies this
      ensures Valid() && Advances(delta) && (Calm(delta) || IsOpening(delta)) && Measured(delta, begun, timeout)
      ensures r.Returned? ==> EndsWithValue(delta, r.value)
      ensures r.Raised? ==> Caused(r.error, delta)
      ensures CallsGranted(delta) <= 0
      ensures IsOpening(delta) ==> (|delta| == 4 <==> runner == Standalone(true))
    {
      if runner == Standalone(true) {
        r, delta := OperateIsolated(timeout, expires, begun);
      } else {
        r, delta := OperateBefore(expires, begun, timeout);
      }
    }

    /** Reservation, checks and operation. */
    method ReserveAndOperate(timeout: real, expires: real, admission: Option<map<string, int>>, ghost begun: nat)
      returns (r: Outcome<int>, ghost delta: Trace)
      requires Valid() && begun <= now && expires == world.mono(begun) + timeout
      modifies this
      ensures Valid() && Advances(delta) && OneCall(delta, Pays(admission)) && Measured(delta, begun, timeout)
      ensures r.Returned? ==> EndsWithValue(delta, r.value)
      ensures r.Raised? ==> Caused(r.error, delta) || (r.error == BadRequest && BadAdmission(admission))
      ensures CallsGranted(delta) <= AsksFor(admission)
    {
      var a;
      a, delta := Approach(admission, runner.Standalone?);
      if a.Some? {
        CalmIsOneCall(delta, Pays(admission));
        return Raised(a.value), delta;
      }
      ghost var mid, tail := Here(), [];
      r, tail := OperateByRunner(timeout, expires, begun);
      CallEnds(delta, tail, Pays(admission));
      MeasuredConcat(delta, tail, begun, timeout);
      Joined(old(history), delta, tail, Surroundings(), old(Here()), mid, Here());
      delta := delta + tail;
    }

    /** The timed part of a call. */
    method RunOperation(timeout: real, admission: Option<map<string, int>>) returns (r: Outcome<int>, ghost delta: Trace)
      requires Valid()
      modifies this
      ensures Valid() && Advances(delta) && OneCall(delta, Pays(admission)) && Fair(delta, Surroundings(), timeout, old(now))
      ensures r.Returned? ==> EndsWithValue(delta, r.value)
      ensures r.Raised? ==> Caused(r.error, delta) || (r.error == BadRequest && BadAdmission(admission))
      ensures CallsGranted(delta) <= AsksFor(admission)
    {
      Elapse();
      var expires := Mono() + timeout;
      ghost var mid := Here();
      r, delta := ReserveAndOperate(timeout, expires, admission, now);
      Waited(delta, Surroundings(), old(Here()), mid, Here());
    }

    /** Before the reservation: the local checks and the contracted timeout. */
    method Contract(timeout: real) returns (r: Outcome<real>, ghost delta: Trace)
      requires Valid()
      modifies this
      ensures Valid() && Advances(delta) && Plain(delta) && CallsGranted(delta) == 0
      ensures r.Returned? ==> 0.0 < r.value <= timeout && Allows(Surroundings(), timeout, old(now), now, r.value)
      ensures r.Returned? && ceiling.Some? ==> r.value <= Max(ceiling.value - old(Mono()), 0.0)
      ensures r.Raised? ==> Caused(r.error, delta) && Settled(Some(r.error), world)
      ensures old(Over()) ==> r.Raised?
    {
      var c;
      c, delta := CheckLocal();
      if c.Some? {
        return Raised(c.value), delta;
      }
      ghost var mid, more := Here(), [];
      r, more := ContractNow(timeout);
      Joined(old(history), delta, more, Surroundings(), old(Here()), mid, Here());
      delta := delta + more;
    }

    method ContractNow(timeout: real) returns (r: Outcome<real>, ghost delta: Trace)
      requires Valid()
      modifies this
      ensures Valid() && Advances(delta) && Plain(delta) && CallsGranted(delta) == 0
      ensures r.Returned? ==> 0.0 < r.value <= timeout && Allows(Surroundings(), timeout, old(now), now, r.value)
      ensures r.Returned? && ceiling.Some? ==> r.value <= Max(ceiling.value - old(Mono()), 0.0)
      ensures r.Raised? ==> Caused(r.error, delta) && Settled(Some(r.error), world)
    {
      var remaining;
      remaining, delta := RemainingSeconds();
      var contracted := if remaining.Some? then Min(timeout, remaining.value) else timeout;
      if contracted > 0.0 {
        return Returned(contracted), delta;
      }
      ghost var mid, more := Here(), [];
      var e;
      e, more := PersistLocalDeadline();
      Joined(old(history), delta, more, Surroundings(), old(Here()), mid, Here());
      r, delta := Raised(e), delta + more;
    }

    /** What happens once the operation has ended: a deadline signal is committed, other signals pass,
        and a value or an error is let out only by a passed checkpoint. */
    method Close(inner: Outcome<int>) returns (r: Outcome<int>, ghost delta: Trace)
      requires Valid()
      modifies this
      ensures Valid() && Advances(delta) && Plain(delta)
      ensures r.Returned? ==> inner == r && IsCheckpoint(delta, map[])
      ensures r.Raised? ==> Caused(r.error, delta) || (r == inner && (r.error.Control? || IsCheckpoint(delta, map[])))
      ensures r.Raised? ==> Settled(Some(r.error), world)
      ensures CallsGranted(delta) <= 0
    {
      if inner == Raised(Control(DeadlineExceeded(false))) {
        var e;
        e, delta := PersistLocalDeadline();
        r := Raised(e);
      } else if inner.Raised? && inner.error.Control? {
        r, delta := inner, [];
        Waited([], Surroundings(), old(Here()), Here(), Here());
        assert old(history) + [] == history;
      } else {
        var c;
        c, delta := Checkpoint(map[]);
        assert NonZero(map[]) == map[];
        r := if c.Some? then Raised(c.value) else inner;
      }
    }

    method RunAndClose(timeout: real, admission: Option<map<string, int>>) returns (r: Outcome<int>, ghost delta: Trace)
      requires Valid()
      modifies this
      ensures Valid() && Advances(delta) && OneCall(delta, Pays(admission)) && Fair(delta, Surroundings(), timeout, old(now))
      ensures r.Returned? ==> ObservedAfter(delta, r.value)
      ensures r.Raised? ==> Caused(r.error, delta) || (r.error == BadRequest && BadAdmission(admission))
      ensures r.Raised? ==> Settled(Some(r.error), world)
      ensures CallsGranted(delta) <= AsksFor(admission)
    {
      var inner;
      inner, delta := RunOperation(timeout, admission);
      ghost var mid, more := Here(), [];
      r, more := Close(inner);
      CalmIsOneCall(more, Pays(admission));
      CallsConcat(delta, more, Pays(admission));
      FairConcat(delta, more, Surroundings(), timeout, old(now));
      if r.Returned? {
        ObservedNow(delta, more, r.value);
      }
      Joined(old(history), delta, more, Surroundings(), old(Here()), mid, Here());
      delta := delta + more;
    }

    /** One provider call. A value comes out only if the operation completed with it and the closing
        checkpoint passed; an error comes out only for its cause, and no deadline signal that the store
        has not taken up, unless the operation itself vouched for it; at most one operation is opened,
        within the time of the call and after its own reservation when the call makes one; and nothing is
        opened or reserved once the run is over. */
    method RunProvider(timeout: real, admission: Option<map<string, int>>) returns (r: Outcome<int>, ghost delta: Trace)
      requires Valid()
      modifies this
      ensures Valid() && Advances(delta) && OneCall(delta, Pays(admission)) && Fair(delta, Surroundings(), timeout, old(now))
      ensures r.Returned? ==> ObservedAfter(delta, r.value)
      ensures r.Raised? ==> Caused(r.error, delta) || (r.error == BadRequest && (timeout <= 0.0 || BadAdmission(admission)))
      ensures timeout <= 0.0 ==> r == Raised(BadRequest) && delta == []
      ensures r.Raised? ==> Settled(Some(r.error), world)
      ensures old(Over()) ==> r.Raised? && Quiet(delta) && CallsGranted(delta) == 0
      ensures CallsGranted(delta) <= AsksFor(admission)
    {
      if timeout <= 0.0 {
        r, delta := Raised(BadRequest), [];
        CalmIsOneCall(delta, Pays(admission));
        assert old(history) + [] == history;
        return;
      }
      var contracted;
      contracted, delta := Contract(timeout);
      CalmIsOneCall(delta, Pays(admission));
      if contracted.Raised? {
        return Raised(contracted.error), delta;
      }
      ghost var mid, more := Here(), [];
      r, more := RunAndClose(contracted.value, admission);
      CallsConcat(delta, more, Pays(admission));
      FairByContract(more, Surroundings(), timeout, contracted.value, old(now), mid.step);
      FairConcat(delta, more, Surroundings(), timeout, old(now));
      if r.Returned? {
        ObservedLater(delta, more, r.value);
      }
      Joined(old(history), delta, more, Surroundings(), old(Here()), mid, Here());
      delta := delta + more;
    }

    /** The timeout of a model call: its envelope, or what is left of the run. */
    method ModelTimeout(call: ModelCall) returns (timeout: real, ghost delta: Trace)
      requires Valid()
      modifies this
      ensures Valid() && Advances(delta) && Plain(delta) && CallsGranted(delta) == 0
      ensures Allows(Surroundings(), Envelope(call), old(now), now, timeout)
      ensures timeout <= 0.0 <==> Envelope(call) <= 0.0
      ensures |delta| == 1 && timeout <= Envelope(call)
      ensures var left := RemainingAt(Surroundings(), First(delta[0]), now); left.Some? && left.value > 0.0 ==> timeout <= left.value
    {
      timeout := Envelope(call);
      var remaining;
      remaining, delta := RemainingSeconds();
      if remaining.Some? && remaining.value > 0.0 {
        timeout := Min(timeout, remaining.value);
      }
    }

    /** One model call; unless told otherwise it reserves itself. */
    method InvokeResearchModel(call: ModelCall) returns (r: Outcome<int>, ghost delta: Trace)
      requires Valid()
      modifies this
      ensures Valid() && Advances(delta) && CallDone(call, r, delta) && Fair(delta, Surroundings(), Envelope(call), old(now))
      ensures r.Raised? ==> Settled(Some(r.error), world)
      ensures old(Over()) ==> r.Raised? && Quiet(delta) && CallsGranted(delta) == 0
    {
      var timeout;
      timeout, delta := ModelTimeout(call);
      CalmIsOneCall(delta, call.reserve);
      if !call.canRun {
        return Raised(ProviderFailure), delta;
      }
      CallCostsCoverOneCall(call.chars);
      ghost var mid, more := Here(), [];
      r, more := RunProvider(timeout, if call.reserve then Some(CallCosts(call.chars)) else None);
      CallsConcat(delta, more, call.reserve);
      FairByContract(more, Surroundings(), Envelope(call), timeout, old(now), mid.step);
      FairConcat(delta, more, Surroundings(), Envelope(call), old(now));
      if r.Returned? {
        ObservedLater(delta, more, r.value);
      }
      Joined(old(history), delta, more, Surroundings(), old(Here()), mid, Here());
      delta := delta + more;
    }

    /** Any sequence of reserving calls, whatever becomes of each. The history grows by what each of them
        does, in turn. Operations opened never outnumber the calls granted, at any moment, nor the store's
        budget; once the run is over nothing is opened, whatever the wall clock does. */
    method RunCalls(calls: seq<ModelCall>) returns (results: seq<Outcome<int>>, ghost parts: seq<Trace>)
      requires Valid() && usedCalls >= 0
      requires forall i | 0 <= i < |calls| :: calls[i].reserve
      modifies this
      ensures Valid() && Advances(Flatten(parts)) && PaidHistory(Flatten(parts))
      ensures |results| == |calls| && AllDone(calls, results, parts)
      ensures Starts(Flatten(parts)) <= CallsGranted(Flatten(parts)) <= usedCalls - old(usedCalls) <= callLimit
      ensures old(Over()) ==> Over() && Starts(Flatten(parts)) == 0 && CallsGranted(Flatten(parts)) == 0
    {
      results, parts := [], [];
      ghost var all: Trace := [];
      assert old(history) + [] == history;
      for k := 0 to |calls|
        invariant Valid() && all == Flatten(parts) && PaidHistory(all) && Advances(all)
        invariant |results| == k && AllDone(calls[..k], results, parts)
        invariant old(Over()) ==> Starts(all) == 0 && CallsGranted(all) == 0
      {
        var r;
        ghost var delta, mid := [], Here();
        r, delta := InvokeResearchModel(calls[k]);
        HistoryGrows(all, delta);
        if old(Over()) {
          QuietHasNoStarts(delta);
        }
        HappenedInTurn(old(history), all, delta, Surroundings(), old(Here()), mid, Here());
        FlattenOneMore(parts, delta);
        OneMoreDone(calls, k, results, r, parts, delta);
        results, parts, all := results + [r], parts + [delta], all + delta;
      }
      assert calls[..|calls|] == calls && all[..|all|] == all;
    }
  }

  /** A request for a model call: the model's own timeout, the configured envelope, whether the call
      can enter the isolation it needs, and what it reserves. */
  datatype ModelCall = ModelCall(configured: Option<real>, envelope: real, canRun: bool, reserve: bool, chars: nat)

  /** The time of a call: the smaller of the model's own and the configured one. */
  function Envelope(call: ModelCall): (r: real)
    ensures r <= call.envelope && (call.configured.Some? ==> r <= call.configured.value)
    ensures r == call.envelope || call.configured == Some(r)
  {
    if call.configured.Some? then Min(call.configured.value, call.envelope) else call.envelope
  }

  /** The error of a call that is turned away before anything else is done. */
  predicate TurnedAway(call: ModelCall, error: Error) {
    (error == ProviderFailure && !call.canRun) || (error == BadRequest && call.canRun && Envelope(call) <= 0.0)
  }

  /** What a model call that ended like this has added to the history. */
  predicate CallDone(call: ModelCall, r: Outcome<int>, t: Trace) {
    && OneCall(t, call.reserve) && CallsGranted(t) <= (if call.reserve then 1 else 0)
    && (r.Returned? ==> ObservedAfter(t, r.value))
    && (r.Raised? ==> Caused(r.error, t) || TurnedAway(call, r.error))
    && (!call.canRun ==> r == Raised(ProviderFailure))
    && (call.canRun && Envelope(call) <= 0.0 ==> r == Raised(BadRequest))
  }

  /** What a poll that passes finds: the local checks, and a checkpoint if one is due. */
  predicate PollPassed(t: Trace) {
    |t| >= 2 && IsClear(t[..2]) && (t[2..] == [] || IsCheckpoint(t[2..], map[]))
  }

  predicate AllDone(calls: seq<ModelCall>, results: seq<Outcome<int>>, parts: seq<Trace>) {
    |calls| == |results| == |parts| && forall k | 0 <= k < |calls| :: CallDone(calls[k], results[k], parts[k])
  }

  lemma OneMoreDone(calls: seq<ModelCall>, k: nat, results: seq<Outcome<int>>, r: Outcome<int>, parts: seq<Trace>, delta: Trace)
    requires k < |calls| && AllDone(calls[..k], results, parts) && CallDone(calls[k], r, delta)
    ensures AllDone(calls[..k + 1], results + [r], parts + [delta])
  {
    assert calls[..k + 1] == calls[..k] + [calls[k]];
  }
}
