/** What happens during a research run, and what must hold of every such history. */
module ControlTrace {
  import opened Wrappers

  const LLM_CALLS := "llm_calls"

  datatype Signal = Paused | Cancelled | DeadlineExceeded(durable: bool) | BudgetExceeded

  datatype Error = Control(signal: Signal) | BadRequest | ProviderTimeout | ProviderFailure | StoreFailure

  datatype Outcome<+T> = Returned(value: T) | Raised(error: Error)

  /** The deadline string: empty, unreadable, or a time on the wall clock. */
  datatype Deadline = NoDeadline | Unreadable | At(time: real)

  // ----- The surroundings of a run

  /** Everything outside the controller, as an arbitrary schedule. The controller's dealings with the
      outside are numbered, and the schedule says what each of them finds. */
  datatype World = World(
    mono: nat -> real,                // the monotonic clock
    wall: nat -> real,                // the wall clock
    stops: nat -> Option<string>,     // a stop request that has arrived since the step before
    answers: nat -> Option<Error>,    // the error with which the store refuses a reservation, if it does
    commits: nat -> Option<string>,   // what the deadline callback answers, if it does
    results: nat -> Outcome<int>,     // how a provider operation ends
    others: nat -> nat)               // model calls granted to other runs since the step before

  /** The monotonic clock does not run back; the wall clock may. */
  ghost predicate WorldOk(world: World) {
    forall i: nat, j: nat | i <= j :: world.mono(i) <= world.mono(j)
  }

  /** Deadline signals that the store itself raises are durable. */
  ghost predicate DurableStore(world: World) {
    forall n: nat :: world.answers(n) != Some(Control(DeadlineExceeded(false)))
  }

  /** The reason of the latest stop request, if there was one. */
  function StopBy(world: World, n: nat): Option<string> {
    if n == 0 then None else if world.stops(n).Some? then world.stops(n) else StopBy(world, n - 1)
  }

  /** A run that is found clear has had no request at all until then. */
  lemma {:induction false} NoStopUntil(world: World, n: nat)
    ensures StopBy(world, n).None? <==> forall i | 0 < i <= n :: world.stops(i).None?
  {
    if n != 0 {
      NoStopUntil(world, n - 1);
    }
  }

  /** The reason is that of the latest request. */
  lemma {:induction false} LatestStop(world: World, n: nat)
    ensures StopBy(world, n).Some? ==>
              exists i | 0 < i <= n :: StopBy(world, n) == world.stops(i) && forall j | i < j <= n :: world.stops(j).None?
  {
    if n != 0 && world.stops(n).None? {
      LatestStop(world, n - 1);
    }
  }

  /** A stop pauses the run, or ends it for its deadline, exactly for the reasons so named; any other
      reason cancels it. A deadline known only from a stop request is not durable. */
  function SignalFor(reason: string): (r: Signal)
    ensures r.Paused? <==> reason == "paused"
    ensures r.DeadlineExceeded? <==> reason == "deadline"
    ensures r != DeadlineExceeded(true)
  {
    if reason == "paused" then Paused else if reason == "deadline" then DeadlineExceeded(false) else Cancelled
  }

  /** The error that an answer of the deadline callback stands for. */
  function AnswerTo(commit: Option<string>): Error {
    if commit.None? then StoreFailure
    else Control(if commit.value == "deadline" then DeadlineExceeded(true) else if commit.value == "paused" then Paused else Cancelled)
  }

  /** A run in its surroundings: the durable deadline, the monotonic ceiling derived from it, and
      whether the run has no durable row. */
  datatype Setting = Setting(world: World, deadline: Deadline, ceiling: Option<real>, transient: bool)

  /** With the wall clock read at one step and the monotonic clock at another there is time left. */
  predicate TimeLeft(s: Setting, wallAt: nat, monoAt: nat) {
    && (s.ceiling.Some? ==> s.world.mono(monoAt) < s.ceiling.value)
    && match s.deadline
       case NoDeadline => true
       case Unreadable => false
       case At(time) => s.world.wall(wallAt) < time
  }

  function Max(a: real, b: real): real { if a < b then b else a }

  function Min(a: real, b: real): real { if a < b then a else b }

  /** The time left by these readings, the smaller of what both clocks allow. */
  function RemainingAt(s: Setting, wallAt: nat, monoAt: nat): Option<real> {
    match s.deadline
    case NoDeadline => None
    case Unreadable => Some(0.0)
    case At(time) =>
      var left := Max(time - s.world.wall(wallAt), 0.0);
      Some(if s.ceiling.None? then left else Min(left, Max(s.ceiling.value - s.world.mono(monoAt), 0.0)))
  }

  // ----- Histories

  /** What can happen, with the step at which it did; two clocks are read one after the other. */
  datatype Event =
    | Clear(at: nat)                                      // the stop event was found unset
    | InTime(since: nat, at: nat)                         // the deadline was found not to have passed
    | Fresh(begun: nat, seconds: real, at: nat)           // neither had the time of the call
    | Granted(costs: map<string, int>, at: nat)           // the store granted a reservation
    | Committed(since: nat, at: nat)                      // the store took up the deadline
    | Started(at: nat)                                    // a provider operation was opened
    | Completed(value: int, at: nat)                      // it returned a value
    | Failed(error: Error, at: nat)                       // it raised an error
    | StopFound(signal: Signal, at: nat)                  // the stop event was found set
    | TimeUp(since: nat, at: nat)                         // the deadline was found to have passed
    | CallExpired(begun: nat, seconds: real, at: nat)     // the time of the call was over
    | StoreRefused(error: Error, at: nat)                 // the store refused a reservation
    | OverBudget(costs: map<string, int>, at: nat)        // it refused one beyond its budget
    | Overruled(error: Error, at: nat)                    // it answered the deadline with another state

  type Trace = seq<Event>

  /** The event says how things are in the surroundings of the run. */
  predicate True(e: Event, s: Setting) {
    match e
    case Clear(at) => StopBy(s.world, at).None?
    case InTime(since, at) => TimeLeft(s, since, at)
    case Fresh(begun, seconds, at) => s.world.mono(at) < s.world.mono(begun) + seconds
    case Granted(_, at) => s.world.answers(at).None?
    case Committed(since, _) => TakenUp(s, since)
    case Started(_) => true
    case Completed(value, at) => s.world.results(at) == Returned(value)
    case Failed(error, at) => s.world.results(at) == Raised(error)
    case StopFound(signal, at) => StopBy(s.world, at).Some? && signal == SignalFor(StopBy(s.world, at).value)
    case TimeUp(since, at) => !TimeLeft(s, since, at)
    case CallExpired(begun, seconds, at) => s.world.mono(begun) + seconds <= s.world.mono(at)
    case StoreRefused(error, at) => s.world.answers(at) == Some(error)
    case OverBudget(_, at) => s.world.answers(at).None?
    case Overruled(error, at) => AnswerTo(s.world.commits(at)) == error
  }

  /** The store takes the deadline up: its callback says so, or, for a run without a durable row, it lets
      an empty reservation pass. */
  predicate TakenUp(s: Setting, n: nat) {
    if s.transient then s.world.answers(n).None? else AnswerTo(s.world.commits(n)) == Control(DeadlineExceeded(true))
  }

  predicate Truthful(t: Trace, s: Setting) {
    t == [] || (True(t[|t| - 1], s) && Truthful(t[..|t| - 1], s))
  }

  lemma {:induction false} TruthfulAt(t: Trace, s: Setting, i: nat)
    requires Truthful(t, s) && i < |t|
    ensures True(t[i], s)
  {
    if i < |t| - 1 {
      TruthfulAt(t[..|t| - 1], s, i);
    }
  }

  /** The first step that the event speaks of. */
  function First(e: Event): nat {
    if e.InTime? || e.TimeUp? || e.Committed? then e.since else e.at
  }

  /** The events happened one after the other, all of them after one step and none after another. */
  predicate Spans(t: Trace, after: nat, until: nat) {
    if t == [] then after <= until
    else
      var last := t[|t| - 1];
      && after < First(last) <= last.at <= until
      && Spans(t[..|t| - 1], after, if First(last) < last.at then First(last) else last.at - 1)
  }

  lemma {:induction false} SpansAt(t: Trace, after: nat, until: nat, i: nat, j: nat)
    requires Spans(t, after, until) && i < j < |t|
    ensures after < First(t[i]) <= t[i].at <= First(t[j]) <= t[j].at <= until && t[i].at < t[j].at
  {
    var front, last := t[..|t| - 1], t[|t| - 1];
    var before := if First(last) < last.at then First(last) else last.at - 1;
    if j < |t| - 1 {
      SpansAt(front, after, before, i, j);
    } else if i < j - 1 {
      SpansAt(front, after, before, i, j - 1);
    }
  }

  lemma {:induction false} SpansWider(t: Trace, after: nat, until: nat, wider: nat)
    requires Spans(t, after, until) && until <= wider
    ensures Spans(t, after, wider) && after <= until
  {
    if |t| > 1 {
      var last := t[|t| - 1];
      SpansWider(t[..|t| - 1], after, if First(last) < last.at then First(last) else last.at - 1, until);
    }
  }

  /** The error is what this event leads to. */
  predicate Explains(e: Event, error: Error) {
    match e
    case Committed(_, _) => error == Control(DeadlineExceeded(true))
    case Failed(cause, _) => error == cause
    case StopFound(signal, _) => error == Control(signal)
    case TimeUp(_, _) => error == Control(DeadlineExceeded(false))
    case CallExpired(_, _, _) => error == ProviderTimeout
    case StoreRefused(cause, _) => error == cause
    case OverBudget(_, _) => error == Control(BudgetExceeded)
    case Overruled(cause, _) => error == cause
    case _ => false
  }

  predicate Caused(error: Error, t: Trace) {
    exists i | 0 <= i < |t| :: Explains(t[i], error)
  }

  lemma CausedConcat(error: Error, a: Trace, b: Trace)
    requires Caused(error, a) || Caused(error, b)
    ensures Caused(error, a + b)
  {
    if Caused(error, a) {
      var i :| 0 <= i < |a| && Explains(a[i], error);
      assert (a + b)[i] == a[i];
    } else {
      var i :| 0 <= i < |b| && Explains(b[i], error);
      assert (a + b)[|a| + i] == b[i];
    }
  }

  /** Two stretches of history, one after the other. */
  lemma {:induction false} StretchConcat(a: Trace, b: Trace, s: Setting, after: nat, mid: nat, until: nat)
    requires Spans(a, after, mid) && Spans(b, mid, until) && Truthful(a, s) && Truthful(b, s)
    ensures Spans(a + b, after, until) && Truthful(a + b, s)
  {
    SpansWider(a, after, mid, mid);
    if b == [] {
      assert a + b == a;
      SpansWider(a, after, mid, until);
    } else {
      var last, front := b[|b| - 1], b[..|b| - 1];
      assert (a + b)[..|a + b| - 1] == a + front;
      StretchConcat(a, front, s, after, mid, if First(last) < last.at then First(last) else last.at - 1);
    }
  }

  function CallsIn(costs: map<string, int>): int {
    if LLM_CALLS in costs then costs[LLM_CALLS] else 0
  }

  function Starts(t: Trace): nat {
    if t == [] then 0 else Starts(t[..|t| - 1]) + if t[|t| - 1].Started? then 1 else 0
  }

  function CallsGranted(t: Trace): int {
    if t == [] then 0
    else CallsGranted(t[..|t| - 1]) + if t[|t| - 1].Granted? then CallsIn(t[|t| - 1].costs) else 0
  }

  lemma {:induction false} CountConcat(a: Trace, b: Trace)
    ensures Starts(a + b) == Starts(a) + Starts(b)
    ensures CallsGranted(a + b) == CallsGranted(a) + CallsGranted(b)
  {
    if b == [] {
      assert a + b == a;
    } else {
      var front := b[..|b| - 1];
      CountConcat(a, front);
      assert (a + b)[..|a + b| - 1] == a + front;
    }
  }

  /** At every moment the operations opened so far are covered by the calls granted so far. */
  predicate Backed(t: Trace) {
    forall i | 0 <= i <= |t| :: Starts(t[..i]) <= CallsGranted(t[..i])
  }

  /** No cost is negative, so that no reservation takes calls away. */
  predicate Honest(t: Trace) {
    forall i | 0 <= i < |t| && t[i].Granted? :: CallsIn(t[i].costs) >= 0
  }

  lemma {:induction false} HonestGrants(t: Trace)
    requires Honest(t)
    ensures CallsGranted(t) >= 0
  {
    if t != [] {
      HonestGrants(t[..|t| - 1]);
    }
  }

  lemma BackedPrefix(t: Trace, d: Trace, i: nat)
    requires Backed(t)
    requires |t| <= i <= |t + d| && Starts(d[..i - |t|]) <= CallsGranted(d[..i - |t|])
    ensures Starts((t + d)[..i]) <= CallsGranted((t + d)[..i])
  {
    assert (t + d)[..i] == t + d[..i - |t|];
    CountConcat(t, d[..i - |t|]);
    assert t[..|t|] == t;
  }

  /** Histories that are each covered are covered one after the other. */
  lemma BackedConcat(t: Trace, d: Trace)
    requires Backed(t) && Backed(d) && Honest(d)
    ensures Backed(t + d)
  {
    assert d[..|d|] == d && t[..|t|] == t;
    forall i | 0 <= i <= |t + d|
      ensures Starts((t + d)[..i]) <= CallsGranted((t + d)[..i])
    {
      if i <= |t| {
        assert (t + d)[..i] == t[..i];
      } else {
        BackedPrefix(t, d, i);
      }
    }
  }

  /** A history in which nothing is opened. */
  predicate Quiet(t: Trace) {
    forall i | 0 <= i < |t| :: !t[i].Started?
  }

  lemma {:induction false} QuietHasNoStarts(t: Trace)
    requires Quiet(t)
    ensures Starts(t) == 0
  {
    if t != [] {
      QuietHasNoStarts(t[..|t| - 1]);
    }
  }

  lemma QuietIsBacked(t: Trace)
    requires Quiet(t) && Honest(t)
    ensures Backed(t)
  {
    forall i | 0 <= i <= |t|
      ensures Starts(t[..i]) <= CallsGranted(t[..i])
    {
      QuietHasNoStarts(t[..i]);
      HonestGrants(t[..i]);
    }
  }

  /** An operation opened after a grant, with nothing else opened, is covered. */
  lemma OneStartIsBacked(before: Trace, opening: Event, after: Trace)
    requires Quiet(before) && Honest(before) && Quiet(after) && Honest(after) && CallsGranted(before) >= 1
    requires opening.Started?
    ensures Backed(before + [opening] + after) && Honest(before + [opening] + after)
  {
    var t := before + [opening] + after;
    forall i | 0 <= i <= |t|
      ensures Starts(t[..i]) <= CallsGranted(t[..i])
    {
      if i <= |before| {
        assert t[..i] == before[..i];
        QuietIsBacked(before);
      } else {
        var tail := after[..i - |before| - 1];
        assert t[..i] == before + [opening] + tail;
        CountConcat(before + [opening], tail);
        CountConcat(before, [opening]);
        assert [opening][..0] == [];
        QuietHasNoStarts(before);
        QuietHasNoStarts(tail);
        HonestGrants(tail);
      }
    }
  }

  /** A passed pair of local checks. */
  predicate IsClear(t: Trace) {
    |t| == 2 && t[0].Clear? && t[1].InTime?
  }

  /** Right before this position the stop event and the deadline were found clear and the time of the
      call was not over; a child process also had the deadline looked at once more. */
  predicate ChecksEndAt(t: Trace, i: int)
    requires i <= |t|
  {
    || (i >= 3 && t[i - 3].Clear? && t[i - 2].InTime? && t[i - 1].Fresh?)
    || (i >= 4 && t[i - 4].Clear? && t[i - 3].InTime? && t[i - 2].Fresh? && t[i - 1].InTime?)
  }

  /** Every opening comes right after passed checks. */
  predicate Guarded(t: Trace) {
    forall i | 0 <= i < |t| && t[i].Started? :: ChecksEndAt(t, i)
  }

  lemma ChecksStay(a: Trace, b: Trace, i: nat)
    ensures i <= |a| && ChecksEndAt(a, i) ==> ChecksEndAt(a + b, i)
    ensures i <= |b| && ChecksEndAt(b, i) ==> ChecksEndAt(a + b, |a| + i)
  {
  }

  lemma GuardedConcat(a: Trace, b: Trace)
    requires Guarded(a) && Guarded(b)
    ensures Guarded(a + b)
  {
    var t := a + b;
    forall i | 0 <= i < |t| && t[i].Started?
      ensures ChecksEndAt(t, i)
    {
      if i < |a| {
        assert a[i].Started?;
        ChecksStay(a, b, i);
      } else {
        assert b[i - |a|].Started?;
        ChecksStay(a, b, i - |a|);
      }
    }
  }

  /** A passed checkpoint: clear and in time both before and after its reservation. */
  predicate IsCheckpoint(t: Trace, costs: map<string, int>) {
    && |t| == 5 && t[0].Clear? && t[1].InTime?
    && t[2].Granted? && t[2].costs == costs
    && t[3].Clear? && t[4].InTime?
  }

  lemma CheckpointGrants(t: Trace, costs: map<string, int>)
    requires IsCheckpoint(t, costs)
    ensures CallsGranted(t) == CallsIn(costs) && Quiet(t)
  {
    assert t[..1][..0] == [] && CallsGranted(t[..1]) == 0;
    assert t[..2][..1] == t[..1] && CallsGranted(t[..2]) == 0;
    assert t[..3][..2] == t[..2] && CallsGranted(t[..3]) == CallsIn(costs);
    assert t[..4][..3] == t[..3] && CallsGranted(t[..4]) == CallsIn(costs);
  }

  lemma CheckpointParts(checks: Trace, rest: Trace, costs: map<string, int>)
    requires IsClear(checks) && |rest| == 3 && rest[0].Granted? && rest[0].costs == costs && IsClear(rest[1..])
    ensures IsCheckpoint(checks + rest, costs)
  {
    assert rest[1] == rest[1..][0] && rest[2] == rest[1..][1];
  }

  predicate CalmEvent(e: Event) {
    !e.Started? && !e.Completed? && !e.Failed? && (e.Granted? ==> CallsIn(e.costs) >= 0)
  }

  /** Checks and reservations only. */
  predicate Calm(t: Trace) {
    forall i | 0 <= i < |t| :: CalmEvent(t[i])
  }

  /** And nothing said of the time of a call. */
  predicate Plain(t: Trace) {
    forall i | 0 <= i < |t| :: CalmEvent(t[i]) && !t[i].Fresh? && !t[i].CallExpired?
  }

  /** With this many calls used, what was refused for the budget exceeds it. */
  predicate Exceeding(t: Trace, used: int, limit: int) {
    || t == []
    || (Exceeding(t[..|t| - 1], used, limit) && (t[|t| - 1].OverBudget? ==> used + CallsIn(t[|t| - 1].costs) > limit))
  }

  lemma {:induction false} ExceedingConcat(a: Trace, b: Trace, used: int, more: int, limit: int)
    requires Exceeding(a, used, limit) && Exceeding(b, more, limit) && used <= more
    ensures Exceeding(a + b, more, limit)
  {
    if b != [] {
      assert (a + b)[..|a + b| - 1] == a + b[..|b| - 1];
      ExceedingConcat(a, b[..|b| - 1], used, more, limit);
    } else if a != [] {
      ExceedingConcat(a[..|a| - 1], b, used, more, limit);
      assert a + b == a && a[..|a| - 1] + b == a[..|a| - 1];
    }
  }

  /** The state that a history is held against: the last step, and the calls used with their limit. */
  datatype Moment = Moment(step: nat, used: int, limit: int)

  /** From one moment to another this has happened: it is so, at steps in between and in that order, the
      store has counted what it granted, and refused for its budget only what exceeds it. */
  predicate Happened(t: Trace, s: Setting, before: Moment, after: Moment) {
    && Spans(t, before.step, after.step) && Truthful(t, s)
    && before.used <= after.used && before.used + CallsGranted(t) <= after.used
    && before.limit == after.limit && Exceeding(t, after.used, after.limit)
  }

  /** Joining what two steps add. */
  lemma Joined(h: Trace, a: Trace, b: Trace, s: Setting, before: Moment, mid: Moment, after: Moment)
    requires Happened(a, s, before, mid) && Happened(b, s, mid, after)
    ensures h + a + b == h + (a + b)
    ensures Happened(a + b, s, before, after)
    ensures CallsGranted(a + b) == CallsGranted(a) + CallsGranted(b)
    ensures Plain(a) && Plain(b) ==> Plain(a + b)
    ensures forall e | Caused(e, a) || Caused(e, b) :: Caused(e, a + b)
  {
    StretchConcat(a, b, s, before.step, mid.step, after.step);
    ExceedingConcat(a, b, mid.used, after.used, after.limit);
    CountConcat(a, b);
    forall e | Caused(e, a) || Caused(e, b)
      ensures Caused(e, a + b)
    {
      CausedConcat(e, a, b);
    }
  }

  /** Nothing more happens for a while, or nothing has happened yet. */
  lemma Waited(t: Trace, s: Setting, before: Moment, mid: Moment, after: Moment)
    ensures Happened(t, s, before, mid) && Happened([], s, mid, after) ==> Happened(t, s, before, after)
    ensures Happened([], s, before, mid) && Happened(t, s, mid, after) ==> Happened(t, s, before, after)
  {
    assert t + [] == t && [] + t == t;
    if Happened(t, s, before, mid) && Happened([], s, mid, after) {
      Joined([], t, [], s, before, mid, after);
    }
    if Happened([], s, before, mid) && Happened(t, s, mid, after) {
      Joined([], [], t, s, before, mid, after);
    }
  }

  /** One finding, or one answer of the store. */
  lemma OneEvent(e: Event, s: Setting, before: Moment, after: Moment)
    requires True(e, s) && before.step < First(e) <= e.at <= after.step
    requires before.used + (if e.Granted? then CallsIn(e.costs) else 0) <= after.used && before.used <= after.used
    requires before.limit == after.limit && (e.OverBudget? ==> after.used + CallsIn(e.costs) > after.limit)
    ensures Happened([e], s, before, after)
    ensures CallsGranted([e]) == if e.Granted? then CallsIn(e.costs) else 0
    ensures forall error | Explains(e, error) :: Caused(error, [e])
  {
    assert [e][..0] == [];
    forall error | Explains(e, error)
      ensures Caused(error, [e])
    {
      assert [e][0] == e;
    }
  }

  /** The commitment that a granted empty reservation stands for. */
  lemma CommitAfterGrant(grant: Event, commit: Event, s: Setting, before: Moment, after: Moment)
    requires grant.Granted? && grant.costs == map[] && commit.Committed? && commit.since == grant.at < commit.at <= after.step
    requires True(grant, s) && True(commit, s) && before.step < grant.at && before.used <= after.used && before.limit == after.limit
    ensures Happened([grant] + [commit], s, before, after) && CallsGranted([grant] + [commit]) == 0
    ensures Caused(Control(DeadlineExceeded(true)), [grant] + [commit])
  {
    var t := [grant] + [commit];
    assert t[..1] == [grant] && t[..1][..0] == [] && CallsGranted(t[..1]) == 0;
    assert Explains(t[1], Control(DeadlineExceeded(true)));
  }

  /** Right after the checks of this history the time of the call is looked at. */
  predicate EndsClear(t: Trace) {
    |t| >= 2 && IsClear(t[|t| - 2..])
  }

  /** An operation was opened and ended. */
  predicate IsOperation(t: Trace) {
    |t| == 2 && t[0].Started? && (t[1].Completed? || t[1].Failed?)
  }

  /** After its last checks an operation was opened and ended. */
  predicate IsOpening(t: Trace) {
    || (|t| == 3 && t[0].Fresh? && IsOperation(t[1..]))
    || (|t| == 4 && t[0].Fresh? && t[1].InTime? && IsOperation(t[2..]))
  }

  lemma OperationCounts(t: Trace)
    requires IsOperation(t)
    ensures Starts(t) == 1 && CallsGranted(t) == 0
  {
    assert t[..1][..0] == [] && Starts(t[..1]) == 1 && CallsGranted(t[..1]) == 0;
  }

  /** The checks of an opening and the operation. */
  lemma OpeningParts(t: Trace) returns (k: nat)
    requires IsOpening(t)
    ensures 1 <= k <= 2 && |t| == k + 2 && IsOperation(t[k..]) && Calm(t[..k]) && CallsGranted(t[..k]) == 0
    ensures t == t[..k] + t[k..] && t[0].Fresh? && (k == 2 ==> t[1].InTime?)
  {
    k := |t| - 2;
    assert t[..k][..0] == [] && CallsGranted(t[..k][..0]) == 0;
    assert k == 2 ==> t[..k][..1][..0] == [] && CallsGranted(t[..k][..1]) == 0;
    assert k == 1 ==> t[..1][..0] == [];
  }

  /** What one call adds to the history: at most one operation, opened right after passed checks;
      `paid` says that the call reserves what it opens. */
  predicate OneCall(t: Trace, paid: bool) {
    Honest(t) && Guarded(t) && Starts(t) <= 1 && (paid ==> Backed(t))
  }

  lemma CalmIsOneCall(t: Trace, paid: bool)
    requires Calm(t)
    ensures OneCall(t, paid)
  {
    QuietHasNoStarts(t);
    QuietIsBacked(t);
  }

  lemma OpeningIsBacked(before: Trace, tail: Trace)
    requires Quiet(before) && Honest(before) && IsOpening(tail) && CallsGranted(before) >= 1
    ensures Backed(before + tail)
  {
    var k := OpeningParts(tail);
    var checked, operation := before + tail[..k], tail[k..];
    CountConcat(before, tail[..k]);
    OneStartIsBacked(checked, operation[0], operation[1..]);
    assert checked + [operation[0]] + operation[1..] == before + tail;
  }

  lemma OpeningIsGuarded(before: Trace, tail: Trace)
    requires Quiet(before) && EndsClear(before) && IsOpening(tail)
    ensures Guarded(before + tail)
  {
    var t := before + tail;
    var k := OpeningParts(tail);
    forall i | 0 <= i < |t| && t[i].Started?
      ensures ChecksEndAt(t, i)
    {
      assert i >= |before| && t[i] == tail[i - |before|];
      assert forall j | 0 <= j < k :: tail[j] == tail[..k][j];
      assert tail[k + 1] == tail[k..][1];
      assert i == |before| + k;
      assert t[i - k - 2] == before[|before| - 2..][0] && t[i - k - 1] == before[|before| - 2..][1];
    }
  }

  lemma OpeningCounts(t: Trace)
    requires IsOpening(t)
    ensures Starts(t) == 1 && CallsGranted(t) == 0 && Honest(t)
  {
    var k := OpeningParts(t);
    QuietHasNoStarts(t[..k]);
    OperationCounts(t[k..]);
    CountConcat(t[..k], t[k..]);
    assert t[k] == t[k..][0] && t[k + 1] == t[k..][1];
  }

  lemma OpeningIsOneCall(before: Trace, tail: Trace, paid: bool)
    requires Calm(before) && EndsClear(before) && IsOpening(tail)
    requires paid ==> CallsGranted(before) >= 1
    ensures OneCall(before + tail, paid)
  {
    OpeningIsGuarded(before, tail);
    QuietHasNoStarts(before);
    OpeningCounts(tail);
    CountConcat(before, tail);
    if paid {
      OpeningIsBacked(before, tail);
    }
  }

  /** Joining two parts that each behave like a call. */
  lemma CallsConcat(a: Trace, b: Trace, paid: bool)
    requires OneCall(a, paid) && OneCall(b, paid) && (Quiet(a) || Quiet(b))
    ensures OneCall(a + b, paid)
  {
    CountConcat(a, b);
    GuardedConcat(a, b);
    if Quiet(a) {
      QuietHasNoStarts(a);
    } else {
      QuietHasNoStarts(b);
    }
    if paid {
      BackedConcat(a, b);
    }
  }

  // ----- The time of a call

  /** A call that asks for `asked` seconds is allowed this many: what it asks for, or what was left of
      the run by readings taken in between. */
  ghost predicate Allows(s: Setting, asked: real, after: nat, until: nat, seconds: real) {
    || seconds == asked
    || exists wallAt: nat, monoAt: nat | after < wallAt <= monoAt <= until :: RemainingAt(s, wallAt, monoAt) == Some(seconds)
  }

  /** Whatever is said of the time of a call is measured from within the call, by what it is allowed. */
  ghost predicate Fair(t: Trace, s: Setting, asked: real, after: nat) {
    forall i | 0 <= i < |t| && (t[i].Fresh? || t[i].CallExpired?) ::
      after < t[i].begun <= t[i].at && Allows(s, asked, after, t[i].begun, t[i].seconds)
  }

  /** What is said of the time of a call is said of a call that began then, with so many seconds. */
  predicate Measured(t: Trace, begun: nat, seconds: real) {
    forall i | 0 <= i < |t| && (t[i].Fresh? || t[i].CallExpired?) :: t[i].begun == begun <= t[i].at && t[i].seconds == seconds
  }

  lemma MeasuredConcat(a: Trace, b: Trace, begun: nat, seconds: real)
    requires Plain(a) && Measured(b, begun, seconds)
    ensures Measured(a + b, begun, seconds)
  {
    var t := a + b;
    forall i | 0 <= i < |t| && (t[i].Fresh? || t[i].CallExpired?)
      ensures t[i].begun == begun <= t[i].at && t[i].seconds == seconds
    {
      assert i >= |a| ==> t[i] == b[i - |a|];
    }
  }

  /** What is fair by a contracted timeout is fair by the one that was asked for. */
  lemma FairByContract(t: Trace, s: Setting, asked: real, contracted: real, after: nat, mid: nat)
    requires after <= mid && Allows(s, asked, after, mid, contracted) && Fair(t, s, contracted, mid)
    ensures Fair(t, s, asked, after)
  {
    forall i | 0 <= i < |t| && (t[i].Fresh? || t[i].CallExpired?)
      ensures after < t[i].begun <= t[i].at && Allows(s, asked, after, t[i].begun, t[i].seconds)
    {
      assert Allows(s, contracted, mid, t[i].begun, t[i].seconds);
    }
  }

  lemma FairConcat(a: Trace, b: Trace, s: Setting, asked: real, after: nat)
    requires Fair(a, s, asked, after) && Fair(b, s, asked, after)
    ensures Fair(a + b, s, asked, after)
  {
    var t := a + b;
    forall i | 0 <= i < |t| && (t[i].Fresh? || t[i].CallExpired?)
      ensures after < t[i].begun <= t[i].at && Allows(s, asked, after, t[i].begun, t[i].seconds)
    {
      assert t[i] == if i < |a| then a[i] else b[i - |a|];
    }
  }

  // ----- The end of a call

  /** The history ends with an operation that returned this value. */
  predicate EndsWithValue(t: Trace, value: int) {
    |t| >= 2 && t[|t| - 2].Started? && t[|t| - 1].Completed? && t[|t| - 1].value == value
  }

  /** The history ends with the completion of the operation and a passed checkpoint. */
  predicate ObservedAfter(t: Trace, value: int) {
    |t| >= 7 && EndsWithValue(t[..|t| - 5], value) && IsCheckpoint(t[|t| - 5..], map[])
  }

  lemma ObservedNow(t: Trace, closing: Trace, value: int)
    requires EndsWithValue(t, value) && IsCheckpoint(closing, map[])
    ensures ObservedAfter(t + closing, value)
  {
    var all := t + closing;
    assert all[|all| - 5..] == closing && all[..|all| - 5] == t;
  }

  lemma ObservedLater(before: Trace, t: Trace, value: int)
    requires ObservedAfter(t, value)
    ensures ObservedAfter(before + t, value)
  {
    var all := before + t;
    assert all[|all| - 5..] == t[|t| - 5..];
    assert all[..|all| - 5] == before + t[..|t| - 5];
  }

  /** A call that has come to its operation, or not. */
  lemma CallEnds(before: Trace, tail: Trace, paid: bool)
    requires Calm(before) && EndsClear(before) && (Calm(tail) || IsOpening(tail))
    requires paid ==> CallsGranted(before) >= 1
    ensures OneCall(before + tail, paid)
  {
    if Calm(tail) {
      CalmIsOneCall(before + tail, paid);
    } else {
      OpeningIsOneCall(before, tail, paid);
    }
  }

  /** What a value that was let out shows of the surroundings: the operation returned it, the store then
      let a reservation pass, and after that there had been no stop request and time was left. */
  lemma ObservedMeans(t: Trace, value: int, s: Setting, after: nat, until: nat)
    returns (completed: nat, grant: nat, clear: nat, wallAt: nat, monoAt: nat)
    requires ObservedAfter(t, value) && Truthful(t, s) && Spans(t, after, until)
    ensures after < completed < grant < clear <= wallAt <= monoAt <= until
    ensures s.world.results(completed) == Returned(value)
    ensures s.world.answers(grant).None? && TimeLeft(s, wallAt, monoAt)
    ensures forall i | 0 < i <= clear :: s.world.stops(i).None?
  {
    var k := |t| - 5;
    assert forall i | k <= i < |t| :: t[i] == t[k..][i - k];
    assert t[k - 1] == t[..k][k - 1];
    TruthfulAt(t, s, k - 1);
    TruthfulAt(t, s, k + 2);
    TruthfulAt(t, s, k + 3);
    TruthfulAt(t, s, k + 4);
    SpansAt(t, after, until, k - 1, k + 2);
    SpansAt(t, after, until, k + 2, k + 3);
    SpansAt(t, after, until, k + 3, k + 4);
    completed, grant, clear, wallAt, monoAt := t[k - 1].at, t[k + 2].at, t[k + 3].at, t[k + 4].since, t[k + 4].at;
    NoStopUntil(s.world, clear);
  }

  /** What an opening shows of the surroundings: shortly before it there had been no stop request, time was
      left on both clocks, and the time of the call was not over. */
  lemma StartMeans(t: Trace, i: nat, s: Setting, after: nat, until: nat)
    returns (clear: nat, wallAt: nat, monoAt: nat, inside: Event)
    requires i < |t| && t[i].Started? && Guarded(t) && Truthful(t, s) && Spans(t, after, until)
    ensures after < clear <= wallAt <= monoAt < inside.at < t[i].at <= until
    ensures (forall j | 0 < j <= clear :: s.world.stops(j).None?) && TimeLeft(s, wallAt, monoAt)
    ensures inside.Fresh? && inside in t && s.world.mono(inside.at) < s.world.mono(inside.begun) + inside.seconds
  {
    assert ChecksEndAt(t, i);
    var k := if t[i - 1].Fresh? then i - 3 else i - 4;
    TruthfulAt(t, s, k);
    TruthfulAt(t, s, k + 1);
    TruthfulAt(t, s, k + 2);
    SpansAt(t, after, until, k, k + 1);
    SpansAt(t, after, until, k + 1, k + 2);
    SpansAt(t, after, until, k + 2, i);
    clear, wallAt, monoAt, inside := t[k].at, t[k + 1].since, t[k + 1].at, t[k + 2];
    NoStopUntil(s.world, clear);
  }

  /** Passed last checks and the operation after them. */
  lemma Opens(checks: Trace, operation: Trace, begun: nat, seconds: real)
    requires IsOperation(operation) && Measured(checks, begun, seconds)
    requires 1 <= |checks| <= 2 && checks[0].Fresh? && (|checks| == 2 ==> checks[1].InTime?)
    ensures IsOpening(checks + operation) && Measured(checks + operation, begun, seconds)
    ensures (checks + operation)[0] == checks[0] && (|checks| == 2 ==> (checks + operation)[1] == checks[1])
    ensures operation[1].Completed? ==> EndsWithValue(checks + operation, operation[1].value)
  {
    var t := checks + operation;
    assert t[|checks|..] == operation;
    assert forall i | |checks| <= i < |t| :: t[i] == operation[i - |checks|];
  }

  // ----- Many calls

  /** Any number of paid calls. */
  predicate PaidHistory(t: Trace) {
    Honest(t) && Guarded(t) && Backed(t)
  }

  lemma HistoryGrows(t: Trace, call: Trace)
    requires PaidHistory(t) && OneCall(call, true)
    ensures PaidHistory(t + call) && CallsGranted(t + call) == CallsGranted(t) + CallsGranted(call)
    ensures Starts(t + call) == Starts(t) + Starts(call)
  {
    CountConcat(t, call);
    GuardedConcat(t, call);
    BackedConcat(t, call);
  }

  /** The parts of a history, one after the other. */
  function Flatten(parts: seq<Trace>): Trace {
    if parts == [] then [] else Flatten(parts[..|parts| - 1]) + parts[|parts| - 1]
  }

  lemma FlattenOneMore(parts: seq<Trace>, delta: Trace)
    ensures Flatten(parts + [delta]) == Flatten(parts) + delta
  {
    assert (parts + [delta])[..|parts|] == parts;
  }

  lemma HappenedInTurn(h: Trace, a: Trace, b: Trace, s: Setting, before: Moment, mid: Moment, after: Moment)
    requires Happened(a, s, before, mid) && Happened(b, s, mid, after)
    ensures h + a + b == h + (a + b) && Happened(a + b, s, before, after)
  {
    Joined(h, a, b, s, before, mid, after);
  }
}
