/** The protocol that gives one runtime one derived-knowledge index: lazy construction with a
    double-checked lock, explicit binding, and lazy construction of the retriever, by any number of
    threads that interleave at every single read, write, acquire and release. */
module IndexAuthority {
  import opened Wrappers

  /** Where a thread stands. Objects are identified by numbers. */
  datatype Pc =
    | Idle
    | ReadTest | ReadWait | ReadLocked | ReadBuild | ReadUnlock(built: bool) | ReadReturn
    | BindTest(id: nat) | BindWaitIndex(id: nat) | BindWaitRetriever(id: nat) | BindCheckIndex(id: nat)
    | BindCheckRetriever(id: nat) | BindWrite(id: nat) | BindUnlockRetriever | BindUnlockIndex
    | MakeTest | MakeWait | MakeLocked | MakeBuild | MakeUnlock(done: bool) | MakeReturn

  type Tid = nat

  /** The shared fields, the locks, the threads, and the results handed out so far. */
  datatype State = State(
    index: Option<nat>, retriever: Option<nat>, closed: bool,
    indexLock: Option<Tid>, retrieverLock: Option<Tid>, pcs: map<Tid, Pc>,
    given: set<Option<nat>>, binds: set<nat>, retrievers: set<Option<nat>>)

  datatype Action =
    | StartRead | StartBind(id: nat) | StartRetriever
    | Continue(made: nat, fails: bool)   // `made` names an object under construction
    | Close

  function At(s: State, t: Tid): Pc {
    if t in s.pcs then s.pcs[t] else Idle
  }

  function Go(s: State, t: Tid, pc: Pc): State {
    s.(pcs := s.pcs[t := pc])
  }

  function Init(): State {
    State(None, None, false, None, None, map[], {}, {}, {})
  }

  function ReadStep(s: State, t: Tid, made: nat, fails: bool): Option<State> {
    match At(s, t)
    case ReadTest =>
      Some(Go(s, t, if s.closed then Idle else if s.index.None? then ReadWait else ReadReturn))
    case ReadWait => if s.indexLock.Some? then None else Some(Go(s.(indexLock := Some(t)), t, ReadLocked))
    case ReadLocked => Some(Go(s, t, if s.index.None? then ReadBuild else ReadUnlock(true)))
    case ReadBuild =>
      Some(if fails then Go(s, t, ReadUnlock(false)) else Go(s.(index := Some(made)), t, ReadUnlock(true)))
    case ReadUnlock(built) => Some(Go(s.(indexLock := None), t, if built then ReadReturn else Idle))
    case ReadReturn => Some(Go(s.(given := s.given + {s.index}), t, Idle))
    case _ => None
  }

  function BindStep(s: State, t: Tid): Option<State> {
    match At(s, t)
    case BindTest(id) => Some(Go(s, t, if s.closed then Idle else BindWaitIndex(id)))
    case BindWaitIndex(id) =>
      if s.indexLock.Some? then None else Some(Go(s.(indexLock := Some(t)), t, BindWaitRetriever(id)))
    case BindWaitRetriever(id) =>
      if s.retrieverLock.Some? then None else Some(Go(s.(retrieverLock := Some(t)), t, BindCheckIndex(id)))
    case BindCheckIndex(id) =>
      Some(Go(s, t, if s.index.Some? && s.index != Some(id) then BindUnlockRetriever else BindCheckRetriever(id)))
    case BindCheckRetriever(id) => Some(Go(s, t, if s.retriever.Some? then BindUnlockRetriever else BindWrite(id)))
    case BindWrite(id) => Some(Go(s.(index := Some(id), binds := s.binds + {id}), t, BindUnlockRetriever))
    case BindUnlockRetriever => Some(Go(s.(retrieverLock := None), t, BindUnlockIndex))
    case BindUnlockIndex => Some(Go(s.(indexLock := None), t, Idle))
    case _ => None
  }

  function MakeStep(s: State, t: Tid, made: nat, fails: bool): Option<State> {
    match At(s, t)
    case MakeTest =>
      Some(Go(s, t, if s.closed then Idle else if s.retriever.None? then MakeWait else MakeReturn))
    case MakeWait => if s.retrieverLock.Some? then None else Some(Go(s.(retrieverLock := Some(t)), t, MakeLocked))
    case MakeLocked => Some(Go(s, t, if s.retriever.None? then MakeBuild else MakeUnlock(true)))
    case MakeBuild =>
      Some(if fails then Go(s, t, MakeUnlock(false)) else Go(s.(retriever := Some(made)), t, MakeUnlock(true)))
    case MakeUnlock(done) => Some(Go(s.(retrieverLock := None), t, if done then MakeReturn else Idle))
    case MakeReturn => Some(Go(s.(retrievers := s.retrievers + {s.retriever}), t, Idle))
    case _ => None
  }

  /** One atomic step of a thread, if it can take it. */
  function Next(s: State, t: Tid, a: Action): Option<State> {
    match a
    case Close => Some(s.(closed := true))
    case StartRead => if At(s, t).Idle? then Some(Go(s, t, ReadTest)) else None
    case StartBind(id) => if At(s, t).Idle? then Some(Go(s, t, BindTest(id))) else None
    case StartRetriever => if At(s, t).Idle? then Some(Go(s, t, MakeTest)) else None
    case Continue(made, fails) =>
      if ReadStep(s, t, made, fails).Some? then ReadStep(s, t, made, fails)
      else if BindStep(s, t).Some? then BindStep(s, t)
      else MakeStep(s, t, made, fails)
  }

  // ----- The invariant

  predicate HoldsIndex(pc: Pc) {
    || pc.ReadLocked? || pc.ReadBuild? || pc.ReadUnlock? || pc.BindWaitRetriever? || pc.BindUnlockIndex?
    || (HoldsRetriever(pc) && !pc.MakeLocked? && !pc.MakeBuild? && !pc.MakeUnlock?)
  }

  predicate HoldsRetriever(pc: Pc) {
    || pc.BindCheckIndex? || pc.BindCheckRetriever? || pc.BindWrite? || pc.BindUnlockRetriever?
    || pc.MakeLocked? || pc.MakeBuild? || pc.MakeUnlock?
  }

  /** What a thread knows of the shared fields where it stands. */
  predicate Knows(pc: Pc, index: Option<nat>, retriever: Option<nat>) {
    && (pc.ReadBuild? ==> index.None?)
    && (pc.ReadReturn? || pc == ReadUnlock(true) ==> index.Some?)
    && (pc.BindCheckRetriever? || pc.BindWrite? ==> index.None? || index == Some(pc.id))
    && (pc.BindWrite? || pc.MakeBuild? ==> retriever.None?)
    && (pc.MakeReturn? || pc == MakeUnlock(true) ==> retriever.Some?)
  }

  predicate ThreadOk(s: State, t: Tid) {
    && (s.indexLock == Some(t) <==> HoldsIndex(At(s, t)))
    && (s.retrieverLock == Some(t) <==> HoldsRetriever(At(s, t)))
    && Knows(At(s, t), s.index, s.retriever)
  }

  /** Whatever was handed out is what the fields now hold. */
  predicate ResultsOk(s: State) {
    && (forall r | r in s.given :: r.Some? && r == s.index)
    && (forall b | b in s.binds :: Some(b) == s.index)
    && (forall r | r in s.retrievers :: r.Some? && r == s.retriever)
  }

  ghost predicate Inv(s: State) {
    ResultsOk(s) && forall t: Tid :: ThreadOk(s, t)
  }

  lemma InitOk()
    ensures Inv(Init()) && !Init().closed && Init().index.None? && Init().retriever.None?
  {
  }

  /** What a step of one thread leaves alone, as every other thread may rely on: fields once set stay,
      and a field does not change under a lock that another thread holds. */
  ghost predicate Respects(s: State, n: State, t: Tid) {
    && (s.index.Some? ==> n.index == s.index)
    && (s.retriever.Some? ==> n.retriever == s.retriever)
    && (s.index != n.index ==> s.indexLock == Some(t))
    && (s.retriever != n.retriever ==> s.retrieverLock == Some(t))
    && (s.indexLock.Some? && s.indexLock != Some(t) ==> n.indexLock == s.indexLock)
    && (s.retrieverLock.Some? && s.retrieverLock != Some(t) ==> n.retrieverLock == s.retrieverLock)
    && (s.indexLock != n.indexLock ==> n.indexLock == None || n.indexLock == Some(t))
    && (s.retrieverLock != n.retrieverLock ==> n.retrieverLock == None || n.retrieverLock == Some(t))
    && (s.closed ==> n.closed)
    && forall u: Tid | u != t :: At(n, u) == At(s, u)
  }

  /** What one thread's step achieves on its own. */
  ghost predicate GoodStep(s: State, n: State, t: Tid) {
    Respects(s, n, t) && ThreadOk(n, t) && ResultsOk(n)
  }

  lemma ReadStepRespects(s: State, t: Tid, made: nat, fails: bool)
    requires ResultsOk(s) && ThreadOk(s, t) && ReadStep(s, t, made, fails).Some?
    ensures Respects(s, ReadStep(s, t, made, fails).value, t)
  {
    match At(s, t)
    case ReadTest =>
    case ReadWait =>
    case ReadLocked =>
    case ReadBuild =>
    case ReadUnlock(_) =>
    case ReadReturn =>
    case _ =>
  }

  lemma ReadStepSettles(s: State, t: Tid, made: nat, fails: bool)
    requires ResultsOk(s) && ThreadOk(s, t) && ReadStep(s, t, made, fails).Some?
    ensures ThreadOk(ReadStep(s, t, made, fails).value, t) && ResultsOk(ReadStep(s, t, made, fails).value)
  {
    match At(s, t)
    case ReadTest =>
    case ReadWait =>
    case ReadLocked =>
    case ReadBuild =>
    case ReadUnlock(_) =>
    case ReadReturn =>
    case _ =>
  }

  lemma BindStepRespects(s: State, t: Tid)
    requires ResultsOk(s) && ThreadOk(s, t) && BindStep(s, t).Some?
    ensures Respects(s, BindStep(s, t).value, t)
  {
    match At(s, t)
    case BindTest(_) =>
    case BindWaitIndex(_) =>
    case BindWaitRetriever(_) =>
    case BindCheckIndex(_) =>
    case BindCheckRetriever(_) =>
    case BindWrite(_) =>
    case BindUnlockRetriever =>
    case BindUnlockIndex =>
    case _ =>
  }

  lemma BindStepSettles(s: State, t: Tid)
    requires ResultsOk(s) && ThreadOk(s, t) && BindStep(s, t).Some?
    ensures ThreadOk(BindStep(s, t).value, t) && ResultsOk(BindStep(s, t).value)
  {
    match At(s, t)
    case BindTest(_) =>
    case BindWaitIndex(_) =>
    case BindWaitRetriever(_) =>
    case BindCheckIndex(_) =>
    case BindCheckRetriever(_) =>
    case BindWrite(_) =>
    case BindUnlockRetriever =>
    case BindUnlockIndex =>
    case _ =>
  }

  lemma MakeStepRespects(s: State, t: Tid, made: nat, fails: bool)
    requires ResultsOk(s) && ThreadOk(s, t) && MakeStep(s, t, made, fails).Some?
    ensures Respects(s, MakeStep(s, t, made, fails).value, t)
  {
    match At(s, t)
    case MakeTest =>
    case MakeWait =>
    case MakeLocked =>
    case MakeBuild =>
    case MakeUnlock(_) =>
    case MakeReturn =>
    case _ =>
  }

  lemma MakeStepSettles(s: State, t: Tid, made: nat, fails: bool)
    requires ResultsOk(s) && ThreadOk(s, t) && MakeStep(s, t, made, fails).Some?
    ensures ThreadOk(MakeStep(s, t, made, fails).value, t) && ResultsOk(MakeStep(s, t, made, fails).value)
  {
    match At(s, t)
    case MakeTest =>
    case MakeWait =>
    case MakeLocked =>
    case MakeBuild =>
    case MakeUnlock(_) =>
    case MakeReturn =>
    case _ =>
  }

  lemma StepIsGood(s: State, t: Tid, a: Action)
    requires ResultsOk(s) && ThreadOk(s, t) && Next(s, t, a).Some?
    ensures GoodStep(s, Next(s, t, a).value, t)
  {
    if a.Continue? {
      if ReadStep(s, t, a.made, a.fails).Some? {
        ReadStepRespects(s, t, a.made, a.fails);
        ReadStepSettles(s, t, a.made, a.fails);
      } else if BindStep(s, t).Some? {
        BindStepRespects(s, t);
        BindStepSettles(s, t);
      } else {
        MakeStepRespects(s, t, a.made, a.fails);
        MakeStepSettles(s, t, a.made, a.fails);
      }
    }
  }

  lemma OtherKeeps(s: State, n: State, t: Tid, u: Tid)
    requires Respects(s, n, t) && u != t && ThreadOk(s, u)
    ensures ThreadOk(n, u)
  {
  }

  /** Every step of every thread keeps the invariant. */
  lemma StepKeepsInv(s: State, t: Tid, a: Action)
    requires Inv(s) && Next(s, t, a).Some?
    ensures Inv(Next(s, t, a).value)
  {
    var n := Next(s, t, a).value;
    assert ThreadOk(s, t);
    StepIsGood(s, t, a);
    forall u: Tid
      ensures ThreadOk(n, u)
    {
      if u != t {
        assert ThreadOk(s, u);
        OtherKeeps(s, n, t, u);
      }
    }
  }

  // ----- Whole runs

  datatype Move = Move(thread: Tid, action: Action)

  /** The state after a run, if every move of it can be taken. */
  function Run(s: State, moves: seq<Move>): Option<State>
    decreases |moves|
  {
    if moves == [] then Some(s)
    else
      var n := Next(s, moves[0].thread, moves[0].action);
      if n.None? then None else Run(n.value, moves[1..])
  }

  /** Along any run the invariant is kept, and a field once set never changes. */
  lemma {:induction false} RunKeepsInv(s: State, moves: seq<Move>)
    requires Inv(s) && Run(s, moves).Some?
    ensures Inv(Run(s, moves).value)
    ensures s.index.Some? ==> Run(s, moves).value.index == s.index
    ensures s.retriever.Some? ==> Run(s, moves).value.retriever == s.retriever
    decreases |moves|
  {
    if moves != [] {
      var m := moves[0];
      assert ThreadOk(s, m.thread);
      StepIsGood(s, m.thread, m.action);
      StepKeepsInv(s, m.thread, m.action);
      RunKeepsInv(Next(s, m.thread, m.action).value, moves[1..]);
    }
  }

  /** In every interleaving, all readers and all successful binds agree on one index, and all users
      of the retriever on one retriever. */
  lemma {:induction false} OneAuthority(moves: seq<Move>)
    requires Run(Init(), moves).Some?
    ensures var s := Run(Init(), moves).value;
            && (forall r, q | r in s.given && q in s.given :: r.Some? && r == q)
            && (forall r, b | r in s.given && b in s.binds :: r == Some(b))
            && (forall b, c | b in s.binds && c in s.binds :: b == c)
            && (forall r, q | r in s.retrievers && q in s.retrievers :: r.Some? && r == q)
  {
    InitOk();
    RunKeepsInv(Init(), moves);
  }

  lemma {:induction false} RunSplit(s: State, first: seq<Move>, later: seq<Move>)
    requires Run(s, first + later).Some?
    ensures Run(s, first).Some? && Run(s, first + later) == Run(Run(s, first).value, later)
    decreases |first|
  {
    if first == [] {
      assert first + later == later;
    } else {
      assert (first + later)[1..] == first[1..] + later;
      RunSplit(Next(s, first[0].thread, first[0].action).value, first[1..], later);
    }
  }

  /** A reader's index is the one that every later reader gets, however the run goes on. */
  lemma {:induction false} ReadersAgreeForEver(first: seq<Move>, later: seq<Move>)
    requires Run(Init(), first + later).Some?
    ensures Run(Init(), first).Some?
    ensures forall r, q | r in Run(Init(), first).value.given && q in Run(Init(), first + later).value.given :: r == q
  {
    RunSplit(Init(), first, later);
    InitOk();
    RunKeepsInv(Init(), first);
    RunKeepsInv(Run(Init(), first).value, later);
  }

  /** A bind succeeds only before the retriever exists, and only where no other index is. */
  lemma BindOnlyBefore(s: State, t: Tid, a: Action)
    requires Inv(s) && Next(s, t, a).Some? && Next(s, t, a).value.binds != s.binds
    ensures s.retriever.None? && At(s, t).BindWrite? && Next(s, t, a).value.index == Some(At(s, t).id)
    ensures s.index.None? || s.index == Some(At(s, t).id)
  {
    assert ThreadOk(s, t);
  }

  /** Once the retriever exists no bind ever succeeds again. */
  lemma {:induction false} NoBindAfterRetriever(s: State, moves: seq<Move>)
    requires Inv(s) && s.retriever.Some? && Run(s, moves).Some?
    ensures Run(s, moves).value.binds == s.binds
    decreases |moves|
  {
    if moves != [] {
      var m := moves[0];
      var n := Next(s, m.thread, m.action).value;
      assert ThreadOk(s, m.thread);
      if n.binds != s.binds {
        BindOnlyBefore(s, m.thread, m.action);
      }
      StepIsGood(s, m.thread, m.action);
      StepKeepsInv(s, m.thread, m.action);
      NoBindAfterRetriever(n, moves[1..]);
    }
  }

  /** What the next step of an operation may do: it is refused at its first step exactly when the runtime is
      closed; it ends without a result only after a construction that failed with nothing there; it ends
      with a result by handing out what the field holds; a bind takes effect, or gives way to another index
      or to a retriever. */
  predicate HasCause(s: State, n: State, t: Tid, made: nat, fails: bool) {
    match At(s, t)
    case ReadTest | BindTest(_) | MakeTest => At(n, t).Idle? <==> s.closed
    case ReadReturn => At(n, t).Idle? && s.index.Some? && n.given == s.given + {s.index}
    case MakeReturn => At(n, t).Idle? && s.retriever.Some? && n.retrievers == s.retrievers + {s.retriever}
    case ReadUnlock(built) => (if built then At(n, t).ReadReturn? else At(n, t).Idle?) && n.index == s.index
    case MakeUnlock(done) => (if done then At(n, t).MakeReturn? else At(n, t).Idle?) && n.retriever == s.retriever
    case BindCheckIndex(id) => At(n, t).BindUnlockRetriever? <==> s.index.Some? && s.index != Some(id)
    case BindCheckRetriever(id) => At(n, t).BindUnlockRetriever? <==> s.retriever.Some?
    case BindWrite(id) => n.index == Some(id) && n.binds == s.binds + {id}
    case ReadBuild => s.index.None? && At(n, t) == ReadUnlock(!fails) && n.index == if fails then None else Some(made)
    case MakeBuild => s.retriever.None? && At(n, t) == MakeUnlock(!fails) && n.retriever == if fails then None else Some(made)
    case _ =>
      && At(n, t) != ReadUnlock(false) && At(n, t) != MakeUnlock(false)
      && (At(n, t).Idle? ==> At(s, t).BindUnlockIndex?)
  }

  /** In every interleaving an operation that does not succeed has a cause for it. */
  lemma NothingFailsWithoutCause(s: State, t: Tid, made: nat, fails: bool)
    requires Inv(s) && Next(s, t, Continue(made, fails)).Some?
    ensures HasCause(s, Next(s, t, Continue(made, fails)).value, t, made, fails)
  {
    assert ThreadOk(s, t);
    match At(s, t)
    case ReadTest | ReadWait | ReadLocked | ReadBuild | ReadUnlock(_) | ReadReturn =>
      assert ReadStep(s, t, made, fails).Some?;
    case BindTest(_) | BindWaitIndex(_) | BindWaitRetriever(_) | BindCheckIndex(_) | BindCheckRetriever(_) | BindWrite(_)
      | BindUnlockRetriever | BindUnlockIndex =>
      assert BindStep(s, t).Some?;
    case _ =>
  }

  // ----- A thread that is let alone

  /** The thread takes its next steps, this many, with nobody in between. */
  function Alone(s: State, t: Tid, made: nat, fails: bool, steps: nat): Option<State>
    decreases steps
  {
    if steps == 0 then Some(s)
    else
      var n := Next(s, t, Continue(made, fails));
      if n.None? then None else Alone(n.value, t, made, fails, steps - 1)
  }

  /** An operation can be started by an idle thread, and only by one. */
  lemma StartsWhenIdle(s: State, t: Tid, id: nat)
    ensures forall a | a in {StartRead, StartBind(id), StartRetriever} :: Next(s, t, a).Some? <==> At(s, t).Idle?
    ensures At(s, t).Idle? ==>
              && At(Next(s, t, StartRead).value, t) == ReadTest
              && At(Next(s, t, StartBind(id)).value, t) == BindTest(id)
              && At(Next(s, t, StartRetriever).value, t) == MakeTest
  {
  }

  /** A read that is let alone is served: with the index that is there, or else with the one it makes. */
  lemma ReadIsServed(s: State, t: Tid, made: nat)
    requires At(s, t) == ReadTest && !s.closed && s.indexLock.None?
    ensures var r := Alone(s, t, made, false, if s.index.Some? then 2 else 6);
            && r.Some? && At(r.value, t).Idle? && r.value.indexLock.None?
            && r.value.index == (if s.index.Some? then s.index else Some(made))
            && r.value.given == s.given + {r.value.index}
  {
    if s.index.Some? {
      var s1 := Next(s, t, Continue(made, false)).value;
      assert At(s1, t) == ReadReturn && Alone(s1, t, made, false, 1).Some?;
    } else {
      var s1 := Next(s, t, Continue(made, false)).value;
      var s2 := Next(s1, t, Continue(made, false)).value;
      var s3 := Next(s2, t, Continue(made, false)).value;
      var s4 := Next(s3, t, Continue(made, false)).value;
      var s5 := Next(s4, t, Continue(made, false)).value;
      assert At(s5, t) == ReadReturn && Alone(s5, t, made, false, 1).Some?;
      assert Alone(s4, t, made, false, 2) == Alone(s5, t, made, false, 1);
      assert Alone(s3, t, made, false, 3) == Alone(s4, t, made, false, 2);
      assert Alone(s2, t, made, false, 4) == Alone(s3, t, made, false, 3);
      assert Alone(s1, t, made, false, 5) == Alone(s2, t, made, false, 4);
    }
  }

  // ----- No deadlock

  predicate Waiting(pc: Pc) {
    pc.ReadWait? || pc.BindWaitIndex? || pc.BindWaitRetriever? || pc.MakeWait?
  }

  predicate CanGo(s: State, t: Tid) {
    Next(s, t, Continue(0, false)).Some?
  }

  lemma BusyCanGo(s: State, t: Tid)
    requires !At(s, t).Idle? && !Waiting(At(s, t))
    ensures CanGo(s, t)
  {
  }

  lemma FreeLockCanGo(s: State, t: Tid)
    requires Waiting(At(s, t))
    requires if At(s, t).BindWaitRetriever? || At(s, t).MakeWait? then s.retrieverLock.None? else s.indexLock.None?
    ensures CanGo(s, t)
  {
  }

  /** While any operation is under way, some thread inside one can take its next step: the index lock
      is always taken before the retriever lock. */
  lemma NoDeadlock(s: State, t: Tid) returns (u: Tid)
    requires Inv(s) && !At(s, t).Idle?
    ensures !At(s, u).Idle? && CanGo(s, u)
  {
    assert ThreadOk(s, t);
    u := t;
    if (At(s, t).ReadWait? || At(s, t).BindWaitIndex?) && s.indexLock.Some? {
      u := s.indexLock.value;
      assert ThreadOk(s, u);
    }
    if (At(s, u).MakeWait? || At(s, u).BindWaitRetriever?) && s.retrieverLock.Some? {
      u := s.retrieverLock.value;
      assert ThreadOk(s, u);
    }
    if Waiting(At(s, u)) {
      FreeLockCanGo(s, u);
    } else {
      BusyCanGo(s, u);
    }
  }

  /** How many steps an operation has left at most. */
  function Left(pc: Pc): nat {
    match pc
    case Idle => 0
    case ReadReturn | MakeReturn | BindUnlockIndex => 1
    case ReadUnlock(_) | MakeUnlock(_) | BindUnlockRetriever => 2
    case ReadBuild | MakeBuild | BindWrite(_) => 3
    case ReadLocked | MakeLocked | BindCheckRetriever(_) => 4
    case ReadWait | MakeWait | BindCheckIndex(_) => 5
    case ReadTest | MakeTest | BindWaitRetriever(_) => 6
    case BindWaitIndex(_) => 7
    case BindTest(_) => 8
  }

  /** Each step of an operation brings it nearer to its end and delays no other, so with no deadlock
      every operation that was started ends. */
  lemma OperationsEnd(s: State, t: Tid, made: nat, fails: bool)
    requires Next(s, t, Continue(made, fails)).Some?
    ensures var n := Next(s, t, Continue(made, fails)).value;
            Left(At(n, t)) < Left(At(s, t)) && forall u: Tid | u != t :: At(n, u) == At(s, u)
  {
    match At(s, t)
    case ReadTest | ReadWait | ReadLocked | ReadBuild | ReadUnlock(_) | ReadReturn =>
      assert ReadStep(s, t, made, fails).Some?;
    case BindTest(_) | BindWaitIndex(_) | BindWaitRetriever(_) | BindCheckIndex(_) | BindCheckRetriever(_) | BindWrite(_) =>
      assert BindStep(s, t).Some?;
    case _ =>
  }

  // ----- What one thread may rely on

  /** How other threads may move a lazily set field: once set it stays, and it stays while its lock
      is held. */
  predicate Rely(before: Option<nat>, now: Option<nat>, held: bool) {
    before.Some? || held ==> now == before
  }

  /** Every step of another thread is within what a thread relies on. */
  lemma OthersKeepRely(s: State, t: Tid, a: Action, u: Tid)
    requires Inv(s) && Next(s, t, a).Some? && u != t
    ensures Rely(s.index, Next(s, t, a).value.index, HoldsIndex(At(s, u)))
    ensures Rely(s.retriever, Next(s, t, a).value.retriever, HoldsRetriever(At(s, u)))
    ensures s.closed ==> Next(s, t, a).value.closed
  {
    assert ThreadOk(s, t) && ThreadOk(s, u);
    StepIsGood(s, t, a);
  }
}
