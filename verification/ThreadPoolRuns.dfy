/** Concrete runs of the thread pool. They show that the conditions in the theorems are needed. */
module ThreadPoolRuns {
  import opened Wrappers
  import opened ThreadPool
  import opened ThreadPoolSafety
  import opened ThreadPoolConditions

  lemma {:induction false} Extend(s: State, es: seq<Event>, e: Event)
    requires IsRun(s, es) && Enabled(After(s, es), e)
    ensures IsRun(s, es + [e])
    ensures After(s, es + [e]) == Step(After(s, es), e)
    decreases |es|
  {
    if es == [] {
      assert [] + [e] == [e];
      assert [e][1..] == [];
    } else {
      Extend(Step(s, es[0]), es[1..], e);
      assert (es + [e])[0] == es[0] && (es + [e])[1..] == es[1..] + [e];
    }
  }

  lemma {:induction false} ExtendAll(s: State, es: seq<Event>, more: seq<Event>)
    requires IsRun(s, es) && IsRun(After(s, es), more)
    ensures IsRun(s, es + more)
    ensures After(s, es + more) == After(After(s, es), more)
    decreases |more|
  {
    if more == [] {
      assert es + more == es;
    } else {
      Extend(s, es, more[0]);
      ExtendAll(s, es + [more[0]], more[1..]);
      assert es + [more[0]] + more[1..] == es + more;
    }
  }

  /** The events of a thread that takes the mutex and runs to its next stop. */
  function Turn(t: Tid): seq<Event> {
    [Lock(t), Go(t, 2, true)]
  }

  function Call(t: Tid, call: Pc): seq<Event> {
    [Begin(t, call)] + Turn(t)
  }

  /** The state after thread t, holding the mutex, has run to its next stop. */
  function Left(s: State, t: Tid): State
    requires t in s.pc
  {
    Effect(s, t, true).(mutex := None, pc := Others(s, t, 2)[t := Next(s, t, true)])
  }

  function Holding(s: State, t: Tid, p: Pc): State {
    s.(mutex := Some(t), pc := s.pc[t := p])
  }

  lemma TurnRuns(s: State, t: Tid)
    requires !s.freed && s.mutex == None && t in s.pc && Acquired(s.pc[t]).Some?
    requires s.pc[t].LockAdd? ==> 2 !in s.pc
    ensures IsRun(s, Turn(t))
    ensures After(s, Turn(t)) == Left(Holding(s, t, Acquired(s.pc[t]).value), t)
  {
    Extend(s, [], Lock(t));
    assert [] + [Lock(t)] == [Lock(t)];
    Extend(s, [Lock(t)], Go(t, 2, true));
    assert [Lock(t)] + [Go(t, 2, true)] == Turn(t);
  }

  lemma CallRuns(s: State, t: Tid, call: Pc)
    requires !s.freed && s.mutex == None && t !in s.pc && IsCall(call)
    requires call.LockAdd? ==> t != 2 && 2 !in s.pc && call.task !in s.place
    ensures IsRun(s, Call(t, call))
    ensures var place := if call.LockAdd? then s.place[call.task := Pending(t)] else s.place;
            After(s, Call(t, call)) == Left(Holding(s.(place := place), t, Acquired(call).value), t)
  {
    var s1 := Step(s, Begin(t, call));
    TurnRuns(s1, t);
    assert Call(t, call)[0] == Begin(t, call) && Call(t, call)[1..] == Turn(t);
    assert s1.pc[t := Acquired(call).value] == s.pc[t := Acquired(call).value];
  }

  /** A caller that only looks. */
  lemma Looks(s: State, t: Tid)
    requires t in s.pc
    requires s.pc[t].InOver? || s.pc[t].InDestroy? || s.pc[t].ResumedExit? || (s.pc[t].InLoop? && s.queue == [])
    ensures Left(s, t) == s.(mutex := None, pc := s.pc[t := Next(s, t, true)])
  {
    hide Dispatch, Add, Discard, Leave, Next;
  }

  lemma LooksNext(s: State, t: Tid)
    requires t in s.pc
    ensures s.pc[t] == InOver(true, false) && s.queue != [] ==> Next(s, t, true) == WaitOver(false)
    ensures s.pc[t] == InDestroy(true, false) && s.exiting && s.num != 0 ==> Next(s, t, true) == WaitExit(false)
    ensures s.pc[t] == ResumedExit(false) ==> Next(s, t, true) == Freeing
    ensures s.pc[t] == InLoop && s.queue == [] ==> Next(s, t, true) == WaitWork
  {
  }

  lemma Twice(pc: map<Tid, Pc>, t: Tid, p: Pc, q: Pc)
    ensures pc[t := p][t := q] == pc[t := q]
  {
  }

  lemma LookRuns(s: State, t: Tid, call: Pc, p: Pc)
    requires !s.freed && s.mutex == None && t !in s.pc && (call.LockOver? || call.LockDestroy?)
    requires Next(Holding(s, t, Acquired(call).value), t, true) == p
    ensures IsRun(s, Call(t, call)) && After(s, Call(t, call)) == s.(pc := s.pc[t := p])
  {
    hide After, IsRun, Step, Left, Call, Next;
    var q := Acquired(call).value;
    CallRuns(s, t, call);
    Looks(Holding(s, t, q), t);
    Twice(s.pc, t, q, p);
  }

  /** A pool of at most one worker in which nothing has happened but what the arguments say. */
  function Quiet(num: nat, queue: seq<Task>, pc: map<Tid, Pc>, place: map<Task, Place>): State {
    State(None, false, num, num, 1, queue, pc, false, place, [], [], {}, 0)
  }

  lemma One()
    ensures Create(1, 1) == Quiet(1, [], map[0 := Top], map[])
  {
    assert FirstWorkers(1) == FirstWorkers(0)[0 := Top];
  }

  const JOB := Task(0, 0)

  /** An add call on an empty queue, with an idle worker at hand. */
  lemma AddRuns(pc: map<Tid, Pc>)
    requires 1 !in pc && 2 !in pc
    ensures var s := Quiet(1, [], pc, map[]);
            && IsRun(s, Call(1, LockAdd(JOB)))
            && After(s, Call(1, LockAdd(JOB))) == Quiet(1, [JOB], pc[1 := OwesWork], map[JOB := Queued])
  {
    hide After, IsRun, Step;
    var s := Quiet(1, [], pc, map[]);
    CallRuns(s, 1, LockAdd(JOB));
    assert pc[1 := InAdd(JOB)][1 := OwesWork] == pc[1 := OwesWork];
    assert map[JOB := Pending(1)][JOB := Queued] == map[JOB := Queued];
    assert [] + [JOB] == [JOB];
  }

  /** The worker of a pool of one falls asleep and its wait times out. */
  lemma SleepsAndTimesOut() returns (es: seq<Event>)
    ensures IsRun(Create(1, 1), es)
    ensures After(Create(1, 1), es) == Quiet(1, [], map[0 := WokenWork(true)], map[])
  {
    One();
    var s := Create(1, 1);
    es := [];
    Extend(s, es, Go(0, 2, true));
    es := es + [Go(0, 2, true)];
    Extend(s, es, Lock(0));
    es := es + [Lock(0)];
    Extend(s, es, Go(0, 2, true));
    es := es + [Go(0, 2, true)];
    Extend(s, es, Wake(0, true));
    es := es + [Wake(0, true)];
  }

  /** The worker that timed out leaves the pool, whatever is in the queue. */
  lemma LeaveRuns(queue: seq<Task>, pc: map<Tid, Pc>, place: map<Task, Place>)
    requires 0 in pc && pc[0] == WokenWork(true)
    ensures var s := Quiet(1, queue, pc, place);
            && IsRun(s, Turn(0))
            && After(s, Turn(0)) == Quiet(0, queue, pc[0 := OwesExit], place)
  {
    hide After, IsRun, Step;
    var s := Quiet(1, queue, pc, place);
    TurnRuns(s, 0);
    assert pc[0 := ResumedWork(true)][0 := OwesExit] == pc[0 := OwesExit];
  }

  lemma WorkBroadcast(s: State)
    requires !s.freed && 1 in s.pc && s.pc[1] == OwesWork
    ensures Enabled(s, Go(1, 2, true))
    ensures Step(s, Go(1, 2, true)) == s.(pc := BroadcastWork(s.pc)[1 := Done(0)])
  {
    hide Dispatch, Add, Discard;
  }

  lemma BroadcastsRun()
    ensures var s := Quiet(0, [JOB], map[0 := OwesExit, 1 := OwesWork], map[JOB := Queued]);
            && IsRun(s, [Go(0, 2, true), Go(1, 2, true)])
            && After(s, [Go(0, 2, true), Go(1, 2, true)])
               == Quiet(0, [JOB], map[0 := Done(0), 1 := Done(0)], map[JOB := Queued])
  {
    var s := Quiet(0, [JOB], map[0 := OwesExit, 1 := OwesWork], map[JOB := Queued]);
    var s1 := Quiet(0, [JOB], map[0 := Done(0), 1 := OwesWork], map[JOB := Queued]);
    var s2 := Quiet(0, [JOB], map[0 := Done(0), 1 := Done(0)], map[JOB := Queued]);
    LateBroadcast(s);
    assert BroadcastExit(s.pc)[0 := Done(0)] == s1.pc;
    WorkBroadcast(s1);
    assert BroadcastWork(s1.pc)[1 := Done(0)] == s2.pc;
    hide Enabled, Step;
    TwoSteps(s, Go(0, 2, true), Go(1, 2, true));
  }

  lemma TwoSteps(s: State, a: Event, b: Event)
    requires Enabled(s, a) && Enabled(Step(s, a), b)
    ensures IsRun(s, [a, b]) && After(s, [a, b]) == Step(Step(s, a), b)
  {
    hide Enabled, Step;
    Extend(s, [], a);
    assert [] + [a] == [a];
    Extend(s, [a], b);
    assert [a] + [b] == [a, b];
  }

  /** A worker that times out leaves without looking at the queue again, and until then counts
      as idle, so a task can end up queued with no worker and nothing owed. */
  lemma TaskWithoutWorker() returns (es: seq<Event>)
    ensures IsRun(Create(1, 1), es)
    ensures After(Create(1, 1), es)
         == Quiet(0, [JOB], map[0 := Done(0), 1 := Done(0)], map[JOB := Queued])
  {
    hide After, IsRun, Step, Left;
    var s := Create(1, 1);
    es := SleepsAndTimesOut();
    AddRuns(map[0 := WokenWork(true)]);
    ExtendAll(s, es, Call(1, LockAdd(JOB)));
    es := es + Call(1, LockAdd(JOB));
    LeaveRuns([JOB], map[0 := WokenWork(true), 1 := OwesWork], map[JOB := Queued]);
    ExtendAll(s, es, Turn(0));
    es := es + Turn(0);
    var s1 := After(s, es);
    assert s1.pc == map[0 := OwesExit, 1 := OwesWork];
    BroadcastsRun();
    ExtendAll(s, es, [Go(0, 2, true), Go(1, 2, true)]);
    es := es + [Go(0, 2, true), Go(1, 2, true)];
  }

  lemma OverRuns(pc: map<Tid, Pc>, place: map<Task, Place>)
    requires 2 !in pc
    ensures var s := Quiet(1, [JOB], pc, place);
            && IsRun(s, Call(2, LockOver(true, false)))
            && After(s, Call(2, LockOver(true, false))) == Quiet(1, [JOB], pc[2 := WaitOver(false)], place)
  {
    hide After, IsRun, Call, Next;
    var s := Quiet(1, [JOB], pc, place);
    LooksNext(Holding(s, 2, InOver(true, false)), 2);
    LookRuns(s, 2, LockOver(true, false), WaitOver(false));
  }

  lemma ClearRuns(pc: map<Tid, Pc>, place: map<Task, Place>)
    requires 3 !in pc
    ensures var s := Quiet(1, [JOB], pc, place);
            && IsRun(s, Call(3, LockClear))
            && var s' := After(s, Call(3, LockClear));
               s'.queue == [] && s'.mutex == None && s'.pc == pc[3 := Done(0)]
  {
    hide After, IsRun, Step;
    var s := Quiet(1, [JOB], pc, place);
    CallRuns(s, 3, LockClear);
    assert pc[3 := InClear][3 := Done(0)] == pc[3 := Done(0)];
  }

  /** ca_threadpool_clear_task_queue empties the queue without a broadcast: a caller of
      ca_threadpool_task_over is left asleep on an empty queue. */
  lemma ClearLosesAWakeup() returns (es: seq<Event>)
    ensures IsRun(Create(1, 1), es)
    ensures var s := After(Create(1, 1), es);
            && s.queue == [] && s.mutex == None && Somewhere(s.pc, WaitOver(false)) && !OverOwed(s.pc)
  {
    hide After, IsRun, Step, Left;
    One();
    AddRuns(map[0 := Top]);
    var s := Create(1, 1);
    es := Call(1, LockAdd(JOB));
    OverRuns(map[0 := Top, 1 := OwesWork], map[JOB := Queued]);
    ExtendAll(s, es, Call(2, LockOver(true, false)));
    es := es + Call(2, LockOver(true, false));
    var pc := map[0 := Top, 1 := OwesWork, 2 := WaitOver(false)];
    assert After(s, es).pc == pc;
    ClearRuns(pc, map[JOB := Queued]);
    ExtendAll(s, es, Call(3, LockClear));
    es := es + Call(3, LockClear);
    assert pc[3 := Done(0)][2] == WaitOver(false);
  }

  /** The same after ca_threadpool_exit, called when there was one worker and none was starting. */
  function Exiting(num: nat, queue: seq<Task>, pc: map<Tid, Pc>, place: map<Task, Place>): State {
    Quiet(num, queue, pc, place).(exiting := true, numAtExit := 1)
  }

  lemma SetExitRuns(queue: seq<Task>, pc: map<Tid, Pc>, place: map<Task, Place>)
    requires 3 !in pc
    ensures var s := Quiet(1, queue, pc, place);
            && IsRun(s, Call(3, LockSetExit))
            && After(s, Call(3, LockSetExit))
               == Exiting(1, queue, pc[3 := OwesExitWork], place).(atExit := MayStart(pc))
  {
    hide After, IsRun, Step, Dispatch, Add, Discard, Leave;
    var s := Quiet(1, queue, pc, place);
    CallRuns(s, 3, LockSetExit);
    assert MayStart(pc[3 := InSetExit]) == MayStart(pc);
    assert pc[3 := InSetExit][3 := OwesExitWork] == pc[3 := OwesExitWork];
  }

  lemma DestroyRuns(queue: seq<Task>, pc: map<Tid, Pc>, place: map<Task, Place>)
    requires 4 !in pc
    ensures var s := Exiting(1, queue, pc, place);
            && IsRun(s, Call(4, LockDestroy(true, false)))
            && After(s, Call(4, LockDestroy(true, false))) == Exiting(1, queue, pc[4 := WaitExit(false)], place)
  {
    hide After, IsRun, Call, Next;
    var s := Exiting(1, queue, pc, place);
    LooksNext(Holding(s, 4, InDestroy(true, false)), 4);
    LookRuns(s, 4, LockDestroy(true, false), WaitExit(false));
  }

  lemma WokenDestroyerRuns(queue: seq<Task>, pc: map<Tid, Pc>, place: map<Task, Place>)
    requires 4 in pc && pc[4] == WokenExit(false)
    ensures var s := Exiting(1, queue, pc, place);
            IsRun(s, Turn(4)) && After(s, Turn(4)) == Exiting(1, queue, pc[4 := Freeing], place)
  {
    hide After, IsRun, Step, Left, Turn, Next;
    var s := Exiting(1, queue, pc, place);
    TurnRuns(s, 4);
    Looks(Holding(s, 4, ResumedExit(false)), 4);
    LooksNext(Holding(s, 4, ResumedExit(false)), 4);
    Twice(pc, 4, ResumedExit(false), Freeing);
  }

  lemma LateBroadcast(s: State)
    requires !s.freed && 0 in s.pc && s.pc[0] == OwesExit
    ensures Enabled(s, Go(0, 2, true))
    ensures Step(s, Go(0, 2, true)) == s.(pc := BroadcastExit(s.pc)[0 := Done(0)])
  {
    hide Dispatch, Add, Discard;
  }

  const QUEUED := map[JOB := Queued]

  lemma StaleBroadcast(pc: map<Tid, Pc>) returns (pc': map<Tid, Pc>)
    requires 0 in pc && pc[0] == OwesExit && 2 in pc && pc[2] == Top && 4 in pc && pc[4] == WaitExit(false)
    ensures 2 in pc' && pc'[2] == Top && 4 in pc' && pc'[4] == WokenExit(false)
    ensures Enabled(Exiting(1, [JOB], pc, QUEUED), Go(0, 2, true))
    ensures Step(Exiting(1, [JOB], pc, QUEUED), Go(0, 2, true)) == Exiting(1, [JOB], pc', QUEUED)
  {
    hide Step, Enabled;
    LateBroadcast(Exiting(1, [JOB], pc, QUEUED));
    pc' := BroadcastExit(pc)[0 := Done(0)];
  }

  /** A last worker's broadcast while another worker is alive, and the destroyer's return from its wait. */
  lemma StaleRuns(pc: map<Tid, Pc>)
    requires 0 in pc && pc[0] == OwesExit && 2 in pc && pc[2] == Top
    requires 4 in pc && pc[4] == WaitExit(false)
    ensures var s := Exiting(1, [JOB], pc, QUEUED);
            && IsRun(s, [Go(0, 2, true)] + Turn(4))
            && var s' := After(s, [Go(0, 2, true)] + Turn(4));
               4 in s'.pc && s'.pc[4] == Freeing && s'.num == 1 && 2 in s'.pc && s'.pc[2] == Top
  {
    hide *;
    var pc' := StaleBroadcast(pc);
    WokenDestroyerRuns([JOB], pc', QUEUED);
    Prepend(Exiting(1, [JOB], pc, QUEUED), Go(0, 2, true), Turn(4));
    ExitingIs(1, [JOB], pc'[4 := Freeing], QUEUED);
  }

  lemma ExitingIs(num: nat, queue: seq<Task>, pc: map<Tid, Pc>, place: map<Task, Place>)
    ensures var s := Exiting(num, queue, pc, place); s.pc == pc && s.num == num && s.exiting && s.mutex == None
  {
  }

  lemma Prepend(s: State, e: Event, es: seq<Event>)
    requires Enabled(s, e) && IsRun(Step(s, e), es)
    ensures IsRun(s, [e] + es) && After(s, [e] + es) == After(Step(s, e), es)
  {
    hide Enabled, Step;
    assert ([e] + es)[0] == e && ([e] + es)[1..] == es;
  }

  /** The last worker has left but not yet broadcast, a task was added, which started a worker,
      and ca_threadpool_exit was called. */
  lemma ExitsWithStaleBroadcast() returns (es: seq<Event>)
    ensures IsRun(Create(1, 1), es)
    ensures After(Create(1, 1), es)
         == Exiting(1, [JOB], map[0 := OwesExit, 2 := Top, 1 := OwesWork, 3 := OwesExitWork], QUEUED)
  {
    hide After, IsRun, Step, Left;
    var s := Create(1, 1);
    es := SleepsAndTimesOut();
    LeaveRuns([], map[0 := WokenWork(true)], map[]);
    ExtendAll(s, es, Turn(0));
    es := es + Turn(0);
    assert After(s, es) == Quiet(0, [], map[0 := OwesExit], map[]);
    AddSpawnRuns(map[0 := OwesExit]);
    ExtendAll(s, es, Call(1, LockAdd(JOB)));
    es := es + Call(1, LockAdd(JOB));
    var pc := map[0 := OwesExit, 2 := Top, 1 := OwesWork];
    assert After(s, es).pc == pc;
    SetExitRuns([JOB], pc, QUEUED);
    assert MayStart(pc) == {};
    ExtendAll(s, es, Call(3, LockSetExit));
    es := es + Call(3, LockSetExit);
    assert pc[3 := OwesExitWork] == map[0 := OwesExit, 2 := Top, 1 := OwesWork, 3 := OwesExitWork];
  }

  /** A last worker that left before 'exit' was set broadcasts only after a new worker was
      started and a destroyer fell asleep: the destroyer passes its wait with a worker alive. */
  lemma StaleBroadcastFreesTooEarly() returns (es: seq<Event>)
    ensures IsRun(Create(1, 1), es)
    ensures var s := After(Create(1, 1), es);
            4 in s.pc && s.pc[4] == Freeing && s.num == 1 && 2 in s.pc && s.pc[2] == Top
  {
    hide After, IsRun, Step, Left;
    var s := Create(1, 1);
    es := ExitsWithStaleBroadcast();
    var pc := map[0 := OwesExit, 2 := Top, 1 := OwesWork, 3 := OwesExitWork];
    DestroyRuns([JOB], pc, QUEUED);
    ExtendAll(s, es, Call(4, LockDestroy(true, false)));
    es := es + Call(4, LockDestroy(true, false));
    StaleRuns(pc[4 := WaitExit(false)]);
    ExtendAll(s, es, [Go(0, 2, true)] + Turn(4));
    es := es + ([Go(0, 2, true)] + Turn(4));
  }

  /** ca_threadpool_exit has set 'exit' before the only worker looked at it. */
  lemma ExitsAtOnce() returns (es: seq<Event>)
    ensures IsRun(Create(1, 1), es)
    ensures After(Create(1, 1), es) == Exiting(1, [], map[0 := Top, 3 := OwesExitWork], map[])
  {
    hide After, IsRun, Step, Left;
    One();
    var pc: map<Tid, Pc> := map[0 := Top];
    SetExitRuns([], pc, map[]);
    assert MayStart(pc) == {};
    es := Call(3, LockSetExit);
    assert pc[3 := OwesExitWork] == map[0 := Top, 3 := OwesExitWork];
  }

  /** A spurious wakeup lets the destroyer pass its wait with a worker alive. */
  lemma SpuriousWakeupFreesTooEarly() returns (es: seq<Event>)
    ensures IsRun(Create(1, 1), es)
    ensures var s := After(Create(1, 1), es);
            4 in s.pc && s.pc[4] == Freeing && s.num == 1 && 0 in s.pc && s.pc[0] == Top
  {
    hide After, IsRun, Step, Left, Call, Turn, Create;
    var s := Create(1, 1);
    es := ExitsAtOnce();
    var pc: map<Tid, Pc> := map[0 := Top, 3 := OwesExitWork];
    DestroyRuns([], pc, map[]);
    ExtendAll(s, es, Call(4, LockDestroy(true, false)));
    es := es + Call(4, LockDestroy(true, false));
    WakesAndPasses(pc);
    ExtendAll(s, es, [Wake(4, false)] + Turn(4));
    es := es + ([Wake(4, false)] + Turn(4));
  }

  lemma WakesAndPasses(pc: map<Tid, Pc>)
    requires 0 in pc && pc[0] == Top && 4 !in pc
    ensures var s, es := Exiting(1, [], pc[4 := WaitExit(false)], map[]), [Wake(4, false)] + Turn(4);
            && IsRun(s, es)
            && var s' := After(s, es);
               4 in s'.pc && s'.pc[4] == Freeing && s'.num == 1 && 0 in s'.pc && s'.pc[0] == Top
  {
    hide After, IsRun, Step, Turn, Enabled;
    var s := Exiting(1, [], pc[4 := WaitExit(false)], map[]);
    WakeRuns(s);
    Twice(pc, 4, WaitExit(false), WokenExit(false));
    WokenDestroyerRuns([], pc[4 := WokenExit(false)], map[]);
    Prepend(s, Wake(4, false), Turn(4));
  }

  lemma WakeRuns(s: State)
    requires !s.freed && 4 in s.pc && s.pc[4] == WaitExit(false)
    ensures Enabled(s, Wake(4, false))
    ensures Step(s, Wake(4, false)) == s.(pc := s.pc[4 := WokenExit(false)])
  {
  }

  /** The worker sees 'exit' and is about to leave. */
  lemma SeesExit(s: State)
    requires !s.freed && s.exiting && 0 in s.pc && s.pc[0] == Top
    ensures Enabled(s, Go(0, 2, true))
    ensures Step(s, Go(0, 2, true)) == s.(pc := s.pc[0 := LockExit])
  {
    hide Dispatch, Add, Discard;
  }

  /** The last worker leaves. */
  lemma LastLeaves(pc: map<Tid, Pc>)
    requires 0 in pc && pc[0] == LockExit
    ensures var s := Exiting(1, [], pc, map[]);
            IsRun(s, Turn(0)) && After(s, Turn(0)) == Exiting(0, [], pc[0 := OwesExit], map[])
  {
    hide After, IsRun, Step;
    TurnRuns(Exiting(1, [], pc, map[]), 0);
    assert pc[0 := InExit][0 := OwesExit] == pc[0 := OwesExit];
  }

  /** An add call after exit, in a pool without workers, starts one. */
  lemma AddAfterExit(pc: map<Tid, Pc>)
    requires 1 !in pc && 2 !in pc
    ensures var s := Exiting(0, [], pc, map[]);
            && IsRun(s, Call(1, LockAdd(JOB)))
            && After(s, Call(1, LockAdd(JOB))) == Exiting(1, [JOB], pc[2 := Top][1 := OwesWork], QUEUED)
  {
    hide After, IsRun, Step;
    var s := Exiting(0, [], pc, map[]);
    CallRuns(s, 1, LockAdd(JOB));
    assert pc[1 := InAdd(JOB)][2 := Top][1 := OwesWork] == pc[2 := Top][1 := OwesWork];
    assert map[JOB := Pending(1)][JOB := Queued] == QUEUED;
    assert [] + [JOB] == [JOB];
  }

  /** After exit the only worker has left, and its broadcast is owed; a destroyer waits for it. */
  lemma LeavesUnderDestroyer() returns (es: seq<Event>)
    ensures IsRun(Create(1, 1), es)
    ensures After(Create(1, 1), es)
         == Exiting(0, [], map[0 := OwesExit, 3 := OwesExitWork, 4 := WaitExit(false)], map[])
  {
    hide After, IsRun, Step, Left;
    var s := Create(1, 1);
    es := ExitsAtOnce();
    var pc: map<Tid, Pc> := map[0 := Top, 3 := OwesExitWork];
    SeesExit(Exiting(1, [], pc, map[]));
    Extend(s, es, Go(0, 2, true));
    es := es + [Go(0, 2, true)];
    DestroyRuns([], pc[0 := LockExit], map[]);
    ExtendAll(s, es, Call(4, LockDestroy(true, false)));
    es := es + Call(4, LockDestroy(true, false));
    var pc1 := pc[0 := LockExit][4 := WaitExit(false)];
    LastLeaves(pc1);
    ExtendAll(s, es, Turn(0));
    es := es + Turn(0);
    assert pc1[0 := OwesExit] == map[0 := OwesExit, 3 := OwesExitWork, 4 := WaitExit(false)];
  }

  /** A task added after exit starts a worker before the last one has broadcast: the destroyer passes
      its wait with that worker alive. */
  lemma LateInsertionFreesTooEarly() returns (es: seq<Event>)
    ensures IsRun(Create(1, 1), es)
    ensures var s := After(Create(1, 1), es);
            4 in s.pc && s.pc[4] == Freeing && s.num == 1 && 2 in s.pc && s.pc[2] == Top
  {
    hide After, IsRun, Step, Left;
    var s := Create(1, 1);
    es := LeavesUnderDestroyer();
    var pc := map[0 := OwesExit, 3 := OwesExitWork, 4 := WaitExit(false)];
    AddAfterExit(pc);
    ExtendAll(s, es, Call(1, LockAdd(JOB)));
    es := es + Call(1, LockAdd(JOB));
    StaleRuns(pc[2 := Top][1 := OwesWork]);
    ExtendAll(s, es, [Go(0, 2, true)] + Turn(4));
    es := es + ([Go(0, 2, true)] + Turn(4));
  }

  // --- a worker that sleeps through exit ---------------------------------------------------------

  lemma TestsExit(s: State)
    requires !s.freed && !s.exiting && 0 in s.pc && s.pc[0] == Top
    ensures Enabled(s, Go(0, 2, true))
    ensures Step(s, Go(0, 2, true)) == s.(pc := s.pc[0 := LockLoop])
  {
    hide Dispatch, Add, Discard, Leave;
  }

  lemma ExitBroadcast(s: State)
    requires !s.freed && 3 in s.pc && s.pc[3] == OwesExitWork
    ensures Enabled(s, Go(3, 2, true))
    ensures Step(s, Go(3, 2, true)) == s.(pc := BroadcastWork(s.pc)[3 := Done(0)])
  {
    hide Dispatch, Add, Discard, Leave;
  }

  /** The worker has passed its test of 'exit', which is then set and broadcast. */
  lemma PassesTheTest() returns (es: seq<Event>)
    ensures IsRun(Create(1, 1), es)
    ensures After(Create(1, 1), es)
         == Exiting(1, [], map[0 := LockLoop, 3 := Done(0)], map[]).(atExit := {0})
  {
    hide After, IsRun, Step, Left, Enabled;
    One();
    var s := Create(1, 1);
    TestsExit(s);
    Begins(s);
    Extend(s, [], Go(0, 2, true));
    es := [] + [Go(0, 2, true)];
    var pc: map<Tid, Pc> := map[0 := LockLoop];
    assert After(s, es) == Quiet(1, [], pc, map[]);
    SetExitRuns([], pc, map[]);
    assert MayStart(pc) == {0};
    ExtendAll(s, es, Call(3, LockSetExit));
    es := es + Call(3, LockSetExit);
    ExitBroadcast(After(s, es));
    Extend(s, es, Go(3, 2, true));
    es := es + [Go(3, 2, true)];
    assert BroadcastWork(pc[3 := OwesExitWork])[3 := Done(0)] == map[0 := LockLoop, 3 := Done(0)];
  }

  lemma Begins(s: State)
    ensures IsRun(s, []) && After(s, []) == s
  {
  }

  /** A worker between its test of 'exit' and the mutex goes to sleep after the broadcast, with nothing
      owed to it. */
  lemma SleepsAfterExit() returns (es: seq<Event>)
    ensures IsRun(Create(1, 1), es)
    ensures var s := After(Create(1, 1), es);
            && s.exiting && s.mutex == None && 0 in s.pc && s.pc[0] == WaitWork
            && !Somewhere(s.pc, OwesWork) && !Somewhere(s.pc, OwesExitWork)
  {
    hide *;
    var s := Create(1, 1);
    es := PassesTheTest();
    FallsAsleep();
    ExtendAll(s, es, Turn(0));
    es := es + Turn(0);
    NobodyOwes();
  }

  lemma NobodyOwes()
    ensures var pc := map[0 := WaitWork, 3 := Done(0)];
            !Somewhere(pc, OwesWork) && !Somewhere(pc, OwesExitWork)
  {
  }

  lemma FallsAsleep()
    ensures var s := Exiting(1, [], map[0 := LockLoop, 3 := Done(0)], map[]).(atExit := {0});
            && IsRun(s, Turn(0))
            && var s' := After(s, Turn(0));
               s'.exiting && s'.mutex == None && s'.pc == map[0 := WaitWork, 3 := Done(0)]
  {
    hide After, IsRun, Step, Left, Turn, Next;
    var s := Exiting(1, [], map[0 := LockLoop, 3 := Done(0)], map[]).(atExit := {0});
    TurnRuns(s, 0);
    Looks(Holding(s, 0, InLoop), 0);
    LooksNext(Holding(s, 0, InLoop), 0);
    assert s.pc[0 := InLoop][0 := WaitWork] == map[0 := WaitWork, 3 := Done(0)];
  }

  /** An add call on an empty queue of a pool without workers starts one. */
  lemma AddSpawnRuns(pc: map<Tid, Pc>)
    requires 1 !in pc && 2 !in pc
    ensures var s := Quiet(0, [], pc, map[]);
            && IsRun(s, Call(1, LockAdd(JOB)))
            && After(s, Call(1, LockAdd(JOB))) == Quiet(1, [JOB], pc[2 := Top][1 := OwesWork], map[JOB := Queued])
  {
    hide After, IsRun, Step;
    var s := Quiet(0, [], pc, map[]);
    CallRuns(s, 1, LockAdd(JOB));
    assert pc[1 := InAdd(JOB)][2 := Top][1 := OwesWork] == pc[2 := Top][1 := OwesWork];
    assert map[JOB := Pending(1)][JOB := Queued] == map[JOB := Queued];
    assert [] + [JOB] == [JOB];
  }
}
