/** What the answer of each call of the thread pool means, in every run: a call that has returned did so at
    some step, and the answer says what the pool was like then. */
module ThreadPoolAnswers {
  import opened HeapOrder
  import opened Wrappers
  import opened ThreadPool
  import opened ThreadPoolSafety
  import opened ThreadPoolTasks
  import opened ThreadPoolTheorems

  /** The state after the first k steps of a run. */
  ghost function StateAt(s: State, es: seq<Event>, k: nat): State
    requires IsRun(s, es) && k <= |es|
    decreases k
  {
    if k == 0 then s else StateAt(Step(s, es[0]), es[1..], k - 1)
  }

  lemma {:induction false} StateAtEnd(s: State, es: seq<Event>)
    requires IsRun(s, es)
    ensures StateAt(s, es, |es|) == After(s, es)
    decreases |es|
  {
    if es != [] {
      StateAtEnd(Step(s, es[0]), es[1..]);
    }
  }

  // --- on the way to an answer -------------------------------------------------------------

  /** Thread t is serving this call and has not returned. */
  ghost predicate Serving(s: State, t: Tid, call: Pc) {
    && IsCall(call) && t in s.pc
    && var p := s.pc[t];
       match call
       case LockAdd(task) => task in s.place && OnTheWayIn(p, t, task, s.place[task])
       case LockSetExit => p == call || p == InSetExit || (p == OwesExitWork && s.exiting)
       case LockClear => p == call || p == InClear
       case LockOver(block, timed) => p == call || p == InOver(block, timed) || (block && AwaitsOver(p, timed))
       case LockDestroy(block, timed) =>
         p == call || p == InDestroy(block, timed) || p == Freeing || (block && AwaitsExit(p, timed))
       case _ => true
  }

  predicate OnTheWayIn(p: Pc, t: Tid, task: Task, place: Place) {
    || ((p == LockAdd(task) || p == InAdd(task)) && place == Pending(t))
    || (p == OwesWork && !place.Pending? && !place.Rejected?)
  }

  predicate AwaitsOver(p: Pc, timed: bool) {
    || p == WaitOver(timed)
    || ((p.WokenOver? || p.ResumedOver?) && p.timed == timed && (p.timedOut ==> timed))
  }

  predicate AwaitsExit(p: Pc, timed: bool) {
    p == WaitExit(timed) || ((p.WokenExit? || p.ResumedExit?) && (p.timedOut ==> timed))
  }

  // --- what an answer means ----------------------------------------------------------------

  /** ca_threadpool_add_task: -1 exactly for a task that was refused; 0 for one that was taken. */
  predicate AddAnswer(task: Task, r: int, s: State) {
    && (r == 0 || r == -1) && task in s.place && !s.place[task].Pending?
    && (r == -1 <==> s.place[task].Rejected?)
  }

  /** ca_threadpool_task_over: a call that has not waited with a timeout answers 0 exactly when the queue is
      empty, and -1 only if it was not to block; one that has answers -1 exactly when its time was up. */
  predicate OverAnswer(block: bool, timed: bool, last: Pc, r: int, s: State) {
    if timed && last.ResumedOver? then
      block && r == if last.timedOut then -1 else 0
    else
      && (r == 0 <==> s.queue == [])
      && (r == -1 <==> s.queue != [])
      && (r == -1 ==> !block)
  }

  /** ca_threadpool_destroy: 0 exactly when the pool has been freed, with no task left on it; -1 if exit was
      not called, if there are workers and it was not to block, or if its time was up. */
  predicate DestroyAnswer(block: bool, timed: bool, last: Pc, r: int, s: State) {
    && (r == 0 <==> s.freed) && (r == 0 ==> s.queue == [])
    && (r == -1 <==> !s.freed)
    && (r == -1 ==> (last.InDestroy? && (!s.exiting || (s.num != 0 && !block)))
                    || (last.ResumedExit? && last.timedOut && timed && block))
  }

  predicate Answer(call: Pc, last: Pc, r: int, s: State) {
    match call
    case LockAdd(task) => AddAnswer(task, r, s)
    case LockSetExit => r == 0 && s.exiting
    case LockClear => r == 0 && s.queue == []
    case LockOver(block, timed) => OverAnswer(block, timed, last, r, s)
    case LockDestroy(block, timed) => DestroyAnswer(block, timed, last, r, s)
    case _ => true
  }

  // --- one step ----------------------------------------------------------------------------

  lemma ExitingStays(s: State, e: Event)
    requires Enabled(s, e) && s.exiting
    ensures Step(s, e).exiting
  {
    hide Next, Others, RemoveAt, Insert;
  }

  lemma ServingKept(s: State, s': State, t: Tid, call: Pc)
    requires Serving(s, t, call) && HandsConserved(s') && t in s'.pc && (s.exiting ==> s'.exiting)
    requires s'.pc[t] == s.pc[t] || (Waits(s.pc[t]) && s'.pc[t] == Woken(s.pc[t], false))
    requires call.LockAdd? ==> call.task in s'.place && Forward(s.place[call.task], s'.place[call.task])
    ensures Serving(s', t, call)
  {
    hide Forward;
    if call.LockAdd? && s'.pc[t] != OwesWork {
      assert Offered(s'.pc[t]) == Some(call.task);
    } else if call.LockAdd? {
      PastThePending(s.place[call.task], s'.place[call.task]);
    }
  }

  lemma PastThePending(p: Place, p': Place)
    requires !p.Pending? && Forward(p, p')
    ensures !p'.Pending? && (p'.Rejected? <==> p.Rejected?)
  {
  }

  /** A step of another thread. */
  lemma ServingMeanwhile(s: State, e: Event, t: Tid, call: Pc)
    requires Enabled(s, e) && Conserved(s) && Serving(s, t, call) && e.t != t
    ensures Serving(Step(s, e), t, call)
  {
    StepOthers(s, e);
    ConservedStep(s, e);
    if s.exiting {
      ExitingStays(s, e);
    }
    assert HandsConserved(Step(s, e)) && t in s.pc;
    assert call.LockAdd? ==> call.task in s.place;
    hide Step, Conserved, QueueConserved, StartsConserved, HandsConserved, Serving, Forward, Enabled, Woken, Waits;
    ServingKept(s, Step(s, e), t, call);
  }

  // --- the thread's own steps --------------------------------------------------------------

  /** What a step leads to: the call goes on, or returns with its answer. */
  ghost predicate Advances(s: State, s': State, t: Tid, call: Pc) {
    && t in s.pc && t in s'.pc
    && (if s'.pc[t].Done? then Answer(call, s.pc[t], s'.pc[t].result, s') else Serving(s', t, call))
  }

  lemma LockAdvances(s: State, e: Event, call: Pc)
    requires Enabled(s, e) && e.Lock? && Serving(s, e.t, call)
    ensures Advances(s, Step(s, e), e.t, call)
  {
  }

  lemma WakeAdvances(s: State, e: Event, call: Pc)
    requires Enabled(s, e) && e.Wake? && Serving(s, e.t, call)
    ensures Advances(s, Step(s, e), e.t, call)
  {
  }

  lemma AddAdvances(s: State, e: Event, call: Pc)
    requires Enabled(s, e) && e.Go? && Serving(s, e.t, call) && call.LockAdd?
    ensures Advances(s, Step(s, e), e.t, call)
  {
    hide RemoveAt, Insert;
  }

  lemma ExitAdvances(s: State, e: Event, call: Pc)
    requires Enabled(s, e) && e.Go? && Serving(s, e.t, call) && (call.LockSetExit? || call.LockClear?)
    ensures Advances(s, Step(s, e), e.t, call)
  {
    hide RemoveAt, Insert;
  }

  lemma OverAdvances(s: State, e: Event, call: Pc)
    requires Enabled(s, e) && e.Go? && Serving(s, e.t, call) && call.LockOver?
    ensures Advances(s, Step(s, e), e.t, call)
  {
    hide RemoveAt, Insert;
  }

  lemma DestroyAdvances(s: State, e: Event, call: Pc)
    requires Enabled(s, e) && e.Go? && Serving(s, e.t, call) && call.LockDestroy?
    ensures Advances(s, Step(s, e), e.t, call)
  {
    hide RemoveAt, Insert;
  }

  lemma OwnStepAdvances(s: State, e: Event, call: Pc)
    requires Enabled(s, e) && Serving(s, e.t, call)
    ensures Advances(s, Step(s, e), e.t, call)
  {
    match e
    case Begin(t, _) => assert false;
    case Lock(t) => LockAdvances(s, e, call);
    case Wake(t, _) => WakeAdvances(s, e, call);
    case Go(t, _, _) =>
      match call
      case LockAdd(_) => AddAdvances(s, e, call);
      case LockOver(_, _) => OverAdvances(s, e, call);
      case LockDestroy(_, _) => DestroyAdvances(s, e, call);
      case _ => ExitAdvances(s, e, call);
  }

  lemma BeginServes(s: State, e: Event)
    requires Enabled(s, e) && e.Begin?
    ensures Serving(Step(s, e), e.t, e.call)
  {
  }

  // --- whole runs --------------------------------------------------------------------------

  /** Step k of the run is the one at which thread t returns from the call. */
  ghost predicate ReturnsAt(s: State, es: seq<Event>, k: nat, t: Tid, call: Pc)
    requires IsRun(s, es) && k < |es|
  {
    var before, after := StateAt(s, es, k), StateAt(s, es, k + 1);
    && t in before.pc && !before.pc[t].Done? && t in after.pc && after.pc[t].Done?
    && Answer(call, before.pc[t], after.pc[t].result, after)
    && t in After(s, es).pc && After(s, es).pc[t] == after.pc[t]
  }

  lemma {:induction false} DoneStays(s: State, es: seq<Event>, t: Tid)
    requires IsRun(s, es) && t in s.pc && s.pc[t].Done?
    ensures t in After(s, es).pc && After(s, es).pc[t] == s.pc[t]
    decreases |es|
  {
    if es != [] {
      StepOthers(s, es[0]);
      assert es[0].t != t;
      DoneStays(Step(s, es[0]), es[1..], t);
    }
  }

  lemma ServingNotDone(s: State, t: Tid, call: Pc)
    requires Serving(s, t, call)
    ensures t in s.pc && !s.pc[t].Done?
  {
  }

  lemma {:induction false} ServingReturns(s: State, es: seq<Event>, t: Tid, call: Pc) returns (k: nat)
    requires Conserved(s) && IsRun(s, es) && Serving(s, t, call)
    requires t in After(s, es).pc && After(s, es).pc[t].Done?
    ensures k < |es| && ReturnsAt(s, es, k, t, call)
    decreases |es|
  {
    hide Conserved, Serving, Step, Enabled, Answer;
    ServingNotDone(s, t, call);
    var s' := Step(s, es[0]);
    ConservedStep(s, es[0]);
    if es[0].t == t {
      OwnStepAdvances(s, es[0], call);
    } else {
      ServingMeanwhile(s, es[0], t, call);
      ServingNotDone(s', t, call);
    }
    if s'.pc[t].Done? {
      DoneStays(s', es[1..], t);
      assert StateAt(s, es, 1) == s';
      k := 0;
    } else {
      k := ServingReturns(s', es[1..], t, call);
      assert StateAt(s, es, k + 1) == StateAt(s', es[1..], k);
      assert StateAt(s, es, k + 2) == StateAt(s', es[1..], k + 1);
      k := k + 1;
    }
  }

  lemma {:induction false} BegunReturns(s: State, es: seq<Event>, j: nat) returns (k: nat)
    requires Conserved(s) && IsRun(s, es) && j < |es| && es[j].Begin?
    requires es[j].t in After(s, es).pc && After(s, es).pc[es[j].t].Done?
    ensures j < k < |es| && ReturnsAt(s, es, k, es[j].t, es[j].call)
    decreases |es|
  {
    hide Conserved, Serving, Step, Enabled, Answer;
    var s' := Step(s, es[0]);
    ConservedStep(s, es[0]);
    if j == 0 {
      BeginServes(s, es[0]);
      k := ServingReturns(s', es[1..], es[0].t, es[0].call);
    } else {
      k := BegunReturns(s', es[1..], j - 1);
    }
    assert StateAt(s, es, k + 1) == StateAt(s', es[1..], k);
    assert StateAt(s, es, k + 2) == StateAt(s', es[1..], k + 1);
    k := k + 1;
  }

  /** In every run each call that has returned did so at some step after it began, with an answer that tells
      what the pool was like at that step. */
  lemma CallsAnswer(init: nat, max: nat, es: seq<Event>, j: nat) returns (k: nat)
    requires 0 < init <= max && IsRun(Create(init, max), es) && j < |es| && es[j].Begin?
    requires var s := After(Create(init, max), es); es[j].t in s.pc && s.pc[es[j].t].Done?
    ensures j < k < |es| && ReturnsAt(Create(init, max), es, k, es[j].t, es[j].call)
  {
    CreateInvariant(init, max);
    k := BegunReturns(Create(init, max), es, j);
  }

  /** ca_threadpool_task_over with block set and no timeout: it returns only at a step that leaves the queue
      empty, and the answer is 0. */
  lemma OverReturnsAtEmpty(init: nat, max: nat, es: seq<Event>, j: nat) returns (k: nat)
    requires 0 < init <= max && IsRun(Create(init, max), es) && j < |es|
    requires es[j].Begin? && es[j].call == LockOver(true, false)
    requires var s := After(Create(init, max), es); es[j].t in s.pc && s.pc[es[j].t].Done?
    ensures After(Create(init, max), es).pc[es[j].t] == Done(0)
    ensures j < k < |es| && StateAt(Create(init, max), es, k + 1).queue == []
  {
    k := CallsAnswer(init, max, es, j);
  }

  /** The answer of ca_threadpool_add_task still tells the place of the task at the end of the run: -1 exactly
      for a task that was refused. */
  lemma AddAnswersLast(init: nat, max: nat, es: seq<Event>, j: nat)
    requires 0 < init <= max && IsRun(Create(init, max), es) && j < |es|
    requires es[j].Begin? && es[j].call.LockAdd?
    requires var s := After(Create(init, max), es); es[j].t in s.pc && s.pc[es[j].t].Done?
    ensures AddAnswer(es[j].call.task, After(Create(init, max), es).pc[es[j].t].result, After(Create(init, max), es))
  {
    var k := CallsAnswer(init, max, es, j);
    CreateInvariant(init, max);
    PlaceForward(Create(init, max), es, k + 1, es[j].call.task);
  }

  lemma {:induction false} PlaceForward(s: State, es: seq<Event>, k: nat, task: Task)
    requires Invariant(s) && IsRun(s, es) && k <= |es|
    requires var p := StateAt(s, es, k).place; task in p && !p[task].Pending?
    ensures var p, p' := StateAt(s, es, k).place, After(s, es).place;
            task in p' && !p'[task].Pending? && (p'[task].Rejected? <==> p[task].Rejected?)
    decreases |es|
  {
    hide Invariant, Step, Enabled;
    if k > 0 {
      InvariantStep(s, es[0]);
      PlaceForward(Step(s, es[0]), es[1..], k - 1, task);
    } else if es != [] {
      InvariantStep(s, es[0]);
      PlaceMoves(s, es[0], task);
      PlaceForward(Step(s, es[0]), es[1..], 0, task);
    }
  }

  lemma PlaceMoves(s: State, e: Event, task: Task)
    requires Invariant(s) && Enabled(s, e) && task in s.place && !s.place[task].Pending?
    ensures var p := Step(s, e).place;
            task in p && !p[task].Pending? && (p[task].Rejected? <==> s.place[task].Rejected?)
  {
    ConservedStep(s, e);
    assert Forward(s.place[task], Step(s, e).place[task]);
  }

  // --- when a caller goes back to sleep, and when a worker leaves --------------------------

  /** At every look at the queue in ca_threadpool_task_over: the call goes on sleeping exactly if there is work
      and it may block, and returns otherwise; with a timeout it looks no further once it was woken. */
  lemma OverSleepsIff(s: State, e: Event)
    requires Enabled(s, e) && e.Go? && (s.pc[e.t].InOver? || s.pc[e.t].ResumedOver?)
    ensures var p, p', work := s.pc[e.t], Step(s, e).pc[e.t], Step(s, e).queue != [];
            && Step(s, e).queue == s.queue
            && (p.InOver? ==> (p' == WaitOver(p.timed) <==> work && p.block))
            && (p.InOver? ==> (p' == Done(-1) <==> work && !p.block) && (p' == Done(0) <==> !work))
            && (p.ResumedOver? && !p.timed ==> (p' == WaitOver(false) <==> work) && (p' == Done(0) <==> !work))
            && (p.ResumedOver? && p.timed ==> (p' == Done(-1) <==> p.timedOut) && (p' == Done(0) <==> !p.timedOut))
  {
    hide RemoveAt, Insert;
  }

  /** And in ca_threadpool_destroy: it goes on to free the pool exactly if exit is set and no worker is left,
      or if it was woken in time. */
  lemma DestroySleepsIff(s: State, e: Event)
    requires Enabled(s, e) && e.Go? && (s.pc[e.t].InDestroy? || s.pc[e.t].ResumedExit?)
    ensures var p, p', left := s.pc[e.t], Step(s, e).pc[e.t], Step(s, e).num != 0;
            && Step(s, e).num == s.num && Step(s, e).exiting == s.exiting
            && (p.InDestroy? ==> (p' == Freeing <==> s.exiting && !left))
            && (p.InDestroy? ==> (p' == WaitExit(p.timed) <==> s.exiting && left && p.block))
            && (p.InDestroy? ==> (p' == Done(-1) <==> !s.exiting || (left && !p.block)))
            && (p.ResumedExit? ==> (p' == Done(-1) <==> p.timedOut) && (p' == Freeing <==> !p.timedOut))
  {
    hide RemoveAt, Insert;
  }

  /** A worker on its way out by the test of 'exit' has seen it set. */
  ghost predicate SeenExit(s: State) {
    forall t {:trigger s.pc[t]} :: t in s.pc && (s.pc[t].LockExit? || s.pc[t].InExit?) ==> s.exiting
  }

  lemma ExitIsSeen(s: State, t: Tid, grown: bool)
    requires t in s.pc
    ensures Next(s, t, grown).LockExit? || Next(s, t, grown).InExit? ==> s.exiting
  {
    hide RemoveAt, Insert;
  }

  lemma SeenExitStep(s: State, e: Event)
    requires Enabled(s, e) && SeenExit(s)
    ensures SeenExit(Step(s, e))
  {
    if s.exiting {
      ExitingStays(s, e);
    } else {
      StepOthers(s, e);
      if e.Go? {
        ExitIsSeen(s, e.t, e.grown);
      }
      hide Effect, Next, Others;
      forall t | t in Step(s, e).pc
        ensures !(Step(s, e).pc[t].LockExit? || Step(s, e).pc[t].InExit?)
      {
      }
    }
  }

  lemma {:induction false} SeenExitRun(s: State, es: seq<Event>)
    requires SeenExit(s) && IsRun(s, es)
    ensures SeenExit(After(s, es))
    decreases |es|
  {
    if es != [] {
      hide Step, Enabled, SeenExit;
      SeenExitStep(s, es[0]);
      SeenExitRun(Step(s, es[0]), es[1..]);
    }
  }

  /** In every run a worker leaves the pool only after exit was called or when its own wait has timed out. */
  lemma WorkersLeave(init: nat, max: nat, es: seq<Event>, e: Event)
    requires 0 < init <= max && IsRun(Create(init, max), es) && Enabled(After(Create(init, max), es), e)
    ensures var s := After(Create(init, max), es);
            Step(s, e).num < s.num ==>
              s.exiting || (e.Go? && s.pc[e.t] == ResumedWork(true))
  {
    FirstWorkersCount(init);
    SeenExitRun(Create(init, max), es);
    LeavesIf(After(Create(init, max), es), e);
  }

  lemma LeavesIf(s: State, e: Event)
    requires Enabled(s, e) && SeenExit(s)
    ensures Step(s, e).num < s.num ==> s.exiting || (e.Go? && s.pc[e.t] == ResumedWork(true))
  {
    hide Next, Others, RemoveAt, Insert;
  }

  // --- when a worker is started, and when somebody is woken ---------------------------------

  /** In every run a worker is started exactly by an add_task that finds no live worker outside the window in
      which tasks are run, and fewer live workers than threads_max. */
  lemma WorkersStart(init: nat, max: nat, es: seq<Event>, e: Event)
    requires 0 < init <= max && IsRun(Create(init, max), es) && Enabled(After(Create(init, max), es), e)
    ensures var s := After(Create(init, max), es);
            Step(s, e).num > s.num <==>
              e.Go? && s.pc[e.t].InAdd? && Idlers(s.pc) == {} && |Members(s.pc)| < s.max
  {
    var s := After(Create(init, max), es);
    Reachable(init, max, es);
    hide Create, After, IsRun;
    StartsIf(s, e);
    assert |Idlers(s.pc)| == 0 <==> Idlers(s.pc) == {};
  }

  lemma StartsIf(s: State, e: Event)
    requires Enabled(s, e) && Counted(s)
    ensures Step(s, e).num > s.num <==>
              e.Go? && s.pc[e.t].InAdd? && |Idlers(s.pc)| == 0 && |Members(s.pc)| < s.max
  {
    hide Next, Others, RemoveAt, Insert, Idlers, Members;
  }

  /** A worker that goes on to run a task, or nothing, wakes the callers of task_over exactly if that leaves the
      queue empty. */
  lemma DispatchWakesIff(s: State, e: Event)
    requires Enabled(s, e) && e.Go? && (s.pc[e.t].InLoop? || s.pc[e.t].ResumedWork?)
    requires Step(s, e).num == s.num && !Step(s, e).pc[e.t].WaitWork?
    ensures Step(s, e).pc[e.t].OwesOver? <==> Step(s, e).queue == []
  {
    hide RemoveAt, Insert;
  }

  /** An add_task wakes the workers exactly if its task is the only one on the queue. */
  lemma AddWakesIff(s: State, e: Event)
    requires Enabled(s, e) && e.Go? && s.pc[e.t].InAdd?
    ensures Step(s, e).pc[e.t].OwesWork? <==> e.grown && |Step(s, e).queue| == 1
  {
    hide RemoveAt, Insert;
  }
}
