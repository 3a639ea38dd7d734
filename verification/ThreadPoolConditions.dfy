/** Three properties that the thread pool keeps by most steps but not by all: for each, exactly which
    steps break it. */
module ThreadPoolConditions {
  import opened HeapOrder
  import opened ThreadPool
  import opened ThreadPoolSafety
  import opened ThreadPoolExit

  // --- a queued task has a worker --------------------------------------------------------------

  ghost predicate Staffed(s: State) {
    s.queue != [] ==> s.num > 0
  }

  /** The last worker leaves although there is work: it timed out, it was woken after exit, or it
      saw 'exit' set. */
  predicate Strands(s: State, e: Event) {
    && Enabled(s, e) && e.Go? && s.queue != [] && s.num == 1
    && ((s.pc[e.t].ResumedWork? && (s.pc[e.t].timedOut || s.exiting)) || s.pc[e.t].InExit?)
  }

  lemma StaffGo(s: State, t: Tid, grown: bool)
    requires t in s.pc && !s.pc[t].InAdd?
    ensures var r := Effect(s, t, grown);
            && (r.queue != [] ==> s.queue != [])
            && r.num == (if (s.pc[t].ResumedWork? && (s.pc[t].timedOut || s.exiting)) || s.pc[t].InExit?
                         then s.num - 1 else s.num)
            && (r.num != s.num ==> r.queue == s.queue)
  {
    hide RemoveAt, Insert;
  }

  lemma StaffAdd(s: State, t: Tid, grown: bool)
    requires Counted(s) && 0 < s.max && t in s.pc && s.pc[t].InAdd?
    ensures Effect(s, t, grown).num > 0
  {
    hide RemoveAt, Insert, InPool, OutsideDispatch;
    CountersBound(s);
  }

  lemma CountersBound(s: State)
    requires Counted(s)
    ensures 0 <= s.idle <= s.num <= s.max
  {
    SubsetSize(Idlers(s.pc), Members(s.pc));
  }

  /** A step keeps 'a queued task has a worker' if and only if it is not the last worker's leave. */
  lemma StaffedStepIff(s: State, e: Event)
    requires Enabled(s, e) && Counted(s) && Staffed(s) && 0 < s.max
    ensures Staffed(Step(s, e)) <==> !Strands(s, e)
  {
    hide Effect, Next, Others, Counted;
    if e.Go? {
      if s.pc[e.t].InAdd? {
        StaffAdd(s, e.t, e.grown);
      } else {
        CountersBound(s);
        StaffGo(s, e.t, e.grown);
      }
    }
  }

  lemma MaxIsKept(s: State, e: Event)
    requires Enabled(s, e)
    ensures Step(s, e).max == s.max
  {
    hide Next, Others, Members, Idlers, RemoveAt, Insert;
    if e.Go? {
      CountGo(s, e.t, e.grown);
    }
  }

  // --- a task_over caller asleep on an empty queue is about to be woken --------------------------

  ghost predicate OverSleeps(pc: map<Tid, Pc>) {
    exists t :: t in pc && pc[t].WaitOver?
  }

  ghost predicate OverOwed(pc: map<Tid, Pc>) {
    exists t :: t in pc && pc[t].OwesOver?
  }

  ghost predicate OverWoken(s: State) {
    s.queue == [] && !s.freed && OverSleeps(s.pc) ==> OverOwed(s.pc)
  }

  /** ca_threadpool_clear_task_queue empties a queue on which somebody sleeps, and broadcasts nothing. */
  ghost predicate ClearsUnderSleeper(s: State, e: Event) {
    && Enabled(s, e) && e.Go? && s.pc[e.t].InClear?
    && s.queue != [] && OverSleeps(s.pc) && !OverOwed(s.pc)
  }

  lemma OverGo(s: State, t: Tid, grown: bool)
    requires t in s.pc
    ensures Next(s, t, grown).WaitOver? ==> Effect(s, t, grown).queue != []
    ensures s.queue != [] && Effect(s, t, grown).queue == [] ==>
              Next(s, t, grown).OwesOver? || s.pc[t].InClear? || Effect(s, t, grown).freed
    ensures Next(s, t, grown).OwesOver? || s.pc[t].InClear? ==> Effect(s, t, grown).queue == []
  {
    hide RemoveAt, Insert;
    if s.queue != [] && Effect(s, t, grown).queue == [] && |s.queue| != 1 {
      assert s.pc[t].InClear? || s.pc[t].Freeing?;
    }
  }

  /** A sleeper after a step slept before it, and somebody who owed a broadcast then still owes it. */
  lemma OverSleptBefore(s: State, e: Event)
    requires Enabled(s, e) && Step(s, e).queue == [] && OverSleeps(Step(s, e).pc)
    ensures OverSleeps(s.pc)
    ensures OverOwed(s.pc) ==> OverOwed(Step(s, e).pc)
  {
    hide Effect;
    var s' := Step(s, e);
    StepOthers(s, e);
    if e.Go? {
      OverGo(s, e.t, e.grown);
    }
    var w :| w in s'.pc && s'.pc[w].WaitOver?;
    assert w != e.t && w in s.pc && s.pc[w] == s'.pc[w];
    if OverOwed(s.pc) {
      var u :| u in s.pc && s.pc[u].OwesOver?;
      assert u != e.t;
      assert u in s'.pc && s'.pc[u].OwesOver?;
    }
  }

  lemma ClearKeepsThreads(s: State, e: Event)
    requires Enabled(s, e) && e.Go? && s.pc[e.t].InClear?
    ensures OverSleeps(s.pc) ==> OverSleeps(Step(s, e).pc)
    ensures OverOwed(Step(s, e).pc) ==> OverOwed(s.pc)
    ensures !Step(s, e).freed && Step(s, e).queue == []
  {
    hide RemoveAt, Insert;
    var s' := Step(s, e);
    assert s'.pc == s.pc[e.t := Done(0)];
    if OverSleeps(s.pc) {
      var w :| w in s.pc && s.pc[w].WaitOver?;
      assert w in s'.pc && s'.pc[w].WaitOver?;
    }
  }

  /** A step keeps 'a caller asleep on an empty queue is about to be woken' if and only if it does not
      clear a queue under such a caller. */
  lemma OverWokenStepIff(s: State, e: Event)
    requires Enabled(s, e) && OverWoken(s)
    ensures OverWoken(Step(s, e)) <==> !ClearsUnderSleeper(s, e)
  {
    hide Step, Effect, Next, Others, OverSleeps;
    var s' := Step(s, e);
    if e.Go? && s.pc[e.t].InClear? {
      ClearKeepsThreads(s, e);
    }
    if s'.queue == [] && !s'.freed && OverSleeps(s'.pc) {
      OverSleptBefore(s, e);
      if s.queue != [] && !OverOwed(s.pc) {
        QueueEmptied(s, e);
      }
    }
  }

  lemma QueueEmptied(s: State, e: Event)
    requires Enabled(s, e) && s.queue != [] && Step(s, e).queue == [] && !Step(s, e).freed
    ensures e.Go? && (s.pc[e.t].InClear? || OverOwed(Step(s, e).pc))
  {
    hide Effect, Next;
    if e.Go? {
      OverGo(s, e.t, e.grown);
      assert Step(s, e).pc[e.t] == Next(s, e.t, e.grown);
    }
  }

  // --- nobody sleeps through exit ----------------------------------------------------------------

  /** Some call is about to broadcast on the condition that the workers sleep on. */
  ghost predicate WorkOwed(pc: map<Tid, Pc>) {
    Somewhere(pc, OwesExitWork) || Somewhere(pc, OwesWork)
  }

  ghost predicate ExitWakes(s: State) {
    s.exiting && !WorkOwed(s.pc) ==> !Somewhere(s.pc, WaitWork)
  }

  /** A worker that was past the test of 'exit' goes to sleep after the last broadcast, for line 47 looks
      at the queue only. */
  ghost predicate SleepsThroughExit(s: State, e: Event) {
    && Enabled(s, e) && e.Go? && s.pc[e.t].InLoop?
    && s.exiting && s.queue == [] && !WorkOwed(s.pc)
  }

  lemma SleepGo(s: State, t: Tid, grown: bool)
    requires t in s.pc
    ensures Next(s, t, grown) == WaitWork <==> s.pc[t].InLoop? && s.queue == []
  {
  }

  lemma OwesGo(s: State, t: Tid, grown: bool)
    requires t in s.pc
    ensures Next(s, t, grown) == OwesExitWork <==> s.pc[t].InSetExit?
  {
  }

  lemma FlagGo(s: State, t: Tid, grown: bool)
    requires t in s.pc
    ensures Effect(s, t, grown).exiting == (s.exiting || s.pc[t].InSetExit?)
  {
    hide RemoveAt, Insert;
  }

  /** The worker that is asleep after a step, and the broadcasts that were owed before it. */
  lemma SleeperBefore(s: State, e: Event, w: Tid)
    requires Enabled(s, e) && w in Step(s, e).pc && Step(s, e).pc[w] == WaitWork
    ensures w == e.t ==> e.Go? && s.pc[w].InLoop? && s.queue == []
    ensures w != e.t ==> w in s.pc && s.pc[w] == WaitWork
    ensures Somewhere(s.pc, OwesExitWork) ==> Somewhere(Step(s, e).pc, OwesExitWork)
    ensures Somewhere(s.pc, OwesWork) ==> Somewhere(Step(s, e).pc, OwesWork)
  {
    hide Effect;
    StepOthers(s, e);
    if e.Go? {
      SleepGo(s, e.t, e.grown);
      assert s.pc[e.t] != OwesExitWork && s.pc[e.t] != OwesWork;
    }
    hide Step, Next, Others, OthersKept;
    if Somewhere(s.pc, OwesExitWork) {
      StillThere(s, e, OwesExitWork);
    }
    if Somewhere(s.pc, OwesWork) {
      StillThere(s, e, OwesWork);
    }
  }

  /** A thread that owes a broadcast still owes it after a step of another. */
  lemma StillThere(s: State, e: Event, p: Pc)
    requires Enabled(s, e) && Somewhere(s.pc, p) && !Acquired(p).Some? && !Waits(p)
    requires e.Go? ==> s.pc[e.t] != p
    ensures Somewhere(Step(s, e).pc, p)
  {
    hide Effect, Next, Others;
    StepOthers(s, e);
    var u :| u in s.pc && s.pc[u] == p;
    assert u != e.t;
    assert u in Step(s, e).pc && Step(s, e).pc[u] == p;
  }

  /** Falling asleep makes nobody owe a broadcast. */
  lemma SleepOwesNothing(s: State, e: Event)
    requires Enabled(s, e) && e.Go? && s.pc[e.t].InLoop? && s.queue == []
    ensures WorkOwed(Step(s, e).pc) ==> WorkOwed(s.pc)
  {
    hide RemoveAt, Insert;
    var s' := Step(s, e);
    assert s'.pc == s.pc[e.t := WaitWork];
    if WorkOwed(s'.pc) {
      var u :| u in s'.pc && (s'.pc[u] == OwesExitWork || s'.pc[u] == OwesWork);
      assert u in s.pc && s.pc[u] == s'.pc[u];
    }
  }

  lemma ExitFlagStep(s: State, e: Event)
    requires Enabled(s, e)
    ensures Step(s, e).exiting == (s.exiting || (e.Go? && s.pc[e.t].InSetExit?))
    ensures e.Go? && s.pc[e.t].InSetExit? ==> Somewhere(Step(s, e).pc, OwesExitWork)
    ensures e.Go? && s.pc[e.t].InLoop? && s.queue == [] ==> Somewhere(Step(s, e).pc, WaitWork)
  {
    hide Effect, Others;
    if e.Go? {
      SleepGo(s, e.t, e.grown);
      OwesGo(s, e.t, e.grown);
      FlagGo(s, e.t, e.grown);
      assert Step(s, e).pc[e.t] == Next(s, e.t, e.grown);
    }
  }

  /** A step keeps 'after exit a sleeping worker is about to be woken' if and only if it is no such
      falling asleep. */
  lemma ExitWakesStepIff(s: State, e: Event)
    requires Enabled(s, e) && ExitWakes(s)
    ensures ExitWakes(Step(s, e)) <==> !SleepsThroughExit(s, e)
  {
    hide Step, Effect, Next, Others;
    var s' := Step(s, e);
    ExitFlagStep(s, e);
    if SleepsThroughExit(s, e) {
      SleepOwesNothing(s, e);
    }
    if Somewhere(s'.pc, WaitWork) {
      var w :| w in s'.pc && s'.pc[w] == WaitWork;
      SleeperBefore(s, e, w);
      assert w != e.t ==> Somewhere(s.pc, WaitWork);
    }
  }

  /** Whoever sleeps after exit with no broadcast owed was already past the test when exit was set. */
  ghost predicate LateSleepersKnown(s: State) {
    s.exiting && !Somewhere(s.pc, OwesExitWork) ==>
      forall u :: u in s.pc && s.pc[u] == WaitWork ==> u in s.atExit
  }

  lemma LateSleepersStep(s: State, e: Event)
    requires Enabled(s, e) && LateBounded(s) && LateSleepersKnown(s)
    ensures LateSleepersKnown(Step(s, e))
  {
    hide Step, Effect, Next, Others;
    var s' := Step(s, e);
    ExitFlagStep(s, e);
    if s'.exiting && !Somewhere(s'.pc, OwesExitWork) {
      forall u | u in s'.pc && s'.pc[u] == WaitWork ensures u in s'.atExit {
        SleeperBefore(s, e, u);
        AtExitKept(s, e);
        assert u == e.t ==> u in MayStart(s.pc);
      }
    }
  }

  lemma AtExitKept(s: State, e: Event)
    requires Enabled(s, e) && s.exiting
    ensures Step(s, e).atExit == s.atExit
  {
    hide Effect, Next, Others;
    if e.Go? {
      LateGo(s, e.t, e.grown);
    }
  }
}
