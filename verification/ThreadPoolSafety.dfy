/** What every step of the thread pool keeps, hence what holds in every reachable state. */
module ThreadPoolSafety {
  import opened HeapOrder
  import opened Wrappers
  import opened ThreadPool

  // --- what one step may do to the other threads ---------------------------------------------

  /** Threads other than the acting one stay where they are, or are taken out of a wait set by
      a broadcast; at most one thread is new besides the acting one, and it starts at the top. */
  ghost predicate OthersKept(pc: map<Tid, Pc>, pc': map<Tid, Pc>, t: Tid) {
    && t in pc'
    && (forall u {:trigger u in pc'} :: u in pc && u != t ==>
          u in pc' && (pc'[u] == pc[u] || (Waits(pc[u]) && pc'[u] == Woken(pc[u], false))))
    && (forall u :: u in pc' && u != t && u !in pc ==> pc'[u] == Top)
  }

  lemma OverBroadcastKeeps(pc: map<Tid, Pc>, t: Tid, p: Pc)
    ensures OthersKept(pc, BroadcastOver(pc)[t := p], t)
  {
  }

  lemma ExitBroadcastKeeps(pc: map<Tid, Pc>, t: Tid, p: Pc)
    ensures OthersKept(pc, BroadcastExit(pc)[t := p], t)
  {
  }

  lemma WorkBroadcastKeeps(pc: map<Tid, Pc>, t: Tid, p: Pc)
    ensures OthersKept(pc, BroadcastWork(pc)[t := p], t)
  {
  }

  lemma OthersOfGo(s: State, t: Tid, spawn: Tid, p: Pc)
    requires t in s.pc && (s.pc[t].InAdd? ==> spawn !in s.pc)
    ensures OthersKept(s.pc, Others(s, t, spawn)[t := p], t)
  {
    OverBroadcastKeeps(s.pc, t, p);
    ExitBroadcastKeeps(s.pc, t, p);
    WorkBroadcastKeeps(s.pc, t, p);
    hide BroadcastOver, BroadcastExit, BroadcastWork, Waits, Woken;
  }

  lemma StepOthers(s: State, e: Event)
    requires Enabled(s, e)
    ensures OthersKept(s.pc, Step(s, e).pc, e.t)
  {
    hide RemoveAt, Insert;
    if e.Go? {
      OthersOfGo(s, e.t, e.spawn, Next(s, e.t, e.grown));
    }
  }

  lemma NextReleases(s: State, t: Tid, grown: bool)
    requires t in s.pc
    ensures !Holds(Next(s, t, grown))
  {
    hide RemoveAt, Insert;
  }

  lemma StepMutex(s: State, e: Event)
    requires Enabled(s, e)
    ensures var s' := Step(s, e);
            && e.t in s'.pc
            && (Holds(s'.pc[e.t]) <==> e.Lock?)
            && s'.mutex == if e.Lock? then Some(e.t)
                           else if e.t in s.pc && Holds(s.pc[e.t]) then None else s.mutex
  {
    hide Effect, Next, Others;
    if e.Go? {
      NextReleases(s, e.t, e.grown);
    }
  }

  // --- mutual exclusion ----------------------------------------------------------------------

  ghost predicate Exclusive(s: State) {
    && (forall t :: t in s.pc && Holds(s.pc[t]) ==> s.mutex == Some(t))
    && (s.mutex.Some? ==> s.mutex.value in s.pc && Holds(s.pc[s.mutex.value]))
  }

  lemma ExclusiveStep(s: State, e: Event)
    requires Exclusive(s) && Enabled(s, e)
    ensures Exclusive(Step(s, e))
  {
    hide RemoveAt, Insert;
    StepOthers(s, e);
    StepMutex(s, e);
    var s' := Step(s, e);
    forall u | u in s'.pc && Holds(s'.pc[u])
      ensures s'.mutex == Some(u)
    {
      if u != e.t {
        assert u in s.pc && s'.pc[u] == s.pc[u];
      }
    }
  }

  // --- counters ------------------------------------------------------------------------------

  ghost predicate Counted(s: State) {
    && s.num == |Members(s.pc)|
    && s.idle == |Idlers(s.pc)|
    && s.num <= s.max
  }

  function Bit(b: bool): int {
    if b then 1 else 0
  }

  lemma SetAfter(pc: map<Tid, Pc>, t: Tid, p: Pc)
    ensures Members(pc[t := p]) == if InPool(p) then Members(pc) + {t} else Members(pc) - {t}
    ensures Idlers(pc[t := p]) == if OutsideDispatch(p) then Idlers(pc) + {t} else Idlers(pc) - {t}
    ensures t in Members(pc) <==> t in pc && InPool(pc[t])
    ensures t in Idlers(pc) <==> t in pc && OutsideDispatch(pc[t])
  {
    hide InPool, OutsideDispatch;
  }

  lemma CountAfter(pc: map<Tid, Pc>, t: Tid, p: Pc)
    ensures |Members(pc[t := p])| == |Members(pc)| + Bit(InPool(p)) - Bit(t in pc && InPool(pc[t]))
    ensures |Idlers(pc[t := p])| == |Idlers(pc)| + Bit(OutsideDispatch(p)) - Bit(t in pc && OutsideDispatch(pc[t]))
  {
    hide InPool, OutsideDispatch, Members, Idlers;
    SetAfter(pc, t, p);
  }

  lemma CountOthers(s: State, t: Tid, spawn: Tid)
    requires t in s.pc && (s.pc[t].InAdd? ==> spawn !in s.pc)
    ensures var pc' := Others(s, t, spawn);
            && t in pc' && pc'[t] == s.pc[t]
            && |Members(pc')| == |Members(s.pc)| + Bit(s.pc[t].InAdd? && Spawns(s))
            && |Idlers(pc')| == |Idlers(s.pc)| + Bit(s.pc[t].InAdd? && Spawns(s))
  {
    hide RemoveAt, Insert;
    if s.pc[t].InAdd? {
      CountAfter(s.pc, spawn, Top);
    } else {
      var pc' := Others(s, t, spawn);
      assert Members(pc') == Members(s.pc);
      assert Idlers(pc') == Idlers(s.pc);
    }
  }

  /** The counters move exactly with the acting thread and the thread it starts. */
  ghost predicate CountsMove(s: State, t: Tid, grown: bool)
    requires t in s.pc
  {
    var r, p := Effect(s, t, grown), Next(s, t, grown);
    var started := Bit(s.pc[t].InAdd? && Spawns(s));
    && r.num == s.num + started + Bit(InPool(p)) - Bit(InPool(s.pc[t]))
    && r.idle == s.idle + started + Bit(OutsideDispatch(p)) - Bit(OutsideDispatch(s.pc[t]))
    && r.max == s.max
  }

  lemma CountDispatch(s: State, t: Tid, grown: bool)
    requires t in s.pc && (s.pc[t].InLoop? || s.pc[t].ResumedWork?)
    ensures CountsMove(s, t, grown)
  {
    hide RemoveAt, Insert;
  }

  lemma CountAdd(s: State, t: Tid, grown: bool)
    requires t in s.pc && s.pc[t].InAdd?
    ensures CountsMove(s, t, grown)
  {
    hide RemoveAt, Insert;
  }

  lemma CountElsewhere(s: State, t: Tid, grown: bool)
    requires t in s.pc && Acquired(s.pc[t]) == None && !Waits(s.pc[t]) && !s.pc[t].Done?
    requires !(s.pc[t].InLoop? || s.pc[t].ResumedWork? || s.pc[t].InAdd?)
    ensures CountsMove(s, t, grown)
  {
    hide RemoveAt, Insert;
  }

  lemma CountGo(s: State, t: Tid, grown: bool)
    requires t in s.pc && Acquired(s.pc[t]) == None && !Waits(s.pc[t]) && !s.pc[t].Done?
    ensures CountsMove(s, t, grown)
  {
    if s.pc[t].InLoop? || s.pc[t].ResumedWork? {
      CountDispatch(s, t, grown);
    } else if s.pc[t].InAdd? {
      CountAdd(s, t, grown);
    } else {
      CountElsewhere(s, t, grown);
    }
  }

  lemma NextStaysOut(s: State, t: Tid, grown: bool)
    requires t in s.pc && Acquired(s.pc[t]) == None && !Waits(s.pc[t]) && !s.pc[t].Done?
    ensures InPool(Next(s, t, grown)) ==> InPool(s.pc[t])
  {
  }

  lemma CountedStep(s: State, e: Event)
    requires Counted(s) && Enabled(s, e)
    ensures Counted(Step(s, e))
  {
    hide Effect, Next, Others, Members, Idlers;
    if e.Go? {
      CountOthers(s, e.t, e.spawn);
      CountGo(s, e.t, e.grown);
      NextStaysOut(s, e.t, e.grown);
      CountAfter(Others(s, e.t, e.spawn), e.t, Next(s, e.t, e.grown));
    } else {
      CountAfter(s.pc, e.t, Step(s, e).pc[e.t]);
    }
  }

  /** When a task goes into the queue, some worker is outside the dispatch window or there are
      as many workers as there may be. */
  lemma InsertionFindsAWorker(s: State, e: Event)
    requires Counted(s) && Enabled(s, e)
    requires e.Go? && s.pc[e.t].InAdd?
    ensures Step(s, e).idle >= 1 || Step(s, e).num == Step(s, e).max
  {
  }

  // --- no lost wakeup ------------------------------------------------------------------------

  ghost predicate Somewhere(pc: map<Tid, Pc>, p: Pc) {
    exists t :: t in pc && pc[t] == p
  }

  /** A worker asleep while there is work is about to be woken by the broadcast that some
      ca_threadpool_add_task still owes, and a destroyer asleep while no worker is left by that of the
      last worker. */
  ghost predicate NoLostWakeup(s: State) {
    && (s.queue != [] && Somewhere(s.pc, WaitWork) ==> Somewhere(s.pc, OwesWork))
    && (forall timed :: s.num == 0 && Somewhere(s.pc, WaitExit(timed)) ==> Somewhere(s.pc, OwesExit))
  }

  lemma WorkWakeupGo(s: State, t: Tid, grown: bool)
    requires t in s.pc
    ensures Next(s, t, grown) == WaitWork ==> Effect(s, t, grown).queue == []
    ensures s.queue == [] && Effect(s, t, grown).queue != [] ==> Next(s, t, grown) == OwesWork
  {
    hide RemoveAt, Insert;
  }

  lemma WorkWakeupStep(s: State, e: Event, w: Tid)
    requires Enabled(s, e)
    requires s.queue != [] && Somewhere(s.pc, WaitWork) ==> Somewhere(s.pc, OwesWork)
    requires var s' := Step(s, e); s'.queue != [] && w in s'.pc && s'.pc[w] == WaitWork
    ensures Somewhere(Step(s, e).pc, OwesWork)
  {
    hide Effect;
    var s' := Step(s, e);
    StepOthers(s, e);
    if e.Go? {
      WorkWakeupGo(s, e.t, e.grown);
    }
    assert w != e.t && w in s.pc && s.pc[w] == WaitWork;
    if s.queue == [] {
      assert s'.pc[e.t] == OwesWork;
    } else {
      var u :| u in s.pc && s.pc[u] == OwesWork;
      assert u != e.t;
      assert u in s'.pc && s'.pc[u] == OwesWork;
    }
  }

  lemma ExitWaitGo(s: State, t: Tid, grown: bool)
    requires t in s.pc
    ensures Next(s, t, grown).WaitExit? ==> Effect(s, t, grown).num != 0
  {
  }

  lemma ExitWakeupGo(s: State, t: Tid, grown: bool)
    requires t in s.pc && s.num > 0
    ensures Effect(s, t, grown).num == 0 ==> Next(s, t, grown) == OwesExit
  {
    hide RemoveAt, Insert;
    if Effect(s, t, grown).num == 0 {
      assert s.pc[t].ResumedWork? || s.pc[t].InExit?;
    }
  }

  lemma ExitWakeupStep(s: State, e: Event, w: Tid)
    requires Enabled(s, e) && s.num >= 0
    requires forall timed :: s.num == 0 && Somewhere(s.pc, WaitExit(timed)) ==> Somewhere(s.pc, OwesExit)
    requires var s' := Step(s, e); s'.num == 0 && w in s'.pc && s'.pc[w].WaitExit?
    ensures Somewhere(Step(s, e).pc, OwesExit)
  {
    hide Effect;
    var s' := Step(s, e);
    StepOthers(s, e);
    if e.Go? {
      ExitWaitGo(s, e.t, e.grown);
      if s.num > 0 {
        ExitWakeupGo(s, e.t, e.grown);
      }
    }
    assert w != e.t && w in s.pc && s.pc[w] == s'.pc[w];
    if s.num != 0 {
      assert s'.pc[e.t] == OwesExit;
    } else {
      assert Somewhere(s.pc, WaitExit(s.pc[w].timed));
      var u :| u in s.pc && s.pc[u] == OwesExit;
      assert u != e.t;
      assert u in s'.pc && s'.pc[u] == OwesExit;
    }
  }

  lemma NoLostWakeupStep(s: State, e: Event)
    requires NoLostWakeup(s) && Counted(s) && Enabled(s, e)
    ensures NoLostWakeup(Step(s, e))
  {
    var s' := Step(s, e);
    if s'.queue != [] && Somewhere(s'.pc, WaitWork) {
      var w :| w in s'.pc && s'.pc[w] == WaitWork;
      WorkWakeupStep(s, e, w);
    }
    forall timed | s'.num == 0 && Somewhere(s'.pc, WaitExit(timed))
      ensures Somewhere(s'.pc, OwesExit)
    {
      var w :| w in s'.pc && s'.pc[w] == WaitExit(timed);
      ExitWakeupStep(s, e, w);
    }
  }
}
