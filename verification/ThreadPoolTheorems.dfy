/** The theorems about whole runs of the thread pool. */
module ThreadPoolTheorems {
  import opened Wrappers
  import opened ThreadPool
  import opened ThreadPoolSafety
  import opened ThreadPoolTasks
  import opened ThreadPoolExit
  import opened ThreadPoolConditions

  ghost predicate Invariant(s: State) {
    && Exclusive(s) && Counted(s) && NoLostWakeup(s) && Conserved(s) && LateBounded(s)
    && LateSleepersKnown(s)
  }

  lemma {:induction false} FirstWorkersCount(n: nat)
    ensures var pc := FirstWorkers(n);
            && (forall t {:trigger t in pc} :: t in pc <==> 0 <= t < n)
            && (forall t {:trigger pc[t]} :: t in pc ==> pc[t] == Top)
            && |Members(pc)| == n && |Idlers(pc)| == n
  {
    if n == 0 {
      assert Members(FirstWorkers(0)) == {} && Idlers(FirstWorkers(0)) == {};
    } else {
      FirstWorkersCount(n - 1);
      CountAfter(FirstWorkers(n - 1), n - 1, Top);
    }
  }

  lemma CreateInvariant(init: nat, max: nat)
    requires 0 < init <= max
    ensures Invariant(Create(init, max))
  {
    FirstWorkersCount(init);
  }

  lemma InvariantStep(s: State, e: Event)
    requires Invariant(s) && Enabled(s, e)
    ensures Invariant(Step(s, e))
  {
    ExclusiveStep(s, e);
    CountedStep(s, e);
    NoLostWakeupStep(s, e);
    ConservedStep(s, e);
    LateStep(s, e);
    LateSleepersStep(s, e);
  }

  lemma {:induction false} InvariantRun(s: State, es: seq<Event>)
    requires Invariant(s) && IsRun(s, es)
    ensures Invariant(After(s, es))
    decreases |es|
  {
    if es != [] {
      InvariantStep(s, es[0]);
      InvariantRun(Step(s, es[0]), es[1..]);
    }
  }

  /** Every state that the pool can reach: mutual exclusion, exact counters, no lost wakeup, every
      task in exactly one place and started at most once, bounded work after exit. */
  lemma Reachable(init: nat, max: nat, es: seq<Event>)
    requires 0 < init <= max && IsRun(Create(init, max), es)
    ensures Invariant(After(Create(init, max), es))
  {
    CreateInvariant(init, max);
    InvariantRun(Create(init, max), es);
  }

  /** The counters of a reachable state bound each other. */
  lemma CounterBounds(init: nat, max: nat, es: seq<Event>)
    requires 0 < init <= max && IsRun(Create(init, max), es)
    ensures var s := After(Create(init, max), es); 0 <= s.idle <= s.num <= s.max
  {
    Reachable(init, max, es);
    CountersBound(After(Create(init, max), es));
  }

  /** Two threads never have the same task, no task is both queued and with a thread, and none
      was started twice. */
  lemma OnePlace(s: State, k: Task, t: Tid, u: Tid)
    requires Conserved(s)
    requires t in s.pc && Carried(s.pc[t]) == Some(k)
    ensures k !in s.queue && multiset(s.started)[k] == 1
    ensures u in s.pc && Carried(s.pc[u]) == Some(k) ==> u == t
  {
    assert s.place[k] == Held(t);
    assert multiset(s.queue)[k] == Bit(IsQueued(s, k));
    assert multiset(s.started)[k] == Bit(WasStarted(s, k));
  }

  /** A task that is finished, thrown away or refused stays so for the rest of the run, and one
      that was started is never queued again. */
  lemma {:induction false} PlacesAreFinal(s: State, es: seq<Event>, k: Task)
    requires Invariant(s) && IsRun(s, es) && k in s.place
    ensures var p, s' := s.place[k], After(s, es);
            && k in s'.place
            && (p.Finished? || p.Discarded? || p.Rejected? ==> s'.place[k] == p)
            && (p.Held? ==> s'.place[k] == p || s'.place[k].Finished?)
            && (p.Queued? ==> !s'.place[k].Pending? && !s'.place[k].Rejected?)
    decreases |es|
  {
    if es != [] {
      InvariantStep(s, es[0]);
      ConservedStep(s, es[0]);
      PlacesAreFinal(Step(s, es[0]), es[1..], k);
    }
  }

  /** In every run, at most as many tasks are started after 'exit' was set as there were workers
      at that moment, each by a different one of them. */
  lemma BoundedAfterExit(init: nat, max: nat, es: seq<Event>)
    requires 0 < init <= max && IsRun(Create(init, max), es)
    requires After(Create(init, max), es).exiting
    ensures var s := After(Create(init, max), es);
            && |s.late| <= s.numAtExit
            && (forall i, j :: 0 <= i < j < |s.late| ==> s.late[i] != s.late[j])
  {
    Reachable(init, max, es);
    LateIsFew(After(Create(init, max), es));
  }

  lemma {:induction false} AlwaysAfter(s: State, es: seq<Event>, good: State -> bool)
    requires IsRun(s, es) && Always(s, es, good)
    ensures good(After(s, es))
    decreases |es|
  {
    if es != [] {
      AlwaysAfter(Step(s, es[0]), es[1..], good);
    }
  }

  // --- properties that some steps break: exact over whole runs -----------------------------------

  lemma {:induction false} StaffedFrom(s: State, es: seq<Event>)
    requires Invariant(s) && 0 < s.max && Staffed(s) && IsRun(s, es)
    ensures Always(s, es, Staffed) <==> Never(s, es, Strands)
    decreases |es|
  {
    if es != [] {
      hide Invariant, Step, Enabled;
      StaffedOrNot(s, es[0]);
      if !Strands(s, es[0]) {
        StaffedFrom(Step(s, es[0]), es[1..]);
      } else {
        assert !Staffed(Step(s, es[0]));
      }
    }
  }

  lemma StaffedOrNot(s: State, e: Event)
    requires Invariant(s) && 0 < s.max && Staffed(s) && Enabled(s, e)
    ensures Invariant(Step(s, e)) && Step(s, e).max == s.max
    ensures Staffed(Step(s, e)) <==> !Strands(s, e)
  {
    hide Step, Enabled, Staffed, Strands;
    InvariantStep(s, e);
    MaxIsKept(s, e);
    StaffedStepIff(s, e);
  }

  /** A queued task has a worker throughout a run if and only if the last worker never leaves while
      there is work. */
  lemma StaffedIff(init: nat, max: nat, es: seq<Event>)
    requires 0 < init <= max && IsRun(Create(init, max), es)
    ensures Always(Create(init, max), es, Staffed) <==> Never(Create(init, max), es, Strands)
  {
    CreateInvariant(init, max);
    StaffedFrom(Create(init, max), es);
  }

  lemma {:induction false} OverWokenFrom(s: State, es: seq<Event>)
    requires OverWoken(s) && IsRun(s, es)
    ensures Always(s, es, OverWoken) <==> Never(s, es, ClearsUnderSleeper)
    decreases |es|
  {
    if es != [] {
      hide Step, Enabled;
      OverWokenStepIff(s, es[0]);
      if !ClearsUnderSleeper(s, es[0]) {
        OverWokenFrom(Step(s, es[0]), es[1..]);
      } else {
        assert !OverWoken(Step(s, es[0]));
      }
    }
  }

  /** A task_over caller asleep on an empty queue is about to be woken throughout a run if and only if
      no call clears a queue under one with nothing owed. */
  lemma OverWokenIff(init: nat, max: nat, es: seq<Event>)
    requires 0 < init <= max && IsRun(Create(init, max), es)
    ensures Always(Create(init, max), es, OverWoken) <==> Never(Create(init, max), es, ClearsUnderSleeper)
  {
    FirstWorkersCount(init);
    OverWokenFrom(Create(init, max), es);
  }

  lemma {:induction false} ExitWakesFrom(s: State, es: seq<Event>)
    requires ExitWakes(s) && IsRun(s, es)
    ensures Always(s, es, ExitWakes) <==> Never(s, es, SleepsThroughExit)
    decreases |es|
  {
    if es != [] {
      hide Step, Enabled;
      ExitWakesStepIff(s, es[0]);
      if !SleepsThroughExit(s, es[0]) {
        ExitWakesFrom(Step(s, es[0]), es[1..]);
      } else {
        assert !ExitWakes(Step(s, es[0]));
      }
    }
  }

  /** After exit a sleeping worker is about to be woken throughout a run if and only if no worker goes
      to sleep after the broadcast of ca_threadpool_exit. */
  lemma ExitWakesIff(init: nat, max: nat, es: seq<Event>)
    requires 0 < init <= max && IsRun(Create(init, max), es)
    ensures Always(Create(init, max), es, ExitWakes) <==> Never(Create(init, max), es, SleepsThroughExit)
  {
    ExitWakesFrom(Create(init, max), es);
  }

  lemma {:induction false} LastOneOutFrom(s: State, es: seq<Event>)
    requires Invariant(s) && LastOneOut(s) && IsRun(s, es)
    ensures Always(s, es, LastOneOut) <==> Never(s, es, LetsPass)
    decreases |es|
  {
    if es != [] {
      hide Invariant, Step, Enabled;
      LastOneOutOrNot(s, es[0]);
      if !LetsPass(s, es[0]) {
        LastOneOutFrom(Step(s, es[0]), es[1..]);
      } else {
        assert !LastOneOut(Step(s, es[0]));
      }
    }
  }

  lemma LastOneOutOrNot(s: State, e: Event)
    requires Invariant(s) && LastOneOut(s) && Enabled(s, e)
    ensures Invariant(Step(s, e))
    ensures LastOneOut(Step(s, e)) <==> !LetsPass(s, e)
  {
    hide Step, Enabled, LastOneOut, LetsPass;
    InvariantStep(s, e);
    LastOneOutStepIff(s, e);
  }

  /** No destroyer is past its wait while workers are left, throughout a run, if and only if the run
      takes none of the steps that let one pass. */
  lemma LastOneOutIff(init: nat, max: nat, es: seq<Event>)
    requires 0 < init <= max && IsRun(Create(init, max), es)
    ensures Always(Create(init, max), es, LastOneOut) <==> Never(Create(init, max), es, LetsPass)
  {
    CreateInvariant(init, max);
    FirstWorkersCount(init);
    LastOneOutFrom(Create(init, max), es);
  }

  lemma {:induction false} NonePastFrom(s: State, es: seq<Event>)
    requires Invariant(s) && NonePast(s) && IsRun(s, es)
    ensures Always(s, es, NonePast) <==> Never(s, es, Passing)
    decreases |es|
  {
    if es != [] {
      hide Invariant, Step, Enabled;
      NonePastOrNot(s, es[0]);
      if !Passing(s, es[0]) {
        NonePastFrom(Step(s, es[0]), es[1..]);
      } else {
        assert !NonePast(Step(s, es[0]));
      }
    }
  }

  lemma NonePastOrNot(s: State, e: Event)
    requires Invariant(s) && NonePast(s) && Enabled(s, e)
    ensures Invariant(Step(s, e))
    ensures NonePast(Step(s, e)) <==> !Passing(s, e)
  {
    hide Step, Enabled, NonePast, Passing;
    InvariantStep(s, e);
    NonePastStepIff(s, e);
  }

  /** No destroyer is past its wait while workers are left, throughout a run, if and only if none is woken
      unprompted or too late with workers left, and none has a worker started behind its back. */
  lemma NonePastIff(init: nat, max: nat, es: seq<Event>)
    requires 0 < init <= max && IsRun(Create(init, max), es)
    ensures Always(Create(init, max), es, NonePast) <==> Never(Create(init, max), es, Passing)
  {
    CreateInvariant(init, max);
    FirstWorkersCount(init);
    NonePastFrom(Create(init, max), es);
  }

  lemma {:induction false} NoneFreesFrom(s: State, es: seq<Event>)
    requires Invariant(s) && NoneFrees(s) && IsRun(s, es)
    ensures Always(s, es, NoneFrees) <==> Never(s, es, FreesEarly)
    decreases |es|
  {
    if es != [] {
      hide Invariant, Step, Enabled;
      NoneFreesOrNot(s, es[0]);
      if !FreesEarly(s, es[0]) {
        NoneFreesFrom(Step(s, es[0]), es[1..]);
      } else {
        assert !NoneFrees(Step(s, es[0]));
      }
    }
  }

  lemma NoneFreesOrNot(s: State, e: Event)
    requires Invariant(s) && NoneFrees(s) && Enabled(s, e)
    ensures Invariant(Step(s, e))
    ensures NoneFrees(Step(s, e)) <==> !FreesEarly(s, e)
  {
    hide Step, Enabled, NoneFrees, FreesEarly;
    InvariantStep(s, e);
    NoneFreesStepIff(s, e);
  }

  /** Throughout a run ca_threadpool_destroy frees the pool only when no worker is left, if and only if it
      never returns from its wait with workers left, and none is started between that and the free. */
  lemma DestroyAfterLastWorkerIff(init: nat, max: nat, es: seq<Event>)
    requires 0 < init <= max && IsRun(Create(init, max), es)
    ensures Always(Create(init, max), es, NoneFrees) <==> Never(Create(init, max), es, FreesEarly)
  {
    CreateInvariant(init, max);
    FirstWorkersCount(init);
    NoneFreesFrom(Create(init, max), es);
  }

  /** In particular it does so in a run in which no destroyer passes its wait with workers left. */
  lemma DestroyAfterLastWorker(init: nat, max: nat, es: seq<Event>, t: Tid)
    requires 0 < init <= max && IsRun(Create(init, max), es) && Never(Create(init, max), es, Passing)
    requires var s := After(Create(init, max), es); t in s.pc && s.pc[t] == Freeing
    ensures After(Create(init, max), es).num == 0
  {
    hide IsRun, After, Never, Create;
    NonePastIff(init, max, es);
    AlwaysAfter(Create(init, max), es, NonePast);
    assert PastTheWait(After(Create(init, max), es).pc[t]);
  }
}
