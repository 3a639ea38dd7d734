/** Shutting the pool down: how much work may still begin, and when the pool may be freed. */
module ThreadPoolExit {
  import opened HeapOrder
  import opened ThreadPool
  import opened ThreadPoolSafety

  // --- work that begins after exit ------------------------------------------------------------

  /** Once 'exit' is set, only workers that were already past the test of 'exit' may still
      take a task, each at most one: a worker that took one is never past that test again. */
  ghost predicate LateBounded(s: State) {
    && (!s.exiting ==> s.late == [])
    && (s.exiting ==>
          && |s.atExit| <= s.numAtExit
          && MayStart(s.pc) <= s.atExit
          && (forall i :: 0 <= i < |s.late| ==> s.late[i] in s.atExit && s.late[i] !in MayStart(s.pc))
          && (forall i, j :: 0 <= i < j < |s.late| ==> s.late[i] != s.late[j]))
  }

  lemma NoNewStarters(s: State, t: Tid, grown: bool)
    requires t in s.pc
    ensures var p := Next(s, t, grown);
            !p.InLoop? && (p.LockLoop? ==> !s.exiting && s.pc[t] == Top)
  {
    hide RemoveAt, Insert;
  }

  lemma LateGo(s: State, t: Tid, grown: bool)
    requires t in s.pc
    ensures var r := Effect(s, t, grown);
            && (s.exiting ==> r.exiting && r.atExit == s.atExit && r.numAtExit == s.numAtExit)
            && (r.late == s.late || (s.exiting && s.pc[t].InLoop? && r.late == s.late + [t]))
  {
    hide RemoveAt, Insert;
  }

  lemma ExitGo(s: State, t: Tid, grown: bool)
    requires t in s.pc && !s.exiting && Effect(s, t, grown).exiting
    ensures var r := Effect(s, t, grown);
            s.pc[t].InSetExit? && r.atExit == MayStart(s.pc) && r.numAtExit == s.num && r.late == s.late
  {
    hide RemoveAt, Insert;
  }

  lemma MayStartShrinks(s: State, e: Event)
    requires Enabled(s, e)
    requires e.Go? ==> !Next(s, e.t, e.grown).LockLoop? && !Next(s, e.t, e.grown).InLoop?
    ensures MayStart(Step(s, e).pc) <= MayStart(s.pc)
    ensures e.Go? ==> e.t !in MayStart(Step(s, e).pc)
  {
    hide Effect, Next, Others;
    StepOthers(s, e);
    var s' := Step(s, e);
    forall u | u in MayStart(s'.pc)
      ensures u in MayStart(s.pc)
    {
      if u != e.t {
        assert u in s.pc;
      }
    }
  }

  lemma MayStartAreMembers(pc: map<Tid, Pc>)
    ensures |MayStart(pc)| <= |Members(pc)|
  {
    SubsetSize(MayStart(pc), Members(pc));
  }

  lemma {:induction false} SubsetSize(a: set<Tid>, b: set<Tid>)
    requires a <= b
    ensures |a| <= |b|
  {
    if a != {} {
      var x :| x in a;
      SubsetSize(a - {x}, b - {x});
    }
  }

  lemma LateStep(s: State, e: Event)
    requires Enabled(s, e) && Counted(s) && LateBounded(s)
    ensures LateBounded(Step(s, e))
  {
    hide Effect, Next, Others;
    var s' := Step(s, e);
    if e.Go? {
      LateGo(s, e.t, e.grown);
      NoNewStarters(s, e.t, e.grown);
    }
    if s'.exiting {
      if !s.exiting {
        ExitGo(s, e.t, e.grown);
        MayStartShrinks(s, e);
        MayStartAreMembers(s.pc);
      } else {
        MayStartShrinks(s, e);
      }
    }
  }

  /** At most as many tasks begin after exit as there were workers when it was set. */
  lemma LateIsFew(s: State)
    requires LateBounded(s) && s.exiting
    ensures |s.late| <= s.numAtExit
  {
    DistinctIn(s.late, s.atExit);
  }

  lemma {:induction false} DistinctIn(q: seq<Tid>, a: set<Tid>)
    requires forall i :: 0 <= i < |q| ==> q[i] in a
    requires forall i, j :: 0 <= i < j < |q| ==> q[i] != q[j]
    ensures |q| <= |a|
  {
    if q != [] {
      DistinctIn(q[1..], a - {q[0]});
    }
  }

  // --- when destroy may go on -----------------------------------------------------------------

  predicate PastTheWait(p: Pc) {
    p == WokenExit(false) || p == ResumedExit(false) || p == Freeing
  }

  predicate Destroys(p: Pc) {
    p.WaitExit? || p.WokenExit? || p.ResumedExit? || p.Freeing?
  }

  ghost predicate LastOneOut(s: State) {
    && (forall u :: u in s.pc && Destroys(s.pc[u]) ==> s.exiting)
    && (s.exiting && s.num != 0 ==> !SomePasses(s.pc))
  }

  /** The steps that let ca_threadpool_destroy pass its wait with workers left: an insertion after exit
      that starts a worker while the last one still owes its broadcast or the destroyer is already past
      its wait, a wakeup of the destroyer that no broadcast caused while workers are left, and setting
      'exit' with workers left while an earlier last worker still owes its broadcast. */
  ghost predicate LetsPass(s: State, e: Event) {
    && Enabled(s, e)
    && match e
       case Wake(t, timedOut) => s.pc[t].WaitExit? && !timedOut && s.num != 0
       case Go(t, _, _) =>
         || (s.pc[t].InAdd? && s.exiting && Spawns(s) && s.num == 0 && SomePasses(s.pc))
         || (s.pc[t].InSetExit? && !s.exiting && s.num != 0 && Somewhere(s.pc, OwesExit))
       case _ => false
  }

  ghost predicate SomePasses(pc: map<Tid, Pc>) {
    exists u :: u in pc && Passes(pc[u])
  }

  predicate Passes(p: Pc) {
    p == OwesExit || PastTheWait(p)
  }

  lemma DestroyGo(s: State, t: Tid, grown: bool)
    requires t in s.pc
    ensures var p := Next(s, t, grown);
            && (Destroys(p) ==> s.exiting || Destroys(s.pc[t]))
            && (s.num != 0 && PastTheWait(p) ==> PastTheWait(s.pc[t]))
  {
    hide RemoveAt, Insert;
  }

  lemma LastOneGo(s: State, t: Tid, grown: bool)
    requires t in s.pc
    ensures s.exiting ==> Effect(s, t, grown).exiting
    ensures !s.pc[t].InAdd? ==> Effect(s, t, grown).num <= s.num
  {
    hide RemoveAt, Insert;
  }

  lemma OwesExitGo(s: State, t: Tid, grown: bool)
    requires t in s.pc && Next(s, t, grown) == OwesExit
    ensures Effect(s, t, grown).num == 0
  {
    hide RemoveAt, Insert;
  }

  lemma ExitFlagGo(s: State, t: Tid, grown: bool)
    requires t in s.pc && !s.exiting && Effect(s, t, grown).exiting
    ensures s.pc[t].InSetExit? && Next(s, t, grown) == OwesExitWork
  {
    hide RemoveAt, Insert;
  }

  lemma DestroyersAfterExit(s: State, e: Event, u: Tid)
    requires Enabled(s, e) && LastOneOut(s)
    requires var s' := Step(s, e); u in s'.pc && Destroys(s'.pc[u])
    ensures Step(s, e).exiting
  {
    hide Effect, Next, Others;
    StepOthers(s, e);
    if e.Go? {
      LastOneGo(s, e.t, e.grown);
      DestroyGo(s, e.t, e.grown);
    }
    if u != e.t {
      assert u in s.pc && Destroys(s.pc[u]);
    }
  }

  lemma OthersStayIn(s: State, e: Event, u: Tid)
    requires Enabled(s, e) && LastOneOut(s) && !LetsPass(s, e)
    requires var s' := Step(s, e); s'.exiting && s'.num != 0 && u in s'.pc && u != e.t
    requires s.num != 0
    ensures !Passes(Step(s, e).pc[u])
  {
    hide Effect, Next;
    StepOthers(s, e);
    if u in s.pc {
      if e.Go? {
        WakesDestroyer(s, e.t, e.spawn, u);
        if !s.exiting {
          ExitFlagGo(s, e.t, e.grown);
        }
      }
    }
  }

  lemma ActorStaysIn(s: State, e: Event)
    requires Enabled(s, e) && LastOneOut(s) && !LetsPass(s, e)
    requires var s' := Step(s, e); s.num != 0 && s'.exiting && s'.num != 0
    ensures !Passes(Step(s, e).pc[e.t])
  {
    hide Effect, Next, Others;
    if e.Go? {
      if Next(s, e.t, e.grown) == OwesExit {
        OwesExitGo(s, e.t, e.grown);
      }
      DestroyGo(s, e.t, e.grown);
      if !s.exiting {
        ExitFlagGo(s, e.t, e.grown);
      }
    }
  }

  /** An insertion and the setting of 'exit' leave the other threads where they are. */
  lemma CallKeepsThread(s: State, e: Event, u: Tid)
    requires Enabled(s, e) && e.Go? && (s.pc[e.t].InAdd? || s.pc[e.t].InSetExit?)
    requires u in s.pc && u != e.t
    ensures u in Step(s, e).pc && Step(s, e).pc[u] == s.pc[u]
  {
    hide Effect, Next;
  }

  lemma CallEffect(s: State, e: Event)
    requires Enabled(s, e) && e.Go?
    ensures s.pc[e.t].InAdd? ==> Step(s, e).exiting == s.exiting && Step(s, e).num == s.num + Bit(Spawns(s))
    ensures s.pc[e.t].InSetExit? ==> Step(s, e).exiting && Step(s, e).num == s.num
  {
    hide RemoveAt, Insert, Next, Others;
  }

  /** From no worker to some, only by an insertion that starts one. */
  lemma FirstAgain(s: State, e: Event)
    requires Enabled(s, e) && Counted(s) && s.num == 0 && Step(s, e).num != 0
    ensures e.Go? && s.pc[e.t].InAdd? && Spawns(s) && Step(s, e).exiting == s.exiting
    ensures SomePasses(Step(s, e).pc) ==> SomePasses(s.pc)
  {
    hide Effect, Next, Others, SomePasses;
    CountedStep(s, e);
    if e.Go? {
      LastOneGo(s, e.t, e.grown);
      CallEffect(s, e);
      if s.pc[e.t].InAdd? && SomePasses(Step(s, e).pc) {
        AddLetsNonePass(s, e);
      }
    }
  }

  lemma AddReturns(s: State, e: Event)
    requires Enabled(s, e) && e.Go? && s.pc[e.t].InAdd?
    ensures e.t in Step(s, e).pc && !Passes(Step(s, e).pc[e.t])
  {
    hide Effect, Others;
  }

  lemma AddLetsNonePass(s: State, e: Event)
    requires Enabled(s, e) && e.Go? && s.pc[e.t].InAdd? && SomePasses(Step(s, e).pc)
    ensures SomePasses(s.pc)
  {
    StepOthers(s, e);
    AddReturns(s, e);
    hide Step, Effect, Next, Others;
    var u :| u in Step(s, e).pc && Passes(Step(s, e).pc[u]);
    if u in s.pc {
      CallKeepsThread(s, e, u);
    }
  }

  /** A destroyer is taken out of the wait set only by the broadcast of a last worker. */
  lemma WakesDestroyer(s: State, t: Tid, spawn: Tid, u: Tid)
    requires t in s.pc
    ensures u in s.pc && s.pc[u].WaitExit? && s.pc[t] != OwesExit ==>
              u in Others(s, t, spawn) && (Others(s, t, spawn)[u] == s.pc[u] || u == spawn)
  {
    hide RemoveAt, Insert;
  }

  lemma LastOneOutKept(s: State, e: Event)
    requires Enabled(s, e) && Counted(s) && LastOneOut(s) && !LetsPass(s, e)
    ensures LastOneOut(Step(s, e))
  {
    hide Step, Enabled, Effect, Next, Others, Counted;
    var s' := Step(s, e);
    forall u | u in s'.pc && Destroys(s'.pc[u]) ensures s'.exiting {
      DestroyersAfterExit(s, e, u);
    }
    if s'.exiting && s'.num != 0 && SomePasses(s'.pc) {
      if s.num == 0 {
        FirstAgain(s, e);
      } else {
        var u :| u in s'.pc && Passes(s'.pc[u]);
        if u == e.t {
          ActorStaysIn(s, e);
        } else {
          OthersStayIn(s, e, u);
        }
      }
    }
  }

  /** Each of those steps does let somebody pass, or get ready to. */
  lemma LetsPassBreaks(s: State, e: Event)
    requires Enabled(s, e) && LastOneOut(s) && LetsPass(s, e)
    ensures !LastOneOut(Step(s, e))
  {
    hide Effect, Next, Others;
    var s' := Step(s, e);
    if e.Wake? {
      assert Destroys(s.pc[e.t]);
      assert s'.pc[e.t] == WokenExit(false) && Passes(s'.pc[e.t]);
    } else {
      assert SomePasses(s.pc) && !Passes(s.pc[e.t]);
      var u :| u in s.pc && Passes(s.pc[u]);
      CallEffect(s, e);
      CallKeepsThread(s, e, u);
    }
  }

  /** A step keeps 'no destroyer is past its wait while workers are left' if and only if it is none
      of those. */
  lemma LastOneOutStepIff(s: State, e: Event)
    requires Enabled(s, e) && Counted(s) && LastOneOut(s)
    ensures LastOneOut(Step(s, e)) <==> !LetsPass(s, e)
  {
    if LetsPass(s, e) {
      LetsPassBreaks(s, e);
    } else {
      LastOneOutKept(s, e);
    }
  }

  // --- who has passed -------------------------------------------------------------------------

  ghost predicate SomePast(pc: map<Tid, Pc>) {
    exists u :: u in pc && PastTheWait(pc[u])
  }

  /** No destroyer is past its wait while workers are left. */
  ghost predicate NonePast(s: State) {
    s.num != 0 ==> !SomePast(s.pc)
  }

  /** The steps by which one is: it is woken by nobody, or by a last worker's broadcast that comes too
      late, with workers left; or an insertion starts a worker behind its back. */
  ghost predicate Passing(s: State, e: Event) {
    && Enabled(s, e)
    && match e
       case Wake(t, timedOut) => s.pc[t].WaitExit? && !timedOut && s.num != 0
       case Go(t, _, _) =>
         || (s.pc[t] == OwesExit && s.num != 0 && SomeDestroyerWaits(s.pc))
         || (s.pc[t].InAdd? && Spawns(s) && s.num == 0 && SomePast(s.pc))
       case _ => false
  }

  ghost predicate SomeDestroyerWaits(pc: map<Tid, Pc>) {
    exists u :: u in pc && pc[u].WaitExit?
  }

  /** A thread that is past the wait after a step of another was so before, or slept and was woken by a
      last worker's broadcast. */
  lemma PastBefore(s: State, e: Event, u: Tid)
    requires Enabled(s, e) && u in Step(s, e).pc && u != e.t && PastTheWait(Step(s, e).pc[u])
    ensures u in s.pc
    ensures PastTheWait(s.pc[u]) || (e.Go? && s.pc[e.t] == OwesExit && s.pc[u].WaitExit?)
  {
    hide Effect, Next;
    StepOthers(s, e);
    if e.Go? && u in s.pc {
      WakesDestroyer(s, e.t, e.spawn, u);
    }
  }

  /** The thread that acts gets past the wait only unprompted, or when no worker is left. */
  lemma ActorPast(s: State, e: Event)
    requires Enabled(s, e) && e.t in Step(s, e).pc && PastTheWait(Step(s, e).pc[e.t]) && s.num != 0
    ensures (e.t in s.pc && PastTheWait(s.pc[e.t])) || (e.Wake? && s.pc[e.t].WaitExit? && !e.timedOut)
  {
    hide Effect, Next, Others;
    if e.Go? {
      DestroyGo(s, e.t, e.grown);
    }
  }

  lemma NonePastKept(s: State, e: Event)
    requires Enabled(s, e) && Counted(s) && NonePast(s) && !Passing(s, e)
    ensures NonePast(Step(s, e))
  {
    hide Step, Enabled, Effect, Next, Others, Counted, PastTheWait;
    var s' := Step(s, e);
    if s'.num != 0 && SomePast(s'.pc) {
      var u :| u in s'.pc && PastTheWait(s'.pc[u]);
      if s.num == 0 {
        FirstAgain(s, e);
        AddedBehind(s, e, u);
      } else if u == e.t {
        ActorPast(s, e);
      } else {
        PastBefore(s, e, u);
      }
    }
  }

  lemma AddedBehind(s: State, e: Event, u: Tid)
    requires Enabled(s, e) && e.Go? && s.pc[e.t].InAdd?
    requires u in Step(s, e).pc && PastTheWait(Step(s, e).pc[u])
    ensures SomePast(s.pc)
  {
    hide RemoveAt, Insert;
    assert u != e.t;
    PastBefore(s, e, u);
  }

  lemma PassingBreaks(s: State, e: Event)
    requires Enabled(s, e) && Passing(s, e)
    ensures !NonePast(Step(s, e))
  {
    hide RemoveAt, Insert;
    var s' := Step(s, e);
    if e.Wake? {
      assert s'.pc[e.t] == WokenExit(false) && PastTheWait(s'.pc[e.t]);
    } else if s.pc[e.t].InAdd? {
      var u :| u in s.pc && PastTheWait(s.pc[u]);
      CallEffect(s, e);
      CallKeepsThread(s, e, u);
    } else {
      var u :| u in s.pc && s.pc[u].WaitExit?;
      assert u in s'.pc && s'.pc[u] == WokenExit(false) && PastTheWait(s'.pc[u]);
    }
  }

  /** A step keeps 'no destroyer is past its wait while workers are left' if and only if it is none of
      those. */
  lemma NonePastStepIff(s: State, e: Event)
    requires Enabled(s, e) && Counted(s) && NonePast(s)
    ensures NonePast(Step(s, e)) <==> !Passing(s, e)
  {
    if Passing(s, e) {
      PassingBreaks(s, e);
    } else {
      NonePastKept(s, e);
    }
  }

  // --- who frees the pool ---------------------------------------------------------------------

  /** Nobody is about to free the pool while workers are left. */
  ghost predicate NoneFrees(s: State) {
    s.num != 0 ==> !Somewhere(s.pc, Freeing)
  }

  /** The steps by which somebody is: the return from the wait with workers left, or an insertion that
      starts one after it. */
  ghost predicate FreesEarly(s: State, e: Event) {
    && Enabled(s, e) && e.Go?
    && ((s.pc[e.t] == ResumedExit(false) && s.num != 0)
        || (s.pc[e.t].InAdd? && Spawns(s) && s.num == 0 && Somewhere(s.pc, Freeing)))
  }

  lemma FreeingGo(s: State, t: Tid, grown: bool)
    requires t in s.pc && Next(s, t, grown) == Freeing
    ensures s.pc[t] == ResumedExit(false) || (s.num == 0 && Effect(s, t, grown).num == 0)
  {
    hide RemoveAt, Insert;
  }

  lemma FreeingBefore(s: State, e: Event, u: Tid)
    requires Enabled(s, e) && u in Step(s, e).pc && Step(s, e).pc[u] == Freeing
    ensures u != e.t ==> u in s.pc && s.pc[u] == Freeing
    ensures u == e.t ==> e.Go? && (s.pc[u] == ResumedExit(false) || (s.num == 0 && Step(s, e).num == 0))
  {
    hide Effect, Others;
    StepOthers(s, e);
    if e.Go? && u == e.t {
      FreeingGo(s, e.t, e.grown);
    }
  }

  lemma ReturnFrees(s: State, e: Event)
    requires Enabled(s, e) && e.Go? && s.pc[e.t] == ResumedExit(false)
    ensures Step(s, e).num == s.num && Somewhere(Step(s, e).pc, Freeing)
  {
    hide RemoveAt, Insert;
    assert Step(s, e).pc[e.t] == Freeing;
  }

  lemma AddKeepsFreeing(s: State, e: Event)
    requires Enabled(s, e) && e.Go? && s.pc[e.t].InAdd? && Spawns(s) && Somewhere(s.pc, Freeing)
    ensures Step(s, e).num == s.num + 1 && Somewhere(Step(s, e).pc, Freeing)
  {
    hide Effect, Next, Others;
    var u :| u in s.pc && s.pc[u] == Freeing;
    CallEffect(s, e);
    CallKeepsThread(s, e, u);
  }

  /** A step keeps 'nobody is about to free the pool while workers are left' if and only if it is none of
      those. */
  lemma NoneFreesStepIff(s: State, e: Event)
    requires Enabled(s, e) && Counted(s) && NoneFrees(s)
    ensures NoneFrees(Step(s, e)) <==> !FreesEarly(s, e)
  {
    hide Step, Effect, Next, Others, Counted;
    var s' := Step(s, e);
    if FreesEarly(s, e) {
      if s.pc[e.t].InAdd? {
        AddKeepsFreeing(s, e);
      } else {
        ReturnFrees(s, e);
      }
    } else if s'.num != 0 && Somewhere(s'.pc, Freeing) {
      var u :| u in s'.pc && s'.pc[u] == Freeing;
      FreeingBefore(s, e, u);
      if s.num == 0 {
        FirstAgain(s, e);
      }
    }
  }
}
