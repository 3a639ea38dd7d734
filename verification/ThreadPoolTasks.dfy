/** What becomes of the tasks: each is in one place, and each is started at most once. */
module ThreadPoolTasks {
  import opened HeapOrder
  import opened Wrappers
  import opened ThreadPool
  import opened ThreadPoolSafety

  ghost predicate IsQueued(s: State, k: Task) {
    k in s.place && s.place[k].Queued?
  }

  ghost predicate WasStarted(s: State, k: Task) {
    k in s.place && (s.place[k].Held? || s.place[k].Finished?)
  }

  /** The heap is a heap, and holds once each the tasks recorded as queued. */
  ghost predicate QueueConserved(s: State) {
    && IsHeap(BY_PRIORITY, s.queue, |s.queue|)
    && (forall k {:trigger multiset(s.queue)[k]} {:trigger k in s.place} ::
          multiset(s.queue)[k] == Bit(IsQueued(s, k)))
  }

  /** The tasks that were taken out of the queue to be run, once each. */
  ghost predicate StartsConserved(s: State) {
    forall k {:trigger multiset(s.started)[k]} {:trigger k in s.place} ::
      multiset(s.started)[k] == Bit(WasStarted(s, k))
  }

  /** A task recorded with a thread is in the hands of that thread, and the other way round. */
  ghost predicate HandsConserved(s: State) {
    && (forall t {:trigger s.pc[t]} :: t in s.pc && Carried(s.pc[t]).Some? ==>
          var k := Carried(s.pc[t]).value; k in s.place && s.place[k] == Held(t))
    && (forall t {:trigger s.pc[t]} :: t in s.pc && Offered(s.pc[t]).Some? ==>
          var k := Offered(s.pc[t]).value; k in s.place && s.place[k] == Pending(t))
    && (forall k {:trigger s.place[k]} :: k in s.place && s.place[k].Held? ==>
          var w := s.place[k].worker; w in s.pc && Carried(s.pc[w]) == Some(k))
    && (forall k {:trigger s.place[k]} :: k in s.place && s.place[k].Pending? ==>
          var c := s.place[k].caller; c in s.pc && Offered(s.pc[c]) == Some(k))
  }

  lemma PriorityOrders()
    ensures StrictWeakOrder(BY_PRIORITY)
  {
  }

  /** A task never moves back: offered, then queued or refused, then held or thrown away, then
      finished; and a task once known stays known. */
  ghost predicate Forward(p: Place, p': Place) {
    || p' == p
    || (p.Pending? && (p'.Queued? || p'.Rejected?))
    || (p.Queued? && (p'.Held? || p'.Discarded?))
    || (p.Held? && p'.Finished?)
  }

  // --- the queue -----------------------------------------------------------------------------

  lemma DispatchQueue(s: State, t: Tid)
    requires QueueConserved(s)
    ensures QueueConserved(Dispatch(s, t))
  {
    if s.queue != [] {
      var c := Cells(s.queue, map[]);
      PriorityOrders();
      RemoveOrders(BY_PRIORITY, c, 0);
      var s' := Dispatch(s, t);
      forall k
        ensures multiset(s'.queue)[k] == Bit(IsQueued(s', k))
      {
        assert multiset(s.queue)[k] == Bit(IsQueued(s, k));
      }
    }
  }

  lemma AddQueue(s: State, t: Tid, task: Task, grown: bool)
    requires QueueConserved(s)
    requires task in s.place && s.place[task] == Pending(t)
    ensures QueueConserved(Add(s, task, grown))
  {
    var s' := Add(s, task, grown);
    if grown {
      PriorityOrders();
      InsertOrders(BY_PRIORITY, Cells(s.queue, map[]), task);
    }
    forall k
      ensures multiset(s'.queue)[k] == Bit(IsQueued(s', k))
    {
      assert multiset(s.queue)[k] == Bit(IsQueued(s, k));
    }
  }

  lemma FinishQueue(s: State, t: Tid, task: Task)
    requires QueueConserved(s) && task in s.place && s.place[task] == Held(t)
    ensures QueueConserved(s.(place := s.place[task := Finished]))
  {
    var s' := s.(place := s.place[task := Finished]);
    forall k
      ensures multiset(s'.queue)[k] == Bit(IsQueued(s', k))
    {
      assert multiset(s.queue)[k] == Bit(IsQueued(s, k));
    }
  }

  lemma DiscardQueue(s: State)
    requires QueueConserved(s)
    ensures QueueConserved(Discard(s))
  {
  }

  lemma QueueGo(s: State, t: Tid, grown: bool)
    requires t in s.pc && QueueConserved(s) && HandsConserved(s)
    ensures QueueConserved(Effect(s, t, grown))
  {
    hide Dispatch, Add, Discard;
    match s.pc[t]
    case InLoop => DispatchQueue(s, t);
    case ResumedWork(_) => DispatchQueue(s, t);
    case InAdd(task) => AddQueue(s, t, task, grown);
    case Running(job) =>
      if job.Some? {
        FinishQueue(s, t, job.value);
      }
    case InClear => DiscardQueue(s);
    case Freeing => DiscardQueue(s);
    case _ =>
  }

  lemma QueueStep(s: State, e: Event)
    requires Enabled(s, e) && QueueConserved(s) && HandsConserved(s)
    ensures QueueConserved(Step(s, e))
  {
    hide Effect, Next, Others;
    var s' := Step(s, e);
    if e.Go? {
      QueueGo(s, e.t, e.grown);
      var r := Effect(s, e.t, e.grown);
      forall k
        ensures multiset(s'.queue)[k] == Bit(IsQueued(s', k))
      {
        assert multiset(r.queue)[k] == Bit(IsQueued(r, k));
      }
    } else {
      forall k
        ensures multiset(s'.queue)[k] == Bit(IsQueued(s', k))
      {
        assert multiset(s.queue)[k] == Bit(IsQueued(s, k));
      }
    }
  }

  /** What ca_threadpool's worker takes is a task of the queue, and none that stays behind has
      a smaller priority value. */
  lemma DispatchTakesLeast(s: State, t: Tid)
    requires QueueConserved(s) && s.queue != []
    ensures var s' := Dispatch(s, t);
            && s'.started == s.started + [s.queue[0]]
            && IsQueued(s, s.queue[0]) && s'.place[s.queue[0]] == Held(t)
            && multiset(s'.queue) == multiset(s.queue) - multiset{s.queue[0]}
            && (forall k :: k in s'.queue ==> s.queue[0].priority <= k.priority)
  {
    var task := s.queue[0];
    PriorityOrders();
    RemoveOrders(BY_PRIORITY, Cells(s.queue, map[]), 0);
    assert multiset(s.queue)[task] == Bit(IsQueued(s, task));
    var s' := Dispatch(s, t);
    forall k | k in s'.queue
      ensures task.priority <= k.priority
    {
      assert k in multiset(s'.queue);
      assert k in multiset(s.queue);
      var i :| 0 <= i < |s.queue| && s.queue[i] == k;
      RootIsLeast(BY_PRIORITY, s.queue, |s.queue|, i);
    }
  }

  // --- who runs what, and how often ------------------------------------------------------------

  lemma DispatchStarts(s: State, t: Tid)
    requires QueueConserved(s) && StartsConserved(s)
    ensures StartsConserved(Dispatch(s, t))
  {
    hide RemoveAt, Insert;
    if s.queue != [] {
      var s' := Dispatch(s, t);
      assert multiset(s.queue)[s.queue[0]] == Bit(IsQueued(s, s.queue[0]));
      forall k
        ensures multiset(s'.started)[k] == Bit(WasStarted(s', k))
      {
        assert multiset(s.started)[k] == Bit(WasStarted(s, k));
      }
    }
  }

  /** What one stretch of code of thread t does to the places: only tasks that t carries,
      offers, takes or throws away move. */
  ghost predicate PlacesMove(s: State, t: Tid, r: State, p: Pc) {
    && r.place.Keys == s.place.Keys
    && forall k {:trigger r.place[k]} {:trigger s.place[k]} :: k in s.place && r.place[k] != s.place[k] ==>
         && Forward(s.place[k], r.place[k])
         && (r.place[k].Held? ==> r.place[k] == Held(t) && Carried(p) == Some(k))
         && (s.place[k].Held? ==> s.place[k] == Held(t))
         && (s.place[k].Pending? ==> s.place[k] == Pending(t))
  }

  lemma PlacesDispatch(s: State, t: Tid)
    requires QueueConserved(s)
    ensures PlacesMove(s, t, Dispatch(s, t), AfterDispatch(s))
  {
    hide RemoveAt, Insert;
    if s.queue != [] {
      assert multiset(s.queue)[s.queue[0]] == Bit(IsQueued(s, s.queue[0]));
    }
  }

  /** The same, for code that takes nothing out of the queue to run it. */
  ghost predicate PlacesShift(s: State, t: Tid, r: State) {
    && r.started == s.started
    && r.place.Keys == s.place.Keys
    && forall k {:trigger r.place[k]} {:trigger s.place[k]} :: k in s.place && r.place[k] != s.place[k] ==>
         && Forward(s.place[k], r.place[k])
         && !r.place[k].Held?
         && (s.place[k].Held? ==> s.place[k] == Held(t))
         && (s.place[k].Pending? ==> s.place[k] == Pending(t))
  }

  lemma PlacesHands(s: State, t: Tid, grown: bool)
    requires t in s.pc && HandsConserved(s)
    requires s.pc[t].Running? || s.pc[t].InAdd?
    ensures PlacesShift(s, t, Effect(s, t, grown))
  {
    hide RemoveAt, Insert;
    match s.pc[t]
    case Running(job) => assert job.Some? ==> s.place[job.value] == Held(t);
    case InAdd(task) => assert s.place[task] == Pending(t);
  }

  lemma PlacesElsewhere(s: State, t: Tid, grown: bool)
    requires t in s.pc && HandsConserved(s)
    requires !(s.pc[t].InLoop? || s.pc[t].ResumedWork?)
    ensures PlacesShift(s, t, Effect(s, t, grown))
  {
    hide RemoveAt, Insert;
    if s.pc[t].Running? || s.pc[t].InAdd? {
      PlacesHands(s, t, grown);
    }
  }

  lemma PlacesGo(s: State, t: Tid, grown: bool)
    requires t in s.pc && QueueConserved(s) && HandsConserved(s)
    ensures PlacesMove(s, t, Effect(s, t, grown), Next(s, t, grown))
  {
    hide RemoveAt, Insert;
    if s.pc[t].InLoop? || s.pc[t].ResumedWork? {
      PlacesDispatch(s, t);
    } else {
      PlacesElsewhere(s, t, grown);
    }
  }

  lemma StartsGo(s: State, t: Tid, grown: bool)
    requires t in s.pc && QueueConserved(s) && StartsConserved(s) && HandsConserved(s)
    ensures StartsConserved(Effect(s, t, grown))
  {
    hide RemoveAt, Insert;
    var r := Effect(s, t, grown);
    if s.pc[t].InLoop? || s.pc[t].ResumedWork? {
      DispatchStarts(s, t);
    } else {
      PlacesElsewhere(s, t, grown);
      forall k
        ensures multiset(r.started)[k] == Bit(WasStarted(r, k))
      {
        assert multiset(s.started)[k] == Bit(WasStarted(s, k));
        if k in s.place {
          assert Forward(s.place[k], r.place[k]);
        }
      }
    }
  }

  lemma StartsStep(s: State, e: Event)
    requires Enabled(s, e) && QueueConserved(s) && StartsConserved(s) && HandsConserved(s)
    ensures StartsConserved(Step(s, e))
  {
    hide Effect, Next, Others;
    var s' := Step(s, e);
    var r := if e.Go? then Effect(s, e.t, e.grown) else s;
    if e.Go? {
      StartsGo(s, e.t, e.grown);
    }
    forall k
      ensures multiset(s'.started)[k] == Bit(WasStarted(s', k))
    {
      assert multiset(r.started)[k] == Bit(WasStarted(r, k));
    }
  }

  // --- everything together -------------------------------------------------------------------

  ghost predicate Conserved(s: State) {
    QueueConserved(s) && StartsConserved(s) && HandsConserved(s)
  }

  /** What the acting thread has in hand afterwards is recorded with it, and what it had in
      hand and has no longer is recorded elsewhere. */
  ghost predicate HandsMove(s: State, t: Tid, r: State, p: Pc)
    requires t in s.pc
  {
    && Offered(p) == None
    && (Carried(p).Some? ==> var k := Carried(p).value; k in r.place && r.place[k] == Held(t))
    && (Carried(s.pc[t]).Some? && Carried(p) != Carried(s.pc[t]) ==>
          var k := Carried(s.pc[t]).value; k in r.place && r.place[k] == Finished)
    && (s.pc[t].InAdd? ==> var k := s.pc[t].task; k in r.place && !r.place[k].Pending?)
  }

  lemma HandsOfWorker(s: State, t: Tid, grown: bool)
    requires t in s.pc && HandsConserved(s)
    requires s.pc[t].InLoop? || s.pc[t].ResumedWork?
    ensures HandsMove(s, t, Effect(s, t, grown), Next(s, t, grown))
  {
    hide RemoveAt, Insert;
  }

  lemma HandsOfRunner(s: State, t: Tid, grown: bool)
    requires t in s.pc && HandsConserved(s)
    requires s.pc[t].OwesOver? || s.pc[t].Running? || s.pc[t].InAdd?
    ensures HandsMove(s, t, Effect(s, t, grown), Next(s, t, grown))
  {
    hide RemoveAt, Insert;
    assert Carried(s.pc[t]).Some? ==> s.place[Carried(s.pc[t]).value] == Held(t);
    assert Offered(s.pc[t]).Some? ==> s.place[Offered(s.pc[t]).value] == Pending(t);
  }

  lemma HandsOfOthers(s: State, t: Tid, grown: bool)
    requires t in s.pc
    requires !(s.pc[t].InLoop? || s.pc[t].ResumedWork?)
    requires !(s.pc[t].OwesOver? || s.pc[t].Running? || s.pc[t].InAdd?)
    ensures HandsMove(s, t, Effect(s, t, grown), Next(s, t, grown))
  {
    hide RemoveAt, Insert;
  }

  lemma CarriedGo(s: State, t: Tid, grown: bool)
    requires t in s.pc && HandsConserved(s)
    ensures HandsMove(s, t, Effect(s, t, grown), Next(s, t, grown))
  {
    if s.pc[t].InLoop? || s.pc[t].ResumedWork? {
      HandsOfWorker(s, t, grown);
    } else if s.pc[t].OwesOver? || s.pc[t].Running? || s.pc[t].InAdd? {
      HandsOfRunner(s, t, grown);
    } else {
      HandsOfOthers(s, t, grown);
    }
  }

  /** What the step leaves to other threads stays recorded with them. */
  lemma HandsOfBystander(s: State, t: Tid, s': State, u: Tid)
    requires t in s.pc && t in s'.pc && HandsConserved(s)
    requires OthersKept(s.pc, s'.pc, t) && PlacesMove(s, t, s', s'.pc[t])
    requires Offered(s.pc[t]).Some? ==> s.pc[t].InAdd?
    requires u in s'.pc && u != t
    ensures Carried(s'.pc[u]).Some? ==> var k := Carried(s'.pc[u]).value; k in s'.place && s'.place[k] == Held(u)
    ensures Offered(s'.pc[u]).Some? ==> var k := Offered(s'.pc[u]).value; k in s'.place && s'.place[k] == Pending(u)
  {
    if u in s.pc {
      assert Carried(s.pc[u]) == Carried(s'.pc[u]) && Offered(s.pc[u]) == Offered(s'.pc[u]);
      hide OthersKept, Carried, Offered, Forward;
      if Carried(s.pc[u]).Some? {
        assert s.place[Carried(s.pc[u]).value] == Held(u);
      }
      if Offered(s.pc[u]).Some? {
        assert s.place[Offered(s.pc[u]).value] == Pending(u);
      }
    }
  }

  lemma HandsOfHeld(s: State, t: Tid, s': State, k: Task)
    requires t in s.pc && t in s'.pc && HandsConserved(s)
    requires OthersKept(s.pc, s'.pc, t)
    requires PlacesMove(s, t, s', s'.pc[t]) && HandsMove(s, t, s', s'.pc[t])
    requires k in s'.place && s'.place[k].Held?
    ensures var w := s'.place[k].worker; w in s'.pc && Carried(s'.pc[w]) == Some(k)
  {
    if s'.place[k] == s.place[k] {
      var w := s.place[k].worker;
      assert w in s.pc && Carried(s.pc[w]) == Some(k);
      assert w in s'.pc;
    }
  }

  lemma HandsOfPending(s: State, t: Tid, s': State, k: Task)
    requires t in s.pc && t in s'.pc && HandsConserved(s)
    requires OthersKept(s.pc, s'.pc, t)
    requires PlacesMove(s, t, s', s'.pc[t]) && HandsMove(s, t, s', s'.pc[t])
    requires Offered(s.pc[t]).Some? ==> s.pc[t].InAdd?
    requires k in s'.place && s'.place[k].Pending?
    ensures var c := s'.place[k].caller; c in s'.pc && Offered(s'.pc[c]) == Some(k)
  {
    assert s'.place[k] == s.place[k];
    var c := s.place[k].caller;
    assert c in s.pc && Offered(s.pc[c]) == Some(k);
    assert c in s'.pc;
  }

  /** HandsConserved after a step, from what it says of the acting thread and of the rest. */
  lemma HandsFromParts(s: State, t: Tid, s': State)
    requires t in s.pc && t in s'.pc && HandsConserved(s)
    requires OthersKept(s.pc, s'.pc, t)
    requires PlacesMove(s, t, s', s'.pc[t]) && HandsMove(s, t, s', s'.pc[t])
    requires Offered(s.pc[t]).Some? ==> s.pc[t].InAdd?
    ensures HandsConserved(s')
  {
    forall u | u in s'.pc && u != t
      ensures Carried(s'.pc[u]).Some? ==> var k := Carried(s'.pc[u]).value; k in s'.place && s'.place[k] == Held(u)
      ensures Offered(s'.pc[u]).Some? ==> var k := Offered(s'.pc[u]).value; k in s'.place && s'.place[k] == Pending(u)
    {
      HandsOfBystander(s, t, s', u);
    }
    forall k | k in s'.place && s'.place[k].Held?
      ensures var w := s'.place[k].worker; w in s'.pc && Carried(s'.pc[w]) == Some(k)
    {
      HandsOfHeld(s, t, s', k);
    }
    forall k | k in s'.place && s'.place[k].Pending?
      ensures var c := s'.place[k].caller; c in s'.pc && Offered(s'.pc[c]) == Some(k)
    {
      HandsOfPending(s, t, s', k);
    }
    assert Offered(s'.pc[t]) == None;
    assert Carried(s'.pc[t]).Some? ==>
        (var k := Carried(s'.pc[t]).value; k in s'.place && s'.place[k] == Held(t));
    hide OthersKept, PlacesMove, HandsMove, Carried, Offered;
  }

  lemma HandsBegin(s: State, e: Event)
    requires Enabled(s, e) && e.Begin? && HandsConserved(s)
    ensures HandsConserved(Step(s, e))
  {
    hide Effect, Next, Others;
    assert forall k :: k in s.place && s.place[k].Held? ==> s.place[k].worker in s.pc;
    assert forall k :: k in s.place && s.place[k].Pending? ==> s.place[k].caller in s.pc;
  }

  lemma HandsQuiet(s: State, e: Event)
    requires Enabled(s, e) && (e.Lock? || e.Wake?) && HandsConserved(s)
    ensures HandsConserved(Step(s, e))
  {
    hide Effect, Next, Others;
    var s' := Step(s, e);
    assert Carried(s'.pc[e.t]) == Carried(s.pc[e.t]) && Offered(s'.pc[e.t]) == Offered(s.pc[e.t]);
  }

  lemma HandsGo(s: State, e: Event)
    requires Enabled(s, e) && e.Go? && QueueConserved(s) && HandsConserved(s)
    ensures HandsConserved(Step(s, e))
  {
    hide Effect, Next, Others, QueueConserved;
    PlacesGo(s, e.t, e.grown);
    CarriedGo(s, e.t, e.grown);
    StepOthers(s, e);
    HandsFromParts(s, e.t, Step(s, e));
  }

  lemma HandsStep(s: State, e: Event)
    requires Enabled(s, e) && QueueConserved(s) && HandsConserved(s)
    ensures HandsConserved(Step(s, e))
  {
    if e.Go? {
      HandsGo(s, e);
    } else if e.Begin? {
      HandsBegin(s, e);
    } else {
      HandsQuiet(s, e);
    }
  }

  lemma ConservedStep(s: State, e: Event)
    requires Enabled(s, e) && Conserved(s)
    ensures Conserved(Step(s, e))
    ensures forall k :: k in s.place ==> k in Step(s, e).place && Forward(s.place[k], Step(s, e).place[k])
  {
    hide RemoveAt, Insert;
    QueueStep(s, e);
    StartsStep(s, e);
    HandsStep(s, e);
    if e.Go? {
      PlacesGo(s, e.t, e.grown);
    }
  }
}
