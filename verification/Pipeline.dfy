/** The sampling thread, the submitting thread and the shutdown of src/ca_acquisition.c as steps
    over their shared queues. A step ends at every unlock, so that the two threads interleave in
    every way the mutexes allow. */
module Pipeline {
  import opened BatchQueues

  datatype Producer<N, B> = Sampling | Got(node: N, batch: B) | Filled(node: N) | ProducerGone
  datatype Consumer<N> = Polling | Sending(node: N) | Sent(node: N) | ConsumerGone

  datatype State<N, B> = State(
    q: Shared<N>,
    item: map<N, B>,            // what each node carries
    producer: Producer<N, B>, consumer: Consumer<N>,
    quit: bool, over: bool,
    known: set<N>,              // every node ever allocated
    released: set<N>,           // the nodes given back to the allocator
    made: seq<B>,               // the batches put into the task queue, in order
    submitted: seq<B>,          // the batches handed to ca_select_submit, in order
    dropped: seq<B>)            // the batches thrown away at shutdown

  datatype Event<N, B> =
    | Sample(batch: B, spare: N)   // ca_acq_data_get; spare is what the allocator returns if it is asked
    | Fill                         // data->json = json
    | Insert                       // ca_acq_task_insert
    | Take                         // ca_acq_task_get
    | Submit                       // ca_select_submit, whether it succeeds or not
    | PutBack                      // ca_acq_data_put
    | Quit                         // the signal handler
    | StopProducer | StopConsumer  // the checks of ca_quit and ca_terminate
    | Deinit                       // ca_acq_data_deinit, after both joins

  ghost predicate InitialState<N(!new), B>(s: State<N, B>) {
    && s.q == Shared([], [], 0, 0, s.q.maxFree) && s.item == map[]
    && s.producer == Sampling && s.consumer == Polling && !s.quit && !s.over
    && s.known == {} && s.released == {} && s.made == [] && s.submitted == [] && s.dropped == []
  }

  predicate Enabled<N(==), B>(s: State<N, B>, e: Event<N, B>) {
    match e
    case Sample(_, n) => s.producer.Sampling? && (s.q.free == [] ==> n !in s.known || n in s.released)
    case Fill => s.producer.Got?
    case Insert => s.producer.Filled?
    case Take => s.consumer.Polling?
    case Submit => s.consumer.Sending? && s.consumer.node in s.item
    case PutBack => s.consumer.Sent?
    case Quit => true
    case StopProducer => s.quit && s.producer.Sampling?
    case StopConsumer => s.quit && s.consumer.Polling?
    case Deinit => s.producer.ProducerGone? && s.consumer.ConsumerGone? && !s.over
  }

  function Items<N(==), B>(s: State<N, B>, nodes: seq<N>): seq<B>
    requires forall k :: 0 <= k < |nodes| ==> nodes[k] in s.item
  {
    seq(|nodes|, k requires 0 <= k < |nodes| => s.item[nodes[k]])
  }

  function Elements<N(==)>(s: seq<N>): set<N> {
    set n | n in s
  }

  predicate Carried<N(==), B>(s: State<N, B>) {
    forall k :: 0 <= k < |s.q.tasks| ==> s.q.tasks[k] in s.item
  }

  function Step<N(==), B>(s: State<N, B>, e: Event<N, B>): State<N, B>
    requires Enabled(s, e) && Carried(s)
  {
    match e
    case Sample(b, n) =>
      if s.q.free != [] then s.(q := DataTaken(s.q), producer := Got(s.q.free[0], b))
      else s.(q := DataTaken(s.q), producer := Got(n, b), known := s.known + {n}, released := s.released - {n})
    case Fill =>
      s.(item := s.item[s.producer.node := s.producer.batch], producer := Filled(s.producer.node))
    case Insert =>
      s.(q := TaskAdded(s.q, s.producer.node), producer := Sampling,
      made := if s.producer.node in s.item then s.made + [s.item[s.producer.node]] else s.made)
    case Take =>
      s.(q := TaskTaken(s.q), consumer := if s.q.tasks == [] then Polling else Sending(s.q.tasks[0]))
    case Submit =>
      s.(submitted := s.submitted + [s.item[s.consumer.node]], consumer := Sent(s.consumer.node))
    case PutBack =>
      s.(q := DataReturned(s.q, s.consumer.node), consumer := Polling,
      released := if Kept(s.q.nfree, s.q.maxFree) then s.released else s.released + {s.consumer.node})
    case Quit => s.(quit := true)
    case StopProducer => s.(producer := ProducerGone)
    case StopConsumer => s.(consumer := ConsumerGone)
    case Deinit =>
      s.(q := Emptied(s.q), released := s.released + Elements(s.q.free) + Elements(s.q.tasks),
      dropped := Items(s, s.q.tasks), over := true)
  }

  // --- invariants --------------------------------------------------------------------------

  function One(b: bool): nat {
    if b then 1 else 0
  }

  predicate ProducerHolds<N(==), B>(s: State<N, B>, n: N) {
    (s.producer.Got? || s.producer.Filled?) && s.producer.node == n
  }

  predicate ConsumerHolds<N(==), B>(s: State<N, B>, n: N) {
    (s.consumer.Sending? || s.consumer.Sent?) && s.consumer.node == n
  }

  /** In how many places a node is. */
  function Places<N(==), B>(s: State<N, B>, n: N): nat {
    multiset(s.q.free)[n] + multiset(s.q.tasks)[n] + One(ProducerHolds(s, n)) + One(ConsumerHolds(s, n))
    + One(n in s.released)
  }

  /** An allocated node is in exactly one place, any other node nowhere. */
  ghost predicate Placed<N, B>(s: State<N, B>, n: N) {
    Places(s, n) == One(n in s.known)
  }

  ghost predicate Owned<N(!new), B>(s: State<N, B>) {
    forall n :: Placed(s, n)
  }

  predicate Counted<N, B>(s: State<N, B>) {
    s.q.nfree == |s.q.free| && s.q.ntask == |s.q.tasks| && s.q.nfree <= AtLeastOne(s.q.maxFree)
  }

  /** What the submitting thread has taken but not yet handed on. */
  function InHand<N(==), B>(s: State<N, B>): seq<B> {
    if s.consumer.Sending? && s.consumer.node in s.item then [s.item[s.consumer.node]] else []
  }

  predicate Ready<N(==), B>(s: State<N, B>) {
    && Carried(s)
    && (s.producer.Filled? ==> s.producer.node in s.item)
    && (s.consumer.Sending? ==> s.consumer.node in s.item)
    && (s.over ==> s.q.free == [] && s.q.tasks == [] && s.producer.ProducerGone? && s.consumer.ConsumerGone?)
    && (!s.over ==> s.dropped == [])
    && (s.producer.ProducerGone? || s.consumer.ConsumerGone? ==> s.quit)
  }

  /** The batches leave in the order they came in, none lost, none twice. */
  predicate InOrder<N(==), B(==)>(s: State<N, B>)
    requires Carried(s)
  {
    s.made == s.submitted + InHand(s) + Items(s, s.q.tasks) + s.dropped
  }

  ghost predicate Invariant<N(!new), B>(s: State<N, B>) {
    Owned(s) && Counted(s) && Ready(s) && InOrder(s)
  }

  // --- preservation ------------------------------------------------------------------------

  lemma HeadCount<N>(s: seq<N>, n: N)
    requires s != []
    ensures multiset(s)[n] == One(s[0] == n) + multiset(s[1..])[n]
  {
    assert s == [s[0]] + s[1..];
  }

  lemma ElementCount<N>(s: seq<N>, n: N)
    ensures n in Elements(s) <==> multiset(s)[n] > 0
  {
    assert n in multiset(s) <==> n in s;
  }

  lemma PlacedSample<N, B>(s: State<N, B>, e: Event<N, B>, n: N)
    requires e.Sample? && Carried(s) && Enabled(s, e) && Placed(s, n) && Placed(s, e.spare)
    ensures Placed(Step(s, e), n)
  {
    hide Carried;
    if s.q.free != [] {
      HeadCount(s.q.free, n);
    }
  }

  lemma PlacedInsert<N, B>(s: State<N, B>, e: Event<N, B>, n: N)
    requires e.Insert? && Carried(s) && Enabled(s, e) && Placed(s, n)
    ensures Placed(Step(s, e), n)
  {
    hide Carried;
    assert multiset(s.q.tasks + [s.producer.node])[n] == multiset(s.q.tasks)[n] + One(s.producer.node == n);
  }

  lemma PlacedTake<N, B>(s: State<N, B>, e: Event<N, B>, n: N)
    requires e.Take? && Carried(s) && Enabled(s, e) && Placed(s, n)
    ensures Placed(Step(s, e), n)
  {
    hide Carried;
    if s.q.tasks != [] {
      HeadCount(s.q.tasks, n);
    }
  }

  lemma PlacedPutBack<N, B>(s: State<N, B>, e: Event<N, B>, n: N)
    requires e.PutBack? && Carried(s) && Enabled(s, e) && Placed(s, n)
    ensures Placed(Step(s, e), n)
  {
    hide Carried;
    assert multiset([s.consumer.node] + s.q.free)[n] == One(s.consumer.node == n) + multiset(s.q.free)[n];
  }

  lemma PlacedDeinit<N, B>(s: State<N, B>, e: Event<N, B>, n: N)
    requires e.Deinit? && Carried(s) && Enabled(s, e) && Placed(s, n)
    ensures Placed(Step(s, e), n)
  {
    ElementCount(s.q.free, n);
    ElementCount(s.q.tasks, n);
  }

  lemma PlacedOther<N, B>(s: State<N, B>, e: Event<N, B>, n: N)
    requires e.Fill? || e.Submit? || e.Quit? || e.StopProducer? || e.StopConsumer?
    requires Carried(s) && Enabled(s, e) && Placed(s, n)
    ensures Placed(Step(s, e), n)
  {
    hide Carried;
  }

  lemma OwnedStep<N(!new), B>(s: State<N, B>, e: Event<N, B>)
    requires Owned(s) && Carried(s) && Enabled(s, e)
    ensures Owned(Step(s, e))
  {
    hide Step, Enabled, Carried;
    forall n ensures Placed(Step(s, e), n) {
      assert Placed(s, n);
      match e
      case Sample(_, spare) =>
        assert Placed(s, spare);
        PlacedSample(s, e, n);
      case Insert => PlacedInsert(s, e, n);
      case Take => PlacedTake(s, e, n);
      case PutBack => PlacedPutBack(s, e, n);
      case Deinit => PlacedDeinit(s, e, n);
      case _ => PlacedOther(s, e, n);
    }
  }

  lemma CountedStep<N, B>(s: State<N, B>, e: Event<N, B>)
    requires Counted(s) && Carried(s) && Enabled(s, e)
    ensures Counted(Step(s, e))
  {
  }

  /** The node being filled carries nothing that is still in the pipeline. */
  lemma FillingIsApart<N(!new), B>(s: State<N, B>)
    requires Owned(s) && s.producer.Got?
    ensures s.producer.node !in s.q.tasks && !ConsumerHolds(s, s.producer.node)
  {
    assert Placed(s, s.producer.node);
    assert s.producer.node in s.q.tasks ==> multiset(s.q.tasks)[s.producer.node] > 0;
  }

  lemma ReadyStep<N(!new), B>(s: State<N, B>, e: Event<N, B>)
    requires Owned(s) && Ready(s) && Enabled(s, e)
    ensures Ready(Step(s, e))
  {
    var t := Step(s, e);
    if e.Insert? {
      forall k | 0 <= k < |t.q.tasks| ensures t.q.tasks[k] in t.item {
        assert k < |s.q.tasks| ==> t.q.tasks[k] == s.q.tasks[k];
      }
    }
  }

  lemma SameItems<N, B>(s: State<N, B>, t: State<N, B>)
    requires Carried(s) && t.q.tasks == s.q.tasks && t.item == s.item
    ensures Carried(t) && Items(t, t.q.tasks) == Items(s, s.q.tasks)
  {
  }

  lemma InOrderFill<N(!new), B>(s: State<N, B>, e: Event<N, B>)
    requires e.Fill? && Owned(s) && Ready(s) && InOrder(s) && Enabled(s, e) && Ready(Step(s, e))
    ensures InOrder(Step(s, e))
  {
    FillingIsApart(s);
    hide Owned;
    assert Items(Step(s, e), s.q.tasks) == Items(s, s.q.tasks);
  }

  lemma InOrderInsert<N, B>(s: State<N, B>, e: Event<N, B>)
    requires e.Insert? && Ready(s) && InOrder(s) && Enabled(s, e) && Ready(Step(s, e))
    ensures InOrder(Step(s, e))
  {
    var t := Step(s, e);
    assert s.dropped == [] && t.dropped == [];
    assert Items(t, t.q.tasks) == Items(s, s.q.tasks) + [s.item[s.producer.node]];
  }

  lemma InOrderTake<N, B>(s: State<N, B>, e: Event<N, B>)
    requires e.Take? && Ready(s) && InOrder(s) && Enabled(s, e) && Ready(Step(s, e))
    ensures InOrder(Step(s, e))
  {
    if s.q.tasks != [] {
      assert Items(s, s.q.tasks) == [s.item[s.q.tasks[0]]] + Items(Step(s, e), s.q.tasks[1..]);
    }
  }

  lemma InOrderDeinit<N, B>(s: State<N, B>, e: Event<N, B>)
    requires e.Deinit? && Ready(s) && InOrder(s) && Enabled(s, e) && Ready(Step(s, e))
    ensures InOrder(Step(s, e))
  {
    assert s.dropped == [] && Items(Step(s, e), []) == [];
  }

  lemma InOrderOther<N, B>(s: State<N, B>, e: Event<N, B>)
    requires e.Sample? || e.Submit? || e.PutBack? || e.Quit? || e.StopProducer? || e.StopConsumer?
    requires Ready(s) && InOrder(s) && Enabled(s, e) && Ready(Step(s, e))
    ensures InOrder(Step(s, e))
  {
    SameItems(s, Step(s, e));
    hide Items, Carried;
  }

  lemma InOrderStep<N(!new), B>(s: State<N, B>, e: Event<N, B>)
    requires Owned(s) && Ready(s) && InOrder(s) && Enabled(s, e) && Ready(Step(s, e))
    ensures InOrder(Step(s, e))
  {
    hide Owned, InOrder, Step, Enabled;
    match e
    case Fill => InOrderFill(s, e);
    case Insert => InOrderInsert(s, e);
    case Take => InOrderTake(s, e);
    case Deinit => InOrderDeinit(s, e);
    case _ => InOrderOther(s, e);
  }

  // --- runs --------------------------------------------------------------------------------

  predicate IsRun<N(==), B(==)>(s: State<N, B>, run: seq<Event<N, B>>)
    decreases |run|
  {
    run == [] || (Enabled(s, run[0]) && Carried(s) && IsRun(Step(s, run[0]), run[1..]))
  }

  function After<N(==), B(==)>(s: State<N, B>, run: seq<Event<N, B>>): State<N, B>
    requires IsRun(s, run)
    decreases |run|
  {
    if run == [] then s else After(Step(s, run[0]), run[1..])
  }

  lemma InvariantStep<N(!new), B>(s: State<N, B>, e: Event<N, B>)
    requires Invariant(s) && Enabled(s, e)
    ensures Invariant(Step(s, e))
  {
    hide Owned, Counted, InOrder, Step;
    OwnedStep(s, e);
    CountedStep(s, e);
    ReadyStep(s, e);
    InOrderStep(s, e);
  }

  lemma {:induction false} InvariantAfter<N(!new), B>(s: State<N, B>, run: seq<Event<N, B>>)
    requires Invariant(s) && IsRun(s, run)
    ensures Invariant(After(s, run))
    decreases |run|
  {
    if run != [] {
      hide Owned, Counted, InOrder, Step;
      InvariantStep(s, run[0]);
      InvariantAfter(Step(s, run[0]), run[1..]);
    }
  }

  /** The invariant holds in every state of every run. */
  lemma Reachable<N(!new), B>(start: State<N, B>, run: seq<Event<N, B>>)
    requires InitialState(start) && IsRun(start, run)
    ensures Invariant(After(start, run))
  {
    assert Items(start, start.q.tasks) == [];
    InvariantAfter(start, run);
  }

  /** Each node is in exactly one of the free list, the task queue, a thread's hands, and the
      allocator; the counters are the queue lengths and the free list is bounded. */
  lemma BatchOwnership<N(!new), B>(start: State<N, B>, run: seq<Event<N, B>>, n: N)
    requires InitialState(start) && IsRun(start, run)
    ensures var s := After(start, run);
            && (n in s.known ==>
                  multiset(s.q.free)[n] + multiset(s.q.tasks)[n] + One(ProducerHolds(s, n)) + One(ConsumerHolds(s, n))
                  + One(n in s.released) == 1)
            && s.q.nfree == |s.q.free| && s.q.ntask == |s.q.tasks|
            && s.q.nfree <= if s.q.maxFree == 0 then 1 else s.q.maxFree
  {
    var s := After(start, run);
    Reachable(start, run);
    assert Placed(s, n);
  }

  /** What was submitted is a prefix of what was made; the rest is queued or in hand, or, after the
      shutdown, dropped, with no node left unreleased; and nothing is dropped without a quit. */
  lemma BatchesInOrder<N(!new), B>(start: State<N, B>, run: seq<Event<N, B>>)
    requires InitialState(start) && IsRun(start, run)
    ensures var s := After(start, run);
            && Carried(s) && s.made == s.submitted + InHand(s) + Items(s, s.q.tasks) + s.dropped
            && s.submitted <= s.made
            && (s.over ==> s.made == s.submitted + s.dropped && s.known == s.released)
            && (s.dropped != [] ==> s.quit)
  {
    var s := After(start, run);
    Reachable(start, run);
    if s.over {
      assert Items(s, s.q.tasks) == [];
      forall n ensures n in s.known <==> n in s.released {
        assert Placed(s, n);
      }
    }
  }

  // --- nothing gets stuck --------------------------------------------------------------------

  /** The submitting thread going round so often. */
  function Rounds<N, B>(n: nat): seq<Event<N, B>> {
    if n == 0 then [] else [Take, Submit, PutBack] + Rounds(n - 1)
  }

  lemma RunOne<N(!new), B>(s: State<N, B>, e: Event<N, B>, rest: seq<Event<N, B>>)
    requires Invariant(s) && Enabled(s, e)
    ensures Invariant(Step(s, e))
    ensures IsRun(Step(s, e), rest) ==>
              IsRun(s, [e] + rest) && After(s, [e] + rest) == After(Step(s, e), rest)
  {
    hide Owned, Counted, InOrder, Step, Enabled;
    InvariantStep(s, e);
    assert ([e] + rest)[1..] == rest;
  }

  /** One round moves the first batch from the queue to what was submitted. */
  lemma RoundRuns<N(!new), B>(s: State<N, B>, rest: seq<Event<N, B>>) returns (t: State<N, B>)
    requires Invariant(s) && s.consumer.Polling? && s.q.tasks != []
    ensures Invariant(t) && t.consumer.Polling? && t.q.tasks == s.q.tasks[1..] && t.made == s.made
    ensures |t.submitted| == |s.submitted| + 1
    ensures IsRun(t, rest) ==>
              IsRun(s, [Take, Submit, PutBack] + rest) && After(s, [Take, Submit, PutBack] + rest) == After(t, rest)
  {
    var s1 := Step(s, Take);
    assert s.q.tasks[0] in s.item;
    assert Enabled(s1, Submit);
    var s2 := Step(s1, Submit);
    t := Step(s2, PutBack);
    hide Owned, Counted, InOrder, Step, Enabled, Ready;
    RunOne(s, Take, [Submit] + ([PutBack] + rest));
    RunOne(s1, Submit, [PutBack] + rest);
    RunOne(s2, PutBack, rest);
    assert [Take, Submit, PutBack] + rest == [Take] + ([Submit] + ([PutBack] + rest));
  }

  /** From any state of any run in which the submitting thread waits for work, going round as often as there are
      batches on the queue submits all that were made. */
  lemma {:induction false} Drains<N(!new), B>(s: State<N, B>)
    requires Invariant(s) && s.consumer.Polling?
    ensures var run := Rounds(|s.q.tasks|);
            && IsRun(s, run)
            && After(s, run).q.tasks == [] && After(s, run).submitted == s.made && After(s, run).made == s.made
    decreases |s.q.tasks|
  {
    if s.q.tasks == [] {
      assert Items(s, s.q.tasks) == [];
    } else {
      var t := RoundRuns(s, Rounds(|s.q.tasks| - 1));
      hide Invariant;
      Drains(t);
    }
  }

  /** From any state in which the sampling thread is free, three steps put a new batch at the end of the queue. */
  lemma Delivers<N(!new), B>(s: State<N, B>, b: B, spare: N)
    requires Invariant(s) && Enabled(s, Sample(b, spare))
    ensures var run := [Sample(b, spare), Fill, Insert];
            && IsRun(s, run)
            && After(s, run).made == s.made + [b] && After(s, run).producer.Sampling?
            && |After(s, run).q.tasks| == |s.q.tasks| + 1 && s.q.tasks <= After(s, run).q.tasks
  {
    hide *;
    var s1 := DeliveryStarts(s, b, spare);
    InvariantStep(s, Sample(b, spare));
    var s2 := Step(s1, Fill);
    InvariantStep(s1, Fill);
    var t := Step(s2, Insert);
    var last: seq<Event<N, B>>, none: seq<Event<N, B>> := [Insert], [];
    NoStep(t);
    assert last == last + none;
    RunOne(s2, Insert, none);
    RunOne(s1, Fill, last);
    RunOne(s, Sample(b, spare), [Fill] + last);
    assert [Sample(b, spare), Fill, Insert] == [Sample(b, spare)] + ([Fill] + last);
  }

  lemma NoStep<N, B>(s: State<N, B>)
    ensures IsRun(s, []) && After(s, []) == s
  {
  }

  lemma DeliveryStarts<N(!new), B>(s: State<N, B>, b: B, spare: N) returns (s1: State<N, B>)
    requires Invariant(s) && Enabled(s, Sample(b, spare))
    ensures Carried(s) && s1 == Step(s, Sample(b, spare)) && Enabled(s1, Fill) && Carried(s1)
    ensures var s2 := Step(s1, Fill);
            && Enabled(s2, Insert) && Carried(s2)
            && var t := Step(s2, Insert);
               && t.made == s.made + [b] && t.producer.Sampling?
               && |t.q.tasks| == |s.q.tasks| + 1 && s.q.tasks <= t.q.tasks
  {
    s1 := Step(s, Sample(b, spare));
    hide Owned, Counted, InOrder;
  }
}
