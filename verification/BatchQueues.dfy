/** The two queues of src/ca_acquisition.c between the sampling and the submitting thread. Every
    method is one critical section. */
module BatchQueues {
  import opened TailQueue
  import opened Wrappers

  /** Whether a node that comes back stays on the free list. */
  predicate Kept(nfree: int, maxFree: nat) {
    nfree == 0 || nfree + 1 <= maxFree
  }

  function AtLeastOne(maxFree: nat): nat {
    if maxFree == 0 then 1 else maxFree
  }

  /** The two queues with their counters, and what each critical section makes of them. */
  datatype Shared<N> = Shared(free: seq<N>, tasks: seq<N>, nfree: int, ntask: int, maxFree: nat)

  function TaskTaken<N>(q: Shared<N>): Shared<N> {
    if q.tasks == [] then q else q.(tasks := q.tasks[1..], ntask := q.ntask - 1)
  }

  function TaskAdded<N>(q: Shared<N>, n: N): Shared<N> {
    q.(tasks := q.tasks + [n], ntask := q.ntask + 1)
  }

  function DataTaken<N>(q: Shared<N>): Shared<N> {
    if q.free == [] then q else q.(free := q.free[1..], nfree := q.nfree - 1)
  }

  function DataReturned<N>(q: Shared<N>, n: N): Shared<N> {
    if Kept(q.nfree, q.maxFree) then q.(free := [n] + q.free, nfree := q.nfree + 1) else q
  }

  function Emptied<N>(q: Shared<N>): Shared<N> {
    q.(free := [], tasks := [], nfree := q.nfree - |q.free|, ntask := q.ntask - |q.tasks|)
  }

  lemma TakenApart<N>(s: seq<Node<N>>, t: seq<Node<N>>)
    requires s != [] && Linked(s) && (Disjoint(s, t) || Disjoint(t, s))
    ensures s[0] !in s[1..] && s[0] !in t
    ensures Disjoint(s[1..], t) && Disjoint(t, s[1..])
  {
    HeadApart(s);
  }

  lemma PutApart<N>(s: seq<N>, t: seq<N>, x: N)
    requires (Disjoint(s, t) || Disjoint(t, s)) && x !in t
    ensures Disjoint(s + [x], t) && Disjoint(t, s + [x]) && Disjoint([x] + s, t) && Disjoint(t, [x] + s)
  {
  }

  class Queues<B> {
    const free: Queue<Option<B>>
    const tasks: Queue<Option<B>>
    var nfree: nat
    var ntask: nat
    var maxFree: nat

    ghost predicate Valid()
      reads this, free, tasks, free.nodes, tasks.nodes
    {
      && free != tasks && free.Valid() && tasks.Valid() && Disjoint(free.nodes, tasks.nodes)
      && nfree == |free.nodes| && ntask == |tasks.nodes|
      && nfree <= AtLeastOne(maxFree)
    }

    /** What the state machine of the two threads sees of the queues. */
    ghost function View(): Shared<Node<Option<B>>>
      reads this, free, tasks
    {
      Shared(free.nodes, tasks.nodes, nfree, ntask, maxFree)
    }

    /** ca_acq_data_init */
    constructor (maxFree: nat)
      ensures Valid() && fresh(free) && fresh(tasks)
      ensures View() == Shared([], [], 0, 0, maxFree)
    {
      free := new Queue();
      tasks := new Queue();
      nfree, ntask := 0, 0;
      this.maxFree := maxFree;
    }

    /** ca_acq_task_get */
    method TaskGet() returns (data: Node?<Option<B>>)
      requires Valid()
      modifies this`ntask, tasks, tasks.nodes`next
      ensures Valid() && View() == TaskTaken(old(View()))
      ensures old(tasks.nodes) == [] ==> data == null
      ensures old(tasks.nodes) != [] ==> data == old(tasks.nodes[0]) && data.next == null
    {
      data := null;
      if !tasks.Empty() {
        TakenApart(tasks.nodes, free.nodes);
        hide Linked, Disjoint;
        data := tasks.first;
        ntask := ntask - 1;
        tasks.RemoveHead();
        data.next := null;
      }
    }

    /** ca_acq_task_insert */
    method TaskInsert(data: Node<Option<B>>)
      requires Valid() && data !in free.nodes && data !in tasks.nodes
      modifies this`ntask, tasks, data`next, tasks.nodes`next
      ensures Valid() && View() == TaskAdded(old(View()), data)
    {
      PutApart(tasks.nodes, free.nodes, data);
      hide Linked, Disjoint;
      tasks.InsertTail(data);
      ntask := ntask + 1;
    }

    /** ca_acq_data_get, when memory does not run out. */
    method DataGet() returns (data: Node<Option<B>>)
      requires Valid()
      modifies this`nfree, free, free.nodes`next
      ensures Valid() && View() == DataTaken(old(View())) && data.next == null
      ensures old(free.nodes) == [] ==> fresh(data) && data.item == None
      ensures old(free.nodes) != [] ==> data == old(free.nodes[0])
    {
      if !free.Empty() {
        TakenApart(free.nodes, tasks.nodes);
        hide Linked, Disjoint;
        data := free.first;
        nfree := nfree - 1;
        free.RemoveHead();
      } else {
        data := new Node(None);
      }
      data.next := null;
    }

    /** ca_acq_data_put: the node goes to the head of the free list, or is released. */
    method DataPut(data: Node<Option<B>>) returns (freed: bool)
      requires Valid() && data !in free.nodes && data !in tasks.nodes
      modifies this`nfree, free, data`next
      ensures Valid() && View() == DataReturned(old(View()), data)
      ensures freed <==> !Kept(old(nfree), maxFree)
      ensures if old(nfree) == 0 || old(nfree) < maxFree
              then !freed && free.nodes == [data] + old(free.nodes) && nfree == old(nfree) + 1
              else freed && free.nodes == old(free.nodes) && nfree == old(nfree)
    {
      if nfree != 0 && nfree + 1 > maxFree {
        freed := true;
      } else {
        freed := false;
        nfree := nfree + 1;
        free.InsertHead(data);
      }
    }

    /** One turn of the first loop of ca_acq_data_deinit. */
    method ReleaseFree() returns (data: Node<Option<B>>)
      requires Valid() && free.nodes != []
      modifies this`nfree, free, free.nodes`next
      ensures Valid() && tasks.nodes == old(tasks.nodes)
      ensures old(free.nodes) == [data] + free.nodes
    {
      data := free.first;
      free.Remove(data, 0);
      data.next := null;
      nfree := nfree - 1;
    }

    /** One turn of its second loop. */
    method ReleaseTask() returns (data: Node<Option<B>>)
      requires Valid() && tasks.nodes != []
      modifies this`ntask, tasks, tasks.nodes`next
      ensures Valid() && free.nodes == old(free.nodes)
      ensures old(tasks.nodes) == [data] + tasks.nodes
    {
      data := tasks.first;
      tasks.Remove(data, 0);
      data.next := null;
      ntask := ntask - 1;
    }

    method DrainFree() returns (released: seq<Node<Option<B>>>)
      requires Valid()
      modifies this`nfree, free, free.nodes`next
      ensures Valid() && free.nodes == [] && tasks.nodes == old(tasks.nodes) && released == old(free.nodes)
    {
      hide Disjoint, Distinct, Queue.Valid;
      released := [];
      ghost var frees, queued := free.nodes, tasks.nodes;
      while !free.Empty()
        invariant Valid() && tasks.nodes == queued
        invariant |released| <= |frees| && released == frees[..|released|] && free.nodes == frees[|released|..]
        decreases |free.nodes|
      {
        assert forall n :: n in free.nodes ==> n in frees;
        var data := ReleaseFree();
        released := released + [data];
      }
    }

    method DrainTasks() returns (released: seq<Node<Option<B>>>)
      requires Valid()
      modifies this`ntask, tasks, tasks.nodes`next
      ensures Valid() && tasks.nodes == [] && free.nodes == old(free.nodes) && released == old(tasks.nodes)
    {
      hide Disjoint, Distinct, Queue.Valid;
      released := [];
      ghost var frees, queued := free.nodes, tasks.nodes;
      while !tasks.Empty()
        invariant Valid() && free.nodes == frees
        invariant |released| <= |queued| && released == queued[..|released|] && tasks.nodes == queued[|released|..]
        decreases |tasks.nodes|
      {
        assert forall n :: n in tasks.nodes ==> n in queued;
        var data := ReleaseTask();
        released := released + [data];
      }
    }

    /** ca_acq_data_deinit: every node is released once, the free ones first. */
    method Deinit() returns (released: seq<Node<Option<B>>>)
      requires Valid()
      modifies this`nfree, this`ntask, free, tasks, free.nodes`next, tasks.nodes`next
      ensures Valid() && View() == Emptied(old(View())) && nfree == 0 && ntask == 0
      ensures released == old(free.nodes + tasks.nodes)
    {
      hide Disjoint, Distinct, Queue.Valid;
      released := DrainFree();
      var more := DrainTasks();
      released := released + more;
    }
  }
}
