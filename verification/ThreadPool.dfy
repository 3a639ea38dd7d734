/** The thread pool of src/ca_threadpool.c as a state machine over its threads. A step ends at
    every lock, unlock, wait and broadcast; what lies between a lock and the next unlock or wait
    is one step of the thread that holds the mutex. */
module ThreadPool {
  import opened HeapOrder
  import opened Wrappers

  type Tid = nat

  datatype Task = Task(id: nat, priority: int)

  /** ca_priority_less */
  const BY_PRIORITY: (Task, Task) -> bool := (a: Task, b: Task) => a.priority < b.priority

  /** Where a thread stands. "In" and "Resumed" hold the mutex, "Lock" and "Woken" want it,
      "Wait" are in the wait set of a condition variable, "Owes" are about to broadcast. */
  datatype Pc =
    // ca_thread_loop
    | Top
    | LockLoop
    | InLoop
    | WaitWork
    | WokenWork(timedOut: bool)
    | ResumedWork(timedOut: bool)
    | OwesOver(job: Option<Task>)
    | Running(job: Option<Task>)
    | LockReturn
    | InReturn
    | LockExit
    | InExit
    | OwesExit
    // ca_threadpool_add_task
    | LockAdd(task: Task)
    | InAdd(task: Task)
    | OwesWork
    // ca_threadpool_exit, ca_threadpool_clear_task_queue
    | LockSetExit
    | InSetExit
    | OwesExitWork
    | LockClear
    | InClear
    // ca_threadpool_task_over
    | LockOver(block: bool, timed: bool)
    | InOver(block: bool, timed: bool)
    | WaitOver(timed: bool)
    | WokenOver(timed: bool, timedOut: bool)
    | ResumedOver(timed: bool, timedOut: bool)
    // ca_threadpool_destroy
    | LockDestroy(block: bool, timed: bool)
    | InDestroy(block: bool, timed: bool)
    | WaitExit(timed: bool)
    | WokenExit(timedOut: bool)
    | ResumedExit(timedOut: bool)
    | Freeing
    // returned
    | Done(result: int)

  /** What has become of a task that was passed to ca_threadpool_add_task. */
  datatype Place = Pending(caller: Tid) | Queued | Held(worker: Tid) | Finished | Discarded | Rejected

  datatype State = State(
    mutex: Option<Tid>,
    exiting: bool,
    idle: int,
    num: int,
    max: int,
    queue: seq<Task>,
    pc: map<Tid, Pc>,
    freed: bool,
    // history, read by no step
    place: map<Task, Place>,
    started: seq<Task>,
    late: seq<Tid>,
    atExit: set<Tid>,
    numAtExit: int)

  function FirstWorkers(n: nat): map<Tid, Pc> {
    if n == 0 then map[] else FirstWorkers(n - 1)[n - 1 := Top]
  }

  /** ca_threadpool_create, with its first workers numbered from 0. */
  function Create(init: nat, max: nat): State
    requires 0 < init <= max
  {
    State(None, false, init, init, max, [], FirstWorkers(init), false,
          map[], [], [], {}, 0)
  }

  // --- steps -------------------------------------------------------------------------------

  datatype Event =
    | Begin(t: Tid, call: Pc)
    | Lock(t: Tid)
    | Wake(t: Tid, timedOut: bool)
    | Go(t: Tid, spawn: Tid, grown: bool)

  predicate Holds(p: Pc) {
    p.InLoop? || p.ResumedWork? || p.InReturn? || p.InExit? || p.InAdd? || p.InSetExit? || p.InClear?
    || p.InOver? || p.ResumedOver? || p.InDestroy? || p.ResumedExit?
  }

  predicate Waits(p: Pc) {
    p.WaitWork? || p.WaitOver? || p.WaitExit?
  }

  /** The state after pthread_mutex_lock, or after the re-lock inside a wait. */
  function Acquired(p: Pc): Option<Pc> {
    match p
    case LockLoop => Some(InLoop)
    case WokenWork(timedOut) => Some(ResumedWork(timedOut))
    case LockReturn => Some(InReturn)
    case LockExit => Some(InExit)
    case LockAdd(task) => Some(InAdd(task))
    case LockSetExit => Some(InSetExit)
    case LockClear => Some(InClear)
    case LockOver(block, timed) => Some(InOver(block, timed))
    case WokenOver(timed, timedOut) => Some(ResumedOver(timed, timedOut))
    case LockDestroy(block, timed) => Some(InDestroy(block, timed))
    case WokenExit(timedOut) => Some(ResumedExit(timedOut))
    case _ => None
  }

  function Woken(p: Pc, timedOut: bool): Pc {
    match p
    case WaitWork => WokenWork(timedOut)
    case WaitOver(timed) => WokenOver(timed, timedOut)
    case WaitExit(timed) => WokenExit(timedOut)
    case _ => p
  }

  predicate MayTimeOut(p: Pc) {
    p.WaitWork? || (p.WaitOver? && p.timed) || (p.WaitExit? && p.timed)
  }

  predicate IsCall(p: Pc) {
    p.LockAdd? || p.LockSetExit? || p.LockClear? || p.LockOver? || p.LockDestroy?
  }

  predicate Enabled(s: State, e: Event) {
    && !s.freed
    && match e
       case Begin(t, call) => t !in s.pc && IsCall(call) && (call.LockAdd? ==> call.task !in s.place)
       case Lock(t) => t in s.pc && Acquired(s.pc[t]).Some? && s.mutex == None
       case Wake(t, timedOut) => t in s.pc && Waits(s.pc[t]) && (timedOut ==> MayTimeOut(s.pc[t]))
       case Go(t, spawn, _) =>
         && t in s.pc && Acquired(s.pc[t]) == None && !Waits(s.pc[t]) && !s.pc[t].Done?
         && (s.pc[t].InAdd? ==> spawn !in s.pc)
  }

  function Step(s: State, e: Event): State
    requires Enabled(s, e)
  {
    match e
    case Begin(t, call) =>
      s.(pc := s.pc[t := call], place := if call.LockAdd? then s.place[call.task := Pending(t)] else s.place)
    case Lock(t) => s.(mutex := Some(t), pc := s.pc[t := Acquired(s.pc[t]).value])
    case Wake(t, timedOut) => s.(pc := s.pc[t := Woken(s.pc[t], timedOut)])
    case Go(t, spawn, grown) =>
      Effect(s, t, grown).(mutex := if Holds(s.pc[t]) then None else s.mutex,
                           pc := Others(s, t, spawn)[t := Next(s, t, grown)])
  }

  /** Where thread t stands after its next stretch of code. */
  function Next(s: State, t: Tid, grown: bool): Pc
    requires t in s.pc
  {
    match s.pc[t]
    case Top => if s.exiting then LockExit else LockLoop
    case InLoop => if s.queue == [] then WaitWork else AfterDispatch(s)
    case ResumedWork(timedOut) => if timedOut || s.exiting then AfterLeave(s) else AfterDispatch(s)
    case OwesOver(job) => Running(job)
    case Running(_) => LockReturn
    case InReturn => Top
    case InExit => AfterLeave(s)
    case OwesExit => Done(0)
    case InAdd(_) => if !grown then Done(-1) else if s.queue == [] then OwesWork else Done(0)
    case OwesWork => Done(0)
    case InSetExit => OwesExitWork
    case OwesExitWork => Done(0)
    case InClear => Done(0)
    case InOver(block, timed) =>
      if s.queue == [] then Done(0) else if !block then Done(-1) else WaitOver(timed)
    case ResumedOver(timed, timedOut) =>
      if timed then Done(if timedOut then -1 else 0)
      else if s.queue == [] then Done(0) else WaitOver(false)
    case InDestroy(block, timed) =>
      if !s.exiting then Done(-1) else if s.num == 0 then Freeing
      else if !block then Done(-1) else WaitExit(timed)
    case ResumedExit(timedOut) => if timedOut then Done(-1) else Freeing
    case _ => Done(0)
  }

  /** Lines 59-66: an empty queue, found so or left so, calls for a broadcast first. */
  function AfterDispatch(s: State): Pc {
    if |s.queue| <= 1 then OwesOver(Head(s)) else Running(Head(s))
  }

  function Head(s: State): Option<Task> {
    if s.queue == [] then None else Some(s.queue[0])
  }

  /** Lines 82-86. */
  function AfterLeave(s: State): Pc {
    if s.num - 1 == 0 then OwesExit else Done(0)
  }

  /** What that stretch of code does to the other threads: a broadcast empties a wait set, and
      ca_threadpool_thread_create starts a worker. */
  function Others(s: State, t: Tid, spawn: Tid): map<Tid, Pc>
    requires t in s.pc
  {
    match s.pc[t]
    case OwesOver(_) => BroadcastOver(s.pc)
    case OwesExit => BroadcastExit(s.pc)
    case OwesWork => BroadcastWork(s.pc)
    case OwesExitWork => BroadcastWork(s.pc)
    case InAdd(_) => if Spawns(s) then s.pc[spawn := Top] else s.pc
    case _ => s.pc
  }

  predicate Spawns(s: State) {
    s.idle == 0 && s.num < s.max
  }

  /** What it does to the pool and to the history. */
  function Effect(s: State, t: Tid, grown: bool): State
    requires t in s.pc
  {
    match s.pc[t]
    case InLoop => if s.queue == [] then s else Dispatch(s, t)
    case ResumedWork(timedOut) => if timedOut || s.exiting then Leave(s) else Dispatch(s, t)
    case Running(job) => if job.Some? then s.(place := s.place[job.value := Finished]) else s
    case InReturn => s.(idle := s.idle + 1)
    case InExit => Leave(s)
    case InAdd(task) => Add(s, task, grown)
    case InSetExit =>
      if s.exiting then s else s.(exiting := true, atExit := MayStart(s.pc), numAtExit := s.num)
    case InClear => Discard(s)
    case Freeing => Discard(s).(freed := true)
    case _ => s
  }

  /** Lines 59-60: take the root of the heap, or nothing if there is nothing. */
  function Dispatch(s: State, t: Tid): State {
    if s.queue == [] then s.(idle := s.idle - 1)
    else
      var task := s.queue[0];
      s.(idle := s.idle - 1,
         queue := RemoveAt(BY_PRIORITY, Cells(s.queue, map[]), 0).at,
         place := s.place[task := Held(t)],
         started := s.started + [task],
         late := if s.exiting then s.late + [t] else s.late)
  }

  /** Lines 81-82. */
  function Leave(s: State): State {
    s.(idle := s.idle - 1, num := s.num - 1)
  }

  /** Lines 171-183. 'grown' is whether ca_heap_insert returns 0. */
  function Add(s: State, task: Task, grown: bool): State {
    var s1 := if Spawns(s) then s.(idle := s.idle + 1, num := s.num + 1) else s;
    if !grown then s1.(place := s.place[task := Rejected])
    else
      s1.(queue := Insert(BY_PRIORITY, Cells(s.queue, map[]), task).at, place := s.place[task := Queued])
  }

  /** ca_threadpool_free_task_queue, and ca_heap_destroy on the pool's queue. */
  function Discard(s: State): State {
    s.(queue := [], place := map k | k in s.place :: if s.place[k].Queued? then Discarded else s.place[k])
  }

  function BroadcastWork(pc: map<Tid, Pc>): map<Tid, Pc> {
    map u | u in pc :: if pc[u].WaitWork? then WokenWork(false) else pc[u]
  }

  function BroadcastOver(pc: map<Tid, Pc>): map<Tid, Pc> {
    map u | u in pc :: if pc[u].WaitOver? then WokenOver(pc[u].timed, false) else pc[u]
  }

  function BroadcastExit(pc: map<Tid, Pc>): map<Tid, Pc> {
    map u | u in pc :: if pc[u].WaitExit? then WokenExit(false) else pc[u]
  }

  // --- runs --------------------------------------------------------------------------------

  ghost predicate IsRun(s: State, es: seq<Event>)
    decreases |es|
  {
    es == [] || (Enabled(s, es[0]) && IsRun(Step(s, es[0]), es[1..]))
  }

  ghost function After(s: State, es: seq<Event>): State
    requires IsRun(s, es)
    decreases |es|
  {
    if es == [] then s else After(Step(s, es[0]), es[1..])
  }

  /** A property of every state that a run passes through. */
  ghost predicate Always(s: State, es: seq<Event>, good: State -> bool)
    requires IsRun(s, es)
    decreases |es|
  {
    good(s) && (es != [] ==> Always(Step(s, es[0]), es[1..], good))
  }

  /** A kind of step that a run does not take. */
  ghost predicate Never(s: State, es: seq<Event>, bad: (State, Event) -> bool)
    requires IsRun(s, es)
    decreases |es|
  {
    es != [] ==> !bad(s, es[0]) && Never(Step(s, es[0]), es[1..], bad)
  }

  // --- who counts --------------------------------------------------------------------------

  /** A worker that has not run the decrements of lines 81-82. */
  predicate InPool(p: Pc) {
    OutsideDispatch(p) || p.OwesOver? || p.Running? || p.LockReturn? || p.InReturn?
  }

  /** A live worker outside the window from line 59 to line 74. */
  predicate OutsideDispatch(p: Pc) {
    p.Top? || p.LockLoop? || p.InLoop? || p.WaitWork? || p.WokenWork? || p.ResumedWork?
    || p.LockExit? || p.InExit?
  }

  function Members(pc: map<Tid, Pc>): set<Tid> {
    set t | t in pc && InPool(pc[t])
  }

  function Idlers(pc: map<Tid, Pc>): set<Tid> {
    set t | t in pc && OutsideDispatch(pc[t])
  }

  /** The workers that are past the test of 'exit' and not yet past the queue. */
  function MayStart(pc: map<Tid, Pc>): set<Tid> {
    set t | t in pc && (pc[t].LockLoop? || pc[t].InLoop?)
  }

  function Carried(p: Pc): Option<Task> {
    if p.OwesOver? || p.Running? then p.job else None
  }

  function Offered(p: Pc): Option<Task> {
    if p.LockAdd? || p.InAdd? then Some(p.task) else None
  }
}
