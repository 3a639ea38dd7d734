# clagent, modelled and proved in Dafny

clagent is a supervising agent: a master process keeps a few children alive; one of them samples the
machine, queues the samples and sends them to one of several servers; a thread pool, a configuration
reader, a bounded formatter and an intrusive queue of its own lie underneath. This project models the
six parts whose correctness depends on the whole of a run, or of an input, rather than on one line:

- **The thread pool over a priority heap** (`HeapOrder`, `Heap`, `ThreadPool*`). `HeapOrder` gives
  the heap operations as functions on sequences and proves what they mean; the class `Heap.Heap`
  changes an array in place and is proved equal to those functions. `ThreadPool` is a state machine
  over any number of workers and callers, with a step boundary at every lock, unlock, wait and
  broadcast, wait sets for the three condition variables, spurious wakeups and timeouts at any time.
  Its queue is the heap of `HeapOrder`.
- **The configuration lexer** (`ConfToken`, `ConfFile`, `ConfWords`, `ConfRoundTrip`, `ConfLimits`). `ConfToken` is
  the tokenizer on a whole file; the class `ConfFile.ConfFile` is the loop over a sliding buffer of any
  size, with refill in mid-token and the unescape loop, and refines it; `ConfWords` says, for every way of
  writing a directive, what is read from it, and `ConfRoundTrip` writes byte strings in double quotes and
  reads them back.
- **The reporting pipeline** (`BatchQueues`, `Pipeline`, `Framing`, `Failover`): the two bounded queues
  and every interleaving of their two threads, the framing over a socket that accepts any prefix of
  each send, and round-robin failover.
- **The bounded formatter and the number and time readers** (`Format`, `Formatter`, `FormatParts`,
  `Numbers`, `Duration`, `DurationRoundTrip`). `Format.Full` is the output with unlimited room; the
  methods of `Formatter` write into a buffer and are proved to leave exactly the part that fits;
  `FormatParts` says what every sequence of conversions prints.
- **The intrusive tail queue** (`TailQueue`), with the address of its last link modelled as a value
  that is stored through.
- **The process supervisor** (`Supervisor`): the process table and the master's loop over any
  sequence of signal deliveries and any behaviour of fork, wait and kill.

Where the code does something that its names, comments or users do not suggest, the model follows the
code, and a theorem says exactly when:

- Removing the last slot of a heap when its parent is not strictly less leaves the removed item in the
  heap and loses its parent instead (`HeapOrder.RemovesTheItemIff`, `HeapOrder.RemoveIndexedIff`,
  `HeapOrder.TiedLastExample`).
- A worker that times out leaves without looking at the queue again. A queued task has a worker
  throughout a run exactly when the last worker never leaves while there is work
  (`ThreadPoolTheorems.StaffedIff`, with the run `ThreadPoolRuns.TaskWithoutWorker`).
- Clearing the queue wakes nobody. A caller of task_over asleep on an empty queue is about to be woken
  throughout a run exactly when no call clears a queue under one while no such broadcast is owed
  (`ThreadPoolTheorems.OverWokenIff`, `ThreadPoolRuns.ClearLosesAWakeup`).
- A worker that has passed its test of the exit flag goes to sleep on an empty queue after the broadcast
  of ca_threadpool_exit. Exactly such steps, taken while neither that broadcast nor one of an add_task is
  owed, leave a sleeper after exit with nothing owed to it (`ThreadPoolTheorems.ExitWakesIff`,
  `ThreadPoolRuns.SleepsAfterExit`).
- The destroyer can pass its wait while workers are left. It does exactly when it is woken by nobody, or
  by a last worker's broadcast that comes after a new worker was started, or when a worker is started
  behind its back (`ThreadPoolTheorems.NonePastIff`), with three runs:
  `ThreadPoolRuns.StaleBroadcastFreesTooEarly`, `ThreadPoolRuns.LateInsertionFreesTooEarly`,
  `ThreadPoolRuns.SpuriousWakeupFreesTooEarly`. The pool is about to be freed under a worker exactly when
  the destroyer returns from its wait with workers left or one is started after that
  (`ThreadPoolTheorems.DestroyAfterLastWorkerIff`). What sets a late broadcast up, without every time
  letting somebody pass, is `ThreadPoolExit.LetsPass` (`ThreadPoolTheorems.LastOneOutIff`).
- The "too long parameter" error of the lexer counts from `start`, which also marks a comment and the
  blanks before and after a word. A comment or a run of blanks as long as the window causes it
  (`ConfLimits.CommentFillsWindow`, `ConfLimits.BlanksFillWindow`), and a shorter comment stays on the
  account of what follows (`ConfLimits.CommentIsSkipped`).
- A dollar that starts a bare word opens no variable, so a word that begins with `${` ends at the brace and
  opens a block (`ConfWords.Starts`, `ConfWords.ReadsToEnd`).
- The minus sign of a number is not counted in the width of its conversion (`FormatParts.FormatPrints`).
- The header of a report is cut after ten digits, so a receiver can decode a stream exactly when every
  body is shorter than 10^10 bytes (`Framing.DecodesIff`).
- A refused connection while a quit is pending leaves the old descriptor in place, closed; exactly then
  it is stale (`Failover.Submitter.Submit`, with the input `Failover.StaleDescriptor`).
- A connection attempt leaves its socket open, held by nobody, if and only if connect fails with another
  error than EINPROGRESS or the error status of the socket is not zero (`Failover.Dial`). Of the sockets
  made during a submission exactly these and the one that is kept stay open
  (`Failover.Submitter.Submit`, with the input `Failover.LeakedSocket`).
- The number readers do not look for overflow (`Numbers.NumberIsValueIff`, `Numbers.OverflowExample`),
  and the number behind the last unit of a duration is not held to 2^31 - 1
  (`DurationRoundTrip.PlainNumber`); a space directly after a number acts as a unit of seconds.
- If none of the master's first three forks succeeds, it does not follow a quit before some SIGCHLD
  arrives, because its flag for live children starts out set (`Supervisor.Master.Cycle`).
- A pending termination does not keep an exited child from being started again: exactly those are that
  want it and have not been told to go, and only a quit stops it (`Supervisor.Master.Turn`).
- The comment above the formatter lists `%P`; the code has no such case and prints a `P`.

## Model

| member | source | states |
|---|---|---|
| HeapOrder.RiseOrders | src/ca_heap.c:42-54 | moving an item towards the root repairs a heap that is in order everywhere but there |
| HeapOrder.SinkOrders | src/ca_heap.c:57-77 | moving an item towards the leaves repairs it as well |
| HeapOrder.RiseThenSinkIdle | src/ca_heap.c:144-146 | when the first sift of a removal moved the item up, the second one from the original index changes nothing |
| HeapOrder.Resift | src/ca_heap.c:145-146 | both sifts after a slot was overwritten restore the order of the live slots and lose nothing |
| HeapOrder.InsertOrders | src/ca_heap.c:109-130 | an insertion keeps heap order and adds exactly the item |
| HeapOrder.RemoveOrders | src/ca_heap.c:133-151 | removal at any index keeps heap order, and the multiset loses exactly one item: the one at k, or its parent's in the tied last slot |
| HeapOrder.RemovesTheItemIff | src/ca_heap.c:133-151 | the item at k is what the heap loses if and only if k is 0, not the last slot, strictly above its parent, or equal to it |
| HeapOrder.TiedLastExample | src/ca_heap.c:46-54 | two items of equal priority: the one removed is the one that stays |
| HeapOrder.InsertIndexed | src/ca_heap.c:11-18 | after inserting an absent item the last recorded position of every live item is its index, and of every other known item -1 |
| HeapOrder.RemoveIndexedIff | src/ca_heap.c:142-149 | after a removal the recorded positions are right if and only if the slot was not a tied last one |
| HeapOrder.TiedLastIndex | src/ca_heap.c:46-54 | in the tied last slot they are wrong |
| HeapOrder.RunKeepsHeapAndIndex | src/ca_heap.c:109-151 | both properties over whole runs of insertions and removals |
| HeapOrder.RootIsLeast | src/ca_heap.c:42-77 | no item of a heap is less than its root |
| HeapOrder.DrainSorts | src/ca_heap.c:154-163 | removing slot 0 until the heap is empty yields a sorted permutation of its contents |
| Heap.Heap.constructor | src/ca_heap.c:93-103 | a new heap is empty, with 16 slots and no recorded positions |
| Heap.Heap.SetSlot | src/ca_heap.c:11-18 | one slot and one recorded position change, nothing else |
| Heap.Heap.SwapSlots | src/ca_heap.c:21-28 | two slots are exchanged and both positions recorded |
| Heap.Heap.SiftDown | src/ca_heap.c:42-54 | the loop over the array computes the specified rise and touches nothing beyond it |
| Heap.Heap.SiftUp | src/ca_heap.c:57-77 | the loop over the array computes the specified sinking among the live slots |
| Heap.Heap.Insert | src/ca_heap.c:109-130 | the new contents, also across a reallocation; a failed one changes nothing and returns -1 |
| Heap.Heap.Remove | src/ca_heap.c:133-151 | the returned item and the new contents; an index out of range changes nothing |
| Heap.Heap.RemoveRoot | src/ca_heap.c:159-159 | the same for slot 0 of a heap that is not empty |
| Heap.Heap.Destroy | src/ca_heap.c:154-174 | every item is released once, in draining order, and the loop ends |
| ThreadPoolSafety.ExclusiveStep | src/ca_threadpool.c:42-88 | every step keeps: the mutex is held by exactly the thread that is in a critical section |
| ThreadPoolSafety.StepOthers | src/ca_threadpool.c:62-86 | a step of one thread leaves the others where they are, wakes waiters of one condition variable, or starts one worker |
| ThreadPoolSafety.CountedStep | src/ca_threadpool.c:59-82 | every step keeps: threads_num is the number of workers before their exit decrement, threads_idle the number outside the dispatch window, threads_num at most threads_max |
| ThreadPoolSafety.InsertionFindsAWorker | src/ca_threadpool.c:170-183 | right after an insertion some worker is outside the dispatch window or there are as many as allowed |
| ThreadPoolSafety.WorkWakeupStep | src/ca_threadpool.c:47-57 | a worker asleep while there is work is about to be woken by the broadcast that some add_task still owes, after every step |
| ThreadPoolSafety.ExitWakeupStep | src/ca_threadpool.c:81-86 | a destroyer asleep while no worker is left is about to be woken, after every step |
| ThreadPoolSafety.NoLostWakeupStep | src/ca_threadpool.c:47-86 | the two together are kept by every step of every thread |
| ThreadPoolTasks.QueueStep | src/ca_threadpool.c:59-61 | every step keeps: the queue is a heap and holds exactly the tasks recorded as queued, once each |
| ThreadPoolTasks.DispatchTakesLeast | src/ca_threadpool.c:59-62 | the task taken was queued, is now held by this worker, and no task left behind has a smaller priority value |
| ThreadPoolTasks.StartsStep | src/ca_threadpool.c:59-71 | every step keeps: every task that is held or finished was started exactly once, and no other |
| ThreadPoolTasks.HandsStep | src/ca_threadpool.c:60-71 | every step keeps: a task recorded with a thread is in the hands of that thread and no other |
| ThreadPoolTasks.ConservedStep | src/ca_threadpool.c:155-199 | all of these, and a task's place only moves forward, for every step |
| ThreadPoolExit.LateStep | src/ca_threadpool.c:41-60 | every step keeps: after exit only workers that were past the test take a task, each at most one |
| ThreadPoolExit.LateIsFew | src/ca_threadpool.c:202-209 | so at most threads_num tasks begin after exit |
| ThreadPoolExit.LastOneOutStepIff | src/ca_threadpool.c:255-299 | a step keeps "while workers are left nobody is past the destroyer's wait or about to let one pass" if and only if it is not one of three kinds: an insertion after exit that starts a worker under somebody who passes, an unprompted wakeup, setting exit over a pending broadcast |
| ThreadPoolExit.NonePastStepIff | src/ca_threadpool.c:255-299 | a step keeps "no destroyer is past its wait while workers are left" if and only if it does not wake one unprompted with workers left, does not broadcast to one too late, and does not start a worker behind its back |
| ThreadPoolExit.NoneFreesStepIff | src/ca_threadpool.c:279-305 | a step keeps "nobody is about to free the pool while workers are left" if and only if it is no return from the wait with workers left and starts no worker after one |
| ThreadPoolConditions.StaffedStepIff | src/ca_threadpool.c:50-82 | a step keeps "a queued task has a worker" if and only if it is not the last worker's leave with work in the queue |
| ThreadPoolConditions.OverWokenStepIff | src/ca_threadpool.c:194-251 | a step keeps "a task_over caller asleep on an empty queue is about to be woken" if and only if it does not clear a queue under such a caller with nothing owed |
| ThreadPoolConditions.ExitWakesStepIff | src/ca_threadpool.c:41-53 | a step keeps "after exit a sleeping worker is about to be woken by somebody" if and only if it is not a worker falling asleep on an empty queue with neither broadcast owed |
| ThreadPoolConditions.LateSleepersStep | src/ca_threadpool.c:41-53 | every step keeps: who sleeps after exit with no broadcast of it owed was past the test of exit when it was set |
| ThreadPoolConditions.MaxIsKept | src/ca_threadpool.c:149-149 | threads_max never changes |
| ThreadPoolTheorems.CreateInvariant | src/ca_threadpool.c:118-152 | a new pool satisfies all invariants |
| ThreadPoolTheorems.Reachable | src/ca_threadpool.c:31-308 | every state of every run satisfies all of them |
| ThreadPoolTheorems.CounterBounds | src/ca_threadpool.c:59-82 | 0 <= threads_idle <= threads_num <= threads_max in every state of every run |
| ThreadPoolTheorems.OnePlace | src/ca_threadpool.c:59-71 | a task in a worker's hands is not queued, not in other hands, and was started once |
| ThreadPoolTheorems.PlacesAreFinal | src/ca_threadpool.c:106-191 | finished, discarded and refused tasks stay so over the rest of a run; started ones are never queued again |
| ThreadPoolTheorems.BoundedAfterExit | src/ca_threadpool.c:202-209 | in every run at most as many tasks begin after exit as there were workers, each by a different worker |
| ThreadPoolTheorems.StaffedIff | src/ca_threadpool.c:47-88 | a queued task has a worker throughout a run if and only if the last worker never leaves with work in the queue |
| ThreadPoolTheorems.OverWokenIff | src/ca_threadpool.c:194-251 | a task_over caller asleep on an empty queue is about to be woken throughout a run if and only if no call clears a queue under one with no such broadcast owed; what it does then and answers is ThreadPoolAnswers.OverSleepsIff and CallsAnswer |
| ThreadPoolTheorems.ExitWakesIff | src/ca_threadpool.c:41-57 | after exit a sleeping worker is about to be woken throughout a run if and only if none falls asleep with neither broadcast owed |
| ThreadPoolTheorems.LastOneOutIff | src/ca_threadpool.c:255-299 | nobody is past the destroyer's wait, or about to let it pass, while workers are left, throughout a run, if and only if the run takes none of the steps that let one pass |
| ThreadPoolTheorems.NonePastIff | src/ca_threadpool.c:255-299 | no destroyer is past its wait while workers are left, throughout a run, if and only if the run takes none of the steps by which one passes |
| ThreadPoolTheorems.DestroyAfterLastWorkerIff | src/ca_threadpool.c:254-305 | nobody is about to free the pool while workers are left, throughout a run, if and only if no destroyer returns from its wait with workers left and none is started after one has |
| ThreadPoolTheorems.DestroyAfterLastWorker | src/ca_threadpool.c:254-305 | in particular, in a run in which no destroyer passes its wait with workers left the pool is freed only when threads_num is 0 |
| ThreadPoolAnswers.OwnStepAdvances | src/ca_threadpool.c:155-307 | each step of a thread inside a call either goes on with the call or returns with an answer that tells the state of the pool at that step |
| ThreadPoolAnswers.ServingMeanwhile | src/ca_threadpool.c:155-307 | no step of another thread takes a caller out of its call |
| ThreadPoolAnswers.CallsAnswer | src/ca_threadpool.c:155-307 | in every run each call that has returned did so at some step after it began; there add_task answers -1 exactly if the task was refused; exit has set the flag; clear has emptied the queue; task_over answers 0 exactly on an empty queue and -1 only if it was not to block, or, woken while it waited with a timeout, -1 exactly if its time was up; destroy answers 0 exactly if the pool is freed, and -1 only without exit, with workers left and no blocking, or when its time was up |
| ThreadPoolAnswers.OverReturnsAtEmpty | src/ca_threadpool.c:212-251 | in every run a blocking task_over without a timeout returns only at a step with an empty queue, and answers 0 |
| ThreadPoolAnswers.AddAnswersLast | src/ca_threadpool.c:155-191 | the answer of add_task still tells the place of its task at the end of any run: -1 exactly for a refused one |
| ThreadPoolAnswers.OverSleepsIff | src/ca_threadpool.c:217-250 | at each look at the queue task_over sleeps exactly if there is work and it may block; woken with a timeout it does not look again |
| ThreadPoolAnswers.DestroySleepsIff | src/ca_threadpool.c:262-299 | at each look destroy frees the pool exactly if exit is set and no worker is left, or it was woken in time, and sleeps exactly if exit is set, workers are left and it may block |
| ThreadPoolAnswers.WorkersLeave | src/ca_threadpool.c:41-82 | in every run threads_num falls only after exit was called or by a worker whose own wait timed out |
| ThreadPoolAnswers.WorkersStart | src/ca_threadpool.c:171-175 | in every run a worker is started exactly by an add_task that finds no live worker free and fewer live workers than threads_max |
| ThreadPoolAnswers.DispatchWakesIff | src/ca_threadpool.c:60-66 | a worker that goes on to its task wakes the callers of task_over exactly if the queue is empty then |
| ThreadPoolAnswers.AddWakesIff | src/ca_threadpool.c:177-188 | an add_task wakes the workers exactly if its task is the only one on the queue |
| ThreadPoolRuns.TaskWithoutWorker | src/ca_threadpool.c:54-56 | a run that ends with a queued task, no worker and nothing owed |
| ThreadPoolRuns.ClearLosesAWakeup | src/ca_threadpool.c:194-199 | a run in which a task_over caller sleeps on an empty queue with nothing owed |
| ThreadPoolRuns.StaleBroadcastFreesTooEarly | src/ca_threadpool.c:279-300 | a run in which the pool is freed while a worker lives |
| ThreadPoolRuns.LateInsertionFreesTooEarly | src/ca_threadpool.c:170-183 | a run in which a task added after exit starts a worker and the pool is freed under it |
| ThreadPoolRuns.SpuriousWakeupFreesTooEarly | src/ca_threadpool.c:279-287 | a run in which an unprompted wakeup frees the pool while a worker lives |
| ThreadPoolRuns.SleepsAfterExit | src/ca_threadpool.c:41-48 | a run that ends with exit set, a worker asleep and nothing owed |
| ConfToken.OpenEscapeStep | src/ca_conf.c:608-611 | when the scanner's pairing of backslashes waits for a character |
| ConfToken.UnescapeStep | src/ca_conf.c:747-776 | the unescape loop consumes escapes whole and never half of one |
| ConfToken.FeedConsistent | src/ca_conf.c:594-790 | the seven flags say how the characters since start pair up, after every character |
| ConfToken.WordEndsOutsideEscapes | src/ca_conf.c:736-778 | a completed word never ends inside an escape, so both pairings agree on it |
| ConfToken.ScanTransparent | src/ca_conf.c:517-592 | through a window the result is "too long" if and only if some stretch since start fills the window, and otherwise that of the whole file |
| ConfToken.StreamTransparent | src/ca_conf.c:480-792 | directive after directive, codes, words, positions and lines are those of the whole file up to the first "too long parameter" |
| ConfToken.AcceptsIff | src/ca_conf.c:191-305 | a token stream makes a configuration exactly when, up to an end of the file, every directive is accepted, no block is closed that is not open, and every block that was opened is closed |
| ConfFile.ConfFile.ForFile | src/ca_conf.c:166-179 | an empty buffer of the given size before the start of the file, at line 1 |
| ConfFile.ConfFile.ForParam | src/ca_conf.c:58-72 | a buffer that is the whole parameter, at line 0 |
| ConfFile.ConfFile.MoveDown | src/ca_conf.c:565-567 | the kept bytes move to the front of the buffer |
| ConfFile.ConfFile.ReadFile | src/ca_conf.c:82-108 | the next bytes of the file follow, and the offset advances by their number |
| ConfFile.ConfFile.Refill | src/ca_conf.c:541-592 | at least one byte is read, and the position in the file stays |
| ConfFile.ConfFile.UnescapeOne | src/ca_conf.c:751-775 | the byte written and the bytes consumed for each escape |
| ConfFile.ConfFile.CopyWord | src/ca_conf.c:742-778 | the copy is the unescaped word and its NUL within the allocated bytes, and the length counts the bytes written |
| ConfFile.ConfFile.Fill | src/ca_conf.c:519-592 | at the end of the buffer: the end of the file, "too long" exactly when the stretch since start fills the buffer, or more bytes with start moved along |
| ConfFile.ConfFile.Turn | src/ca_conf.c:594-790 | one character updates flags, start, line and words as the whole-file tokenizer does |
| ConfFile.ConfFile.PlainChar | src/ca_conf.c:613-790 | the same for a character that is neither commented out nor escaped |
| ConfFile.ConfFile.AfterQuoteMark | src/ca_conf.c:613-637 | the same behind a closing quote |
| ConfFile.ConfFile.BetweenWords | src/ca_conf.c:639-695 | the same between words |
| ConfFile.ConfFile.InsideWord | src/ca_conf.c:699-734 | the loop agrees with the specification inside a word; which character ends a word, for every way of writing one, is ConfWords.ReadsToEnd and ReadsToBoundary |
| ConfFile.ConfFile.InWordOrEnd | src/ca_conf.c:697-790 | the same with the word that it ends |
| ConfFile.ConfFile.ReadChar | src/ca_conf.c:517-790 | one turn of the loop is one character of the whole-file tokenizer, whatever the buffer holds |
| ConfFile.ConfFile.ReadToken | src/ca_conf.c:480-792 | the loop over the sliding buffer returns what the specification returns for this window, of which ConfWords and ConfRoundTrip say what is read from any directive |
| ConfFile.ConfFile.Parse | src/ca_conf.c:191-305 | the caller accepts exactly the well-nested, accepted token streams |
| ConfRoundTrip.UnescapeEscape | src/ca_conf.c:747-776 | unescaping undoes escaping, for every byte string |
| ConfRoundTrip.ReadsBack | src/ca_conf.c:480-792 | a directive of any quoted byte strings is read back as those strings, with the right position and line |
| ConfRoundTrip.ReadsBackIffFits | src/ca_conf.c:480-792 | with words of any length: "too long parameter" if and only if some word, with what stands between it and the next, does not fit the window; otherwise the strings come back |
| ConfRoundTrip.StreamReadsBack | src/ca_conf.c:191-273 | a whole file of such directives is read back in order |
| ConfWords.UnescapeText | src/ca_conf.c:747-776 | a word written as bytes and escapes is copied as what they stand for: t, r and n behind a backslash as tabulator, carriage return and line feed, quotes and the backslash as themselves, any other byte with its backslash |
| ConfWords.ReadsToBoundary | src/ca_conf.c:639-695 | blanks and comments, then any words, bare or in quotes of either kind, with escapes and variables, each followed by blanks and comments, within the window: a semicolon or left brace returns exactly the words, with position and line, a right brace closes a block and the file may end if there are none, and the other cases are errors |
| ConfWords.ReadsToEnd | src/ca_conf.c:611-790 | the same for a semicolon or left brace right behind the last word; a brace that belongs to a variable in a bare word does not end it |
| ConfWords.ReadsUnfinished | src/ca_conf.c:522-533 | a file that ends inside a word or right behind one is an unexpected end |
| ConfWords.ReadsStray | src/ca_conf.c:632-636 | any other character right behind a closing quote is an error, reported with that character |
| ConfWords.ReadsParen | src/ca_conf.c:628-630 | a right parenthesis right behind a closing quote starts the next bare word |
| ConfWords.ReadsTooLong | src/ca_conf.c:541-563 | a word that fills the window is reported as too long, with the quote that is missing, if any, and with the line on which it starts |
| ConfLimits.CommentFillsWindow | src/ca_conf.c:541-563 | a comment as long as the window, with more of the file behind it, is a "too long parameter" |
| ConfLimits.CommentIsSkipped | src/ca_conf.c:596-606 | a shorter comment is skipped, and start stays at its beginning |
| ConfLimits.BlanksFillWindow | src/ca_conf.c:639-645 | between words, blanks that last until a window has passed since start are a "too long parameter" |
| ConfLimits.LeadingBlanks | src/ca_conf.c:541-563 | so are a window of blanks in front of a directive |
| BatchQueues.Queues.constructor | src/ca_acquisition.c:167-175 | both queues start empty |
| BatchQueues.Queues.TaskGet | src/ca_acquisition.c:81-98 | the oldest batch, unlinked, or none; the queues change as in the state machine of the two threads |
| BatchQueues.Queues.TaskInsert | src/ca_acquisition.c:101-110 | the batch goes to the end of the queue, as in the state machine |
| BatchQueues.Queues.DataGet | src/ca_acquisition.c:113-139 | the first free node, or a new one if there is none, as in the state machine |
| BatchQueues.Queues.DataPut | src/ca_acquisition.c:142-156 | the node goes to the head of the free list if the list is empty or shorter than max_nfree, and is released otherwise, as in the state machine; nfree stays at most max(1, max_nfree) |
| BatchQueues.Queues.ReleaseFree | src/ca_acquisition.c:183-188 | the first free node leaves the list and is counted off |
| BatchQueues.Queues.ReleaseTask | src/ca_acquisition.c:190-196 | the same for the task queue |
| BatchQueues.Queues.DrainFree | src/ca_acquisition.c:183-188 | every free node is released once, in order |
| BatchQueues.Queues.DrainTasks | src/ca_acquisition.c:190-196 | the same for the task queue |
| BatchQueues.Queues.Deinit | src/ca_acquisition.c:178-197 | every node of both queues is released once and both end empty, as in the state machine |
| Pipeline.OwnedStep | src/ca_acquisition.c:81-156 | every step keeps each node in exactly one place |
| Pipeline.CountedStep | src/ca_acquisition.c:81-156 | every step keeps nfree and ntask the queue lengths and the free list bounded |
| Pipeline.InOrderStep | src/ca_acquisition.c:358-425 | every step keeps: the batches made are those submitted, then the one in hand, then the queue |
| Pipeline.Reachable | src/ca_acquisition.c:258-428 | all of it in every state of every interleaving |
| Pipeline.BatchOwnership | src/ca_acquisition.c:81-156 | a node is on the free list, in the task queue, with one thread or released, and in one of these only |
| Pipeline.BatchesInOrder | src/ca_acquisition.c:358-425 | batches leave in the order they came, each once; at shutdown the rest is dropped and every node released |
| Pipeline.Drains | src/ca_acquisition.c:399-426 | from any state of any run in which the submitting thread waits, going round as often as there are batches queued submits every batch that was made |
| Pipeline.Delivers | src/ca_acquisition.c:358-374 | from any state in which the sampling thread is free, three of its steps put a new batch at the end of the queue |
| Framing.Socket.Send | src/ca_acquisition.c:511-538 | some prefix of the data is accepted, or nothing |
| Framing.Socket.Recv | src/ca_acquisition.c:542-570 | some prefix of what the server sent lands in the buffer, within its bounds |
| Framing.MakeHeader | src/ca_acquisition.c:641-641 | the ten header bytes are the zero-padded length cut after ten digits |
| Framing.HeaderFormatted | src/ca_acquisition.c:641-641 | what the header format means for every length |
| Framing.SendAll | src/ca_acquisition.c:645-698 | partial sends and interruptions never send anything but the next bytes; success means all of them |
| Framing.RecvReply | src/ca_acquisition.c:703-738 | success means the reply began with "ok" and a line feed; how each failure came about |
| Framing.SendAndRecv | src/ca_acquisition.c:633-741 | the bytes accepted are always a prefix of header and body; the exchange fails if and only if its last call timed out, failed or was interrupted by a quit, or the reply is another than ok; an interruption without a quit ends nothing |
| Framing.HeaderReadsIff | src/ca_acquisition.c:641-641 | ca_atosz reads the length back from the header if and only if it is below 10^10 |
| Framing.DecodesIff | src/ca_acquisition.c:633-701 | a receiver recovers a sequence of bodies from the stream if and only if all their lengths are below 10^10 |
| Failover.Network.Connect | src/ca_acquisition.c:449-508 | the next attempt yields a new open connection to that server, with the answers and the reply of the attempt before it, or none; what is not returned is open exactly if it leaks |
| Failover.Dial | src/ca_acquisition.c:449-508 | whatever the system calls answer: success, timeout or refusal, and the socket that was made is open afterwards if and only if it is the connection, or connect failed with another error than EINPROGRESS, or the error status is not zero |
| Failover.VisitIsModular | src/ca_acquisition.c:594-595 | the visits are index + 1, index + 2, ... modulo the count |
| Failover.RoundIsComplete | src/ca_acquisition.c:593-623 | no server is visited twice in a call, and a full round visits all |
| Failover.NextServer | src/ca_acquisition.c:594-595 | the next index wraps to 0 behind the last server |
| Failover.Submitter.constructor | src/ca_acquisition.c:396-397 | at first there is no connection and no index |
| Failover.Try | src/ca_acquisition.c:594-622 | one turn keeps the connection exactly if the exchange over it was not spoiled: it is closed only if the last call timed out, failed or was interrupted by a quit, or the reply was another than ok; what a refused attempt has left behind stays open; it stops exactly at a refusal under a pending quit |
| Failover.TryInTurn | src/ca_acquisition.c:593-623 | the servers behind the index are tried in order until one succeeds, a refusal under a pending quit, or the end of the round; every connection that came up before that was spoiled, each by a cause that its own answers show |
| Failover.OneMore | src/ca_acquisition.c:593-622 | the account of the turns so far and of one turn more make the account of all: which connection came of each, why it was closed, what was left behind |
| Failover.Submitter.Reuse | src/ca_acquisition.c:585-591 | the current connection is kept exactly if the exchange over it was not spoiled, and then it has carried the frame |
| Failover.Submitter.Replace | src/ca_acquisition.c:593-630 | the loop and what follows it: the connection and the index are replaced on success and after a full round, and kept at a refusal under a pending quit |
| Failover.Submitter.Submit | src/ca_acquisition.c:573-630 | which servers are visited, all of them before failing; on success the frame was sent over the connection kept, to the server at index; exactly that one and the sockets of refused attempts stay open, as many as the attempts left behind; the descriptor is stale if and only if there was one and a connection was refused under a pending quit; it fails only if the current connection and every one that came up were spoiled by a timeout, a failure, an interruption by a quit or a reply other than ok |
| Failover.Submitter.Cycle | src/ca_acquisition.c:396-419 | over any number of submissions the descriptor is none or open to the current server, until a quit; every batch is submitted once, in order, whatever became of the one before |
| Failover.StaleDescriptor | src/ca_acquisition.c:605-607 | an input after which the descriptor is closed but still there |
| Failover.LeakedSocket | src/ca_acquisition.c:467-468 | an input after which a socket is open that nobody holds or closes |
| Format.DigitsBound | src/ca_string.c:430-460 | a number below base^k has at most k digits |
| Format.DigitsDenote | src/ca_string.c:411-460 | in both radices the digits denote the number, without a leading zero |
| Format.DigitsFit | src/ca_string.c:405-409 | the digit buffer is large enough for every 64-bit number in both radices |
| Format.PrintsSigned | src/ca_string.c:270-276 | a plain signed conversion prints the sign and decimal digits of every 64-bit number, the smallest included |
| Format.PrintsHex | src/ca_string.c:182-192 | a plain hexadecimal conversion prints the digits of every unsigned 64-bit number in the case asked for |
| FormatParts.WidthReads | src/ca_string.c:164-166 | any run of digits is read as the number it denotes, modulo 2^32 |
| FormatParts.DirectiveConverts | src/ca_string.c:149-388 | a conversion with any width, flag and fitting argument is read to its last character, takes exactly its own arguments, and prints what it stands for, wherever it is in a format |
| FormatParts.FormatPrints | src/ca_string.c:132-398 | any sequence of literal texts and conversions prints, in order: the text; a string up to its NUL; so many bytes of one; counted bytes; sign, filling to the width and digits of any number that its type holds, decimal or hexadecimal; a character; a pointer; a line feed, a NUL, or the character itself |
| FormatParts.PrintsWord | src/ca_string.c:227-242 | "%s" prints a string up to its NUL, "%*s" so many bytes whether or not a NUL is among them |
| Formatter.PutPut | src/ca_string.c:144-395 | two bounded writes in a row are one bounded write of both texts |
| Formatter.PutKeeps | src/ca_string.c:144-395 | a bounded write leaves the first bytes of the text, as many as fit, and everything else as it was |
| Formatter.Store | src/ca_string.c:349-390 | one byte is written |
| Formatter.Copy | src/ca_string.c:218-225 | a cut copy writes exactly what fits |
| Formatter.CopyString | src/ca_string.c:227-233 | a string is copied up to its NUL or up to the end of the room |
| Formatter.DigitsInto | src/ca_string.c:409-461 | the backward digit loop leaves the digits at the end of the buffer and never leaves it |
| Formatter.SprintfNum | src/ca_string.c:401-480 | padding and digits together are cut at last |
| Formatter.ReadWidth | src/ca_string.c:164-166 | the width, modulo 2^32 |
| Formatter.ReadSettings | src/ca_string.c:169-213 | the flags up to the conversion character, with the argument of a star |
| Formatter.PutInteger | src/ca_string.c:244-388 | sign and magnitude of every integer conversion, cut at last |
| Formatter.PutPiece | src/ca_string.c:216-388 | every conversion writes the part of its text that fits and consumes its arguments; what its text is, FormatParts.DirectiveConverts says |
| Formatter.PutConversion | src/ca_string.c:151-390 | the same from the percent sign on |
| Formatter.PutNext | src/ca_string.c:144-395 | one turn of the loop writes the part that fits of what its part of the format stands for |
| Formatter.Vslprintf | src/ca_string.c:132-398 | for every well-formed format exactly the first min(room, length) bytes of the unlimited output are written, and no other byte of the buffer changes; what that output is, FormatParts.FormatPrints says |
| Numbers.WrapStep | src/ca_util.c:109-109 | wrapping at each digit is wrapping once |
| Numbers.NumberIsValueIff | src/ca_util.c:95-143 | the readers answer the number on the line if and only if there is one and it is in range |
| Numbers.OverflowExample | src/ca_util.c:120-143 | 2^64 + 7 is read as 7 |
| Numbers.Atoi | src/ca_util.c:95-117 | the error cases, the value when it fits an int, and the wrapped answer otherwise |
| Numbers.Atosz | src/ca_util.c:120-143 | the same for ssize_t |
| Numbers.ReadNumber | src/ca_util.c:120-143 | the loop both share, for any range |
| Numbers.ReadsDigits | src/ca_string.c:430-442 | the decimal digits are read back, and so does ca_atosz below 2^63 |
| Numbers.ReadsPadded | src/ca_string.c:463-480 | zero-padding does not change the number that ca_atosz reads |
| Duration.ReadUnit | src/ca_util.c:304-398 | which units are allowed after which, with their scale and the largest value that stays within 2^31 - 1 |
| Duration.Spaces | src/ca_util.c:411-413 | the spaces behind a unit are skipped |
| Duration.ParseTime | src/ca_util.c:268-421 | a line that is not a strictly descending list of terms with some digit is refused; if its numbers fit in 64 bits the answer is the sum of value times scale, or -1 if the terms exceed 2^31 - 1 |
| DurationRoundTrip.ReadsWritten | src/ca_util.c:268-421 | any list of terms, with any spaces behind each, with or without a last number, is read as its sum if and only if each unit is shorter than the one before it and the terms stay within 2^31 - 1, and refused otherwise |
| DurationRoundTrip.ShrinkingIff | src/ca_util.c:304-388 | the order in which units are accepted is strictly that of their sizes, years and months only where seconds are asked for, milliseconds only where those are, and nothing behind a lone space |
| DurationRoundTrip.GreedySums | src/ca_util.c:304-388 | the greedy rendering is descending and adds up |
| DurationRoundTrip.ReadsGreedy | src/ca_util.c:268-421 | every duration up to 2^31 - 1 rendered in y M w d h m s, or in w d h m s ms, is read back |
| DurationRoundTrip.ReadsUnit | src/ca_util.c:304-404 | any number of one unit reads as that many times its size in seconds or milliseconds, from a year of 31536000 seconds down to a millisecond, or is refused beyond 2^31 - 1 |
| DurationRoundTrip.UnitsRelate | src/ca_util.c:324-379 | a week reads like seven days, a day like 24 hours, an hour like 60 minutes, a minute like 60 seconds, in seconds and in milliseconds |
| DurationRoundTrip.OutermostUnits | src/ca_util.c:306-361 | a year reads like 365 days, a month like 30, a second like 1000 milliseconds |
| DurationRoundTrip.LoneSpace | src/ca_util.c:380-396 | a number with a space behind it is one of seconds, held to 2^31 - 1 |
| DurationRoundTrip.PlainNumber | src/ca_util.c:416-418 | a number without a unit is not bounded |
| TailQueue.Queue.constructor | src/ca_queue.h:257-260 | a new queue is empty |
| TailQueue.Queue.Init | src/ca_queue.h:257-260 | the queue is empty again, its last address its own head |
| TailQueue.Queue.InsertHead | src/ca_queue.h:268-272 | the element is put before the members; the links and the last address are right |
| TailQueue.Queue.Extend | src/ca_queue.h:235-241 | a chain of links is put behind the members through the last address, which then is that of its final link |
| TailQueue.Queue.InsertTail | src/ca_queue.h:274-278 | the element is put behind the members, through the last address |
| TailQueue.Queue.InsertAfter | src/ca_queue.h:262-266 | the element is put behind the given member |
| TailQueue.Queue.RemoveHead | src/ca_queue.h:300-307 | the first member leaves |
| TailQueue.Queue.RemoveAfter | src/ca_queue.h:309-316 | the member behind the given one leaves |
| TailQueue.Queue.Remove | src/ca_queue.h:288-298 | any member leaves, the others keep their order |
| TailQueue.Queue.Concat | src/ca_queue.h:235-241 | the members of the second queue move behind those of the first |
| TailQueue.Queue.Swap | src/ca_queue.h:318-329 | the members change places, and both last addresses are right also when a queue is empty |
| TailQueue.Queue.Last | src/ca_queue.h:280-284 | the last address leads to the last member |
| TailQueue.Queue.Walk | src/ca_queue.h:247-250 | a walk along the links meets every member once, in order |
| TailQueue.Queue.Empty | src/ca_queue.h:243-243 | the first link is null if and only if there is no member |
| Supervisor.Kernel.Fork | src/clagent.c:519-529 | a pid that was never handed out before becomes a child, or nothing changes |
| Supervisor.Kernel.Wait | src/clagent.c:1224-1239 | one child is reaped, or nothing changes |
| Supervisor.TableSpawn | src/clagent.c:531-577 | putting a new child into the table keeps its slots, pids and marks right |
| Supervisor.TableUpdate | src/clagent.c:1242-1248 | so does marking a slot whose child is gone |
| Supervisor.TargetsSent | src/clagent.c:1258-1268 | over the fields of the slots: in a round each child on the table that is not detached and has not exited is sent the signal exactly once, except SIGTERM and SIGINT to one that is already exiting, and nobody else is sent anything |
| Supervisor.RoundReaches | src/clagent.c:1258-1268 | so SIGKILL and SIGQUIT reach every process on the table that is there and not detached, exactly once, whether or not it was told to go before |
| Supervisor.Master.constructor | src/clagent.c:485-493 | the table starts empty |
| Supervisor.Master.FindSlot | src/clagent.c:507-515 | as slots are never given back, the search always ends at ca_last_process |
| Supervisor.Master.Spawn | src/clagent.c:496-581 | a new or old slot gets the child with its respawn kind, the other slots are untouched, ca_last_process stays at most 1024, a failed fork changes nothing |
| Supervisor.Master.ReapChildren | src/clagent.c:584-613 | live is set if and only if a child is left; a slot gets a new child only if its old one exited, wants it, was not told to go and no quit is pending, and exactly then if no fork fails |
| Supervisor.Master.ReapOne | src/clagent.c:590-610 | what becomes of one slot |
| Supervisor.Master.GetStatus | src/clagent.c:1214-1249 | all dead children are collected, only exit marks change, and if the table was exact it stays exact |
| Supervisor.Master.MarkExited | src/clagent.c:1242-1248 | exactly the slot with the reaped pid is marked |
| Supervisor.Master.SignalChildren | src/clagent.c:1252-1287 | each child that is not detached and has not exited is sent the signal exactly once, in order, except SIGTERM and SIGINT to one that is already exiting; nobody else is; and what happens to each slot |
| Supervisor.Master.SignalOne | src/clagent.c:1270-1286 | what each answer to a kill does to the slot, and that only a process that is gone asks for reaping |
| Supervisor.Master.Handle | src/clagent.c:1117-1211 | each signal sets its own flag; without a SIGCHLD the table stays as it is, with one every dead child is collected |
| Supervisor.Master.Suspend | src/clagent.c:800-800 | the same for all signals that are pending |
| Supervisor.Master.Tick | src/clagent.c:780-784 | the delay doubles once per alarm, only while it runs, and the alarm is then used up |
| Supervisor.Master.Escalate | src/clagent.c:811-828 | which signal is sent to whom: SIGKILL exactly after five doublings |
| Supervisor.Master.Turn | src/clagent.c:779-839 | the loop is left exactly when every child has exited and a quit or termination is pending; otherwise the children are signalled, in order; a child is started again only if it was collected, wants it, was not told to go and no quit is pending, and exactly then if no fork fails; the flag for live children changes only with a SIGCHLD |
| Supervisor.Master.Collect | src/clagent.c:800-806 | the handlers run, then the dead children are looked at: flags, table, and which slots are started again |
| Supervisor.Master.Decide | src/clagent.c:808-828 | when the loop is left, and otherwise which signal goes to which children |
| Supervisor.Master.TurnOf | src/clagent.c:779-839 | the flags, the delay and the signal of a turn are those that the deliveries so far determine |
| Supervisor.KillStays | src/clagent.c:780-821 | a turn after one that sends SIGKILL sends it again |
| Supervisor.FirstKill | src/clagent.c:780-821 | five turns with an alarm from the first asked to terminate on bring SIGKILL about, and at least four after it are needed |
| Supervisor.DoubledStep | src/clagent.c:780-814 | how a delivered alarm moves the count of doublings, a turn later |
| Supervisor.Master.CreateProcesses | src/clagent.c:616-627 | the new children fill the next slots, as many as asked for less the forks that failed, each of the program and kind asked for |
| Supervisor.Master.StartChildren | src/clagent.c:764-771 | the table is exact after the first forks: the three programs in order, less those whose fork failed, each to be started again when it exits |
| Supervisor.Master.Cycle | src/clagent.c:717-842 | over any deliveries the table agrees with the kernel; when the loop is left no child of the table is left, and while it is not, one is left or nobody asked to leave; if no child could be started it is left if and only if that was asked and a SIGCHLD was delivered; none was started after a quit; the signal sent in each turn, and so the first SIGKILL, is a function of the deliveries, and the kills are exactly those of the turns; in each turn these reach exactly the children that they must, with SIGKILL every one that is there and not detached |
| Supervisor.PowersOfTwo | src/clagent.c:816-821 | the delay exceeds 1000 exactly after five doublings |

## Left out

- The samplers under `src/acq`, and the update process: they consume fields one at a time.
- Real sockets, select, files, time and processes: they are oracles, either a script of answers or a
  parameter. A script that has run out answers with a failure, so a peer that closes the connection and
  lets the receive loop spin is not shown to end.
- `%f` in the formatter, and formats that end in an unfinished conversion: `Format.Full` has no value
  for them, and `Formatter.Vslprintf` requires one. A 32-bit and a 64-bit digit loop in the source are
  one loop here; signed arguments stand for their value after the conversion to 64 bits, and the
  negation of -2^63 gives 2^63.
- Undefined behaviour of signed overflow in the number and duration readers is modelled as wrapping.
- Duration.ParseTime: says nothing about the value when a number on the line does not fit in 64 bits,
  because the source does not define it.
- Duration.ReadUnit: the byte behind the end of the line, which the source may read after an `m`, counts
  as different from `s`, as it is for a terminated string.
- Allocation failures, except for ca_heap_insert, and memory already freed: reads of the pool by workers
  that outlive it are cut off at the step that frees it.
- A heap whose record callback is missing only differs in recording nothing; a missing less callback
  compares addresses, which is one of the orders the theorems cover.
- Read errors and short reads of the configuration file, the include directive, the argument-count
  tables and the setters of directives: a directive is accepted or not by a parameter.
- FormatParts.FormatPrints: each conversion has one flag at most.
- Failover.Submitter.Cycle: takes its batches from a list; the queue they come from is in Pipeline.
- Signal-handler reentrancy: signals arrive in sigsuspend only. SIGHUP, which the source does not block,
  is treated like the others.
- The binary upgrade, the log, process titles and the pid file; the growth of the delay beyond an int.
- The queues of Pipeline are sequences, those of BatchQueues linked lists: every method of the lists is
  proved to change them by the function that the step of the threads uses, but the interleaving itself
  is modelled on the sequences only.
- Pipeline.OwnedStep: a released node may be handed out again by the allocator, as the source allows; the
  unsigned counters are unbounded integers.
