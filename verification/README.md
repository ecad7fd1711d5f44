# Verified models of nine small systems components

A Dafny project that models nine components of the repository and proves what
they promise. Check it with `dafny verify dfyconfig.toml`.

Each concurrent component is a state machine over atomic steps of any number of
threads; an invariant is proved for every step and every run, and the promises
follow from it. Beside the machine stands a class whose methods change their
fields in place as the code does, each proved to be a step of the machine.
The sequential components are classes over arrays, linked nodes or bytes, each
proved to refine a simple thing.

| component | files | the simple thing |
|---|---|---|
| lock-free stack and its test program | `LockFreeStack*.dfy`, `ProduceConsume*.dfy` | a sequential stack |
| bounded blocking queue | `BlockingQueue*.dfy` | a sequence, accepted = removed + queue |
| thread pool | `ThreadPool*.dfy` | each accepted task once |
| mark-and-sweep collector | `GarbageCollector.dfy` | reachability in a graph |
| port scanner, two versions | `Knocker*.dfy` | a map of start times, swept in full |
| intrusive hash map | `HashMap.dfy`, `Bits.dfy` | one list, newest first |
| memory pool | `MemoryPool.dfy` | a set of free chunks |
| arena | `Arena.dfy`, `Bits.dfy` | disjoint ranges |
| vector | `Vector.dfy` | a sequence |

`Totals.dfy` holds sums over sequences, used for counting threads and for measures;
`Sequences.dfy` and `Wrappers.dfy` hold stock definitions.

## What the models assume, and what turned out

- Lock-free stack. Steps interleave one at a time. Freed addresses may be handed
  out again by `new`; a read of `next` through a freed node may return anything;
  a weak compare-and-swap may fail for no reason. The text of
  `Lock-free-stack/Readme.md` says the tag is incremented on every CAS; the code
  draws it from a counter before every attempt, and the initial top shares tag 0
  with the first push, so values of top are ordered by (tag, node != null). The
  Readme's closing note about reclamation is right: pops do read `next` through
  freed nodes (`FreedReadHappens`), but never under a snapshot that can still win
  (`FreedReadCannotWin`), and no other access is to a dead node. The exact
  condition is the number of threads that call pop: all such reads are of live
  nodes if and only if it is at most one (`ReadsAreLiveExactly`; for the test
  program `ConsumersReadLiveExactly`).
- Stack object. Between any two actions of the thread that runs the code the
  others take a turn, as a finite schedule says; the schedule also names spurious
  failures. Every interleaving has a schedule (`AnyTurnPossible`, and for whole
  turns of the loops `AnyPushRacePossible`, `AnyPopRacePossible`), and `Push` and
  `Pop` are proved to play it, turn by turn, and to return under every schedule.
- Queue and pool. `notify_one` may choose any sleeper, waits may end spuriously,
  and a woken thread competes for the mutex like any other. The pool notifies
  after releasing the mutex, so its balance counts notifications still owed.
- Thread pool. `Thread-Pool/README.md` says queued tasks are finished before the
  destructor's joins complete. With zero workers they are not (`TaskIsLost`);
  `EveryTaskRunsOnce` gives the exact condition.
- Collector. Objects may be linked before they are tracked, as the demonstration
  program does; a collection needs every reference of a tracked object and every
  root to be tracked by then, and nothing deleted may be used again. `mark` prints
  a reference's name before it tests for null (line 56), so null references are
  not allowed.
- Port scanner. The kernel is a trace: for each attempt a descriptor and an
  answer, a clock that does not run backwards, batches of events. The ready
  branch does not look at `active`, so an event for a socket already retired
  spoils list and counter: `StaleEventLosesSocket` shows a socket left in flight
  with the counter at 0, and `ReadyEventsNeedLinkedSockets` says exactly which
  ready events are harmless. Runs assume such events away. The guard
  `sock > max_fd` (line 176) lets `max_fd` itself, and nothing else, through to a
  table of `max_fd` entries (`GuardMissesOnlyMaxFd`); runs assume the kernel does
  not hand that one out. What a run does to each socket it puts in flight is
  `LifeOfSocket`: it is there until a timer event more than two seconds after its
  start or a ready event that names it.
- Hash map. `eq` is any relation. The constructor's assertion is its precondition.
- Memory pool. Addresses are numbers, null is 0, and the first eight bytes of a
  free chunk hold an address, least significant byte first. Callers give back
  only chunks they hold and write only inside them. Where the pool lies is a
  parameter.
- Arena. 64-bit words wrap around explicitly. The range check is right for every
  capacity up to 2^64 - 8 and for no larger one (`ExactCapacities`), with
  `WrapAroundOverlaps` as the example beyond. Offsets are relative to the memory
  block, itself aligned by `malloc`.
- Vector. Elements are plain values.

## Model

Each row names a member, the lines it models and what its contract states.

| member | source | states |
|---|---|---|
| LockFreeStackInvariant.NextInv | Lock-free-stack/main.cpp:42-77 | every atomic step keeps: the list from top is acyclic and live, each live node is in it or held by exactly one thread, snapshots are ordered by (tag, node != null), each thread's local variables are still true, the log replays on a sequential stack |
| LockFreeStackInvariant.RunInv | Lock-free-stack/main.cpp:37-77 | that invariant after every run of any number of threads from the initial `{null, 0}` |
| LockFreeStackInvariant.CasOnCurrentTop | Lock-free-stack/main.cpp:45-70 | a compare-and-swap that can succeed has a snapshot taken since the last success; a pop then installs the real successor, a push a node that already points at top |
| LockFreeStackInvariant.NextChain | Lock-free-stack/main.cpp:50-74 | each step leaves a distinct, live, null-ended list, and only a successful compare-and-swap changes its keys |
| LockFreeStackInvariant.NextOwnership | Lock-free-stack/main.cpp:43-74 | nodes made and not yet linked, and nodes won and not yet deleted, each stay with exactly one thread |
| LockFreeStackInvariant.NextNoFault | Lock-free-stack/main.cpp:50-74 | no write, key read or delete goes through a node that is not live |
| LockFreeStackInvariant.NextReplay | Lock-free-stack/main.cpp:54-70 | the log of operations stays a legal history of a sequential stack ending in the keys of the list |
| LockFreeStackInvariant.NextCall | Lock-free-stack/main.cpp:42-77 | a call enters the log once, between its start and its return |
| LockFreeStackTheorems.StepRefines | Lock-free-stack/main.cpp:42-77 | in every reachable state, a step is one operation of a sequential stack or changes nothing: push and pop at the successful swap, empty pop where null is read |
| LockFreeStackTheorems.Linearizable | Lock-free-stack/main.cpp:42-77 | the log replays to the present contents, and each thread's part of it is what it has returned from plus at most its current call |
| LockFreeStackTheorems.LogIsPrefix | Lock-free-stack/main.cpp:42-77 | later runs only extend the log |
| LockFreeStackOrder.RealTimeOrder | Lock-free-stack/main.cpp:42-77 | when a thread is between two calls, every operation any thread has returned from stands in the log before every later operation of that thread, for the rest of every run |
| LockFreeStackOrder.PositionCounts | Lock-free-stack/main.cpp:42-77 | the position used there is that of the thread's k-th operation |
| LockFreeStackTheorems.PopReturnsWhatItTook | Lock-free-stack/main.cpp:63-76 | pop returns the key the sequential stack had on top, or 0 with an empty pop in the log |
| LockFreeStackTheorems.CasDetectsEveryChange | Lock-free-stack/main.cpp:53-70 | the swap finds the values equal if and only if no other swap succeeded since the snapshot, addresses being reused freely |
| LockFreeStackTheorems.TopUnchangedSinceSnapshot | Lock-free-stack/main.cpp:58-70 | from the snapshot to the swap that succeeds on it, top has the same value in every state between |
| LockFreeStackTheorems.MemorySafe | Lock-free-stack/main.cpp:43-74 | each delete is of a live node held by that thread alone, so no node is deleted twice; the key read is the key the pop is logged with |
| LockFreeStackTheorems.NoLeak | Lock-free-stack/main.cpp:43-74 | with no call in progress the live nodes are exactly those in the list |
| LockFreeStackTheorems.FreedReadCannotWin | Lock-free-stack/main.cpp:68-70 | a `next` read through a freed node belongs to a snapshot that can no longer succeed |
| LockFreeStackReclamation.FreedReadHappens | Lock-free-stack/main.cpp:68-74 | such reads do occur: for any two threads that pop, a run that reaches one |
| LockFreeStackReclamation.ReadsAreLiveExactly | Lock-free-stack/main.cpp:68-74 | over all runs of any number of threads, `next` is only read through live nodes if and only if at most one thread calls pop |
| LockFreeStackReclamation.ReadsAreLiveAlone | Lock-free-stack/main.cpp:68-74 | when every thread may pop: if and only if there is at most one thread |
| LockFreeStackProgress.RunBound | Lock-free-stack/main.cpp:45-70 | failures so far plus snapshots now stale are at most T - 1 per success |
| LockFreeStackProgress.FailuresBoundedBySuccesses | Lock-free-stack/main.cpp:45-70 | in every run of T threads the non-spurious failures number at most (T - 1) times the successes |
| LockFreeStackProgress.NeverBlocked | Lock-free-stack/main.cpp:42-77 | in every reachable state every thread has a possible step, inside its call if it has one; a thread between calls may begin either |
| LockFreeStackObject.Stack.Act | Lock-free-stack/main.cpp:37-77 | the object's fields change exactly as the machine's step says |
| LockFreeStackObject.Stack.CompareAndSwap | Lock-free-stack/main.cpp:53-70 | success is the machine's successful step; failure refreshes the snapshot; it succeeds exactly when the values are equal and no spurious failure is due |
| LockFreeStackObject.Stack.Interfere | Lock-free-stack/main.cpp:42-77 | between two actions of a thread the others perform exactly the actions scheduled for that turn, and the rest of the schedule stays |
| LockFreeStackObject.AnyTurnPossible | Lock-free-stack/main.cpp:42-77 | any run of the other threads, followed by anything, is a possible turn |
| LockFreeStackObject.AnyPushRacePossible | Lock-free-stack/main.cpp:49-54 | whatever the others do before the link, before the tag and before the swap of a turn of the push loop, some schedule makes it that turn |
| LockFreeStackObject.AnyPopRacePossible | Lock-free-stack/main.cpp:62-70 | the same for a turn of the pop loop |
| LockFreeStackObject.Stack.TryPush | Lock-free-stack/main.cpp:49-54 | one turn of the push loop is link, tag and swap with the others' turn before each: linked, or the snapshot is fresh again and an action of another thread or a spurious failure has been used up |
| LockFreeStackObject.Stack.Push | Lock-free-stack/main.cpp:42-55 | push with its loop takes effect once within the call and returns, under any finite interference; state and schedule at the end are those after its turns and those of the others, played in between |
| LockFreeStackObject.Stack.TryPop | Lock-free-stack/main.cpp:62-70 | one turn of the pop loop, the others playing theirs: won or empty, or fresh again with less interference left |
| LockFreeStackObject.Stack.TakeKey | Lock-free-stack/main.cpp:72-76 | the end of pop reads the key and deletes the node it won, without fault |
| LockFreeStackObject.Stack.Pop | Lock-free-stack/main.cpp:57-77 | pop with its loop takes effect once within the call and returns the key it took, or 0 from an empty stack; state and schedule at the end are those after its turns and those of the others |
| ProduceConsume.KeysConserved | Lock-free-stack/main.cpp:42-77 | in every reachable state the keys pushed are, as multisets, those that pops have returned, those they have taken and not yet returned, and those in the stack |
| ProduceConsume.LogConserves | Lock-free-stack/main.cpp:88-116 | in a legal log the keys pushed are those popped and those left |
| ProduceConsume.SumsConserved | Lock-free-stack/main.cpp:94-111 | the same for sums and counts |
| ProduceConsume.PositiveKeys | Lock-free-stack/main.cpp:92-109 | with keys of at least 1, nothing popped or stored is 0, so a returned 0 means empty |
| ProduceConsume.StepInv | Lock-free-stack/main.cpp:88-116 | every step of producer and consumers keeps local sums, keys in flight and the log in balance |
| ProduceConsume.ExecuteInv | Lock-free-stack/main.cpp:122-142 | that balance after every run of one producer and any number of consumers |
| ProduceConsume.SumsAgree | Lock-free-stack/main.cpp:148-154 | when all have finished, the stack is empty, every node is freed and both sums are 1 + ... + N, for every number of consumers and items |
| ProduceConsumeRuns.FinishedRunExists | Lock-free-stack/main.cpp:122-142 | every number of consumers and items has a run in which all finish |
| ProduceConsumeRuns.ConsumersReadLiveExactly | Lock-free-stack/main.cpp:68-74 | the consumers read `next` only through live nodes if and only if there is at most one of them, or nothing to take |
| ProduceConsumeObject.Produce | Lock-free-stack/main.cpp:88-98 | the producing loop, under any finite interference, has pushed exactly 1, 2, ..., N in order and returns their sum, 1 + ... + N |
| ProduceConsumeObject.Consume | Lock-free-stack/main.cpp:101-112 | the nested consuming loops return the sum of exactly the share of keys taken, none of them 0, or give up with fewer, and then only after calling pop as often as their patience allows |
| BlockingQueueInvariant.StepInv | Thread_Safe_Queue/thread_safe_queue.cpp:15-83 | every action keeps mutual exclusion, capacity, order, and the wakeup balance on both conditions |
| BlockingQueueInvariant.RunInv | Thread_Safe_Queue/thread_safe_queue.cpp:15-83 | the same after every run |
| BlockingQueueInvariant.NextGaps | Thread_Safe_Queue/thread_safe_queue.cpp:19-27 | no action lets items outrun what is on its way to consumers, nor free slots what is on its way to producers, unless nobody sleeps there |
| BlockingQueueTheorems.NoLostWakeup | Thread_Safe_Queue/thread_safe_queue.cpp:45-60 | with the mutex free and no shutdown: if a consumer sleeps there are at least as many woken consumers as items; dually for producers and free slots |
| BlockingQueueTheorems.ShutdownWakesEverybody | Thread_Safe_Queue/thread_safe_queue.cpp:77-83 | after a shutdown nobody sleeps once the mutex is free |
| BlockingQueueTheorems.SomebodyProceeds | Thread_Safe_Queue/thread_safe_queue.cpp:15-83 | while some call is neither finished nor asleep, an action inside a call is possible |
| BlockingQueueTheorems.SleepOnlyForAReason | Thread_Safe_Queue/thread_safe_queue.cpp:19-51 | no deadlock: if every unfinished call sleeps, all wait on the same condition and it really is unmet, before any shutdown |
| BlockingQueueTheorems.ShutdownDrains | Thread_Safe_Queue/thread_safe_queue.cpp:77-83 | after shutdown every run without new calls is bounded by a measure that each action lowers |
| BlockingQueueTheorems.ShutdownEndsIdle | Thread_Safe_Queue/thread_safe_queue.cpp:77-83 | after shutdown no action inside a call is possible if and only if every call has returned |
| BlockingQueueTheorems.FirstInFirstOut | Thread_Safe_Queue/thread_safe_queue.cpp:26-58 | at most max_size items; the i-th item removed is the i-th accepted and the queue is the rest, in order |
| BlockingQueueTheorems.AnswersAreTrue | Thread_Safe_Queue/thread_safe_queue.cpp:23-74 | what each call returns is what it did: refusals only when shut down (or full, for try_push), nothing only when empty (and, for pop, shut down) |
| BlockingQueueTheorems.DrainedForEver | Thread_Safe_Queue/thread_safe_queue.cpp:53-54 | once a blocking pop has returned nothing, accepted equals removed and neither ever changes again |
| BlockingQueueTheorems.NothingAcceptedAfterShutdown | Thread_Safe_Queue/thread_safe_queue.cpp:23-37 | from any state that is shut down, no run accepts another item, whatever the queue still holds |
| BlockingQueueTheorems.CallDecides | Thread_Safe_Queue/thread_safe_queue.cpp:19-80 | push is refused if and only if shut down, try_push also when full; pops come back with nothing if and only if empty, pop only when shut down too; only push on a full and pop on an empty running queue sleep; the queue grows exactly otherwise |
| BlockingQueueTheorems.CallsArePossible | Thread_Safe_Queue/thread_safe_queue.cpp:15-83 | calls can begin at any time, get to their test once the mutex is free, wake any one sleeper they notify, and return |
| BlockingQueueObject.ThreadSafeQueue.PushSection | Thread_Safe_Queue/thread_safe_queue.cpp:17-28 | push under the mutex does the machine's step: refused and nothing changed when shut down, asleep when full, else the item at the back |
| BlockingQueueObject.ThreadSafeQueue.TryPushSection | Thread_Safe_Queue/thread_safe_queue.cpp:34-41 | the same for try_push: refused exactly when shut down or full, else the item at the back |
| BlockingQueueObject.ThreadSafeQueue.PopSection | Thread_Safe_Queue/thread_safe_queue.cpp:47-59 | the same for pop: the front item if there is one, nothing if shut down, else asleep |
| BlockingQueueObject.ThreadSafeQueue.TryPopSection | Thread_Safe_Queue/thread_safe_queue.cpp:65-73 | the same for try_pop: the front item, or nothing exactly when empty |
| BlockingQueueObject.ThreadSafeQueue.ShutdownSection | Thread_Safe_Queue/thread_safe_queue.cpp:79-80 | done is set and the queue kept |
| BlockingQueueObject.ThreadSafeQueue.NotifyAll | Thread_Safe_Queue/thread_safe_queue.cpp:81-82 | the loop over sleepers wakes exactly those on the condition |
| BlockingQueueObject.ThreadSafeQueue.Perform | Thread_Safe_Queue/thread_safe_queue.cpp:15-83 | every action in place is the machine's step and keeps the invariant |
| ThreadPoolProofs.StepInv | Thread-Pool/main.cpp:18-55 | every action keeps mutual exclusion, the meaning of stop, the wakeup balance with notifications still owed, and one run per task |
| ThreadPoolProofs.RunInv | Thread-Pool/main.cpp:18-55 | the same after every run |
| ThreadPoolProofs.NextWakeOk | Thread-Pool/main.cpp:21-45 | queued tasks never outnumber woken workers plus notifications owed while a worker sleeps |
| ThreadPoolProofs.NoLostWakeup | Thread-Pool/main.cpp:22-45 | with the mutex free and the pool running, a sleeping worker implies tasks <= woken workers + clients that still owe notify_one |
| ThreadPoolProofs.StopWakesEverybody | Thread-Pool/main.cpp:47-52 | after stop, a worker sleeps only while notify_all is still owed |
| ThreadPoolProofs.AtMostOnce | Thread-Pool/main.cpp:26-42 | no task is run twice, and an accepted task not yet run is queued or in a worker's hands |
| ThreadPoolProofs.EveryTaskRunsOnce | Thread-Pool/main.cpp:23-55 | when the destructor is through, every accepted task has run exactly once if and only if there is a worker or no task was accepted |
| ThreadPoolProofs.PoolRunsEveryTaskOnce | Thread-Pool/main.cpp:15-55 | the same for every run of a pool made for n workers: if and only if n is positive or nothing was accepted |
| ThreadPoolProofs.EveryEnqueueIsAccepted | Thread-Pool/main.cpp:36-45 | over every run the tasks accepted are as many as the enqueues that found the pool running: none is dropped |
| ThreadPoolProofs.WayThroughEnqueue | Thread-Pool/main.cpp:36-45 | an enqueue can begin until the pool is destroyed; an accepted task is followed by one notification after the mutex is released, which wakes any one sleeper |
| ThreadPoolProofs.WayOfWorker | Thread-Pool/main.cpp:18-30 | a worker awake gets to its test once the mutex is free; the task it has taken is run and it looks for the next |
| ThreadPoolProofs.TaskIsLost | Thread-Pool/main.cpp:36-56 | a run in which a pool without workers accepts a task and is destroyed without running it |
| ThreadPoolProofs.StopDrains | Thread-Pool/main.cpp:39-55 | after stop nothing more is accepted and the workers have boundedly many steps left, whatever others do |
| ThreadPoolProofs.DestructorNeverStuck | Thread-Pool/main.cpp:47-56 | until the destructor is through, some action other than a new call or a spurious wakeup is possible |
| ThreadPoolObject.Executor.WorkerSection | Thread-Pool/main.cpp:21-28 | the worker under the mutex does the machine's step: it takes the front task if there is one, leaves if stopped, else sleeps |
| ThreadPoolObject.Executor.EnqueueSection | Thread-Pool/main.cpp:37-43 | enqueue under the mutex throws exactly when stopped, changing no task, and otherwise appends its task |
| ThreadPoolObject.Executor.NotifyEverybody | Thread-Pool/main.cpp:52 | the loop wakes every sleeper and nobody else |
| ThreadPoolObject.Executor.Perform | Thread-Pool/main.cpp:18-55 | every action in place is the machine's step and keeps the invariant |
| ObjectGraph.LiveIsClosed | mark-n-sweep/Mark & sweep/garbage_collector.h:55-65 | what is reachable holds the roots and whatever its members refer to |
| ObjectGraph.LiveIsLeast | mark-n-sweep/Mark & sweep/garbage_collector.h:55-65 | and is the least such set |
| ObjectGraph.CollectedIsWellFormed | mark-n-sweep/Mark & sweep/garbage_collector.h:86-91 | a collection leaves no dangling reference or root |
| ObjectGraph.CollectionKeepsLive | mark-n-sweep/Mark & sweep/garbage_collector.h:86-91 | nothing that was reachable stops being so |
| ObjectGraph.CollectTwice | mark-n-sweep/Mark & sweep/garbage_collector.h:86-91 | collecting a collected heap changes nothing |
| ObjectGraph.CollectionDanglesNothing | mark-n-sweep/Mark & sweep/garbage_collector.h:86-91 | after a collection nothing kept refers to anything deleted, and all it refers to is tracked |
| ObjectGraph.RunHeapInv | mark-n-sweep/Mark & sweep/garbage_collector.h:32-91 | over every run of track (in any order), addRoot, root removal, reference edits and collect: nothing dangles, nothing deleted is tracked, and every object ever tracked is kept or deleted, never both |
| ObjectGraph.EveryCollectionIsExact | mark-n-sweep/Mark & sweep/garbage_collector.h:86-91 | in every permitted run, each collection leaves exactly the objects reachable just before it, with roots and references unchanged, and deletes exactly the rest |
| ObjectGraph.OnlyGarbageIsDeleted | mark-n-sweep/Mark & sweep/garbage_collector.h:69-83 | whatever a run deletes was tracked and unreachable at one of its collections |
| ObjectGraph.DemoKeeps | mark-n-sweep/Mark & sweep/main.cpp:6-20 | the demonstration program, which links first and tracks afterwards, is such a run and keeps all three objects |
| ObjectGraph.DemoDeletes | mark-n-sweep/Mark & sweep/main.cpp:22-25 | without roots its second collection deletes all three |
| GarbageCollection.GarbageCollector.Mark | mark-n-sweep/Mark & sweep/garbage_collector.h:44-59 | the recursion ends on cyclic graphs and marks obj and, for every object it newly marks, all that object's references, inside any closed set holding obj |
| GarbageCollection.GarbageCollector.MarkAll | mark-n-sweep/Mark & sweep/garbage_collector.h:61-66 | from an unmarked heap exactly the reachable objects are marked |
| GarbageCollection.GarbageCollector.Sweep | mark-n-sweep/Mark & sweep/garbage_collector.h:69-83 | the marked objects stay, unmarked; the others are deleted |
| GarbageCollection.GarbageCollector.Collect | mark-n-sweep/Mark & sweep/garbage_collector.h:86-91 | the objects kept are exactly those reachable before, exactly the others are deleted, roots and references stay, every mark is clear, nothing dangles |
| GarbageCollection.GarbageCollector.Track | mark-n-sweep/Mark & sweep/garbage_collector.h:32-35 | adds the object, whose references need not be tracked yet, and keeps the heap invariant |
| GarbageCollection.GarbageCollector.AddRoot | mark-n-sweep/Mark & sweep/garbage_collector.h:38-41 | appends the root, likewise |
| GarbageCollection.GarbageCollector.RemoveRoot | mark-n-sweep/Mark & sweep/garbage_collector.h:29 | takes one root out, likewise |
| GarbageCollection.GarbageCollector.ClearRoots | mark-n-sweep/Mark & sweep/main.cpp:22 | takes all roots out, likewise |
| GarbageCollection.GarbageCollector.CollectAgain | mark-n-sweep/Mark & sweep/garbage_collector.h:86-91 | two collections in a row leave what one leaves: the objects reachable before the first |
| ConnectionList.InsertSpells | knocker/knocker-intrusive.cc:80-92 | inserting appends to the list read forwards and backwards, whatever stale links the entry has |
| ConnectionList.UnlinkEffect | knocker/knocker-intrusive.cc:94-112 | the four cases of unlinking are one: the neighbours, or head and tail, are joined and nothing else changes |
| ConnectionList.UnlinkSpells | knocker/knocker-intrusive.cc:94-112 | unlinking any member, from anywhere, leaves the rest in order |
| ConnectionList.AddRepresents | knocker/knocker-intrusive.cc:207-211 | registering a socket no older than the others keeps the list equal to the map of active sockets, sorted by start time |
| ConnectionList.DropRepresents | knocker/knocker-intrusive.cc:237-241 | retiring any member keeps it so |
| ConnectionList.RepresentsCount | knocker/knocker-intrusive.cc:163-241 | in_flight_count is the length of the list and the number of active sockets |
| ConnectionList.ReadyNeedsLinkedSocket | knocker/knocker-intrusive.cc:243-260 | handling a ready event leaves a list that stands for the sockets in flight if and only if the event's socket was in flight |
| ConnectionList.ReadyEventsNeedLinkedSockets | knocker/knocker-intrusive.cc:220-261 | any number of ready events in a row leave list and counter standing for the sockets in flight if and only if they name different sockets, all in flight |
| ConnectionList.StaleEventLosesSocket | knocker/knocker-intrusive.cc:232-259 | a list of two sockets whose older one times out and is then named by a ready event: the counter is 0 with the other still in flight |
| KnockerIntrusive.GuardMissesOnlyMaxFd | knocker/knocker-intrusive.cc:135-181 | a descriptor that passes the guard has a place in the table if and only if it is not max_fd |
| KnockerIntrusive.NothingLeftToExpire | knocker/knocker-intrusive.cc:233-234 | if the head has not timed out, no socket in flight has |
| KnockerIntrusive.Scanner.ListInsertTail | knocker/knocker-intrusive.cc:80-92 | in place, list_insert_tail is the function above |
| KnockerIntrusive.Scanner.ListUnlink | knocker/knocker-intrusive.cc:94-112 | in place, list_unlink is the function above |
| KnockerIntrusive.Scanner.Register | knocker/knocker-intrusive.cc:207-211 | the socket enters table, list and counter |
| KnockerIntrusive.Scanner.Retire | knocker/knocker-intrusive.cc:254-259 | the socket leaves them, from anywhere in the list |
| KnockerIntrusive.Scanner.Sweep | knocker/knocker-intrusive.cc:232-242 | the sweep that stops at the first unexpired head leaves exactly the sockets that started at most two seconds ago, as the full scan does, looking at no more than one other |
| KnockerIntrusive.Scanner.HandleBatch | knocker/knocker-intrusive.cc:220-261 | a batch of timer and ready events has the effect of the map version, each ready event naming a socket in flight when it is handled; in flight afterwards are exactly the sockets that no event of the batch ends |
| KnockerIntrusive.Scanner.Attempt | knocker/knocker-intrusive.cc:196-215 | an attempt in progress is in flight from its clock reading and not closed; any other answer closes the descriptor and puts nothing in flight |
| KnockerIntrusive.Scanner.FillUp | knocker/knocker-intrusive.cc:167-216 | the fill loop has the effect of the map version: at most 500 in flight, next port each time, stopping on a failed or oversized descriptor; in flight afterwards are those before and those of its attempts in progress |
| KnockerIntrusive.Scanner.RunLoop | knocker/knocker-intrusive.cc:165-262 | the whole event loop refines the loop on a map, for such batches |
| KnockerEpollTimer.Scanner.Sweep | knocker/knocker-epoll-timer.cc:158-172 | the iterator loop, in any order, leaves exactly the sockets that started at most two seconds ago |
| KnockerEpollTimer.Scanner.HandleBatch | knocker/knocker-epoll-timer.cc:152-188 | every event of a batch is handled: in flight afterwards are exactly the sockets that none of them ends |
| KnockerEpollTimer.Scanner.FillUp | knocker/knocker-epoll-timer.cc:107-146 | the fill loop of the previous version; in flight afterwards are those before and those of its attempts in progress |
| KnockerEpollTimer.Scanner.RunLoop | knocker/knocker-epoll-timer.cc:105-189 | the event loop of the previous version is the loop on a map, with no assumption about events |
| Knocker.LoopKeepsOk | knocker/knocker-intrusive.cc:165-262 | over every run: at most 500 in flight, ports tried once and in order, descriptors handed out are closed or in flight |
| Knocker.ScanIsComplete | knocker/knocker-intrusive.cc:165-266 | on normal exit every port was tried once, in order, and every descriptor closed as often as it was handed out |
| Knocker.LoopUnbounded | knocker/knocker-intrusive.cc:176-181 | under descriptors below the limit the size check changes nothing |
| KnockerLifetimes.FillAttempts | knocker/knocker-intrusive.cc:167-185 | filling makes one attempt for each port it advances over and stops exactly when 500 are in flight or the ports run out, or at an unusable descriptor |
| KnockerLifetimes.FillKeepsOrRegisters | knocker/knocker-intrusive.cc:196-216 | after filling a descriptor is in flight if and only if it was before or an attempt that got it is in progress |
| KnockerLifetimes.FillRegisters | knocker/knocker-intrusive.cc:207-211 | those in flight before keep their start times, and each new one has the time its attempt read |
| KnockerLifetimes.FillHandsOut | knocker/knocker-intrusive.cc:171-181 | each descriptor is counted as often as the kernel gave it |
| KnockerLifetimes.BatchEnds | knocker/knocker-intrusive.cc:220-261 | after a batch a socket is in flight, start time unchanged, if and only if it was and no timer event more than two seconds after its start and no ready event naming it was among the events; if it left, it was closed |
| KnockerLifetimes.LoopEnds | knocker/knocker-intrusive.cc:165 | the loop ends normally if and only if all ports have been tried and nothing is in flight |
| KnockerLifetimes.RunLivesUntilEnded | knocker/knocker-intrusive.cc:165-262 | over every run a socket in flight at the start stays so with its start time if no event handled ends it, and is closed if one does |
| KnockerLifetimes.LifeOfSocket | knocker/knocker-intrusive.cc:165-262 | the same over every run for every socket a round has put in flight, from then on |
| KnockerSimulation.BothVersions | knocker/knocker-intrusive.cc:165-262 | both programs on the same clock and events, for such batches, end in the same state with the same outcome |
| Bits.PowerOfTwoTest | Intrusive-Hash-Map/hashmap.cc:6 | (n - 1) & n is 0 exactly for the powers of two |
| Bits.MaskIsModulo | Intrusive-Hash-Map/hashmap.cc:13 | hcode & (n - 1) is hcode % n for every power of two n |
| HashMap.FindInBucket | Intrusive-Hash-Map/hashmap.cc:22-34 | searching the bucket of the key finds what searching all nodes, newest first, finds |
| HashMap.FindIsNewest | Intrusive-Hash-Map/hashmap.cc:27-31 | what is found matches and nothing newer does |
| HashMap.FindAfterRemove | Intrusive-Hash-Map/hashmap.cc:53-58 | removing a node affects no search it does not match, and uncovers the older ones it does |
| HashMap.RemoveInBucket | Intrusive-Hash-Map/hashmap.cc:36-41 | removing from the flat list is removing from one bucket |
| HashMap.SizeIsSumOfChains | Intrusive-Hash-Map/hashmap.cc:17 | the number of nodes is the sum of the chain lengths |
| HashMap.SpellsWithout | Intrusive-Hash-Map/hashmap.cc:36-41 | redirecting the incoming pointer of any node of a chain leaves the chain without it |
| HashMap.DetachSpelled | Intrusive-Hash-Map/hashmap.cc:36-41 | after a detach slots and links spell out every bucket of the shorter list |
| HashMap.Map.constructor | Intrusive-Hash-Map/hashmap.cc:5-10 | an empty map for every power of two |
| HashMap.Map.Insert | Intrusive-Hash-Map/hashmap.cc:12-18 | the node becomes the newest; only its own link and its slot change |
| HashMap.Map.LookupFrom | Intrusive-Hash-Map/hashmap.cc:20-34 | the incoming pointer to the newest node with equal hash and eq, or none exactly if there is none |
| HashMap.Map.Unhook | Intrusive-Hash-Map/hashmap.cc:37-38 | redirecting any incoming pointer changes only that pointer |
| HashMap.Map.Detach | Intrusive-Hash-Map/hashmap.cc:36-41 | through any incoming pointer, exactly that node leaves the map |
| HashMap.Map.Lookup | Intrusive-Hash-Map/hashmap.cc:43-46 | the newest match, with the key's hash and eq; null exactly if no node has both |
| HashMap.Map.RemoveKey | Intrusive-Hash-Map/hashmap.cc:53-58 | the newest node with the key's hash and eq leaves the flat list and the map; nothing changes exactly if there is none |
| HashMap.InsertThenRemove | Intrusive-Hash-Map/hashmap.cc:12-58 | remove after insert gives the node back and restores the list, every slot and every other link |
| MemoryPool.DecodeEncode | Memory-Pool-in-CPP/MemPool/MemPool.cpp:15 | an address written into a chunk is read back |
| MemoryPool.NextInv | Memory-Pool-in-CPP/MemPool/MemPool.cpp:28-46 | every allocate, deallocate of a held chunk and write inside a held chunk keeps the in-band list: distinct chunks, each holding the address of the next, the last null |
| MemoryPool.RunInv | Memory-Pool-in-CPP/MemPool/MemPool.cpp:28-46 | the same over every run |
| MemoryPool.Partition | Memory-Pool-in-CPP/MemPool/MemPool.cpp:28-46 | free and held chunks partition the pool, and their numbers add up to Amount |
| MemoryPool.NullWhenAllHeld | Memory-Pool-in-CPP/MemPool/MemPool.cpp:30-32 | the head is null exactly when all chunks are held |
| MemoryPool.AllocateHands | Memory-Pool-in-CPP/MemPool/MemPool.cpp:34-36 | the chunk handed out was held by nobody, and only it changes hands; no byte changes |
| MemoryPool.DeallocateTakes | Memory-Pool-in-CPP/MemPool/MemPool.cpp:43-45 | exactly that chunk becomes free, at the front |
| MemoryPool.LastFreedFirst | Memory-Pool-in-CPP/MemPool/MemPool.cpp:34-45 | allocating after a deallocate hands out the same chunk and restores the head |
| MemoryPool.ChunksApart | Memory-Pool-in-CPP/MemPool/MemPool.cpp:5-7 | chunks never overlap and never leave the pool |
| MemoryPool.ChunkSize | Memory-Pool-in-CPP/MemPool/MemPool.cpp:5 | the least size that holds both an object and an address |
| MemoryPool.ObjectsApart | Memory-Pool-in-CPP/MemPool/MemPool.cpp:5-13 | objects in two held chunks never overlap and never leave the pool |
| MemoryPool.HeldChunkKept | Memory-Pool-in-CPP/MemPool/MemPool.cpp:28-46 | a chunk its holder neither frees nor writes stays held and keeps every byte in any step |
| MemoryPool.RunKeepsHeld | Memory-Pool-in-CPP/MemPool/MemPool.cpp:28-46 | and over every run |
| MemoryPool.MemoryManager.constructor | Memory-Pool-in-CPP/MemPool/MemPool.cpp:4-22 | chunks are of the least size that holds an object and an address; the loop threads them all in order; none is held |
| MemoryPool.MemoryManager.ThreadAll | Memory-Pool-in-CPP/MemPool/MemPool.cpp:9-20 | the loop of the constructor links every chunk to the next and the last to null |
| MemoryPool.MemoryManager.Allocate | Memory-Pool-in-CPP/MemPool/MemPool.cpp:28-37 | in place, that step; null exactly when Amount chunks are held |
| MemoryPool.MemoryManager.Deallocate | Memory-Pool-in-CPP/MemPool/MemPool.cpp:39-46 | in place, that step; null changes nothing |
| Bits.ComplementMaskRoundsDown | ReinC/base.h:35 | masking with ~(2^k - 1) rounds down to a multiple of 2^k |
| Arena.AlignUpMeaning | ReinC/base.h:35 | the macro yields the least aligned position, and 0 in the last words before wrap-around |
| Arena.CheckMeansNoRoom | ReinC/arena.c:36-39 | the check means "too little room from the least aligned position" if and only if the position is at most 2^64 - 8 or the request exceeds the whole arena |
| Arena.ExactCapacities | ReinC/arena.c:36-39 | for all positions and sizes at once: if and only if the capacity is at most 2^64 - 8 |
| Arena.WrapAroundOverlaps | ReinC/arena.c:36-43 | above that capacity, taking everything and then one byte more returns offset 0 both times |
| Arena.PushInv | ReinC/arena.c:36-49 | a push fails exactly for want of room, else takes the least aligned position, zeroes only its own range, and keeps ranges aligned, ordered and inside |
| Arena.PushEffect | ReinC/arena.c:36-49 | for every capacity: the aligned position is taken or nothing changes, and no byte changes but those zeroed on request |
| Arena.RunInv | ReinC/arena.c:31-50 | the same over every run of pushes of any 64-bit sizes |
| Arena.RangesDisjoint | ReinC/arena.c:31-50 | all ranges of a run are 8-aligned, inside the arena and pairwise disjoint |
| Arena.ContentsKept | ReinC/arena.c:45-47 | later pushes, zeroing or not, never write into an earlier range |
| Arena.ArenaPush | ReinC/arena.c:31-50 | in place, that push; nothing for a null arena |
| Vector.RunAmortized | my_vector/main.cpp:30-36 | over every run of push_back, emplace_back, pop_back and clear: elements copied so far are the capacity less one, and the capacity is at most twice the pushes |
| Vector.GrowthIsLinear | my_vector/main.cpp:30-36 | from empty, growth copies fewer than two elements per push |
| Vector.Vector.Resize | my_vector/main.cpp:12-21 | the copying loop keeps the sequence in a new buffer |
| Vector.Vector.PushBack | my_vector/main.cpp:30-36 | appends; reallocates exactly when full, to twice the capacity |
| Vector.Vector.Get | my_vector/main.cpp:42-54 | the element, or out of range exactly from size on |
| Vector.Vector.Reserve | my_vector/main.cpp:56-70 | the sequence is kept; the buffer grows to exactly the request or not at all |
| Vector.Vector.EmplaceBack | my_vector/main.cpp:73-79 | appends and returns the place of the new element |
| Vector.Vector.Emplace | my_vector/main.cpp:82-99 | inserts at the index by shifting backwards, across a reallocation too |
| Vector.Vector.PopBack | my_vector/main.cpp:106-111 | drops the last element, if any |
| Vector.Vector.Clear | my_vector/main.cpp:113-118 | empties the sequence and keeps the buffer |
| Vector.Vector.ShrinkToFit | my_vector/main.cpp:120-143 | the sequence is kept with no slack, and with no buffer when empty |

## Left out

- LockFreeStackTheorems.CasDetectsEveryChange: tags are unbounded, so a wrap-around of the 64-bit counter is not modelled; the repository argues that it is out of reach.
- LockFreeStackInvariant.RunInv: memory orders are not modelled, steps are sequentially consistent; the second load of top in pop (line 59) has no effect and is no step.
- LockFreeStackObject.Stack.Push: `new` is given a free address by the caller and never fails; termination is under a finite schedule, not under a fair scheduler.
- ProduceConsumeObject.Consume: the loop that waits for a key can wait for ever; a bound on its calls of pop is a parameter.
- ProduceConsume.SumsAgree: sums are unbounded integers, not `long`, and `yield` is no step.
- BlockingQueueTheorems.ShutdownDrains: a bound on steps, not liveness under a fair scheduler; nothing is said about which sleeper a scheduler prefers.
- BlockingQueueInvariant.RunInv: size, empty, capacity and is_shutdown, which only read a field under the mutex, are no operations of the machine; the cast of the size to int is not modelled.
- ThreadPoolProofs.EveryTaskRunsOnce: tasks return normally and do not enqueue from a worker; a task that throws ends the process.
- ThreadPool.Enabled: no call to enqueue begins once the pool is destroyed.
- GarbageCollection.GarbageCollector.Collect: requires references of tracked objects and roots to be tracked, as marks left on an untracked object would never be cleared; printing, destructor text and null references are not modelled, and recursion depth is unbounded.
- GarbageCollection.GarbageCollector.Track: the object is not marked, as objects are made, and neither it nor what it refers to has been deleted.
- KnockerIntrusive.Scanner.FillUp: assumes that no descriptor equals max_fd or is already in flight.
- KnockerIntrusive.Scanner.HandleBatch: assumes that a ready event names a socket in flight; what happens otherwise is stated for lists, not for the event loop.
- Knocker.ScanIsComplete: sockets, epoll, timerfd, argument parsing, printing and an invalid address are outside; a failed attempt to make a socket ends the run as Failed.
- HashMap.Map.Insert: the node is not already in the map; clear and the destructor, a failed allocation of the slots, use after clear, and container_of are not modelled.
- HashMap.Map.LookupFrom: the null test on the slot array (line 21) is left out, as the array exists from construction on.
- MemoryPool.MemoryManager.constructor: Amount is at least 1, as `Amount - 1` wraps around for 0, and the pool does not wrap around the address space; the destructor is not modelled.
- MemoryPool.MemoryManager.Deallocate: foreign addresses and double frees are excluded, as the pool's own documentation asks.
- Arena.MemArena.constructor: allocation failure in arena_create and arena_destroy are not modelled.
- Vector.Vector.Reserve: object lifetimes, moves and exceptions of non-trivial types, the mix of `new[]` with `operator new`, and arguments that alias the vector are not modelled; sizes are unbounded.
- The other programs of the repository (my_function, rocker, the framebuffer, my_alloc, autograd, the first two port scanners, benchmarks and demo programs): input and output, system calls, or code that would only add easy members.
