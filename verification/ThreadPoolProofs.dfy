/** What the thread pool promises: no lost wakeup although notifications come late, every
    accepted task run exactly once, and a destructor whose joins are never stuck. */
module ThreadPoolProofs {
  import opened ThreadPool
  import opened Totals
  import opened Wrappers

  predicate MutexOk(p: Pool) {
    && (p.mutex.WorkerHolds? ==> p.mutex.i < |p.workers|)
    && (p.mutex.ClientHolds? ==> p.mutex.j < |p.clients|)
    && (forall i :: 0 <= i < |p.workers| ==> (p.workers[i].Inside? <==> p.mutex == WorkerHolds(i)))
    && (forall j :: 0 <= j < |p.clients| ==> (p.clients[j].Testing? || p.clients[j].Added? <==> p.mutex == ClientHolds(j)))
    && (p.destructor.Entered? || p.destructor.Stopped? <==> p.mutex == DestructorHolds)
  }

  predicate StopOk(p: Pool) {
    && (p.stop <==> p.destructor.HasStopped())
    && (forall i :: 0 <= i < |p.workers| && p.workers[i].Asleep? && p.stop ==>
        p.destructor.Stopped? || p.destructor.OwesNotifyAll?)
    && (forall i :: 0 <= i < |p.workers| && p.workers[i].Exited? ==> p.stop && p.tasks == [])
    && (p.destructor.Gone? ==> forall i :: 0 <= i < |p.workers| ==> p.workers[i].Exited?)
  }

  /** A worker that will look at the queue before it sleeps. */
  function Credit(worker: Worker): int { if worker.Inside? || worker.Woken? then 1 else 0 }

  /** A client that has added a task and still owes the notification. */
  function Owed(client: Client): int { if client.Added? || client.OwesNotify? then 1 else 0 }

  function Gap(p: Pool): int { |p.tasks| - Total(p.workers, Credit) - Total(p.clients, Owed) }

  predicate WakeOk(p: Pool) {
    forall i :: 0 <= i < |p.workers| && p.workers[i].Asleep? && !p.stop ==> Gap(p) <= 0
  }

  function RunsTask(task: nat): Worker -> int {
    worker => if worker == Running(task) then 1 else 0
  }

  /** How often a task that has left the queue has been run or is being run. */
  function TimesTaken(p: Pool, task: nat): int {
    multiset(p.completed)[task] + Total(p.workers, RunsTask(task))
  }

  /** Queued tasks are the accepted ones that have not started; started ones were taken once. */
  ghost predicate TasksOk(p: Pool) {
    && p.accepted == p.started + |p.tasks|
    && (forall k :: 0 <= k < |p.tasks| ==> p.tasks[k] == p.started + k)
    && (forall task: nat :: TimesTaken(p, task) == if task < p.started then 1 else 0)
  }

  ghost predicate Inv(p: Pool) {
    MutexOk(p) && StopOk(p) && WakeOk(p) && TasksOk(p)
  }

  lemma InitInv(workerCount: nat, clientCount: nat)
    ensures Inv(Init(workerCount, clientCount))
  {
    var p := Init(workerCount, clientCount);
    forall task: nat
      ensures TimesTaken(p, task) == 0
    {
      TotalConstant(p.workers, RunsTask(task), 0);
    }
  }

  lemma NextMutexOk(p: Pool, a: Action)
    requires MutexOk(p) && Enabled(p, a)
    ensures MutexOk(Next(p, a))
  {
  }

  lemma NextStopOk(p: Pool, a: Action)
    requires MutexOk(p) && StopOk(p) && Enabled(p, a)
    ensures StopOk(Next(p, a))
  {
  }

  lemma WorkerGap(p: Pool, i: nat, worker: Worker)
    requires i < |p.workers|
    ensures Gap(p.SetWorker(i, worker)) == Gap(p) + Credit(p.workers[i]) - Credit(worker)
  {
    TotalUpdate(p.workers, Credit, i, worker);
  }

  lemma ClientGap(p: Pool, j: nat, client: Client)
    requires j < |p.clients|
    ensures Gap(p.SetClient(j, client)) == Gap(p) + Owed(p.clients[j]) - Owed(client)
  {
    TotalUpdate(p.clients, Owed, j, client);
  }

  lemma WorkerWakeOk(p: Pool, a: Action)
    requires MutexOk(p) && StopOk(p) && WakeOk(p) && Enabled(p, a) && a.OfWorker()
    ensures WakeOk(Next(p, a))
  {
    var p' := Next(p, a);
    WorkerGap(p, a.i, p'.workers[a.i]);
    TotalAtLeast(p'.workers, Credit);
    TotalAtLeast(p'.clients, Owed);
  }

  lemma ClientWakeOk(p: Pool, a: Action)
    requires MutexOk(p) && StopOk(p) && WakeOk(p) && Enabled(p, a)
    requires a.Enqueue? || a.ClientLock? || a.ClientTest? || a.ClientUnlock?
    ensures WakeOk(Next(p, a))
  {
    ClientGap(p, a.j, Next(p, a).clients[a.j]);
  }

  /** The notification is handed over to the worker it wakes. */
  lemma NotifyWakeOk(p: Pool, j: nat, sleeper: Option<nat>)
    requires WakeOk(p) && Enabled(p, NotifyOne(j, sleeper))
    ensures WakeOk(Next(p, NotifyOne(j, sleeper)))
  {
    if sleeper.Some? {
      WorkerGap(p, sleeper.value, Woken);
      ClientGap(p.SetWorker(sleeper.value, Woken), j, Outside);
    }
  }

  lemma NextWakeOk(p: Pool, a: Action)
    requires MutexOk(p) && StopOk(p) && WakeOk(p) && Enabled(p, a)
    ensures WakeOk(Next(p, a))
  {
    if a.OfWorker() { WorkerWakeOk(p, a); }
    else if a.Enqueue? || a.ClientLock? || a.ClientTest? || a.ClientUnlock? { ClientWakeOk(p, a); }
    else if a.NotifyOne? { NotifyWakeOk(p, a.j, a.sleeper); }
  }

  lemma TakenAfter(p: Pool, i: nat, worker: Worker, task: nat)
    requires i < |p.workers|
    ensures Total(p.SetWorker(i, worker).workers, RunsTask(task))
         == Total(p.workers, RunsTask(task)) - RunsTask(task)(p.workers[i]) + RunsTask(task)(worker)
  {
    TotalUpdate(p.workers, RunsTask(task), i, worker);
  }

  lemma WorkerTaken(p: Pool, a: Action, task: nat)
    requires TasksOk(p) && Enabled(p, a) && a.OfWorker()
    ensures TimesTaken(Next(p, a), task) == if task < Next(p, a).started then 1 else 0
  {
    assert TimesTaken(p, task) == if task < p.started then 1 else 0;
    TakenAfter(p, a.i, Next(p, a).workers[a.i], task);
  }

  lemma NextTaken(p: Pool, a: Action, task: nat)
    requires TasksOk(p) && Enabled(p, a)
    ensures TimesTaken(Next(p, a), task) == if task < Next(p, a).started then 1 else 0
  {
    assert TimesTaken(p, task) == if task < p.started then 1 else 0;
    if a.OfWorker() {
      WorkerTaken(p, a, task);
    } else if a.NotifyOne? && a.sleeper.Some? {
      TakenAfter(p, a.sleeper.value, Woken, task);
    } else if a.NotifyAll? {
      TotalSame(p.workers, RunsTask(task), Next(p, a).workers, RunsTask(task));
    }
  }

  lemma NextTasksOk(p: Pool, a: Action)
    requires TasksOk(p) && Enabled(p, a)
    ensures TasksOk(Next(p, a))
  {
    forall task: nat
      ensures TimesTaken(Next(p, a), task) == if task < Next(p, a).started then 1 else 0
    {
      NextTaken(p, a, task);
    }
  }

  lemma StepInv(p: Pool, a: Action)
    requires Inv(p) && Enabled(p, a)
    ensures Inv(Next(p, a))
  {
    hide MutexOk, StopOk, WakeOk, TasksOk;
    NextMutexOk(p, a);
    NextStopOk(p, a);
    NextWakeOk(p, a);
    NextTasksOk(p, a);
  }

  lemma {:induction false} RunInv(p: Pool, actions: seq<Action>)
    requires Inv(p)
    ensures Run(p, actions).Some? ==> Inv(Run(p, actions).value)
  {
    hide Inv;
    if actions != [] {
      RunInv(p, actions[..|actions| - 1]);
      var before := Run(p, actions[..|actions| - 1]);
      if before.Some? && Enabled(before.value, actions[|actions| - 1]) {
        StepInv(before.value, actions[|actions| - 1]);
      }
    }
  }

  ghost predicate Reachable(p: Pool) {
    exists workerCount: nat, clientCount: nat, actions: seq<Action> ::
      Run(Init(workerCount, clientCount), actions) == Some(p)
  }

  lemma ReachableInv(p: Pool)
    requires Reachable(p)
    ensures Inv(p)
  {
    var workerCount: nat, clientCount: nat, actions: seq<Action> :|
      Run(Init(workerCount, clientCount), actions) == Some(p);
    InitInv(workerCount, clientCount);
    RunInv(Init(workerCount, clientCount), actions);
  }

  // ---------------------------------------------------------------------------
  // Wakeups

  function IsWoken(worker: Worker): int { if worker.Woken? then 1 else 0 }

  function Owes(client: Client): int { if client.OwesNotify? then 1 else 0 }

  /** While the pool runs and the mutex is free: if a worker sleeps, every queued task has a
      woken worker or a notification on its way. */
  lemma NoLostWakeup(p: Pool, i: nat)
    requires Reachable(p) && !p.stop && p.mutex.Nobody? && i < |p.workers| && p.workers[i].Asleep?
    ensures |p.tasks| <= Total(p.workers, IsWoken) + Total(p.clients, Owes)
  {
    ReachableInv(p);
    TotalSame(p.workers, Credit, p.workers, IsWoken);
    TotalSame(p.clients, Owed, p.clients, Owes);
  }

  /** After stop, a worker sleeps only while `notify_all` is still owed. */
  lemma StopWakesEverybody(p: Pool, i: nat)
    requires Reachable(p) && p.stop && i < |p.workers| && p.workers[i].Asleep?
    ensures p.destructor.Stopped? || p.destructor.OwesNotifyAll?
  {
    ReachableInv(p);
  }

  // ---------------------------------------------------------------------------
  // Every task once

  function TimesCompleted(p: Pool, task: nat): nat { multiset(p.completed)[task] }

  /** At any time a task has been run at most once, and a task not yet run is queued or in
      the hands of a worker. */
  lemma AtMostOnce(p: Pool, task: nat)
    requires Reachable(p)
    ensures TimesCompleted(p, task) <= 1
    ensures task < p.accepted && TimesCompleted(p, task) == 0 ==>
      task in p.tasks || exists i :: 0 <= i < |p.workers| && p.workers[i] == Running(task)
    ensures task >= p.accepted ==> TimesCompleted(p, task) == 0
  {
    ReachableInv(p);
    assert TimesTaken(p, task) == if task < p.started then 1 else 0;
    TotalAtLeast(p.workers, RunsTask(task));
    if task < p.started && TimesCompleted(p, task) == 0 {
      if forall i :: 0 <= i < |p.workers| ==> p.workers[i] != Running(task) {
        TotalConstant(p.workers, RunsTask(task), 0);
      }
    } else if p.started <= task < p.accepted {
      assert p.tasks[task - p.started] == task;
    }
  }

  /** When the destructor is through, every accepted task has been run exactly once if and
      only if the pool has a worker or was never given a task. */
  lemma EveryTaskRunsOnce(p: Pool)
    requires Reachable(p) && p.destructor.Gone?
    ensures (forall task :: 0 <= task < p.accepted ==> TimesCompleted(p, task) == 1)
        <==> 0 < |p.workers| || p.accepted == 0
  {
    ReachableInv(p);
    forall task: nat
      ensures TimesCompleted(p, task) == if task < p.started then 1 else 0
    {
      assert TimesTaken(p, task) == if task < p.started then 1 else 0;
      TotalConstant(p.workers, RunsTask(task), 0);
    }
    if 0 < |p.workers| {
      assert p.workers[0].Exited?;
    } else if 0 < p.accepted {
      NoWorkerNoStart(p);
      assert TimesCompleted(p, 0) == 0;
    }
  }

  lemma {:induction false} NoWorkerRun(p: Pool, actions: seq<Action>)
    requires |p.workers| == 0 && Run(p, actions).Some?
    ensures Run(p, actions).value.started == p.started
  {
    if actions != [] { NoWorkerRun(p, actions[..|actions| - 1]); }
  }

  lemma NoWorkerNoStart(p: Pool)
    requires Reachable(p) && |p.workers| == 0
    ensures p.started == 0
  {
    var workerCount: nat, clientCount: nat, actions: seq<Action> :|
      Run(Init(workerCount, clientCount), actions) == Some(p);
    NoWorkerRun(Init(workerCount, clientCount), actions);
  }

  /** A pool made for any positive number of workers has run every accepted task exactly once when its
      destructor is through; one made for none only if nothing was accepted. */
  lemma PoolRunsEveryTaskOnce(workerCount: nat, clientCount: nat, actions: seq<Action>)
    requires Run(Init(workerCount, clientCount), actions).Some?
    requires Run(Init(workerCount, clientCount), actions).value.destructor.Gone?
    ensures
      var p := Run(Init(workerCount, clientCount), actions).value;
      (forall task :: 0 <= task < p.accepted ==> TimesCompleted(p, task) == 1) <==> 0 < workerCount || p.accepted == 0
  {
    var p := Run(Init(workerCount, clientCount), actions).value;
    assert Run(Init(workerCount, clientCount), actions) == Some(p);
    EveryTaskRunsOnce(p);
  }

  /** The calls of enqueue that got to their test while the pool was running. */
  function EnqueuedRunning(p: Pool, actions: seq<Action>): nat
    requires Run(p, actions).Some?
  {
    if actions == [] then 0
    else
      var before, a := actions[..|actions| - 1], actions[|actions| - 1];
      EnqueuedRunning(p, before) + if a.ClientTest? && !Run(p, before).value.stop then 1 else 0
  }

  /** No task is dropped: over every run exactly the enqueues that find the pool running are accepted. */
  lemma {:induction false} EveryEnqueueIsAccepted(p: Pool, actions: seq<Action>)
    requires Run(p, actions).Some?
    ensures Run(p, actions).value.accepted == p.accepted + EnqueuedRunning(p, actions)
  {
    if actions != [] { EveryEnqueueIsAccepted(p, actions[..|actions| - 1]); }
  }

  /** The way through enqueue: until the pool is destroyed anybody outside can call it, also after
      stop, and gets to the test once the mutex is free; an accepted task is always followed by one
      notification after the mutex is released, which wakes any one sleeper, if there is one. */
  lemma WayThroughEnqueue(p: Pool, j: nat)
    requires j < |p.clients| && !p.destructor.Gone?
    ensures p.clients[j].Outside? ==> Enabled(p, Enqueue(j)) && Next(p, Enqueue(j)).clients[j].Wanting?
    ensures p.clients[j].Wanting? && p.mutex.Nobody? ==>
      Enabled(p, ClientLock(j)) && Enabled(Next(p, ClientLock(j)), ClientTest(j))
    ensures p.clients[j].Added? ==>
      && Enabled(p, ClientUnlock(j))
      && Next(p, ClientUnlock(j)).clients[j].OwesNotify? && Next(p, ClientUnlock(j)).mutex.Nobody?
    ensures p.clients[j].OwesNotify? ==> forall i: nat :: i < |p.workers| && p.workers[i].Asleep? ==>
      && Enabled(p, NotifyOne(j, Some(i)))
      && Next(p, NotifyOne(j, Some(i))).workers[i].Woken? && Next(p, NotifyOne(j, Some(i))).clients[j].Outside?
  {
  }

  /** The way of a worker: awake it gets to the test once the mutex is free, and a task it has taken
      is run, after which it looks for the next. */
  lemma WayOfWorker(p: Pool, i: nat)
    requires i < |p.workers|
    ensures (p.workers[i].Seeking? || p.workers[i].Woken?) && p.mutex.Nobody? ==>
      Enabled(p, WorkerLock(i)) && Enabled(Next(p, WorkerLock(i)), WorkerTest(i))
    ensures p.workers[i].Running? ==>
      && Enabled(p, WorkerRuns(i)) && Next(p, WorkerRuns(i)).workers[i].Seeking?
      && Next(p, WorkerRuns(i)).completed == p.completed + [p.workers[i].task]
    ensures p.workers[i].Asleep? ==> Enabled(p, WakeSpuriously(i)) && Next(p, WakeSpuriously(i)).workers[i].Woken?
  {
  }

  lemma AddAction(start: Pool, actions: seq<Action>, p: Pool, a: Action) returns (actions': seq<Action>, p': Pool)
    requires Run(start, actions) == Some(p) && Enabled(p, a)
    ensures Run(start, actions') == Some(p') && p' == Next(p, a)
  {
    actions', p' := actions + [a], Next(p, a);
    assert actions'[..|actions|] == actions;
  }

  lemma TaskAccepted() returns (actions: seq<Action>, p: Pool)
    ensures Run(Init(0, 1), actions) == Some(p)
    ensures p == Pool([], [Outside], NotCalled, [0], false, Nobody, 1, 0, [])
  {
    var start := Init(0, 1);
    actions, p := [], start;
    actions, p := AddAction(start, actions, p, Enqueue(0));
    actions, p := AddAction(start, actions, p, ClientLock(0));
    actions, p := AddAction(start, actions, p, ClientTest(0));
    actions, p := AddAction(start, actions, p, ClientUnlock(0));
    actions, p := AddAction(start, actions, p, NotifyOne(0, None));
  }

  lemma TaskAbandoned() returns (actions: seq<Action>, p: Pool)
    ensures Run(Init(0, 1), actions) == Some(p)
    ensures p == Pool([], [Outside], OwesNotifyAll, [0], true, Nobody, 1, 0, [])
  {
    var start := Init(0, 1);
    actions, p := TaskAccepted();
    hide Run, Init;
    actions, p := AddAction(start, actions, p, Destroy);
    actions, p := AddAction(start, actions, p, DestructorLock);
    actions, p := AddAction(start, actions, p, SetStop);
    actions, p := AddAction(start, actions, p, DestructorUnlock);
  }

  /** The failing input: a pool without workers accepts a task, is destroyed, and never runs it. */
  lemma TaskIsLost() returns (actions: seq<Action>, p: Pool)
    ensures Run(Init(0, 1), actions) == Some(p)
    ensures p.destructor.Gone? && p.accepted == 1 && p.completed == []
  {
    var start := Init(0, 1);
    actions, p := TaskAbandoned();
    hide Run, Init;
    actions, p := AddAction(start, actions, p, NotifyAll);
    actions, p := AddAction(start, actions, p, Join);
  }

  // ---------------------------------------------------------------------------
  // Stopping

  /** Steps left to a worker at most, once nobody goes to sleep any more; a queued task is
      worth a whole round. */
  function Remaining(worker: Worker): int {
    match worker
    case Exited => 0
    case Inside => 1
    case Seeking => 2
    case Woken => 2
    case Asleep => 3
    case Running(_) => 3
  }

  function Measure(p: Pool): int { 3 * |p.tasks| + Total(p.workers, Remaining) }

  lemma WorkerMeasure(p: Pool, i: nat, worker: Worker)
    requires i < |p.workers|
    ensures Measure(p.SetWorker(i, worker)) == Measure(p) - Remaining(p.workers[i]) + Remaining(worker)
  {
    TotalUpdate(p.workers, Remaining, i, worker);
  }

  lemma {:induction false} WakeAllMeasure(workers: seq<Worker>)
    ensures Total(WakeAll(workers), Remaining) <= Total(workers, Remaining)
  {
    if workers != [] {
      assert WakeAll(workers)[1..] == WakeAll(workers[1..]);
      WakeAllMeasure(workers[1..]);
    }
  }

  lemma StepMeasure(p: Pool, a: Action)
    requires p.stop && Enabled(p, a)
    ensures Next(p, a).stop && Next(p, a).accepted == p.accepted
    ensures Measure(Next(p, a)) <= Measure(p) - if a.OfWorker() then 1 else 0
  {
    match a
    case WorkerLock(i) => WorkerMeasure(p, i, Inside);
    case WorkerTest(i) => WorkerMeasure(p, i, Next(p, a).workers[i]);
    case WorkerRuns(i) => WorkerMeasure(p, i, Seeking);
    case WakeSpuriously(i) => WorkerMeasure(p, i, Woken);
    case NotifyOne(_, Some(i)) => WorkerMeasure(p, i, Woken);
    case NotifyAll => WakeAllMeasure(p.workers);
    case _ =>
  }

  function WorkerActions(actions: seq<Action>): nat {
    if actions == [] then 0
    else WorkerActions(actions[..|actions| - 1]) + if actions[|actions| - 1].OfWorker() then 1 else 0
  }

  /** After stop no task is accepted any more, and the workers take a bounded number of
      steps, whatever the other threads do. */
  lemma {:induction false} StopDrains(p: Pool, actions: seq<Action>)
    requires p.stop && Run(p, actions).Some?
    ensures Run(p, actions).value.stop && Run(p, actions).value.accepted == p.accepted
    ensures WorkerActions(actions) + Measure(Run(p, actions).value) <= Measure(p)
    ensures WorkerActions(actions) <= Measure(p)
  {
    TotalAtLeast(Run(p, actions).value.workers, Remaining);
    if actions != [] {
      StopDrains(p, actions[..|actions| - 1]);
      StepMeasure(Run(p, actions[..|actions| - 1]).value, actions[|actions| - 1]);
    }
  }

  /** The joins are never stuck: while the destructor is under way, either it is through or
      some action is possible other than a new call or a spurious wakeup. */
  lemma DestructorNeverStuck(p: Pool) returns (a: Action)
    requires Reachable(p) && !p.destructor.NotCalled? && !p.destructor.Gone?
    ensures Enabled(p, a) && !a.Enqueue? && !a.WakeSpuriously?
  {
    ReachableInv(p);
    match p.mutex
    case WorkerHolds(i) => a := WorkerTest(i);
    case ClientHolds(j) => a := if p.clients[j].Testing? then ClientTest(j) else ClientUnlock(j);
    case DestructorHolds => a := if p.destructor.Entered? then SetStop else DestructorUnlock;
    case Nobody =>
      if p.destructor.Wants? { a := DestructorLock; }
      else if p.destructor.OwesNotifyAll? { a := NotifyAll; }
      else if i: nat :| i < |p.workers| && !p.workers[i].Exited? {
        a := if p.workers[i].Running? then WorkerRuns(i) else WorkerLock(i);
      } else { a := Join; }
  }
}
