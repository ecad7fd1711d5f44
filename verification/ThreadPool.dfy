/** The thread pool: workers that wait for tasks, any number of threads that enqueue them,
    and the destructor.  `notify_one` and `notify_all` run after the mutex is released, so
    others may act in between.  A task is named by its place in the order of acceptance. */
module ThreadPool {
  import opened Wrappers

  /** Seeking and Woken workers want the mutex, an Inside worker holds it. */
  datatype Worker = Seeking | Inside | Asleep | Woken | Running(task: nat) | Exited

  /** A thread calling `enqueue`; Testing and Added hold the mutex. */
  datatype Client = Outside | Wanting | Testing | Added | OwesNotify

  /** The thread running the destructor; Entered and Stopped hold the mutex. */
  datatype Destructor = NotCalled | Wants | Entered | Stopped | OwesNotifyAll | Joining | Gone
  {
    predicate HasStopped() { Stopped? || OwesNotifyAll? || Joining? || Gone? }
  }

  datatype Holder = Nobody | WorkerHolds(i: nat) | ClientHolds(j: nat) | DestructorHolds

  datatype Pool = Pool(
    workers: seq<Worker>, clients: seq<Client>, destructor: Destructor,
    tasks: seq<nat>, stop: bool, mutex: Holder,
    accepted: nat, started: nat, completed: seq<nat>)
  {
    function SetWorker(i: nat, worker: Worker): Pool
      requires i < |workers|
    {
      this.(workers := workers[i := worker])
    }

    function SetClient(j: nat, client: Client): Pool
      requires j < |clients|
    {
      this.(clients := clients[j := client])
    }
  }

  function Init(workerCount: nat, clientCount: nat): (p: Pool)
    ensures |p.workers| == workerCount && |p.clients| == clientCount && p.accepted == 0 && !p.stop
  {
    Pool(seq(workerCount, _ => Seeking), seq(clientCount, _ => Outside), NotCalled, [], false, Nobody, 0, 0, [])
  }

  datatype Action =
    | WorkerLock(i: nat)
    | WorkerTest(i: nat)
    | WorkerRuns(i: nat)
    | WakeSpuriously(i: nat)
    | Enqueue(j: nat)
    | ClientLock(j: nat)
    | ClientTest(j: nat)
    | ClientUnlock(j: nat)
    | NotifyOne(j: nat, sleeper: Option<nat>)
    | Destroy
    | DestructorLock
    | SetStop
    | DestructorUnlock
    | NotifyAll
    | Join
  {
    predicate OfWorker() { WorkerLock? || WorkerTest? || WorkerRuns? || WakeSpuriously? }
  }

  predicate Enabled(p: Pool, a: Action) {
    match a
    case WorkerLock(i) => i < |p.workers| && (p.workers[i].Seeking? || p.workers[i].Woken?) && p.mutex.Nobody?
    case WorkerTest(i) => i < |p.workers| && p.workers[i].Inside?
    case WorkerRuns(i) => i < |p.workers| && p.workers[i].Running?
    case WakeSpuriously(i) => i < |p.workers| && p.workers[i].Asleep?
    case Enqueue(j) => j < |p.clients| && p.clients[j].Outside? && !p.destructor.Gone?
    case ClientLock(j) => j < |p.clients| && p.clients[j].Wanting? && p.mutex.Nobody?
    case ClientTest(j) => j < |p.clients| && p.clients[j].Testing?
    case ClientUnlock(j) => j < |p.clients| && p.clients[j].Added?
    case NotifyOne(j, sleeper) =>
      && j < |p.clients| && p.clients[j].OwesNotify?
      && (if sleeper.Some? then sleeper.value < |p.workers| && p.workers[sleeper.value].Asleep?
          else forall i :: 0 <= i < |p.workers| ==> !p.workers[i].Asleep?)
    case Destroy => p.destructor.NotCalled?
    case DestructorLock => p.destructor.Wants? && p.mutex.Nobody?
    case SetStop => p.destructor.Entered?
    case DestructorUnlock => p.destructor.Stopped?
    case NotifyAll => p.destructor.OwesNotifyAll?
    case Join => p.destructor.Joining? && forall i :: 0 <= i < |p.workers| ==> p.workers[i].Exited?
  }

  function Wake(worker: Worker): Worker { if worker.Asleep? then Woken else worker }

  function WakeAll(workers: seq<Worker>): (r: seq<Worker>)
    ensures |r| == |workers| && forall i :: 0 <= i < |r| ==> r[i] == Wake(workers[i])
  {
    seq(|workers|, i requires 0 <= i < |workers| => Wake(workers[i]))
  }

  function Next(p: Pool, a: Action): (p': Pool)
    requires Enabled(p, a)
    ensures |p'.workers| == |p.workers| && |p'.clients| == |p.clients|
  {
    match a
    case WorkerLock(i) => p.(mutex := WorkerHolds(i)).SetWorker(i, Inside)
    case WorkerTest(i) =>
      var free := p.(mutex := Nobody);
      if !p.stop && p.tasks == [] then free.SetWorker(i, Asleep)
      else if p.stop && p.tasks == [] then free.SetWorker(i, Exited)
      else free.(tasks := p.tasks[1..], started := p.started + 1).SetWorker(i, Running(p.tasks[0]))
    case WorkerRuns(i) => p.(completed := p.completed + [p.workers[i].task]).SetWorker(i, Seeking)
    case WakeSpuriously(i) => p.SetWorker(i, Woken)
    case Enqueue(j) => p.SetClient(j, Wanting)
    case ClientLock(j) => p.(mutex := ClientHolds(j)).SetClient(j, Testing)
    case ClientTest(j) =>
      // a stopped pool throws, which releases the mutex
      if p.stop then p.(mutex := Nobody).SetClient(j, Outside)
      else p.(tasks := p.tasks + [p.accepted], accepted := p.accepted + 1).SetClient(j, Added)
    case ClientUnlock(j) => p.(mutex := Nobody).SetClient(j, OwesNotify)
    case NotifyOne(j, sleeper) =>
      var told := if sleeper.Some? then p.SetWorker(sleeper.value, Woken) else p;
      told.SetClient(j, Outside)
    case Destroy => p.(destructor := Wants)
    case DestructorLock => p.(destructor := Entered, mutex := DestructorHolds)
    case SetStop => p.(destructor := Stopped, stop := true)
    case DestructorUnlock => p.(destructor := OwesNotifyAll, mutex := Nobody)
    case NotifyAll => p.(destructor := Joining, workers := WakeAll(p.workers))
    case Join => p.(destructor := Gone)
  }

  function Run(p: Pool, actions: seq<Action>): (r: Option<Pool>)
    ensures r.Some? ==> |r.value.workers| == |p.workers| && |r.value.clients| == |p.clients|
  {
    if actions == [] then Some(p)
    else match Run(p, actions[..|actions| - 1])
      case None => None
      case Some(mid) =>
        var a := actions[|actions| - 1];
        if Enabled(mid, a) then Some(Next(mid, a)) else None
  }
}
