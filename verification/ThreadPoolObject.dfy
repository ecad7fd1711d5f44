/** The pool as the object it is. */
module ThreadPoolObject {
  import opened ThreadPool
  import opened ThreadPoolProofs

  class Executor {
    var workers: seq<Worker>
    var clients: seq<Client>
    var destructor: Destructor
    var tasks: seq<nat>
    var stop: bool
    var mutex: Holder
    var accepted: nat
    var started: nat
    var completed: seq<nat>

    function View(): Pool
      reads this
    {
      Pool(workers, clients, destructor, tasks, stop, mutex, accepted, started, completed)
    }

    constructor (workerCount: nat, clientCount: nat)
      ensures View() == Init(workerCount, clientCount) && Inv(View())
      ensures |workers| == workerCount && tasks == [] && !stop
    {
      workers, clients := seq(workerCount, _ => Seeking), seq(clientCount, _ => Outside);
      destructor, tasks, stop, mutex := NotCalled, [], false, Nobody;
      accepted, started, completed := 0, 0, [];
      InitInv(workerCount, clientCount);
    }

    /** The worker loop under the mutex. */
    method WorkerSection(i: nat)
      requires Enabled(View(), WorkerTest(i))
      modifies this
      ensures View() == Next(old(View()), WorkerTest(i))
      ensures stop == old(stop) && mutex == Nobody && |workers| == |old(workers)|
      ensures
        if old(tasks) != [] then old(tasks) == [old(tasks)[0]] + tasks && workers[i] == Running(old(tasks)[0])
        else tasks == [] && workers[i] == if stop then Exited else Asleep
    {
      if !(stop || |tasks| != 0) {
        workers := workers[i := Asleep];
      } else if stop && |tasks| == 0 {
        workers := workers[i := Exited];
      } else {
        var task := tasks[0];
        tasks := tasks[1..];
        started := started + 1;
        workers := workers[i := Running(task)];
      }
      mutex := Nobody;
    }

    /** `enqueue` under the mutex; `refused` is the exception. */
    method EnqueueSection(j: nat) returns (refused: bool)
      requires Enabled(View(), ClientTest(j))
      modifies this
      ensures View() == Next(old(View()), ClientTest(j))
      ensures refused == old(stop) == stop && |clients| == |old(clients)|
      ensures refused ==> tasks == old(tasks) && accepted == old(accepted) && clients[j] == Outside
      ensures !refused ==> tasks == old(tasks) + [old(accepted)] && accepted == old(accepted) + 1 && clients[j] == Added
    {
      refused := stop;
      if stop {
        mutex := Nobody;
        clients := clients[j := Outside];
      } else {
        tasks := tasks + [accepted];
        accepted := accepted + 1;
        clients := clients[j := Added];
      }
    }

    method NotifyEverybody()
      modifies this`workers
      ensures workers == WakeAll(old(workers))
    {
      for i := 0 to |workers|
        invariant |workers| == |old(workers)|
        invariant forall k :: 0 <= k < i ==> workers[k] == Wake(old(workers)[k])
        invariant forall k :: i <= k < |workers| ==> workers[k] == old(workers)[k]
      {
        if workers[i].Asleep? { workers := workers[i := Woken]; }
      }
    }

    method Perform(a: Action)
      requires Inv(View()) && Enabled(View(), a)
      modifies this
      ensures Inv(View()) && View() == Next(old(View()), a)
    {
      StepInv(View(), a);
      hide Inv;
      match a {
        case WorkerLock(i) =>
          mutex, workers := WorkerHolds(i), workers[i := Inside];
        case WorkerTest(i) =>
          WorkerSection(i);
        case WorkerRuns(i) =>
          completed, workers := completed + [workers[i].task], workers[i := Seeking];
        case WakeSpuriously(i) =>
          workers := workers[i := Woken];
        case Enqueue(j) =>
          clients := clients[j := Wanting];
        case ClientLock(j) =>
          mutex, clients := ClientHolds(j), clients[j := Testing];
        case ClientTest(j) =>
          var _ := EnqueueSection(j);
        case ClientUnlock(j) =>
          mutex, clients := Nobody, clients[j := OwesNotify];
        case NotifyOne(j, sleeper) =>
          if sleeper.Some? { workers := workers[sleeper.value := Woken]; }
          clients := clients[j := Outside];
        case Destroy =>
          destructor := Wants;
        case DestructorLock =>
          destructor, mutex := Entered, DestructorHolds;
        case SetStop =>
          destructor, stop := Stopped, true;
        case DestructorUnlock =>
          destructor, mutex := OwesNotifyAll, Nobody;
        case NotifyAll =>
          NotifyEverybody();
          destructor := Joining;
        case Join =>
          destructor := Gone;
      }
    }
  }
}
