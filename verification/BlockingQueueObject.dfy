/** The queue as the object it is: critical sections that change its fields in place. */
module BlockingQueueObject {
  import opened BlockingQueue
  import opened BlockingQueueInvariant
  import opened Wrappers

  class ThreadSafeQueue<V> {
    const maxSize: int
    var queue: seq<V>
    var done: bool
    var mutex: Option<nat>
    var threads: seq<Phase<V>>
    ghost var history: History<V>

    function Shared(): Monitor<V>
      reads this
    {
      Monitor(maxSize, queue, done, mutex, threads)
    }

    ghost function View(): State<V>
      reads this
    {
      State(Shared(), history)
    }

    constructor (maxSize: int, threadCount: nat)
      requires 0 < maxSize
      ensures View() == Start<V>(maxSize, threadCount) && Inv(View())
      ensures this.maxSize == maxSize && queue == [] && !done && |threads| == threadCount
    {
      this.maxSize := maxSize;
      queue, done, mutex := [], false, None;
      threads := seq(threadCount, _ => Idle);
      history := History([], [], false);
    }

    /** `push` under the mutex, from the test in `wait` up to the next wait or notification. */
    method PushSection(t: nat, item: V)
      requires Enabled(Shared(), Test(t)) && threads[t].op == Push(item)
      modifies this
      ensures done == old(done) && |threads| == |old(threads)|
      ensures
        if done then queue == old(queue) && threads[t] == Leaving(Push(item), Done(false))
        else if |old(queue)| < maxSize then queue == old(queue) + [item] && threads[t] == Notifying(Push(item), Done(true))
        else queue == old(queue) && threads[t] == Asleep(Push(item)) && mutex == None
      ensures View() == Step(old(View()), Test(t))
    {
      history := NextHistory(View(), Test(t));
      if !(done || |queue| < maxSize) {
        Wait(t, Push(item));
      } else if done {
        threads := threads[t := Leaving(Push(item), Done(false))];
      } else {
        queue := queue + [item];
        threads := threads[t := Notifying(Push(item), Done(true))];
      }
    }

    method TryPushSection(t: nat, item: V)
      requires Enabled(Shared(), Test(t)) && threads[t].op == TryPush(item)
      modifies this
      ensures done == old(done) && |threads| == |old(threads)|
      ensures
        if done || |old(queue)| >= maxSize then queue == old(queue) && threads[t] == Leaving(TryPush(item), Done(false))
        else queue == old(queue) + [item] && threads[t] == Notifying(TryPush(item), Done(true))
      ensures View() == Step(old(View()), Test(t))
    {
      history := NextHistory(View(), Test(t));
      if done || !(|queue| < maxSize) {
        threads := threads[t := Leaving(TryPush(item), Done(false))];
      } else {
        queue := queue + [item];
        threads := threads[t := Notifying(TryPush(item), Done(true))];
      }
    }

    method PopSection(t: nat)
      requires Enabled(Shared(), Test(t)) && threads[t].op == Pop
      modifies this
      ensures done == old(done) && |threads| == |old(threads)|
      ensures
        if old(queue) != [] then old(queue) == [old(queue)[0]] + queue && threads[t] == Notifying(Pop, Item(old(queue)[0]))
        else queue == [] && if done then threads[t] == Leaving(Pop, NoItem) else threads[t] == Asleep(Pop) && mutex == None
      ensures View() == Step(old(View()), Test(t))
    {
      history := NextHistory(View(), Test(t));
      if !(done || |queue| != 0) {
        Wait(t, Pop);
      } else if |queue| == 0 {
        threads := threads[t := Leaving(Pop, NoItem)];
      } else {
        var value := queue[0];
        queue := queue[1..];
        threads := threads[t := Notifying(Pop, Item(value))];
      }
    }

    method TryPopSection(t: nat)
      requires Enabled(Shared(), Test(t)) && threads[t].op == TryPop
      modifies this
      ensures done == old(done) && |threads| == |old(threads)|
      ensures
        if old(queue) != [] then old(queue) == [old(queue)[0]] + queue && threads[t] == Notifying(TryPop, Item(old(queue)[0]))
        else queue == [] && threads[t] == Leaving(TryPop, NoItem)
      ensures View() == Step(old(View()), Test(t))
    {
      history := NextHistory(View(), Test(t));
      if |queue| == 0 {
        threads := threads[t := Leaving(TryPop, NoItem)];
      } else {
        var value := queue[0];
        queue := queue[1..];
        threads := threads[t := Notifying(TryPop, Item(value))];
      }
    }

    method ShutdownSection(t: nat)
      requires Enabled(Shared(), Test(t)) && threads[t].op == Shutdown
      modifies this
      ensures done && queue == old(queue) && |threads| == |old(threads)| && threads[t] == Notifying(Shutdown, Closed)
      ensures View() == Step(old(View()), Test(t))
    {
      history := NextHistory(View(), Test(t));
      done := true;
      threads := threads[t := Notifying(Shutdown, Closed)];
    }

    /** Going to sleep and releasing the mutex is one action. */
    method Wait(t: nat, op: Op<V>)
      requires t < |threads|
      modifies this`mutex, this`threads
      ensures mutex == None && threads == old(threads)[t := Asleep(op)]
    {
      mutex := None;
      threads := threads[t := Asleep(op)];
    }

    /** Wakes every thread for which `hears` holds. */
    method NotifyAll(onFull: bool)
      modifies this`threads
      ensures threads == Map(old(threads), if onFull then WakeFull else WakeEmpty)
    {
      for i := 0 to |threads|
        invariant |threads| == |old(threads)|
        invariant forall k :: 0 <= k < i ==>
          threads[k] == if onFull then WakeFull(old(threads)[k]) else WakeEmpty(old(threads)[k])
        invariant forall k :: i <= k < |threads| ==> threads[k] == old(threads)[k]
      {
        if (if onFull then threads[i].SleepsOnFull() else threads[i].SleepsOnEmpty()) {
          threads := threads[i := threads[i].Wake()];
        }
      }
    }

    method Perform(a: Action<V>)
      requires Inv(View()) && Enabled(Shared(), a)
      modifies this
      ensures Inv(View()) && View() == Step(old(View()), a)
    {
      hide Inv;
      StepInv(View(), a);
      var phase := threads[a.t];
      match a {
        case Call(t, op) =>
          threads := threads[t := Waiting(op)];
        case Lock(t) =>
          mutex := Some(t);
          threads := threads[t := Inside(phase.op)];
        case Test(t) =>
          match phase.op {
            case Push(item) => PushSection(t, item);
            case TryPush(item) => TryPushSection(t, item);
            case Pop => PopSection(t);
            case TryPop => TryPopSection(t);
            case Shutdown => ShutdownSection(t);
          }
        case NotifyOne(t, sleeper) =>
          if sleeper.Some? {
            threads := threads[sleeper.value := threads[sleeper.value].Wake()];
          }
          threads := threads[t := Leaving(phase.op, phase.answer)];
        case NotifyAllFull(t) =>
          NotifyAll(true);
          threads := threads[t := NotifyingEmpty];
        case NotifyAllEmpty(t) =>
          NotifyAll(false);
          threads := threads[t := Leaving(Shutdown, Closed)];
        case Unlock(t) =>
          mutex := None;
          threads := threads[t := Idle];
        case WakeSpuriously(t) =>
          threads := threads[t := phase.Wake()];
      }
    }
  }
}
