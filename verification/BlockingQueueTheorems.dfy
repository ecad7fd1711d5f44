/** What the bounded queue promises: no missed wakeups, no deadlock, first in first out,
    and a shutdown that lets everybody go. */
module BlockingQueueTheorems {
  import opened BlockingQueue
  import opened BlockingQueueInvariant
  import opened Totals
  import opened Wrappers

  ghost predicate Reachable<V(!new)>(s: State<V>) {
    exists maxSize: int, threadCount: nat, actions: seq<Action<V>> ::
      0 < maxSize && Run(Start(maxSize, threadCount), actions) == Some(s)
  }

  lemma ReachableInv<V(!new)>(s: State<V>)
    requires Reachable(s)
    ensures Inv(s)
  {
    var maxSize: int, threadCount: nat, actions: seq<Action<V>> :|
      0 < maxSize && Run(Start(maxSize, threadCount), actions) == Some(s);
    StartInv<V>(maxSize, threadCount);
    RunInv(Start(maxSize, threadCount), actions);
  }

  // ---------------------------------------------------------------------------
  // Wakeups

  function WokenConsumer<V>(phase: Phase<V>): int { if phase.Woken? && phase.op.Pop? then 1 else 0 }

  function WokenProducer<V>(phase: Phase<V>): int { if phase.Woken? && phase.op.Push? then 1 else 0 }

  /** Whenever the mutex is free: if a consumer sleeps, every item in the queue has a woken
      consumer coming for it; if a producer sleeps, so has every free slot a producer. */
  lemma NoLostWakeup<V(!new)>(s: State<V>, t: nat)
    requires Reachable(s) && s.m.mutex.None? && !s.m.done && t < |s.m.threads|
    ensures s.m.threads[t].SleepsOnEmpty() ==> |s.m.queue| <= Total(s.m.threads, WokenConsumer)
    ensures s.m.threads[t].SleepsOnFull() ==> s.m.maxSize - |s.m.queue| <= Total(s.m.threads, WokenProducer)
  {
    ReachableInv(s);
    TotalSame(s.m.threads, PopCredit, s.m.threads, WokenConsumer);
    TotalSame(s.m.threads, PushCredit, s.m.threads, WokenProducer);
  }

  /** After a shutdown, nobody sleeps once the mutex is free again. */
  lemma ShutdownWakesEverybody<V(!new)>(s: State<V>, t: nat)
    requires Reachable(s) && s.m.done && s.m.mutex.None? && t < |s.m.threads|
    ensures !s.m.threads[t].Asleep?
  {
    ReachableInv(s);
    assert PhaseOk(s.m, s.h, t, s.m.threads[t]);
  }

  /** An action of a thread that is in a call and awake. */
  predicate Proceeds<V>(m: Monitor<V>, a: Action<V>) {
    Enabled(m, a) && !a.Call? && !a.WakeSpuriously?
  }

  /** A thread outside the queue can make any call, before and after shutdown; and whoever wants the
      mutex can have it when it is free; a notification may wake any thread that sleeps on the
      condition. */
  lemma CallsArePossible<V>(m: Monitor<V>, t: nat, op: Op<V>)
    requires t < |m.threads|
    ensures m.threads[t].Idle? ==> Enabled(m, Call(t, op)) && Next(m, Call(t, op)).threads[t] == Waiting(op)
    ensures (m.threads[t].Waiting? || m.threads[t].Woken?) && m.mutex.None? ==>
      Enabled(m, Lock(t)) && Enabled(Next(m, Lock(t)), Test(t))
    ensures m.threads[t].Notifying? && !m.threads[t].op.Shutdown? ==>
      forall u: nat :: u < |m.threads| && Hears(m.threads[u], m.threads[t].op) ==>
        Enabled(m, NotifyOne(t, Some(u))) && (u != t ==> Next(m, NotifyOne(t, Some(u))).threads[u].Woken?)
    ensures m.threads[t].Leaving? ==>
      Enabled(m, Unlock(t)) && Next(m, Unlock(t)).threads[t].Idle? && Next(m, Unlock(t)).mutex.None?
  {
  }

  /** While some call is neither finished nor asleep, some call can proceed. */
  lemma SomebodyProceeds<V(!new)>(s: State<V>, t: nat) returns (a: Action<V>)
    requires Reachable(s) && t < |s.m.threads| && !s.m.threads[t].Idle? && !s.m.threads[t].Asleep?
    ensures Proceeds(s.m, a)
  {
    ReachableInv(s);
    if s.m.mutex.None? {
      a := Lock(t);
    } else {
      var holder := s.m.mutex.value;
      var phase := s.m.threads[holder];
      if phase.Inside? { a := Test(holder); }
      else if phase.Leaving? { a := Unlock(holder); }
      else if phase.NotifyingEmpty? { a := NotifyAllEmpty(holder); }
      else if phase.op.Shutdown? { a := NotifyAllFull(holder); }
      else if u: nat :| u < |s.m.threads| && Hears(s.m.threads[u], phase.op) { a := NotifyOne(holder, Some(u)); }
      else { a := NotifyOne(holder, None); }
    }
  }

  /** No deadlock: when every unfinished call is asleep, they are all consumers of an empty
      queue or all producers of a full one, and the queue has not been shut down. */
  lemma SleepOnlyForAReason<V(!new)>(s: State<V>, t: nat, u: nat)
    requires Reachable(s) && t < |s.m.threads| && u < |s.m.threads|
    requires forall v :: 0 <= v < |s.m.threads| ==> s.m.threads[v].Idle? || s.m.threads[v].Asleep?
    requires s.m.threads[t].Asleep? && s.m.threads[u].Asleep?
    ensures !s.m.done && s.m.threads[t].op.Pop? == s.m.threads[u].op.Pop?
    ensures if s.m.threads[t].op.Pop? then s.m.queue == [] else |s.m.queue| == s.m.maxSize
  {
    ReachableInv(s);
    assert PhaseOk(s.m, s.h, t, s.m.threads[t]) && PhaseOk(s.m, s.h, u, s.m.threads[u]);
    TotalConstant(s.m.threads, PopCredit, 0);
    TotalConstant(s.m.threads, PushCredit, 0);
  }

  // ---------------------------------------------------------------------------
  // Shutdown

  /** Actions left to a call at most, once nobody goes to sleep any more. */
  function Remaining<V>(phase: Phase<V>): int {
    match phase
    case Idle => 0
    case Leaving(_, _) => 1
    case NotifyingEmpty => 2
    case Notifying(_, _) => 3
    case Inside(_) => 4
    case Waiting(_) => 5
    case Woken(_) => 5
    case Asleep(_) => 6
  }

  lemma SetRemaining<V>(m: Monitor<V>, t: nat, phase: Phase<V>)
    requires t < |m.threads|
    ensures Total(m.Set(t, phase).threads, Remaining)
         == Total(m.threads, Remaining) - Remaining(m.threads[t]) + Remaining(phase)
  {
    TotalUpdate(m.threads, Remaining, t, phase);
  }

  lemma {:induction false} MapRemaining<V>(threads: seq<Phase<V>>, f: Phase<V> -> Phase<V>)
    requires forall phase :: Remaining(f(phase)) <= Remaining(phase)
    ensures Total(Map(threads, f), Remaining) <= Total(threads, Remaining)
  {
    if threads != [] {
      assert Map(threads, f)[1..] == Map(threads[1..], f);
      MapRemaining(threads[1..], f);
    }
  }

  lemma NotifyDrains<V>(m: Monitor<V>, a: Action<V>)
    requires Enabled(m, a) && (a.NotifyOne? || a.NotifyAllFull? || a.NotifyAllEmpty?)
    ensures Total(Next(m, a).threads, Remaining) < Total(m.threads, Remaining)
  {
    match a
    case NotifyAllFull(t) =>
      MapRemaining(m.threads, WakeFull);
      SetRemaining(m.(threads := Map(m.threads, WakeFull)), t, NotifyingEmpty);
    case NotifyAllEmpty(t) =>
      MapRemaining(m.threads, WakeEmpty);
      SetRemaining(m.(threads := Map(m.threads, WakeEmpty)), t, Leaving(Shutdown, Closed));
    case NotifyOne(t, Some(u)) =>
      SetRemaining(m, u, m.threads[u].Wake());
      SetRemaining(m.Set(u, m.threads[u].Wake()), t, Next(m, a).threads[t]);
    case NotifyOne(t, None) =>
      SetRemaining(m, t, Next(m, a).threads[t]);
  }

  lemma OwnStepDrains<V>(m: Monitor<V>, a: Action<V>)
    requires Enabled(m, a) && m.done && (a.Lock? || a.Test? || a.Unlock? || a.WakeSpuriously?)
    ensures Total(Next(m, a).threads, Remaining) < Total(m.threads, Remaining)
  {
    SetRemaining(m, a.t, Next(m, a).threads[a.t]);
    assert Next(m, a).threads == m.Set(a.t, Next(m, a).threads[a.t]).threads;
  }

  lemma NonNegative<V>(threads: seq<Phase<V>>)
    ensures 0 <= Total(threads, Remaining)
  {
    TotalAtLeast(threads, Remaining);
  }

  /** After shutdown every action that is not a new call brings the calls in progress closer
      to their end: a run without new calls has a bounded number of actions, and by
      SomebodyProceeds it can stop only when every call has returned. */
  lemma {:induction false} ShutdownDrains<V>(s: State<V>, actions: seq<Action<V>>)
    requires s.m.done && Run(s, actions).Some? && forall i :: 0 <= i < |actions| ==> !actions[i].Call?
    ensures Run(s, actions).value.m.done
    ensures |actions| + Total(Run(s, actions).value.m.threads, Remaining) <= Total(s.m.threads, Remaining)
    ensures |actions| <= Total(s.m.threads, Remaining)
  {
    NonNegative(Run(s, actions).value.m.threads);
    if actions != [] {
      ShutdownDrains(s, actions[..|actions| - 1]);
      var before, a := Run(s, actions[..|actions| - 1]).value, actions[|actions| - 1];
      if a.NotifyOne? || a.NotifyAllFull? || a.NotifyAllEmpty? {
        NotifyDrains(before.m, a);
      } else {
        OwnStepDrains(before.m, a);
      }
    }
  }

  /** After shutdown the calls in progress stop only by returning: no action inside a call is
      possible if and only if every thread is out of the queue. */
  lemma ShutdownEndsIdle<V(!new)>(s: State<V>)
    requires Reachable(s) && s.m.done
    ensures (forall a :: !Proceeds(s.m, a)) <==> (forall t :: 0 <= t < |s.m.threads| ==> s.m.threads[t].Idle?)
  {
    forall t | 0 <= t < |s.m.threads| && !s.m.threads[t].Idle?
      ensures exists a :: Proceeds(s.m, a)
    {
      if s.m.threads[t].Asleep? {
        ReachableInv(s);
        assert PhaseOk(s.m, s.h, t, s.m.threads[t]);
        var a := SomebodyProceeds(s, s.m.mutex.value);
      } else {
        var a := SomebodyProceeds(s, t);
      }
    }
  }

  /** After shutdown nothing is accepted any more, in any run. */
  lemma {:induction false} NothingAcceptedAfterShutdown<V>(s: State<V>, actions: seq<Action<V>>)
    requires s.m.done && Run(s, actions).Some?
    ensures Run(s, actions).value.m.done && Run(s, actions).value.h.accepted == s.h.accepted
  {
    if actions != [] { NothingAcceptedAfterShutdown(s, actions[..|actions| - 1]); }
  }

  predicate Refused<V>(phase: Phase<V>) { phase.Leaving? && phase.answer == Done(false) }

  predicate EmptyHanded<V>(phase: Phase<V>) { phase.Leaving? && phase.answer == NoItem }

  /** What a call decides once it holds the mutex: a push is refused if and only if the queue is shut
      down, a try_push also when it is full; pops come back empty handed if and only if there is
      nothing, pop only after shutdown; only push and pop sleep, on a full and an empty queue. */
  lemma CallDecides<V>(s: State<V>, t: nat)
    requires Enabled(s.m, Test(t)) && 0 < s.m.maxSize
    ensures
      var op, full, empty := s.m.threads[t].op, |s.m.queue| >= s.m.maxSize, |s.m.queue| == 0;
      var s', phase := Step(s, Test(t)), Step(s, Test(t)).m.threads[t];
      && (Refused(phase) <==> (op.Push? && s.m.done) || (op.TryPush? && (s.m.done || full)))
      && (EmptyHanded(phase) <==> (op.Pop? && empty && s.m.done) || (op.TryPop? && empty))
      && (phase.Asleep? <==> !s.m.done && ((op.Push? && full) || (op.Pop? && empty)))
      && (op.Adds() && !Refused(phase) && !phase.Asleep? <==> |s.m.queue| < |s'.m.queue|)
      && (op.Adds() && !Refused(phase) && !phase.Asleep? ==>
          s'.m.queue == s.m.queue + [op.item] && s'.h.accepted == s.h.accepted + [(t, op.item)])
      && (op.Removes() && !empty ==>
          && s'.h.removed == s.h.removed + [(t, s.m.queue[0])] && s.m.queue == [s.m.queue[0]] + s'.m.queue
          && phase.Notifying? && phase.answer == Item(s.m.queue[0]))
      && (s'.m.done <==> s.m.done || op.Shutdown?)
  {
  }

  // ---------------------------------------------------------------------------
  // Order

  /** The queue keeps to its capacity, and the i-th item removed is the i-th accepted,
      so the items of each producer come out in the order it pushed them. */
  lemma FirstInFirstOut<V(!new)>(s: State<V>, i: nat)
    requires Reachable(s)
    ensures |s.m.queue| <= s.m.maxSize
    ensures |s.h.accepted| == |s.h.removed| + |s.m.queue|
    ensures i < |s.h.removed| ==> s.h.removed[i].1 == s.h.accepted[i].1
    ensures i < |s.m.queue| ==> s.m.queue[i] == s.h.accepted[|s.h.removed| + i].1
  {
    ReachableInv(s);
    var all := Items(s.h.accepted);
    assert i < |s.h.removed| ==> all[i] == Items(s.h.removed)[i];
    assert i < |s.m.queue| ==> all[|s.h.removed| + i] == s.m.queue[i];
  }

  /** What a call returns is what it did to the queue; a blocking call comes back empty
      handed, and a push is turned down, only after shutdown. */
  lemma AnswersAreTrue<V(!new)>(s: State<V>, t: nat)
    requires Reachable(s) && t < |s.m.threads| && s.m.threads[t].Leaving?
    ensures
      var op, answer := s.m.threads[t].op, s.m.threads[t].answer;
      match answer
      case Item(value) => s.h.removed != [] && s.h.removed[|s.h.removed| - 1] == (t, value)
      case Done(true) => op.Adds() && s.h.accepted != [] && s.h.accepted[|s.h.accepted| - 1] == (t, op.item)
      case Done(false) => op.Adds() && (s.m.done || (op.TryPush? && |s.m.queue| == s.m.maxSize))
      case NoItem => op.Removes() && s.m.queue == [] && (op.Pop? ==> s.m.done)
      case Closed => s.m.done
  {
    ReachableInv(s);
    assert PhaseOk(s.m, s.h, t, s.m.threads[t]);
  }

  /** Once a blocking pop has returned nothing, everything accepted has been removed, and
      both stay as they are for ever. */
  lemma {:induction false} DrainedForEver<V(!new)>(s: State<V>, actions: seq<Action<V>>)
    requires Reachable(s) && s.h.drained && Run(s, actions).Some?
    ensures Items(s.h.accepted) == Items(s.h.removed)
    ensures Run(s, actions).value.h == s.h
  {
    ReachableInv(s);
    if actions != [] {
      DrainedForEver(s, actions[..|actions| - 1]);
      RunInv(s, actions[..|actions| - 1]);
      var before := Run(s, actions[..|actions| - 1]).value;
      var a := actions[|actions| - 1];
      assert PhaseOk(before.m, before.h, a.t, before.m.threads[a.t]);
    }
  }
}
