/** The bounded queue as a monitor shared by any number of threads: one mutex and two
    condition variables.  Each action is one thread taking the mutex, running up to its
    next wait, notification or unlock, or being woken.  `notify_one` may wake any thread
    that sleeps on its condition, and threads may wake up for no reason. */
module BlockingQueue {
  import opened Wrappers

  datatype Op<V> = Push(item: V) | TryPush(item: V) | Pop | TryPop | Shutdown
  {
    predicate Adds() { Push? || TryPush? }
    predicate Removes() { Pop? || TryPop? }
  }

  datatype Answer<V> = Done(accepted: bool) | Item(value: V) | NoItem | Closed

  /** Waiting and Woken threads want the mutex; Inside, Notifying, NotifyingEmpty and
      Leaving threads hold it. */
  datatype Phase<V> =
    | Idle
    | Waiting(op: Op<V>)
    | Inside(op: Op<V>)
    | Asleep(op: Op<V>)
    | Woken(op: Op<V>)
    | Notifying(op: Op<V>, answer: Answer<V>)
    | NotifyingEmpty
    | Leaving(op: Op<V>, answer: Answer<V>)
  {
    predicate HoldsMutex() { Inside? || Notifying? || NotifyingEmpty? || Leaving? }
    predicate WantsMutex() { Waiting? || Woken? }
    predicate SleepsOnFull() { Asleep? && op.Push? }
    predicate SleepsOnEmpty() { Asleep? && op.Pop? }
    function Wake(): Phase<V>
      requires Asleep?
    {
      Woken(op)
    }
  }

  datatype Monitor<V> = Monitor(maxSize: int, queue: seq<V>, done: bool, mutex: Option<nat>, threads: seq<Phase<V>>)
  {
    predicate HasSpace() { |queue| < maxSize }
    predicate HasItem() { queue != [] }

    function Set(t: nat, phase: Phase<V>): Monitor<V>
      requires t < |threads|
    {
      this.(threads := threads[t := phase])
    }
  }

  /** The constructor throws unless max_size is positive. */
  function Init<V>(maxSize: int, threadCount: nat): (r: Option<Monitor<V>>)
    ensures r.None? <==> maxSize <= 0
    ensures r.Some? ==>
      && r.value.maxSize == maxSize && r.value.queue == [] && !r.value.done && r.value.mutex == None
      && |r.value.threads| == threadCount && forall t :: 0 <= t < threadCount ==> r.value.threads[t].Idle?
  {
    if maxSize <= 0 then None
    else Some(Monitor(maxSize, [], false, None, seq(threadCount, _ => Idle)))
  }

  datatype Action<V> =
    | Call(t: nat, op: Op<V>)
    | Lock(t: nat)
    | Test(t: nat)
    | NotifyOne(t: nat, sleeper: Option<nat>)
    | NotifyAllFull(t: nat)
    | NotifyAllEmpty(t: nat)
    | Unlock(t: nat)
    | WakeSpuriously(t: nat)

  /** A push notifies `not_empty_`, a pop notifies `not_full_`. */
  predicate Hears<V>(phase: Phase<V>, notifier: Op<V>) {
    if notifier.Adds() then phase.SleepsOnEmpty() else notifier.Removes() && phase.SleepsOnFull()
  }

  predicate Enabled<V>(m: Monitor<V>, a: Action<V>) {
    && a.t < |m.threads|
    && var phase := m.threads[a.t];
       match a
       case Call(_, _) => phase.Idle?
       case Lock(_) => phase.WantsMutex() && m.mutex.None?
       case Test(_) => phase.Inside?
       case NotifyOne(_, sleeper) =>
         && phase.Notifying? && !phase.op.Shutdown?
         && (if sleeper.Some? then sleeper.value < |m.threads| && Hears(m.threads[sleeper.value], phase.op)
             else forall u :: 0 <= u < |m.threads| ==> !Hears(m.threads[u], phase.op))
       case NotifyAllFull(_) => phase.Notifying? && phase.op.Shutdown?
       case NotifyAllEmpty(_) => phase.NotifyingEmpty?
       case Unlock(_) => phase.Leaving?
       case WakeSpuriously(_) => phase.Asleep?
  }

  /** What a thread does that holds the mutex and evaluates its predicate. */
  function Critical<V>(m: Monitor<V>, t: nat, op: Op<V>): Monitor<V>
    requires t < |m.threads|
  {
    match op
    case Push(item) =>
      if !m.done && !m.HasSpace() then m.(mutex := None).Set(t, Asleep(op))
      else if m.done then m.Set(t, Leaving(op, Done(false)))
      else m.(queue := m.queue + [item]).Set(t, Notifying(op, Done(true)))
    case TryPush(item) =>
      if m.done || !m.HasSpace() then m.Set(t, Leaving(op, Done(false)))
      else m.(queue := m.queue + [item]).Set(t, Notifying(op, Done(true)))
    case Pop =>
      if !m.done && !m.HasItem() then m.(mutex := None).Set(t, Asleep(op))
      else if !m.HasItem() then m.Set(t, Leaving(op, NoItem))
      else m.(queue := m.queue[1..]).Set(t, Notifying(op, Item(m.queue[0])))
    case TryPop =>
      if !m.HasItem() then m.Set(t, Leaving(op, NoItem))
      else m.(queue := m.queue[1..]).Set(t, Notifying(op, Item(m.queue[0])))
    case Shutdown => m.(done := true).Set(t, Notifying(op, Closed))
  }

  function WakeFull<V>(phase: Phase<V>): Phase<V> { if phase.SleepsOnFull() then phase.Wake() else phase }

  function WakeEmpty<V>(phase: Phase<V>): Phase<V> { if phase.SleepsOnEmpty() then phase.Wake() else phase }

  function Map<V>(threads: seq<Phase<V>>, f: Phase<V> -> Phase<V>): (r: seq<Phase<V>>)
    ensures |r| == |threads| && forall i :: 0 <= i < |r| ==> r[i] == f(threads[i])
  {
    seq(|threads|, i requires 0 <= i < |threads| => f(threads[i]))
  }

  function Next<V>(m: Monitor<V>, a: Action<V>): (m': Monitor<V>)
    requires Enabled(m, a)
    ensures |m'.threads| == |m.threads| && m'.maxSize == m.maxSize
  {
    var phase := m.threads[a.t];
    match a
    case Call(t, op) => m.Set(t, Waiting(op))
    case Lock(t) => m.(mutex := Some(t)).Set(t, Inside(phase.op))
    case Test(t) => Critical(m, t, phase.op)
    case NotifyOne(t, sleeper) =>
      var told := if sleeper.Some? then m.Set(sleeper.value, m.threads[sleeper.value].Wake()) else m;
      told.Set(t, Leaving(phase.op, phase.answer))
    case NotifyAllFull(t) => m.(threads := Map(m.threads, WakeFull)).Set(t, NotifyingEmpty)
    case NotifyAllEmpty(t) => m.(threads := Map(m.threads, WakeEmpty)).Set(t, Leaving(Shutdown, Closed))
    case Unlock(t) => m.(mutex := None).Set(t, Idle)
    case WakeSpuriously(t) => m.Set(t, phase.Wake())
  }

  // ---------------------------------------------------------------------------
  // History

  /** accepted: producer and item of every push that was accepted, in order; removed:
      consumer and item of every pop that got one; drained: some blocking pop has
      returned nothing. */
  datatype History<V> = History(accepted: seq<(nat, V)>, removed: seq<(nat, V)>, drained: bool)

  datatype State<V> = State(m: Monitor<V>, h: History<V>)

  function Start<V>(maxSize: int, threadCount: nat): State<V>
    requires 0 < maxSize
  {
    State(Init(maxSize, threadCount).value, History([], [], false))
  }

  function NextHistory<V>(s: State<V>, a: Action<V>): History<V>
    requires Enabled(s.m, a)
  {
    if !a.Test? then s.h
    else
      match Next(s.m, a).threads[a.t]
      case Notifying(op, Done(_)) =>
        if op.Adds() then s.h.(accepted := s.h.accepted + [(a.t, op.item)]) else s.h
      case Notifying(_, Item(value)) => s.h.(removed := s.h.removed + [(a.t, value)])
      case Leaving(Pop, NoItem) => s.h.(drained := true)
      case _ => s.h
  }

  function Step<V>(s: State<V>, a: Action<V>): State<V>
    requires Enabled(s.m, a)
  {
    State(Next(s.m, a), NextHistory(s, a))
  }

  function Run<V>(s: State<V>, actions: seq<Action<V>>): Option<State<V>> {
    if actions == [] then Some(s)
    else match Run(s, actions[..|actions| - 1])
      case None => None
      case Some(mid) =>
        var a := actions[|actions| - 1];
        if Enabled(mid.m, a) then Some(Step(mid, a)) else None
  }
}
