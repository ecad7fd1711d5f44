/** What every action of the bounded queue keeps: mutual exclusion, capacity, order, and
    that no wakeup is lost. */
module BlockingQueueInvariant {
  import opened BlockingQueue
  import opened Totals
  import opened Wrappers

  /** A thread that is going to look at the queue on behalf of consumers, or that still
      owes them a notification. */
  function PopCredit<V>(phase: Phase<V>): int {
    if (phase.Woken? || phase.Inside?) && phase.op.Pop? then 1
    else if phase.Notifying? && phase.op.Adds() then 1 else 0
  }

  function PushCredit<V>(phase: Phase<V>): int {
    if (phase.Woken? || phase.Inside?) && phase.op.Push? then 1
    else if phase.Notifying? && phase.op.Removes() then 1 else 0
  }

  predicate MutexOk<V>(m: Monitor<V>) {
    && (m.mutex.Some? ==> m.mutex.value < |m.threads|)
    && (forall t :: 0 <= t < |m.threads| ==> (m.threads[t].HoldsMutex() <==> m.mutex == Some(t)))
  }

  ghost predicate PhaseOk<V>(m: Monitor<V>, h: History<V>, t: nat, phase: Phase<V>) {
    && (phase.Asleep? || phase.Woken? ==> phase.op.Push? || phase.op.Pop?)
    && (phase.Asleep? && m.done ==>
        && m.mutex.Some? && m.mutex.value < |m.threads|
        && var holder := m.threads[m.mutex.value];
           (holder.Notifying? && holder.op.Shutdown?) || (holder.NotifyingEmpty? && phase.op.Pop?))
    && (phase.Notifying? && phase.op.Shutdown? ==> m.done && phase.answer == Closed)
    && (phase.Notifying? && phase.op.Adds() ==> phase.answer == Done(true))
    && (phase.Notifying? && phase.op.Removes() ==> phase.answer.Item?)
    && (phase.NotifyingEmpty? || (phase.Leaving? && phase.answer.Closed?) ==> m.done)
    && ((phase.Notifying? || phase.Leaving?) && phase.answer.Item? ==>
        h.removed != [] && h.removed[|h.removed| - 1] == (t, phase.answer.value))
    && ((phase.Notifying? || phase.Leaving?) && phase.answer == Done(true) ==>
        && h.accepted != [] && h.accepted[|h.accepted| - 1].0 == t
        && phase.op.Adds() && h.accepted[|h.accepted| - 1].1 == phase.op.item)
    && (phase.Leaving? && phase.answer == NoItem ==>
        phase.op.Removes() && m.queue == [] && (phase.op.Pop? ==> m.done))
    && (phase.Leaving? && phase.answer == Done(false) ==>
        phase.op.Adds() && (m.done || (phase.op.TryPush? && !m.HasSpace())))
  }

  ghost predicate PhasesOk<V>(m: Monitor<V>, h: History<V>) {
    forall t :: 0 <= t < |m.threads| ==> PhaseOk(m, h, t, m.threads[t])
  }

  function Items<V>(tagged: seq<(nat, V)>): (items: seq<V>)
    ensures |items| == |tagged| && forall i :: 0 <= i < |items| ==> items[i] == tagged[i].1
  {
    seq(|tagged|, i requires 0 <= i < |tagged| => tagged[i].1)
  }

  ghost predicate OrderOk<V>(m: Monitor<V>, h: History<V>) {
    && 0 < m.maxSize && |m.queue| <= m.maxSize
    && Items(h.accepted) == Items(h.removed) + m.queue
    && (h.drained ==> m.done && m.queue == [])
  }

  /** Sleeping consumers never outnumber what is on its way to them. */
  predicate EmptyWakeOk<V>(m: Monitor<V>) {
    forall t :: 0 <= t < |m.threads| && m.threads[t].SleepsOnEmpty() && !m.done ==>
      |m.queue| <= Total(m.threads, PopCredit)
  }

  predicate FullWakeOk<V>(m: Monitor<V>) {
    forall t :: 0 <= t < |m.threads| && m.threads[t].SleepsOnFull() && !m.done ==>
      m.maxSize - |m.queue| <= Total(m.threads, PushCredit)
  }

  ghost predicate Inv<V>(s: State<V>) {
    MutexOk(s.m) && PhasesOk(s.m, s.h) && OrderOk(s.m, s.h) && EmptyWakeOk(s.m) && FullWakeOk(s.m)
  }

  lemma StartInv<V>(maxSize: int, threadCount: nat)
    requires 0 < maxSize
    ensures Inv(Start<V>(maxSize, threadCount))
  {
  }

  lemma NextMutexOk<V>(m: Monitor<V>, a: Action<V>)
    requires MutexOk(m) && Enabled(m, a)
    ensures MutexOk(Next(m, a))
  {
  }

  lemma ItemsAppend<V>(tagged: seq<(nat, V)>, t: nat, item: V)
    ensures Items(tagged + [(t, item)]) == Items(tagged) + [item]
  {
  }

  lemma AppendOrder<V>(accepted: seq<V>, removed: seq<V>, queue: seq<V>, item: V)
    requires accepted == removed + queue
    ensures accepted + [item] == removed + (queue + [item])
    ensures queue != [] ==> accepted == (removed + [queue[0]]) + queue[1..]
  {
  }

  lemma NextOrderOk<V>(s: State<V>, a: Action<V>)
    requires OrderOk(s.m, s.h) && Enabled(s.m, a)
    ensures OrderOk(Step(s, a).m, Step(s, a).h)
  {
    if a.Test? {
      var op := s.m.threads[a.t].op;
      if op.Adds() {
        ItemsAppend(s.h.accepted, a.t, op.item);
        AppendOrder(Items(s.h.accepted), Items(s.h.removed), s.m.queue, op.item);
      } else if s.m.queue != [] {
        ItemsAppend(s.h.removed, a.t, s.m.queue[0]);
        AppendOrder(Items(s.h.accepted), Items(s.h.removed), s.m.queue, s.m.queue[0]);
      }
    }
  }

  lemma TestPhaseOk<V>(s: State<V>, t: nat, u: nat)
    requires MutexOk(s.m) && PhasesOk(s.m, s.h) && Enabled(s.m, Test(t)) && u < |s.m.threads|
    ensures PhaseOk(Step(s, Test(t)).m, Step(s, Test(t)).h, u, Step(s, Test(t)).m.threads[u])
  {
    assert PhaseOk(s.m, s.h, u, s.m.threads[u]) && PhaseOk(s.m, s.h, t, s.m.threads[t]);
    hide PhasesOk;
  }

  lemma NotifyPhaseOk<V>(s: State<V>, a: Action<V>, u: nat)
    requires MutexOk(s.m) && PhasesOk(s.m, s.h) && Enabled(s.m, a) && u < |s.m.threads|
    requires a.NotifyOne? || a.NotifyAllFull? || a.NotifyAllEmpty?
    ensures PhaseOk(Step(s, a).m, Step(s, a).h, u, Step(s, a).m.threads[u])
  {
    assert PhaseOk(s.m, s.h, u, s.m.threads[u]) && PhaseOk(s.m, s.h, a.t, s.m.threads[a.t]);
    hide PhasesOk;
  }

  lemma QuietPhaseOk<V>(s: State<V>, a: Action<V>, u: nat)
    requires MutexOk(s.m) && PhasesOk(s.m, s.h) && Enabled(s.m, a) && u < |s.m.threads|
    requires a.Call? || a.Lock? || a.Unlock? || a.WakeSpuriously?
    ensures PhaseOk(Step(s, a).m, Step(s, a).h, u, Step(s, a).m.threads[u])
  {
    assert PhaseOk(s.m, s.h, u, s.m.threads[u]) && PhaseOk(s.m, s.h, a.t, s.m.threads[a.t]);
    hide PhasesOk;
  }

  lemma NextPhasesOk<V>(s: State<V>, a: Action<V>)
    requires MutexOk(s.m) && PhasesOk(s.m, s.h) && Enabled(s.m, a)
    ensures PhasesOk(Step(s, a).m, Step(s, a).h)
  {
    hide PhaseOk, MutexOk;
    forall u | 0 <= u < |s.m.threads|
      ensures PhaseOk(Step(s, a).m, Step(s, a).h, u, Step(s, a).m.threads[u])
    {
      if a.Test? { TestPhaseOk(s, a.t, u); }
      else if a.NotifyOne? || a.NotifyAllFull? || a.NotifyAllEmpty? { NotifyPhaseOk(s, a, u); }
      else { QuietPhaseOk(s, a, u); }
    }
  }

  /** How far the items in the queue exceed what is on its way to consumers, and the free
      slots what is on its way to producers. */
  function EmptyGap<V>(m: Monitor<V>): int { |m.queue| - Total(m.threads, PopCredit) }

  function FullGap<V>(m: Monitor<V>): int { m.maxSize - |m.queue| - Total(m.threads, PushCredit) }

  lemma SetGaps<V>(m: Monitor<V>, t: nat, phase: Phase<V>)
    requires t < |m.threads|
    ensures EmptyGap(m.Set(t, phase)) == EmptyGap(m) + PopCredit(m.threads[t]) - PopCredit(phase)
    ensures FullGap(m.Set(t, phase)) == FullGap(m) + PushCredit(m.threads[t]) - PushCredit(phase)
  {
    TotalUpdate(m.threads, PopCredit, t, phase);
    TotalUpdate(m.threads, PushCredit, t, phase);
  }

  /** No action widens a gap, unless the queue is then empty (full), shut down, or has
      nobody asleep on that side. */
  lemma NextGaps<V>(s: State<V>, a: Action<V>)
    requires Inv(s) && Enabled(s.m, a) && !a.NotifyAllFull? && !a.NotifyAllEmpty?
    ensures
      var m' := Next(s.m, a);
      || m'.done || m'.queue == [] || EmptyGap(m') <= EmptyGap(s.m)
      || (forall u :: 0 <= u < |m'.threads| ==> !m'.threads[u].SleepsOnEmpty())
    ensures
      var m' := Next(s.m, a);
      || m'.done || !m'.HasSpace() || FullGap(m') <= FullGap(s.m)
      || (forall u :: 0 <= u < |m'.threads| ==> !m'.threads[u].SleepsOnFull())
  {
    var m' := Next(s.m, a);
    assert PhaseOk(s.m, s.h, a.t, s.m.threads[a.t]);
    if a.NotifyOne? && a.sleeper.Some? {
      var u := a.sleeper.value;
      var told := s.m.Set(u, s.m.threads[u].Wake());
      SetGaps(s.m, u, s.m.threads[u].Wake());
      SetGaps(told, a.t, m'.threads[a.t]);
    } else {
      SetGaps(s.m, a.t, m'.threads[a.t]);
      assert m'.threads == s.m.Set(a.t, m'.threads[a.t]).threads;
    }
  }

  lemma NextWakeOk<V>(s: State<V>, a: Action<V>)
    requires Inv(s) && Enabled(s.m, a)
    ensures EmptyWakeOk(Next(s.m, a)) && FullWakeOk(Next(s.m, a))
  {
    var m' := Next(s.m, a);
    assert PhaseOk(s.m, s.h, a.t, s.m.threads[a.t]);
    TotalAtLeast(m'.threads, PopCredit);
    TotalAtLeast(m'.threads, PushCredit);
    if !a.NotifyAllFull? && !a.NotifyAllEmpty? {
      NextGaps(s, a);
    }
  }

  lemma StepInv<V>(s: State<V>, a: Action<V>)
    requires Inv(s) && Enabled(s.m, a)
    ensures Inv(Step(s, a))
  {
    hide PhasesOk, OrderOk, EmptyWakeOk, FullWakeOk;
    NextMutexOk(s.m, a);
    NextPhasesOk(s, a);
    NextOrderOk(s, a);
    NextWakeOk(s, a);
  }

  lemma {:induction false} RunInv<V>(s: State<V>, actions: seq<Action<V>>)
    requires Inv(s)
    ensures Run(s, actions).Some? ==> Inv(Run(s, actions).value)
  {
    hide Inv;
    if actions != [] {
      RunInv(s, actions[..|actions| - 1]);
      var before := Run(s, actions[..|actions| - 1]);
      if before.Some? && Enabled(before.value.m, actions[|actions| - 1]) {
        StepInv(before.value, actions[|actions| - 1]);
      }
    }
  }
}
