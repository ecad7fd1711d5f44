/** The real-time half of linearizability: calls that do not overlap take effect in their order. */
module LockFreeStackOrder {
  import opened LockFreeStack
  import opened LockFreeStackInvariant
  import opened LockFreeStackTheorems
  import opened Wrappers

  /** Where the k-th operation of thread t stands in the log. */
  function Position(log: seq<Event>, t: nat, k: nat): (i: nat)
    requires k < |Project(log, t)|
    ensures i < |log| && log[i] == Event(t, Project(log, t)[k])
  {
    var before := log[..|log| - 1];
    if k < |Project(before, t)| then Position(before, t, k) else |log| - 1
  }

  /** What is before a point of the log are the first operations of each thread, what is after it
      the later ones. */
  lemma {:induction false} PositionOfPrefix(log: seq<Event>, longer: seq<Event>, t: nat, k: nat)
    requires log <= longer && k < |Project(longer, t)|
    ensures Project(log, t) <= Project(longer, t)
    ensures k < |Project(log, t)| <==> Position(longer, t, k) < |log|
  {
    if |log| < |longer| {
      var before := longer[..|longer| - 1];
      if k < |Project(before, t)| {
        PositionOfPrefix(log, before, t, k);
      } else {
        ProjectPrefix(log, before, t);
      }
    } else {
      assert log == longer;
    }
  }

  lemma {:induction false} ProjectPrefix(log: seq<Event>, longer: seq<Event>, t: nat)
    requires log <= longer
    ensures Project(log, t) <= Project(longer, t)
  {
    if |log| < |longer| {
      ProjectPrefix(log, longer[..|longer| - 1], t);
    } else {
      assert log == longer;
    }
  }

  /** Positions count the operations of the thread before them. */
  lemma {:induction false} PositionCounts(log: seq<Event>, t: nat, k: nat)
    requires k < |Project(log, t)|
    ensures |Project(log[..Position(log, t, k)], t)| == k
  {
    var before := log[..|log| - 1];
    if k < |Project(before, t)| {
      PositionCounts(before, t, k);
      assert log[..Position(log, t, k)] == before[..Position(before, t, k)];
    }
  }

  /** When thread u is between two calls, every operation any thread t has returned from stands in
      the log before every operation u performs later, for the rest of every run: a call that
      returned before another one started takes effect before it. */
  lemma RealTimeOrder(s: State, actions: seq<Action>, t: nat, k: nat, u: nat, j: nat)
    requires Reachable(s) && s.Sized() && Run(s, actions).Some?
    requires t < |s.m.threads| && k < |s.h.returned[t]|
    requires u < |s.m.threads| && s.m.threads[u].Idle?
    requires |s.h.returned[u]| <= j < |Project(Run(s, actions).value.h.log, u)|
    ensures
      var s' := Run(s, actions).value;
      && s'.h.returned[u] <= Project(s'.h.log, u)
      && k < |Project(s'.h.log, t)| && s.h.returned[t][k] == Project(s'.h.log, t)[k]
      && Position(s'.h.log, t, k) < |s.h.log| <= Position(s'.h.log, u, j)
  {
    var s' := Run(s, actions).value;
    ReachableInv(s);
    RunKeepsInv(s, actions);
    LogIsPrefix(s, actions);
    ProjectPrefix(s.h.log, s'.h.log, t);
    assert CallOk(s.h, t) && CallOk(s.h, u) && ThreadOk(s, u) && CallOk(s'.h, u);
    PositionOfPrefix(s.h.log, s'.h.log, t, k);
    PositionOfPrefix(s.h.log, s'.h.log, u, j);
  }
}
