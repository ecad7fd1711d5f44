/** What the lock-free stack promises its callers, over every run. */
module LockFreeStackTheorems {
  import opened LockFreeStack
  import opened LockFreeStackInvariant
  import opened Sequences
  import opened Totals
  import opened Wrappers

  ghost predicate Reachable(s: State) {
    exists threadCount: nat, actions: seq<Action> :: Run(Init(threadCount), actions) == Some(s)
  }

  lemma ReachableInv(s: State)
    requires Reachable(s)
    ensures Inv(s)
  {
    var threadCount: nat, actions: seq<Action> :| Run(Init(threadCount), actions) == Some(s);
    RunInv(threadCount, actions);
  }

  /** The sequential stack that a state of the machine stands for, top first. */
  function Stack(s: State): seq<int>
    requires ChainOk(s.m.top.node, s.m.heap, s.h.chain)
  {
    Keys(s.m.heap, s.h.chain)
  }

  // ---------------------------------------------------------------------------
  // Refinement of a sequential stack

  /** Each step either leaves the stack alone or is one operation of a sequential
      stack: a push or pop at a compare-and-swap that succeeds, an empty pop when
      `top` is read as null. */
  lemma StepRefines(s: State, a: Action)
    requires Reachable(s) && Enabled(s.m, a)
    ensures Inv(s) && Inv(Next(s, a))
    ensures
      var s', th := Next(s, a), s.m.threads[a.t];
      if a.CasSucceed? && th.PushCas? then
        Apply(Stack(s), Push(th.key)) == Some(Stack(s')) && s'.h.log == s.h.log + [Event(a.t, Push(th.key))]
      else if a.CasSucceed? then
        && Stack(s) != []
        && Apply(Stack(s), Pop(Stack(s)[0])) == Some(Stack(s'))
        && s'.h.log == s.h.log + [Event(a.t, Pop(Stack(s)[0]))]
      else if ((a.Load? && th.PopLoad?) || (a.CasFail? && th.PopCas?)) && s.m.top.node == Null then
        Stack(s) == [] == Stack(s') && s'.h.log == s.h.log + [Event(a.t, PopEmpty)]
      else
        Stack(s') == Stack(s) && s'.h.log == s.h.log
  {
    ReachableInv(s);
    NextInv(s, a);
    NextChain(s, a);
    if a.CasSucceed? { CasRefines(s, a.t); }
  }

  lemma CasRefines(s: State, t: nat)
    requires Inv(s) && Enabled(s.m, CasSucceed(t)) && Inv(Next(s, CasSucceed(t)))
    ensures s.m.threads[t].PushCas? ==> Stack(Next(s, CasSucceed(t))) == [s.m.threads[t].key] + Stack(s)
    ensures s.m.threads[t].PopCas? ==>
      && Stack(s) != [] && Stack(Next(s, CasSucceed(t))) == Stack(s)[1..]
      && s.h.chain != [] && s.h.chain[0] in s.m.heap && s.m.heap[s.h.chain[0]].key == Stack(s)[0]
  {
    var th := s.m.threads[t];
    CasOnCurrentTop(s, CasSucceed(t));
    if th.PushCas? {
      assert Holds(s.m.threads, t, th.node);
      ChainPush(s.m.top.node, s.m.heap, s.h.chain, th.node);
    } else {
      ChainPop(s.m.top.node, s.m.heap, s.h.chain);
    }
  }

  /** Linearizability: the log is a run of a sequential stack, and what each thread
      has returned from, plus at most its current call, is its part of the log.  A
      call that has not started is not in the log, a call about to return is. */
  lemma Linearizable(s: State, t: nat)
    requires Reachable(s) && t < |s.m.threads|
    ensures Inv(s) && Replay(s.h.log) == Some(Stack(s))
    ensures s.h.returned[t] <= Project(s.h.log, t)
    ensures |Project(s.h.log, t)| <= |s.h.returned[t]| + 1
    ensures s.m.threads[t].Idle? ==> Project(s.h.log, t) == s.h.returned[t]
    ensures s.m.threads[t].PushReturn? || s.m.threads[t].PopReturn? ==>
      Project(s.h.log, t) == Next(s, Return(t)).h.returned[t]
  {
    ReachableInv(s);
    assert ThreadOk(s, t) && CallOk(s.h, t);
  }

  /** `pop` returns the key that the sequential stack had on top, or 0 on an empty one. */
  lemma PopReturnsWhatItTook(s: State, t: nat)
    requires Reachable(s) && t < |s.m.threads| && s.m.threads[t].PopReturn?
    ensures s.Sized()
    ensures
      var results := Next(s, Return(t)).h.returned[t];
      && results != []
      && (results[|results| - 1] == Pop(s.m.threads[t].value)
          || (results[|results| - 1] == PopEmpty && s.m.threads[t].value == 0))
  {
    ReachableInv(s);
    assert ThreadOk(s, t);
  }

  /** Real-time order: what is in the log stays where it is, so a call that returned
      before another one started comes first. */
  lemma {:induction false} LogIsPrefix(s: State, actions: seq<Action>)
    requires s.Sized() && Run(s, actions).Some?
    ensures s.h.log <= Run(s, actions).value.h.log
  {
    if actions != [] {
      LogIsPrefix(s, actions[..|actions| - 1]);
    }
  }

  // ---------------------------------------------------------------------------
  // Tags defeat ABA

  /** At the compare-and-swap the values are equal if and only if no other
      compare-and-swap has succeeded since the snapshot. */
  lemma CasDetectsEveryChange(s: State, t: nat)
    requires Reachable(s) && t < |s.m.threads| && (s.m.threads[t].PushCas? || s.m.threads[t].PopCas?)
    ensures s.Sized()
    ensures s.m.threads[t].snap == s.m.top <==> s.h.seen[t] == s.h.version
  {
    ReachableInv(s);
    assert ThreadOk(s, t);
  }

  predicate TakesSnapshot(a: Action, t: nat) {
    (a.Load? || a.CasFail?) && a.t == t
  }

  lemma {:induction false} VersionGrows(s: State, actions: seq<Action>, t: nat)
    requires s.Sized() && Run(s, actions).Some? && t < |s.m.threads|
    ensures
      var s' := Run(s, actions).value;
      && s.h.version <= s'.h.version
      && (s.h.version == s'.h.version ==> s'.m.top == s.m.top)
      && ((forall i :: 0 <= i < |actions| ==> !TakesSnapshot(actions[i], t)) ==> s'.h.seen[t] == s.h.seen[t])
  {
    if actions != [] {
      VersionGrows(s, actions[..|actions| - 1], t);
    }
  }

  lemma {:induction false} RunSplits(s: State, first: seq<Action>, second: seq<Action>)
    requires s.Sized() && Run(s, first + second).Some?
    ensures Run(s, first).Some? && Run(Run(s, first).value, second) == Run(s, first + second)
  {
    if second == [] {
      assert first + second == first;
    } else {
      var all := first + second;
      assert all[..|all| - 1] == first + second[..|second| - 1];
      RunSplits(s, first, second[..|second| - 1]);
    }
  }

  /** If no compare-and-swap succeeded in a run, `top` is the same all along it. */
  lemma SameVersionSameTop(s: State, actions: seq<Action>, k: nat)
    requires s.Sized() && Run(s, actions).Some? && k <= |actions| && 0 < |s.m.threads|
    requires Run(s, actions).value.h.version == s.h.version
    ensures Run(s, actions[..k]).Some? && Run(s, actions[..k]).value.m.top == s.m.top
  {
    assert actions == actions[..k] + actions[k..];
    RunSplits(s, actions[..k], actions[k..]);
    VersionGrows(s, actions[..k], 0);
    VersionGrows(Run(s, actions[..k]).value, actions[k..], 0);
  }

  lemma SnapshotIsFresh(s: State, snapshot: Action)
    requires s.Sized() && Enabled(s.m, snapshot) && TakesSnapshot(snapshot, snapshot.t)
    ensures
      var s' := Next(s, snapshot);
      && s'.h.version == s.h.version
      && (s'.m.threads[snapshot.t].HasSnapshot() ==> s'.h.seen[snapshot.t] == s.h.version)
  {
  }

  /** A snapshot that a compare-and-swap later succeeds on saw the last success before it. */
  lemma SnapshotStaysCurrent(s: State, snapshot: Action, between: seq<Action>)
    requires Inv(s) && Enabled(s.m, snapshot) && TakesSnapshot(snapshot, snapshot.t)
    requires forall i :: 0 <= i < |between| ==> !TakesSnapshot(between[i], snapshot.t)
    requires Run(Next(s, snapshot), between).Some?
    requires Enabled(Run(Next(s, snapshot), between).value.m, CasSucceed(snapshot.t))
    ensures Run(Next(s, snapshot), between).value.h.version == s.h.version
  {
    var t, s1 := snapshot.t, Next(s, snapshot);
    SnapshotIsFresh(s, snapshot);
    NextInv(s, snapshot);
    RunKeepsInv(s1, between);
    var s2 := Run(s1, between).value;
    VersionGrows(s1, between, t);
    CasOnCurrentTop(s2, CasSucceed(t));
    if !s1.m.threads[t].HasSnapshot() {
      NoSnapshotNoCas(s1, between, t);
    }
  }

  /** From the snapshot a thread takes to the compare-and-swap of that thread that
      succeeds on it, `top` has the same value in every state of the run, although
      the node's address may have been freed and handed out again. */
  lemma TopUnchangedSinceSnapshot(s: State, snapshot: Action, between: seq<Action>, k: nat)
    requires Reachable(s) && s.Sized() && Enabled(s.m, snapshot) && TakesSnapshot(snapshot, snapshot.t)
    requires forall i :: 0 <= i < |between| ==> !TakesSnapshot(between[i], snapshot.t)
    requires Run(Next(s, snapshot), between).Some?
    requires Enabled(Run(Next(s, snapshot), between).value.m, CasSucceed(snapshot.t))
    requires k <= |between|
    ensures Run(Next(s, snapshot), between[..k]).Some?
    ensures Run(Next(s, snapshot), between[..k]).value.m.top == s.m.top
  {
    ReachableInv(s);
    SnapshotStaysCurrent(s, snapshot, between);
    SameVersionSameTop(Next(s, snapshot), between, k);
  }

  lemma {:induction false} RunKeepsInv(s: State, actions: seq<Action>)
    requires Inv(s)
    ensures Run(s, actions).Some? ==> Inv(Run(s, actions).value)
  {
    if actions != [] {
      RunKeepsInv(s, actions[..|actions| - 1]);
      var before := Run(s, actions[..|actions| - 1]);
      if before.Some? && Enabled(before.value.m, actions[|actions| - 1]) {
        NextInv(before.value, actions[|actions| - 1]);
      }
    }
  }

  /** A thread that takes no snapshot never gets to a compare-and-swap. */
  lemma {:induction false} NoSnapshotNoCas(s: State, actions: seq<Action>, t: nat)
    requires s.Sized() && Run(s, actions).Some? && t < |s.m.threads| && !s.m.threads[t].HasSnapshot()
    requires forall i :: 0 <= i < |actions| ==> !TakesSnapshot(actions[i], t)
    ensures !Run(s, actions).value.m.threads[t].HasSnapshot()
  {
    if actions != [] {
      NoSnapshotNoCas(s, actions[..|actions| - 1], t);
    }
  }

  // ---------------------------------------------------------------------------
  // Memory

  /** No step writes to, deletes or takes a key from a dead node; a delete is of a
      live node that one thread holds, so no node is deleted twice. */
  lemma MemorySafe(s: State, a: Action)
    requires Reachable(s) && Enabled(s.m, a)
    ensures s.Sized() && !Next(s, a).m.fault
    ensures a.Delete? ==>
      var won := s.m.threads[a.t].won;
      && won in s.m.heap && won !in Next(s, a).m.heap && won !in s.h.chain
      && forall u :: Holds(s.m.threads, u, won) ==> u == a.t
    ensures a.ReadKey? ==> s.h.lin[a.t] == Some(Pop(a.value))
  {
    ReachableInv(s);
    NextNoFault(s, a);
    assert ThreadOk(s, a.t);
    assert a.Delete? ==> Holds(s.m.threads, a.t, s.m.threads[a.t].won);
  }

  lemma IdleHoldNothing(loose: set<nat>, threads: seq<Thread>)
    requires OwnershipOk(loose, threads) && forall t :: 0 <= t < |threads| ==> threads[t].Idle?
    ensures loose == {}
  {
    assert forall t, addr :: !Holds(threads, t, addr);
  }

  /** Nothing leaks: with no call in progress, the live nodes are those in the list. */
  lemma NoLeak(s: State)
    requires Reachable(s) && forall t :: 0 <= t < |s.m.threads| ==> s.m.threads[t].Idle?
    ensures s.m.heap.Keys == Elements(s.h.chain)
    ensures |s.h.chain| == |s.m.heap|
  {
    ReachableInv(s);
    IdleNoLeak(s);
  }

  lemma IdleNoLeak(s: State)
    requires Inv(s) && forall t :: 0 <= t < |s.m.threads| ==> s.m.threads[t].Idle?
    ensures s.m.heap.Keys == Elements(s.h.chain)
    ensures |s.h.chain| == |s.m.heap|
  {
    IdleHoldNothing(Loose(s.m.heap, s.h.chain), s.m.threads);
    forall addr | addr in s.m.heap.Keys
      ensures addr in Elements(s.h.chain)
    {
      assert addr !in Loose(s.m.heap, s.h.chain);
    }
    forall addr | addr in Elements(s.h.chain)
      ensures addr in s.m.heap.Keys
    {
      var i :| 0 <= i < |s.h.chain| && s.h.chain[i] == addr;
    }
    assert s.m.heap.Keys == Elements(s.h.chain);
    DistinctCount(s.h.chain);
  }

  /** A `next` read through a node that is not live is always read under a snapshot
      that can no longer win. */
  lemma FreedReadCannotWin(s: State, t: nat)
    requires Reachable(s) && t < |s.m.threads| && s.m.threads[t].PopRead?
    requires !s.m.Live(s.m.threads[t].snap.node)
    ensures s.Sized() && s.h.seen[t] < s.h.version && s.m.threads[t].snap != s.m.top
  {
    ReachableInv(s);
    assert ThreadOk(s, t);
    if s.h.chain != [] { assert s.h.chain[0] in s.m.heap; }
  }
}
