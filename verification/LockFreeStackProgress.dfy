/** Lock-freedom in numbers: a compare-and-swap fails for a reason only when another
    one has succeeded, and each success can make each other thread fail only once. */
module LockFreeStackProgress {
  import opened LockFreeStack
  import opened LockFreeStackInvariant
  import opened Totals

  function One(b: bool): int { if b then 1 else 0 }

  /** Thread t holds a snapshot that a success has overtaken. */
  predicate Stale(s: State, t: nat)
    requires s.Sized() && t < |s.m.threads|
  {
    s.m.threads[t].HasSnapshot() && s.h.seen[t] < s.h.version
  }

  function StaleFlags(s: State): (flags: seq<bool>)
    requires s.Sized()
    ensures |flags| == |s.m.threads|
    ensures forall t :: 0 <= t < |flags| ==> flags[t] == Stale(s, t)
  {
    seq(|s.m.threads|, t requires 0 <= t < |s.m.threads| => Stale(s, t))
  }

  function StaleCount(s: State): int
    requires s.Sized()
  {
    Total(StaleFlags(s), One)
  }

  /** What a step does to the thread that takes it. */
  lemma StepStale(s: State, a: Action)
    requires Inv(s) && Enabled(s.m, a)
    ensures !a.CasSucceed? ==> forall u :: 0 <= u < |s.m.threads| && u != a.t ==> Stale(Next(s, a), u) == Stale(s, u)
    ensures Stale(Next(s, a), a.t) ==> Stale(s, a.t)
    ensures a.CasSucceed? ==> !Stale(Next(s, a), a.t)
    ensures a.CasFail? ==> !Stale(Next(s, a), a.t)
    ensures a.CasFail? && s.m.threads[a.t].snap != s.m.top ==> Stale(s, a.t)
  {
    assert ThreadOk(s, a.t);
  }

  lemma StepStaleCount(s: State, a: Action)
    requires Inv(s) && Enabled(s.m, a)
    ensures a.CasSucceed? ==> StaleCount(Next(s, a)) <= |s.m.threads| - 1
    ensures !a.CasSucceed? ==> StaleCount(Next(s, a)) <= StaleCount(s)
    ensures a.CasFail? && s.m.threads[a.t].snap != s.m.top ==> StaleCount(Next(s, a)) == StaleCount(s) - 1
  {
    StepStale(s, a);
    var flags, flags' := StaleFlags(s), StaleFlags(Next(s, a));
    if a.CasSucceed? {
      TotalAtMost(flags', One);
      assert One(flags'[a.t]) <= 0;
    } else {
      assert flags' == flags[a.t := flags'[a.t]];
      TotalUpdate(flags, One, a.t, flags'[a.t]);
    }
  }

  lemma {:induction false} NoneStale(flags: seq<bool>)
    requires forall t :: 0 <= t < |flags| ==> !flags[t]
    ensures Total(flags, One) == 0
  {
    if flags != [] { NoneStale(flags[1..]); }
  }

  /** The compare-and-swaps of a run that succeeded. */
  function Successes(actions: seq<Action>): nat {
    if actions == [] then 0
    else Successes(actions[..|actions| - 1]) + if actions[|actions| - 1].CasSucceed? then 1 else 0
  }

  /** Those that failed because the values differed; a spurious failure is not one. */
  function Failures(s: State, actions: seq<Action>): nat
    requires s.Sized() && Run(s, actions).Some?
  {
    if actions == [] then 0
    else
      var last := actions[|actions| - 1];
      var m := Run(s, actions[..|actions| - 1]).value.m;
      Failures(s, actions[..|actions| - 1]) + if last.CasFail? && m.threads[last.t].snap != m.top then 1 else 0
  }

  /** Failures so far and failures still to come from the snapshots now stale. */
  function Charged(s: State, actions: seq<Action>): int
    requires s.Sized() && Run(s, actions).Some?
  {
    Failures(s, actions) + StaleCount(Run(s, actions).value)
  }

  /** A success charges each other thread once; no other step adds a charge. */
  lemma LastStepCharges(threadCount: nat, actions: seq<Action>)
    requires actions != [] && Run(Init(threadCount), actions).Some?
    ensures
      var s, before := Init(threadCount), actions[..|actions| - 1];
      if Successes(actions) == Successes(before)
      then Charged(s, actions) <= Charged(s, before)
      else Successes(actions) == Successes(before) + 1 && Charged(s, actions) <= Charged(s, before) + threadCount - 1
  {
    RunInv(threadCount, actions[..|actions| - 1]);
    var before := Run(Init(threadCount), actions[..|actions| - 1]).value;
    StepStaleCount(before, actions[|actions| - 1]);
    TotalAtLeast(StaleFlags(before), One);
  }

  lemma Balance(perSuccess: int, charged: int, successes: nat, charged': int, successes': nat)
    requires charged <= perSuccess * successes
    requires if successes' == successes then charged' <= charged
             else successes' == successes + 1 && charged' <= charged + perSuccess
    ensures charged' <= perSuccess * successes'
  {
    assert perSuccess * (successes + 1) == perSuccess * successes + perSuccess;
  }

  lemma {:induction false} RunBound(threadCount: nat, actions: seq<Action>)
    requires Run(Init(threadCount), actions).Some?
    ensures Charged(Init(threadCount), actions) <= (threadCount - 1) * Successes(actions)
  {
    var s := Init(threadCount);
    if actions == [] {
      NoneStale(StaleFlags(s));
    } else {
      var before := actions[..|actions| - 1];
      RunBound(threadCount, before);
      LastStepCharges(threadCount, actions);
      Balance(threadCount - 1, Charged(s, before), Successes(before), Charged(s, actions), Successes(actions));
    }
  }

  /** In every run of T threads there are at most T - 1 failures for each success. */
  lemma FailuresBoundedBySuccesses(threadCount: nat, actions: seq<Action>)
    requires Run(Init(threadCount), actions).Some?
    ensures Failures(Init(threadCount), actions) <= (threadCount - 1) * Successes(actions)
  {
    RunBound(threadCount, actions);
    TotalAtLeast(StaleFlags(Run(Init(threadCount), actions).value), One);
  }

  /** Nobody ever waits for anybody: in every state of every run each thread inside a call can take its
      next step, and each thread outside can start either call. */
  lemma NeverBlocked(s: State, t: nat, key: int, addr: nat) returns (a: Action)
    requires Inv(s) && t < |s.m.threads|
    ensures a.t == t && Enabled(s.m, a)
    ensures s.m.threads[t].Idle? ==> Enabled(s.m, CallPop(t)) && (addr !in s.m.heap ==> Enabled(s.m, CallPush(t, key, addr)))
    ensures !s.m.threads[t].Idle? ==> !a.CallPush? && !a.CallPop?
  {
    assert ThreadOk(s, t);
    var th := s.m.threads[t];
    match th
    case Idle => a := CallPop(t);
    case PushLoad(_, _) => a := Load(t);
    case PopLoad => a := Load(t);
    case PushLink(_, _, _) => a := Link(t);
    case PopRead(snap) => a := ReadNext(t, if s.m.Live(snap.node) then s.m.heap[snap.node.addr].next else Null);
    case PushFetch(_, _, _) => a := FetchTag(t);
    case PopFetch(_, _) => a := FetchTag(t);
    case PushCas(_, _, _, _) => a := if s.m.top == th.snap then CasSucceed(t) else CasFail(t);
    case PopCas(_, _, _) => a := if s.m.top == th.snap then CasSucceed(t) else CasFail(t);
    case PopKey(won) => a := ReadKey(t, if won in s.m.heap then s.m.heap[won].key else 0);
    case PopDelete(_, _) => a := Delete(t);
    case PushReturn(_) => a := Return(t);
    case PopReturn(_) => a := Return(t);
  }
}
