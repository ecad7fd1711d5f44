/** When a pop may read `next` through a node that another pop has freed. */
module LockFreeStackReclamation {
  import opened LockFreeStack
  import opened LockFreeStackInvariant
  import opened Sequences
  import opened Wrappers

  predicate PopsOnlyFrom(actions: seq<Action>, poppers: set<nat>) {
    forall i :: 0 <= i < |actions| && actions[i].CallPop? ==> actions[i].t in poppers
  }

  /** A thread about to read `next` reads it through a live node. */
  predicate ReadIsLive(s: State, t: nat) {
    t < |s.m.threads| && s.m.threads[t].PopRead? ==> s.m.Live(s.m.threads[t].snap.node)
  }

  /** In every run in which only `poppers` call pop, every such read is of a live node. */
  ghost predicate AllReadsLive(threadCount: nat, poppers: set<nat>) {
    forall actions, t: nat ::
      Run(Init(threadCount), actions).Some? && PopsOnlyFrom(actions, poppers) ==>
        ReadIsLive(Run(Init(threadCount), actions).value, t)
  }

  // One popping thread

  predicate Popping(th: Thread) {
    th.PopLoad? || th.PopRead? || th.PopFetch? || th.PopCas? || th.PopKey? || th.PopDelete? || th.PopReturn?
  }

  predicate OnlyPop(s: State, poppers: set<nat>) {
    forall t :: 0 <= t < |s.m.threads| && Popping(s.m.threads[t]) ==> t in poppers
  }

  lemma TopIsLive(s: State)
    requires Inv(s) && s.m.top.node.Ref?
    ensures s.m.Live(s.m.top.node)
  {
    ChainPop(s.m.top.node, s.m.heap, s.h.chain);
  }

  lemma TwoMembers(poppers: set<nat>, t: nat, u: nat)
    requires t in poppers && u in poppers && t != u
    ensures 2 <= |poppers|
  {
    assert u in poppers - {t};
    assert |poppers - {t}| == |poppers| - 1;
  }

  /** Only a delete makes a node dead, and only a popping thread deletes. */
  lemma StepReadIsLive(s: State, a: Action, poppers: set<nat>, t: nat)
    requires Inv(s) && Enabled(s.m, a) && |poppers| <= 1 && (a.CallPop? ==> a.t in poppers)
    requires OnlyPop(s, poppers) && ReadIsLive(s, t)
    ensures OnlyPop(Next(s, a), poppers) && ReadIsLive(Next(s, a), t)
  {
    if s.m.top.node.Ref? { TopIsLive(s); }
    if a.Delete? && t < |s.m.threads| && s.m.threads[t].PopRead? {
      if a.t != t { TwoMembers(poppers, a.t, t); }
    }
    hide Inv;
  }

  lemma {:induction false} OnePopper(threadCount: nat, actions: seq<Action>, poppers: set<nat>, t: nat)
    requires Run(Init(threadCount), actions).Some? && PopsOnlyFrom(actions, poppers) && |poppers| <= 1
    ensures OnlyPop(Run(Init(threadCount), actions).value, poppers)
    ensures ReadIsLive(Run(Init(threadCount), actions).value, t)
  {
    hide Inv;
    if actions != [] {
      var before, a := actions[..|actions| - 1], actions[|actions| - 1];
      OnePopper(threadCount, before, poppers, t);
      RunInv(threadCount, before);
      hide OnlyPop, ReadIsLive;
      StepReadIsLive(Run(Init(threadCount), before).value, a, poppers, t);
    }
  }

  // Two popping threads

  /** The part of the machine that a run of threads p and q is about. */
  predicate At(s: State, top: TaggedPointer, heap: map<nat, Node>, p: nat, q: nat, forP: Thread, forQ: Thread) {
    && s.Sized() && p < |s.m.threads| && q < |s.m.threads|
    && s.m.top == top && s.m.heap == heap && s.m.threads[p] == forP && s.m.threads[q] == forQ
  }

  /** One more action at the end of a run. */
  lemma Extend(threadCount: nat, actions: seq<Action>, s: State, a: Action, poppers: set<nat>)
    returns (actions': seq<Action>, s': State)
    requires Run(Init(threadCount), actions) == Some(s) && PopsOnlyFrom(actions, poppers)
    requires s.Sized() && Enabled(s.m, a) && (a.CallPop? ==> a.t in poppers)
    ensures Run(Init(threadCount), actions') == Some(s') && PopsOnlyFrom(actions', poppers)
    ensures s'.Sized() && s'.m == NextMachine(s.m, a)
  {
    actions', s' := actions + [a], Next(s, a);
    assert actions'[..|actions|] == actions;
  }

  lemma IdleThreads(threadCount: nat, p: nat, q: nat, poppers: set<nat>) returns (actions: seq<Action>, s: State)
    requires p < threadCount && q < threadCount && p != q
    ensures Run(Init(threadCount), actions) == Some(s) && PopsOnlyFrom(actions, poppers)
    ensures At(s, NULL_TOP, map[], p, q, Idle, Idle) && s.m.tagCounter == 0
  {
    actions, s := [], Init(threadCount);
  }

  lemma OneKeyPushed(threadCount: nat, p: nat, q: nat, poppers: set<nat>) returns (actions: seq<Action>, s: State)
    requires p < threadCount && q < threadCount && p != q
    ensures Run(Init(threadCount), actions) == Some(s) && PopsOnlyFrom(actions, poppers)
    ensures At(s, TaggedPointer(Ref(4), 0), map[4 := Node(7, Null)], p, q, Idle, Idle) && s.m.tagCounter == 1
  {
    actions, s := IdleThreads(threadCount, p, q, poppers);
    actions, s := Extend(threadCount, actions, s, CallPush(p, 7, 4), poppers);
    actions, s := Extend(threadCount, actions, s, Load(p), poppers);
    actions, s := Extend(threadCount, actions, s, Link(p), poppers);
    assert At(s, NULL_TOP, map[4 := Node(7, Null)], p, q, PushFetch(7, 4, NULL_TOP), Idle) && s.m.tagCounter == 0;
    actions, s := Extend(threadCount, actions, s, FetchTag(p), poppers);
    actions, s := Extend(threadCount, actions, s, CasSucceed(p), poppers);
    actions, s := Extend(threadCount, actions, s, Return(p), poppers);
  }

  lemma OneKeyTakenTwice(threadCount: nat, p: nat, q: nat, poppers: set<nat>) returns (actions: seq<Action>, s: State)
    requires p < threadCount && q < threadCount && p != q && p in poppers && q in poppers
    ensures Run(Init(threadCount), actions) == Some(s) && PopsOnlyFrom(actions, poppers)
    ensures
      var top := TaggedPointer(Ref(4), 0);
      At(s, top, map[4 := Node(7, Null)], p, q, PopRead(top), PopRead(top)) && s.m.tagCounter == 1
  {
    actions, s := OneKeyPushed(threadCount, p, q, poppers);
    actions, s := Extend(threadCount, actions, s, CallPop(p), poppers);
    actions, s := Extend(threadCount, actions, s, CallPop(q), poppers);
    actions, s := Extend(threadCount, actions, s, Load(p), poppers);
    actions, s := Extend(threadCount, actions, s, Load(q), poppers);
  }

  /** Any two threads that pop can bring it about: one frees the node the other is about to read. */
  lemma FreedReadHappens(threadCount: nat, p: nat, q: nat, poppers: set<nat>) returns (actions: seq<Action>, s: State)
    requires p < threadCount && q < threadCount && p != q && p in poppers && q in poppers
    ensures Run(Init(threadCount), actions) == Some(s) && PopsOnlyFrom(actions, poppers)
    ensures q < |s.m.threads| && s.m.threads[q].PopRead? && !ReadIsLive(s, q)
  {
    ghost var top := TaggedPointer(Ref(4), 0);
    actions, s := OneKeyTakenTwice(threadCount, p, q, poppers);
    actions, s := Extend(threadCount, actions, s, ReadNext(p, Null), poppers);
    actions, s := Extend(threadCount, actions, s, FetchTag(p), poppers);
    assert At(s, top, map[4 := Node(7, Null)], p, q, PopCas(top, Null, 1), PopRead(top));
    actions, s := Extend(threadCount, actions, s, CasSucceed(p), poppers);
    assert At(s, TaggedPointer(Null, 1), map[4 := Node(7, Null)], p, q, PopKey(4), PopRead(top));
    actions, s := Extend(threadCount, actions, s, ReadKey(p, 7), poppers);
    actions, s := Extend(threadCount, actions, s, Delete(p), poppers);
  }

  /** `next` is only ever read through live nodes if and only if at most one thread calls pop. */
  lemma ReadsAreLiveExactly(threadCount: nat, poppers: set<nat>)
    requires forall p :: p in poppers ==> p < threadCount
    ensures AllReadsLive(threadCount, poppers) <==> |poppers| <= 1
  {
    if |poppers| <= 1 {
      forall actions, t: nat | Run(Init(threadCount), actions).Some? && PopsOnlyFrom(actions, poppers)
        ensures ReadIsLive(Run(Init(threadCount), actions).value, t)
      {
        OnePopper(threadCount, actions, poppers, t);
      }
    } else {
      var p, q := TwoOf(poppers);
      var actions, s := FreedReadHappens(threadCount, p, q, poppers);
      assert !ReadIsLive(Run(Init(threadCount), actions).value, q);
    }
  }

  lemma TwoOf(poppers: set<nat>) returns (p: nat, q: nat)
    requires 2 <= |poppers|
    ensures p in poppers && q in poppers && p != q
  {
    p :| p in poppers;
    assert |poppers - {p}| == |poppers| - 1;
    q :| q in poppers - {p};
  }

  /** With every thread free to pop: if and only if there is at most one thread. */
  lemma ReadsAreLiveAlone(threadCount: nat)
    ensures AllReadsLive(threadCount, Below(threadCount)) <==> threadCount <= 1
  {
    ReadsAreLiveExactly(threadCount, Below(threadCount));
  }
}
