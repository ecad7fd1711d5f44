/** What every step of the lock-free stack keeps. */
module LockFreeStackInvariant {
  import opened LockFreeStack
  import opened Sequences
  import opened Wrappers

  function PointerAt(chain: seq<nat>, i: nat): Pointer {
    if i < |chain| then Ref(chain[i]) else Null
  }

  /** `chain` is the acyclic, live list hanging from `top`. */
  predicate ChainOk(top: Pointer, heap: map<nat, Node>, chain: seq<nat>) {
    && top == PointerAt(chain, 0)
    && Distinct(chain)
    && (forall i :: 0 <= i < |chain| ==> chain[i] in heap && heap[chain[i]].next == PointerAt(chain, i + 1))
  }

  /** The node a thread holds: pushed but not yet linked in, or won by its pop. */
  function Held(th: Thread): Option<nat> {
    match th
    case PushLoad(_, node) => Some(node)
    case PushLink(_, node, _) => Some(node)
    case PushFetch(_, node, _) => Some(node)
    case PushCas(_, node, _, _) => Some(node)
    case PopKey(won) => Some(won)
    case PopDelete(won, _) => Some(won)
    case _ => None
  }

  predicate Holds(threads: seq<Thread>, t: nat, addr: nat) {
    t < |threads| && Held(threads[t]) == Some(addr)
  }

  /** The live nodes that are not in the list. */
  function Loose(heap: map<nat, Node>, chain: seq<nat>): set<nat> {
    heap.Keys - Elements(chain)
  }

  /** Every loose node is held by exactly one thread, and threads hold only those. */
  ghost predicate OwnershipOk(loose: set<nat>, threads: seq<Thread>) {
    && (forall t, addr :: Holds(threads, t, addr) ==> addr in loose)
    && (forall t, u, addr :: Holds(threads, t, addr) && Holds(threads, u, addr) ==> t == u)
    && (forall addr :: addr in loose ==> exists t :: Holds(threads, t, addr))
  }

  /** Orders the values `top` takes: the initial {null, 0} comes before the first push. */
  function Rank(p: TaggedPointer): nat {
    2 * p.tag + if p.node.Ref? then 1 else 0
  }

  predicate Issued(p: TaggedPointer, tagCounter: nat) {
    p == NULL_TOP || p.tag < tagCounter
  }

  predicate SnapshotOk(m: Machine, version: nat, th: Thread, seen: nat) {
    th.HasSnapshot() ==>
      && Issued(th.snap, m.tagCounter)
      && seen <= version
      && (seen == version ==> th.snap == m.top)
      && (seen < version ==> Rank(th.snap) < Rank(m.top))
      && (th.PopRead? || th.PopFetch? || th.PopCas? ==> th.snap.node.Ref?)
      && (th.PushCas? || th.PopCas? ==> th.tag < m.tagCounter && Rank(th.snap) < Rank(th.Installs()))
  }

  /** What the thread has read or written so far is still true. */
  predicate LocalOk(m: Machine, version: nat, th: Thread, seen: nat) {
    match th
    case PushLoad(key, node) => node in m.heap && m.heap[node].key == key
    case PushLink(key, node, snap) => node in m.heap && m.heap[node].key == key
    case PushFetch(key, node, snap) => node in m.heap && m.heap[node] == Node(key, snap.node)
    case PushCas(key, node, snap, _) => node in m.heap && m.heap[node] == Node(key, snap.node)
    case PopFetch(snap, next) => seen == version && m.Live(snap.node) ==> m.heap[snap.node.addr].next == next
    case PopCas(snap, next, _) => seen == version && m.Live(snap.node) ==> m.heap[snap.node.addr].next == next
    case _ => true
  }

  /** Where a call stands relative to the point at which it took effect. */
  predicate EffectOk(heap: map<nat, Node>, th: Thread, lin: Option<Op>) {
    match th
    case PushReturn(key) => lin == Some(Push(key))
    case PopKey(won) => won in heap && lin == Some(Pop(heap[won].key))
    case PopDelete(_, value) => lin == Some(Pop(value))
    case PopReturn(value) => lin == Some(Pop(value)) || (lin == Some(PopEmpty) && value == 0)
    case _ => lin == None
  }

  predicate ThreadOk(s: State, t: nat)
    requires s.Sized() && t < |s.m.threads|
  {
    var th := s.m.threads[t];
    && SnapshotOk(s.m, s.h.version, th, s.h.seen[t])
    && LocalOk(s.m, s.h.version, th, s.h.seen[t])
    && EffectOk(s.m.heap, th, s.h.lin[t])
  }

  function Keys(heap: map<nat, Node>, chain: seq<nat>): (keys: seq<int>)
    requires forall i :: 0 <= i < |chain| ==> chain[i] in heap
    ensures |keys| == |chain|
  {
    seq(|chain|, i requires 0 <= i < |chain| => heap[chain[i]].key)
  }

  function Pending(lin: Option<Op>): seq<Op> {
    if lin.Some? then [lin.value] else []
  }

  predicate CallOk(h: History, t: nat)
    requires t < |h.lin| && t < |h.returned|
  {
    Project(h.log, t) == h.returned[t] + Pending(h.lin[t])
  }

  ghost predicate Inv(s: State) {
    && s.Sized()
    && !s.m.fault
    && ChainOk(s.m.top.node, s.m.heap, s.h.chain)
    && OwnershipOk(Loose(s.m.heap, s.h.chain), s.m.threads)
    && Issued(s.m.top, s.m.tagCounter)
    && (forall t :: 0 <= t < |s.m.threads| ==> ThreadOk(s, t))
    && Replay(s.h.log) == Some(Keys(s.m.heap, s.h.chain))
    && (forall t :: 0 <= t < |s.m.threads| ==> CallOk(s.h, t))
  }

  lemma InitInv(threadCount: nat)
    ensures Inv(Init(threadCount))
  {
  }

  // ---------------------------------------------------------------------------
  // Lists and owners under each kind of heap change

  lemma ChainFrame(top: Pointer, heap: map<nat, Node>, heap': map<nat, Node>, chain: seq<nat>)
    requires ChainOk(top, heap, chain)
    requires forall addr :: addr in chain ==> addr in heap' && heap'[addr] == heap[addr]
    ensures ChainOk(top, heap', chain)
    ensures Keys(heap', chain) == Keys(heap, chain)
  {
  }

  lemma ChainPush(top: Pointer, heap: map<nat, Node>, chain: seq<nat>, node: nat)
    requires ChainOk(top, heap, chain)
    requires node in heap && node !in chain && heap[node].next == top
    ensures ChainOk(Ref(node), heap, [node] + chain)
    ensures Keys(heap, [node] + chain) == [heap[node].key] + Keys(heap, chain)
  {
    var longer := [node] + chain;
    forall i | 0 <= i < |longer|
      ensures longer[i] in heap && heap[longer[i]].next == PointerAt(longer, i + 1)
    {
      if i > 0 { assert longer[i] == chain[i - 1]; }
    }
  }

  lemma ChainPop(top: Pointer, heap: map<nat, Node>, chain: seq<nat>)
    requires ChainOk(top, heap, chain) && top.Ref?
    ensures chain != [] && chain[0] == top.addr && top.addr in heap && chain[0] !in chain[1..]
    ensures ChainOk(heap[top.addr].next, heap, chain[1..])
    ensures Keys(heap, chain) == [heap[top.addr].key] + Keys(heap, chain[1..])
  {
    var rest := chain[1..];
    forall i | 0 <= i < |rest|
      ensures rest[i] in heap && heap[rest[i]].next == PointerAt(rest, i + 1)
    {
      assert rest[i] == chain[i + 1];
    }
  }

  function HeldSet(th: Thread): set<nat> {
    if Held(th).Some? then {Held(th).value} else {}
  }

  /** The acting thread keeps, gains or gives up one node; the others keep theirs. */
  lemma OwnershipStep(loose: set<nat>, threads: seq<Thread>, t: nat, th: Thread)
    requires OwnershipOk(loose, threads) && t < |threads|
    requires HeldSet(th) == HeldSet(threads[t]) || HeldSet(th) !! loose
    ensures OwnershipOk(loose - HeldSet(threads[t]) + HeldSet(th), threads[t := th])
  {
    var threads' := threads[t := th];
    var loose' := loose - HeldSet(threads[t]) + HeldSet(th);
    assert forall u, addr :: u != t ==> Holds(threads', u, addr) == Holds(threads, u, addr);
    forall addr | addr in loose'
      ensures exists u :: Holds(threads', u, addr)
    {
      if Held(th) == Some(addr) {
        assert Holds(threads', t, addr);
      } else {
        var u :| Holds(threads, u, addr);
        assert Holds(threads', u, addr);
      }
    }
    forall u: nat, addr: nat | Holds(threads', u, addr)
      ensures addr in loose'
      ensures u != t ==> !Holds(threads', t, addr)
    {
      if u != t {
        assert Holds(threads, u, addr);
        assert Held(threads[t]) == Some(addr) ==> Holds(threads, t, addr);
      }
    }
  }

  // ---------------------------------------------------------------------------
  // One step

  /** A compare-and-swap that succeeds does so on an unchanged top. */
  lemma CasOnCurrentTop(s: State, a: Action)
    requires Inv(s) && Enabled(s.m, a) && a.CasSucceed?
    ensures s.h.seen[a.t] == s.h.version
    ensures Rank(s.m.top) < Rank(s.m.threads[a.t].Installs())
    ensures s.m.threads[a.t].PopCas? ==>
      && s.m.top.node.Ref? && s.m.Live(s.m.top.node)
      && s.m.threads[a.t].next == s.m.heap[s.m.top.node.addr].next
    ensures s.m.threads[a.t].PushCas? ==>
      && s.m.threads[a.t].node in s.m.heap
      && s.m.heap[s.m.threads[a.t].node] == Node(s.m.threads[a.t].key, s.m.top.node)
  {
    assert ThreadOk(s, a.t);
    if s.m.threads[a.t].PopCas? {
      ChainPop(s.m.top.node, s.m.heap, s.h.chain);
    }
  }

  lemma NextChain(s: State, a: Action)
    requires Inv(s) && Enabled(s.m, a)
    ensures ChainOk(Next(s, a).m.top.node, Next(s, a).m.heap, Next(s, a).h.chain)
    ensures !a.CasSucceed? ==> Keys(Next(s, a).m.heap, Next(s, a).h.chain) == Keys(s.m.heap, s.h.chain)
  {
    var th := s.m.threads[a.t];
    if a.CasSucceed? {
      CasOnCurrentTop(s, a);
      if th.PushCas? {
        assert Holds(s.m.threads, a.t, th.node);
        ChainPush(s.m.top.node, s.m.heap, s.h.chain, th.node);
      } else {
        ChainPop(s.m.top.node, s.m.heap, s.h.chain);
      }
    } else {
      if a.Link? { assert Holds(s.m.threads, a.t, th.node); }
      if a.Delete? { assert Holds(s.m.threads, a.t, th.won); }
      ChainFrame(s.m.top.node, s.m.heap, Next(s, a).m.heap, s.h.chain);
    }
  }

  lemma LooseAfterHeapChange(heap: map<nat, Node>, chain: seq<nat>, addr: nat, node: Node)
    requires forall i :: 0 <= i < |chain| ==> chain[i] in heap
    ensures Loose(heap[addr := node], chain) == if addr in heap then Loose(heap, chain) else Loose(heap, chain) + {addr}
    ensures Loose(heap - {addr}, chain) == Loose(heap, chain) - {addr}
  {
  }

  lemma LooseAfterChainChange(heap: map<nat, Node>, chain: seq<nat>, addr: nat)
    ensures Loose(heap, [addr] + chain) == Loose(heap, chain) - {addr}
    ensures chain != [] && chain[0] in heap && chain[0] !in chain[1..] ==>
      Loose(heap, chain[1..]) == Loose(heap, chain) + {chain[0]}
  {
    assert chain != [] ==> chain == [chain[0]] + chain[1..];
  }

  /** One thread going from `th` to `th'` accounts for the change in loose nodes. */
  predicate Transfer(loose: set<nat>, th: Thread, loose': set<nat>, th': Thread) {
    && (HeldSet(th') == HeldSet(th) || HeldSet(th') !! loose)
    && loose' == loose - HeldSet(th) + HeldSet(th')
  }

  lemma NextLoose(s: State, a: Action)
    requires Inv(s) && Enabled(s.m, a)
    ensures Transfer(Loose(s.m.heap, s.h.chain), s.m.threads[a.t],
                     Loose(Next(s, a).m.heap, Next(s, a).h.chain), Next(s, a).m.threads[a.t])
  {
    match a
    case CasSucceed(t) => CasLoose(s, t);
    case CallPush(t, key, addr) => LooseAfterHeapChange(s.m.heap, s.h.chain, addr, Node(key, Null));
    case Delete(t) => DeleteLoose(s, t);
    case Link(t) => LinkLoose(s, t);
    case _ => QuietLoose(s, a);
  }

  lemma DeleteLoose(s: State, t: nat)
    requires Inv(s) && Enabled(s.m, Delete(t))
    ensures Transfer(Loose(s.m.heap, s.h.chain), s.m.threads[t],
                     Loose(Next(s, Delete(t)).m.heap, s.h.chain), Next(s, Delete(t)).m.threads[t])
  {
    var won := s.m.threads[t].won;
    assert Holds(s.m.threads, t, won);
    LooseAfterHeapChange(s.m.heap, s.h.chain, won, s.m.heap[won]);
  }

  lemma LinkLoose(s: State, t: nat)
    requires Inv(s) && Enabled(s.m, Link(t))
    ensures Transfer(Loose(s.m.heap, s.h.chain), s.m.threads[t],
                     Loose(Next(s, Link(t)).m.heap, s.h.chain), Next(s, Link(t)).m.threads[t])
  {
    var th := s.m.threads[t];
    assert Holds(s.m.threads, t, th.node);
    LooseAfterHeapChange(s.m.heap, s.h.chain, th.node, s.m.heap[th.node].(next := th.snap.node));
  }

  lemma QuietLoose(s: State, a: Action)
    requires Inv(s) && Enabled(s.m, a)
    requires !a.CasSucceed? && !a.CallPush? && !a.Delete? && !a.Link?
    ensures Transfer(Loose(s.m.heap, s.h.chain), s.m.threads[a.t],
                     Loose(Next(s, a).m.heap, Next(s, a).h.chain), Next(s, a).m.threads[a.t])
  {
    var th := s.m.threads[a.t];
    assert Next(s, a).m.heap == s.m.heap && Next(s, a).h.chain == s.h.chain;
    assert Held(th) == Held(Next(s, a).m.threads[a.t]);
    assert Held(th).Some? ==> Holds(s.m.threads, a.t, Held(th).value);
  }

  lemma CasLoose(s: State, t: nat)
    requires Inv(s) && Enabled(s.m, CasSucceed(t))
    ensures Transfer(Loose(s.m.heap, s.h.chain), s.m.threads[t],
                     Loose(s.m.heap, Next(s, CasSucceed(t)).h.chain), Next(s, CasSucceed(t)).m.threads[t])
  {
    var th := s.m.threads[t];
    CasOnCurrentTop(s, CasSucceed(t));
    if th.PushCas? {
      LooseAfterChainChange(s.m.heap, s.h.chain, th.node);
    } else {
      ChainPop(s.m.top.node, s.m.heap, s.h.chain);
      LooseAfterChainChange(s.m.heap, s.h.chain, 0);
    }
  }

  lemma NextOwnership(s: State, a: Action)
    requires Inv(s) && Enabled(s.m, a)
    ensures OwnershipOk(Loose(Next(s, a).m.heap, Next(s, a).h.chain), Next(s, a).m.threads)
  {
    NextLoose(s, a);
    OwnershipStep(Loose(s.m.heap, s.h.chain), s.m.threads, a.t, Next(s, a).m.threads[a.t]);
    assert Next(s, a).m.threads == s.m.threads[a.t := Next(s, a).m.threads[a.t]];
  }

  /** No step writes to, deletes or reads a key from a node that is not live. */
  lemma NextNoFault(s: State, a: Action)
    requires Inv(s) && Enabled(s.m, a)
    ensures !Next(s, a).m.fault
  {
    var th := s.m.threads[a.t];
    assert ThreadOk(s, a.t);
    if Held(th).Some? { assert Holds(s.m.threads, a.t, Held(th).value); }
  }

  lemma SnapshotActingThread(s: State, a: Action)
    requires s.Sized() && Enabled(s.m, a) && ThreadOk(s, a.t) && (a.Load? || a.CasFail?)
    requires Issued(s.m.top, s.m.tagCounter)
    ensures ThreadOk(Next(s, a), a.t)
  {
  }

  lemma NextActingThread(s: State, a: Action)
    requires s.Sized() && Enabled(s.m, a) && ThreadOk(s, a.t) && !a.CasSucceed?
    requires Issued(s.m.top, s.m.tagCounter)
    ensures ThreadOk(Next(s, a), a.t)
  {
    if a.Load? || a.CasFail? { SnapshotActingThread(s, a); }
  }

  lemma CasActingThread(s: State, t: nat)
    requires Inv(s) && Enabled(s.m, CasSucceed(t))
    ensures ThreadOk(Next(s, CasSucceed(t)), t)
  {
    assert ThreadOk(s, t);
    CasOnCurrentTop(s, CasSucceed(t));
    if s.m.threads[t].PopCas? { ChainPop(s.m.top.node, s.m.heap, s.h.chain); }
  }

  lemma NextOtherSnapshot(s: State, a: Action, u: nat)
    requires s.Sized() && Enabled(s.m, a) && u < |s.m.threads| && u != a.t && ThreadOk(s, u)
    requires a.CasSucceed? ==> Rank(s.m.top) < Rank(s.m.threads[a.t].Installs())
    ensures SnapshotOk(Next(s, a).m, Next(s, a).h.version, s.m.threads[u], s.h.seen[u])
  {
  }

  lemma NextOtherLocal(s: State, a: Action, u: nat)
    requires s.Sized() && Enabled(s.m, a) && u < |s.m.threads| && u != a.t && ThreadOk(s, u)
    requires HeldSet(s.m.threads[u]) !! HeldSet(s.m.threads[a.t])
    requires s.m.top.node.Ref? ==> s.m.top.node.addr in s.m.heap && s.m.top.node.addr !in HeldSet(s.m.threads[a.t])
    ensures LocalOk(Next(s, a).m, Next(s, a).h.version, s.m.threads[u], s.h.seen[u])
    ensures EffectOk(Next(s, a).m.heap, s.m.threads[u], s.h.lin[u])
  {
  }

  lemma HeldApart(s: State, t: nat, u: nat)
    requires Inv(s) && t < |s.m.threads| && u < |s.m.threads| && u != t
    ensures HeldSet(s.m.threads[u]) !! HeldSet(s.m.threads[t])
    ensures s.m.top.node.Ref? ==> s.m.top.node.addr in s.m.heap && s.m.top.node.addr !in HeldSet(s.m.threads[t])
  {
    assert Held(s.m.threads[u]).Some? ==> Holds(s.m.threads, u, Held(s.m.threads[u]).value);
    assert Held(s.m.threads[t]).Some? ==> Holds(s.m.threads, t, Held(s.m.threads[t]).value);
    if s.h.chain != [] { assert s.h.chain[0] in s.h.chain; }
  }

  lemma NextOtherThread(s: State, a: Action, u: nat)
    requires Inv(s) && Enabled(s.m, a) && u < |s.m.threads| && u != a.t
    ensures ThreadOk(Next(s, a), u)
  {
    assert ThreadOk(s, u);
    HeldApart(s, a.t, u);
    if a.CasSucceed? { CasOnCurrentTop(s, a); }
    NextOtherSnapshot(s, a, u);
    NextOtherLocal(s, a, u);
    assert Next(s, a).m.threads[u] == s.m.threads[u];
    assert Next(s, a).h.seen[u] == s.h.seen[u] && Next(s, a).h.lin[u] == s.h.lin[u];
  }

  lemma LogGrows(log: seq<Event>, e: Event)
    ensures Replay(log + [e]) == if Replay(log).None? then None else Apply(Replay(log).value, e.op)
    ensures forall t :: Project(log + [e], t) == Project(log, t) + if e.t == t then [e.op] else []
  {
    assert (log + [e])[..|log|] == log;
  }

  /** The log stays a legal run of a sequential stack that ends in the chain's keys. */
  lemma NextReplay(s: State, a: Action)
    requires Inv(s) && Enabled(s.m, a)
    requires ChainOk(Next(s, a).m.top.node, Next(s, a).m.heap, Next(s, a).h.chain)
    ensures Replay(Next(s, a).h.log) == Some(Keys(Next(s, a).m.heap, Next(s, a).h.chain))
  {
    var s' := Next(s, a);
    NextChain(s, a);
    hide OwnershipOk, ThreadOk, CallOk, ChainOk;
    if a.CasSucceed? {
      CasReplay(s, a.t);
    } else if s'.h.log != s.h.log {
      LogGrows(s.h.log, Event(a.t, PopEmpty));
    }
  }

  lemma CasReplay(s: State, t: nat)
    requires Inv(s) && Enabled(s.m, CasSucceed(t))
    requires ChainOk(Next(s, CasSucceed(t)).m.top.node, s.m.heap, Next(s, CasSucceed(t)).h.chain)
    ensures Replay(Next(s, CasSucceed(t)).h.log) == Some(Keys(s.m.heap, Next(s, CasSucceed(t)).h.chain))
  {
    var th := s.m.threads[t];
    CasOnCurrentTop(s, CasSucceed(t));
    if th.PushCas? {
      assert Holds(s.m.threads, t, th.node);
      ChainPush(s.m.top.node, s.m.heap, s.h.chain, th.node);
      LogGrows(s.h.log, Event(t, Push(th.key)));
    } else {
      ChainPop(s.m.top.node, s.m.heap, s.h.chain);
      LogGrows(s.h.log, Event(t, Pop(s.m.heap[s.h.chain[0]].key)));
    }
  }

  lemma TakeEffectCall(h: History, t: nat, op: Op, u: nat)
    requires u < |h.lin| && u < |h.returned| && t < |h.lin| && CallOk(h, u) && h.lin[t] == None
    ensures CallOk(h.TakeEffect(t, op), u)
  {
    LogGrows(h.log, Event(t, op));
    assert t == u ==> h.returned[u] + Pending(None) == h.returned[u];
  }

  /** Each call enters the log once, between its start and its return. */
  lemma NextCall(s: State, a: Action, u: nat)
    requires s.Sized() && Enabled(s.m, a) && u < |s.m.threads| && CallOk(s.h, u)
    requires EffectOk(s.m.heap, s.m.threads[a.t], s.h.lin[a.t])
    ensures CallOk(Next(s, a).h, u)
  {
    var h, h' := s.h, Next(s, a).h;
    if h'.log != h.log {
      var e := h'.log[|h.log|];
      TakeEffectCall(h, a.t, e.op, u);
      assert h'.log == h.log + [Event(a.t, e.op)] && h'.lin == h.TakeEffect(a.t, e.op).lin;
    } else if a.Return? && a.t == u {
      assert h'.returned[u] == h.returned[u] + Pending(h.lin[u]);
      assert h'.returned[u] + Pending(None) == h'.returned[u];
    }
  }

  lemma NextInv(s: State, a: Action)
    requires Inv(s) && Enabled(s.m, a)
    ensures Inv(Next(s, a))
  {
    NextChain(s, a);
    NextOwnership(s, a);
    NextNoFault(s, a);
    NextReplay(s, a);
    forall u | 0 <= u < |s.m.threads|
      ensures ThreadOk(Next(s, a), u) && CallOk(Next(s, a).h, u)
    {
      assert ThreadOk(s, a.t) && CallOk(s.h, u);
      NextCall(s, a, u);
      if u != a.t { NextOtherThread(s, a, u); }
      else if a.CasSucceed? { CasActingThread(s, u); }
      else { NextActingThread(s, a); }
    }
    assert ThreadOk(s, a.t);
  }

  /** The invariant holds after every run of any number of threads. */
  lemma {:induction false} RunInv(threadCount: nat, actions: seq<Action>)
    ensures Run(Init(threadCount), actions).Some? ==> Inv(Run(Init(threadCount), actions).value)
  {
    InitInv(threadCount);
    if actions != [] {
      RunInv(threadCount, actions[..|actions| - 1]);
      var before := Run(Init(threadCount), actions[..|actions| - 1]);
      if before.Some? && Enabled(before.value.m, actions[|actions| - 1]) {
        NextInv(before.value, actions[|actions| - 1]);
      }
    }
  }
}
