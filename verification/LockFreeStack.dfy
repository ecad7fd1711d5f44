/** The Treiber stack as a machine that interleaves any number of threads.

    Every action is one access to shared memory by one thread, together with the
    local work up to the next access.  Freed addresses may be handed out again by
    `new`, a read of `next` through a freed node may return anything, and a weak
    compare-and-swap may fail although the values are equal.  Actions take effect
    one at a time; tags do not wrap around. */
module LockFreeStack {
  import opened Wrappers

  datatype Pointer = Null | Ref(addr: nat)

  datatype TaggedPointer = TaggedPointer(node: Pointer, tag: nat)

  datatype Node = Node(key: int, next: Pointer)

  /** Where a thread stands in `push` or `pop`, with its local variables. */
  datatype Thread =
    | Idle
    | PushLoad(key: int, node: nat)
    | PushLink(key: int, node: nat, snap: TaggedPointer)
    | PushFetch(key: int, node: nat, snap: TaggedPointer)
    | PushCas(key: int, node: nat, snap: TaggedPointer, tag: nat)
    | PushReturn(key: int)
    | PopLoad
    | PopRead(snap: TaggedPointer)
    | PopFetch(snap: TaggedPointer, next: Pointer)
    | PopCas(snap: TaggedPointer, next: Pointer, tag: nat)
    | PopKey(won: nat)
    | PopDelete(won: nat, value: int)
    | PopReturn(value: int)
  {
    predicate HasSnapshot() {
      PushLink? || PushFetch? || PushCas? || PopRead? || PopFetch? || PopCas?
    }

    /** The loop that a fresh snapshot of `top` leads into; `pop` leaves on null. */
    function WithSnapshot(top: TaggedPointer): Thread
      requires PushLoad? || PushCas? || PopLoad? || PopCas?
    {
      if PushLoad? || PushCas? then PushLink(key, node, top)
      else if top.node.Null? then PopReturn(0)
      else PopRead(top)
    }

    /** The value a successful compare-and-swap installs. */
    function Installs(): TaggedPointer
      requires PushCas? || PopCas?
    {
      if PushCas? then TaggedPointer(Ref(node), tag) else TaggedPointer(next, tag)
    }
  }

  /** `fault` is set by a write, delete or key read through a node that is not live. */
  datatype Machine = Machine(
    top: TaggedPointer, tagCounter: nat, heap: map<nat, Node>, threads: seq<Thread>, fault: bool)
  {
    predicate Live(p: Pointer) { p.Ref? && p.addr in heap }

    function Set(t: nat, th: Thread): Machine
      requires t < |threads|
    {
      this.(threads := threads[t := th])
    }
  }

  datatype Action =
    | CallPush(t: nat, key: int, addr: nat)
    | CallPop(t: nat)
    | Load(t: nat)
    | Link(t: nat)
    | ReadNext(t: nat, next: Pointer)
    | FetchTag(t: nat)
    | CasSucceed(t: nat)
    | CasFail(t: nat)
    | ReadKey(t: nat, value: int)
    | Delete(t: nat)
    | Return(t: nat)

  const NULL_TOP := TaggedPointer(Null, 0)

  function InitMachine(threadCount: nat): Machine {
    Machine(NULL_TOP, 0, map[], seq(threadCount, _ => Idle), false)
  }

  predicate Enabled(m: Machine, a: Action) {
    && a.t < |m.threads|
    && var th := m.threads[a.t];
       match a
       case CallPush(_, _, addr) => th.Idle? && addr !in m.heap
       case CallPop(_) => th.Idle?
       case Load(_) => th.PushLoad? || th.PopLoad?
       case Link(_) => th.PushLink?
       case ReadNext(_, next) => th.PopRead? && (m.Live(th.snap.node) ==> next == m.heap[th.snap.node.addr].next)
       case FetchTag(_) => th.PushFetch? || th.PopFetch?
       case CasSucceed(_) => (th.PushCas? || th.PopCas?) && m.top == th.snap
       case CasFail(_) => th.PushCas? || th.PopCas?
       case ReadKey(_, value) => th.PopKey? && (th.won in m.heap ==> value == m.heap[th.won].key)
       case Delete(_) => th.PopDelete?
       case Return(_) => th.PushReturn? || th.PopReturn?
  }

  function NextMachine(m: Machine, a: Action): Machine
    requires Enabled(m, a)
  {
    var th := m.threads[a.t];
    match a
    case CallPush(t, key, addr) =>
      m.(heap := m.heap[addr := Node(key, Null)]).Set(t, PushLoad(key, addr))
    case CallPop(t) => m.Set(t, PopLoad)
    case Load(t) => m.Set(t, th.WithSnapshot(m.top))
    case Link(t) =>
      var linked := m.Set(t, PushFetch(th.key, th.node, th.snap));
      if th.node in m.heap
      then linked.(heap := m.heap[th.node := m.heap[th.node].(next := th.snap.node)])
      else linked.(fault := true)
    case ReadNext(t, next) =>
      m.(fault := m.fault || th.snap.node.Null?).Set(t, PopFetch(th.snap, next))
    case FetchTag(t) =>
      m.(tagCounter := m.tagCounter + 1).Set(t,
        if th.PushFetch? then PushCas(th.key, th.node, th.snap, m.tagCounter)
        else PopCas(th.snap, th.next, m.tagCounter))
    case CasSucceed(t) =>
      m.(top := th.Installs(), fault := m.fault || (th.PopCas? && th.snap.node.Null?)).Set(t,
        if th.PushCas? then PushReturn(th.key)
        else if th.snap.node.Ref? then PopKey(th.snap.node.addr) else PopReturn(0))
    case CasFail(t) => m.Set(t, th.WithSnapshot(m.top))
    case ReadKey(t, value) =>
      m.(fault := m.fault || th.won !in m.heap).Set(t, PopDelete(th.won, value))
    case Delete(t) =>
      m.(heap := m.heap - {th.won}, fault := m.fault || th.won !in m.heap).Set(t, PopReturn(th.value))
    case Return(t) => m.Set(t, Idle)
  }

  // ---------------------------------------------------------------------------
  // History: what an observer of the machine records.  The machine never reads it.

  /** One operation of an ordinary sequential stack. */
  datatype Op = Push(key: int) | Pop(key: int) | PopEmpty

  datatype Event = Event(t: nat, op: Op)

  /** version: successful compare-and-swaps so far; seen[t]: `version` when thread t
      took its snapshot; chain: addresses from top to bottom; log: operations in the
      order they took effect; lin[t]: the operation of the current call of t that is
      already in the log; returned[t]: the operations t has returned from. */
  datatype History = History(
    version: nat, seen: seq<nat>, chain: seq<nat>, log: seq<Event>,
    lin: seq<Option<Op>>, returned: seq<seq<Op>>)
  {
    predicate Sized(n: nat) { |seen| == n && |lin| == n && |returned| == n }

    function TakeEffect(t: nat, op: Op): History
      requires t < |lin|
    {
      this.(log := log + [Event(t, op)], lin := lin[t := Some(op)])
    }

    /** Thread t reads `top`; a pop that reads null takes effect here. */
    function Snapshot(t: nat, isPop: bool, top: TaggedPointer): History
      requires t < |lin| && t < |seen|
    {
      if isPop && top.node.Null? then TakeEffect(t, PopEmpty) else this.(seen := seen[t := version])
    }
  }

  datatype State = State(m: Machine, h: History) {
    predicate Sized() { h.Sized(|m.threads|) }
  }

  function Init(threadCount: nat): State {
    State(InitMachine(threadCount),
          History(0, seq(threadCount, _ => 0), [], [], seq(threadCount, _ => None), seq(threadCount, _ => [])))
  }

  function NextHistory(s: State, a: Action): History
    requires s.Sized() && Enabled(s.m, a)
  {
    var th := s.m.threads[a.t];
    var h := s.h;
    match a
    case Load(t) => h.Snapshot(t, th.PopLoad?, s.m.top)
    case CasSucceed(t) =>
      var won := h.(version := h.version + 1);
      if th.PushCas? then won.(chain := [th.node] + h.chain).TakeEffect(t, Push(th.key))
      else if h.chain != [] && h.chain[0] in s.m.heap
      then won.(chain := h.chain[1..]).TakeEffect(t, Pop(s.m.heap[h.chain[0]].key))
      else won
    case CasFail(t) => h.Snapshot(t, th.PopCas?, s.m.top)
    case Return(t) =>
      if h.lin[t].Some?
      then h.(returned := h.returned[t := h.returned[t] + [h.lin[t].value]], lin := h.lin[t := None])
      else h
    case _ => h
  }

  function Next(s: State, a: Action): (s': State)
    requires s.Sized() && Enabled(s.m, a)
    ensures s'.Sized() && |s'.m.threads| == |s.m.threads|
  {
    State(NextMachine(s.m, a), NextHistory(s, a))
  }

  /** The state after a whole run, or None if some action was not possible. */
  function Run(s: State, actions: seq<Action>): (r: Option<State>)
    requires s.Sized()
    ensures r.Some? ==> r.value.Sized() && |r.value.m.threads| == |s.m.threads|
  {
    if actions == [] then Some(s)
    else match Run(s, actions[..|actions| - 1])
      case None => None
      case Some(mid) =>
        var a := actions[|actions| - 1];
        if Enabled(mid.m, a) then Some(Next(mid, a)) else None
  }

  /** The sequential stack, top first: what `op` does to it, or None if `op` could
      not have happened there. */
  function Apply(stack: seq<int>, op: Op): Option<seq<int>> {
    match op
    case Push(key) => Some([key] + stack)
    case Pop(key) => if stack != [] && stack[0] == key then Some(stack[1..]) else None
    case PopEmpty => if stack == [] then Some(stack) else None
  }

  function Replay(log: seq<Event>): Option<seq<int>> {
    if log == [] then Some([])
    else match Replay(log[..|log| - 1])
      case None => None
      case Some(stack) => Apply(stack, log[|log| - 1].op)
  }

  /** The operations of thread t in the log, in order. */
  function Project(log: seq<Event>, t: nat): seq<Op> {
    if log == [] then []
    else
      var e := log[|log| - 1];
      Project(log[..|log| - 1], t) + if e.t == t then [e.op] else []
  }
}
