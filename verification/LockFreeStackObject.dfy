/** The lock-free stack as the object it is: `push` and `pop` with their retry loops,
    run by one thread while the others act in between as a schedule says. */
module LockFreeStackObject {
  import opened LockFreeStack
  import opened LockFreeStackInvariant
  import opened Wrappers

  /** Between two actions of thread t, others ran: t's own state is as it was, and the
      log has only grown. */
  predicate OthersActed(before: State, after: State, t: nat) {
    && before.Sized() && after.Sized() && |before.m.threads| == |after.m.threads| && t < |before.m.threads|
    && after.m.threads[t] == before.m.threads[t]
    && after.h.seen[t] == before.h.seen[t]
    && after.h.lin[t] == before.h.lin[t]
    && after.h.returned[t] == before.h.returned[t]
    && before.h.version <= after.h.version
    && before.h.log <= after.h.log
  }

  /** The same call of t is still going on. */
  predicate SameCall(before: State, after: State, t: nat) {
    && before.Sized() && after.Sized() && |before.m.threads| == |after.m.threads| && t < |before.m.threads|
    && after.h.returned[t] == before.h.returned[t]
    && before.h.log <= after.h.log
  }

  lemma FactsAbout(s: State, t: nat)
    requires Inv(s) && t < |s.m.threads|
    ensures s.Sized() && ThreadOk(s, t) && CallOk(s.h, t)
  {
    assert ThreadOk(s, t) && CallOk(s.h, t);
  }

  lemma CallFacts(s: State, t: nat)
    requires Inv(s) && t < |s.m.threads|
    ensures s.Sized() && CallOk(s.h, t) && EffectOk(s.m.heap, s.m.threads[t], s.h.lin[t])
  {
    FactsAbout(s, t);
  }

  lemma PopSnapshotNotNull(s: State, t: nat)
    requires Inv(s) && t < |s.m.threads| && s.m.threads[t].PopCas?
    ensures s.m.threads[t].snap.node.Ref?
  {
    FactsAbout(s, t);
  }

  lemma OtherStep(s: State, a: Action, t: nat)
    requires s.Sized() && Enabled(s.m, a) && a.t != t && t < |s.m.threads|
    ensures OthersActed(s, Next(s, a), t)
  {
  }

  /** How many entries at the head of a schedule are for threads other than t. */
  function Others(schedule: seq<Action>, t: nat): (n: nat)
    ensures n <= |schedule| && forall i :: 0 <= i < n ==> schedule[i].t != t
    ensures n < |schedule| ==> schedule[n].t == t
  {
    if schedule == [] || schedule[0].t == t then 0 else 1 + Others(schedule[1..], t)
  }

  /** What a turn of the other threads leaves of the schedule. */
  function Left(schedule: seq<Action>, t: nat): seq<Action> {
    var rest := schedule[Others(schedule, t)..];
    if rest != [] && rest[0] != CasFail(t) then rest[1..] else rest
  }

  /** The actions in order, leaving out those that are not possible when it is their turn. */
  function Played(s: State, actions: seq<Action>): (s': State)
    requires s.Sized()
    ensures s'.Sized() && |s'.m.threads| == |s.m.threads|
  {
    if actions == [] then s
    else
      var mid, a := Played(s, actions[..|actions| - 1]), actions[|actions| - 1];
      if Enabled(mid.m, a) then Next(mid, a) else mid
  }

  /** A state of the stack and what is left of the schedule. */
  datatype Point = Point(s: State, schedule: seq<Action>)

  /** The others have taken their turn. */
  function Waited(p: Point, t: nat): (p': Point)
    requires p.s.Sized()
    ensures p'.s.Sized() && |p'.s.m.threads| == |p.s.m.threads|
  {
    Point(Played(p.s, p.schedule[..Others(p.schedule, t)]), Left(p.schedule, t))
  }

  /** The thread has done its action. */
  function Did(p: Point, a: Action): (p': Point)
    requires p.s.Sized()
    ensures p'.s.Sized() && |p'.s.m.threads| == |p.s.m.threads|
  {
    if Enabled(p.s.m, a) then p.(s := Next(p.s, a)) else p
  }

  /** The others have taken a turn, then the thread has done its action. */
  function Turn(p: Point, a: Action): (p': Point)
    requires p.s.Sized()
    ensures p'.s.Sized() && |p'.s.m.threads| == |p.s.m.threads|
  {
    Did(Waited(p, a.t), a)
  }

  /** The compare-and-swap, which fails spuriously if the schedule says so. */
  function Swapped(p: Point, t: nat): (p': Point)
    requires p.s.Sized()
    ensures p'.s.Sized() && |p'.s.m.threads| == |p.s.m.threads|
  {
    if p.schedule != [] && p.schedule[0] == CasFail(t) then Did(p, CasFail(t)).(schedule := p.schedule[1..])
    else if Enabled(p.s.m, CasSucceed(t)) then Did(p, CasSucceed(t))
    else Did(p, CasFail(t))
  }

  /** n turns of the loop in `push`, the others taking a turn before each action. */
  function PushTurns(p: Point, t: nat, n: nat): (p': Point)
    requires p.s.Sized()
    ensures p'.s.Sized() && |p'.s.m.threads| == |p.s.m.threads|
  {
    if n == 0 then p
    else Swapped(Waited(Turn(Turn(PushTurns(p, t, n - 1), Link(t)), FetchTag(t)), t), t)
  }

  /** What thread t finds in `next`: `stray` if the node is not live. */
  function Found(m: Machine, t: nat, stray: Pointer): Pointer {
    if t < |m.threads| && m.threads[t].PopRead? && m.Live(m.threads[t].snap.node)
    then m.heap[m.threads[t].snap.node.addr].next else stray
  }

  function Tagged(p: Point, t: nat, stray: Pointer): (p': Point)
    requires p.s.Sized()
    ensures p'.s.Sized() && |p'.s.m.threads| == |p.s.m.threads|
  {
    var q := Waited(p, t);
    Turn(Did(q, ReadNext(t, Found(q.s.m, t, stray))), FetchTag(t))
  }

  /** n turns of the loop in `pop`. */
  function PopTurns(p: Point, t: nat, stray: nat -> Pointer, n: nat): (p': Point)
    requires p.s.Sized()
    ensures p'.s.Sized() && |p'.s.m.threads| == |p.s.m.threads|
  {
    if n == 0 then p
    else Swapped(Waited(Tagged(PopTurns(p, t, stray, n - 1), t, stray(n - 1)), t), t)
  }

  function WonKey(m: Machine, t: nat): int {
    if t < |m.threads| && m.threads[t].PopKey? && m.threads[t].won in m.heap then m.heap[m.threads[t].won].key else 0
  }

  /** The end of a pop that won a node. */
  function KeyTaken(p: Point, t: nat): (p': Point)
    requires p.s.Sized()
    ensures p'.s.Sized() && |p'.s.m.threads| == |p.s.m.threads|
  {
    var q := Waited(p, t);
    Turn(Did(q, ReadKey(t, WonKey(q.s.m, t))), Delete(t))
  }

  /** The end of a pop. */
  function PopEnded(p: Point, t: nat): (p': Point)
    requires p.s.Sized()
    ensures p'.s.Sized() && |p'.s.m.threads| == |p.s.m.threads|
  {
    Did(if t < |p.s.m.threads| && p.s.m.threads[t].PopKey? then KeyTaken(p, t) else p, Return(t))
  }

  lemma NoPushTurns(p: Point, t: nat)
    requires p.s.Sized()
    ensures PushTurns(p, t, 0) == p
  {
  }

  lemma NoPopTurns(p: Point, t: nat, stray: nat -> Pointer)
    requires p.s.Sized()
    ensures PopTurns(p, t, stray, 0) == p
  {
  }

  lemma MorePushTurns(p: Point, t: nat, n: nat)
    requires p.s.Sized()
    ensures PushTurns(p, t, n + 1) == PushTurns(PushTurns(p, t, n), t, 1)
  {
    assert PushTurns(PushTurns(p, t, n), t, 0) == PushTurns(p, t, n);
  }

  lemma MorePopTurns(p: Point, t: nat, stray: nat -> Pointer, n: nat)
    requires p.s.Sized()
    ensures PopTurns(p, t, stray, n + 1) == Swapped(Waited(Tagged(PopTurns(p, t, stray, n), t, stray(n)), t), t)
  {
  }

  lemma PlayOne(s: State, schedule: seq<Action>, k: nat)
    requires s.Sized() && k < |schedule|
    ensures
      var mid, a := Played(s, schedule[..k]), schedule[k];
      Played(s, schedule[..k + 1]) == if Enabled(mid.m, a) then Next(mid, a) else mid
  {
    assert schedule[..k + 1][..k] == schedule[..k];
  }

  lemma {:induction false} PlayedRun(s: State, actions: seq<Action>)
    requires s.Sized() && Run(s, actions).Some?
    ensures Played(s, actions) == Run(s, actions).value
  {
    if actions != [] { PlayedRun(s, actions[..|actions| - 1]); }
  }

  lemma {:induction false} OthersThen(others: seq<Action>, t: nat, rest: seq<Action>)
    requires (forall i :: 0 <= i < |others| ==> others[i].t != t) && (rest != [] ==> rest[0].t == t)
    ensures Others(others + rest, t) == |others|
  {
    if others == [] {
      assert others + rest == rest;
    } else {
      assert (others + rest)[1..] == others[1..] + rest;
      OthersThen(others[1..], t, rest);
    }
  }

  /** Schedules lose no interleaving: any run of the other threads fits between two actions of t,
      followed by whatever is scheduled after it. */
  lemma AnyTurnPossible(s: State, t: nat, others: seq<Action>, rest: seq<Action>) returns (schedule: seq<Action>)
    requires s.Sized() && Run(s, others).Some? && forall i :: 0 <= i < |others| ==> others[i].t != t
    ensures Played(s, schedule[..Others(schedule, t)]) == Run(s, others).value
    ensures Left(schedule, t) == rest
  {
    var tail := [Load(t)] + rest;
    schedule := others + tail;
    OthersThen(others, t, tail);
    PlayedRun(s, others);
    assert schedule[..|others|] == others && schedule[|others|..] == tail;
  }

  predicate NotOf(others: seq<Action>, t: nat) {
    forall i :: 0 <= i < |others| ==> others[i].t != t
  }

  /** What the compare-and-swap does when no spurious failure is due. */
  function Swap(s: State, t: nat): (s': State)
    requires s.Sized() && t < |s.m.threads| && (s.m.threads[t].PushCas? || s.m.threads[t].PopCas?)
    ensures s'.Sized() && |s'.m.threads| == |s.m.threads|
  {
    if s.m.top == s.m.threads[t].snap then Next(s, CasSucceed(t)) else Next(s, CasFail(t))
  }

  /** One turn of the loop in `push`, raced by any runs of the others before each of its actions, is
      what `TryPush` does under some schedule without spurious failures. */
  lemma AnyPushRacePossible(s: State, t: nat, first: seq<Action>, atLink: State, second: seq<Action>, atFetch: State,
                            third: seq<Action>, atSwap: State)
    returns (schedule: seq<Action>)
    requires s.Sized() && atLink.Sized() && atFetch.Sized() && atSwap.Sized()
    requires NotOf(first, t) && NotOf(second, t) && NotOf(third, t)
    requires Run(s, first) == Some(atLink) && Enabled(atLink.m, Link(t))
    requires Run(Next(atLink, Link(t)), second) == Some(atFetch) && Enabled(atFetch.m, FetchTag(t))
    requires Run(Next(atFetch, FetchTag(t)), third) == Some(atSwap)
    requires t < |atSwap.m.threads| && atSwap.m.threads[t].PushCas?
    ensures PushTurns(Point(s, schedule), t, 1) == Point(Swap(atSwap, t), [])
  {
    hide Others, Left, Played, Run, Next;
    var late := AnyTurnPossible(Next(atFetch, FetchTag(t)), t, third, []);
    var later := AnyTurnPossible(Next(atLink, Link(t)), t, second, late);
    schedule := AnyTurnPossible(s, t, first, later);
    NoPushTurns(Point(s, schedule), t);
  }

  /** The same for `pop`, whose read may find anything in a node that is not live. */
  lemma AnyPopRacePossible(s: State, t: nat, stray: nat -> Pointer, first: seq<Action>, atRead: State,
                           second: seq<Action>, atFetch: State, third: seq<Action>, atSwap: State)
    returns (schedule: seq<Action>)
    requires s.Sized() && atRead.Sized() && atFetch.Sized() && atSwap.Sized()
    requires NotOf(first, t) && NotOf(second, t) && NotOf(third, t)
    requires Run(s, first) == Some(atRead) && Enabled(atRead.m, ReadNext(t, Found(atRead.m, t, stray(0))))
    requires Run(Next(atRead, ReadNext(t, Found(atRead.m, t, stray(0)))), second) == Some(atFetch)
    requires Enabled(atFetch.m, FetchTag(t)) && Run(Next(atFetch, FetchTag(t)), third) == Some(atSwap)
    requires t < |atSwap.m.threads| && atSwap.m.threads[t].PopCas?
    ensures PopTurns(Point(s, schedule), t, stray, 1) == Point(Swap(atSwap, t), [])
  {
    hide Others, Left, Played, Run, Next;
    var late := AnyTurnPossible(Next(atFetch, FetchTag(t)), t, third, []);
    var later := AnyTurnPossible(Next(atRead, ReadNext(t, Found(atRead.m, t, stray(0)))), t, second, late);
    schedule := AnyTurnPossible(s, t, first, later);
    NoPopTurns(Point(s, schedule), t, stray);
  }

  class Stack {
    var top: TaggedPointer
    var tagCounter: nat
    var heap: map<nat, Node>
    var threads: seq<Thread>
    var fault: bool
    /** What the other threads are going to do between the actions of the thread t that runs the
        code, turn by turn, and the spurious failures to come: `CasFail(t)` at the head makes the
        next compare-and-swap of t fail. */
    var schedule: seq<Action>
    ghost var history: History

    function Shared(): Machine
      reads this
    {
      Machine(top, tagCounter, heap, threads, fault)
    }

    ghost function View(): State
      reads this
    {
      State(Shared(), history)
    }

    ghost function Here(): Point
      reads this
    {
      Point(View(), schedule)
    }

    constructor (threadCount: nat, schedule: seq<Action>)
      ensures View() == Init(threadCount) && this.schedule == schedule
    {
      top, tagCounter, heap := NULL_TOP, 0, map[];
      threads, fault := seq(threadCount, _ => Idle), false;
      this.schedule := schedule;
      history := Init(threadCount).h;
    }

    /** One atomic action, in place. */
    method Act(a: Action)
      requires View().Sized() && Enabled(Shared(), a)
      modifies this
      ensures View() == Next(old(View()), a) && schedule == old(schedule)
    {
      history := NextHistory(View(), a);
      var th := threads[a.t];
      match a {
        case CallPush(t, key, addr) =>
          heap := heap[addr := Node(key, Null)];
          threads := threads[t := PushLoad(key, addr)];
        case CallPop(t) =>
          threads := threads[t := PopLoad];
        case Load(t) =>
          threads := threads[t := th.WithSnapshot(top)];
        case Link(t) =>
          if th.node in heap {
            heap := heap[th.node := heap[th.node].(next := th.snap.node)];
          } else {
            fault := true;
          }
          threads := threads[t := PushFetch(th.key, th.node, th.snap)];
        case ReadNext(t, next) =>
          fault := fault || th.snap.node.Null?;
          threads := threads[t := PopFetch(th.snap, next)];
        case FetchTag(t) =>
          threads := threads[t := if th.PushFetch? then PushCas(th.key, th.node, th.snap, tagCounter)
                                  else PopCas(th.snap, th.next, tagCounter)];
          tagCounter := tagCounter + 1;
        case CasSucceed(t) =>
          top := th.Installs();
          if th.PushCas? {
            threads := threads[t := PushReturn(th.key)];
          } else if th.snap.node.Ref? {
            threads := threads[t := PopKey(th.snap.node.addr)];
          } else {
            fault := true;
            threads := threads[t := PopReturn(0)];
          }
        case CasFail(t) =>
          threads := threads[t := th.WithSnapshot(top)];
        case ReadKey(t, value) =>
          fault := fault || th.won !in heap;
          threads := threads[t := PopDelete(th.won, value)];
        case Delete(t) =>
          fault := fault || th.won !in heap;
          heap := heap - {th.won};
          threads := threads[t := PopReturn(th.value)];
        case Return(t) =>
          threads := threads[t := Idle];
      }
    }

    /** The other threads take their turn: the entries of the schedule up to the next one of t.
        `CasFail(t)` stays for the compare-and-swap; any other entry of t only ends the turn. */
    method Interfere(t: nat)
      requires Inv(View()) && t < |threads|
      modifies this
      ensures Inv(View()) && OthersActed(old(View()), View(), t) && SameCall(old(View()), View(), t)
      ensures old(View()).Sized() && Here() == Waited(old(Here()), t)
      ensures |schedule| <= |old(schedule)|
      ensures history.version != old(history.version) ==> |schedule| < |old(schedule)|
    {
      hide Inv;
      FactsAbout(View(), t);
      ghost var k := 0;
      while schedule != [] && schedule[0].t != t
        invariant Inv(View()) && OthersActed(old(View()), View(), t)
        invariant k <= Others(old(schedule), t) && schedule == old(schedule)[k..]
        invariant View() == Played(old(View()), old(schedule)[..k])
        invariant history.version != old(history.version) ==> 0 < k
        decreases |schedule|
      {
        var a := schedule[0];
        schedule := schedule[1..];
        PlayOne(old(View()), old(schedule), k);
        if Enabled(Shared(), a) {
          NextInv(View(), a);
          OtherStep(View(), a, t);
          Act(a);
        }
        k := k + 1;
      }
      if schedule != [] && schedule[0] != CasFail(t) {
        schedule := schedule[1..];
      }
    }

    /** One action of the thread running the code. */
    method Own(a: Action)
      requires Inv(View()) && View().Sized() && Enabled(Shared(), a)
      modifies this
      ensures Inv(View()) && View() == Next(old(View()), a) && schedule == old(schedule)
      ensures Here() == Did(old(Here()), a)
      ensures !a.Return? ==> SameCall(old(View()), View(), a.t)
    {
      hide Inv;
      NextInv(View(), a);
      Act(a);
    }

    /** The weak compare-and-swap of lines 54 and 70.  On an up-to-date snapshot it fails
        only spuriously. */
    method CompareAndSwap(t: nat) returns (ok: bool)
      requires Inv(View()) && View().Sized() && t < |threads| && (threads[t].PushCas? || threads[t].PopCas?)
      modifies this
      ensures Inv(View()) && SameCall(old(View()), View(), t)
      ensures ok == (old(top) == old(threads[t]).snap && !(old(schedule) != [] && old(schedule)[0] == CasFail(t)))
      ensures ok ==> Enabled(old(Shared()), CasSucceed(t)) && View() == Next(old(View()), CasSucceed(t))
      ensures !ok ==> View() == Next(old(View()), CasFail(t))
      ensures Here() == Swapped(old(Here()), t)
      ensures |schedule| <= |old(schedule)|
      ensures !ok && old(history.seen[t]) == old(history.version) ==> |schedule| < |old(schedule)|
    {
      hide Inv;
      FactsAbout(View(), t);
      var spurious := schedule != [] && schedule[0] == CasFail(t);
      ok := top == threads[t].snap && !spurious;
      if ok {
        Own(CasSucceed(t));
      } else {
        if spurious { schedule := schedule[1..]; }
        Own(CasFail(t));
      }
    }

    /** One turn of the loop in `push`, lines 49-54.  Without success the schedule is shorter:
        an action of another thread or a spurious failure has been used up. */
    method TryPush(t: nat) returns (linked: bool)
      requires Inv(View()) && View().Sized() && t < |threads| && threads[t].PushLink?
      requires history.seen[t] == history.version
      modifies this
      ensures Here() == PushTurns(old(Here()), t, 1)
      ensures Inv(View()) && SameCall(old(View()), View(), t)
      ensures linked ==> threads[t] == PushReturn(old(threads[t].key))
      ensures !linked ==>
        && threads[t].PushLink? && threads[t].key == old(threads[t].key)
        && history.seen[t] == history.version && |schedule| < |old(schedule)|
    {
      hide Inv, Played, Others, Left, Waited, Did, Swapped;
      LinkAndTag(t);
      Interfere(t);
      linked := CompareAndSwap(t);
    }

    /** Lines 50 and 53. */
    method LinkAndTag(t: nat)
      requires Inv(View()) && View().Sized() && t < |threads| && threads[t].PushLink?
      modifies this
      ensures Here() == Turn(Turn(old(Here()), Link(t)), FetchTag(t))
      ensures Inv(View()) && SameCall(old(View()), View(), t)
      ensures threads[t].PushCas? && threads[t].key == old(threads[t].key)
      ensures history.seen[t] == old(history.seen[t]) && old(history.version) <= history.version
      ensures |schedule| <= |old(schedule)|
      ensures history.version != old(history.version) ==> |schedule| < |old(schedule)|
    {
      hide Inv, Played, Others, Left, Waited, Did, Swapped;
      Interfere(t);
      Own(Link(t));
      Interfere(t);
      Own(FetchTag(t));
    }

    /** The start of `push`, lines 43-47. */
    method BeginPush(t: nat, key: int, addr: nat)
      requires Inv(View()) && View().Sized() && t < |threads| && threads[t].Idle? && addr !in heap
      modifies this
      ensures Here() == Turn(Did(old(Here()), CallPush(t, key, addr)), Load(t))
      ensures Inv(View()) && SameCall(old(View()), View(), t)
      ensures threads[t].PushLink? && threads[t].key == key && history.seen[t] == history.version
    {
      hide Inv, Played, Others, Left, Waited, Did, Swapped;
      Own(CallPush(t, key, addr));
      Interfere(t);
      Own(Load(t));
    }

    /** `push` takes effect once, after it starts and before it returns, and it returns. */
    method Push(t: nat, key: int, addr: nat) returns (ghost turns: nat)
      requires Inv(View()) && t < |threads| && threads[t].Idle? && addr !in heap
      modifies this
      ensures
        old(View()).Sized() && Here() ==
          Did(PushTurns(Turn(Did(old(Here()), CallPush(t, key, addr)), Load(t)), t, turns), Return(t))
      ensures Inv(View()) && |threads| == |old(threads)| && threads[t].Idle?
      ensures |history.returned| == |old(history.returned)| == |threads|
      ensures history.returned[t] == old(history.returned[t]) + [Op.Push(key)]
      ensures Project(history.log, t) == old(Project(history.log, t)) + [Op.Push(key)]
      ensures old(history.log) <= history.log
    {
      hide Inv, Played, Others, Left, Waited, Did, Swapped, Turn, PushTurns;
      ghost var before := View();
      CallFacts(before, t);
      BeginPush(t, key, addr);
      ghost var begun := Here();
      turns := 0;
      NoPushTurns(begun, t);
      var linked := false;
      while !linked
        invariant Here() == PushTurns(begun, t, turns)
        invariant Inv(View()) && SameCall(before, View(), t)
        invariant linked ==> threads[t] == PushReturn(key)
        invariant !linked ==> threads[t].PushLink? && threads[t].key == key && history.seen[t] == history.version
        decreases !linked, |schedule|
      {
        MorePushTurns(begun, t, turns);
        linked := TryPush(t);
        turns := turns + 1;
      }
      CallFacts(View(), t);
      Own(Return(t));
      CallFacts(View(), t);
    }

    /** One turn of the loop in `pop`, lines 62-70; `stray` is what a read through a freed
        node returns. */
    method TryPop(t: nat, stray: Pointer) returns (left: bool)
      requires Inv(View()) && View().Sized() && t < |threads| && threads[t].PopRead?
      requires history.seen[t] == history.version
      modifies this
      ensures Here() == Swapped(Waited(Tagged(old(Here()), t, stray), t), t)
      ensures Inv(View()) && SameCall(old(View()), View(), t)
      ensures left ==> threads[t].PopKey? || threads[t] == PopReturn(0)
      ensures !left ==>
        threads[t].PopRead? && history.seen[t] == history.version && |schedule| < |old(schedule)|
    {
      hide Inv, Played, Others, Left, Waited, Did, Swapped;
      ReadAndTag(t, stray);
      Interfere(t);
      PopSnapshotNotNull(View(), t);
      left := CompareAndSwap(t);
      left := left || threads[t].PopReturn?;
    }

    /** Lines 68 and 69. */
    method ReadAndTag(t: nat, stray: Pointer)
      requires Inv(View()) && View().Sized() && t < |threads| && threads[t].PopRead?
      modifies this
      ensures Here() == Tagged(old(Here()), t, stray)
      ensures Inv(View()) && SameCall(old(View()), View(), t)
      ensures threads[t].PopCas? && history.seen[t] == old(history.seen[t]) && old(history.version) <= history.version
      ensures |schedule| <= |old(schedule)|
      ensures history.version != old(history.version) ==> |schedule| < |old(schedule)|
    {
      hide Inv, Played, Others, Left, Waited, Did, Swapped;
      Interfere(t);
      var node := threads[t].snap.node;
      Own(ReadNext(t, if Shared().Live(node) then heap[node.addr].next else stray));
      Interfere(t);
      Own(FetchTag(t));
    }

    /** The end of a `pop` that won a node, lines 72-74. */
    method TakeKey(t: nat)
      requires Inv(View()) && View().Sized() && t < |threads| && threads[t].PopKey?
      modifies this
      ensures Here() == KeyTaken(old(Here()), t)
      ensures Inv(View()) && SameCall(old(View()), View(), t) && threads[t].PopReturn?
    {
      hide Inv, Played, Others, Left, Waited, Did, Swapped;
      Interfere(t);
      CallFacts(View(), t);
      Own(ReadKey(t, heap[threads[t].won].key));
      Interfere(t);
      Own(Delete(t));
    }

    /** The start of `pop`, lines 57-66. */
    method BeginPop(t: nat) returns (left: bool)
      requires Inv(View()) && View().Sized() && t < |threads| && threads[t].Idle?
      modifies this
      ensures Here() == Turn(Did(old(Here()), CallPop(t)), Load(t))
      ensures Inv(View()) && SameCall(old(View()), View(), t)
      ensures left ==> threads[t] == PopReturn(0)
      ensures !left ==> threads[t].PopRead? && history.seen[t] == history.version
    {
      hide Inv, Played, Others, Left, Waited, Did, Swapped;
      Own(CallPop(t));
      Interfere(t);
      Own(Load(t));
      left := threads[t].PopReturn?;
    }

    /** `pop` takes effect once, and returns the key it took, or 0 from an empty stack. */
    method Pop(t: nat, stray: nat -> Pointer) returns (value: int, ghost turns: nat)
      requires Inv(View()) && t < |threads| && threads[t].Idle?
      modifies this
      ensures
        old(View()).Sized() && Here() ==
          PopEnded(PopTurns(Turn(Did(old(Here()), CallPop(t)), Load(t)), t, stray, turns), t)
      ensures Inv(View()) && |threads| == |old(threads)| && threads[t].Idle?
      ensures |history.returned| == |old(history.returned)| == |threads|
      ensures
        || history.returned[t] == old(history.returned[t]) + [Op.Pop(value)]
        || (history.returned[t] == old(history.returned[t]) + [PopEmpty] && value == 0)
      ensures Project(history.log, t) == old(Project(history.log, t)) + history.returned[t][|old(history.returned[t])|..]
      ensures old(history.log) <= history.log
    {
      hide Inv, Played, Others, Left, Waited, Did, Swapped, Turn, PopTurns, Tagged, KeyTaken;
      ghost var before := View();
      CallFacts(before, t);
      var left := BeginPop(t);
      ghost var begun := Here();
      var attempt := 0;
      NoPopTurns(begun, t, stray);
      while !left
        invariant Here() == PopTurns(begun, t, stray, attempt)
        invariant Inv(View()) && SameCall(before, View(), t)
        invariant left ==> threads[t].PopKey? || threads[t] == PopReturn(0)
        invariant !left ==> threads[t].PopRead? && history.seen[t] == history.version
        decreases !left, |schedule|
      {
        MorePopTurns(begun, t, stray, attempt);
        left := TryPop(t, stray(attempt));
        attempt := attempt + 1;
      }
      turns := attempt;
      if threads[t].PopKey? { TakeKey(t); }
      value := EndPop(t);
      CallFacts(View(), t);
    }

    method EndPop(t: nat) returns (value: int)
      requires Inv(View()) && View().Sized() && t < |threads| && threads[t].PopReturn?
      modifies this
      ensures Here() == Did(old(Here()), Return(t))
      ensures Inv(View()) && View().Sized() && |threads| == |old(threads)| && threads[t].Idle?
      ensures history.log == old(history.log) && value == old(threads[t].value)
      ensures
        || history.returned[t] == old(history.returned[t]) + [Op.Pop(value)]
        || (history.returned[t] == old(history.returned[t]) + [PopEmpty] && value == 0)
    {
      hide Inv, Played, Others, Left, Waited, Did, Swapped;
      value := threads[t].value;
      CallFacts(View(), t);
      Own(Return(t));
    }
  }
}
