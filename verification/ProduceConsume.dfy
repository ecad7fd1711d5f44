/** The test program of the lock-free stack: one producer pushes 1, 2, ..., N and each
    of the consumers pops until it has its share, taking 0 to mean "empty, try again".
    The claim it checks at the end, equal sums, is proved for every run, every number
    of consumers and every share. */
module ProduceConsume {
  import opened LockFreeStack
  import opened LockFreeStackInvariant
  import opened LockFreeStackTheorems
  import opened Totals
  import opened Wrappers

  datatype Producer = Producer(totalItems: nat, i: nat, localSum: int, finished: bool)

  datatype Consumer = Consumer(taken: nat, localSum: int, finished: bool)

  /** Thread 0 runs `produce`, thread c + 1 runs `consume` for consumers[c]. */
  datatype Program = Program(
    s: State, producer: Producer, consumers: seq<Consumer>, itemsPerConsumer: nat,
    producerSum: int, consumerSum: int)
  {
    predicate Sized() { s.Sized() && |s.m.threads| == |consumers| + 1 }

    predicate Finished() {
      producer.finished && forall c :: 0 <= c < |consumers| ==> consumers[c].finished
    }
  }

  function Start(consumerCount: nat, itemsPerConsumer: nat): Program {
    Program(Init(consumerCount + 1), Producer(consumerCount * itemsPerConsumer, 1, 0, false),
            seq(consumerCount, _ => Consumer(0, 0, false)), itemsPerConsumer, 0, 0)
  }

  datatype Step =
    | Inside(a: Action)
    | StartPush(addr: nat)
    | EndPush
    | PostProducerSum
    | StartPop(c: nat)
    | EndPop(c: nat)
    | PostConsumerSum(c: nat)

  predicate Possible(p: Program, step: Step) {
    && p.Sized()
    && match step
       case Inside(a) => !a.CallPush? && !a.CallPop? && !a.Return? && Enabled(p.s.m, a)
       case StartPush(addr) =>
         p.producer.i <= p.producer.totalItems && Enabled(p.s.m, CallPush(0, p.producer.i, addr))
       case EndPush => p.s.m.threads[0].PushReturn?
       case PostProducerSum =>
         p.s.m.threads[0].Idle? && p.producer.totalItems < p.producer.i && !p.producer.finished
       case StartPop(c) =>
         c < |p.consumers| && p.consumers[c].taken < p.itemsPerConsumer && Enabled(p.s.m, CallPop(c + 1))
       case EndPop(c) => c < |p.consumers| && p.s.m.threads[c + 1].PopReturn?
       case PostConsumerSum(c) =>
         && c < |p.consumers| && p.s.m.threads[c + 1].Idle?
         && p.consumers[c].taken == p.itemsPerConsumer && !p.consumers[c].finished
  }

  function Do(p: Program, step: Step): Program
    requires Possible(p, step)
  {
    match step
    case Inside(a) => p.(s := Next(p.s, a))
    case StartPush(addr) => p.(s := Next(p.s, CallPush(0, p.producer.i, addr)))
    case EndPush =>
      p.(s := Next(p.s, Return(0)),
         producer := p.producer.(localSum := p.producer.localSum + p.producer.i, i := p.producer.i + 1))
    case PostProducerSum =>
      p.(producerSum := p.producer.localSum, producer := p.producer.(finished := true))
    case StartPop(c) => p.(s := Next(p.s, CallPop(c + 1)))
    case EndPop(c) =>
      var val, me := p.s.m.threads[c + 1].value, p.consumers[c];
      p.(s := Next(p.s, Return(c + 1)),
         consumers := if val == 0 then p.consumers
                      else p.consumers[c := me.(localSum := me.localSum + val, taken := me.taken + 1)])
    case PostConsumerSum(c) =>
      p.(consumerSum := p.consumerSum + p.consumers[c].localSum,
         consumers := p.consumers[c := p.consumers[c].(finished := true)])
  }

  function Execute(p: Program, steps: seq<Step>): Option<Program> {
    if steps == [] then Some(p)
    else match Execute(p, steps[..|steps| - 1])
      case None => None
      case Some(mid) =>
        var step := steps[|steps| - 1];
        if Possible(mid, step) then Some(Do(mid, step)) else None
  }

  // ---------------------------------------------------------------------------
  // What the log of the stack says about keys

  function OnePushed(op: Op): multiset<int> { if op.Push? then multiset{op.key} else multiset{} }

  function OnePopped(op: Op): multiset<int> { if op.Pop? then multiset{op.key} else multiset{} }

  function Pushed(log: seq<Event>): multiset<int> {
    if log == [] then multiset{} else Pushed(log[..|log| - 1]) + OnePushed(log[|log| - 1].op)
  }

  function Popped(log: seq<Event>): multiset<int> {
    if log == [] then multiset{} else Popped(log[..|log| - 1]) + OnePopped(log[|log| - 1].op)
  }

  lemma ApplyConserves(stack: seq<int>, op: Op)
    requires Apply(stack, op).Some?
    ensures multiset(stack) + OnePushed(op) == multiset(Apply(stack, op).value) + OnePopped(op)
  {
    if op.Pop? { assert stack == [stack[0]] + stack[1..]; }
  }

  lemma Exchange(pushed: multiset<int>, popped: multiset<int>, stack: multiset<int>,
                 more: multiset<int>, gone: multiset<int>, stack': multiset<int>)
    requires pushed == popped + stack && stack + more == stack' + gone
    ensures pushed + more == popped + gone + stack'
  {
    forall key
      ensures (pushed + more)[key] == (popped + gone + stack')[key]
    {
      assert (stack + more)[key] == (stack' + gone)[key];
    }
  }

  /** In a legal log, keys pushed are keys popped plus keys still in the stack. */
  lemma {:induction false} LogConserves(log: seq<Event>)
    requires Replay(log).Some?
    ensures Pushed(log) == Popped(log) + multiset(Replay(log).value)
  {
    if log != [] {
      var before := log[..|log| - 1];
      LogConserves(before);
      var op := log[|log| - 1].op;
      ApplyConserves(Replay(before).value, op);
      Exchange(Pushed(before), Popped(before), multiset(Replay(before).value),
               OnePushed(op), OnePopped(op), multiset(Replay(log).value));
    }
  }

  /** The keys that the pops among these operations took. */
  function KeysTaken(ops: seq<Op>): multiset<int> {
    if ops == [] then multiset{} else KeysTaken(ops[..|ops| - 1]) + OnePopped(ops[|ops| - 1])
  }

  /** The keys that pops have returned, over all threads. */
  function Answered(returned: seq<seq<Op>>): multiset<int> {
    if returned == [] then multiset{}
    else Answered(returned[..|returned| - 1]) + KeysTaken(returned[|returned| - 1])
  }

  /** The keys that pops have taken and not yet returned. */
  function InHand(lin: seq<Option<Op>>): multiset<int> {
    if lin == [] then multiset{}
    else InHand(lin[..|lin| - 1]) + KeysTaken(Pending(lin[|lin| - 1]))
  }

  /** The keys the first n threads have taken according to the log. */
  function TakenBy(log: seq<Event>, n: nat): multiset<int> {
    if n == 0 then multiset{} else TakenBy(log, n - 1) + KeysTaken(Project(log, n - 1))
  }

  lemma {:induction false} KeysTakenAppend(ops: seq<Op>, more: seq<Op>)
    ensures KeysTaken(ops + more) == KeysTaken(ops) + KeysTaken(more)
  {
    if more == [] {
      assert ops + more == ops;
    } else {
      assert (ops + more)[..|ops + more| - 1] == ops + more[..|more| - 1];
      KeysTakenAppend(ops, more[..|more| - 1]);
    }
  }

  lemma Regroup(a: multiset<int>, b: multiset<int>, c: multiset<int>, d: multiset<int>)
    ensures (a + b) + (c + d) == (a + c) + (b + d)
  {
  }

  lemma ThreadTakes(log: seq<Event>, e: Event, t: nat)
    ensures KeysTaken(Project(log + [e], t))
         == KeysTaken(Project(log, t)) + if e.t == t then OnePopped(e.op) else multiset{}
  {
    LogGrows(log, e);
    KeysTakenAppend(Project(log, t), [e.op]);
    assert Project(log, t) + [] == Project(log, t);
    assert KeysTaken([e.op]) == OnePopped(e.op);
  }

  lemma {:induction false} TakenByGrows(log: seq<Event>, e: Event, n: nat)
    ensures TakenBy(log + [e], n) == TakenBy(log, n) + if e.t < n then OnePopped(e.op) else multiset{}
  {
    hide KeysTaken, Project, OnePopped;
    if n > 0 {
      TakenByGrows(log, e, n - 1);
      ThreadTakes(log, e, n - 1);
      Regroup(TakenBy(log, n - 1), if e.t < n - 1 then OnePopped(e.op) else multiset{},
              KeysTaken(Project(log, n - 1)), if e.t == n - 1 then OnePopped(e.op) else multiset{});
    }
  }

  lemma {:induction false} NothingTaken(n: nat)
    ensures TakenBy([], n) == multiset{}
  {
    if n > 0 { NothingTaken(n - 1); }
  }

  predicate EventsOf(log: seq<Event>, n: nat) {
    forall i :: 0 <= i < |log| ==> log[i].t < n
  }

  lemma {:induction false} TakenByAll(log: seq<Event>, n: nat)
    requires EventsOf(log, n)
    ensures TakenBy(log, n) == Popped(log)
  {
    if log == [] {
      NothingTaken(n);
    } else {
      var before, e := log[..|log| - 1], log[|log| - 1];
      TakenByAll(before, n);
      assert log == before + [e];
      TakenByGrows(before, e, n);
    }
  }

  lemma OneThread(h: History, n: nat)
    requires 0 < n <= |h.returned| == |h.lin| && CallOk(h, n - 1)
    ensures KeysTaken(Project(h.log, n - 1)) == KeysTaken(h.returned[n - 1]) + KeysTaken(Pending(h.lin[n - 1]))
    ensures Answered(h.returned[..n]) == Answered(h.returned[..n - 1]) + KeysTaken(h.returned[n - 1])
    ensures InHand(h.lin[..n]) == InHand(h.lin[..n - 1]) + KeysTaken(Pending(h.lin[n - 1]))
  {
    KeysTakenAppend(h.returned[n - 1], Pending(h.lin[n - 1]));
    hide KeysTaken, Pending, Project;
    assert h.returned[..n][..n - 1] == h.returned[..n - 1] && h.lin[..n][..n - 1] == h.lin[..n - 1];
  }

  lemma {:induction false} TakenSplits(h: History, n: nat)
    requires n <= |h.returned| == |h.lin| && forall t :: 0 <= t < n ==> CallOk(h, t)
    ensures TakenBy(h.log, n) == Answered(h.returned[..n]) + InHand(h.lin[..n])
  {
    if n > 0 {
      hide KeysTaken, Pending, Project, Answered, InHand;
      TakenSplits(h, n - 1);
      OneThread(h, n);
      Regroup(Answered(h.returned[..n - 1]), InHand(h.lin[..n - 1]),
              KeysTaken(h.returned[n - 1]), KeysTaken(Pending(h.lin[n - 1])));
    }
  }

  lemma {:induction false} RunEventsOf(threadCount: nat, actions: seq<Action>)
    requires Run(Init(threadCount), actions).Some?
    ensures EventsOf(Run(Init(threadCount), actions).value.h.log, threadCount)
  {
    if actions != [] { RunEventsOf(threadCount, actions[..|actions| - 1]); }
  }

  /** Conservation, at every step of every run: the keys pushed are the keys that pops have returned,
      those they have taken and not yet returned, and those in the stack. */
  lemma KeysConserved(s: State)
    requires Reachable(s)
    ensures Inv(s)
    ensures Pushed(s.h.log) == Answered(s.h.returned) + InHand(s.h.lin) + multiset(Stack(s))
  {
    ReachableInv(s);
    var threadCount: nat, actions: seq<Action> :| Run(Init(threadCount), actions) == Some(s);
    RunEventsOf(threadCount, actions);
    var n := |s.m.threads|;
    LogConserves(s.h.log);
    TakenByAll(s.h.log, n);
    TakenSplits(s.h, n);
    assert s.h.returned[..n] == s.h.returned && s.h.lin[..n] == s.h.lin;
  }

  function PushedKey(e: Event): int { if e.op.Push? then e.op.key else 0 }

  function PoppedKey(e: Event): int { if e.op.Pop? then e.op.key else 0 }

  function PushedOne(e: Event): int { if e.op.Push? then 1 else 0 }

  function PoppedOne(e: Event): int { if e.op.Pop? then 1 else 0 }

  function Itself(x: int): int { x }

  /** The same in sums and counts. */
  lemma {:induction false} SumsConserved(log: seq<Event>)
    requires Replay(log).Some?
    ensures Total(log, PushedKey) == Total(log, PoppedKey) + Total(Replay(log).value, Itself)
    ensures Total(log, PushedOne) == Total(log, PoppedOne) + |Replay(log).value|
  {
    if log != [] {
      var before, e := log[..|log| - 1], log[|log| - 1];
      SumsConserved(before);
      assert log == before + [e];
      TotalAppend(before, PushedKey, e);
      TotalAppend(before, PoppedKey, e);
      TotalAppend(before, PushedOne, e);
      TotalAppend(before, PoppedOne, e);
      assert e.op.Push? ==> Replay(log).value[1..] == Replay(before).value;
    }
  }

  predicate PositivePushes(log: seq<Event>) {
    forall k :: 0 <= k < |log| && log[k].op.Push? ==> 1 <= log[k].op.key
  }

  /** With keys of at least 1, what is in the stack and what is popped is at least 1,
      so that a returned 0 can only mean an empty stack. */
  lemma {:induction false} PositiveKeys(log: seq<Event>)
    requires Replay(log).Some? && PositivePushes(log)
    ensures forall k :: 0 <= k < |Replay(log).value| ==> 1 <= Replay(log).value[k]
    ensures forall k :: 0 <= k < |log| && log[k].op.Pop? ==> 1 <= log[k].op.key
  {
    if log != [] {
      PositiveKeys(log[..|log| - 1]);
    }
  }

  // ---------------------------------------------------------------------------
  // What every step of the program keeps

  predicate Pushing(th: Thread) {
    th.PushLoad? || th.PushLink? || th.PushFetch? || th.PushCas? || th.PushReturn?
  }

  /** 1 + 2 + ... + n */
  function SumTo(n: nat): nat {
    if n == 0 then 0 else SumTo(n - 1) + n
  }

  lemma {:induction false} SumToIs(n: nat)
    ensures 2 * SumTo(n) == n * (n + 1)
  {
    if n > 0 { SumToIs(n - 1); }
  }

  predicate ProducerOk(producer: Producer, th: Thread) {
    && 1 <= producer.i <= producer.totalItems + 1
    && producer.localSum == SumTo(producer.i - 1)
    && (th.Idle? || (Pushing(th) && th.key == producer.i && producer.i <= producer.totalItems))
    && (producer.finished ==> th.Idle? && producer.i == producer.totalItems + 1)
  }

  predicate ConsumerOk(consumer: Consumer, th: Thread, share: nat) {
    && consumer.taken <= share
    && !Pushing(th)
    && (!th.Idle? ==> consumer.taken < share)
    && (consumer.finished ==> th.Idle? && consumer.taken == share)
  }

  predicate RolesOk(p: Program)
    requires p.Sized()
  {
    && ProducerOk(p.producer, p.s.m.threads[0])
    && (forall c :: 0 <= c < |p.consumers| ==> ConsumerOk(p.consumers[c], p.s.m.threads[c + 1], p.itemsPerConsumer))
  }

  function KeyInFlight(lin: Option<Op>): int {
    if lin.Some? && !lin.value.PopEmpty? then lin.value.key else 0
  }

  function OneInFlight(lin: Option<Op>): int {
    if lin.Some? && !lin.value.PopEmpty? then 1 else 0
  }

  /** What each consumer has added up, counting a key its current call has taken. */
  function Took(consumers: seq<Consumer>, lin: seq<Option<Op>>): (took: seq<int>)
    requires |lin| == |consumers| + 1
    ensures |took| == |consumers|
  {
    seq(|consumers|, c requires 0 <= c < |consumers| => consumers[c].localSum + KeyInFlight(lin[c + 1]))
  }

  function TookCount(consumers: seq<Consumer>, lin: seq<Option<Op>>): (took: seq<int>)
    requires |lin| == |consumers| + 1
    ensures |took| == |consumers|
  {
    seq(|consumers|, c requires 0 <= c < |consumers| => consumers[c].taken + OneInFlight(lin[c + 1]))
  }

  function Posted(consumer: Consumer): int { if consumer.finished then consumer.localSum else 0 }

  /** The sums over the log agree with the local sums and what is in flight. */
  predicate LogMatches(p: Program, log: seq<Event>, lin: seq<Option<Op>>)
    requires |lin| == |p.consumers| + 1
  {
    && PositivePushes(log)
    && Total(log, PushedKey) == p.producer.localSum + KeyInFlight(lin[0])
    && Total(log, PushedOne) == p.producer.i - 1 + OneInFlight(lin[0])
    && Total(log, PoppedKey) == Total(Took(p.consumers, lin), Itself)
    && Total(log, PoppedOne) == Total(TookCount(p.consumers, lin), Itself)
  }

  predicate SumsOk(p: Program)
    requires p.Sized()
  {
    var h := p.s.h;
    && LogMatches(p, h.log, h.lin)
    && p.producerSum == (if p.producer.finished then p.producer.localSum else 0)
    && p.consumerSum == Total(p.consumers, Posted)
  }

  ghost predicate ProgramInv(p: Program) {
    p.Sized() && Inv(p.s) && RolesOk(p) && SumsOk(p)
  }

  lemma {:induction false} AllZero<T>(s: seq<T>, w: T -> int)
    requires forall i :: 0 <= i < |s| ==> w(s[i]) == 0
    ensures Total(s, w) == 0
  {
    TotalConstant(s, w, 0);
  }

  lemma StartInv(consumerCount: nat, itemsPerConsumer: nat)
    ensures ProgramInv(Start(consumerCount, itemsPerConsumer))
  {
    var p := Start(consumerCount, itemsPerConsumer);
    InitInv(consumerCount + 1);
    AllZero(Took(p.consumers, p.s.h.lin), Itself);
    AllZero(TookCount(p.consumers, p.s.h.lin), Itself);
    AllZero(p.consumers, Posted);
  }

  /** An action inside a call adds at most one operation to the log, of the right kind. */
  lemma InsideLog(s: State, a: Action)
    requires Inv(s) && Enabled(s.m, a) && !a.Return?
    ensures
      var h, h', th := s.h, Next(s, a).h, s.m.threads[a.t];
      if h'.log == h.log then h'.lin == h.lin
      else
        && |h'.log| == |h.log| + 1 && h.lin[a.t] == None
        && var op := h'.log[|h.log|].op;
           && h'.log == h.log + [Event(a.t, op)]
           && h'.lin == h.lin[a.t := Some(op)]
           && (Pushing(th) <==> op.Push?) && (op.Push? ==> op.key == th.key)
  {
    assert ThreadOk(s, a.t);
    if a.CasSucceed? {
      CasOnCurrentTop(s, a);
      if s.m.threads[a.t].PopCas? { ChainPop(s.m.top.node, s.m.heap, s.h.chain); }
    }
  }

  lemma TookUpdate(consumers: seq<Consumer>, lin: seq<Option<Op>>, c: nat, me: Consumer, effect: Option<Op>)
    requires |lin| == |consumers| + 1 && c < |consumers|
    ensures Total(Took(consumers[c := me], lin[c + 1 := effect]), Itself)
         == Total(Took(consumers, lin), Itself)
            - consumers[c].localSum - KeyInFlight(lin[c + 1]) + me.localSum + KeyInFlight(effect)
    ensures Total(TookCount(consumers[c := me], lin[c + 1 := effect]), Itself)
         == Total(TookCount(consumers, lin), Itself)
            - consumers[c].taken - OneInFlight(lin[c + 1]) + me.taken + OneInFlight(effect)
  {
    var key, one := me.localSum + KeyInFlight(effect), me.taken + OneInFlight(effect);
    TotalUpdate(Took(consumers, lin), Itself, c, key);
    TotalUpdate(TookCount(consumers, lin), Itself, c, one);
    assert Took(consumers[c := me], lin[c + 1 := effect]) == Took(consumers, lin)[c := key];
    assert TookCount(consumers[c := me], lin[c + 1 := effect]) == TookCount(consumers, lin)[c := one];
  }

  lemma TookIgnoresProducer(consumers: seq<Consumer>, lin: seq<Option<Op>>, effect: Option<Op>)
    requires |lin| == |consumers| + 1
    ensures Took(consumers, lin[0 := effect]) == Took(consumers, lin)
    ensures TookCount(consumers, lin[0 := effect]) == TookCount(consumers, lin)
  {
  }

  lemma PushEffectSums(p: Program, log: seq<Event>, lin: seq<Option<Op>>, op: Op)
    requires |lin| == |p.consumers| + 1 && LogMatches(p, log, lin)
    requires lin[0] == None && op.Push? && 1 <= op.key
    ensures LogMatches(p, log + [Event(0, op)], lin[0 := Some(op)])
  {
    var e := Event(0, op);
    TotalAppend(log, PushedKey, e);
    TotalAppend(log, PushedOne, e);
    TotalAppend(log, PoppedKey, e);
    TotalAppend(log, PoppedOne, e);
    TookIgnoresProducer(p.consumers, lin, Some(op));
  }

  lemma PopEffectSums(p: Program, log: seq<Event>, lin: seq<Option<Op>>, c: nat, op: Op)
    requires |lin| == |p.consumers| + 1 && LogMatches(p, log, lin)
    requires c < |p.consumers| && lin[c + 1] == None && !op.Push?
    ensures LogMatches(p, log + [Event(c + 1, op)], lin[c + 1 := Some(op)])
  {
    var e := Event(c + 1, op);
    TotalAppend(log, PushedKey, e);
    TotalAppend(log, PushedOne, e);
    TotalAppend(log, PoppedKey, e);
    TotalAppend(log, PoppedOne, e);
    TookUpdate(p.consumers, lin, c, p.consumers[c], Some(op));
    assert p.consumers[c := p.consumers[c]] == p.consumers;
  }

  lemma InsideSums(p: Program, a: Action)
    requires ProgramInv(p) && Possible(p, Inside(a)) && !p.s.m.threads[a.t].Idle?
    ensures LogMatches(p, Next(p.s, a).h.log, Next(p.s, a).h.lin)
  {
    var h, h' := p.s.h, Next(p.s, a).h;
    InsideLog(p.s, a);
    hide Inv;
    if h'.log != h.log {
      var op := h'.log[|h.log|].op;
      if a.t == 0 {
        PushEffectSums(p, h.log, h.lin, op);
      } else {
        assert ConsumerOk(p.consumers[a.t - 1], p.s.m.threads[a.t - 1 + 1], p.itemsPerConsumer);
        PopEffectSums(p, h.log, h.lin, a.t - 1, op);
      }
    }
  }

  lemma InsideInv(p: Program, a: Action)
    requires ProgramInv(p) && Possible(p, Inside(a))
    ensures ProgramInv(Do(p, Inside(a)))
  {
    NextInv(p.s, a);
    InsideRoles(p, a);
    InsideSums(p, a);
  }

  /** Inside a call a thread neither returns nor changes sides, and keeps its key. */
  lemma InsideThread(m: Machine, a: Action)
    requires Enabled(m, a) && !a.CallPush? && !a.CallPop? && !a.Return?
    ensures
      var th, th' := m.threads[a.t], NextMachine(m, a).threads[a.t];
      && !th.Idle? && !th'.Idle? && (Pushing(th) <==> Pushing(th'))
      && (Pushing(th) ==> th'.key == th.key)
      && NextMachine(m, a).threads == m.threads[a.t := th']
  {
  }

  lemma InsideRoles(p: Program, a: Action)
    requires p.Sized() && RolesOk(p) && Possible(p, Inside(a))
    ensures RolesOk(Do(p, Inside(a)))
    ensures !p.s.m.threads[a.t].Idle?
  {
    InsideThread(p.s.m, a);
    if a.t != 0 {
      assert ConsumerOk(p.consumers[a.t - 1], p.s.m.threads[a.t - 1 + 1], p.itemsPerConsumer);
    }
  }

  lemma StartPushInv(p: Program, addr: nat)
    requires ProgramInv(p) && Possible(p, StartPush(addr))
    ensures ProgramInv(Do(p, StartPush(addr)))
  {
    NextInv(p.s, CallPush(0, p.producer.i, addr));
  }

  lemma StartPopInv(p: Program, c: nat)
    requires ProgramInv(p) && Possible(p, StartPop(c))
    ensures ProgramInv(Do(p, StartPop(c)))
  {
    NextInv(p.s, CallPop(c + 1));
  }

  lemma EndPushSums(p: Program)
    requires p.Sized() && SumsOk(p) && Possible(p, EndPush) && !p.producer.finished && 1 <= p.producer.i
    requires p.s.h.lin[0] == Some(Push(p.producer.i))
    ensures SumsOk(Do(p, EndPush))
  {
    TookIgnoresProducer(p.consumers, p.s.h.lin, None);
  }

  lemma EndPushRoles(p: Program)
    requires p.Sized() && RolesOk(p) && Possible(p, EndPush)
    ensures RolesOk(Do(p, EndPush)) && !p.producer.finished && 1 <= p.producer.i
    ensures p.s.m.threads[0].key == p.producer.i
  {
  }

  lemma EffectAt(s: State, t: nat)
    requires Inv(s) && t < |s.m.threads|
    ensures EffectOk(s.m.heap, s.m.threads[t], s.h.lin[t])
  {
    assert ThreadOk(s, t);
  }

  lemma EndPushInv(p: Program)
    requires ProgramInv(p) && Possible(p, EndPush)
    ensures ProgramInv(Do(p, EndPush))
  {
    hide Inv, RolesOk, SumsOk;
    NextInv(p.s, Return(0));
    EffectAt(p.s, 0);
    EndPushRoles(p);
    EndPushSums(p);
  }

  lemma PositivePop(s: State, t: nat)
    requires Inv(s) && PositivePushes(s.h.log) && t < |s.m.threads| && s.m.threads[t].PopReturn?
    ensures KeyInFlight(s.h.lin[t]) == s.m.threads[t].value
    ensures OneInFlight(s.h.lin[t]) == if s.m.threads[t].value == 0 then 0 else 1
  {
    PositiveKeys(s.h.log);
    assert ThreadOk(s, t) && CallOk(s.h, t);
    ProjectIsFromLog(s.h.log, t, |s.h.returned[t]|);
  }

  lemma {:induction false} ProjectIsFromLog(log: seq<Event>, t: nat, i: nat)
    requires i < |Project(log, t)|
    ensures exists k :: 0 <= k < |log| && log[k] == Event(t, Project(log, t)[i])
  {
    var before := log[..|log| - 1];
    if i < |Project(before, t)| {
      ProjectIsFromLog(before, t, i);
      var k :| 0 <= k < |before| && before[k] == Event(t, Project(before, t)[i]);
      assert log[k] == before[k];
    }
  }

  lemma EndPopSums(p: Program, c: nat)
    requires p.Sized() && SumsOk(p) && Possible(p, EndPop(c)) && p.s.h.lin[c + 1].Some? && !p.consumers[c].finished
    requires KeyInFlight(p.s.h.lin[c + 1]) == p.s.m.threads[c + 1].value
    requires OneInFlight(p.s.h.lin[c + 1]) == if p.s.m.threads[c + 1].value == 0 then 0 else 1
    ensures SumsOk(Do(p, EndPop(c)))
  {
    var p' := Do(p, EndPop(c));
    TookUpdate(p.consumers, p.s.h.lin, c, p'.consumers[c], None);
    TotalUpdate(p.consumers, Posted, c, p'.consumers[c]);
    assert p'.consumers == p.consumers[c := p'.consumers[c]];
  }

  lemma EndPopRoles(p: Program, c: nat)
    requires p.Sized() && RolesOk(p) && Possible(p, EndPop(c))
    ensures RolesOk(Do(p, EndPop(c))) && !p.consumers[c].finished
  {
    assert ConsumerOk(p.consumers[c], p.s.m.threads[c + 1], p.itemsPerConsumer);
  }

  lemma EndPopInv(p: Program, c: nat)
    requires ProgramInv(p) && Possible(p, EndPop(c))
    ensures ProgramInv(Do(p, EndPop(c)))
  {
    hide Inv, RolesOk;
    NextInv(p.s, Return(c + 1));
    PositivePop(p.s, c + 1);
    EffectAt(p.s, c + 1);
    EndPopRoles(p, c);
    EndPopSums(p, c);
  }

  lemma PostConsumerSumInv(p: Program, c: nat)
    requires ProgramInv(p) && Possible(p, PostConsumerSum(c))
    ensures ProgramInv(Do(p, PostConsumerSum(c)))
  {
    var me := p.consumers[c].(finished := true);
    TookUpdate(p.consumers, p.s.h.lin, c, me, p.s.h.lin[c + 1]);
    TotalUpdate(p.consumers, Posted, c, me);
    assert p.s.h.lin[c + 1 := p.s.h.lin[c + 1]] == p.s.h.lin;
  }

  lemma PostProducerSumInv(p: Program)
    requires ProgramInv(p) && Possible(p, PostProducerSum)
    ensures ProgramInv(Do(p, PostProducerSum))
  {
    hide Inv;
  }

  lemma StepInv(p: Program, step: Step)
    requires ProgramInv(p) && Possible(p, step)
    ensures ProgramInv(Do(p, step))
  {
    hide Inv, RolesOk, SumsOk;
    match step
    case Inside(a) => InsideInv(p, a);
    case StartPush(addr) => StartPushInv(p, addr);
    case EndPush => EndPushInv(p);
    case PostProducerSum => PostProducerSumInv(p);
    case StartPop(c) => StartPopInv(p, c);
    case EndPop(c) => EndPopInv(p, c);
    case PostConsumerSum(c) => PostConsumerSumInv(p, c);
  }

  lemma {:induction false} ExecuteInv(p: Program, steps: seq<Step>)
    requires ProgramInv(p)
    ensures Execute(p, steps).Some? ==>
      && ProgramInv(Execute(p, steps).value)
      && |Execute(p, steps).value.consumers| == |p.consumers|
      && Execute(p, steps).value.itemsPerConsumer == p.itemsPerConsumer
      && Execute(p, steps).value.producer.totalItems == p.producer.totalItems
  {
    hide ProgramInv;
    if steps != [] {
      ExecuteInv(p, steps[..|steps| - 1]);
      var before := Execute(p, steps[..|steps| - 1]);
      if before.Some? && Possible(before.value, steps[|steps| - 1]) {
        StepInv(before.value, steps[|steps| - 1]);
      }
    }
  }

  lemma FinishedIsIdle(p: Program)
    requires ProgramInv(p) && p.Finished()
    ensures forall t :: 0 <= t < |p.s.m.threads| ==> p.s.m.threads[t].Idle? && p.s.h.lin[t] == None
    ensures forall c :: 0 <= c < |p.consumers| ==> p.consumers[c].taken == p.itemsPerConsumer
  {
    forall t | 0 <= t < |p.s.m.threads|
      ensures p.s.m.threads[t].Idle? && p.s.h.lin[t] == None
    {
      assert ThreadOk(p.s, t);
      if t > 0 { assert ConsumerOk(p.consumers[t - 1], p.s.m.threads[t - 1 + 1], p.itemsPerConsumer); }
    }
    forall c | 0 <= c < |p.consumers|
      ensures p.consumers[c].taken == p.itemsPerConsumer
    {
      assert ConsumerOk(p.consumers[c], p.s.m.threads[c + 1], p.itemsPerConsumer);
    }
  }

  lemma FinishedTotals(p: Program)
    requires ProgramInv(p) && p.Finished()
    ensures Total(p.s.h.log, PushedOne) == p.producer.totalItems
    ensures Total(p.s.h.log, PoppedOne) == |p.consumers| * p.itemsPerConsumer
    ensures Total(p.s.h.log, PushedKey) == p.producerSum
    ensures Total(p.s.h.log, PoppedKey) == p.consumerSum
    ensures p.producerSum == SumTo(p.producer.totalItems)
  {
    FinishedIsIdle(p);
    TotalConstant(TookCount(p.consumers, p.s.h.lin), Itself, p.itemsPerConsumer);
    TotalSame(Took(p.consumers, p.s.h.lin), Itself, p.consumers, Posted);
  }

  /** When everybody has finished, the stack is empty, every node has been freed and
      the two sums agree: both are 1 + 2 + ... + N. */
  lemma SumsAgree(consumerCount: nat, itemsPerConsumer: nat, steps: seq<Step>)
    requires Execute(Start(consumerCount, itemsPerConsumer), steps).Some?
    requires Execute(Start(consumerCount, itemsPerConsumer), steps).value.Finished()
    ensures
      var p := Execute(Start(consumerCount, itemsPerConsumer), steps).value;
      var n := consumerCount * itemsPerConsumer;
      && p.s.m.top.node == Null && p.s.m.heap == map[]
      && p.producerSum == p.consumerSum
      && 2 * p.producerSum == n * (n + 1)
  {
    hide ProgramInv, Start, Execute;
    StartInv(consumerCount, itemsPerConsumer);
    ExecuteInv(Start(consumerCount, itemsPerConsumer), steps);
    StartSize(consumerCount, itemsPerConsumer);
    FinishedSums(Execute(Start(consumerCount, itemsPerConsumer), steps).value, consumerCount * itemsPerConsumer);
  }

  lemma FinishedSums(p: Program, n: nat)
    requires ProgramInv(p) && p.Finished() && n == p.producer.totalItems == |p.consumers| * p.itemsPerConsumer
    ensures p.s.m.top.node == Null && p.s.m.heap == map[] && p.producerSum == p.consumerSum
    ensures 2 * p.producerSum == n * (n + 1)
  {
    hide ProgramInv;
    FinishedTotals(p);
    FinishedIsEmpty(p);
    SumToIs(n);
  }

  lemma StartSize(consumerCount: nat, itemsPerConsumer: nat)
    ensures
      var p := Start(consumerCount, itemsPerConsumer);
      && |p.consumers| == consumerCount && p.itemsPerConsumer == itemsPerConsumer
      && p.producer.totalItems == consumerCount * itemsPerConsumer
  {
  }

  lemma FinishedIsEmpty(p: Program)
    requires ProgramInv(p) && p.Finished() && p.producer.totalItems == |p.consumers| * p.itemsPerConsumer
    ensures p.s.m.top.node == Null && p.s.m.heap == map[] && p.producerSum == p.consumerSum
  {
    FinishedTotals(p);
    FinishedIsIdle(p);
    SumsConserved(p.s.h.log);
    assert p.s.h.chain == [];
    IdleNoLeak(p.s);
  }
}
