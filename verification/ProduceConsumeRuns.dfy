/** Runs of the test program: a finished one for every number of consumers and items, and when
    consumers read through freed nodes. */
module ProduceConsumeRuns {
  import opened LockFreeStack
  import opened LockFreeStackInvariant
  import opened LockFreeStackReclamation
  import opened ProduceConsume
  import opened Sequences
  import opened Wrappers

  /** One more step at the end of a run. */
  lemma AddStep(start: Program, steps: seq<Step>, p: Program, step: Step) returns (steps': seq<Step>, p': Program)
    requires Execute(start, steps) == Some(p) && Possible(p, step)
    ensures Execute(start, steps') == Some(p') && p' == Do(p, step) && p'.Sized()
  {
    steps', p' := steps + [step], Do(p, step);
    assert steps'[..|steps|] == steps;
  }

  /** Nobody is in a call, and the stack holds `heap`. */
  predicate Quiet(p: Program, top: Pointer, heap: map<nat, Node>) {
    && p.Sized() && p.s.m.top.node == top && p.s.m.heap == heap
    && forall t :: 0 <= t < |p.s.m.threads| ==> p.s.m.threads[t].Idle?
  }

  /** Two programs that differ at most in the stack and the producer. */
  predicate SameConsumers(p: Program, p': Program) {
    && p'.consumers == p.consumers && p'.itemsPerConsumer == p.itemsPerConsumer && p'.consumerSum == p.consumerSum
    && p'.producerSum == p.producerSum && p'.producer.totalItems == p.producer.totalItems
    && p'.producer.finished == p.producer.finished
  }

  /** Thread t is inside a call; everything else but the stack is as in p. */
  predicate Busy(p: Program, mid: Program, t: nat, th: Thread, top: TaggedPointer, heap: map<nat, Node>) {
    && p.Sized() && mid.Sized() && mid == p.(s := mid.s) && t < |p.s.m.threads| == |mid.s.m.threads|
    && mid.s.m.threads == p.s.m.threads[t := th]
    && mid.s.m.top == top && mid.s.m.heap == heap
  }

  lemma AddInside(start: Program, steps: seq<Step>, p: Program, mid: Program, a: Action,
                  th: Thread, top: TaggedPointer, heap: map<nat, Node>)
    returns (steps': seq<Step>, mid': Program)
    requires Execute(start, steps) == Some(mid) && Busy(p, mid, a.t, th, top, heap)
    requires !a.CallPush? && !a.CallPop? && !a.Return? && Enabled(mid.s.m, a)
    ensures Execute(start, steps') == Some(mid')
    ensures mid'.s.m == NextMachine(mid.s.m, a)
    ensures Busy(p, mid', a.t, NextMachine(mid.s.m, a).threads[a.t], mid'.s.m.top, mid'.s.m.heap)
  {
    steps', mid' := AddStep(start, steps, mid, Inside(a));
    InsideThread(mid.s.m, a);
  }

  lemma LinkOne(start: Program, steps: seq<Step>, p: Program) returns (steps': seq<Step>, mid: Program)
    requires Execute(start, steps) == Some(p) && Quiet(p, Null, map[]) && 1 <= p.producer.i <= p.producer.totalItems
    ensures Execute(start, steps') == Some(mid)
    ensures
      var i, top := p.producer.i, p.s.m.top;
      Busy(p, mid, 0, PushFetch(i, 4, top), top, map[4 := Node(i, Null)])
  {
    var i, top := p.producer.i, p.s.m.top;
    steps', mid := AddStep(start, steps, p, StartPush(4));
    assert Busy(p, mid, 0, PushLoad(i, 4), top, map[4 := Node(i, Null)]);
    hide Execute;
    steps', mid := AddInside(start, steps', p, mid, Load(0), PushLoad(i, 4), top, map[4 := Node(i, Null)]);
    steps', mid := AddInside(start, steps', p, mid, Link(0), PushLink(i, 4, top), top, map[4 := Node(i, Null)]);
  }

  lemma PushOne(start: Program, steps: seq<Step>, p: Program) returns (steps': seq<Step>, p': Program)
    requires Execute(start, steps) == Some(p) && Quiet(p, Null, map[]) && 1 <= p.producer.i <= p.producer.totalItems
    ensures Execute(start, steps') == Some(p') && Quiet(p', Ref(4), map[4 := Node(p.producer.i, Null)])
    ensures SameConsumers(p, p') && p'.producer.i == p.producer.i + 1
  {
    hide Execute;
    var i, top := p.producer.i, p.s.m.top;
    var heap: map<nat, Node> := map[4 := Node(i, Null)];
    var mid: Program;
    steps', mid := LinkOne(start, steps, p);
    var tag := mid.s.m.tagCounter;
    steps', mid := AddInside(start, steps', p, mid, FetchTag(0), PushFetch(i, 4, top), top, heap);
    steps', mid := AddInside(start, steps', p, mid, CasSucceed(0), PushCas(i, 4, top, tag), top, heap);
    steps', p' := AddStep(start, steps', mid, EndPush);
  }

  /** One key is in the stack, and thread t can start a pop. */
  predicate OneKey(p: Program, t: nat, key: int) {
    && p.Sized() && p.s.m.top.node == Ref(4) && p.s.m.heap == map[4 := Node(key, Null)]
    && t < |p.s.m.threads| && p.s.m.threads[t].Idle?
  }

  lemma TakeOne(start: Program, steps: seq<Step>, p: Program, c: nat, key: int)
    returns (steps': seq<Step>, mid: Program)
    requires Execute(start, steps) == Some(p) && OneKey(p, c + 1, key)
    requires c < |p.consumers| && p.consumers[c].taken < p.itemsPerConsumer
    ensures Execute(start, steps') == Some(mid) && mid.s.m.top.node == Null
    ensures Busy(p, mid, c + 1, PopKey(4), mid.s.m.top, map[4 := Node(key, Null)])
  {
    var t, top := c + 1, p.s.m.top;
    var heap: map<nat, Node> := map[4 := Node(key, Null)];
    steps', mid := AddStep(start, steps, p, StartPop(c));
    assert Busy(p, mid, t, PopLoad, top, heap);
    hide Execute, Possible, Do;
    steps', mid := AddInside(start, steps', p, mid, Load(t), PopLoad, top, heap);
    steps', mid := AddInside(start, steps', p, mid, ReadNext(t, Null), PopRead(top), top, heap);
    var tag := mid.s.m.tagCounter;
    steps', mid := AddInside(start, steps', p, mid, FetchTag(t), PopFetch(top, Null), top, heap);
    steps', mid := AddInside(start, steps', p, mid, CasSucceed(t), PopCas(top, Null, tag), top, heap);
  }

  lemma FreeOne(start: Program, steps: seq<Step>, p: Program, c: nat, key: int)
    returns (steps': seq<Step>, mid: Program)
    requires Execute(start, steps) == Some(p) && OneKey(p, c + 1, key)
    requires c < |p.consumers| && p.consumers[c].taken < p.itemsPerConsumer
    ensures Execute(start, steps') == Some(mid) && mid.s.m.top.node == Null
    ensures Busy(p, mid, c + 1, PopReturn(key), mid.s.m.top, map[])
  {
    hide Execute;
    steps', mid := TakeOne(start, steps, p, c, key);
    steps', mid := AddInside(start, steps', p, mid, ReadKey(c + 1, key), PopKey(4), mid.s.m.top, mid.s.m.heap);
    steps', mid := AddInside(start, steps', p, mid, Delete(c + 1), PopDelete(4, key), mid.s.m.top, mid.s.m.heap);
  }

  lemma PopOne(start: Program, steps: seq<Step>, p: Program, c: nat, key: int) returns (steps': seq<Step>, p': Program)
    requires Execute(start, steps) == Some(p) && Quiet(p, Ref(4), map[4 := Node(key, Null)]) && key != 0
    requires c < |p.consumers| && p.consumers[c].taken < p.itemsPerConsumer
    ensures Execute(start, steps') == Some(p') && Quiet(p', Null, map[])
    ensures p'.producer == p.producer && p'.itemsPerConsumer == p.itemsPerConsumer
    ensures
      var me := p.consumers[c];
      p'.consumers == p.consumers[c := me.(localSum := me.localSum + key, taken := me.taken + 1)]
  {
    hide Execute;
    var mid: Program;
    steps', mid := FreeOne(start, steps, p, c, key);
    steps', p' := AddStep(start, steps', mid, EndPop(c));
  }

  // A finished run

  /** The first c consumers have their share, the next one has j items, the others none. */
  predicate Dealt(p: Program, consumerCount: nat, share: nat, c: nat, j: nat) {
    && |p.consumers| == consumerCount && p.itemsPerConsumer == share && !p.producer.finished
    && p.producer.totalItems == consumerCount * share && p.producer.i == c * share + j + 1
    && forall x :: 0 <= x < consumerCount ==>
         !p.consumers[x].finished && p.consumers[x].taken == if x < c then share else if x == c then j else 0
  }

  lemma RoomForOne(consumerCount: nat, share: nat, c: nat, j: nat)
    requires c < consumerCount && j < share
    ensures c * share + j + 1 <= consumerCount * share
  {
    assert consumerCount * share == c * share + share + (consumerCount - c - 1) * share;
    assert (consumerCount - c - 1) * share >= 0;
  }

  lemma DealOne(start: Program, steps: seq<Step>, p: Program, consumerCount: nat, share: nat, c: nat, j: nat)
    returns (steps': seq<Step>, p': Program)
    requires c < consumerCount && j < share && Execute(start, steps) == Some(p)
    requires Quiet(p, Null, map[]) && Dealt(p, consumerCount, share, c, j)
    ensures Execute(start, steps') == Some(p')
    ensures Quiet(p', Null, map[]) && Dealt(p', consumerCount, share, c, j + 1)
  {
    RoomForOne(consumerCount, share, c, j);
    assert 0 <= c * share;
    hide Execute, Quiet;
    var mid: Program;
    steps', mid := PushOne(start, steps, p);
    steps', p' := PopOne(start, steps', mid, c, p.producer.i);
  }

  lemma {:induction false} Deal(consumerCount: nat, share: nat, c: nat, j: nat) returns (steps: seq<Step>, p: Program)
    requires c <= consumerCount && j <= share && (c == consumerCount ==> j == 0)
    ensures Execute(Start(consumerCount, share), steps) == Some(p)
    ensures Quiet(p, Null, map[]) && Dealt(p, consumerCount, share, c, j)
    decreases c, j
  {
    if j > 0 {
      hide Start, Execute, Quiet, Dealt;
      steps, p := Deal(consumerCount, share, c, j - 1);
      steps, p := DealOne(Start(consumerCount, share), steps, p, consumerCount, share, c, j - 1);
    } else if c > 0 {
      hide Start, Execute, Quiet;
      steps, p := Deal(consumerCount, share, c - 1, share);
      assert c * share == (c - 1) * share + share;
    } else {
      steps, p := [], Start(consumerCount, share);
      assert 0 * share == 0;
    }
  }

  lemma {:induction false} Post(consumerCount: nat, share: nat, c: nat) returns (steps: seq<Step>, p: Program)
    requires c <= consumerCount
    ensures Execute(Start(consumerCount, share), steps) == Some(p) && Quiet(p, Null, map[])
    ensures |p.consumers| == consumerCount && p.itemsPerConsumer == share && p.producer.finished
    ensures forall x :: 0 <= x < consumerCount ==> p.consumers[x].taken == share && (p.consumers[x].finished <==> x < c)
    decreases c
  {
    hide Start, Execute;
    var start := Start(consumerCount, share);
    if c == 0 {
      steps, p := Deal(consumerCount, share, consumerCount, 0);
      steps, p := AddStep(start, steps, p, PostProducerSum);
    } else {
      steps, p := Post(consumerCount, share, c - 1);
      steps, p := AddStep(start, steps, p, PostConsumerSum(c - 1));
    }
  }

  /** Every number of consumers and items has a run in which all finish. */
  lemma FinishedRunExists(consumerCount: nat, itemsPerConsumer: nat) returns (steps: seq<Step>)
    ensures Execute(Start(consumerCount, itemsPerConsumer), steps).Some?
    ensures Execute(Start(consumerCount, itemsPerConsumer), steps).value.Finished()
  {
    var p: Program;
    steps, p := Post(consumerCount, itemsPerConsumer, consumerCount);
  }

  // Reads through freed nodes

  /** The threads that call pop: those of the consumers, if they have anything to take. */
  function Poppers(consumerCount: nat, itemsPerConsumer: nat): set<nat> {
    if itemsPerConsumer == 0 then {} else Below(consumerCount + 1) - {0}
  }

  /** What a step of the program does to the stack. */
  function OnStack(p: Program, step: Step): Option<Action> {
    match step
    case Inside(a) => Some(a)
    case StartPush(addr) => Some(CallPush(0, p.producer.i, addr))
    case EndPush => Some(Return(0))
    case StartPop(c) => Some(CallPop(c + 1))
    case EndPop(c) => Some(Return(c + 1))
    case _ => None
  }

  lemma StepOnStack(p: Program, step: Step)
    requires Possible(p, step)
    ensures |Do(p, step).consumers| == |p.consumers| && Do(p, step).itemsPerConsumer == p.itemsPerConsumer
    ensures
      var act := OnStack(p, step);
      if act.None? then Do(p, step).s == p.s
      else
        && Enabled(p.s.m, act.value) && Do(p, step).s == Next(p.s, act.value)
        && (act.value.CallPop? ==> act.value.t in Poppers(|p.consumers|, p.itemsPerConsumer))
  {
    if step.EndPush? || step.EndPop? { hide Next; }
  }

  lemma RunOneMore(start: State, actions: seq<Action>, s: State, a: Action)
    requires start.Sized() && Run(start, actions) == Some(s) && Enabled(s.m, a)
    ensures Run(start, actions + [a]) == Some(Next(s, a))
  {
    assert (actions + [a])[..|actions|] == actions;
  }

  /** A run of the program is a run of the stack. */
  lemma {:induction false} ExecuteIsRun(consumerCount: nat, itemsPerConsumer: nat, steps: seq<Step>)
    returns (actions: seq<Action>)
    requires Execute(Start(consumerCount, itemsPerConsumer), steps).Some?
    ensures
      var p := Execute(Start(consumerCount, itemsPerConsumer), steps).value;
      && Run(Init(consumerCount + 1), actions) == Some(p.s)
      && |p.consumers| == consumerCount && p.itemsPerConsumer == itemsPerConsumer
    ensures PopsOnlyFrom(actions, Poppers(consumerCount, itemsPerConsumer))
  {
    if steps == [] {
      actions := [];
    } else {
      hide Possible, Do, Enabled, Next, Poppers, Run;
      var p, step := Execute(Start(consumerCount, itemsPerConsumer), steps[..|steps| - 1]).value, steps[|steps| - 1];
      actions := ExecuteIsRun(consumerCount, itemsPerConsumer, steps[..|steps| - 1]);
      StepOnStack(p, step);
      if act: Action :| OnStack(p, step) == Some(act) {
        RunOneMore(Init(consumerCount + 1), actions, p.s, act);
        actions := actions + [act];
      }
    }
  }

  /** In every run of the program every read of `next` is through a live node. */
  ghost predicate ConsumersReadLive(consumerCount: nat, itemsPerConsumer: nat) {
    forall steps, t: nat ::
      Execute(Start(consumerCount, itemsPerConsumer), steps).Some? ==>
        ReadIsLive(Execute(Start(consumerCount, itemsPerConsumer), steps).value.s, t)
  }

  lemma ConsumersRace(consumerCount: nat, itemsPerConsumer: nat) returns (steps: seq<Step>, p: Program)
    requires 2 <= consumerCount && 1 <= itemsPerConsumer
    ensures Execute(Start(consumerCount, itemsPerConsumer), steps) == Some(p) && !ReadIsLive(p.s, 2)
  {
    var start := Start(consumerCount, itemsPerConsumer);
    RoomForOne(consumerCount, itemsPerConsumer, 0, 0);
    steps, p := Deal(consumerCount, itemsPerConsumer, 0, 0);
    hide Execute, Start;
    steps, p := PushOne(start, steps, p);
    var top := p.s.m.top;
    steps, p := AddStep(start, steps, p, StartPop(1));
    steps, p := AddStep(start, steps, p, Inside(Load(2)));
    assert OneKey(p, 1, 1) && p.s.m.threads[2] == PopRead(top);
    hide Possible, Do, NextMachine, Next;
    steps, p := FreeOne(start, steps, p, 0, 1);
  }

  lemma FewPoppers(consumerCount: nat, itemsPerConsumer: nat)
    ensures consumerCount <= 1 || itemsPerConsumer == 0 ==> |Poppers(consumerCount, itemsPerConsumer)| <= 1
  {
    assert |Below(consumerCount + 1) - {0}| == consumerCount;
  }

  /** The consumers read `next` only through live nodes if and only if there is at most one of them,
      or nothing for them to take. */
  lemma ConsumersReadLiveExactly(consumerCount: nat, itemsPerConsumer: nat)
    ensures ConsumersReadLive(consumerCount, itemsPerConsumer) <==> consumerCount <= 1 || itemsPerConsumer == 0
  {
    hide Execute, Start, Run, ReadIsLive, Poppers;
    FewPoppers(consumerCount, itemsPerConsumer);
    if consumerCount <= 1 || itemsPerConsumer == 0 {
      forall steps, t: nat | Execute(Start(consumerCount, itemsPerConsumer), steps).Some?
        ensures ReadIsLive(Execute(Start(consumerCount, itemsPerConsumer), steps).value.s, t)
      {
        var actions := ExecuteIsRun(consumerCount, itemsPerConsumer, steps);
        OnePopper(consumerCount + 1, actions, Poppers(consumerCount, itemsPerConsumer), t);
      }
    } else {
      var steps, p := ConsumersRace(consumerCount, itemsPerConsumer);
      assert !ReadIsLive(Execute(Start(consumerCount, itemsPerConsumer), steps).value.s, 2);
    }
  }
}
