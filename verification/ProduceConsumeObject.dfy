/** `produce` and `consume` as the loops they are, each run by one thread of the stack while
    the others act in between. */
module ProduceConsumeObject {
  import opened LockFreeStack
  import opened LockFreeStackInvariant
  import opened LockFreeStackObject
  import ProduceConsume

  function PushesUpTo(n: nat): seq<Op> {
    if n == 0 then [] else PushesUpTo(n - 1) + [Push(n)]
  }

  /** What the values returned by the pops among these operations add up to. */
  function SumTaken(ops: seq<Op>): int {
    if ops == [] then 0
    else SumTaken(ops[..|ops| - 1]) + var op := ops[|ops| - 1]; if op.Pop? then op.key else 0
  }

  /** How many of the pops returned something other than 0. */
  function CountTaken(ops: seq<Op>): nat {
    if ops == [] then 0
    else CountTaken(ops[..|ops| - 1]) + var op := ops[|ops| - 1]; if op.Pop? && op.key != 0 then 1 else 0
  }

  /** What the keys pushed by these operations add up to. */
  function SumPushed(ops: seq<Op>): int {
    if ops == [] then 0
    else SumPushed(ops[..|ops| - 1]) + var op := ops[|ops| - 1]; if op.Push? then op.key else 0
  }

  lemma {:induction false} PushesAddUp(n: nat)
    ensures |PushesUpTo(n)| == n && SumPushed(PushesUpTo(n)) == ProduceConsume.SumTo(n)
  {
    if n > 0 {
      PushesAddUp(n - 1);
      assert PushesUpTo(n)[..n - 1] == PushesUpTo(n - 1);
    }
  }

  lemma TakenGrows(ops: seq<Op>, op: Op, value: int)
    requires op == Op.Pop(value) || (op == PopEmpty && value == 0)
    ensures SumTaken(ops + [op]) == SumTaken(ops) + value
    ensures CountTaken(ops + [op]) == CountTaken(ops) + if value == 0 then 0 else 1
  {
    assert (ops + [op])[..|ops|] == ops;
  }

  /** `allocate` is the memory allocator behind `new`. */
  method Produce(stack: Stack, t: nat, totalItems: nat, allocate: map<nat, Node> -> nat) returns (localSum: int)
    requires Inv(stack.View()) && t < |stack.threads| && stack.threads[t].Idle?
    requires forall heap :: allocate(heap) !in heap
    modifies stack
    ensures Inv(stack.View()) && |stack.threads| == |old(stack.threads)| && stack.threads[t].Idle?
    ensures |stack.history.returned| == |old(stack.history.returned)| == |stack.threads|
    ensures stack.history.returned[t] == old(stack.history.returned[t]) + PushesUpTo(totalItems)
    ensures localSum == ProduceConsume.SumTo(totalItems) == SumPushed(PushesUpTo(totalItems))
  {
    hide Inv, Did, Turn, PushTurns;
    PushesAddUp(totalItems);
    CallFacts(stack.View(), t);
    localSum := 0;
    var i := 1;
    while i <= totalItems
      invariant 1 <= i <= totalItems + 1 && localSum == ProduceConsume.SumTo(i - 1)
      invariant Inv(stack.View()) && |stack.threads| == |old(stack.threads)| && stack.threads[t].Idle?
      invariant |stack.history.returned| == |old(stack.history.returned)| == |stack.threads|
      invariant stack.history.returned[t] == old(stack.history.returned[t]) + PushesUpTo(i - 1)
    {
      ghost var _ := stack.Push(t, i, allocate(stack.heap));
      localSum := localSum + i;
      i := i + 1;
    }
  }

  /** What thread t has returned from since it had returned from `base`. */
  ghost predicate Since(stack: Stack, threadCount: nat, t: nat, base: seq<Op>, mine: seq<Op>)
    reads stack
  {
    && Inv(stack.View()) && |stack.threads| == threadCount && t < threadCount && stack.threads[t].Idle?
    && |stack.history.returned| == threadCount && stack.history.returned[t] == base + mine
  }

  method PopOnce(stack: Stack, t: nat, stray: nat -> Pointer, ghost base: seq<Op>, ghost mine: seq<Op>)
    returns (value: int, ghost mine': seq<Op>)
    requires Since(stack, |stack.threads|, t, base, mine)
    modifies stack
    ensures Since(stack, |old(stack.threads)|, t, base, mine')
    ensures SumTaken(mine') == SumTaken(mine) + value && |mine'| == |mine| + 1
    ensures CountTaken(mine') == CountTaken(mine) + if value == 0 then 0 else 1
  {
    hide Inv, Did, Turn, PopTurns, PopEnded;
    ghost var turns: nat;
    value, turns := stack.Pop(t, stray);
    ghost var op := if stack.history.returned[t] == base + mine + [Op.Pop(value)] then Op.Pop(value) else PopEmpty;
    TakenGrows(mine, op, value);
    mine' := mine + [op];
    assert base + mine' == base + mine + [op];
  }

  /** Calls pop at most `patience` times.  Unless it runs out of patience, the sum is that of exactly
      `items` keys taken, none of them 0. */
  method Consume(stack: Stack, t: nat, items: nat, patience: nat, stray: nat -> Pointer)
    returns (localSum: int, starved: bool)
    requires Inv(stack.View()) && t < |stack.threads| && stack.threads[t].Idle?
    modifies stack
    ensures Inv(stack.View()) && |stack.threads| == |old(stack.threads)| && stack.threads[t].Idle?
    ensures |stack.history.returned| == |old(stack.history.returned)| == |stack.threads|
    ensures old(stack.history.returned[t]) <= stack.history.returned[t]
    ensures
      var mine := stack.history.returned[t][|old(stack.history.returned[t])|..];
      && localSum == SumTaken(mine) && |mine| <= patience
      && if starved then CountTaken(mine) < items && |mine| == patience else CountTaken(mine) == items
  {
    hide Inv;
    CallFacts(stack.View(), t);
    ghost var threadCount, base := |stack.threads|, stack.history.returned[t];
    ghost var mine: seq<Op> := [];
    assert base + mine == base;
    localSum := 0;
    var calls, i := 0, 0;
    while i < items
      invariant i <= items && calls <= patience && Since(stack, threadCount, t, base, mine)
      invariant localSum == SumTaken(mine) && CountTaken(mine) == i && |mine| == calls
      decreases items - i
    {
      var val := 0;
      while val == 0
        invariant calls <= patience && Since(stack, threadCount, t, base, mine)
        invariant localSum + val == SumTaken(mine) && |mine| == calls
        invariant CountTaken(mine) == i + if val == 0 then 0 else 1
        decreases val == 0, patience - calls
      {
        if calls == patience {
          assert stack.history.returned[t][|base|..] == mine;
          return localSum, true;
        }
        val, mine := PopOnce(stack, t, stray, base, mine);
        calls := calls + 1;
      }
      localSum := localSum + val;
      i := i + 1;
    }
    assert stack.history.returned[t][|base|..] == mine;
    starved := false;
  }
}
