/** The fixed-size memory pool, down to the bytes in which its free list is threaded.
    Addresses are natural numbers, null is 0, and an address occupies the first eight
    bytes of a free chunk, least significant byte first. */
module MemoryPool {
  import opened Bits
  import opened Sequences

  const ADDRESS_BYTES: nat := 8

  function Pow256(n: nat): (p: nat)
    ensures 0 < p
  {
    if n == 0 then 1 else 256 * Pow256(n - 1)
  }

  function Encode(x: nat, n: nat): (r: seq<byte>)
    ensures |r| == n
  {
    if n == 0 then [] else [(x % 256) as byte] + Encode(x / 256, n - 1)
  }

  function Decode(b: seq<byte>): (x: nat)
  {
    if b == [] then 0 else b[0] as nat + 256 * Decode(b[1..])
  }

  lemma {:induction false} DecodeEncode(x: nat, n: nat)
    requires x < Pow256(n)
    ensures Decode(Encode(x, n)) == x
  {
    if n > 0 {
      DecodeEncode(x / 256, n - 1);
      assert Encode(x, n)[1..] == Encode(x / 256, n - 1);
    }
  }

  // Bytes of the pool.

  function Load(bytes: seq<byte>, at: nat): nat
    requires at + ADDRESS_BYTES <= |bytes|
  {
    Decode(bytes[at..at + ADDRESS_BYTES])
  }

  function Store(bytes: seq<byte>, at: nat, x: nat): (r: seq<byte>)
    requires at + ADDRESS_BYTES <= |bytes|
    ensures |r| == |bytes|
    ensures forall k :: 0 <= k < |bytes| && !(at <= k < at + ADDRESS_BYTES) ==> r[k] == bytes[k]
  {
    bytes[..at] + Encode(x, ADDRESS_BYTES) + bytes[at + ADDRESS_BYTES..]
  }

  lemma LoadStored(bytes: seq<byte>, at: nat, x: nat)
    requires at + ADDRESS_BYTES <= |bytes| && x < Pow256(ADDRESS_BYTES)
    ensures Load(Store(bytes, at, x), at) == x
  {
    DecodeEncode(x, ADDRESS_BYTES);
    assert Store(bytes, at, x)[at..at + ADDRESS_BYTES] == Encode(x, ADDRESS_BYTES);
  }

  lemma LoadSame(bytes: seq<byte>, bytes': seq<byte>, at: nat)
    requires at + ADDRESS_BYTES <= |bytes| == |bytes'|
    requires forall k :: at <= k < at + ADDRESS_BYTES ==> bytes[k] == bytes'[k]
    ensures Load(bytes, at) == Load(bytes', at)
  {
    assert bytes[at..at + ADDRESS_BYTES] == bytes'[at..at + ADDRESS_BYTES];
  }

  // Chunks.

  function Start(i: nat, size: nat): nat {
    i * size
  }

  lemma NextStart(i: nat, size: nat)
    ensures Start(0, size) == 0 && Start(i + 1, size) == Start(i, size) + size
  {
  }

  lemma StartsApart(i: nat, j: nat, size: nat)
    requires i < j
    ensures Start(i, size) + size <= Start(j, size)
  {
    assert (j - i - 1) * size >= 0;
    assert j * size == i * size + size + (j - i - 1) * size;
  }

  /** The least size in which both an object and an address fit. */
  function ChunkSize(objectSize: nat): (size: nat)
    ensures objectSize <= size && 8 <= size && (size == objectSize || size == 8)
  {
    if objectSize < ADDRESS_BYTES then ADDRESS_BYTES else objectSize
  }

  /** What the program keeps: where the pool lies, its bytes and the head of the free list. */
  datatype Pool = Pool(base: nat, size: nat, amount: nat, bytes: seq<byte>, head: nat) {

    predicate Laid() {
      && 0 < base && ADDRESS_BYTES <= size && 0 < amount && |bytes| == Start(amount, size)
      && base + |bytes| <= Pow256(ADDRESS_BYTES)
    }

    function Address(i: nat): nat {
      base + Start(i, size)
    }

    function Index(address: nat): nat
      requires base <= address && 0 < size
    {
      (address - base) / size
    }

    predicate Inside(address: nat) {
      base <= address && address - base + ADDRESS_BYTES <= |bytes|
    }
  }

  lemma ChunkInside(p: Pool, i: nat)
    requires p.Laid() && i < p.amount
    ensures p.base <= p.Address(i) && p.Address(i) + p.size <= p.base + |p.bytes|
    ensures p.Inside(p.Address(i)) && p.Index(p.Address(i)) == i
  {
    StartsApart(i, p.amount, p.size);
    DivModUnique(Start(i, p.size), p.size, i, 0);
  }

  predicate InChunk(p: Pool, i: nat, address: nat) {
    p.Address(i) <= address < p.Address(i) + p.size
  }

  // What the free list must be; `free` names its chunks from the head on.

  function AddressAt(p: Pool, free: seq<nat>, k: nat): nat {
    if k < |free| then p.Address(free[k]) else 0
  }

  predicate LinkAt(p: Pool, free: seq<nat>, k: nat)
    requires p.Laid() && k < |free| && free[k] < p.amount
  {
    ChunkInside(p, free[k]);
    Load(p.bytes, Start(free[k], p.size)) == AddressAt(p, free, k + 1)
  }

  ghost predicate Inv(p: Pool, free: seq<nat>) {
    && p.Laid() && Distinct(free)
    && (forall k :: 0 <= k < |free| ==> free[k] < p.amount)
    && p.head == AddressAt(p, free, 0)
    && forall k :: 0 <= k < |free| ==> LinkAt(p, free, k)
  }

  function Held(p: Pool, free: seq<nat>): set<nat> {
    set i: nat | i < p.amount && i !in free
  }

  // One call, or one write of the user.

  datatype Step = Allocate | Deallocate(address: nat) | Write(address: nat, value: byte)

  /** Only held chunks, or null, are given back; users write inside chunks they hold. */
  ghost predicate Permitted(p: Pool, free: seq<nat>, step: Step) {
    match step
    case Allocate => true
    case Deallocate(a) => a == 0 || (exists i :: i in Held(p, free) && a == p.Address(i))
    case Write(a, v) => exists i :: i in Held(p, free) && InChunk(p, i, a)
  }

  /** The bytes the step touches are bytes of the pool. */
  predicate Touches(p: Pool, step: Step) {
    match step
    case Allocate => p.head == 0 || p.Inside(p.head)
    case Deallocate(a) => a == 0 || p.Inside(a)
    case Write(a, v) => p.base <= a < p.base + |p.bytes|
  }

  function Next(p: Pool, step: Step): Pool
    requires Touches(p, step)
  {
    match step
    case Allocate =>
      if p.head == 0 then p else p.(head := Load(p.bytes, p.head - p.base))
    case Deallocate(a) =>
      if a == 0 then p else p.(bytes := Store(p.bytes, a - p.base, p.head), head := a)
    case Write(a, v) =>
      p.(bytes := p.bytes[a - p.base := v])
  }

  /** The same step on the abstract pool: the free chunks, last freed first. */
  function NextFree(p: Pool, free: seq<nat>, step: Step): seq<nat>
    requires p.Laid()
  {
    match step
    case Allocate => if free == [] then [] else free[1..]
    case Deallocate(a) => if a < p.base then free else [p.Index(a)] + free
    case Write(_, _) => free
  }

  lemma PermittedTouches(p: Pool, free: seq<nat>, step: Step)
    requires Inv(p, free) && Permitted(p, free, step)
    ensures Touches(p, step)
  {
    match step {
      case Allocate =>
        if free != [] { ChunkInside(p, free[0]); }
      case Deallocate(a) =>
        if a != 0 {
          var i :| i in Held(p, free) && a == p.Address(i);
          ChunkInside(p, i);
        }
      case Write(a, v) =>
        var i :| i in Held(p, free) && InChunk(p, i, a);
        ChunkInside(p, i);
    }
  }

  /** Links survive any change confined to one chunk that is not free. */
  lemma LinksFrame(p: Pool, free: seq<nat>, bytes: seq<byte>, i: nat)
    requires Inv(p, free) && i < p.amount && i !in free && |bytes| == |p.bytes|
    requires forall k :: 0 <= k < |bytes| && !(Start(i, p.size) <= k < Start(i, p.size) + p.size) ==> bytes[k] == p.bytes[k]
    ensures Inv(p.(bytes := bytes), free)
  {
    var p' := p.(bytes := bytes);
    forall k | 0 <= k < |free|
      ensures LinkAt(p', free, k)
    {
      var j := free[k];
      assert LinkAt(p, free, k);
      ChunkInside(p, j);
      StartsApart(if i < j then i else j, if i < j then j else i, p.size);
      LoadSame(p.bytes, bytes, Start(j, p.size));
    }
  }

  lemma AllocateInv(p: Pool, free: seq<nat>)
    requires Inv(p, free) && free != [] && Touches(p, Allocate)
    ensures Inv(Next(p, Allocate), free[1..])
  {
    var p' := Next(p, Allocate);
    assert LinkAt(p, free, 0);
    forall k | 0 <= k < |free[1..]|
      ensures free[1..][k] < p.amount && LinkAt(p', free[1..], k)
    {
      assert LinkAt(p, free, k + 1) && free[1..][k] == free[k + 1];
    }
  }

  lemma DeallocateInv(p: Pool, free: seq<nat>, i: nat)
    requires Inv(p, free) && i in Held(p, free) && Touches(p, Deallocate(p.Address(i)))
    ensures Inv(Next(p, Deallocate(p.Address(i))), [i] + free)
  {
    ChunkInside(p, i);
    var bytes := Store(p.bytes, Start(i, p.size), p.head);
    LinksFrame(p, free, bytes, i);
    var p' := Next(p, Deallocate(p.Address(i)));
    assert p' == p.(bytes := bytes, head := p.Address(i));
    if free != [] { ChunkInside(p, free[0]); }
    LoadStored(p.bytes, Start(i, p.size), p.head);
    var longer := [i] + free;
    forall k | 0 <= k < |longer|
      ensures longer[k] < p.amount && LinkAt(p', longer, k)
    {
      if k > 0 { assert LinkAt(p.(bytes := bytes), free, k - 1) && longer[k] == free[k - 1]; }
    }
  }

  lemma NextInv(p: Pool, free: seq<nat>, step: Step)
    requires Inv(p, free) && Permitted(p, free, step)
    ensures Touches(p, step) && Inv(Next(p, step), NextFree(p, free, step))
  {
    PermittedTouches(p, free, step);
    match step {
      case Allocate =>
        if free != [] { AllocateInv(p, free); }
      case Deallocate(a) =>
        if a != 0 {
          var i :| i in Held(p, free) && a == p.Address(i);
          ChunkInside(p, i);
          DeallocateInv(p, free, i);
        }
      case Write(a, v) =>
        var i :| i in Held(p, free) && InChunk(p, i, a);
        LinksFrame(p, free, p.bytes[a - p.base := v], i);
    }
  }

  // Theorems about one step.

  /** Free and held chunks partition the pool. */
  lemma Partition(p: Pool, free: seq<nat>)
    requires Inv(p, free)
    ensures Elements(free) !! Held(p, free) && Elements(free) + Held(p, free) == Below(p.amount)
    ensures |free| + |Held(p, free)| == p.amount
  {
    DistinctCount(free);
    assert Elements(free) + Held(p, free) == Below(p.amount);
  }

  /** The head is null exactly when every chunk is held. */
  lemma NullWhenAllHeld(p: Pool, free: seq<nat>)
    requires Inv(p, free)
    ensures p.head == 0 <==> |Held(p, free)| == p.amount
  {
    Partition(p, free);
  }

  /** Allocate hands out a chunk nobody holds, and only that chunk changes hands. */
  lemma AllocateHands(p: Pool, free: seq<nat>)
    requires Inv(p, free) && p.head != 0
    ensures p.head == p.Address(free[0]) && free[0] < p.amount && free[0] !in Held(p, free)
    ensures Touches(p, Allocate) && Next(p, Allocate).bytes == p.bytes
    ensures Held(Next(p, Allocate), NextFree(p, free, Allocate)) == Held(p, free) + {free[0]}
  {
    PermittedTouches(p, free, Allocate);
    assert free == [free[0]] + free[1..];
  }

  lemma DeallocateTakes(p: Pool, free: seq<nat>, i: nat)
    requires Inv(p, free) && i in Held(p, free)
    ensures Touches(p, Deallocate(p.Address(i)))
    ensures
      var step := Deallocate(p.Address(i));
      Held(Next(p, step), NextFree(p, free, step)) == Held(p, free) - {i} && NextFree(p, free, step) == [i] + free
  {
    ChunkInside(p, i);
  }

  /** What was given back last is handed out first. */
  lemma LastFreedFirst(p: Pool, free: seq<nat>, i: nat)
    requires Inv(p, free) && i in Held(p, free)
    ensures
      var step := Deallocate(p.Address(i));
      && Touches(p, step) && Next(p, step).head == p.Address(i)
      && Touches(Next(p, step), Allocate) && Next(Next(p, step), Allocate).head == p.head
  {
    var step := Deallocate(p.Address(i));
    DeallocateTakes(p, free, i);
    NextInv(p, free, step);
    NextInv(Next(p, step), [i] + free, Allocate);
    AllocateHands(Next(p, step), [i] + free);
    assert ([i] + free)[1..] == free;
    if free != [] { ChunkInside(p, free[0]); }
  }

  /** Chunks never overlap and never leave the pool. */
  lemma ChunksApart(p: Pool, i: nat, j: nat)
    requires p.Laid() && i < p.amount && j < p.amount && i != j
    ensures forall a: nat :: InChunk(p, i, a) ==> !InChunk(p, j, a) && p.base <= a < p.base + |p.bytes|
  {
    ChunkInside(p, i);
    StartsApart(if i < j then i else j, if i < j then j else i, p.size);
  }

  /** Objects that fit their chunks do not overlap either. */
  lemma ObjectsApart(p: Pool, free: seq<nat>, objectSize: nat, i: nat, j: nat)
    requires Inv(p, free) && objectSize <= p.size && i in Held(p, free) && j in Held(p, free) && i != j
    ensures p.Address(i) + objectSize <= p.Address(j) || p.Address(j) + objectSize <= p.Address(i)
    ensures p.base <= p.Address(i) && p.Address(i) + objectSize <= p.base + |p.bytes|
  {
    ChunkInside(p, i);
    StartsApart(if i < j then i else j, if i < j then j else i, p.size);
  }

  function Chunk(p: Pool, i: nat): seq<byte>
    requires p.Laid() && i < p.amount
  {
    ChunkInside(p, i);
    p.bytes[Start(i, p.size)..Start(i, p.size) + p.size]
  }

  predicate LeavesAlone(p: Pool, i: nat, step: Step) {
    match step
    case Allocate => true
    case Deallocate(a) => a != p.Address(i)
    case Write(a, v) => !InChunk(p, i, a)
  }

  /** A held chunk that is neither given back nor written by its holder stays held and keeps its
      bytes, whatever happens to the other chunks. */
  lemma HeldChunkKept(p: Pool, free: seq<nat>, step: Step, i: nat)
    requires Inv(p, free) && Permitted(p, free, step) && i in Held(p, free) && LeavesAlone(p, i, step)
    ensures Touches(p, step) && Next(p, step).Laid() && Next(p, step).amount == p.amount
    ensures i in Held(Next(p, step), NextFree(p, free, step))
    ensures Chunk(Next(p, step), i) == Chunk(p, i)
  {
    PermittedTouches(p, free, step);
    ChunkInside(p, i);
    if step.Deallocate? && step.address != 0 {
      var j :| j in Held(p, free) && step.address == p.Address(j);
      DeallocateTakes(p, free, j);
      ChunksApart(p, i, j);
      StartsApart(if i < j then i else j, if i < j then j else i, p.size);
    }
  }

  // Whole runs.

  ghost predicate Runs(p: Pool, free: seq<nat>, steps: seq<Step>, p': Pool, free': seq<nat>)
    decreases |steps|
  {
    if steps == [] then p' == p && free' == free
    else
      && p.Laid() && Permitted(p, free, steps[0]) && Touches(p, steps[0])
      && Runs(Next(p, steps[0]), NextFree(p, free, steps[0]), steps[1..], p', free')
  }

  lemma {:induction false} RunInv(p: Pool, free: seq<nat>, steps: seq<Step>, p': Pool, free': seq<nat>)
    requires Inv(p, free) && Runs(p, free, steps, p', free')
    ensures Inv(p', free') && p'.base == p.base && p'.size == p.size && p'.amount == p.amount
    decreases |steps|
  {
    if steps != [] {
      NextInv(p, free, steps[0]);
      RunInv(Next(p, steps[0]), NextFree(p, free, steps[0]), steps[1..], p', free');
    }
  }

  /** Over any run, a chunk that its holder leaves alone stays held and keeps its bytes. */
  lemma {:induction false} RunKeepsHeld(p: Pool, free: seq<nat>, steps: seq<Step>, p': Pool, free': seq<nat>, i: nat)
    requires Inv(p, free) && Runs(p, free, steps, p', free') && i in Held(p, free)
    requires forall k :: 0 <= k < |steps| ==> LeavesAlone(p, i, steps[k])
    ensures p'.Laid() && i in Held(p', free') && Chunk(p', i) == Chunk(p, i)
    decreases |steps|
  {
    if steps != [] {
      var q, rest := Next(p, steps[0]), steps[1..];
      HeldChunkKept(p, free, steps[0], i);
      NextInv(p, free, steps[0]);
      NextShape(p, steps[0]);
      forall k | 0 <= k < |rest|
        ensures LeavesAlone(q, i, rest[k])
      {
        SameShape(p, q, i, steps[k + 1]);
      }
      hide Inv, Held, Next, NextFree, LeavesAlone, Permitted, Touches, Chunk;
      RunKeepsHeld(q, NextFree(p, free, steps[0]), rest, p', free', i);
    }
  }

  lemma NextShape(p: Pool, step: Step)
    requires Touches(p, step)
    ensures var q := Next(p, step); q.base == p.base && q.size == p.size && q.amount == p.amount
  {
  }

  lemma SameShape(p: Pool, q: Pool, i: nat, step: Step)
    requires q.base == p.base && q.size == p.size && LeavesAlone(p, i, step)
    ensures LeavesAlone(q, i, step)
  {
  }

  // Threading the list through a new pool.

  function InOrder(amount: nat): seq<nat> {
    seq(amount, i => i)
  }

  predicate LinkedTo(p: Pool, i: nat, address: nat)
    requires p.Laid() && i < p.amount
  {
    ChunkInside(p, i);
    Load(p.bytes, Start(i, p.size)) == address
  }

  predicate LinkedOn(p: Pool, i: nat)
    requires p.Laid() && i < p.amount
  {
    LinkedTo(p, i, p.Address(i + 1))
  }

  /** The first n chunks refer each to the next. */
  predicate Threaded(p: Pool, n: nat)
    requires p.Laid() && n < p.amount
  {
    forall i :: 0 <= i < n ==> LinkedOn(p, i)
  }

  lemma ThreadOne(p: Pool, n: nat, address: nat)
    requires p.Laid() && n < p.amount && Threaded(p, n) && address < Pow256(ADDRESS_BYTES)
    ensures p.Inside(p.Address(n))
    ensures
      var p' := p.(bytes := Store(p.bytes, Start(n, p.size), address));
      p'.Laid() && Threaded(p', n) && LinkedTo(p', n, address)
  {
    ChunkInside(p, n);
    var p' := p.(bytes := Store(p.bytes, Start(n, p.size), address));
    LoadStored(p.bytes, Start(n, p.size), address);
    forall i | 0 <= i < n
      ensures LinkedOn(p', i)
    {
      assert LinkedOn(p, i);
      StartsApart(i, n, p.size);
      LoadSame(p.bytes, p'.bytes, Start(i, p.size));
    }
  }

  lemma NoneThreaded(p: Pool)
    requires p.Laid()
    ensures Threaded(p, 0)
  {
  }

  lemma OneMoreThreaded(p: Pool, p': Pool, n: nat)
    requires p.Laid() && p'.Laid() && n + 1 < p.amount == p'.amount && p'.base == p.base && p'.size == p.size
    requires Threaded(p', n) && LinkedTo(p', n, p.Address(n + 1))
    ensures Threaded(p', n + 1)
  {
  }

  lemma ThreadedInv(p: Pool)
    requires p.Laid() && Threaded(p, p.amount - 1) && LinkedTo(p, p.amount - 1, 0) && p.head == p.base
    ensures Inv(p, InOrder(p.amount)) && Held(p, InOrder(p.amount)) == {}
  {
    var free := InOrder(p.amount);
    forall k | 0 <= k < p.amount
      ensures LinkAt(p, free, k) && k in free
    {
      assert free[k] == k;
      if k < p.amount - 1 { assert LinkedOn(p, k); }
    }
  }

  class MemoryManager {
    const memory: array<byte>
    const base: nat
    const chunkSize: nat
    var freeListHead: nat
    ghost const amount: nat
    ghost var free: seq<nat>

    ghost function State(): Pool
      reads this, memory
    {
      Pool(base, chunkSize, amount, memory[..], freeListHead)
    }

    ghost predicate Valid()
      reads this, memory
    {
      Inv(State(), free)
    }

    method StoreAddress(at: nat, address: nat)
      requires at + ADDRESS_BYTES <= memory.Length
      modifies memory
      ensures memory[..] == Store(old(memory[..]), at, address)
    {
      var bytes := Encode(address, ADDRESS_BYTES);
      forall k | 0 <= k < ADDRESS_BYTES {
        memory[at + k] := bytes[k];
      }
    }

    /** `where` is the address at which the pool is allocated.  The loop runs to `Amount - 1`, which
        wraps around when Amount is 0, so that the source needs at least one chunk. */
    constructor (objectSize: nat, amount: nat, where: nat)
      requires 0 < amount && 0 < where && where + Start(amount, ChunkSize(objectSize)) <= Pow256(ADDRESS_BYTES)
      ensures Valid() && free == InOrder(amount) && Held(State(), free) == {}
      ensures objectSize <= chunkSize && 8 <= chunkSize && (chunkSize == objectSize || chunkSize == 8)
      ensures base == where && chunkSize == ChunkSize(objectSize) && this.amount == amount && fresh(memory)
    {
      base := where;
      chunkSize := ChunkSize(objectSize);
      this.amount := amount;
      memory := new byte[Start(amount, ChunkSize(objectSize))];
      freeListHead := where;
      free := InOrder(amount);
      new;
      ThreadAll(amount);
    }

    /** The loop of the constructor. */
    method ThreadAll(amount: nat)
      requires amount == this.amount && State().Laid() && freeListHead == base && free == InOrder(amount)
      modifies memory
      ensures Valid() && Held(State(), free) == {}
    {
      hide Inv, Distinct, Load, Store, Threaded, LinkedTo, Start;
      NoneThreaded(State());
      NextStart(0, chunkSize);
      var current := base;
      for i := 0 to amount - 1
        invariant current == base + Start(i, chunkSize)
        invariant State().Laid() && Threaded(State(), i)
      {
        var next := current + chunkSize;
        NextStart(i, chunkSize);
        ChunkInside(State(), i + 1);
        ThreadOne(State(), i, next);
        ghost var before := State();
        StoreAddress(current - base, next);
        OneMoreThreaded(before, State(), i);
        current := next;
      }
      ThreadOne(State(), amount - 1, 0);
      StoreAddress(current - base, 0);
      ThreadedInv(State());
    }

    method Allocate() returns (address: nat)
      requires Valid()
      modifies this`freeListHead, this`free
      ensures Touches(old(State()), Step.Allocate) && State() == Next(old(State()), Step.Allocate)
      ensures Valid() && free == NextFree(old(State()), old(free), Step.Allocate)
      ensures address == 0 <==> |old(Held(State(), free))| == amount
      ensures address != 0 ==>
        && old(free) != []
        && var i := old(free)[0];
        address == State().Address(i) && i !in old(Held(State(), free)) && Held(State(), free) == old(Held(State(), free)) + {i}
    {
      NullWhenAllHeld(State(), free);
      NextInv(State(), free, Step.Allocate);
      if freeListHead == 0 {
        return 0;
      }
      AllocateHands(State(), free);
      address := freeListHead;
      freeListHead := LoadAddress(address - base);
      free := free[1..];
    }

    method LoadAddress(at: nat) returns (address: nat)
      requires at + ADDRESS_BYTES <= memory.Length
      ensures address == Load(memory[..], at)
    {
      assert memory[..][at..at + ADDRESS_BYTES] == memory[at..at + ADDRESS_BYTES];
      address := Decode(memory[at..at + ADDRESS_BYTES]);
    }

    method Deallocate(address: nat)
      requires Valid() && Permitted(State(), free, Step.Deallocate(address))
      modifies this`freeListHead, this`free, memory
      ensures Touches(old(State()), Step.Deallocate(address)) && State() == Next(old(State()), Step.Deallocate(address))
      ensures Valid() && free == NextFree(old(State()), old(free), Step.Deallocate(address))
      ensures address == 0 ==> freeListHead == old(freeListHead) && memory[..] == old(memory[..]) && free == old(free)
      ensures address != 0 ==>
        && freeListHead == address && base <= address && |free| == |old(free)| + 1 && free[1..] == old(free)
        && State().Address(free[0]) == address && Held(State(), free) == old(Held(State(), free)) - {free[0]}
        && forall k :: 0 <= k < memory.Length && !(address <= base + k < address + 8) ==> memory[k] == old(memory[k])
    {
      NextInv(State(), free, Step.Deallocate(address));
      if address == 0 {
        return;
      }
      ghost var i :| i in Held(State(), free) && address == State().Address(i);
      DeallocateTakes(State(), free, i);
      ChunkInside(State(), i);
      free := NextFree(State(), free, Step.Deallocate(address));
      StoreAddress(address - base, freeListHead);
      freeListHead := address;
    }

    /** A store by whoever holds the chunk. */
    method UserWrite(address: nat, value: byte)
      requires Valid() && Permitted(State(), free, Step.Write(address, value))
      modifies memory
      ensures Touches(old(State()), Step.Write(address, value)) && State() == Next(old(State()), Step.Write(address, value))
      ensures Valid() && free == old(free) && base <= address < base + memory.Length
      ensures memory[..] == old(memory[..])[address - base := value]
    {
      NextInv(State(), free, Step.Write(address, value));
      memory[address - base] := value;
    }
  }
}
