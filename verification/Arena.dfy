/** The bump arena, with the 64-bit arithmetic of its alignment macro. */
module Arena {
  import opened Bits
  import opened Wrappers

  const WORD: nat := 0x1_0000_0000_0000_0000
  const ALIGN: nat := 8

  /** The macro ALIGN_UP_POW2 on unsigned words: the sum wraps around, and the complement of
      ALIGN - 1 is WORD - ALIGN. */
  function AlignUp(x: nat): nat {
    BitAnd((x + ALIGN - 1) % WORD, WORD - ALIGN)
  }

  predicate Aligned(x: nat) {
    x % ALIGN == 0
  }

  function LeastAligned(x: nat): nat {
    RoundDown(x + ALIGN - 1, ALIGN)
  }

  lemma LeastAlignedIsLeast(x: nat)
    ensures Aligned(LeastAligned(x)) && x <= LeastAligned(x) < x + ALIGN
    ensures forall y: nat :: Aligned(y) && x <= y ==> LeastAligned(x) <= y
  {
  }

  lemma MaskRoundsDown(x: nat)
    requires x < WORD
    ensures BitAnd(x, WORD - ALIGN) == RoundDown(x, ALIGN)
  {
    Pow2Word();
    assert Pow2(3) == ALIGN;
    hide Pow2, BitAnd;
    ComplementMaskRoundsDown(x, 3, 64);
  }

  /** The macro yields the least aligned position, except in the last few words below the wrap
      around, where it yields 0. */
  lemma AlignUpMeaning(x: nat)
    requires x < WORD
    ensures x <= WORD - ALIGN ==> AlignUp(x) == LeastAligned(x)
    ensures x > WORD - ALIGN ==> AlignUp(x) == 0
  {
    hide BitAnd;
    MaskRoundsDown((x + ALIGN - 1) % WORD);
  }

  /** What a mem_arena holds; positions are offsets from `memory`. */
  datatype State = State(capacity: nat, pos: nat, bytes: seq<byte>) {
    predicate Fits() {
      pos <= capacity < WORD && |bytes| == capacity
    }
  }

  function Zeros(n: nat): seq<byte> {
    seq(n, _ => 0)
  }

  predicate Fails(capacity: nat, pos: nat, size: nat) {
    AlignUp(pos) > capacity || size > capacity - AlignUp(pos)
  }

  /** The offset handed out, if any, and the new state. */
  function Push(s: State, size: nat, zero: bool): (r: (Option<nat>, State))
    requires s.Fits()
  {
    if Fails(s.capacity, s.pos, size) then (None, s)
    else
      var at := AlignUp(s.pos);
      (Some(at),
       s.(pos := (at + size) % WORD,
          bytes := if zero then s.bytes[..at] + Zeros(size) + s.bytes[at + size..] else s.bytes))
  }

  /** The least aligned position leaves too little room. */
  predicate NoRoom(capacity: nat, pos: nat, size: nat) {
    LeastAligned(pos) + size > capacity
  }

  /** The check decides by room exactly when the alignment does not wrap around, or when the
      request is larger than the whole arena anyway. */
  lemma CheckMeansNoRoom(capacity: nat, pos: nat, size: nat)
    requires pos <= capacity < WORD
    ensures (Fails(capacity, pos, size) <==> NoRoom(capacity, pos, size)) <==> (pos <= WORD - ALIGN || size > capacity)
  {
    AlignUpMeaning(pos);
    LeastAlignedIsLeast(pos);
  }

  predicate CheckIsExact(capacity: nat, pos: nat, size: nat) {
    Fails(capacity, pos, size) <==> NoRoom(capacity, pos, size)
  }

  /** Over every position and request, the check decides by room if and only if the capacity is at
      most 2^64 - 8. */
  lemma ExactCapacities(capacity: nat)
    requires capacity < WORD
    ensures (forall pos, size :: 0 <= pos <= capacity && 0 <= size < WORD ==> CheckIsExact(capacity, pos, size))
            <==> capacity <= WORD - ALIGN
  {
    forall pos, size | 0 <= pos <= capacity && 0 <= size < WORD
      ensures CheckIsExact(capacity, pos, size) <==> (pos <= WORD - ALIGN || size > capacity)
    {
      CheckMeansNoRoom(capacity, pos, size);
    }
    assert CheckIsExact(capacity, capacity, 0) <==> capacity <= WORD - ALIGN;
  }

  // What has been handed out, in order.

  datatype Range = Range(start: nat, size: nat)

  ghost predicate Inv(s: State, ranges: seq<Range>) {
    && s.Fits() && s.capacity <= WORD - ALIGN
    && (forall i :: 0 <= i < |ranges| ==> Aligned(ranges[i].start) && ranges[i].start + ranges[i].size <= s.pos)
    && forall i, j :: 0 <= i < j < |ranges| ==> ranges[i].start + ranges[i].size <= ranges[j].start
  }

  function Handed(ranges: seq<Range>, r: Option<nat>, size: nat): seq<Range> {
    if r.None? then ranges else ranges + [Range(r.value, size)]
  }

  predicate Zeroed(r: Option<nat>, size: nat, zero: bool, k: int) {
    r.Some? && zero && r.value <= k < r.value + size
  }

  /** For every capacity: what a push returns, where it leaves the position, and which bytes it
      changes. */
  lemma PushEffect(s: State, size: nat, zero: bool)
    requires s.Fits() && size < WORD
    ensures
      var (r, s') := Push(s, size, zero);
      && s'.Fits() && s'.capacity == s.capacity
      && (r.None? <==> AlignUp(s.pos) + size > s.capacity) && (r.None? ==> s' == s)
      && (r.Some? ==> r.value == AlignUp(s.pos) && s'.pos == r.value + size)
      && forall k :: 0 <= k < s.capacity ==> s'.bytes[k] == if Zeroed(r, size, zero, k) then 0 else s.bytes[k]
  {
    hide AlignUp;
  }

  /** One push: it fails exactly for want of room, otherwise takes the least aligned position, and
      touches no byte below it. */
  lemma PushInv(s: State, ranges: seq<Range>, size: nat, zero: bool)
    requires Inv(s, ranges) && size < WORD
    ensures
      var (r, s') := Push(s, size, zero);
      && Inv(s', Handed(ranges, r, size)) && s'.capacity == s.capacity
      && (r.None? <==> NoRoom(s.capacity, s.pos, size)) && (r.None? ==> s' == s)
      && (r.Some? ==> r.value == LeastAligned(s.pos) && s'.pos == r.value + size)
      && s'.bytes[..s.pos] == s.bytes[..s.pos]
      && (r.Some? && zero ==> s'.bytes[r.value..r.value + size] == Zeros(size))
  {
    CheckMeansNoRoom(s.capacity, s.pos, size);
    AlignUpMeaning(s.pos);
    LeastAlignedIsLeast(s.pos);
  }

  datatype Request = Request(size: nat, zero: bool)

  function Run(s: State, ranges: seq<Range>, requests: seq<Request>): (r: (State, seq<Range>))
    requires s.Fits()
    requires s.capacity <= WORD - ALIGN && forall k :: 0 <= k < |requests| ==> requests[k].size < WORD
    decreases |requests|
  {
    if requests == [] then (s, ranges)
    else
      var (out, s') := Push(s, requests[0].size, requests[0].zero);
      PushInv(s, [], requests[0].size, requests[0].zero);
      Run(s', Handed(ranges, out, requests[0].size), requests[1..])
  }

  lemma {:induction false} RunInv(s: State, ranges: seq<Range>, requests: seq<Request>)
    requires Inv(s, ranges) && forall k :: 0 <= k < |requests| ==> requests[k].size < WORD
    ensures
      var (s', ranges') := Run(s, ranges, requests);
      && Inv(s', ranges') && ranges <= ranges' && s.pos <= s'.pos && s'.capacity == s.capacity
      && s'.bytes[..s.pos] == s.bytes[..s.pos]
    decreases |requests|
  {
    if requests != [] {
      var (out, q) := Push(s, requests[0].size, requests[0].zero);
      PushInv(s, ranges, requests[0].size, requests[0].zero);
      LeastAlignedIsLeast(s.pos);
      var longer := Handed(ranges, out, requests[0].size);
      RunInv(q, longer, requests[1..]);
      var (s', ranges') := Run(q, longer, requests[1..]);
      assert s'.bytes[..s.pos] == s'.bytes[..q.pos][..s.pos];
      assert s.bytes[..s.pos] == q.bytes[..q.pos][..s.pos];
    }
  }

  /** All ranges handed out over a run from a new arena are aligned, inside the arena and pairwise
      disjoint. */
  lemma RangesDisjoint(capacity: nat, bytes: seq<byte>, requests: seq<Request>)
    requires capacity <= WORD - ALIGN && |bytes| == capacity
    requires forall k :: 0 <= k < |requests| ==> requests[k].size < WORD
    ensures
      var ranges := Run(State(capacity, 0, bytes), [], requests).1;
      && (forall i :: 0 <= i < |ranges| ==> Aligned(ranges[i].start) && ranges[i].start + ranges[i].size <= capacity)
      && forall i, j, a :: 0 <= i < |ranges| && 0 <= j < |ranges| && i != j && In(ranges[i], a) ==> !In(ranges[j], a)
  {
    RunInv(State(capacity, 0, bytes), [], requests);
  }

  predicate In(r: Range, a: int) {
    r.start <= a < r.start + r.size
  }

  /** Later pushes never write into what a push handed out, zeroing included. */
  lemma ContentsKept(s: State, ranges: seq<Range>, requests: seq<Request>, i: nat)
    requires Inv(s, ranges) && i < |ranges| && forall k :: 0 <= k < |requests| ==> requests[k].size < WORD
    ensures
      var (s', ranges') := Run(s, ranges, requests);
      var (lo, hi) := (ranges[i].start, ranges[i].start + ranges[i].size);
      |s'.bytes| == |s.bytes| && hi <= |s.bytes| && s'.bytes[lo..hi] == s.bytes[lo..hi]
  {
    RunInv(s, ranges, requests);
    var s' := Run(s, ranges, requests).0;
    var (lo, hi) := (ranges[i].start, ranges[i].start + ranges[i].size);
    assert s'.bytes[lo..hi] == s'.bytes[..s.pos][lo..hi] && s.bytes[lo..hi] == s.bytes[..s.pos][lo..hi];
  }

  /** Above that capacity two pushes can overlap: take everything, then one more byte. */
  lemma WrapAroundOverlaps(capacity: nat, bytes: seq<byte>)
    requires WORD - ALIGN < capacity < WORD && |bytes| == capacity
    ensures
      var (first, s) := Push(State(capacity, 0, bytes), capacity, false);
      var (second, s') := Push(s, 1, false);
      first == Some(0) && second == Some(0)
  {
    AlignUpMeaning(0);
    AlignUpMeaning(capacity);
    hide AlignUp;
    assert LeastAligned(0) == 0;
    var s := Push(State(capacity, 0, bytes), capacity, false).1;
    assert s.pos == capacity && AlignUp(s.pos) == 0;
  }

  class MemArena {
    const memory: array<byte>
    const capacity: nat
    var pos: nat

    ghost function Contents(): State
      reads this, memory
    {
      State(capacity, pos, memory[..])
    }

    ghost predicate Valid()
      reads this, memory
    {
      Contents().Fits()
    }

    /** arena_create, when both allocations succeed. */
    constructor (capacity: nat)
      requires capacity < WORD
      ensures Valid() && this.capacity == capacity && pos == 0 && fresh(memory)
    {
      memory := new byte[capacity];
      this.capacity := capacity;
      pos := 0;
    }
  }

  /** arena_push, the null arena included; the result is an offset into the arena's memory. */
  method ArenaPush(arena: MemArena?, size: nat, zero: bool) returns (out: Option<nat>)
    requires size < WORD && (arena != null ==> arena.Valid())
    modifies arena, if arena == null then {} else {arena.memory}
    ensures arena == null ==> out == None
    ensures arena != null ==> arena.Valid() && (out, arena.Contents()) == Push(old(arena.Contents()), size, zero)
  {
    if arena == null {
      return None;
    }
    var aligned := AlignUp(arena.pos);
    if aligned > arena.capacity || size > arena.capacity - aligned {
      return None;
    }
    arena.pos := (aligned + size) % WORD;
    ghost var before := arena.memory[..];
    if zero {
      forall k | aligned <= k < aligned + size {
        arena.memory[k] := 0;
      }
      assert arena.memory[..] == before[..aligned] + Zeros(size) + before[aligned + size..];
    }
    return Some(aligned);
  }
}
