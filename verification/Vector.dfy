/** The growable vector against the plain sequence it stands for, and what its growth costs. */
module Vector {

  datatype Result<T> = Ok(value: T) | OutOfRange

  // The cost of growth, over whole runs.

  /** How many elements reallocations have copied so far. */
  datatype Account = Account(size: nat, capacity: nat, copied: nat)

  datatype Op = PushBack | EmplaceBack | PopBack | Clear

  function Doubled(capacity: nat): nat {
    if capacity == 0 then 1 else capacity * 2
  }

  /** A full vector doubles, copying all it holds. */
  function Grown(a: Account): Account {
    if a.size == a.capacity then Account(a.size, Doubled(a.capacity), a.copied + a.size) else a
  }

  function NextAccount(a: Account, op: Op): Account {
    match op
    case PushBack => Grown(a).(size := a.size + 1)
    case EmplaceBack => Grown(a).(size := a.size + 1)
    case PopBack => if a.size > 0 then a.(size := a.size - 1) else a
    case Clear => a.(size := 0)
  }

  function RunAccount(a: Account, ops: seq<Op>): Account
    decreases |ops|
  {
    if ops == [] then a else RunAccount(NextAccount(a, ops[0]), ops[1..])
  }

  function Pushes(ops: seq<Op>): nat {
    if ops == [] then 0 else (if ops[0].PushBack? || ops[0].EmplaceBack? then 1 else 0) + Pushes(ops[1..])
  }

  /** After p pushes: everything copied so far is one less than the capacity, and the capacity was
      reached by more than half as many pushes. */
  predicate Amortized(a: Account, p: nat) {
    && a.size <= a.capacity && a.size <= p
    && a.copied == (if a.capacity == 0 then 0 else a.capacity - 1)
    && (a.capacity == 1 ==> 1 <= p)
    && (a.capacity >= 2 ==> a.capacity <= 2 * p - 2)
  }

  lemma {:induction false} RunAmortized(a: Account, p: nat, ops: seq<Op>)
    requires Amortized(a, p)
    ensures Amortized(RunAccount(a, ops), p + Pushes(ops))
    decreases |ops|
  {
    if ops != [] {
      var q := if ops[0].PushBack? || ops[0].EmplaceBack? then p + 1 else p;
      RunAmortized(NextAccount(a, ops[0]), q, ops[1..]);
    }
  }

  /** Over any run from an empty vector, growth copies fewer than two elements for every push. */
  lemma GrowthIsLinear(ops: seq<Op>)
    ensures
      var copied := RunAccount(Account(0, 0, 0), ops).copied;
      if Pushes(ops) == 0 then copied == 0 else copied < 2 * Pushes(ops)
  {
    RunAmortized(Account(0, 0, 0), 0, ops);
  }

  lemma Inserted<T>(s: seq<T>, before: seq<T>, index: nat, value: T)
    requires index <= |before| && |s| == |before| + 1 && s[index] == value
    requires forall k :: 0 <= k < index ==> s[k] == before[k]
    requires forall k :: index < k < |s| ==> s[k] == before[k - 1]
    ensures s == before[..index] + [value] + before[index..]
  {
  }

  class Vector<T(0)> {
    var data: array?<T>
    var size: nat
    var capacity: nat
    /** Elements copied or moved by reallocations since the vector was built. */
    ghost var copied: nat

    ghost predicate Valid()
      reads this, data
    {
      && size <= capacity
      && if data == null then capacity == 0 else data.Length == capacity > 0
    }

    ghost function Contents(): (s: seq<T>)
      requires Valid()
      reads this, data
      ensures |s| == size
    {
      if data == null then [] else data[..size]
    }

    ghost function Bill(): Account
      reads this
    {
      Account(size, capacity, copied)
    }

    constructor ()
      ensures Valid() && Contents() == [] && Bill() == Account(0, 0, 0)
    {
      data := null;
      size, capacity, copied := 0, 0, 0;
    }

    method Resize(newCapacity: nat)
      requires Valid() && size <= newCapacity && 0 < newCapacity
      modifies this
      ensures Valid() && Contents() == old(Contents()) && fresh(data)
      ensures Bill() == Account(old(size), newCapacity, old(copied) + old(size))
    {
      var newData := new T[newCapacity];
      for i := 0 to size
        modifies newData
        invariant data != null ==> newData[..i] == data[..i]
      {
        newData[i] := data[i];
      }
      data := newData;
      capacity := newCapacity;
      copied := copied + size;
    }

    method PushBack(value: T)
      requires Valid()
      modifies this, data
      ensures Valid() && Contents() == old(Contents()) + [value]
      ensures Bill() == NextAccount(old(Bill()), Op.PushBack)
      ensures if old(size) == old(capacity) then fresh(data) else data == old(data)
    {
      if size == capacity {
        var newCapacity := if capacity == 0 then 1 else capacity * 2;
        Resize(newCapacity);
      }
      data[size] := value;
      size := size + 1;
    }

    method Get(index: nat) returns (r: Result<T>)
      requires Valid()
      ensures r == if index < |Contents()| then Ok(Contents()[index]) else OutOfRange
    {
      if index >= size {
        return OutOfRange;
      }
      return Ok(data[index]);
    }

    /** An assignment through the reference that the subscript operator returns. */
    method Put(index: nat, value: T) returns (r: Result<()>)
      requires Valid()
      modifies data
      ensures Valid() && (r.OutOfRange? <==> index >= size)
      ensures Contents() == if index < size then old(Contents())[index := value] else old(Contents())
    {
      if index >= size {
        return OutOfRange;
      }
      data[index] := value;
      return Ok(());
    }

    /** Never shrinks; afterwards `newCapacity` elements fit without another reallocation. */
    method Reserve(newCapacity: nat)
      requires Valid()
      modifies this
      ensures Valid() && Contents() == old(Contents()) && size == old(size)
      ensures
        if newCapacity <= old(capacity) then data == old(data) && Bill() == old(Bill())
        else fresh(data) && Bill() == Account(size, newCapacity, old(copied) + size)
    {
      if newCapacity <= capacity {
        return;
      }
      var newData := new T[newCapacity];
      for i := 0 to size
        modifies newData
        invariant data != null ==> newData[..i] == data[..i]
      {
        newData[i] := data[i];
      }
      data := newData;
      capacity := newCapacity;
      copied := copied + size;
    }

    /** Returns where the new element is. */
    method EmplaceBack(value: T) returns (at: nat)
      requires Valid()
      modifies this, data
      ensures Valid() && Contents() == old(Contents()) + [value] && at == old(size)
      ensures Bill() == NextAccount(old(Bill()), Op.EmplaceBack)
      ensures if old(size) == old(capacity) then fresh(data) else data == old(data)
    {
      if size == capacity {
        Reserve(if capacity == 0 then 1 else capacity * 2);
      }
      data[size] := value;
      at := size;
      size := size + 1;
    }

    /** Inserts before the element at `index`; positions are offsets from the first element. */
    method Emplace(index: nat, value: T) returns (at: nat)
      requires Valid() && index <= size
      modifies this, data
      ensures Valid() && at == index
      ensures Contents() == old(Contents())[..index] + [value] + old(Contents())[index..]
      ensures Bill() == NextAccount(old(Bill()), Op.PushBack)
      ensures if old(size) == old(capacity) then fresh(data) else data == old(data)
    {
      ghost var before := Contents();
      if size == capacity {
        Reserve(if capacity == 0 then 1 else capacity * 2);
      }
      var i := size;
      while i > index
        modifies data
        invariant index <= i <= size
        invariant forall k :: 0 <= k < i ==> data[k] == before[k]
        invariant forall k :: i < k <= size ==> data[k] == before[k - 1]
      {
        data[i] := data[i - 1];
        i := i - 1;
      }
      data[index] := value;
      size := size + 1;
      Inserted(data[..size], before, index, value);
      return index;
    }

    method PopBack()
      requires Valid()
      modifies this
      ensures Valid() && data == old(data) && Bill() == NextAccount(old(Bill()), Op.PopBack)
      ensures
        var before := old(Contents());
        Contents() == if before == [] then [] else before[..|before| - 1]
    {
      if size > 0 {
        size := size - 1;
      }
    }

    method Clear()
      requires Valid()
      modifies this
      ensures Valid() && data == old(data) && Contents() == [] && Bill() == NextAccount(old(Bill()), Op.Clear)
    {
      size := 0;
    }

    /** Afterwards there is no slack, and no buffer at all when the vector is empty. */
    method ShrinkToFit()
      requires Valid()
      modifies this
      ensures Valid() && Contents() == old(Contents()) && size == old(size) == capacity
      ensures size == 0 <==> data == null
      ensures data == old(data) || data == null || fresh(data)
    {
      if capacity == size {
        return;
      }
      if size == 0 {
        data := null;
        capacity := 0;
        return;
      }
      var newData := new T[size];
      for i := 0 to size
        modifies newData
        invariant newData[..i] == data[..i]
      {
        newData[i] := data[i];
      }
      data := newData;
      capacity := size;
      copied := copied + size;
    }
  }
}
