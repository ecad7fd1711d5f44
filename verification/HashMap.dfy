/** The intrusive chained hash map and the flat list it stands for: nodes newest first. */
module HashMap {
  import opened Bits
  import opened Sequences
  import opened Totals
  import opened Wrappers

  const WORD := 0x1_0000_0000_0000_0000

  /** A node embedded in the caller's payload; its hash does not change. */
  class HNode {
    const hcode: nat
    var next: HNode?

    constructor (hcode: nat)
      requires hcode < WORD
      ensures this.hcode == hcode && next == null
    {
      this.hcode := hcode;
      next := null;
    }
  }

  /** An incoming pointer: the place that holds a reference to a node. */
  datatype From = Slot(pos: nat) | NextOf(node: HNode)

  predicate Hit(n: HNode, key: HNode, eq: (HNode, HNode) -> bool) {
    n.hcode == key.hcode && eq(n, key)
  }

  /** The newest node that matches the key. */
  function Find(all: seq<HNode>, key: HNode, eq: (HNode, HNode) -> bool): (r: HNode?)
    ensures r == null <==> forall i :: 0 <= i < |all| ==> !Hit(all[i], key, eq)
    ensures r != null ==> r in all && Hit(r, key, eq)
  {
    if all == [] then null
    else if Hit(all[0], key, eq) then all[0]
    else Find(all[1..], key, eq)
  }

  function Remove(all: seq<HNode>, n: HNode): (r: seq<HNode>)
    ensures |r| <= |all| && forall x :: x in r ==> x in all
  {
    if all == [] then []
    else if all[0] == n then all[1..]
    else [all[0]] + Remove(all[1..], n)
  }

  function Pos(n: HNode, buckets: nat): nat
    requires 0 < buckets
  {
    n.hcode % buckets
  }

  /** The nodes of one bucket, newest first. */
  function Bucket(all: seq<HNode>, buckets: nat, pos: nat): (r: seq<HNode>)
    requires 0 < buckets
    ensures forall i :: 0 <= i < |r| ==> r[i] in all && Pos(r[i], buckets) == pos
    ensures forall x :: x in all && Pos(x, buckets) == pos ==> x in r
  {
    if all == [] then []
    else if Pos(all[0], buckets) == pos then [all[0]] + Bucket(all[1..], buckets, pos)
    else Bucket(all[1..], buckets, pos)
  }

  lemma FindCons(n: HNode, rest: seq<HNode>, key: HNode, eq: (HNode, HNode) -> bool)
    ensures Find([n] + rest, key, eq) == if Hit(n, key, eq) then n else Find(rest, key, eq)
  {
    assert ([n] + rest)[1..] == rest;
  }

  lemma FindStep(s: seq<HNode>, i: nat, key: HNode, eq: (HNode, HNode) -> bool)
    requires i < |s|
    ensures Find(s[i..], key, eq) == if Hit(s[i], key, eq) then s[i] else Find(s[i + 1..], key, eq)
  {
    assert s[i..][1..] == s[i + 1..];
  }

  /** What Find returns is the newest match: nothing newer matches. */
  lemma {:induction false} FindIsNewest(all: seq<HNode>, key: HNode, eq: (HNode, HNode) -> bool) returns (k: nat)
    requires Find(all, key, eq) != null
    ensures k < |all| && all[k] == Find(all, key, eq) && forall i :: 0 <= i < k ==> !Hit(all[i], key, eq)
  {
    if Hit(all[0], key, eq) {
      k := 0;
    } else {
      k := FindIsNewest(all[1..], key, eq);
      k := k + 1;
    }
  }

  /** Removing a node changes no search but those it matches, and those then see what is older. */
  lemma {:induction false} FindAfterRemove(all: seq<HNode>, n: HNode, key: HNode, eq: (HNode, HNode) -> bool)
    requires n in all
    ensures !Hit(n, key, eq) ==> Find(Remove(all, n), key, eq) == Find(all, key, eq)
    ensures all[0] == n ==> Find(Remove(all, n), key, eq) == Find(all[1..], key, eq)
  {
    if all[0] != n {
      FindAfterRemove(all[1..], n, key, eq);
      FindCons(all[0], Remove(all[1..], n), key, eq);
    }
  }

  /** Searching the right bucket is searching everything. */
  lemma {:induction false} FindInBucket(all: seq<HNode>, buckets: nat, key: HNode, eq: (HNode, HNode) -> bool)
    requires 0 < buckets
    ensures Find(Bucket(all, buckets, Pos(key, buckets)), key, eq) == Find(all, key, eq)
  {
    if all != [] {
      FindInBucket(all[1..], buckets, key, eq);
      FindCons(all[0], Bucket(all[1..], buckets, Pos(key, buckets)), key, eq);
      assert Hit(all[0], key, eq) ==> Pos(all[0], buckets) == Pos(key, buckets);
      hide Pos, Hit;
    }
  }

  lemma RemoveCons(first: HNode, rest: seq<HNode>, n: HNode)
    ensures Remove([first] + rest, n) == if first == n then rest else [first] + Remove(rest, n)
  {
    assert ([first] + rest)[1..] == rest;
  }

  lemma BucketCons(first: HNode, rest: seq<HNode>, buckets: nat, pos: nat)
    requires 0 < buckets
    ensures Bucket([first] + rest, buckets, pos)
         == (if Pos(first, buckets) == pos then [first] else []) + Bucket(rest, buckets, pos)
  {
    assert ([first] + rest)[1..] == rest;
  }

  /** Removing from everything is removing from one bucket. */
  lemma {:induction false} RemoveInBucket(all: seq<HNode>, buckets: nat, pos: nat, n: HNode)
    requires 0 < buckets
    ensures Bucket(Remove(all, n), buckets, pos)
         == if Pos(n, buckets) == pos then Remove(Bucket(all, buckets, pos), n) else Bucket(all, buckets, pos)
  {
    hide Pos;
    if all != [] {
      RemoveInBucket(all[1..], buckets, pos, n);
      RemoveCons(all[0], Bucket(all[1..], buckets, pos), n);
      BucketCons(all[0], Remove(all[1..], n), buckets, pos);
    }
  }

  lemma {:induction false} RemoveAt(all: seq<HNode>, k: nat)
    requires Distinct(all) && k < |all|
    ensures Remove(all, all[k]) == all[..k] + all[k + 1..]
  {
    if k > 0 {
      assert all[1..][k - 1] == all[k];
      RemoveAt(all[1..], k - 1);
    }
  }

  lemma RemoveKeeps(all: seq<HNode>, n: HNode)
    requires Distinct(all) && n in all
    ensures Distinct(Remove(all, n)) && |Remove(all, n)| == |all| - 1 && n !in Remove(all, n)
    ensures forall x :: x in Remove(all, n) <==> x in all && x != n
  {
    var k :| 0 <= k < |all| && all[k] == n;
    RemoveAt(all, k);
    hide Remove;
    forall x | x in all && x != n
      ensures x in all[..k] + all[k + 1..]
    {
      var i :| 0 <= i < |all| && all[i] == x;
      assert (all[..k] + all[k + 1..])[if i < k then i else i - 1] == x;
    }
  }

  /** Every node is in exactly one bucket, so the size of the map is the sum of its chain lengths. */
  lemma {:induction false} SizeIsSumOfChains(all: seq<HNode>, lengths: seq<int>)
    requires 0 < |lengths| && forall p :: 0 <= p < |lengths| ==> lengths[p] == |Bucket(all, |lengths|, p)|
    ensures Total(lengths, (n: int) => n) == |all|
  {
    var weight := (n: int) => n;
    if all == [] {
      TotalConstant(lengths, weight, 0);
    } else {
      var pos := Pos(all[0], |lengths|);
      var shorter := lengths[pos := lengths[pos] - 1];
      SizeIsSumOfChains(all[1..], shorter);
      TotalUpdate(lengths, weight, pos, lengths[pos] - 1);
    }
  }

  lemma {:induction false} BucketDistinct(all: seq<HNode>, buckets: nat, pos: nat)
    requires 0 < buckets && Distinct(all)
    ensures Distinct(Bucket(all, buckets, pos))
  {
    if all != [] {
      BucketDistinct(all[1..], buckets, pos);
    }
  }

  // Links as a value: what each node's `next` field holds.

  type Links = map<HNode, HNode?>

  predicate LinkAt(links: Links, s: seq<HNode>, i: nat)
    requires i < |s|
  {
    s[i] in links && links[s[i]] == if i + 1 < |s| then s[i + 1] else null
  }

  /** `first` and the links spell out s. */
  predicate Spells(links: Links, first: HNode?, s: seq<HNode>) {
    && first == (if s == [] then null else s[0])
    && forall i :: 0 <= i < |s| ==> LinkAt(links, s, i)
  }

  lemma SpellsFrame(links: Links, links': Links, first: HNode?, s: seq<HNode>)
    requires Spells(links, first, s)
    requires forall i :: 0 <= i < |s| ==> s[i] in links && s[i] in links' && links'[s[i]] == links[s[i]]
    ensures Spells(links', first, s)
  {
    forall i | 0 <= i < |s|
      ensures LinkAt(links', s, i)
    {
      assert LinkAt(links, s, i);
    }
  }

  lemma SpellsPrepend(links: Links, first: HNode?, s: seq<HNode>, node: HNode)
    requires Spells(links, first, s) && node in links && links[node] == first
    ensures Spells(links, node, [node] + s)
  {
    var longer := [node] + s;
    forall i | 0 <= i < |longer|
      ensures LinkAt(links, longer, i)
    {
      if i > 0 { assert LinkAt(links, s, i - 1) && longer[i] == s[i - 1]; }
    }
  }

  /** Taking out s[k] by making its predecessor, if it has one, refer to its successor. */
  lemma SpellsWithout(links: Links, first: HNode?, s: seq<HNode>, k: nat)
    requires Spells(links, first, s) && Distinct(s) && k < |s|
    ensures s[k] in links
    ensures
      var shorter := s[..k] + s[k + 1..];
      if k == 0 then Spells(links, links[s[k]], shorter)
      else Spells(links[s[k - 1] := links[s[k]]], first, shorter)
  {
    var shorter := s[..k] + s[k + 1..];
    assert LinkAt(links, s, k);
    var links' := if k == 0 then links else links[s[k - 1] := links[s[k]]];
    forall i | 0 <= i < |shorter|
      ensures LinkAt(links', shorter, i)
    {
      assert LinkAt(links, s, if i < k then i else i + 1);
    }
  }

  /** The slots and the links spell out every bucket of the flat list. */
  predicate Spelled(links: Links, firsts: seq<HNode?>, all: seq<HNode>)
    requires 0 < |firsts|
  {
    forall p :: 0 <= p < |firsts| ==> Spells(links, firsts[p], Bucket(all, |firsts|, p))
  }

  /** What the links become when the k-th node of a chain is detached. */
  ghost function Detached(links: Links, chain: seq<HNode>, k: nat): Links
    requires k < |chain| && chain[k] in links
  {
    (if k == 0 then links else links[chain[k - 1] := links[chain[k]]]) - {chain[k]}
  }

  ghost function DetachedFirsts(links: Links, firsts: seq<HNode?>, chain: seq<HNode>, pos: nat, k: nat): (r: seq<HNode?>)
    requires pos < |firsts| && k < |chain| && chain[k] in links
    ensures |r| == |firsts|
  {
    if k == 0 then firsts[pos := links[chain[k]]] else firsts
  }

  /** Detaching from one chain leaves every bucket p spelled out. */
  lemma DetachBucket(links: Links, first: HNode?, all: seq<HNode>, buckets: nat, pos: nat, k: nat, p: nat)
    requires 0 < buckets && Distinct(all) && k < |Bucket(all, buckets, pos)|
    requires Bucket(all, buckets, pos)[k] in links && Spells(links, first, Bucket(all, buckets, p))
    ensures
      var chain := Bucket(all, buckets, pos);
      Spells(Detached(links, chain, k), if p == pos && k == 0 then links[chain[k]] else first,
             Bucket(Remove(all, chain[k]), buckets, p))
  {
    var chain, other := Bucket(all, buckets, pos), Bucket(all, buckets, p);
    RemoveInBucket(all, buckets, p, chain[k]);
    BucketDistinct(all, buckets, pos);
    forall i | 0 <= i < |other|
      ensures other[i] in links && (p != pos ==> other[i] !in chain)
    {
      assert LinkAt(links, other, i);
    }
    hide Bucket, Remove, Pos;
    if p == pos {
      RemoveAt(chain, k);
      DetachChain(links, first, chain, k);
    } else {
      SpellsFrame(links, Detached(links, chain, k), first, other);
    }
  }

  lemma DetachChain(links: Links, first: HNode?, chain: seq<HNode>, k: nat)
    requires Distinct(chain) && k < |chain| && chain[k] in links && Spells(links, first, chain)
    ensures Spells(Detached(links, chain, k), if k == 0 then links[chain[k]] else first, chain[..k] + chain[k + 1..])
  {
    SpellsWithout(links, first, chain, k);
    var shorter, links' := chain[..k] + chain[k + 1..], if k == 0 then links else links[chain[k - 1] := links[chain[k]]];
    forall i | 0 <= i < |shorter|
      ensures shorter[i] in links' && shorter[i] != chain[k]
    {
      assert LinkAt(links', shorter, i);
    }
    SpellsFrame(links', Detached(links, chain, k), if k == 0 then links[chain[k]] else first, shorter);
  }

  lemma DetachSpelled(links: Links, firsts: seq<HNode?>, all: seq<HNode>, pos: nat, k: nat)
    requires pos < |firsts| && Distinct(all) && k < |Bucket(all, |firsts|, pos)| && Spelled(links, firsts, all)
    ensures
      var chain := Bucket(all, |firsts|, pos);
      && chain[k] in links && firsts[pos] == chain[0]
      && (k > 0 ==> chain[k - 1] in links && links[chain[k - 1]] == chain[k] && chain[k - 1] != chain[k])
      && Spelled(Detached(links, chain, k), DetachedFirsts(links, firsts, chain, pos, k), Remove(all, chain[k]))
  {
    var buckets, chain := |firsts|, Bucket(all, |firsts|, pos);
    BucketDistinct(all, buckets, pos);
    assert Spells(links, firsts[pos], chain) && LinkAt(links, chain, k);
    if k > 0 { assert LinkAt(links, chain, k - 1); }
    forall p | 0 <= p < buckets
      ensures Spells(Detached(links, chain, k), if p == pos && k == 0 then links[chain[k]] else firsts[p],
                     Bucket(Remove(all, chain[k]), buckets, p))
    {
      DetachBucket(links, firsts[p], all, buckets, pos, k, p);
    }
  }

  class Map {
    const slots: array<HNode?>
    const mask: nat
    var size: nat
    /** Every node in the map, newest first. */
    ghost var all: seq<HNode>

    ghost predicate Valid()
      reads this, slots, all
    {
      && 0 < slots.Length && mask == slots.Length - 1 && IsPow2(slots.Length)
      && size == |all| && Distinct(all)
      && Spelled(Nexts(), slots[..], all)
    }

    ghost function Nexts(): Links
      reads this, all
    {
      map n | n in all :: n.next
    }

    lemma NextsAre(links: Links)
      requires forall x :: x in links <==> x in all
      requires forall x :: x in all ==> x in links && links[x] == x.next
      ensures links == Nexts()
    {
    }

    /** The assertion of the constructor is its precondition. */
    constructor (n: nat)
      requires 0 < n && BitAnd(n - 1, n) == 0
      ensures Valid() && all == [] && slots.Length == n && fresh(slots)
    {
      PowerOfTwoTest(n);
      slots := new HNode?[n](_ => null);
      mask := n - 1;
      size, all := 0, [];
    }

    lemma PosIsBucket(n: HNode)
      requires Valid()
      ensures BitAnd(n.hcode, mask) == Pos(n, slots.Length) < slots.Length
    {
      var k: nat :| slots.Length == Pow2(k);
      MaskIsModulo(n.hcode, k);
    }

    /** The node goes to the front of its chain. */
    method Insert(node: HNode)
      requires Valid() && node !in all
      modifies this`size, this`all, slots, node`next
      ensures Valid() && all == [node] + old(all)
      ensures forall x :: x in old(all) ==> x.next == old(x.next)
      ensures
        var pos := Pos(node, slots.Length);
        node.next == old(slots[..])[pos] && slots[..] == old(slots[..])[pos := node]
    {
      ghost var links, n := Nexts(), slots.Length;
      PosIsBucket(node);
      var pos := BitAnd(node.hcode, mask);
      var next := slots[pos];
      node.next := next;
      slots[pos] := node;
      size := size + 1;
      ghost var before := all;
      all := [node] + all;
      assert Nexts() == links[node := next];
      forall p | 0 <= p < n
        ensures Spells(Nexts(), slots[p], Bucket(all, n, p))
      {
        BucketCons(node, before, n, p);
        SpellsFrame(links, Nexts(), if p == pos then next else slots[p], Bucket(before, n, p));
        if p == pos {
          SpellsPrepend(Nexts(), next, Bucket(before, n, p), node);
        }
      }
    }

    /** The place that refers to the k-th node of a chain. */
    ghost function Place(chain: seq<HNode>, pos: nat, k: nat): From
      requires k <= |chain|
    {
      if k == 0 then Slot(pos) else NextOf(chain[k - 1])
    }

    /** The incoming pointer to the newest node that matches, found along one chain. */
    method LookupFrom(key: HNode, eq: (HNode, HNode) -> bool) returns (from: Option<From>, ghost k: nat)
      requires Valid()
      ensures from.None? <==> Find(all, key, eq) == null
      ensures from.Some? ==>
        var pos := Pos(key, slots.Length);
        var chain := Bucket(all, slots.Length, pos);
        k < |chain| && chain[k] == Find(all, key, eq) && from.value == Place(chain, pos, k)
    {
      PosIsBucket(key);
      var pos := BitAnd(key.hcode, mask);
      ghost var chain, links := Bucket(all, slots.Length, pos), Nexts();
      FindInBucket(all, slots.Length, key, eq);
      from, k := Some(Slot(pos)), 0;
      var cur := slots[pos];
      assert Spells(links, cur, chain);
      hide Valid, Bucket, Pos, Find;
      while cur != null
        invariant k <= |chain| && cur == (if k < |chain| then chain[k] else null)
        invariant from == Some(Place(chain, pos, k))
        invariant Find(chain[k..], key, eq) == Find(chain, key, eq)
        decreases |chain| - k
      {
        FindStep(chain, k, key, eq);
        if cur.hcode == key.hcode && eq(cur, key) {
          return;
        }
        assert LinkAt(links, chain, k);
        from := Some(NextOf(cur));
        cur := cur.next;
        k := k + 1;
      }
      from := None;
      assert chain[k..] == [];
    }

    /** `*from` */
    function Target(from: From): HNode?
      requires from.Slot? ==> from.pos < slots.Length
      reads slots, if from.NextOf? then {from.node} else {}
    {
      match from
      case Slot(pos) => slots[pos]
      case NextOf(node) => node.next
    }

    /** `*from = to` */
    method Redirect(from: From, to: HNode?)
      requires from.Slot? ==> from.pos < slots.Length
      modifies slots, (if from.NextOf? then {from.node} else {})`next
      ensures slots[..] == if from.Slot? then old(slots[..])[from.pos := to] else old(slots[..])
      ensures from.NextOf? ==> from.node.next == to
    {
      match from {
        case Slot(pos) => slots[pos] := to;
        case NextOf(node) => node.next := to;
      }
    }

    /** Makes the pointer skip the node it refers to. */
    method Unhook(from: From, ghost chain: seq<HNode>, ghost pos: nat, ghost k: nat) returns (node: HNode)
      requires pos < slots.Length && k < |chain| && from == Place(chain, pos, k) && chain[k] in all
      requires if k == 0 then slots[pos] == chain[0] else chain[k - 1] in all && chain[k - 1].next == chain[k] != chain[k - 1]
      modifies slots, all`next
      ensures node == chain[k] && node.next == old(chain[k].next)
      ensures slots[..] == if k == 0 then old(slots[..])[pos := node.next] else old(slots[..])
      ensures forall x :: x in all ==> x.next == if k > 0 && x == chain[k - 1] then node.next else old(x.next)
    {
      node := Target(from);
      Redirect(from, node.next);
    }

    /** Takes the node out through the pointer that refers to it; no other link changes. */
    method Detach(from: From, ghost pos: nat, ghost k: nat) returns (node: HNode)
      requires Valid() && pos < slots.Length && k < |Bucket(all, slots.Length, pos)|
      requires from == Place(Bucket(all, slots.Length, pos), pos, k)
      modifies this`size, this`all, slots, all`next
      ensures Valid() && node == old(Bucket(all, slots.Length, pos)[k]) && all == Remove(old(all), node)
      ensures node.next == old(node.next)
      ensures k == 0 ==> slots[..] == old(slots[..])[pos := node.next]
      ensures k == 0 ==> forall x :: x in old(all) ==> x.next == old(x.next)
    {
      ghost var links, before, firsts := Nexts(), all, slots[..];
      ghost var chain := Bucket(before, slots.Length, pos);
      BeforeDetach(pos, k);
      hide Valid, Nexts, Bucket, Remove, Spelled, Distinct, IsPow2, Pos, Spells, LinkAt, Detached, DetachedFirsts;
      node := Unhook(from, chain, pos, k);
      size := size - 1;
      all := Remove(all, node);
      ValidAfter(links, firsts, before, chain, pos, k);
    }

    ghost predicate Shape() {
      0 < slots.Length && mask == slots.Length - 1 && IsPow2(slots.Length)
    }

    lemma BeforeDetach(pos: nat, k: nat)
      requires Valid() && pos < slots.Length && k < |Bucket(all, slots.Length, pos)|
      ensures Shape() && size > 0
      ensures
        var chain, links := Bucket(all, slots.Length, pos), Nexts();
        && chain[k] in all
        && (if k == 0 then slots[pos] == chain[0] else chain[k - 1] in all && chain[k - 1].next == chain[k] != chain[k - 1])
        && (forall x :: x in links <==> x in all) && (forall x :: x in all ==> links[x] == x.next)
        && Spelled(Detached(links, chain, k), DetachedFirsts(links, slots[..], chain, pos, k), Remove(all, chain[k]))
        && Distinct(Remove(all, chain[k])) && |Remove(all, chain[k])| == size - 1
        && (forall x :: x in Remove(all, chain[k]) <==> x in all && x != chain[k])
    {
      DetachSpelled(Nexts(), slots[..], all, pos, k);
      RemoveKeeps(all, Bucket(all, slots.Length, pos)[k]);
    }

    lemma ValidAfter(links: Links, firsts: seq<HNode?>, before: seq<HNode>, chain: seq<HNode>, pos: nat, k: nat)
      requires Shape() && pos < |firsts| && k < |chain| && chain[k] in before && (k > 0 ==> chain[k - 1] in before)
      requires forall x :: x in links <==> x in before
      requires Spelled(Detached(links, chain, k), DetachedFirsts(links, firsts, chain, pos, k), all)
      requires Distinct(all) && size == |all| && forall x :: x in all <==> x in before && x != chain[k]
      requires slots[..] == if k == 0 then firsts[pos := links[chain[k]]] else firsts
      requires forall x :: x in all ==> x.next == if k > 0 && x == chain[k - 1] then links[chain[k]] else links[x]
      ensures Valid()
    {
      NextsAre(Detached(links, chain, k));
    }

    method Lookup(key: HNode, eq: (HNode, HNode) -> bool) returns (node: HNode?)
      requires Valid()
      ensures node == Find(all, key, eq)
      ensures node != null ==> node in all && node.hcode == key.hcode && eq(node, key)
      ensures node == null ==> forall x :: x in all ==> !(x.hcode == key.hcode && eq(x, key))
    {
      var from, k := LookupFrom(key, eq);
      if from == None {
        return null;
      }
      PosIsBucket(key);
      ghost var chain := Bucket(all, slots.Length, Pos(key, slots.Length));
      assert Spells(Nexts(), slots[Pos(key, slots.Length)], chain);
      if k > 0 { assert LinkAt(Nexts(), chain, k - 1); }
      node := Target(from.value);
    }

    method RemoveKey(key: HNode, eq: (HNode, HNode) -> bool) returns (node: HNode?)
      requires Valid()
      modifies this`size, this`all, slots, all`next
      ensures Valid() && node == Find(old(all), key, eq)
      ensures all == if node == null then old(all) else Remove(old(all), node)
      ensures node != null ==> node in old(all) && node.hcode == key.hcode && eq(node, key)
      ensures node == null ==> forall x :: x in old(all) ==> !(x.hcode == key.hcode && eq(x, key))
      ensures node != null && node == old(all)[0] ==>
        && slots[..] == old(slots[..])[Pos(node, slots.Length) := node.next]
        && forall x :: x in old(all) ==> x.next == old(x.next)
    {
      var from, k := LookupFrom(key, eq);
      if from != None {
        PosIsBucket(key);
        ghost var chain := Bucket(all, slots.Length, Pos(key, slots.Length));
        BucketDistinct(all, slots.Length, Pos(key, slots.Length));
        assert chain[k] == all[0] ==> chain[0] == all[0] && k == 0;
        node := Detach(from.value, Pos(key, slots.Length), k);
      } else {
        node := null;
      }
    }
  }

  /** Removing what was just inserted, by any key it matches, gives it back and restores the flat
      list, the slots and every other node's link. */
  method InsertThenRemove(m: Map, node: HNode, key: HNode, eq: (HNode, HNode) -> bool) returns (removed: HNode?)
    requires m.Valid() && node !in m.all && Hit(node, key, eq)
    modifies m`size, m`all, m.slots, m.all`next, node`next
    ensures m.Valid() && removed == node
    ensures m.all == old(m.all) && m.slots[..] == old(m.slots[..])
    ensures forall x :: x in m.all ==> x.next == old(x.next)
  {
    m.Insert(node);
    FindCons(node, old(m.all), key, eq);
    RemoveCons(node, old(m.all), node);
    removed := m.RemoveKey(key, eq);
  }
}
