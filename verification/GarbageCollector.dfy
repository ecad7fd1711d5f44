/** Object graphs and what it means to collect one. */
module ObjectGraph {

  datatype Graph<N> = Graph(nodes: set<N>, edges: map<N, seq<N>>, roots: seq<N>)
  {
    predicate WellFormed() {
      && edges.Keys == nodes
      && (forall n, i :: n in nodes && 0 <= i < |edges[n]| ==> edges[n][i] in nodes)
      && (forall i :: 0 <= i < |roots| ==> roots[i] in nodes)
    }

    /** n can be reached from a root along at most k references. */
    ghost predicate ReachableIn(n: N, k: nat)
      requires WellFormed()
    {
      if k == 0 then n in roots
      else ReachableIn(n, k - 1) || exists p :: p in nodes && ReachableIn(p, k - 1) && n in edges[p]
    }

    ghost function Live(): set<N>
      requires WellFormed()
    {
      set n | n in nodes && exists k: nat :: ReachableIn(n, k)
    }

    /** The graph a collection leaves behind. */
    ghost function Collected(): Graph<N>
      requires WellFormed()
    {
      Graph(Live(), map n | n in Live() :: edges[n], roots)
    }

    /** `s` holds the roots and whatever its members refer to. */
    predicate Closed(s: set<N>)
      requires WellFormed()
    {
      && (forall i :: 0 <= i < |roots| ==> roots[i] in s)
      && (forall n, i :: n in s && n in nodes && 0 <= i < |edges[n]| ==> edges[n][i] in s)
    }
  }

  lemma LiveIsClosed<N>(g: Graph<N>)
    requires g.WellFormed()
    ensures g.Closed(g.Live())
  {
    forall i | 0 <= i < |g.roots|
      ensures g.roots[i] in g.Live()
    {
      assert g.ReachableIn(g.roots[i], 0);
    }
    forall n, i | n in g.Live() && 0 <= i < |g.edges[n]|
      ensures g.edges[n][i] in g.Live()
    {
      var k: nat :| g.ReachableIn(n, k);
      assert g.ReachableIn(g.edges[n][i], k + 1);
    }
  }

  lemma {:induction false} ReachableInClosed<N>(g: Graph<N>, s: set<N>, n: N, k: nat)
    requires g.WellFormed() && g.Closed(s) && g.ReachableIn(n, k)
    ensures n in s
  {
    if k > 0 && !g.ReachableIn(n, k - 1) {
      var p :| p in g.nodes && g.ReachableIn(p, k - 1) && n in g.edges[p];
      ReachableInClosed(g, s, p, k - 1);
    } else if k > 0 {
      ReachableInClosed(g, s, n, k - 1);
    }
  }

  /** The live nodes are the least closed set. */
  lemma LiveIsLeast<N>(g: Graph<N>, s: set<N>)
    requires g.WellFormed() && g.Closed(s)
    ensures g.Live() <= s
  {
    forall n | n in g.Live()
      ensures n in s
    {
      var k: nat :| g.ReachableIn(n, k);
      ReachableInClosed(g, s, n, k);
    }
  }

  /** A collection leaves no dangling reference or root. */
  lemma CollectedIsWellFormed<N>(g: Graph<N>)
    requires g.WellFormed()
    ensures g.Collected().WellFormed()
  {
    LiveIsClosed(g);
  }

  /** Nothing that was reachable stops being reachable. */
  lemma CollectionKeepsLive<N>(g: Graph<N>)
    requires g.WellFormed()
    ensures g.Collected().WellFormed() && g.Collected().Live() == g.Live()
  {
    CollectedIsWellFormed(g);
    var c := g.Collected();
    LiveIsClosed(c);
    LiveIsClosed(g);
    assert g.Closed(c.Live());
    LiveIsLeast(g, c.Live());
  }

  /** An immediate second collection frees nothing. */
  lemma CollectTwice<N>(g: Graph<N>)
    requires g.WellFormed()
    ensures g.Collected().WellFormed() && g.Collected().Collected() == g.Collected()
  {
    CollectionKeepsLive(g);
  }

  // Runs of a program that edits its heap and collects it.

  /** The tracked objects, and everything deleted so far. */
  datatype Heap<N> = Heap(graph: Graph<N>, deleted: set<N>)

  datatype Edit<N> = Track(node: N, references: seq<N>) | AddRoot(root: N) | RemoveRoot(at: nat) | ClearRoots
                   | SetReferences(owner: N, targets: seq<N>) | Collect

  predicate NoneIn<N>(s: seq<N>, nodes: set<N>) {
    forall i :: 0 <= i < |s| ==> s[i] !in nodes
  }

  /** Nothing dangles: no reference of a tracked object and no root is deleted, and what is deleted
      is not tracked.  References and roots may be objects still to be tracked. */
  ghost predicate HeapInv<N>(h: Heap<N>) {
    && h.graph.edges.Keys == h.graph.nodes && h.graph.nodes !! h.deleted
    && (forall n :: n in h.graph.nodes ==> NoneIn(h.graph.edges[n], h.deleted))
    && NoneIn(h.graph.roots, h.deleted)
  }

  /** Programs use only objects that are not deleted.  When they collect, whatever a tracked object
      or a root refers to is tracked. */
  ghost predicate Permitted<N>(h: Heap<N>, e: Edit<N>) {
    match e
    case Track(n, refs) =>
      && n !in h.deleted && NoneIn(refs, h.deleted)
      && (n in h.graph.nodes && n in h.graph.edges ==> refs == h.graph.edges[n])
    case AddRoot(n) => n !in h.deleted
    case RemoveRoot(i) => i < |h.graph.roots|
    case ClearRoots => true
    case SetReferences(n, refs) => n in h.graph.nodes && NoneIn(refs, h.deleted)
    case Collect => h.graph.WellFormed()
  }

  function WithoutAt<N>(s: seq<N>, i: nat): seq<N>
    requires i < |s|
  {
    s[..i] + s[i + 1..]
  }

  ghost function NextHeap<N>(h: Heap<N>, e: Edit<N>): Heap<N>
    requires Permitted(h, e)
  {
    var g := h.graph;
    match e
    case Track(n, refs) => Heap(Graph(g.nodes + {n}, g.edges[n := refs], g.roots), h.deleted)
    case AddRoot(n) => Heap(g.(roots := g.roots + [n]), h.deleted)
    case RemoveRoot(i) => Heap(g.(roots := WithoutAt(g.roots, i)), h.deleted)
    case ClearRoots => Heap(g.(roots := []), h.deleted)
    case SetReferences(n, refs) => Heap(g.(edges := g.edges[n := refs]), h.deleted)
    case Collect => Heap(g.Collected(), h.deleted + (g.nodes - g.Live()))
  }

  lemma NextHeapInv<N>(h: Heap<N>, e: Edit<N>)
    requires HeapInv(h) && Permitted(h, e)
    ensures HeapInv(NextHeap(h, e))
  {
    if e.Collect? { CollectionDanglesNothing(h); }
  }

  /** After a collection nothing refers to what it deleted, and everything referred to is tracked. */
  lemma CollectionDanglesNothing<N>(h: Heap<N>)
    requires HeapInv(h) && h.graph.WellFormed()
    ensures HeapInv(NextHeap(h, Collect)) && NextHeap(h, Collect).graph.WellFormed()
  {
    var g := h.graph;
    LiveIsClosed(g);
    CollectedIsWellFormed(g);
    forall n, i | n in g.Live() && 0 <= i < |g.edges[n]|
      ensures g.edges[n][i] !in h.deleted + (g.nodes - g.Live())
    {
      assert g.edges[n][i] in g.Live();
    }
  }

  ghost predicate Runs<N>(h: Heap<N>, edits: seq<Edit<N>>, h': Heap<N>)
    decreases |edits|
  {
    if edits == [] then h' == h
    else Permitted(h, edits[0]) && Runs(NextHeap(h, edits[0]), edits[1..], h')
  }

  /** The objects a run hands to the collector. */
  function Tracks<N>(edits: seq<Edit<N>>): set<N> {
    if edits == [] then {} else (if edits[0].Track? then {edits[0].node} else {}) + Tracks(edits[1..])
  }

  /** Over any run no reference or root dangles, nothing deleted is still tracked, and every object
      ever tracked is either kept or deleted. */
  lemma {:induction false} RunHeapInv<N>(h: Heap<N>, edits: seq<Edit<N>>, h': Heap<N>)
    requires HeapInv(h) && Runs(h, edits, h')
    ensures HeapInv(h') && h.deleted <= h'.deleted
    ensures h'.graph.nodes + h'.deleted == h.graph.nodes + h.deleted + Tracks(edits)
    decreases |edits|
  {
    if edits != [] {
      NextHeapInv(h, edits[0]);
      RunHeapInv(NextHeap(h, edits[0]), edits[1..], h');
      assert edits[0].Collect? ==> h.graph.Live() <= h.graph.nodes;
    }
  }

  /** In every run, each collection leaves as tracked exactly the objects that were live just before
      it, with their references, and deletes the others; the roots stay. */
  lemma {:induction false} EveryCollectionIsExact<N>(h: Heap<N>, edits: seq<Edit<N>>, h': Heap<N>, k: nat)
    returns (before: Heap<N>, after: Heap<N>)
    requires HeapInv(h) && Runs(h, edits, h') && k < |edits| && edits[k].Collect?
    ensures Runs(h, edits[..k], before) && Runs(after, edits[k + 1..], h') && before.graph.WellFormed()
    ensures after.graph.nodes == before.graph.Live() && after.graph.roots == before.graph.roots
    ensures forall n :: n in after.graph.nodes ==> n in after.graph.edges && after.graph.edges[n] == before.graph.edges[n]
    ensures after.deleted == before.deleted + (before.graph.nodes - before.graph.Live())
    decreases k
  {
    var next := NextHeap(h, edits[0]);
    NextHeapInv(h, edits[0]);
    if k == 0 {
      before, after := h, next;
    } else {
      before, after := EveryCollectionIsExact(next, edits[1..], h', k - 1);
      assert edits[1..][..k - 1] == edits[..k][1..] && edits[1..][k..] == edits[k + 1..];
    }
  }

  /** Only garbage is ever deleted: what a run deletes was tracked and not live at one of its
      collections. */
  lemma {:induction false} OnlyGarbageIsDeleted<N>(h: Heap<N>, edits: seq<Edit<N>>, h': Heap<N>, n: N)
    returns (k: nat, before: Heap<N>)
    requires HeapInv(h) && Runs(h, edits, h') && n in h'.deleted && n !in h.deleted
    ensures k < |edits| && edits[k].Collect? && Runs(h, edits[..k], before) && before.graph.WellFormed()
    ensures n in before.graph.nodes && n !in before.graph.Live()
    decreases |edits|
  {
    var next := NextHeap(h, edits[0]);
    NextHeapInv(h, edits[0]);
    if n in next.deleted {
      k, before := 0, h;
    } else {
      k, before := OnlyGarbageIsDeleted(next, edits[1..], h', n);
      assert edits[1..][..k] == edits[..k + 1][1..];
      k := k + 1;
    }
  }

  lemma RunsStep<N>(h: Heap<N>, e: Edit<N>, next: Heap<N>, edits: seq<Edit<N>>, h': Heap<N>)
    requires Permitted(h, e) && NextHeap(h, e) == next && Runs(next, edits, h')
    ensures Runs(h, [e] + edits, h')
  {
    assert ([e] + edits)[1..] == edits;
  }

  function Chain<N>(a: N, b: N, c: N, roots: seq<N>): Graph<N> {
    Graph({a, b, c}, map[a := [b], b := [c], c := []], roots)
  }

  lemma ChainLives<N>(a: N, b: N, c: N)
    requires a != b && b != c && a != c
    ensures Chain(a, b, c, [a]).WellFormed() && Chain(a, b, c, [a]).Collected() == Chain(a, b, c, [a])
  {
    var g := Chain(a, b, c, [a]);
    LiveIsClosed(g);
    assert g.roots[0] in g.Live() && g.edges[a][0] in g.Live() && g.edges[b][0] in g.Live();
    assert g.Live() == {a, b, c};
  }

  lemma ChainDies<N>(a: N, b: N, c: N)
    requires a != b && b != c && a != c
    ensures Chain(a, b, c, []).WellFormed() && Chain(a, b, c, []).Live() == {}
  {
    LiveIsLeast(Chain(a, b, c, []), {});
  }

  lemma TrackStep<N>(g: Graph<N>, n: N, refs: seq<N>)
    requires n !in g.nodes && g.edges.Keys == g.nodes
    ensures Permitted(Heap(g, {}), Edit.Track(n, refs))
    ensures NextHeap(Heap(g, {}), Edit.Track(n, refs)) == Heap(Graph(g.nodes + {n}, g.edges[n := refs], g.roots), {})
  {
  }

  /** The first half of the demonstration program: three objects are linked first and tracked
      afterwards, from the front of the chain.  The collection keeps all of them. */
  lemma DemoKeeps<N>(a: N, b: N, c: N) returns (edits: seq<Edit<N>>)
    requires a != b && b != c && a != c
    ensures edits == [Edit.Track(a, [b]), Edit.Track(b, [c]), Edit.Track(c, []), Edit.AddRoot(a), Edit.Collect]
    ensures Runs(Heap(Graph({}, map[], []), {}), edits, Heap(Chain(a, b, c, [a]), {}))
  {
    var none, one, two := Graph({}, map[], []), Graph({a}, map[a := [b]], []), Graph({a, b}, map[a := [b], b := [c]], []);
    var three, ready := Chain(a, b, c, []), Heap(Chain(a, b, c, [a]), {});
    ChainLives(a, b, c);
    TrackStep(none, a, [b]);
    TrackStep(one, b, [c]);
    TrackStep(two, c, []);
    assert none.nodes + {a} == one.nodes && none.edges[a := [b]] == one.edges;
    assert one.nodes + {b} == two.nodes && one.edges[b := [c]] == two.edges;
    assert two.nodes + {c} == three.nodes && two.edges[c := []] == three.edges;
    assert NextHeap(Heap(three, {}), Edit.AddRoot(a)) == ready && NextHeap(ready, Edit.Collect) == ready;
    assert Runs(ready, [], ready) && Permitted(Heap(three, {}), Edit.AddRoot(a));
    hide Permitted, NextHeap, Runs, Chain;
    RunsStep(ready, Edit.Collect, ready, [], ready);
    RunsStep(Heap(three, {}), Edit.AddRoot(a), ready, [Edit.Collect], ready);
    edits := [Edit.AddRoot(a)] + [Edit.Collect];
    RunsStep(Heap(two, {}), Edit.Track(c, []), Heap(three, {}), edits, ready);
    edits := [Edit.Track(c, [])] + edits;
    RunsStep(Heap(one, {}), Edit.Track(b, [c]), Heap(two, {}), edits, ready);
    edits := [Edit.Track(b, [c])] + edits;
    RunsStep(Heap(none, {}), Edit.Track(a, [b]), Heap(one, {}), edits, ready);
    edits := [Edit.Track(a, [b])] + edits;
  }

  /** The second half: without roots, the next collection deletes all three. */
  lemma DemoDeletes<N>(a: N, b: N, c: N) returns (edits: seq<Edit<N>>)
    requires a != b && b != c && a != c
    ensures edits == [Edit.ClearRoots, Edit.Collect]
    ensures Runs(Heap(Chain(a, b, c, [a]), {}), edits, Heap(Graph({}, map[], []), {a, b, c}))
  {
    var ready, rootless := Heap(Chain(a, b, c, [a]), {}), Heap(Chain(a, b, c, []), {});
    var gone := Heap(Graph({}, map[], []), {a, b, c});
    ChainDies(a, b, c);
    assert NextHeap(ready, Edit.ClearRoots) == rootless;
    assert NextHeap(rootless, Edit.Collect) == gone;
    RunsStep(rootless, Edit.Collect, gone, [], gone);
    RunsStep(ready, Edit.ClearRoots, rootless, [Edit.Collect], gone);
    edits := [Edit.ClearRoots] + [Edit.Collect];
  }
}

/** The collector: recursive marking of a possibly cyclic heap, then a sweep. */
module GarbageCollection {
  import opened ObjectGraph

  class GCObject {
    const name: string
    var marked: bool
    var references: seq<GCObject>

    constructor (name: string)
      ensures !marked && references == [] && this.name == name
    {
      this.name := name;
      marked, references := false, [];
    }
  }

  class GarbageCollector {
    var objects: set<GCObject>
    var roots: seq<GCObject>
    /** What has been deleted so far. */
    ghost var deleted: set<GCObject>

    /** Nothing dangles and, between collections, no tracked object is marked. */
    ghost predicate Valid()
      reads this, objects
    {
      HeapInv(State()) && forall o :: o in objects ==> !o.marked
    }

    /** References of tracked objects and roots are tracked, which a collection needs. */
    ghost predicate Closed()
      reads this, objects
    {
      View().WellFormed()
    }

    ghost function Marked(): set<GCObject>
      reads this, objects
    {
      set o | o in objects && o.marked
    }

    ghost function View(): (g: Graph<GCObject>)
      reads this, objects
      ensures g.nodes == objects == g.edges.Keys && g.roots == roots
      ensures forall o :: o in objects ==> g.edges[o] == o.references
    {
      Graph(objects, map o | o in objects :: o.references, roots)
    }

    ghost function State(): Heap<GCObject>
      reads this, objects
    {
      Heap(View(), deleted)
    }

    constructor ()
      ensures Valid() && View() == Graph({}, map[], []) && deleted == {}
    {
      objects, roots, deleted := {}, [], {};
    }

    /** Marks what obj leads to.  `scope` is any set that holds obj and whatever its members
        refer to; only members of `scope` are marked. */
    method Mark(obj: GCObject?, ghost scope: set<GCObject>)
      requires scope <= objects
      requires forall o, i :: o in scope && 0 <= i < |o.references| ==> o.references[i] in scope
      requires obj != null ==> obj in scope
      modifies objects`marked
      ensures old(Marked()) <= Marked() <= old(Marked()) + scope
      ensures obj != null ==> obj in Marked()
      ensures forall o, i :: o in Marked() - old(Marked()) && 0 <= i < |o.references| ==> o.references[i] in Marked()
      decreases objects - Marked()
    {
      if obj == null {
        return;
      }
      if obj.marked {
        return;
      }
      obj.marked := true;
      ghost var before := old(Marked());
      assert Marked() == before + {obj};
      for i := 0 to |obj.references|
        invariant before + {obj} <= Marked() <= before + scope
        invariant forall k :: 0 <= k < i ==> obj.references[k] in Marked()
        invariant forall o, k :: o in Marked() - before - {obj} && 0 <= k < |o.references| ==> o.references[k] in Marked()
      {
        ghost var grey := Marked();
        Mark(obj.references[i], scope);
        assert grey <= Marked();
      }
    }

    /** From an unmarked heap, exactly the reachable objects are marked. */
    method MarkAll()
      requires Valid() && Closed()
      modifies objects`marked
      ensures View() == old(View()) && Closed() && Marked() == View().Live()
    {
      ghost var g := View();
      LiveIsClosed(g);
      for i := 0 to |roots|
        invariant Marked() <= g.Live()
        invariant forall k :: 0 <= k < i ==> roots[k] in Marked()
        invariant forall o, k :: o in Marked() && 0 <= k < |o.references| ==> o.references[k] in Marked()
      {
        assert roots[i] in g.Live();
        ghost var grey := Marked();
        Mark(roots[i], g.Live());
        assert grey <= Marked();
      }
      assert g == View();
      assert forall o :: o in g.nodes ==> g.edges[o] == o.references;
      assert g.Closed(Marked());
      LiveIsLeast(g, Marked());
    }

    /** Deletes the unmarked objects and clears the marks of the others. */
    method Sweep()
      modifies this, objects`marked
      ensures objects == old(Marked()) && roots == old(roots)
      ensures deleted == old(deleted) + (old(objects) - objects)
      ensures forall o :: o in objects ==> !o.marked
      ensures forall o :: o in old(objects) - objects ==> o.marked == old(o.marked)
    {
      var todo := objects;
      while todo != {}
        invariant todo <= objects <= old(objects)
        invariant forall o :: o in old(objects) ==> (o in objects <==> o in todo || old(o.marked))
        invariant forall o :: o in old(objects) ==> o.marked == (old(o.marked) && o in todo)
        invariant deleted == old(deleted) + (old(objects) - objects)
        invariant roots == old(roots)
        decreases todo
      {
        var o :| o in todo;
        todo := todo - {o};
        if !o.marked {
          deleted := deleted + {o};
          objects := objects - {o};
        } else {
          o.marked := false;
        }
      }
    }

    /** A collection keeps exactly the reachable objects, deletes the others, clears every
        mark and leaves nothing dangling. */
    method Collect()
      requires Valid() && Closed()
      modifies this, objects`marked
      ensures Valid() && Closed()
      ensures old(Closed()) && objects == old(View().Live())
      ensures deleted == old(deleted) + (old(objects) - old(View().Live()))
      ensures roots == old(roots) && forall o :: o in old(objects) ==> o.references == old(o.references)
      ensures Permitted(old(State()), Edit.Collect) && State() == NextHeap(old(State()), Edit.Collect)
    {
      CollectionDanglesNothing(State());
      ghost var g := View();
      MarkAll();
      Sweep();
      assert View() == g.Collected();
    }

    // What the program does to the heap between collections.

    /** The object may refer to objects that are tracked later. */
    method Track(obj: GCObject)
      requires Valid() && obj !in deleted && NoneIn(obj.references, deleted) && !obj.marked
      modifies this`objects
      ensures objects == old(objects) + {obj}
      ensures Valid() && Permitted(old(State()), Edit.Track(obj, obj.references))
      ensures State() == NextHeap(old(State()), Edit.Track(obj, obj.references))
    {
      NextHeapInv(State(), Edit.Track(obj, obj.references));
      objects := objects + {obj};
    }

    method AddRoot(obj: GCObject)
      requires Valid() && obj !in deleted
      modifies this`roots
      ensures roots == old(roots) + [obj]
      ensures Valid() && State() == NextHeap(old(State()), Edit.AddRoot(obj))
    {
      NextHeapInv(State(), Edit.AddRoot(obj));
      roots := roots + [obj];
    }

    /** `roots` is public: the program takes one out as it likes. */
    method RemoveRoot(at: nat)
      requires Valid() && at < |roots|
      modifies this`roots
      ensures roots == old(roots)[..at] + old(roots)[at + 1..]
      ensures Valid() && State() == NextHeap(old(State()), Edit.RemoveRoot(at))
    {
      NextHeapInv(State(), Edit.RemoveRoot(at));
      roots := roots[..at] + roots[at + 1..];
    }

    method ClearRoots()
      requires Valid()
      modifies this`roots
      ensures roots == []
      ensures Valid() && State() == NextHeap(old(State()), Edit.ClearRoots)
    {
      roots := [];
    }

    /** `references` is public too: the program edits those of a tracked object. */
    method SetReferences(obj: GCObject, references: seq<GCObject>)
      requires Valid() && obj in objects && NoneIn(references, deleted)
      modifies obj`references
      ensures obj.references == references
      ensures Valid() && State() == NextHeap(old(State()), Edit.SetReferences(obj, references))
    {
      NextHeapInv(State(), Edit.SetReferences(obj, references));
      obj.references := references;
    }

    /** Running the collector twice in a row deletes nothing the second time. */
    method CollectAgain()
      requires Valid() && Closed()
      modifies this, objects`marked
      ensures old(Closed()) && objects == old(View().Live()) && deleted == old(deleted) + (old(objects) - objects)
      ensures Valid() && Closed() && Permitted(old(State()), Edit.Collect)
      ensures State() == NextHeap(old(State()), Edit.Collect)
    {
      Collect();
      ghost var h := State();
      CollectTwice(old(View()));
      Collect();
      assert State() == h;
    }
  }
}
