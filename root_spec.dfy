/**
 * The synthetic root of `insert_dummy_root` and `as_tree` (digraph.py): a
 * node above every node that has no predecessor, so that a graph with
 * several roots gets exactly one.
 */
module RootSpec {
  import opened Graphs

  /** `r` is a node of `g` and the only one without a predecessor. */
  predicate UniqueRoot(g: Graph, r: Node) {
    && r in g.nodes && InDegree(g, r) == 0
    && forall v | v in g.nodes && InDegree(g, v) == 0 :: v == r
  }

  /** The edges (r, v) for the entries v of `vs`, in that order. */
  function FanOut(r: Node, vs: seq<Node>): seq<Edge> {
    seq(|vs|, k requires 0 <= k < |vs| => (r, vs[k]))
  }

  /** `add_edge(r, v)` for each entry v of `vs` in turn. */
  function AddEdgesFrom(g: Graph, r: Node, vs: seq<Node>): (h: Graph)
    ensures Valid(g) ==> Valid(h)
    decreases |vs|
  {
    if vs == [] then g else AddEdgesFrom(AddEdge(g, r, vs[0]), r, vs[1..])
  }

  /** One round of the `add_edge` loop. */
  lemma AddEdgesFromStep(g: Graph, r: Node, vs: seq<Node>, i: nat)
    requires i < |vs|
    ensures AddEdgesFrom(g, r, vs[i..]) == AddEdgesFrom(AddEdge(g, r, vs[i]), r, vs[i + 1..])
  {
    assert vs[i..][1..] == vs[i + 1..];
  }

  /** The graph `insert_dummy_root` leaves: the dummy root added as a node,
      then an edge from it to each node that had in-degree 0 beforehand, in
      node order. */
  function WithDummyRoot(g: Graph): Graph {
    AddEdgesFrom(AddNode(g, DummyRoot), DummyRoot, Sources(g))
  }

  /** When none of the edges is there yet, adding them appends them in order
      and leaves the nodes alone. */
  lemma {:induction false} AddEdgesFromFresh(g: Graph, r: Node, vs: seq<Node>)
    requires r in g.nodes && forall v | v in vs :: v in g.nodes
    requires Distinct(vs) && forall v | v in vs :: (r, v) !in g.edges
    ensures AddEdgesFrom(g, r, vs) == Graph(g.nodes, g.edges + FanOut(r, vs))
    decreases |vs|
  {
    if vs != [] {
      assert vs == [vs[0]] + vs[1..];
      DistinctCons(vs[0], vs[1..]);
      var e1 := g.edges + [(r, vs[0])];
      assert vs[0] in vs;
      AddFreshEdge(g, r, vs[0]);
      var g1 := Graph(g.nodes, e1);
      forall v | v in vs[1..] ensures (r, v) !in e1 {
        assert v in vs && v != vs[0];
      }
      AddEdgesFromFresh(g1, r, vs[1..]);
      FanOutCons(g.edges, r, vs);
    }
  }

  lemma AddFreshEdge(g: Graph, u: Node, v: Node)
    requires u in g.nodes && v in g.nodes && (u, v) !in g.edges
    ensures AddEdge(g, u, v) == Graph(g.nodes, g.edges + [(u, v)])
  {
  }

  lemma FanOutCons(es: seq<Edge>, r: Node, vs: seq<Node>)
    requires vs != []
    ensures es + [(r, vs[0])] + FanOut(r, vs[1..]) == es + FanOut(r, vs)
  {
  }

  lemma {:induction false} SuccessorsFanOut(r: Node, vs: seq<Node>)
    ensures SuccessorsIn(FanOut(r, vs), r) == vs
  {
    if vs != [] {
      assert FanOut(r, vs)[1..] == FanOut(r, vs[1..]);
      SuccessorsFanOut(r, vs[1..]);
    }
  }

  /** On a graph without the dummy root, `insert_dummy_root` appends the
      dummy root to the nodes and one edge per former root to the edges, and
      the dummy root's successors are the former roots in node order. */
  lemma DummyRootShape(g: Graph)
    requires Valid(g) && DummyRoot !in g.nodes
    ensures var h := WithDummyRoot(g);
      && Valid(h)
      && h.nodes == g.nodes + [DummyRoot]
      && h.edges == g.edges + FanOut(DummyRoot, Sources(g))
      && Successors(h, DummyRoot) == Sources(g)
  {
    var g1 := AddNode(g, DummyRoot);
    var roots := Sources(g);
    assert forall v | v in roots :: (DummyRoot, v) !in g1.edges;
    AddEdgesFromFresh(g1, DummyRoot, roots);
    assert forall e | e in g.edges :: e.0 != DummyRoot;
    SuccessorsAppend(g.edges, FanOut(DummyRoot, roots), DummyRoot);
    SuccessorsNone(g.edges, DummyRoot);
    SuccessorsFanOut(DummyRoot, roots);
  }

  /** Every node the graph had keeps or gains a predecessor. */
  lemma FormerNodeHasParent(g: Graph, h: Graph, v: Node)
    requires v in g.nodes && h.edges == g.edges + FanOut(DummyRoot, Sources(g))
    ensures InDegree(h, v) != 0
  {
    if InDegree(g, v) != 0 {
      var u := Predecessors(g, v)[0];
      assert (u, v) in h.edges;
      assert u in Predecessors(h, v);
    } else {
      var k := IndexOf(Sources(g), v);
      assert h.edges[|g.edges| + k] == (DummyRoot, v);
      assert DummyRoot in Predecessors(h, v);
    }
  }

  /** No edge enters the dummy root. */
  lemma DummyRootParentless(g: Graph, h: Graph)
    requires Valid(g) && DummyRoot !in g.nodes
    requires h.edges == g.edges + FanOut(DummyRoot, Sources(g))
    ensures InDegree(h, DummyRoot) == 0
  {
    var fan := FanOut(DummyRoot, Sources(g));
    forall e | e in h.edges ensures e.1 != DummyRoot {
      if e !in g.edges {
        assert e in fan;
        var k :| 0 <= k < |fan| && fan[k] == e;
        assert e.1 == Sources(g)[k] && e.1 in g.nodes;
      }
    }
    InDegreeZero(h, DummyRoot);
  }

  /** After `insert_dummy_root` on a graph without the dummy root, the dummy
      root is the only node without a predecessor. */
  lemma DummyRootUnique(g: Graph)
    requires Valid(g) && DummyRoot !in g.nodes
    ensures UniqueRoot(WithDummyRoot(g), DummyRoot)
  {
    DummyRootShape(g);
    var h := WithDummyRoot(g);
    DummyRootParentless(g, h);
    forall v | v in g.nodes ensures InDegree(h, v) != 0 {
      FormerNodeHasParent(g, h, v);
    }
  }

  /** A graph with exactly one node without a predecessor has it as its
      unique root. */
  lemma SingleSourceUnique(g: Graph)
    requires |Sources(g)| == 1
    ensures UniqueRoot(g, Sources(g)[0])
  {
    assert Sources(g)[0] in Sources(g);
    forall v | v in g.nodes && InDegree(g, v) == 0 ensures v == Sources(g)[0] {
      assert v in Sources(g);
    }
  }
}
