/**
 * The directed graph the layout pipeline works on: a finite list of nodes in
 * insertion order and a list of directed edges in insertion order, with the
 * handful of graph operations the pipeline uses (successors, predecessors,
 * degrees, adding and removing nodes and edges).
 */
module Graphs {

  /** A node: a node of the input graph, a dummy node of a long-edge chain
      (numbered by the graph's dummy counter), or the synthetic tree root. */
  datatype Node = Named(name: string) | DummyNode(number: nat) | DummyRoot

  type Edge = (Node, Node)

  datatype Graph = Graph(nodes: seq<Node>, edges: seq<Edge>)

  datatype Option<T> = None | Some(value: T)

  predicate Distinct<T(==)>(s: seq<T>) {
    forall i, j | 0 <= i < j < |s| :: s[i] != s[j]
  }

  /** A graph as the graph library keeps it: no node or edge twice, and
      every edge between nodes of the graph. */
  predicate Valid(g: Graph) {
    && Distinct(g.nodes)
    && Distinct(g.edges)
    && forall e | e in g.edges :: e.0 in g.nodes && e.1 in g.nodes
  }

  /** Position of the first occurrence of `x` (Python's `list.index`). */
  function IndexOf<T(==)>(s: seq<T>, x: T): (i: nat)
    requires x in s
    ensures i < |s| && s[i] == x
  {
    if s[0] == x then 0 else 1 + IndexOf(s[1..], x)
  }

  /** `list.index` finds the first occurrence: `x` is nowhere before it. */
  lemma {:induction false} IndexOfFirst<T>(s: seq<T>, x: T)
    requires x in s
    ensures x !in s[..IndexOf(s, x)]
  {
    if s[0] != x {
      IndexOfFirst(s[1..], x);
      assert s[..IndexOf(s, x)] == [s[0]] + s[1..][..IndexOf(s[1..], x)];
    }
  }

  lemma {:induction false} IndexOfDistinct<T>(s: seq<T>, i: nat)
    requires Distinct(s) && i < |s|
    ensures IndexOf(s, s[i]) == i
  {
    if i > 0 {
      assert s[0] != s[i];
      assert s[1..][i - 1] == s[i];
      IndexOfDistinct(s[1..], i - 1);
    }
  }

  lemma DistinctCons<T>(a: T, s: seq<T>)
    ensures Distinct([a] + s) <==> a !in s && Distinct(s)
  {
    if Distinct([a] + s) {
      forall k | 0 <= k < |s| ensures s[k] != a {
        assert ([a] + s)[0] == a && ([a] + s)[k + 1] == s[k];
      }
      forall i, j | 0 <= i < j < |s| ensures s[i] != s[j] {
        assert ([a] + s)[i + 1] == s[i] && ([a] + s)[j + 1] == s[j];
      }
    }
  }

  lemma DistinctSnoc<T>(s: seq<T>, a: T)
    requires Distinct(s) && a !in s
    ensures Distinct(s + [a])
  {
  }

  /** A list has no repetition exactly when no element occurs twice in its multiset. */
  lemma {:induction false} DistinctMultiset<T>(s: seq<T>)
    ensures Distinct(s) <==> forall x :: multiset(s)[x] <= 1
  {
    if s != [] {
      assert s == [s[0]] + s[1..];
      DistinctCons(s[0], s[1..]);
      DistinctMultiset(s[1..]);
      assert multiset(s) == multiset{s[0]} + multiset(s[1..]);
      if !Distinct(s) && s[0] in s[1..] {
        assert multiset(s)[s[0]] >= 2;
      }
      if !Distinct(s) && !Distinct(s[1..]) {
        var x :| multiset(s[1..])[x] > 1;
        assert multiset(s)[x] > 1;
      }
    }
  }

  lemma DistinctPermutation<T>(s: seq<T>, t: seq<T>)
    requires multiset(s) == multiset(t) && Distinct(t)
    ensures Distinct(s)
  {
    DistinctMultiset(s);
    DistinctMultiset(t);
  }

  /** The list without any occurrence of `x`, other elements in their order. */
  function RemoveAll<T(==,!new)>(s: seq<T>, x: T): (r: seq<T>)
    ensures forall y :: y in r <==> y in s && y != x
    ensures |r| <= |s| && (x in s ==> |r| < |s|)
  {
    if s == [] then []
    else
      assert s == [s[0]] + s[1..];
      (if s[0] == x then [] else [s[0]]) + RemoveAll(s[1..], x)
  }

  /** Removing `x` takes all of its occurrences out of the multiset and nothing else. */
  lemma {:induction false} RemoveAllCount<T(!new)>(s: seq<T>, x: T)
    ensures multiset(RemoveAll(s, x)) == multiset(s)[x := 0]
  {
    if s != [] {
      assert s == [s[0]] + s[1..];
      RemoveAllCount(s[1..], x);
    }
  }

  lemma RemoveAllDistinct<T(!new)>(s: seq<T>, x: T)
    requires Distinct(s)
    ensures Distinct(RemoveAll(s, x))
  {
    DistinctMultiset(s);
    RemoveAllCount(s, x);
    DistinctMultiset(RemoveAll(s, x));
  }

  /** Targets of the edges leaving `v`, in edge order. */
  function SuccessorsIn(es: seq<Edge>, v: Node): (r: seq<Node>)
    ensures forall w :: w in r <==> (v, w) in es
    ensures |r| <= |es|
  {
    if es == [] then []
    else
      assert es == [es[0]] + es[1..];
      (if es[0].0 == v then [es[0].1] else []) + SuccessorsIn(es[1..], v)
  }

  /** Sources of the edges entering `v`, in edge order. */
  function PredecessorsIn(es: seq<Edge>, v: Node): (r: seq<Node>)
    ensures forall u :: u in r <==> (u, v) in es
    ensures |r| <= |es|
  {
    if es == [] then []
    else
      assert es == [es[0]] + es[1..];
      (if es[0].1 == v then [es[0].0] else []) + PredecessorsIn(es[1..], v)
  }

  function Successors(g: Graph, v: Node): seq<Node> { SuccessorsIn(g.edges, v) }

  function Predecessors(g: Graph, v: Node): seq<Node> { PredecessorsIn(g.edges, v) }

  function OutDegree(g: Graph, v: Node): nat { |Successors(g, v)| }

  function InDegree(g: Graph, v: Node): nat { |Predecessors(g, v)| }

  lemma {:induction false} SuccessorsDistinct(es: seq<Edge>, v: Node)
    requires Distinct(es)
    ensures Distinct(SuccessorsIn(es, v))
  {
    if es != [] {
      assert es == [es[0]] + es[1..];
      DistinctCons(es[0], es[1..]);
      SuccessorsDistinct(es[1..], v);
      if es[0].0 == v {
        DistinctCons(es[0].1, SuccessorsIn(es[1..], v));
      }
    }
  }

  lemma {:induction false} PredecessorsDistinct(es: seq<Edge>, v: Node)
    requires Distinct(es)
    ensures Distinct(PredecessorsIn(es, v))
  {
    if es != [] {
      assert es == [es[0]] + es[1..];
      DistinctCons(es[0], es[1..]);
      PredecessorsDistinct(es[1..], v);
      if es[0].1 == v {
        DistinctCons(es[0].0, PredecessorsIn(es[1..], v));
      }
    }
  }

  /** One unfolding of `SuccessorsIn`. */
  lemma SuccessorsFirst(es: seq<Edge>, v: Node)
    requires es != []
    ensures SuccessorsIn(es, v) == (if es[0].0 == v then [es[0].1] else []) + SuccessorsIn(es[1..], v)
  {
  }

  lemma {:induction false} SuccessorsAppend(es: seq<Edge>, fs: seq<Edge>, v: Node)
    ensures SuccessorsIn(es + fs, v) == SuccessorsIn(es, v) + SuccessorsIn(fs, v)
  {
    if es != [] {
      assert (es + fs)[1..] == es[1..] + fs;
      SuccessorsAppend(es[1..], fs, v);
      SuccessorsFirst(es + fs, v);
      SuccessorsFirst(es, v);
    } else {
      assert es + fs == fs;
    }
  }

  lemma {:induction false} SuccessorsNone(fs: seq<Edge>, v: Node)
    requires forall e | e in fs :: e.0 != v
    ensures SuccessorsIn(fs, v) == []
  {
    if fs != [] {
      assert fs[0] in fs;
      SuccessorsNone(fs[1..], v);
    }
  }

  /** Removing an edge that leaves another node keeps `v`'s successor list. */
  lemma {:induction false} SuccessorsRemoveOther(es: seq<Edge>, e: Edge, v: Node)
    requires e.0 != v
    ensures SuccessorsIn(RemoveAll(es, e), v) == SuccessorsIn(es, v)
  {
    if es != [] {
      SuccessorsRemoveOther(es[1..], e, v);
      var rest := RemoveAll(es[1..], e);
      if es[0] == e {
        assert RemoveAll(es, e) == rest;
      } else {
        assert RemoveAll(es, e) == [es[0]] + rest;
        assert ([es[0]] + rest)[1..] == rest;
      }
    }
  }

  lemma DistinctAppend<T>(a: seq<T>, b: seq<T>)
    requires Distinct(a) && Distinct(b) && forall x | x in a :: x !in b
    ensures Distinct(a + b)
  {
    forall i, j | 0 <= i < j < |a + b| ensures (a + b)[i] != (a + b)[j] {
      if i < |a| && j >= |a| {
        assert (a + b)[i] in a && (a + b)[j] == b[j - |a|];
      }
    }
  }

  /** Two lists without repetition that hold the same elements are
      permutations of each other. */
  lemma DistinctSameElements<T>(s: seq<T>, t: seq<T>)
    requires Distinct(s) && Distinct(t) && forall x :: x in s <==> x in t
    ensures multiset(s) == multiset(t)
  {
    DistinctMultiset(s);
    DistinctMultiset(t);
    forall x ensures multiset(s)[x] == multiset(t)[x] {
      assert x in s <==> x in multiset(s);
      assert x in t <==> x in multiset(t);
    }
  }

  /** The edges leaving `v`, in edge order. */
  function OutEdgesIn(es: seq<Edge>, v: Node): (r: seq<Edge>)
    ensures forall e :: e in r <==> e in es && e.0 == v
    ensures Distinct(es) ==> Distinct(r)
  {
    if es == [] then []
    else
      assert es == [es[0]] + es[1..];
      DistinctCons(es[0], es[1..]);
      var rest := OutEdgesIn(es[1..], v);
      if es[0].0 == v then
        DistinctCons(es[0], rest);
        [es[0]] + rest
      else rest
  }

  /** The edges leaving the nodes of `vs`, grouped by source in the order of
      `vs`, each group in edge order. */
  function EdgesGrouped(es: seq<Edge>, vs: seq<Node>): (r: seq<Edge>)
    ensures forall e :: e in r <==> e in es && e.0 in vs
    ensures Distinct(es) && Distinct(vs) ==> Distinct(r)
  {
    if vs == [] then []
    else
      assert vs == [vs[0]] + vs[1..];
      DistinctCons(vs[0], vs[1..]);
      var rest := EdgesGrouped(es, vs[1..]);
      if Distinct(es) && Distinct(vs) then
        DistinctAppend(OutEdgesIn(es, vs[0]), rest);
        OutEdgesIn(es, vs[0]) + rest
      else OutEdgesIn(es, vs[0]) + rest
  }

  /** The order in which the graph library reports `G.edges`: for each node in
      node order, its outgoing edges in successor order. */
  function EdgesBySource(g: Graph): (r: seq<Edge>)
    ensures Valid(g) ==> Distinct(r) && forall e :: e in r <==> e in g.edges
  {
    EdgesGrouped(g.edges, g.nodes)
  }

  /** Nodes in node order whose out-degree is zero. */
  function Sinks(g: Graph): (r: seq<Node>)
    ensures forall v :: v in r <==> v in g.nodes && OutDegree(g, v) == 0
  {
    SinksAmong(g, g.nodes)
  }

  function SinksAmong(g: Graph, vs: seq<Node>): (r: seq<Node>)
    ensures forall v :: v in r <==> v in vs && OutDegree(g, v) == 0
  {
    if vs == [] then []
    else
      assert vs == [vs[0]] + vs[1..];
      (if OutDegree(g, vs[0]) == 0 then [vs[0]] else []) + SinksAmong(g, vs[1..])
  }

  /** Nodes in node order whose in-degree is zero. */
  function Sources(g: Graph): (r: seq<Node>)
    ensures forall v :: v in r <==> v in g.nodes && InDegree(g, v) == 0
  {
    SourcesAmong(g, g.nodes)
  }

  function SourcesAmong(g: Graph, vs: seq<Node>): (r: seq<Node>)
    ensures forall v :: v in r <==> v in vs && InDegree(g, v) == 0
    ensures Distinct(vs) ==> Distinct(r)
  {
    if vs == [] then []
    else
      assert vs == [vs[0]] + vs[1..];
      DistinctCons(vs[0], vs[1..]);
      var rest := SourcesAmong(g, vs[1..]);
      if InDegree(g, vs[0]) == 0 then
        DistinctCons(vs[0], rest);
        [vs[0]] + rest
      else rest
  }

  lemma OutDegreeZero(g: Graph, v: Node)
    ensures OutDegree(g, v) == 0 <==> forall w :: (v, w) !in g.edges
  {
    if OutDegree(g, v) != 0 {
      assert Successors(g, v)[0] in Successors(g, v);
    }
  }

  lemma InDegreeZero(g: Graph, v: Node)
    ensures InDegree(g, v) == 0 <==> forall u :: (u, v) !in g.edges
  {
    if InDegree(g, v) != 0 {
      assert Predecessors(g, v)[0] in Predecessors(g, v);
    }
  }

  /** Edges that neither start nor end at `v`, in their order. */
  function RemoveIncident(es: seq<Edge>, v: Node): (r: seq<Edge>)
    ensures forall e :: e in r <==> e in es && e.0 != v && e.1 != v
    ensures Distinct(es) ==> Distinct(r)
  {
    if es == [] then []
    else
      assert es == [es[0]] + es[1..];
      DistinctCons(es[0], es[1..]);
      var rest := RemoveIncident(es[1..], v);
      if es[0].0 != v && es[0].1 != v then
        DistinctCons(es[0], rest);
        [es[0]] + rest
      else rest
  }

  /** `remove_node`: the node and every edge touching it disappear. */
  function RemoveNode(g: Graph, v: Node): (r: Graph)
    requires Valid(g)
    ensures Valid(r)
    ensures v in g.nodes ==> |r.nodes| + 1 == |g.nodes|
    ensures forall w :: w in r.nodes <==> w in g.nodes && w != v
    ensures forall e :: e in r.edges <==> e in g.edges && e.0 != v && e.1 != v
  {
    RemoveAllDistinct(g.nodes, v);
    var r := Graph(RemoveAll(g.nodes, v), RemoveIncident(g.edges, v));
    RemoveNodeCount(g, v, r);
    r
  }

  /** Removing a node takes exactly that one node out of the node multiset. */
  lemma RemoveNodeCount(g: Graph, v: Node, r: Graph)
    requires Valid(g) && r.nodes == RemoveAll(g.nodes, v)
    ensures multiset(r.nodes) == multiset(g.nodes)[v := 0]
    ensures v in g.nodes ==> multiset(r.nodes) + multiset{v} == multiset(g.nodes)
    ensures v in g.nodes ==> |r.nodes| + 1 == |g.nodes|
  {
    DistinctMultiset(g.nodes);
    RemoveAllCount(g.nodes, v);
    assert v in g.nodes ==> multiset(g.nodes)[v] == 1;
    assert v in g.nodes ==> |multiset(r.nodes) + multiset{v}| == |multiset(g.nodes)|;
  }

  /** `remove_edge`; the library refuses an edge that is not there. */
  function RemoveEdge(g: Graph, e: Edge): (r: Graph)
    requires e in g.edges
    ensures r.nodes == g.nodes && r.edges == RemoveAll(g.edges, e)
    ensures forall f :: f in r.edges <==> f in g.edges && f != e
    ensures Valid(g) ==> Valid(r)
  {
    if Distinct(g.edges) then RemoveAllDistinct(g.edges, e); Graph(g.nodes, RemoveAll(g.edges, e))
    else Graph(g.nodes, RemoveAll(g.edges, e))
  }

  /** The edges that join two different nodes, in their order. */
  function NonLoops(es: seq<Edge>): (r: seq<Edge>)
    ensures forall e :: e in r <==> e in es && e.0 != e.1
    ensures Distinct(es) ==> Distinct(r)
  {
    if es == [] then []
    else
      assert es == [es[0]] + es[1..];
      DistinctCons(es[0], es[1..]);
      var rest := NonLoops(es[1..]);
      if es[0].0 != es[0].1 then
        DistinctCons(es[0], rest);
        [es[0]] + rest
      else rest
  }

  /** `remove_edges_from(selfloop_edges(g))`: every edge from a node to itself
      goes; the nodes and the other edges stay as they were. */
  function RemoveSelfLoops(g: Graph): (r: Graph)
    ensures r.nodes == g.nodes
    ensures forall e :: e in r.edges <==> e in g.edges && e.0 != e.1
    ensures Valid(g) ==> Valid(r)
  {
    Graph(g.nodes, NonLoops(g.edges))
  }

  /** `add_node`: appended unless already present. */
  function AddNode(g: Graph, v: Node): (r: Graph)
    ensures r.edges == g.edges
    ensures r.nodes == if v in g.nodes then g.nodes else g.nodes + [v]
    ensures Valid(g) ==> Valid(r)
  {
    if v in g.nodes then g
    else
      assert Distinct(g.nodes) ==> Distinct(g.nodes + [v]);
      Graph(g.nodes + [v], g.edges)
  }

  /** `add_edge`: adds missing end points first, then the edge unless present. */
  function AddEdge(g: Graph, u: Node, v: Node): (r: Graph)
    ensures forall w :: w in r.nodes <==> w in g.nodes || w == u || w == v
    ensures g.nodes <= r.nodes
    ensures u in g.nodes && v in g.nodes ==> r.nodes == g.nodes
    ensures r.edges == if (u, v) in g.edges then g.edges else g.edges + [(u, v)]
    ensures Valid(g) ==> Valid(r)
  {
    var g1 := AddNode(AddNode(g, u), v);
    if (u, v) in g1.edges then g1
    else
      assert Distinct(g1.edges) ==> Distinct(g1.edges + [(u, v)]);
      Graph(g1.nodes, g1.edges + [(u, v)])
  }

  // ---------------------------------------------------------------------
  // Paths, cycles and orders in which every edge points forward

  ghost predicate IsPath(g: Graph, p: seq<Node>) {
    |p| >= 2 && forall i | 0 <= i < |p| - 1 :: (p[i], p[i + 1]) in g.edges
  }

  ghost predicate IsCycle(g: Graph, p: seq<Node>) {
    IsPath(g, p) && p[0] == p[|p| - 1]
  }

  ghost predicate Acyclic(g: Graph) {
    forall p :: !IsCycle(g, p)
  }

  /** Every edge goes from an earlier to a later entry of `s`. */
  predicate Forward(es: seq<Edge>, s: seq<Node>) {
    forall e | e in es :: e.0 in s && e.1 in s && IndexOf(s, e.0) < IndexOf(s, e.1)
  }

  lemma {:induction false} PathGoesForward(g: Graph, s: seq<Node>, p: seq<Node>)
    requires Forward(g.edges, s) && IsPath(g, p)
    ensures p[0] in s && p[|p| - 1] in s && IndexOf(s, p[0]) < IndexOf(s, p[|p| - 1])
  {
    assert (p[0], p[1]) in g.edges;
    if |p| > 2 {
      PathGoesForward(g, s, p[1..]);
    }
  }

  /** A graph whose edges all point forward in some list has no cycle. */
  lemma ForwardIsAcyclic(g: Graph, s: seq<Node>)
    requires Forward(g.edges, s)
    ensures Acyclic(g)
  {
    forall p | IsCycle(g, p) ensures false {
      PathGoesForward(g, s, p);
    }
  }
}
