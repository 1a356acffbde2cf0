/**
 * Greedy cycle removal (digraph.py, `DiGraph.greedy_cycle_removal` and
 * `_edge_delta`): the Eades–Lin–Smyth heuristic.  Sinks are peeled off to the
 * front of a trailing list s2, sources to the end of a leading list s1, and
 * when neither exists the node of greatest out-degree minus in-degree goes to
 * s1.  Every edge pointing backwards in s1 ++ s2 is then reversed and every
 * self-loop dropped, which leaves an acyclic graph.  The input graph is never
 * changed: the source works on deep copies, the model on values.
 */
module CycleRemoval {
  import opened Graphs

  /** `_edge_delta`: out-degree minus in-degree for every node of `g`. */
  function EdgeDelta(g: Graph): (d: map<Node, int>)
    ensures forall v :: v in d <==> v in g.nodes
  {
    map v | v in g.nodes :: OutDegree(g, v) - InDegree(g, v)
  }

  /** Python's `max(d, key=d.get)` over keys in insertion order: the position of
      the first key of greatest value. */
  function FirstMaxIndex(vs: seq<Node>, d: map<Node, int>): (k: nat)
    requires vs != [] && forall v | v in vs :: v in d
    ensures k < |vs|
    ensures forall i | 0 <= i < |vs| :: d[vs[i]] <= d[vs[k]]
    ensures forall i | 0 <= i < k :: d[vs[i]] < d[vs[k]]
  {
    if |vs| == 1 then 0
    else
      var k := FirstMaxIndex(vs[1..], d) + 1;
      assert forall i | 1 <= i < |vs| :: vs[i] == vs[1..][i - 1];
      if d[vs[0]] >= d[vs[k]] then 0 else k
  }

  // ---------------------------------------------------------------------
  // Degree sums: the deltas of a graph add up to zero

  function SumOut(es: seq<Edge>, vs: seq<Node>): int {
    if vs == [] then 0 else |SuccessorsIn(es, vs[0])| + SumOut(es, vs[1..])
  }

  function SumIn(es: seq<Edge>, vs: seq<Node>): int {
    if vs == [] then 0 else |PredecessorsIn(es, vs[0])| + SumIn(es, vs[1..])
  }

  function SumDelta(g: Graph, vs: seq<Node>): int {
    if vs == [] then 0 else OutDegree(g, vs[0]) - InDegree(g, vs[0]) + SumDelta(g, vs[1..])
  }

  lemma {:induction false} SumOutCons(e: Edge, es: seq<Edge>, vs: seq<Node>)
    ensures SumOut([e] + es, vs) == multiset(vs)[e.0] + SumOut(es, vs)
  {
    if vs != [] {
      assert ([e] + es)[1..] == es;
      SumOutCons(e, es, vs[1..]);
      assert vs == [vs[0]] + vs[1..];
    }
  }

  lemma {:induction false} SumInCons(e: Edge, es: seq<Edge>, vs: seq<Node>)
    ensures SumIn([e] + es, vs) == multiset(vs)[e.1] + SumIn(es, vs)
  {
    if vs != [] {
      assert ([e] + es)[1..] == es;
      SumInCons(e, es, vs[1..]);
      assert vs == [vs[0]] + vs[1..];
    }
  }

  /** Each edge is counted once among the out-degrees and once among the in-degrees. */
  lemma {:induction false} DegreeSums(es: seq<Edge>, vs: seq<Node>)
    requires Distinct(vs) && forall e | e in es :: e.0 in vs && e.1 in vs
    ensures SumOut(es, vs) == |es| && SumIn(es, vs) == |es|
  {
    DistinctMultiset(vs);
    if es == [] {
      EmptyDegreeSums(vs);
    } else {
      assert es == [es[0]] + es[1..];
      DegreeSums(es[1..], vs);
      SumOutCons(es[0], es[1..], vs);
      SumInCons(es[0], es[1..], vs);
      assert multiset(vs)[es[0].0] == 1 && multiset(vs)[es[0].1] == 1;
    }
  }

  lemma {:induction false} EmptyDegreeSums(vs: seq<Node>)
    ensures SumOut([], vs) == 0 && SumIn([], vs) == 0
  {
    if vs != [] {
      EmptyDegreeSums(vs[1..]);
    }
  }

  lemma {:induction false} SumDeltaIsDifference(g: Graph, vs: seq<Node>)
    ensures SumDelta(g, vs) == SumOut(g.edges, vs) - SumIn(g.edges, vs)
  {
    if vs != [] {
      SumDeltaIsDifference(g, vs[1..]);
    }
  }

  /** The edge deltas of a graph add up to zero. */
  lemma DeltasSumToZero(g: Graph)
    requires Valid(g)
    ensures SumDelta(g, g.nodes) == 0
  {
    SumDeltaIsDifference(g, g.nodes);
    DegreeSums(g.edges, g.nodes);
  }

  lemma {:induction false} AllNegativeSum(g: Graph, vs: seq<Node>)
    requires vs != [] && forall v | v in vs :: OutDegree(g, v) - InDegree(g, v) < 0
    ensures SumDelta(g, vs) < 0
  {
    if |vs| > 1 {
      assert forall v | v in vs[1..] :: v in vs;
      AllNegativeSum(g, vs[1..]);
    }
  }

  /** The node chosen when no source or sink is left has at least as many
      outgoing as incoming edges. */
  lemma MaxDeltaNonNegative(g: Graph)
    requires Valid(g) && g.nodes != []
    ensures var d := EdgeDelta(g); d[g.nodes[FirstMaxIndex(g.nodes, d)]] >= 0
  {
    var d := EdgeDelta(g);
    var k := FirstMaxIndex(g.nodes, d);
    if d[g.nodes[k]] < 0 {
      forall v | v in g.nodes ensures OutDegree(g, v) - InDegree(g, v) < 0 {
        var i :| 0 <= i < |g.nodes| && g.nodes[i] == v;
        assert d[g.nodes[i]] <= d[g.nodes[k]];
      }
      AllNegativeSum(g, g.nodes);
      DeltasSumToZero(g);
    }
  }

  /** `max(delta, key=delta.get)` with `delta = _edge_delta(G)`: the first node,
      in node order, of greatest out-degree minus in-degree. */
  function MaxDeltaNode(g: Graph): (v: Node)
    requires g.nodes != []
    ensures v in g.nodes
    ensures forall w | w in g.nodes :: OutDegree(g, w) - InDegree(g, w) <= OutDegree(g, v) - InDegree(g, v)
  {
    var d := EdgeDelta(g);
    var k := FirstMaxIndex(g.nodes, d);
    assert forall w | w in g.nodes :: exists i | 0 <= i < |g.nodes| :: g.nodes[i] == w;
    g.nodes[k]
  }

  // ---------------------------------------------------------------------
  // The ordering phase

  datatype PeelKind = SinkPeel | SourcePeel | MaxDeltaPeel

  /** One node taken off the copy graph, and the rule that took it. */
  datatype Peel = Peel(kind: PeelKind, node: Node)

  /** The peel the greedy heuristic takes next from the remaining graph `h`:
      the last sink if there is one, else the last source if there is one,
      else the first node of greatest out-degree minus in-degree. */
  function NextPeel(h: Graph): (p: Peel)
    requires h.nodes != []
    ensures p.node in h.nodes
    ensures p.kind == SinkPeel <==> Sinks(h) != []
    ensures p.kind == SinkPeel ==> OutDegree(h, p.node) == 0
    ensures p.kind == SourcePeel ==> Sources(h) != [] && InDegree(h, p.node) == 0
    ensures p.kind == MaxDeltaPeel ==> Sources(h) == [] && p.node == MaxDeltaNode(h)
  {
    var sinks := Sinks(h);
    var sources := Sources(h);
    if sinks != [] then
      assert sinks[|sinks| - 1] in sinks;
      Peel(SinkPeel, sinks[|sinks| - 1])
    else if sources != [] then
      assert sources[|sources| - 1] in sources;
      Peel(SourcePeel, sources[|sources| - 1])
    else Peel(MaxDeltaPeel, MaxDeltaNode(h))
  }

  /** The run of the heuristic on `h`: peel by peel until no node is left. */
  function GreedyTrace(h: Graph): (t: seq<Peel>)
    requires Valid(h)
    ensures |t| == |h.nodes|
    decreases |h.nodes|, 1
  {
    if h.nodes == [] then [] else PeelThenRun(h)
  }

  /** One peel of a non-empty graph followed by the run on what is left (kept
      apart from `GreedyTrace` so that each unfolding takes one peel only). */
  function PeelThenRun(h: Graph): (t: seq<Peel>)
    requires Valid(h) && h.nodes != []
    ensures |t| == |h.nodes|
    decreases |h.nodes|, 0
  {
    var p := NextPeel(h);
    [p] + GreedyTrace(RemoveNode(h, p.node))
  }

  lemma GreedyTraceUnfold(h: Graph)
    requires Valid(h) && h.nodes != []
    ensures GreedyTrace(h) == [NextPeel(h)] + GreedyTrace(RemoveNode(h, NextPeel(h).node))
  {
  }

  /** `s1`: the sources and largest-delta nodes in the order they were taken. */
  function Front(t: seq<Peel>): seq<Node> {
    if t == [] then []
    else Front(t[..|t| - 1]) + (if t[|t| - 1].kind == SinkPeel then [] else [t[|t| - 1].node])
  }

  /** `s2`: the sinks, the one taken last first. */
  function Back(t: seq<Peel>): seq<Node> {
    if t == [] then []
    else (if t[|t| - 1].kind == SinkPeel then [t[|t| - 1].node] else []) + Back(t[..|t| - 1])
  }

  /** Taking the heuristic's next peel from what is left moves one peel from
      the rest of the run to the part already done. */
  lemma PeelStep(done: seq<Peel>, h: Graph, p: Peel)
    requires Valid(h) && h.nodes != [] && p == NextPeel(h)
    ensures (done + [p]) + GreedyTrace(RemoveNode(h, p.node)) == done + GreedyTrace(h)
    ensures Front(done + [p]) == Front(done) + (if p.kind == SinkPeel then [] else [p.node])
    ensures Back(done + [p]) == (if p.kind == SinkPeel then [p.node] else []) + Back(done)
  {
    GreedyTraceUnfold(h);
    AppendAssoc(done, [p], GreedyTrace(RemoveNode(h, p.node)));
    FrontBackSnoc(done, p);
  }

  lemma AppendAssoc<T>(a: seq<T>, b: seq<T>, c: seq<T>)
    ensures (a + b) + c == a + (b + c)
  {
  }

  /** A peel taken last is the end of `s1` or the head of `s2`. */
  lemma FrontBackSnoc(done: seq<Peel>, p: Peel)
    ensures Front(done + [p]) == Front(done) + (if p.kind == SinkPeel then [] else [p.node])
    ensures Back(done + [p]) == (if p.kind == SinkPeel then [p.node] else []) + Back(done)
  {
    assert (done + [p])[..|done|] == done;
  }

  /** Every node of `s2` was taken as a sink, and every node of `s1` as a
      source or as the node of largest delta. */
  lemma {:induction false} FrontBackKinds(t: seq<Peel>)
    ensures forall v | v in Back(t) :: Peel(SinkPeel, v) in t
    ensures forall v | v in Front(t) :: Peel(SourcePeel, v) in t || Peel(MaxDeltaPeel, v) in t
  {
    if t != [] {
      var d := t[..|t| - 1];
      FrontBackKinds(d);
      assert t == d + [t[|t| - 1]];
    }
  }

  /** Removing a source never makes a sink: the source has no edge into it, so
      every other node keeps its successors. */
  lemma SourceRemovalKeepsNoSinks(h: Graph, u: Node)
    requires Valid(h) && Sinks(h) == [] && InDegree(h, u) == 0
    ensures Sinks(RemoveNode(h, u)) == []
  {
    var h' := RemoveNode(h, u);
    if Sinks(h') != [] {
      var w := Sinks(h')[0];
      assert w in h.nodes && w !in Sinks(h);
      OutDegreeZero(h, w);
      assert false;
    }
  }

  /** The inner sink loop: repeatedly removes the last current sink and puts it
      in front of `s2`, until no sink is left. */
  method PeelSinks(ghost t0: seq<Peel>, cg0: Graph, s20: seq<Node>)
    returns (cg: Graph, s2: seq<Node>, ghost t: seq<Peel>)
    requires Valid(cg0) && s20 == Back(t0)
    ensures Valid(cg) && t + GreedyTrace(cg) == t0 + GreedyTrace(cg0)
    ensures s2 == Back(t) && Front(t) == Front(t0)
    ensures |cg.nodes| <= |cg0.nodes|
    ensures Sinks(cg) == []
  {
    cg, s2, t := cg0, s20, t0;
    var sinks := Sinks(cg);
    while |sinks| > 0
      invariant Valid(cg) && t + GreedyTrace(cg) == t0 + GreedyTrace(cg0)
      invariant s2 == Back(t) && Front(t) == Front(t0)
      invariant |cg.nodes| <= |cg0.nodes|
      invariant sinks == Sinks(cg)
      decreases |cg.nodes|
    {
      var sink := sinks[|sinks| - 1];
      PeelStep(t, cg, Peel(SinkPeel, sink));
      t := t + [Peel(SinkPeel, sink)];
      s2 := [sink] + s2;
      cg := RemoveNode(cg, sink);
      sinks := Sinks(cg);
    }
  }

  /** With no sink left, the last source is the heuristic's next peel, and
      removing it leaves no sink behind. */
  lemma SourcePeelStep(t: seq<Peel>, cg: Graph)
    requires Valid(cg) && Sinks(cg) == [] && Sources(cg) != []
    ensures var v := Sources(cg)[|Sources(cg)| - 1];
      var cg' := RemoveNode(cg, v);
      && Valid(cg') && (t + [Peel(SourcePeel, v)]) + GreedyTrace(cg') == t + GreedyTrace(cg)
      && Front(t + [Peel(SourcePeel, v)]) == Front(t) + [v] && Back(t + [Peel(SourcePeel, v)]) == Back(t)
      && |cg'.nodes| < |cg.nodes| && Sinks(cg') == []
  {
    var v := Sources(cg)[|Sources(cg)| - 1];
    PeelStep(t, cg, Peel(SourcePeel, v));
    SourceRemovalKeepsNoSinks(cg, v);
  }

  /** The inner source loop: repeatedly removes the last current source and
      appends it to `s1`, until no source is left.  No sink appears meanwhile. */
  method PeelSources(ghost t0: seq<Peel>, cg0: Graph, s10: seq<Node>)
    returns (cg: Graph, s1: seq<Node>, ghost t: seq<Peel>)
    requires Valid(cg0) && s10 == Front(t0) && Sinks(cg0) == []
    ensures Valid(cg) && t + GreedyTrace(cg) == t0 + GreedyTrace(cg0)
    ensures s1 == Front(t) && Back(t) == Back(t0)
    ensures |cg.nodes| <= |cg0.nodes|
    ensures Sources(cg) == [] && Sinks(cg) == []
  {
    cg, s1, t := cg0, s10, t0;
    var sources := Sources(cg);
    while |sources| > 0
      invariant Valid(cg) && t + GreedyTrace(cg) == t0 + GreedyTrace(cg0)
      invariant s1 == Front(t) && Back(t) == Back(t0)
      invariant |cg.nodes| <= |cg0.nodes| && Sinks(cg) == []
      invariant sources == Sources(cg)
      decreases |cg.nodes|
    {
      var source := sources[|sources| - 1];
      SourcePeelStep(t, cg);
      t := t + [Peel(SourcePeel, source)];
      s1 := s1 + [source];
      cg := RemoveNode(cg, source);
      sources := Sources(cg);
    }
  }

  /** With neither sink nor source left, the node of largest out-minus-in
      degree (the first of them in node order) is appended to `s1`. */
  method TakeMaxDelta(ghost t0: seq<Peel>, cg0: Graph, s10: seq<Node>)
    returns (cg: Graph, s1: seq<Node>, ghost t: seq<Peel>)
    requires Valid(cg0) && cg0.nodes != [] && s10 == Front(t0)
    requires Sources(cg0) == [] && Sinks(cg0) == []
    ensures Valid(cg) && t + GreedyTrace(cg) == t0 + GreedyTrace(cg0)
    ensures s1 == Front(t) && Back(t) == Back(t0)
    ensures |cg.nodes| < |cg0.nodes|
  {
    var v := MaxDeltaNode(cg0);
    PeelStep(t0, cg0, Peel(MaxDeltaPeel, v));
    t := t0 + [Peel(MaxDeltaPeel, v)];
    s1 := s10 + [v];
    cg := RemoveNode(cg0, v);
  }

  /** Peels the graph into `s = s1 ++ s2`, read off the heuristic's run on `g`;
      every node of `g` occurs in `s` exactly once. */
  method GreedyOrder(g: Graph) returns (s: seq<Node>)
    requires Valid(g)
    ensures s == Front(GreedyTrace(g)) + Back(GreedyTrace(g))
    ensures multiset(s) == multiset(g.nodes) && Distinct(s)
  {
    var cg := g;
    var s1: seq<Node> := [];
    var s2: seq<Node> := [];
    ghost var t: seq<Peel> := [];
    ghost var whole := GreedyTrace(g);
    while cg.nodes != []
      invariant Valid(cg) && t + GreedyTrace(cg) == whole && s1 == Front(t) && s2 == Back(t)
      decreases |cg.nodes|
    {
      ghost var before := |cg.nodes|;
      cg, s2, t := PeelSinks(t, cg, s2);
      cg, s1, t := PeelSources(t, cg, s1);
      if cg.nodes != [] {
        cg, s1, t := TakeMaxDelta(t, cg, s1);
      }
      assert |cg.nodes| < before;
    }
    assert t == whole;
    s := s1 + s2;
    GreedyOrderPermutes(g);
  }

  /** The nodes a run takes, in the order it takes them. */
  function NodesOf(t: seq<Peel>): (r: seq<Node>)
    ensures |r| == |t|
  {
    if t == [] then [] else NodesOf(t[..|t| - 1]) + [t[|t| - 1].node]
  }

  /** `s1 ++ s2` holds exactly the nodes the run takes. */
  lemma {:induction false} FrontBackNodes(t: seq<Peel>)
    ensures multiset(Front(t)) + multiset(Back(t)) == multiset(NodesOf(t))
  {
    if t != [] {
      FrontBackNodes(t[..|t| - 1]);
    }
  }

  /** The heuristic's run takes every node of `h` exactly once. */
  lemma {:induction false} GreedyTraceNodes(h: Graph)
    requires Valid(h)
    ensures multiset(NodesOf(GreedyTrace(h))) == multiset(h.nodes)
    decreases |h.nodes|
  {
    if h.nodes != [] {
      var p := NextPeel(h);
      var h' := RemoveNode(h, p.node);
      GreedyTraceNodes(h');
      GreedyTraceUnfold(h);
      RemoveNodeCount(h, p.node, h');
      NodesOfCons(p, GreedyTrace(h'));
    }
  }

  lemma {:induction false} NodesOfCons(p: Peel, t: seq<Peel>)
    ensures NodesOf([p] + t) == [p.node] + NodesOf(t)
  {
    if t != [] {
      var d := t[..|t| - 1];
      assert ([p] + t)[..|t|] == [p] + d;
      NodesOfCons(p, d);
    }
  }

  /** The greedy order is a permutation of the nodes. */
  lemma GreedyOrderPermutes(g: Graph)
    requires Valid(g)
    ensures var t := GreedyTrace(g);
      multiset(Front(t) + Back(t)) == multiset(g.nodes) && Distinct(Front(t) + Back(t))
  {
    var t := GreedyTrace(g);
    FrontBackNodes(t);
    GreedyTraceNodes(g);
    DistinctPermutation(Front(t) + Back(t), g.nodes);
  }

  // ---------------------------------------------------------------------
  // The re-orientation phase

  predicate Before(s: seq<Node>, a: Node, b: Node) {
    a in s && b in s && IndexOf(s, a) < IndexOf(s, b)
  }

  /** Membership of an edge of the copy of a graph with edges `all` after the
      first k edges of the visiting order `es` were handled. */
  ghost predicate HandledUpTo(es: seq<Edge>, all: seq<Edge>, s: seq<Node>, k: nat, e: Edge)
    requires k <= |es|
  {
    || (e in all && (e !in es[..k] || Before(s, e.0, e.1)))
    || ((e.1, e.0) in es[..k] && Before(s, e.0, e.1))
  }

  /** Starting from a copy of `g`, every edge (u,v) with u after v in `s` is
      replaced by (v,u) and every edge with u at v's position (a self-loop) is
      removed.  The edges are visited in the order the graph library reports
      them (`EdgesBySource`), which fixes where the reversed edges are
      appended. */
  method ReorientEdges(g: Graph, s: seq<Node>) returns (r: Graph)
    requires Valid(g) && Distinct(s) && forall v | v in g.nodes :: v in s
    ensures r.nodes == g.nodes && Valid(r)
    ensures forall e :: e in r.edges <==> (e in g.edges || (e.1, e.0) in g.edges) && Before(s, e.0, e.1)
  {
    var es := EdgesBySource(g);
    r := g;
    var k := 0;
    while k < |es|
      invariant 0 <= k <= |es|
      invariant r.nodes == g.nodes && Valid(r)
      invariant forall e :: e in r.edges <==> HandledUpTo(es, g.edges, s, k, e)
    {
      r := ReorientEdge(g, es, s, r, k);
      k := k + 1;
    }
    assert es[..k] == es;
  }

  /** Handling the k-th visited edge (u, v) changes the membership of (u, v),
      which stays exactly when u is before v, and of (v, u), which joins when
      v is before u; no other edge changes. */
  lemma HandledStep(es: seq<Edge>, all: seq<Edge>, s: seq<Node>, k: nat, e: Edge)
    requires k < |es| && Distinct(es) && forall f :: f in es <==> f in all
    ensures HandledUpTo(es, all, s, k + 1, e) <==>
      if e == es[k] then Before(s, e.0, e.1)
      else if e == (es[k].1, es[k].0) then HandledUpTo(es, all, s, k, e) || Before(s, e.0, e.1)
      else HandledUpTo(es, all, s, k, e)
  {
    assert es[..k + 1] == es[..k] + [es[k]];
    if e == es[k] {
      assert e !in es[..k] by {
        forall i | 0 <= i < k ensures es[i] != e {
          IndexOfDistinct(es, i);
          IndexOfDistinct(es, k);
        }
      }
    }
  }

  /** One round of the re-orientation loop: the k-th visited edge (u, v) is
      turned round when u comes after v in `s` and dropped when u is v. */
  method ReorientEdge(g: Graph, es: seq<Edge>, s: seq<Node>, r: Graph, k: nat) returns (r2: Graph)
    requires Valid(g) && Distinct(s) && forall v | v in g.nodes :: v in s
    requires es == EdgesBySource(g)
    requires k < |es| && r.nodes == g.nodes && Valid(r)
    requires forall e :: e in r.edges <==> HandledUpTo(es, g.edges, s, k, e)
    ensures r2.nodes == g.nodes && Valid(r2)
    ensures forall e :: e in r2.edges <==> HandledUpTo(es, g.edges, s, k + 1, e)
  {
    var (u, v) := es[k];
    assert es[k] in g.edges;
    assert u in g.nodes && v in g.nodes;
    r2 := r;
    if IndexOf(s, u) > IndexOf(s, v) {
      assert (u, v) in r.edges by {
        HandledStep(es, g.edges, s, k, (u, v));
        assert HandledUpTo(es, g.edges, s, k, (u, v));
      }
      r2 := RemoveEdge(r, (u, v));
      r2 := AddEdge(r2, v, u);
    } else if IndexOf(s, u) == IndexOf(s, v) {
      IndexOfDistinct(s, IndexOf(s, u));
      assert (u, v) in r.edges by {
        assert HandledUpTo(es, g.edges, s, k, (u, v));
      }
      r2 := RemoveEdge(r, (u, v));
    }
    forall e ensures e in r2.edges <==> HandledUpTo(es, g.edges, s, k + 1, e) {
      HandledStep(es, g.edges, s, k, e);
    }
  }

  /** `greedy_cycle_removal`: the order `s` is read off the heuristic's run on
      `g` and holds every node exactly once; the result
      keeps the node list, holds exactly the input edges that point forward in
      `s` and the reversals of those that point backward (self-loops are
      gone), and so has no cycle. */
  method GreedyCycleRemoval(g: Graph) returns (s: seq<Node>, r: Graph)
    requires Valid(g)
    ensures s == Front(GreedyTrace(g)) + Back(GreedyTrace(g))
    ensures multiset(s) == multiset(g.nodes) && Distinct(s)
    ensures r.nodes == g.nodes && Valid(r)
    ensures forall e :: e in r.edges <==> (e in g.edges || (e.1, e.0) in g.edges) && Before(s, e.0, e.1)
    ensures Forward(r.edges, s)
    ensures Acyclic(r)
  {
    s := GreedyOrder(g);
    forall v | v in g.nodes ensures v in s {
      assert v in multiset(g.nodes);
    }
    r := ReorientEdges(g, s);
    ForwardIsAcyclic(r, s);
  }

  /** A forward edge is kept as it is, a backward edge is reversed and a
      self-loop dropped: nothing else is added or lost. */
  lemma EdgeFate(g: Graph, s: seq<Node>, r: Graph, u: Node, v: Node)
    requires Distinct(s) && (u, v) in g.edges && u in s && v in s
    requires forall e :: e in r.edges <==> (e in g.edges || (e.1, e.0) in g.edges) && Before(s, e.0, e.1)
    ensures u == v ==> (u, v) !in r.edges
    ensures IndexOf(s, u) < IndexOf(s, v) ==> (u, v) in r.edges && (v, u) !in r.edges
    ensures IndexOf(s, u) > IndexOf(s, v) ==> (v, u) in r.edges && (u, v) !in r.edges
  {
  }
}
