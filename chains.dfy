/**
 * Dummy chains (digraph.py, `_insert_dummy_edges_and_blocks`): the dummy
 * nodes, levels and edges that replace an edge reaching more than one level
 * down, and the state of the loop that hangs them.
 */
module DummyChains {
  import opened Graphs
  import opened Blocks

  /** No dummy node of the graph carries a number the counter will hand out. */
  predicate DummiesBelow(g: Graph, next: nat) {
    forall w | w in g.nodes :: w.DummyNode? ==> w.number < next
  }

  /** The dummy nodes `DUMMY_NODE<first>`, …, `DUMMY_NODE<first + count - 1>`. */
  function DummyChain(first: nat, count: nat): (c: seq<Node>)
    ensures |c| == count
  {
    if count == 0 then [] else DummyChain(first, count - 1) + [DummyNode(first + count - 1)]
  }

  /** The levels `lo + 1`, …, `lo + count` of a chain hanging below level `lo`. */
  function ChainLevels(lo: int, count: nat): (ls: seq<int>)
    ensures |ls| == count
  {
    if count == 0 then [] else ChainLevels(lo, count - 1) + [lo + count]
  }

  lemma {:induction false} DummyChainMembers(first: nat, count: nat)
    ensures forall x | x in DummyChain(first, count) :: x.DummyNode? && first <= x.number < first + count
  {
    if count > 0 {
      DummyChainMembers(first, count - 1);
    }
  }

  lemma {:induction false} DummyChainAt(first: nat, count: nat)
    ensures |DummyChain(first, count)| == count && |ChainLevels(0, count)| == count
    ensures forall i | 0 <= i < count :: DummyChain(first, count)[i] == DummyNode(first + i)
  {
    if count > 0 {
      DummyChainAt(first, count - 1);
    }
  }

  lemma {:induction false} ChainLevelsAt(lo: int, count: nat)
    ensures |ChainLevels(lo, count)| == count
    ensures forall i | 0 <= i < count :: ChainLevels(lo, count)[i] == lo + 1 + i
  {
    if count > 0 {
      ChainLevelsAt(lo, count - 1);
    }
  }

  /** `lm` with the dummies `first`, …, `first + count - 1` put on the levels
      `lo + 1`, …, `lo + count`. */
  function WithChainLevels(lm: map<Node, int>, first: nat, count: nat, lo: int): map<Node, int> {
    if count == 0 then lm
    else WithChainLevels(lm, first, count - 1, lo)[DummyNode(first + count - 1) := lo + count]
  }

  /** `bm` with the dummies `first`, …, `first + count - 1` put in block `b`. */
  function WithChainBlock(bm: map<Node, nat>, first: nat, count: nat, b: nat): map<Node, nat> {
    if count == 0 then bm
    else WithChainBlock(bm, first, count - 1, b)[DummyNode(first + count - 1) := b]
  }

  /** The edges between consecutive entries of a path. */
  function PathEdges(p: seq<Node>): (es: seq<Edge>)
    ensures |es| == if |p| < 2 then 0 else |p| - 1
  {
    if |p| < 2 then [] else PathEdges(p[..|p| - 1]) + [(p[|p| - 2], p[|p| - 1])]
  }

  lemma PathEdgesSnoc(p: seq<Node>, x: Node)
    requires p != []
    ensures PathEdges(p + [x]) == PathEdges(p) + [(p[|p| - 1], x)]
  {
    assert (p + [x])[..|p|] == p;
  }

  lemma {:induction false} PathEdgesEnds(p: seq<Node>)
    ensures forall e | e in PathEdges(p) :: e.0 in p && e.1 in p
  {
    if |p| >= 2 {
      PathEdgesEnds(p[..|p| - 1]);
    }
  }

  /** Every edge of a path leaves one of its entries before the last. */
  lemma PathEdgesSources(p: seq<Node>)
    ensures forall e | e in PathEdges(p) :: e.0 in p[..|p| - 1]
  {
    PathEdgesAt(p);
    forall e | e in PathEdges(p) ensures e.0 in p[..|p| - 1] {
      var i :| 0 <= i < |p| - 1 && PathEdges(p)[i] == e;
      assert p[..|p| - 1][i] == p[i];
    }
  }

  lemma {:induction false} PathEdgesAt(p: seq<Node>)
    ensures |p| >= 1 ==> |PathEdges(p)| == |p| - 1
    ensures forall i | 0 <= i < |p| - 1 :: PathEdges(p)[i] == (p[i], p[i + 1])
  {
    if |p| >= 2 {
      var q := p[..|p| - 1];
      PathEdgesAt(q);
      assert forall i | 0 <= i < |q| :: q[i] == p[i];
    }
  }

  lemma ChainEdgesClosed(es: seq<Edge>, e1: seq<Edge>, p: seq<Node>, v: Node)
    requires p != [] && es == e1 + PathEdges(p)
    ensures es + [(p[|p| - 1], v)] == e1 + PathEdges(p + [v])
  {
    PathEdgesSnoc(p, v);
    AppendAssoc(e1, PathEdges(p), [(p[|p| - 1], v)]);
  }

  lemma AppendAssoc<T>(a: seq<T>, b: seq<T>, c: seq<T>)
    ensures (a + b) + c == a + (b + c)
  {
    assert forall k | 0 <= k < |a| + |b| + |c| :: ((a + b) + c)[k] == (a + (b + c))[k];
  }

  /** The level of a block's node is the block's level at that node's place. */
  predicate BlockHolds(b: Block, v: Node, l: int) {
    v in b.nodes && |b.levels| == |b.nodes| && b.levels[IndexOf(b.nodes, v)] == l
  }

  lemma {:induction false} WithChainLevelsAt(lm: map<Node, int>, first: nat, count: nat, lo: int)
    ensures forall i | 0 <= i < count ::
              DummyChain(first, count)[i] in WithChainLevels(lm, first, count, lo)
              && WithChainLevels(lm, first, count, lo)[DummyChain(first, count)[i]] == lo + 1 + i
    ensures forall x | x !in DummyChain(first, count) ::
              && (x in WithChainLevels(lm, first, count, lo) <==> x in lm)
              && (x in lm ==> WithChainLevels(lm, first, count, lo)[x] == lm[x])
  {
    if count > 0 {
      WithChainLevelsAt(lm, first, count - 1, lo);
      DummyChainAt(first, count - 1);
      var c, c' := DummyChain(first, count), DummyChain(first, count - 1);
      assert c == c' + [DummyNode(first + count - 1)];
      assert forall i | 0 <= i < count - 1 :: c[i] == c'[i];
    }
  }

  lemma {:induction false} WithChainBlockAt(bm: map<Node, nat>, first: nat, count: nat, b: nat)
    ensures forall x | x in DummyChain(first, count) ::
              x in WithChainBlock(bm, first, count, b) && WithChainBlock(bm, first, count, b)[x] == b
    ensures forall x | x !in DummyChain(first, count) ::
              && (x in WithChainBlock(bm, first, count, b) <==> x in bm)
              && (x in bm ==> WithChainBlock(bm, first, count, b)[x] == bm[x])
  {
    if count > 0 {
      WithChainBlockAt(bm, first, count - 1, b);
      var c, c' := DummyChain(first, count), DummyChain(first, count - 1);
      assert c == c' + [DummyNode(first + count - 1)];
      forall x | x in c
        ensures x in WithChainBlock(bm, first, count, b) && WithChainBlock(bm, first, count, b)[x] == b
      {
        if x != DummyNode(first + count - 1) {
          assert x in c';
        }
      }
    }
  }

  /** Every edge of the chain u → d1 → … → dk → v spans exactly one level when
      the dummies get the levels between those of u and v. */
  lemma ChainIsLayered(level: map<Node, int>, u: Node, v: Node, first: nat, count: nat)
    requires u in level && v in level && level[v] == level[u] + count + 1
    requires u !in DummyChain(first, count) && v !in DummyChain(first, count)
    ensures var lv := WithChainLevels(level, first, count, level[u]);
            forall e | e in PathEdges([u] + DummyChain(first, count) + [v]) ::
              e.0 in lv && e.1 in lv && lv[e.1] == lv[e.0] + 1
  {
    var lv := WithChainLevels(level, first, count, level[u]);
    var c := DummyChain(first, count);
    var p := [u] + c + [v];
    WithChainLevelsAt(level, first, count, level[u]);
    DummyChainAt(first, count);
    PathEdgesAt(p);
    forall k | 0 <= k < |p| ensures p[k] in lv && lv[p[k]] == level[u] + k {
      if 0 < k <= count {
        assert p[k] == c[k - 1];
      }
    }
    forall e | e in PathEdges(p) ensures e.0 in lv && e.1 in lv && lv[e.1] == lv[e.0] + 1 {
      var k :| 0 <= k < |p| - 1 && PathEdges(p)[k] == e;
      assert e == (p[k], p[k + 1]);
    }
  }

  lemma DummyChainDistinct(first: nat, count: nat)
    ensures Distinct(DummyChain(first, count))
    ensures forall i | 0 <= i < count :: IndexOf(DummyChain(first, count), DummyChain(first, count)[i]) == i
  {
    var c := DummyChain(first, count);
    DummyChainAt(first, count);
    forall i | 0 <= i < count ensures IndexOf(c, c[i]) == i {
      IndexOfDistinct(c, i);
    }
  }

  /** The lowest dummy of a fresh chain hung below `u` has no edge leaving it yet. */
  lemma LastHasNoEdge(e1: seq<Edge>, n0: seq<Node>, u: Node, v: Node, dn0: nat, k: nat)
    requires k > 0 && u in n0
    requires forall e | e in e1 :: e.0 in n0
    requires forall w | w in n0 :: w.DummyNode? ==> w.number < dn0
    ensures (DummyNode(dn0 + k - 1), v) !in e1 + PathEdges([u] + DummyChain(dn0, k))
  {
    var x := DummyNode(dn0 + k - 1);
    var p := [u] + DummyChain(dn0, k);
    DummyChainAt(dn0, k);
    PathEdgesAt(p);
    forall e | e in PathEdges(p) ensures e.0 != x {
      var i :| 0 <= i < |p| - 1 && PathEdges(p)[i] == e;
      assert e == (p[i], p[i + 1]);
      if i > 0 {
        assert p[i] == DummyChain(dn0, k)[i - 1];
      }
    }
  }

  lemma EdgesStep(e0: seq<Edge>, top: Node, dn0: nat, k: nat)
    ensures var c := DummyChain(dn0, k);
            e0 + PathEdges([top] + c) + [(([top] + c)[k], DummyNode(dn0 + k))]
            == e0 + PathEdges([top] + DummyChain(dn0, k + 1))
  {
    var c, x := DummyChain(dn0, k), DummyNode(dn0 + k);
    PathEdgesSnoc([top] + c, x);
    assert [top] + c + [x] == [top] + DummyChain(dn0, k + 1);
  }

  lemma NodesStep(n0: seq<Node>, dn0: nat, k: nat)
    ensures n0 + DummyChain(dn0, k) + [DummyNode(dn0 + k)] == n0 + DummyChain(dn0, k + 1)
  {
  }

  /** The state after `k` rounds of the dummy loop, started from nodes `n0`,
      edges `e0`, counter `dn0` and attribute maps `level0`, `blockOf0`,
      hanging the chain below `top` on levels from `lo + 1` in block `id`. */
  ghost predicate HungState(nodes: seq<Node>, edges: seq<Edge>, dn: nat, lm: map<Node, int>, bm: map<Node, nat>,
                            top: Node, lo: int, k: nat, id: nat, n0: seq<Node>, e0: seq<Edge>, dn0: nat,
                            level0: map<Node, int>, blockOf0: map<Node, nat>)
  {
    && dn == dn0 + k
    && nodes == n0 + DummyChain(dn0, k)
    && edges == e0 + PathEdges([top] + DummyChain(dn0, k))
    && lm == WithChainLevels(level0, dn0, k, lo)
    && bm == WithChainBlock(blockOf0, dn0, k, id)
  }

  /** One more dummy hung below the lowest node of the chain keeps the shape. */
  lemma HungStep(nodes: seq<Node>, edges: seq<Edge>, dn: nat, lm: map<Node, int>, bm: map<Node, nat>,
                 top: Node, lo: int, k: nat, id: nat, n0: seq<Node>, e0: seq<Edge>, dn0: nat,
                 level0: map<Node, int>, blockOf0: map<Node, nat>, last: Node)
    requires HungState(nodes, edges, dn, lm, bm, top, lo, k, id, n0, e0, dn0, level0, blockOf0)
    requires last == if k == 0 then top else DummyNode(dn0 + k - 1)
    ensures var x := DummyNode(dn);
            HungState(nodes + [x], edges + [(last, x)], dn + 1, lm[x := lo + k + 1], bm[x := id],
                      top, lo, k + 1, id, n0, e0, dn0, level0, blockOf0)
  {
    assert ([top] + DummyChain(dn0, k))[k] == last by {
      DummyChainAt(dn0, k);
    }
    EdgesStep(e0, top, dn0, k);
    NodesStep(n0, dn0, k);
  }

  /** `add_node(x)` followed by `add_edge(last, x)` for a node `x` that is
      not in the graph yet. */
  function HangBelow(g: Graph, last: Node, x: Node): (r: Graph)
    requires Valid(g) && last in g.nodes && x !in g.nodes
    ensures Valid(r) && r.nodes == g.nodes + [x] && r.edges == g.edges + [(last, x)]
  {
    AddEdge(AddNode(g, x), last, x)
  }

  /** The invariant of the dummy loop after `|chain|` rounds: the graph `gr`,
      counter `dn` and maps `lm`, `bm` are the start state with the chain
      hung below `top`, and `last` is the lowest node of the chain. */
  ghost predicate ChainLoop(gr: Graph, dn: nat, lm: map<Node, int>, bm: map<Node, nat>,
                            chain: seq<Node>, levels: seq<int>, last: Node,
                            top: Node, lo: int, id: nat, n0: seq<Node>, e0: seq<Edge>, dn0: nat,
                            level0: map<Node, int>, blockOf0: map<Node, nat>)
  {
    && HungState(gr.nodes, gr.edges, dn, lm, bm, top, lo, |chain|, id, n0, e0, dn0, level0, blockOf0)
    && chain == DummyChain(dn0, |chain|) && levels == ChainLevels(lo, |chain|)
    && last == (if chain == [] then top else DummyNode(dn0 + |chain| - 1)) && last in gr.nodes
    && Valid(gr) && DummiesBelow(gr, dn)
  }

  /** One round of the dummy loop keeps `ChainLoop`: the state after hanging
      the dummy `x` numbered `dn` on level `l` below `last`. */
  lemma ChainLoopStep(gr: Graph, dn: nat, lm: map<Node, int>, bm: map<Node, nat>,
                      chain: seq<Node>, levels: seq<int>, last: Node,
                      top: Node, lo: int, id: nat, n0: seq<Node>, e0: seq<Edge>, dn0: nat,
                      level0: map<Node, int>, blockOf0: map<Node, nat>,
                      x: Node, l: int, gr': Graph)
    requires ChainLoop(gr, dn, lm, bm, chain, levels, last, top, lo, id, n0, e0, dn0, level0, blockOf0)
    requires x == DummyNode(dn) && l == lo + |chain| + 1
    requires gr'.nodes == gr.nodes + [x] && gr'.edges == gr.edges + [(last, x)] && Valid(gr')
    ensures ChainLoop(gr', dn + 1, lm[x := l], bm[x := id], chain + [x], levels + [l], x,
                      top, lo, id, n0, e0, dn0, level0, blockOf0)
  {
    HangFresh(gr, dn, last);
    HungStep(gr.nodes, gr.edges, dn, lm, bm, top, lo, |chain|, id, n0, e0, dn0, level0, blockOf0, last);
    assert chain + [x] == DummyChain(dn0, |chain| + 1);
    assert levels + [l] == ChainLevels(lo, |chain| + 1);
    assert |chain + [x]| == |chain| + 1;
  }

  /** A dummy numbered from the counter is new, and hanging it keeps every
      dummy below the advanced counter. */
  lemma HangFresh(gr: Graph, dn: nat, last: Node)
    requires DummiesBelow(gr, dn)
    ensures DummyNode(dn) !in gr.nodes
    ensures DummiesBelow(Graph(gr.nodes + [DummyNode(dn)], gr.edges + [(last, DummyNode(dn))]), dn + 1)
  {
  }

}
