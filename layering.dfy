/**
 * The layered graph (digraph.py, class DiGraph): longest-path layering with
 * dummy chains for long edges, and the dummy root that turns a forest into a
 * single tree.
 *
 * The graph library's node attributes `level` and `block` become the maps
 * `level` and `blockOf` (a node without a level is absent from `level`).
 */
module Layering {
  import opened Graphs
  import opened Blocks
  import opened DummyChains
  import opened LayerSpec
  import opened RootSpec

  class DiGraph {
    /** The nodes and edges, in the library's insertion order. */
    var g: Graph
    /** The `level` attribute of the nodes that have one. */
    var level: map<Node, int>
    /** The `block` attribute: the id of the block a node belongs to. */
    var blockOf: map<Node, nat>
    /** `_dummy_node_number`: the number of the next dummy node. */
    var dummyNumber: nat
    const blocks: BlockList
    /** `_is_dummy_root`. */
    var isDummyRoot: bool

    /** A graph with the given nodes and edges and no attributes yet. */
    constructor (g0: Graph)
      requires Valid(g0)
      ensures g == g0 && level == map[] && blockOf == map[] && dummyNumber == 0
      ensures !isDummyRoot && fresh(blocks) && blocks.Valid() && blocks.order == []
    {
      g := g0;
      level := map[];
      blockOf := map[];
      dummyNumber := 0;
      blocks := new BlockList();
      isDummyRoot := false;
    }

    /** `phi`: the level of a node. */
    function Phi(v: Node): int
      reads this
      requires v in level
    {
      level[v]
    }

    /** `block`: the block id of a node. */
    function NodeBlock(v: Node): nat
      reads this
      requires v in blockOf
    {
      blockOf[v]
    }

    /** After the layering, `phi` grows by exactly one along every edge. */
    lemma PhiAlongEdge(g0: Graph, u: Node, v: Node)
      requires Layered(g0, |g0.nodes|, g, level, blockOf, blocks.blocks)
      requires (u, v) in g.edges
      ensures u in level && v in level && Phi(v) == Phi(u) + 1
    {
    }

    /** After the layering, `block(v)` names a block that holds `v` and
        records `phi(v)` at `v`'s place. */
    lemma NodeBlockHolds(g0: Graph, v: Node)
      requires Layered(g0, |g0.nodes|, g, level, blockOf, blocks.blocks)
      requires v in g.nodes
      ensures v in blockOf && v in level && NodeBlock(v) in blocks.blocks
      ensures BlockHolds(blocks.blocks[NodeBlock(v)], v, Phi(v))
    {
    }

    /** The loop of `_insert_dummy_edges_and_blocks`: one dummy per level
        `lo + 1`, …, `hi - 1`, each hung below the previous one, starting
        below `top`.  Returns the dummies, their levels and the lowest one. */
    method HangChain(top: Node, lo: int, hi: int, id: nat) returns (chain: seq<Node>, levels: seq<int>, last: Node)
      requires lo < hi
      requires Valid(g) && DummiesBelow(g, dummyNumber) && top in g.nodes
      modifies this`g, this`level, this`blockOf, this`dummyNumber
      ensures |chain| == hi - lo - 1
      ensures ChainLoop(g, dummyNumber, level, blockOf, chain, levels, last, top, lo, id,
                        old(g.nodes), old(g.edges), old(dummyNumber), old(level), old(blockOf))
    {
      var gr: Graph, dn: nat, lm: map<Node, int>, bm: map<Node, nat> := g, dummyNumber, level, blockOf;
      ghost var n0, e0, dn0, level0, blockOf0 := g.nodes, g.edges, dummyNumber, level, blockOf;
      last := top;
      chain := [];
      levels := [];
      var l := lo + 1;
      assert gr.nodes == gr.nodes + [] && gr.edges == gr.edges + [];
      while l < hi
        invariant lo + 1 <= l <= hi && |chain| == l - lo - 1
        invariant ChainLoop(gr, dn, lm, bm, chain, levels, last, top, lo, id, n0, e0, dn0, level0, blockOf0)
        modifies {}
      {
        var current := DummyNode(dn);
        HangFresh(gr, dn, last);
        var gr' := HangBelow(gr, last, current);
        ChainLoopStep(gr, dn, lm, bm, chain, levels, last, top, lo, id, n0, e0, dn0, level0, blockOf0, current, l, gr');
        gr, dn, lm, bm := gr', dn + 1, lm[current := l], bm[current := id];
        chain, levels, last := chain + [current], levels + [l], current;
        l := l + 1;
      }
      g, dummyNumber, level, blockOf := gr, dn, lm, bm;
    }

    /** The graph half of `_insert_dummy_edges_and_blocks(u, v)` for an edge
        reaching more than one level down: the edge is removed and the chain
        u → d1 → … → dk → v takes its place, the dummies numbered from the
        counter and tagged with block `id`. */
    method RerouteEdge(u: Node, v: Node, id: nat) returns (chain: seq<Node>, levels: seq<int>)
      requires u in level && v in level && level[v] - level[u] > 1 && (u, v) in g.edges
      requires Valid(g) && DummiesBelow(g, dummyNumber)
      modifies this`g, this`level, this`blockOf, this`dummyNumber
      ensures var k := old(level[v] - level[u]) - 1;
              && chain == DummyChain(old(dummyNumber), k)
              && levels == ChainLevels(old(level[u]), k)
              && dummyNumber == old(dummyNumber) + k
              && g.nodes == old(g.nodes) + chain
              && level == WithChainLevels(old(level), old(dummyNumber), k, old(level[u]))
              && blockOf == WithChainBlock(old(blockOf), old(dummyNumber), k, id)
      ensures g.edges == RemoveAll(old(g.edges), (u, v)) + PathEdges([u] + chain + [v])
      ensures Valid(g) && DummiesBelow(g, dummyNumber)
    {
      var lu, lv := level[u], level[v];
      g := RemoveEdge(g, (u, v));
      ghost var e1 := g.edges;
      var last;
      chain, levels, last := HangChain(u, lu, lv, id);
      assert (last, v) !in g.edges by {
        LastHasNoEdge(e1, old(g.nodes), u, v, old(dummyNumber), |chain|);
      }
      ChainEdgesClosed(g.edges, e1, [u] + chain, v);
      g := AddEdge(g, last, v);
    }

    /** `_insert_dummy_edges_and_blocks(u, v)`: an edge reaching `lv - lu > 1`
        levels down is replaced by a chain through one new dummy node per
        level in between; the dummies form one new block whose neighbours are
        u above and v below.  An edge that does not go down is left alone.
        (An edge one level down would give an empty block, which the block
        constructor rejects.) */
    method InsertDummyEdgesAndBlocks(u: Node, v: Node)
      requires u in level && v in level
      requires level[v] - level[u] != 1
      requires level[v] - level[u] > 1 ==> (u, v) in g.edges
      requires Valid(g) && blocks.Valid() && DummiesBelow(g, dummyNumber)
      modifies this`g, this`level, this`blockOf, this`dummyNumber, blocks
      ensures Valid(g) && blocks.Valid() && DummiesBelow(g, dummyNumber)
      ensures dummyNumber >= old(dummyNumber)
      ensures g.nodes == old(g.nodes) + DummyChain(old(dummyNumber), dummyNumber - old(dummyNumber))
      ensures old(level[v] - level[u]) <= 1 ==>
                g == old(g) && level == old(level) && blockOf == old(blockOf)
                && dummyNumber == old(dummyNumber)
                && blocks.order == old(blocks.order) && blocks.blocks == old(blocks.blocks)
      ensures var lu, dn, id := old(level[u]), old(dummyNumber), |old(blocks.order)|;
              var k := old(level[v] - level[u]) - 1;
              k > 0 ==>
                var chain := DummyChain(dn, k);
                && dummyNumber == dn + k
                && g.edges == RemoveAll(old(g.edges), (u, v)) + PathEdges([u] + chain + [v])
                && level == WithChainLevels(old(level), dn, k, lu)
                && blockOf == WithChainBlock(old(blockOf), dn, k, id)
                && blocks.order == old(blocks.order) + [id]
                && blocks.blocks == old(blocks.blocks)[id := Block(id, chain, ChainLevels(lu, k), [u], [v], [], [])]
    {
      var lu, lv := level[u], level[v];
      if lv - lu >= 1 {
        InsertChainBlock(u, v);
      } else {
        assert DummyChain(dummyNumber, 0) == [];
      }
    }

    /** The branch of `insert_dummy_edges_and_blocks` for an edge more than
        one level down: the chain of dummies and its block. */
    method InsertChainBlock(u: Node, v: Node)
      requires u in level && v in level && level[v] - level[u] > 1 && (u, v) in g.edges
      requires Valid(g) && blocks.Valid() && DummiesBelow(g, dummyNumber)
      modifies this`g, this`level, this`blockOf, this`dummyNumber, blocks
      ensures Valid(g) && blocks.Valid() && DummiesBelow(g, dummyNumber)
      ensures var lu, dn, id := old(level[u]), old(dummyNumber), |old(blocks.order)|;
              var k := old(level[v] - level[u]) - 1;
              var chain := DummyChain(dn, k);
              && dummyNumber == dn + k
              && g.nodes == old(g.nodes) + chain
              && g.edges == RemoveAll(old(g.edges), (u, v)) + PathEdges([u] + chain + [v])
              && level == WithChainLevels(old(level), dn, k, lu)
              && blockOf == WithChainBlock(old(blockOf), dn, k, id)
              && blocks.order == old(blocks.order) + [id]
              && blocks.blocks == old(blocks.blocks)[id := Block(id, chain, ChainLevels(lu, k), [u], [v], [], [])]
    {
      var id := blocks.NewBlockNumber();
      var chain, levels := RerouteEdge(u, v, id);
      var added := blocks.AddBlock(NewBlock(chain, levels, [u], [v]));
      assert NewBlock(chain, levels, [u], [v]).(id := id) == Block(id, chain, levels, [u], [v], [], []);
    }

    /** The scan over the successors of `node` in `longest_path_layering`:
        `ready` when every successor has a level, and then their levels in
        successor order (`layers_neighbors`). */
    method ScanSuccessors(node: Node) returns (ready: bool, ls: seq<int>)
      ensures ready <==> forall w | w in Successors(g, node) :: w in level
      ensures ready ==> ls == LevelsOf(Successors(g, node), level)
    {
      var succ := Successors(g, node);
      ls := [];
      var i := 0;
      while i < |succ|
        invariant 0 <= i <= |succ|
        invariant forall j | 0 <= j < i :: succ[j] in level
        invariant |ls| == i && forall j | 0 <= j < i :: ls[j] == level[succ[j]]
      {
        if succ[i] !in level {
          return false, ls;
        }
        ls := ls + [level[succ[i]]];
        i := i + 1;
      }
      ready := true;
      assert ls == LevelsOf(succ, level);
    }

    /** One round of the successor loop of the placement: the edge to
        `succ[i]` is replaced by a dummy chain when it reaches more than one
        level down, and kept otherwise. */
    method SettleEdge(ghost g0: Graph, ghost m: int, ghost wl: seq<Node>, node: Node, succ: seq<Node>, i: nat, ghost n: int)
      requires i < |succ| && blocks.Valid()
      requires Settling(g0, m, wl, node, succ, i, n, g, level, blockOf, dummyNumber, blocks.blocks)
      modifies this`g, this`level, this`blockOf, this`dummyNumber, blocks
      ensures Settling(g0, m, wl, node, succ, i + 1, n, g, level, blockOf, dummyNumber, blocks.blocks)
      ensures blocks.Valid()
    {
      var v := succ[i];
      SettlingNext(g0, m, wl, node, succ, i, n, g, level, blockOf, dummyNumber, blocks.blocks);
      if level[v] - level[node] > 1 {
        ghost var g1, lm1, bm1, dn1, bl1, id := g, level, blockOf, dummyNumber, blocks.blocks, blocks.NewBlockNumber();
        InsertDummyEdgesAndBlocks(node, v);
        DummyStep(g0, m, wl, node, succ, i, n, id, g1, lm1, bm1, dn1, bl1, g, level, blockOf, dummyNumber, blocks.blocks);
      } else {
        ShortStep(g0, m, wl, node, succ, i, n, g, level, blockOf, dummyNumber, blocks.blocks);
      }
    }

    /** The successor loop of the placement of `node` on level `n`: each
        edge to a successor more than one level down is replaced by a dummy
        chain. */
    method SettleEdges(ghost g0: Graph, ghost m: int, ghost wl: seq<Node>, node: Node, succ: seq<Node>, ghost n: int)
      requires blocks.Valid()
      requires Settling(g0, m, wl, node, succ, 0, n, g, level, blockOf, dummyNumber, blocks.blocks)
      modifies this`g, this`level, this`blockOf, this`dummyNumber, blocks
      ensures Settling(g0, m, wl, node, succ, |succ|, n, g, level, blockOf, dummyNumber, blocks.blocks)
      ensures blocks.Valid()
    {
      var i := 0;
      while i < |succ|
        invariant i <= |succ| && blocks.Valid()
        invariant Settling(g0, m, wl, node, succ, i, n, g, level, blockOf, dummyNumber, blocks.blocks)
      {
        SettleEdge(g0, m, wl, node, succ, i, n);
        i := i + 1;
      }
    }

    /** The placement of a ready node: it gets level `n`, each edge to a
        successor more than one level down is replaced by a dummy chain, and
        the node becomes a block of its own. */
    method PlaceNode(ghost g0: Graph, ghost m: int, ghost wl: seq<Node>, node: Node, n: int)
      requires LayerState(g0, m, g, level, blockOf, dummyNumber, blocks.blocks, wl + [node], [], [])
      requires blocks.Valid()
      requires forall w | w in Successors(g, node) :: w in level
      requires Successors(g, node) != [] && n == MinOf(LevelsOf(Successors(g, node), level)) - 1
      modifies this`g, this`level, this`blockOf, this`dummyNumber, blocks
      ensures blocks.Valid()
      ensures LayerState(g0, m, g, level, blockOf, dummyNumber, blocks.blocks, wl, [], [])
    {
      var succ := Successors(g, node);
      SetLevel(g0, m, wl, node, n);
      SettleEdges(g0, m, wl, node, succ, n);
      AddNodeBlock(g0, m, wl, node, succ, n);
    }

    /** The start of the placement: `node` gets level `n`. */
    method SetLevel(ghost g0: Graph, ghost m: int, ghost wl: seq<Node>, node: Node, n: int)
      requires LayerState(g0, m, g, level, blockOf, dummyNumber, blocks.blocks, wl + [node], [], [])
      requires forall w | w in Successors(g, node) :: w in level
      requires Successors(g, node) != [] && n == MinOf(LevelsOf(Successors(g, node), level)) - 1
      modifies this`level
      ensures Settling(g0, m, wl, node, Successors(g, node), 0, n, g, level, blockOf, dummyNumber, blocks.blocks)
      ensures g == old(g) && blockOf == old(blockOf) && dummyNumber == old(dummyNumber)
    {
      LevelNodeStep(g0, m, g, level, blockOf, dummyNumber, blocks.blocks, wl, node, n);
      level := level[node := n];
    }

    /** The end of the placement: `node` becomes a block of its own, with its
        current predecessors and successors. */
    method AddNodeBlock(ghost g0: Graph, ghost m: int, ghost wl: seq<Node>, node: Node, ghost succ: seq<Node>, n: int)
      requires blocks.Valid()
      requires Settling(g0, m, wl, node, succ, |succ|, n, g, level, blockOf, dummyNumber, blocks.blocks)
      modifies this`blockOf, blocks
      ensures g == old(g) && level == old(level) && dummyNumber == old(dummyNumber)
      ensures blocks.Valid()
      ensures LayerState(g0, m, g, level, blockOf, dummyNumber, blocks.blocks, wl, [], [])
    {
      var b := NewBlock([node], [n], Predecessors(g, node), Successors(g, node));
      BlockStep(g0, m, wl, node, succ, n, g, level, blockOf, dummyNumber, blocks.blocks,
                blocks.NewBlockNumber(), b.(id := blocks.NewBlockNumber()));
      var id := blocks.AddBlock(b);
      blockOf := blockOf[node := id];
    }

    /** The sink loop of `longest_path_layering`: every node without
        successors gets level `m` and a block of its own, with its
        predecessors and no successors. */
    method PlaceSinks(m: int)
      requires level == map[] && blocks.Valid()
      modifies this`level, this`blockOf, blocks
      ensures blocks.Valid() && SinksPlaced(level, blockOf, blocks.blocks, m, Sinks(g), |Sinks(g)|)
    {
      var sinks := Sinks(g);
      var i := 0;
      while i < |sinks|
        invariant blocks.Valid() && SinksPlaced(level, blockOf, blocks.blocks, m, sinks, i)
      {
        var sink := sinks[i];
        var b := NewBlock([sink], [m], Predecessors(g, sink), []);
        SinkStep(level, blockOf, blocks.blocks, m, sinks, i, blocks.NewBlockNumber(), b.(id := blocks.NewBlockNumber()));
        var id := blocks.AddBlock(b);
        level := level[sink := m];
        blockOf := blockOf[sink := id];
        i := i + 1;
      }
    }

    /** `longest_path_layering`: the sinks go on level `m` = the node count;
        then nodes are popped from the end of the worklist of the others, and
        a node whose successors all have a level is placed one level above the
        lowest of them, while any other goes back to the front.  The loop ends
        only on an acyclic graph; `topo`, an order all edges follow, stands
        for that assumption and bounds the number of rounds. */
    method LongestPathLayering(ghost topo: seq<Node>)
      requires Valid(g) && blocks.Valid() && DummiesBelow(g, dummyNumber)
      requires Forward(g.edges, topo) && forall x | x in g.nodes :: x in topo
      modifies this`g, this`level, this`blockOf, this`dummyNumber, blocks
      ensures blocks.Valid()
      ensures Layered(old(g), |old(g.nodes)|, g, level, blockOf, blocks.blocks)
    {
      ghost var g0 := g;
      level := map[];
      var m := |g.nodes|;
      PlaceSinks(m);
      SinksDone(g, m, level, blockOf, dummyNumber, blocks.blocks);
      var wl := Unleveled(g.nodes, level);
      assert forall x | x in wl :: x in topo;
      while wl != []
        invariant blocks.Valid() && forall x | x in wl :: x in topo
        invariant LayerState(g0, m, g, level, blockOf, dummyNumber, blocks.blocks, wl, [], [])
        decreases |wl|, if wl == [] then 0 else |wl| - IndexOf(wl, MaxTopo(wl, topo))
      {
        var node := wl[|wl| - 1];
        var rest := wl[..|wl| - 1];
        LastSplit(wl);
        PopNode(g0, m, g, level, blockOf, dummyNumber, blocks.blocks, rest, node);
        var ready, ls := ScanSuccessors(node);
        if ready {
          PopInTopo(rest, node, topo);
          PlaceNode(g0, m, rest, node, MinOf(ls) - 1);
          wl := rest;
        } else {
          RotateUnready(g0, m, g, level, blockOf, dummyNumber, blocks.blocks, rest, node, topo);
          wl := [node] + rest;
        }
      }
      LayerDone(g0, m, g, level, blockOf, dummyNumber, blocks.blocks);
    }

    /** `insert_dummy_root`: the nodes without a predecessor are collected
        first; then the flag is set, the dummy root is added as a node and an
        edge from it to each collected node is added in turn. */
    method InsertDummyRoot() returns (root: Node)
      modifies this`g, this`isDummyRoot
      ensures root == DummyRoot && isDummyRoot
      ensures g == WithDummyRoot(old(g))
    {
      ghost var target := WithDummyRoot(g);
      var roots := Sources(g);
      isDummyRoot := true;
      var gr := AddNode(g, DummyRoot);
      var i := 0;
      while i < |roots|
        invariant i <= |roots|
        invariant AddEdgesFrom(gr, DummyRoot, roots[i..]) == target
        modifies {}
      {
        AddEdgesFromStep(gr, DummyRoot, roots, i);
        gr := AddEdge(gr, DummyRoot, roots[i]);
        i := i + 1;
      }
      g := gr;
      root := DummyRoot;
    }

    /** `as_tree`: the self-loops go first; then a graph in which no node is
        without a predecessor has no root, a graph with one such node has it
        as root, and a graph with several gets the dummy root above them. */
    method AsTree() returns (root: Option<Node>)
      modifies this`g, this`isDummyRoot
      ensures var h := RemoveSelfLoops(old(g)); var roots := Sources(h);
        && (|roots| <= 1 ==> g == h && isDummyRoot == old(isDummyRoot))
        && (roots == [] ==> root == None)
        && (|roots| == 1 ==> root == Some(roots[0]))
        && (|roots| > 1 ==> root == Some(DummyRoot) && isDummyRoot && g == WithDummyRoot(h))
      ensures Valid(old(g)) && DummyRoot !in old(g).nodes && root.Some? ==>
        Valid(g) && UniqueRoot(g, root.value)
    {
      g := RemoveSelfLoops(g);
      ghost var h := g;
      var roots := Sources(g);
      if |roots| == 0 {
        root := None;
      } else if |roots| > 1 {
        var r := InsertDummyRoot();
        root := Some(r);
        if Valid(h) && DummyRoot !in h.nodes {
          DummyRootShape(h);
          DummyRootUnique(h);
        }
      } else {
        root := Some(roots[0]);
        SingleSourceUnique(h);
      }
    }
  }
}
