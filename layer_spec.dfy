/**
 * What longest-path layering (digraph.py, `longest_path_layering`) promises,
 * and the state its worklist loop keeps, stated on plain values so that the
 * steps of the loop can be argued one at a time.
 *
 * `g0` is the graph before layering and `m` its node count; `g`, `lm`, `bm`,
 * `dn` and `bl` are the current graph, `level` and `block` attributes, dummy
 * counter and block table.
 */
module LayerSpec {
  import opened Graphs
  import opened Blocks
  import opened DummyChains

  /** The levels of `ns`, in the order of `ns` (the list `layers_neighbors`). */
  function LevelsOf(ns: seq<Node>, lm: map<Node, int>): (ls: seq<int>)
    requires forall x | x in ns :: x in lm
    ensures |ls| == |ns| && forall i | 0 <= i < |ns| :: ls[i] == lm[ns[i]]
  {
    if ns == [] then [] else LevelsOf(ns[..|ns| - 1], lm) + [lm[ns[|ns| - 1]]]
  }

  /** Python's `min` of a non-empty list. */
  function MinOf(s: seq<int>): (r: int)
    requires s != []
    ensures r in s && forall x | x in s :: r <= x
  {
    if |s| == 1 then s[0]
    else
      var r := MinOf(s[1..]);
      assert forall x | x in s[1..] :: x in s;
      assert forall x | x in s :: x == s[0] || x in s[1..];
      if s[0] <= r then s[0] else r
  }

  /** The level the layering gives an original node `v`: `m` for a sink,
      otherwise one less than the smallest level of its successors. */
  ghost predicate LongestPathLevel(g0: Graph, lm: map<Node, int>, m: int, v: Node) {
    var succ := Successors(g0, v);
    && v in lm
    && (forall w | w in succ :: w in lm)
    && lm[v] == if succ == [] then m else MinOf(LevelsOf(succ, lm)) - 1
  }

  /** The level of a node with successors is below all of them and exactly
      one below at least one of them; a sink is on level `m`. */
  lemma LongestPathLevelEdges(g0: Graph, lm: map<Node, int>, m: int, v: Node)
    requires LongestPathLevel(g0, lm, m, v)
    ensures forall w | (v, w) in g0.edges :: w in lm && lm[w] >= lm[v] + 1
    ensures Successors(g0, v) == [] ==> lm[v] == m
    ensures Successors(g0, v) != [] ==> exists w :: (v, w) in g0.edges && w in lm && lm[w] == lm[v] + 1
  {
    var succ := Successors(g0, v);
    if succ != [] {
      var ls := LevelsOf(succ, lm);
      forall w | (v, w) in g0.edges ensures w in lm && lm[w] >= lm[v] + 1 {
        var i :| 0 <= i < |succ| && succ[i] == w;
        assert ls[i] in ls;
      }
      var i :| 0 <= i < |ls| && ls[i] == MinOf(ls);
      assert (v, succ[i]) in g0.edges;
    }
  }

  /** Giving more nodes a level leaves the level a placed node should have
      unchanged. */
  lemma LongestPathLevelFrame(g0: Graph, lm: map<Node, int>, lm': map<Node, int>, m: int, v: Node)
    requires LongestPathLevel(g0, lm, m, v)
    requires forall x | x in lm :: x in lm' && lm'[x] == lm[x]
    ensures LongestPathLevel(g0, lm', m, v)
  {
    var succ := Successors(g0, v);
    if succ != [] {
      assert LevelsOf(succ, lm') == LevelsOf(succ, lm);
    }
  }

  /** The edges from `v` to each of `ws`. */
  function EdgesFrom(v: Node, ws: seq<Node>): (es: seq<Edge>)
    ensures forall e | e in es :: e.0 == v && e.1 in ws
    ensures forall w | w in ws :: (v, w) in es
  {
    if ws == [] then [] else [(v, ws[0])] + EdgesFrom(v, ws[1..])
  }

  /** The worklist holds original nodes without a level, each once; every
      original node has a level or is in the worklist; every other node is a
      dummy with a level. */
  ghost predicate NodesKept(g0: Graph, g: Graph, lm: map<Node, int>, wl: seq<Node>) {
    && Distinct(wl) && (forall x | x in wl :: x in g0.nodes && x !in lm)
    && (forall x | x in g0.nodes :: x in g.nodes && (x in lm || x in wl))
    && (forall x | x in g.nodes :: x in g0.nodes || (x in lm && x.DummyNode?))
    && (forall x | x in lm :: x in g.nodes)
  }

  /** An original node without a level is no sink and still has its original
      successor list. */
  ghost predicate SuccessorsKept(g0: Graph, g: Graph, lm: map<Node, int>) {
    forall v | v in g0.nodes && v !in lm :: Successors(g0, v) != [] && Successors(g, v) == Successors(g0, v)
  }

  /** Every edge leaving a node with a level goes exactly one level down,
      except those in `pending`. */
  ghost predicate EdgesDown(g: Graph, lm: map<Node, int>, pending: seq<Edge>) {
    forall e | e in g.edges && e.0 in lm :: e in pending || (e.1 in lm && lm[e.1] == lm[e.0] + 1)
  }

  /** Every original node with a level has the one `LongestPathLevel` asks for. */
  ghost predicate LevelsRight(g0: Graph, lm: map<Node, int>, m: int) {
    forall v | v in g0.nodes && v in lm :: LongestPathLevel(g0, lm, m, v)
  }

  /** Every node with a level, except those in `held`, lies in a block that
      records that level. */
  ghost predicate BlocksRight(lm: map<Node, int>, bm: map<Node, nat>, bl: map<nat, Block>, held: seq<Node>) {
    forall x | x in lm && x !in held :: x in bm && bm[x] in bl && BlockHolds(bl[bm[x]], x, lm[x])
  }

  /** The state of the layering loop.  `wl` is the worklist of original nodes
      without a level; the edges in `pending` may still reach further than one
      level down, and the nodes in `held` have a level but no block yet. */
  ghost predicate LayerState(g0: Graph, m: int, g: Graph, lm: map<Node, int>, bm: map<Node, nat>, dn: nat,
                             bl: map<nat, Block>, wl: seq<Node>, pending: seq<Edge>, held: seq<Node>)
  {
    && Valid(g0) && Valid(g) && DummiesBelow(g, dn)
    && NodesKept(g0, g, lm, wl)
    && SuccessorsKept(g0, g, lm)
    && EdgesDown(g, lm, pending)
    && LevelsRight(g0, lm, m)
    && BlocksRight(lm, bm, bl, held)
  }

  /** The outcome of the layering: every node has a level, original nodes
      the level `LongestPathLevel` describes, every edge goes exactly one level
      down, every added node is a dummy, and every node lies in a block that
      records its level. */
  ghost predicate Layered(g0: Graph, m: int, g: Graph, lm: map<Node, int>, bm: map<Node, nat>, bl: map<nat, Block>) {
    && Valid(g)
    && (forall x | x in g0.nodes :: x in g.nodes)
    && (forall x | x in g.nodes :: x in lm && (x in g0.nodes || x.DummyNode?))
    && (forall v | v in g0.nodes :: LongestPathLevel(g0, lm, m, v))
    && (forall e | e in g.edges :: e.0 in lm && e.1 in lm && lm[e.1] == lm[e.0] + 1)
    && (forall x | x in g.nodes :: x in bm && bm[x] in bl && BlockHolds(bl[bm[x]], x, lm[x]))
  }

  /** An empty worklist with nothing pending or held is a finished layering. */
  lemma LayerDone(g0: Graph, m: int, g: Graph, lm: map<Node, int>, bm: map<Node, nat>, dn: nat, bl: map<nat, Block>)
    requires LayerState(g0, m, g, lm, bm, dn, bl, [], [], [])
    ensures Layered(g0, m, g, lm, bm, bl)
  {
    forall e | e in g.edges ensures e.0 in lm && e.1 in lm && lm[e.1] == lm[e.0] + 1 {
      assert e.0 in g.nodes;
    }
  }

  /** The edges to `ws` still leave `v` and reach at least one level down. */
  ghost predicate PendingOK(g: Graph, lm: map<Node, int>, v: Node, ws: seq<Node>) {
    forall w | w in ws :: (v, w) in g.edges && v in lm && w in lm && lm[w] >= lm[v] + 1
  }

  /** Placing `node` one level above the lowest of its (placed) successors
      gives it the level `LongestPathLevel` asks for, and keeps that of every
      node placed before. */
  lemma PlaceKeepsLevels(g0: Graph, lm: map<Node, int>, m: int, node: Node, n: int)
    requires LevelsRight(g0, lm, m)
    requires node !in lm && Successors(g0, node) != [] && forall w | w in Successors(g0, node) :: w in lm
    requires n == MinOf(LevelsOf(Successors(g0, node), lm)) - 1
    ensures LevelsRight(g0, lm[node := n], m)
  {
    var lm' := lm[node := n];
    PlacedLevel(g0, lm, m, node, n);
    forall v | v in g0.nodes && v in lm' && v != node ensures LongestPathLevel(g0, lm', m, v) {
      LongestPathLevelFrame(g0, lm, lm', m, v);
    }
  }

  /** The placed node itself gets the level `LongestPathLevel` asks for. */
  lemma PlacedLevel(g0: Graph, lm: map<Node, int>, m: int, node: Node, n: int)
    requires node !in lm && Successors(g0, node) != [] && forall w | w in Successors(g0, node) :: w in lm
    requires n == MinOf(LevelsOf(Successors(g0, node), lm)) - 1
    ensures LongestPathLevel(g0, lm[node := n], m, node)
  {
    var succ := Successors(g0, node);
    assert LevelsOf(succ, lm[node := n]) == LevelsOf(succ, lm);
  }

  /** Every successor of the placed node lies at least one level below it. */
  lemma PlaceBelowSuccessors(succ: seq<Node>, lm: map<Node, int>, node: Node, n: int)
    requires node !in lm && succ != [] && forall w | w in succ :: w in lm
    requires n == MinOf(LevelsOf(succ, lm)) - 1
    ensures forall w | w in succ :: w in lm[node := n] && lm[node := n][w] >= n + 1
  {
    var ls := LevelsOf(succ, lm);
    forall w | w in succ ensures lm[w] >= n + 1 {
      var i :| 0 <= i < |succ| && succ[i] == w;
      assert ls[i] in ls;
    }
  }

  /** After placing `node`, its own edges are pending and every other edge
      leaving a placed node still goes one level down. */
  lemma PlaceEdges(g: Graph, lm: map<Node, int>, node: Node, n: int)
    requires node !in lm
    requires EdgesDown(g, lm, [])
    ensures EdgesDown(g, lm[node := n], EdgesFrom(node, Successors(g, node)))
  {
    var lm' := lm[node := n];
    var succ := Successors(g, node);
    forall e | e in g.edges && e.0 in lm'
      ensures e in EdgesFrom(node, succ) || (e.1 in lm' && lm'[e.1] == lm'[e.0] + 1)
    {
      if e.0 == node {
        assert e == (node, e.1);
        assert e.1 in succ;
      }
    }
  }

  /** Placing `node` keeps the successor lists of the nodes still unplaced. */
  lemma PlaceKeepsSuccessors(g0: Graph, g: Graph, lm: map<Node, int>, node: Node, n: int)
    requires SuccessorsKept(g0, g, lm)
    ensures SuccessorsKept(g0, g, lm[node := n])
  {
    forall v | v in g0.nodes && v !in lm[node := n]
      ensures Successors(g0, v) != [] && Successors(g, v) == Successors(g0, v)
    {
      assert v !in lm;
      assert Successors(g, v) == Successors(g0, v);
    }
  }

  /** Placing the popped node: it leaves the worklist and gains a level. */
  lemma PlaceKeepsNodes(g0: Graph, g: Graph, lm: map<Node, int>, wl: seq<Node>, node: Node, n: int)
    requires NodesKept(g0, g, lm, wl + [node])
    ensures NodesKept(g0, g, lm[node := n], wl)
  {
    PopDistinct(wl, node);
    assert node in wl + [node];
  }

  /** Placing a node without a block yet keeps every other block record. */
  lemma PlaceKeepsBlocks(lm: map<Node, int>, bm: map<Node, nat>, bl: map<nat, Block>, node: Node, n: int)
    requires BlocksRight(lm, bm, bl, [])
    ensures BlocksRight(lm[node := n], bm, bl, [node])
  {
  }

  /** The popped node leaves the worklist without repeating anything. */
  lemma PopDistinct(wl: seq<Node>, node: Node)
    requires Distinct(wl + [node])
    ensures Distinct(wl) && node !in wl
    ensures forall x | x in wl :: x in wl + [node]
  {
    forall i, j | 0 <= i < j < |wl| ensures wl[i] != wl[j] {
      assert (wl + [node])[i] == wl[i] && (wl + [node])[j] == wl[j];
    }
    forall i | 0 <= i < |wl| ensures wl[i] != node {
      assert (wl + [node])[i] == wl[i] && (wl + [node])[|wl|] == node;
    }
  }

  /** Giving the popped node `node`, whose successors all have a level, the
      level one above the lowest of them leaves only its own edges pending and
      only itself without a block. */
  lemma LevelNodeStep(g0: Graph, m: int, g: Graph, lm: map<Node, int>, bm: map<Node, nat>, dn: nat,
                      bl: map<nat, Block>, wl: seq<Node>, node: Node, n: int)
    requires LayerState(g0, m, g, lm, bm, dn, bl, wl + [node], [], [])
    requires forall w | w in Successors(g, node) :: w in lm
    requires Successors(g, node) != [] && n == MinOf(LevelsOf(Successors(g, node), lm)) - 1
    ensures Settling(g0, m, wl, node, Successors(g, node), 0, n, g, lm[node := n], bm, dn, bl)
  {
    var succ := Successors(g, node);
    assert succ[0..] == succ;
    assert node in wl + [node];
    assert succ == Successors(g0, node);
    SuccessorsDistinct(g.edges, node);
    PlaceKeepsNodes(g0, g, lm, wl, node, n);
    PlaceBelowSuccessors(succ, lm, node, n);
    PlaceKeepsLevels(g0, lm, m, node, n);
    PlaceEdges(g, lm, node, n);
    PlaceKeepsSuccessors(g0, g, lm, node, n);
    PlaceKeepsBlocks(lm, bm, bl, node, n);
  }

  /** The state change of `_insert_dummy_edges_and_blocks(u, v)` for an edge
      reaching `lv - lu > 1` levels down: the edge gives way to a chain of
      `lv - lu - 1` dummies numbered from `dn`, on the levels in between, all
      in the new block `id`. */
  ghost predicate Rerouted(g: Graph, lm: map<Node, int>, bm: map<Node, nat>, dn: nat, bl: map<nat, Block>,
                           u: Node, v: Node, id: nat,
                           g': Graph, lm': map<Node, int>, bm': map<Node, nat>, dn': nat, bl': map<nat, Block>)
  {
    && u in lm && v in lm && lm[v] - lm[u] > 1
    && var k := lm[v] - lm[u] - 1;
       var chain := DummyChain(dn, k);
       && dn' == dn + k
       && g'.nodes == g.nodes + chain
       && g'.edges == RemoveAll(g.edges, (u, v)) + PathEdges([u] + chain + [v])
       && lm' == WithChainLevels(lm, dn, k, lm[u])
       && bm' == WithChainBlock(bm, dn, k, id)
       && bl' == bl[id := Block(id, chain, ChainLevels(lm[u], k), [u], [v], [], [])]
  }

  /** The dummies of a chain are new nodes; they get levels and block `id`,
      and every other node keeps its level and block. */
  lemma ChainFresh(g: Graph, lm: map<Node, int>, bm: map<Node, nat>, dn: nat, k: nat, lu: int, id: nat)
    requires DummiesBelow(g, dn)
    ensures var chain, lm', bm' := DummyChain(dn, k), WithChainLevels(lm, dn, k, lu), WithChainBlock(bm, dn, k, id);
            && (forall x | x in chain :: x !in g.nodes && x.DummyNode? && x in lm' && x in bm' && bm'[x] == id)
            && (forall x | x !in chain :: (x in lm' <==> x in lm) && (x in lm ==> lm'[x] == lm[x]))
            && (forall x | x !in chain :: (x in bm' <==> x in bm) && (x in bm ==> bm'[x] == bm[x]))
  {
    DummyChainMembers(dn, k);
    WithChainLevelsAt(lm, dn, k, lu);
    WithChainBlockAt(bm, dn, k, id);
    DummyChainAt(dn, k);
    forall x | x in DummyChain(dn, k) ensures x in WithChainLevels(lm, dn, k, lu) {
      var i :| 0 <= i < k && DummyChain(dn, k)[i] == x;
    }
  }

  lemma RerouteKeepsNodes(g0: Graph, wl: seq<Node>, g: Graph, lm: map<Node, int>, bm: map<Node, nat>, dn: nat,
                          bl: map<nat, Block>, u: Node, v: Node, id: nat,
                          g': Graph, lm': map<Node, int>, bm': map<Node, nat>, dn': nat, bl': map<nat, Block>)
    requires Rerouted(g, lm, bm, dn, bl, u, v, id, g', lm', bm', dn', bl')
    requires NodesKept(g0, g, lm, wl) && DummiesBelow(g, dn)
    ensures NodesKept(g0, g', lm', wl)
  {
    ChainFresh(g, lm, bm, dn, lm[v] - lm[u] - 1, lm[u], id);
  }

  lemma RerouteKeepsSuccessors(g0: Graph, g: Graph, lm: map<Node, int>, bm: map<Node, nat>, dn: nat,
                               bl: map<nat, Block>, u: Node, v: Node, id: nat,
                               g': Graph, lm': map<Node, int>, bm': map<Node, nat>, dn': nat, bl': map<nat, Block>)
    requires Rerouted(g, lm, bm, dn, bl, u, v, id, g', lm', bm', dn', bl')
    requires SuccessorsKept(g0, g, lm) && DummiesBelow(g, dn)
    ensures SuccessorsKept(g0, g', lm')
  {
    var k := lm[v] - lm[u] - 1;
    var chain := DummyChain(dn, k);
    var p := [u] + chain + [v];
    ChainFresh(g, lm, bm, dn, k, lm[u], id);
    PathEdgesSources(p);
    assert p[..|p| - 1] == [u] + chain;
    forall x | x in g0.nodes && x !in lm' ensures Successors(g0, x) != [] && Successors(g', x) == Successors(g0, x) {
      assert x !in chain && x !in lm && x != u;
      SuccessorsAppend(RemoveAll(g.edges, (u, v)), PathEdges(p), x);
      SuccessorsRemoveOther(g.edges, (u, v), x);
      SuccessorsNone(PathEdges(p), x);
    }
  }

  lemma RerouteKeepsLevels(g0: Graph, m: int, g: Graph, lm: map<Node, int>, bm: map<Node, nat>, dn: nat,
                           bl: map<nat, Block>, u: Node, v: Node, id: nat,
                           g': Graph, lm': map<Node, int>, bm': map<Node, nat>, dn': nat, bl': map<nat, Block>)
    requires Rerouted(g, lm, bm, dn, bl, u, v, id, g', lm', bm', dn', bl')
    requires LevelsRight(g0, lm, m) && DummiesBelow(g, dn)
    requires forall x | x in g0.nodes :: x in g.nodes
    requires forall x | x in lm :: x in g.nodes
    ensures LevelsRight(g0, lm', m)
  {
    ChainFresh(g, lm, bm, dn, lm[v] - lm[u] - 1, lm[u], id);
    forall x | x in g0.nodes && x in lm' ensures LongestPathLevel(g0, lm', m, x) {
      LongestPathLevelFrame(g0, lm, lm', m, x);
    }
  }

  lemma RerouteKeepsBlocks(g: Graph, lm: map<Node, int>, bm: map<Node, nat>, dn: nat,
                           bl: map<nat, Block>, u: Node, v: Node, id: nat, held: seq<Node>,
                           g': Graph, lm': map<Node, int>, bm': map<Node, nat>, dn': nat, bl': map<nat, Block>)
    requires Rerouted(g, lm, bm, dn, bl, u, v, id, g', lm', bm', dn', bl')
    requires BlocksRight(lm, bm, bl, held) && DummiesBelow(g, dn) && id !in bl
    requires forall x | x in held :: x in g.nodes
    ensures BlocksRight(lm', bm', bl', held)
  {
    var k, lu := lm[v] - lm[u] - 1, lm[u];
    var chain := DummyChain(dn, k);
    ChainFresh(g, lm, bm, dn, k, lu, id);
    DummyChainAt(dn, k);
    DummyChainDistinct(dn, k);
    ChainLevelsAt(lu, k);
    WithChainLevelsAt(lm, dn, k, lu);
    forall x | x in lm' && x !in held ensures x in bm' && bm'[x] in bl' && BlockHolds(bl'[bm'[x]], x, lm'[x]) {
      if x in chain {
        var i :| 0 <= i < k && chain[i] == x;
        assert IndexOf(chain, x) == i;
      } else {
        assert bm[x] in bl;
      }
    }
  }

  lemma RerouteKeepsEdges(g: Graph, lm: map<Node, int>, bm: map<Node, nat>, dn: nat,
                          bl: map<nat, Block>, node: Node, succ: seq<Node>, i: nat, id: nat,
                          g': Graph, lm': map<Node, int>, bm': map<Node, nat>, dn': nat, bl': map<nat, Block>)
    requires i < |succ|
    requires Rerouted(g, lm, bm, dn, bl, node, succ[i], id, g', lm', bm', dn', bl')
    requires EdgesDown(g, lm, EdgesFrom(node, succ[i..])) && Valid(g) && DummiesBelow(g, dn)
    requires forall x | x in lm :: x in g.nodes
    ensures EdgesDown(g', lm', EdgesFrom(node, succ[i + 1..]))
  {
    var v, k := succ[i], lm[succ[i]] - lm[node] - 1;
    var chain := DummyChain(dn, k);
    ChainFresh(g, lm, bm, dn, k, lm[node], id);
    ChainIsLayered(lm, node, v, dn, k);
    assert succ[i..] == [v] + succ[i + 1..];
    forall e | e in g'.edges && e.0 in lm'
      ensures e in EdgesFrom(node, succ[i + 1..]) || (e.1 in lm' && lm'[e.1] == lm'[e.0] + 1)
    {
      if e !in PathEdges([node] + chain + [v]) {
        assert e in g.edges && e != (node, v);
        assert e.0 in g.nodes && e.1 in g.nodes;
        if e in EdgesFrom(node, succ[i..]) {
          assert e == (node, e.1);
          assert e.1 in succ[i + 1..];
        }
      }
    }
  }

  lemma RerouteKeepsPending(g: Graph, lm: map<Node, int>, bm: map<Node, nat>, dn: nat,
                            bl: map<nat, Block>, node: Node, succ: seq<Node>, i: nat, id: nat,
                            g': Graph, lm': map<Node, int>, bm': map<Node, nat>, dn': nat, bl': map<nat, Block>)
    requires i < |succ| && Distinct(succ)
    requires Rerouted(g, lm, bm, dn, bl, node, succ[i], id, g', lm', bm', dn', bl')
    requires PendingOK(g, lm, node, succ[i..]) && DummiesBelow(g, dn)
    requires forall x | x in lm :: x in g.nodes
    ensures PendingOK(g', lm', node, succ[i + 1..])
    ensures node in lm' && lm'[node] == lm[node]
  {
    ChainFresh(g, lm, bm, dn, lm[succ[i]] - lm[node] - 1, lm[node], id);
    forall w | w in succ[i + 1..] ensures (node, w) in g'.edges && node in lm' && w in lm' && lm'[w] >= lm'[node] + 1 {
      var j :| i + 1 <= j < |succ| && succ[j] == w;
      assert w in succ[i..] && w != succ[i];
    }
  }

  /** The state of the successor loop of the placement of `node` on level
      `n`: the edges to `succ[..i]` are settled, those to `succ[i..]` pending. */
  ghost predicate Settling(g0: Graph, m: int, wl: seq<Node>, node: Node, succ: seq<Node>, i: nat, n: int,
                           g: Graph, lm: map<Node, int>, bm: map<Node, nat>, dn: nat, bl: map<nat, Block>)
  {
    && i <= |succ| && Distinct(succ) && node in lm && lm[node] == n
    && LayerState(g0, m, g, lm, bm, dn, bl, wl, EdgesFrom(node, succ[i..]), [node])
    && PendingOK(g, lm, node, succ[i..])
  }

  /** The edge to the next successor is still in the graph and reaches at
      least one level down. */
  lemma SettlingNext(g0: Graph, m: int, wl: seq<Node>, node: Node, succ: seq<Node>, i: nat, n: int,
                     g: Graph, lm: map<Node, int>, bm: map<Node, nat>, dn: nat, bl: map<nat, Block>)
    requires i < |succ| && Settling(g0, m, wl, node, succ, i, n, g, lm, bm, dn, bl)
    ensures (node, succ[i]) in g.edges && node in lm && succ[i] in lm && lm[succ[i]] >= lm[node] + 1
    ensures Valid(g) && DummiesBelow(g, dn)
  {
    assert succ[i] in succ[i..];
  }

  /** Replacing the pending edge to `succ[i]`, which reaches more than one
      level down, by a chain of fresh dummies in a new block `id`. */
  lemma DummyStep(g0: Graph, m: int, wl: seq<Node>, node: Node, succ: seq<Node>, i: nat, n: int, id: nat,
                  g: Graph, lm: map<Node, int>, bm: map<Node, nat>, dn: nat, bl: map<nat, Block>,
                  g': Graph, lm': map<Node, int>, bm': map<Node, nat>, dn': nat, bl': map<nat, Block>)
    requires i < |succ| && id !in bl
    requires Settling(g0, m, wl, node, succ, i, n, g, lm, bm, dn, bl)
    requires Rerouted(g, lm, bm, dn, bl, node, succ[i], id, g', lm', bm', dn', bl')
    requires Valid(g') && DummiesBelow(g', dn')
    ensures Settling(g0, m, wl, node, succ, i + 1, n, g', lm', bm', dn', bl')
  {
    assert LayerState(g0, m, g, lm, bm, dn, bl, wl, EdgesFrom(node, succ[i..]), [node]);
    assert NodesKept(g0, g, lm, wl);
    assert forall x | x in lm :: x in g.nodes;
    assert forall x | x in [node] :: x in g.nodes;
    RerouteKeepsNodes(g0, wl, g, lm, bm, dn, bl, node, succ[i], id, g', lm', bm', dn', bl');
    RerouteKeepsSuccessors(g0, g, lm, bm, dn, bl, node, succ[i], id, g', lm', bm', dn', bl');
    RerouteKeepsLevels(g0, m, g, lm, bm, dn, bl, node, succ[i], id, g', lm', bm', dn', bl');
    RerouteKeepsBlocks(g, lm, bm, dn, bl, node, succ[i], id, [node], g', lm', bm', dn', bl');
    RerouteKeepsEdges(g, lm, bm, dn, bl, node, succ, i, id, g', lm', bm', dn', bl');
    RerouteKeepsPending(g, lm, bm, dn, bl, node, succ, i, id, g', lm', bm', dn', bl');
  }

  lemma ShortKeepsEdges(g: Graph, lm: map<Node, int>, node: Node, succ: seq<Node>, i: nat)
    requires i < |succ| && node in lm && succ[i] in lm
    requires EdgesDown(g, lm, EdgesFrom(node, succ[i..]))
    requires lm[succ[i]] == lm[node] + 1
    ensures EdgesDown(g, lm, EdgesFrom(node, succ[i + 1..]))
  {
    var pend, pend' := EdgesFrom(node, succ[i..]), EdgesFrom(node, succ[i + 1..]);
    forall e | e in g.edges && e.0 in lm
      ensures e in pend' || (e.1 in lm && lm[e.1] == lm[e.0] + 1)
    {
      ShortKeepsEdge(lm, node, succ, i, e);
    }
  }

  /** One edge of ShortKeepsEdges: pending from `node` to a later successor,
      or to `succ[i]`, which is one level down. */
  lemma ShortKeepsEdge(lm: map<Node, int>, node: Node, succ: seq<Node>, i: nat, e: Edge)
    requires i < |succ| && node in lm && succ[i] in lm && e.0 in lm
    requires lm[succ[i]] == lm[node] + 1
    requires e in EdgesFrom(node, succ[i..]) || (e.1 in lm && lm[e.1] == lm[e.0] + 1)
    ensures e in EdgesFrom(node, succ[i + 1..]) || (e.1 in lm && lm[e.1] == lm[e.0] + 1)
  {
    if e in EdgesFrom(node, succ[i..]) && e.1 != succ[i] {
      InLaterTail(succ, i, e.1);
      assert e == (node, e.1);
    }
  }

  /** An entry of `s[i..]` other than `s[i]` is in `s[i + 1..]`. */
  lemma InLaterTail<T>(s: seq<T>, i: nat, x: T)
    requires i < |s| && x in s[i..] && x != s[i]
    ensures x in s[i + 1..]
  {
    var j :| i <= j < |s| && s[j] == x;
    assert s[i + 1..][j - i - 1] == x;
  }

  lemma PendingSubset(g: Graph, lm: map<Node, int>, node: Node, ws: seq<Node>, ws': seq<Node>)
    requires PendingOK(g, lm, node, ws) && forall w | w in ws' :: w in ws
    ensures PendingOK(g, lm, node, ws')
  {
  }

  lemma ShortKeepsPending(g: Graph, lm: map<Node, int>, node: Node, succ: seq<Node>, i: nat)
    requires i < |succ| && PendingOK(g, lm, node, succ[i..])
    ensures PendingOK(g, lm, node, succ[i + 1..])
  {
    assert forall w | w in succ[i + 1..] :: w in succ[i..];
    PendingSubset(g, lm, node, succ[i..], succ[i + 1..]);
  }

  lemma PendingShrinks(g0: Graph, m: int, g: Graph, lm: map<Node, int>, bm: map<Node, nat>, dn: nat,
                       bl: map<nat, Block>, wl: seq<Node>, pending: seq<Edge>, pending': seq<Edge>, held: seq<Node>)
    requires LayerState(g0, m, g, lm, bm, dn, bl, wl, pending, held) && EdgesDown(g, lm, pending')
    ensures LayerState(g0, m, g, lm, bm, dn, bl, wl, pending', held)
  {
  }

  /** A pending edge that already goes exactly one level down is settled as it is. */
  lemma ShortStep(g0: Graph, m: int, wl: seq<Node>, node: Node, succ: seq<Node>, i: nat, n: int,
                  g: Graph, lm: map<Node, int>, bm: map<Node, nat>, dn: nat, bl: map<nat, Block>)
    requires i < |succ|
    requires Settling(g0, m, wl, node, succ, i, n, g, lm, bm, dn, bl)
    requires succ[i] in lm && lm[succ[i]] == n + 1
    ensures Settling(g0, m, wl, node, succ, i + 1, n, g, lm, bm, dn, bl)
  {
    assert LayerState(g0, m, g, lm, bm, dn, bl, wl, EdgesFrom(node, succ[i..]), [node]);
    assert succ[i] in succ[i..];
    assert EdgesDown(g, lm, EdgesFrom(node, succ[i..]));
    ShortKeepsEdges(g, lm, node, succ, i);
    ShortKeepsPending(g, lm, node, succ, i);
    PendingShrinks(g0, m, g, lm, bm, dn, bl, wl, EdgesFrom(node, succ[i..]), EdgesFrom(node, succ[i + 1..]), [node]);
  }

  /** The placed node's block, recording its level, completes the step. */
  lemma BlockStep(g0: Graph, m: int, wl: seq<Node>, node: Node, succ: seq<Node>, n: int,
                  g: Graph, lm: map<Node, int>, bm: map<Node, nat>, dn: nat, bl: map<nat, Block>, id: nat, b: Block)
    requires Settling(g0, m, wl, node, succ, |succ|, n, g, lm, bm, dn, bl)
    requires id !in bl && BlockHolds(b, node, n)
    ensures LayerState(g0, m, g, lm, bm[node := id], dn, bl[id := b], wl, [], [])
  {
    assert succ[|succ|..] == [];
    assert LayerState(g0, m, g, lm, bm, dn, bl, wl, EdgesFrom(node, []), [node]);
    assert BlocksRight(lm, bm, bl, [node]);
    assert EdgesDown(g, lm, EdgesFrom(node, []));
    forall x | x in lm ensures x in bm[node := id] && bm[node := id][x] in bl[id := b]
                             && BlockHolds(bl[id := b][bm[node := id][x]], x, lm[x])
    {
      if x != node {
        assert x !in [node];
        assert bm[x] in bl;
      }
    }
  }

  /** A node that is not ready yet goes back to the front of the worklist. */
  lemma RotateStep(g0: Graph, m: int, wl: seq<Node>, node: Node, g: Graph, lm: map<Node, int>, bm: map<Node, nat>,
                   dn: nat, bl: map<nat, Block>)
    requires LayerState(g0, m, g, lm, bm, dn, bl, wl + [node], [], [])
    ensures LayerState(g0, m, g, lm, bm, dn, bl, [node] + wl, [], [])
  {
    assert NodesKept(g0, g, lm, wl + [node]);
    PopDistinct(wl, node);
    DistinctCons(node, wl);
    assert node in wl + [node];
    assert forall x | x in wl + [node] :: x in [node] + wl;
    assert forall x | x in [node] + wl :: x in wl + [node];
  }

  /** The nodes of `ns` without a level, in the order of `ns`. */
  function Unleveled(ns: seq<Node>, lm: map<Node, int>): (r: seq<Node>)
    ensures forall x :: x in r <==> x in ns && x !in lm
    ensures Distinct(ns) ==> Distinct(r)
  {
    if ns == [] then []
    else
      assert ns == [ns[0]] + ns[1..];
      DistinctCons(ns[0], ns[1..]);
      var rest := Unleveled(ns[1..], lm);
      if ns[0] in lm then rest
      else
        DistinctCons(ns[0], rest);
        [ns[0]] + rest
  }

  /** The state after the first `i` sinks are placed on level `m`. */
  ghost predicate SinksPlaced(lm: map<Node, int>, bm: map<Node, nat>, bl: map<nat, Block>, m: int,
                              sinks: seq<Node>, i: nat)
  {
    && i <= |sinks|
    && (forall x :: x in lm <==> x in sinks[..i])
    && (forall x | x in lm :: lm[x] == m)
    && BlocksRight(lm, bm, bl, [])
  }

  lemma SinkStep(lm: map<Node, int>, bm: map<Node, nat>, bl: map<nat, Block>, m: int,
                 sinks: seq<Node>, i: nat, id: nat, b: Block)
    requires SinksPlaced(lm, bm, bl, m, sinks, i) && i < |sinks|
    requires id !in bl && BlockHolds(b, sinks[i], m)
    ensures SinksPlaced(lm[sinks[i] := m], bm[sinks[i] := id], bl[id := b], m, sinks, i + 1)
  {
    assert sinks[..i + 1] == sinks[..i] + [sinks[i]];
    assert BlocksRight(lm, bm, bl, []);
    var lm', bm', bl' := lm[sinks[i] := m], bm[sinks[i] := id], bl[id := b];
    forall x | x in lm' ensures x in bm' && bm'[x] in bl' && BlockHolds(bl'[bm'[x]], x, lm'[x]) {
      if x != sinks[i] {
        assert bm[x] in bl;
      }
    }
  }

  /** Once every sink sits on level `m`, the worklist of the other nodes
      starts the layering loop. */
  lemma SinksDone(g0: Graph, m: int, lm: map<Node, int>, bm: map<Node, nat>, dn: nat, bl: map<nat, Block>)
    requires Valid(g0) && DummiesBelow(g0, dn)
    requires SinksPlaced(lm, bm, bl, m, Sinks(g0), |Sinks(g0)|)
    ensures LayerState(g0, m, g0, lm, bm, dn, bl, Unleveled(g0.nodes, lm), [], [])
  {
    var sinks := Sinks(g0);
    assert sinks[..|sinks|] == sinks;
    forall v | v in g0.nodes && v !in lm ensures Successors(g0, v) != [] {
      assert v !in sinks;
    }
    forall e | e in g0.edges && e.0 in lm ensures false {
      assert e.0 in sinks;
      OutDegreeZero(g0, e.0);
    }
    forall v | v in g0.nodes && v in lm ensures LongestPathLevel(g0, lm, m, v) {
      assert v in sinks;
    }
  }

  /** The worklist element latest in the order `topo`. */
  ghost function MaxTopo(wl: seq<Node>, topo: seq<Node>): (r: Node)
    requires wl != [] && forall x | x in wl :: x in topo
    ensures r in wl && forall y | y in wl :: IndexOf(topo, y) <= IndexOf(topo, r)
  {
    if |wl| == 1 then wl[0]
    else
      var r := MaxTopo(wl[1..], topo);
      assert forall y | y in wl :: y == wl[0] || y in wl[1..];
      if IndexOf(topo, wl[0]) > IndexOf(topo, r) then wl[0] else r
  }

  /** Two worklists with the same elements have the same latest element. */
  lemma MaxTopoSame(wl: seq<Node>, wl': seq<Node>, topo: seq<Node>)
    requires wl != [] && forall x | x in wl :: x in topo
    requires forall x :: x in wl <==> x in wl'
    ensures wl' != [] && MaxTopo(wl, topo) == MaxTopo(wl', topo)
  {
    assert wl[0] in wl';
    var r, r' := MaxTopo(wl, topo), MaxTopo(wl', topo);
    assert IndexOf(topo, r) == IndexOf(topo, r');
  }

  /** The latest worklist node in an order all original edges follow has all
      its successors placed: a successor without a level would be a later
      worklist node. */
  lemma MaxTopoReady(g0: Graph, m: int, g: Graph, lm: map<Node, int>, bm: map<Node, nat>, dn: nat,
                     bl: map<nat, Block>, wl: seq<Node>, topo: seq<Node>)
    requires LayerState(g0, m, g, lm, bm, dn, bl, wl, [], [])
    requires wl != [] && Forward(g0.edges, topo) && forall x | x in g0.nodes :: x in topo
    ensures forall x | x in wl :: x in topo
    ensures forall w | w in Successors(g, MaxTopo(wl, topo)) :: w in lm
  {
    assert NodesKept(g0, g, lm, wl);
    var v := MaxTopo(wl, topo);
    assert SuccessorsKept(g0, g, lm);
    assert Successors(g, v) == Successors(g0, v);
    forall w | w in Successors(g, v) ensures w in lm {
      assert (v, w) in g0.edges;
    }
  }

  /** Putting a node other than the latest back in front moves the latest
      one place further from the front. */
  lemma RotateAdvances(wl: seq<Node>, topo: seq<Node>)
    requires wl != [] && Distinct(wl) && forall x | x in wl :: x in topo
    requires wl[|wl| - 1] != MaxTopo(wl, topo)
    ensures var wl' := [wl[|wl| - 1]] + wl[..|wl| - 1];
            && (forall x | x in wl' :: x in topo)
            && MaxTopo(wl', topo) == MaxTopo(wl, topo)
            && IndexOf(wl', MaxTopo(wl', topo)) == IndexOf(wl, MaxTopo(wl, topo)) + 1
  {
    var last := wl[|wl| - 1];
    var wl' := [last] + wl[..|wl| - 1];
    assert wl == wl[..|wl| - 1] + [last];
    PopDistinct(wl[..|wl| - 1], last);
    DistinctCons(last, wl[..|wl| - 1]);
    assert forall x :: x in wl <==> x in wl';
    MaxTopoSame(wl, wl', topo);
    var r := MaxTopo(wl, topo);
    var j := IndexOf(wl, r);
    assert j < |wl| - 1;
    assert wl'[j + 1] == r;
    IndexOfDistinct(wl', j + 1);
  }

  /** The popped worklist node is an original node without a level, so it
      still has its original successors, and there is at least one. */
  lemma PopNode(g0: Graph, m: int, g: Graph, lm: map<Node, int>, bm: map<Node, nat>, dn: nat,
                bl: map<nat, Block>, wl: seq<Node>, node: Node)
    requires LayerState(g0, m, g, lm, bm, dn, bl, wl + [node], [], [])
    ensures node !in lm && Successors(g, node) != []
  {
    assert node in wl + [node];
    assert NodesKept(g0, g, lm, wl + [node]) && SuccessorsKept(g0, g, lm);
  }

  /** A popped node with a successor still unplaced goes back to the front of
      the worklist; it is not the latest in `topo`, so the latest moves one
      place further from the end being popped. */
  lemma RotateUnready(g0: Graph, m: int, g: Graph, lm: map<Node, int>, bm: map<Node, nat>, dn: nat,
                      bl: map<nat, Block>, wl: seq<Node>, node: Node, topo: seq<Node>)
    requires LayerState(g0, m, g, lm, bm, dn, bl, wl + [node], [], [])
    requires Forward(g0.edges, topo) && forall x | x in g0.nodes :: x in topo
    requires exists w :: w in Successors(g, node) && w !in lm
    ensures LayerState(g0, m, g, lm, bm, dn, bl, [node] + wl, [], [])
    ensures forall x | x in wl + [node] :: x in topo
    ensures forall x | x in [node] + wl :: x in topo
    ensures MaxTopo([node] + wl, topo) == MaxTopo(wl + [node], topo)
    ensures IndexOf([node] + wl, MaxTopo([node] + wl, topo)) == IndexOf(wl + [node], MaxTopo(wl + [node], topo)) + 1
  {
    var wl0 := wl + [node];
    MaxTopoReady(g0, m, g, lm, bm, dn, bl, wl0, topo);
    assert node != MaxTopo(wl0, topo);
    assert wl0[..|wl0| - 1] == wl && wl0[|wl0| - 1] == node;
    assert NodesKept(g0, g, lm, wl0);
    RotateAdvances(wl0, topo);
    RotateStep(g0, m, wl, node, g, lm, bm, dn, bl);
  }

  /** A non-empty list is its front followed by its last element. */
  lemma LastSplit(wl: seq<Node>)
    requires wl != []
    ensures wl == wl[..|wl| - 1] + [wl[|wl| - 1]]
  {
  }

  /** The worklist's members stay in `topo` when the last one is taken off. */
  lemma PopInTopo(wl: seq<Node>, node: Node, topo: seq<Node>)
    requires forall x | x in wl + [node] :: x in topo
    ensures forall x | x in wl :: x in topo
  {
    assert forall x | x in wl :: x in wl + [node];
  }
}
