/**
 * `sort_adjacencies` (algos/global_shift.py): the neighbour lists of every
 * block rebuilt from the graph, block by block in position order.
 *
 * For the block A at each position, every edge (u, A.upper) appends A.upper
 * to the successor list (`n_p`) of u's block, and every edge (A.lower, x)
 * appends A.lower to the predecessor list (`n_n`) of x's block.  Each edge
 * between two blocks is met twice, once from each end: the first time (at
 * the block further left) the index of the new entry is parked in the dict
 * `p`; the second time the two entries learn each other's index (`i_p`,
 * `i_n`).
 */
module NeighbourLists {
  import opened Graphs
  import opened Blocks

  /** The state of `sort_adjacencies` while it runs: the blocks and the dict
      `p` from an edge met once to the index its entry got then. */
  datatype Linking = Linking(blocks: map<nat, Block>, pending: map<Edge, nat>)

  /** Both ends of every edge have a block, and that block a position. */
  predicate EdgesPlaced(es: seq<Edge>, blockOf: map<Node, nat>, order: seq<nat>) {
    forall e | e in es :: e.0 in blockOf && blockOf[e.0] in order && e.1 in blockOf && blockOf[e.1] in order
  }

  /** Every name has a block, and that block has a position. */
  predicate Placed(ns: seq<Node>, blockOf: map<Node, nat>, order: seq<nat>) {
    forall i | 0 <= i < |ns| :: ns[i] in blockOf && blockOf[ns[i]] in order
  }

  /** The horizontal position of a name's block: `B_.pi(G.block(n))`. */
  function Pos(order: seq<nat>, blockOf: map<Node, nat>, n: Node): nat
    requires n in blockOf && blockOf[n] in order
  {
    IndexOf(order, blockOf[n])
  }

  /** Every neighbour name of every block has a block with a position. */
  predicate NeighboursPlaced(m: map<nat, Block>, blockOf: map<Node, nat>, order: seq<nat>) {
    forall k | k in m :: Placed(m[k].preds, blockOf, order) && Placed(m[k].succs, blockOf, order)
  }

  /** Every id of the order has a block, and every block a node. */
  predicate Ready(m: map<nat, Block>, order: seq<nat>) {
    && (forall id | id in order :: id in m)
    && (forall k | k in m :: m[k].nodes != [])
  }

  /** The same blocks with the same ids, nodes and levels; only the neighbour
      lists may differ. */
  predicate Kept(m: map<nat, Block>, m2: map<nat, Block>) {
    && m2.Keys == m.Keys
    && forall k | k in m :: m2[k].id == m[k].id && m2[k].nodes == m[k].nodes && m2[k].levels == m[k].levels
  }

  /** Every neighbour list is as long as its index list. */
  predicate Balanced(m: map<nat, Block>) {
    forall k | k in m :: |m[k].succIdx| == |m[k].succs| && |m[k].predIdx| == |m[k].preds|
  }

  /** `block.clear()` for every block. */
  function Cleared(m: map<nat, Block>): (c: map<nat, Block>)
    ensures Kept(m, c) && Balanced(c)
    ensures forall k | k in c :: c[k].succs == [] && c[k].preds == []
  {
    map k | k in m :: m[k].Clear()
  }

  /** `n.append(v)` and `i.append(-1)` on the successor lists (`n_p`,
      `i_p`) of block `z`. */
  function AppendSucc(m: map<nat, Block>, z: nat, v: Node): (r: map<nat, Block>)
    requires z in m
    ensures Kept(m, r) && r[z].succIdx == m[z].succIdx + [-1]
    ensures forall k | k in m :: r[k].preds == m[k].preds && r[k].predIdx == m[k].predIdx
    ensures forall k | k in m :: r[k].succs == m[k].succs + if k == z then [v] else []
    ensures forall k | k in m && k != z :: r[k].succIdx == m[k].succIdx
  {
    m[z := m[z].(succs := m[z].succs + [v], succIdx := m[z].succIdx + [-1])]
  }

  /** `n.append(w)` and `i.append(-1)` on the predecessor lists (`n_n`,
      `i_n`) of block `z`. */
  function AppendPred(m: map<nat, Block>, z: nat, w: Node): (r: map<nat, Block>)
    requires z in m
    ensures Kept(m, r) && r[z].predIdx == m[z].predIdx + [-1]
    ensures forall k | k in m :: r[k].succs == m[k].succs && r[k].succIdx == m[k].succIdx
    ensures forall k | k in m :: r[k].preds == m[k].preds + if k == z then [w] else []
    ensures forall k | k in m && k != z :: r[k].predIdx == m[k].predIdx
  {
    m[z := m[z].(preds := m[z].preds + [w], predIdx := m[z].predIdx + [-1])]
  }

  /** The second sighting of an edge from its lower end's block `z` into
      `a`: `z.i_p[j] = q` and then `a.i_n[q] = j` (one write after the
      other, so a block that is both sees both).  None is an IndexError. */
  function JoinIn(m: map<nat, Block>, z: nat, a: nat, j: nat, q: nat): (r: Option<map<nat, Block>>)
    requires z in m && a in m
    ensures r.Some? <==> j < |m[z].succIdx| && q < |m[z := m[z].(succIdx := m[z].succIdx[j := q])][a].predIdx|
    ensures r.Some? ==> Kept(m, r.value)
    ensures r.Some? ==> forall k | k in m ::
      && r.value[k].succs == m[k].succs && r.value[k].preds == m[k].preds
      && |r.value[k].succIdx| == |m[k].succIdx| && |r.value[k].predIdx| == |m[k].predIdx|
  {
    if j >= |m[z].succIdx| then None
    else
      var m1 := m[z := m[z].(succIdx := m[z].succIdx[j := q])];
      if q < |m1[a].predIdx| then Some(m1[a := m1[a].(predIdx := m1[a].predIdx[q := j])]) else None
  }

  /** The mirror image of JoinIn: `z.i_n[j] = q`, then `a.i_p[q] = j`. */
  function JoinOut(m: map<nat, Block>, z: nat, a: nat, j: nat, q: nat): (r: Option<map<nat, Block>>)
    requires z in m && a in m
    ensures r.Some? <==> j < |m[z].predIdx| && q < |m[z := m[z].(predIdx := m[z].predIdx[j := q])][a].succIdx|
    ensures r.Some? ==> Kept(m, r.value)
    ensures r.Some? ==> forall k | k in m ::
      && r.value[k].succs == m[k].succs && r.value[k].preds == m[k].preds
      && |r.value[k].succIdx| == |m[k].succIdx| && |r.value[k].predIdx| == |m[k].predIdx|
  {
    if j >= |m[z].predIdx| then None
    else
      var m1 := m[z := m[z].(predIdx := m[z].predIdx[j := q])];
      if q < |m1[a].succIdx| then Some(m1[a := m1[a].(succIdx := m1[a].succIdx[q := j])]) else None
  }

  /** An edge (u, v) into the upper node v of the block `a`: v is appended to
      the successor list of u's block with index -1.  If `a` lies left of
      u's block, the new entry's index is parked in `p`; otherwise the edge
      was met from u's end already, and the two entries are linked (JoinIn)
      with the parked index.  An edge not in `p` is a KeyError (None). */
  function LinkIn(st: Linking, order: seq<nat>, blockOf: map<Node, nat>, a: nat, e: Edge): (r: Option<Linking>)
    requires a in order && e.0 in blockOf && blockOf[e.0] in order && Ready(st.blocks, order)
    ensures r.Some? ==> Kept(st.blocks, r.value.blocks) && Ready(r.value.blocks, order)
    ensures r.Some? && Balanced(st.blocks) ==> Balanced(r.value.blocks)
    ensures r.Some? ==> forall k | k in st.blocks ::
      && r.value.blocks[k].preds == st.blocks[k].preds
      && r.value.blocks[k].succs == st.blocks[k].succs + if k == blockOf[e.0] then [e.1] else []
  {
    var bu := blockOf[e.0];
    var j := |st.blocks[bu].succs|;
    var m1 := AppendSucc(st.blocks, bu, e.1);
    if IndexOf(order, a) < IndexOf(order, bu) then Some(Linking(m1, st.pending[e := j]))
    else if e !in st.pending then None
    else
      var m2 := JoinIn(m1, bu, a, j, st.pending[e]);
      if m2.None? then None else Some(Linking(m2.value, st.pending))
  }

  /** An edge (w, x) out of the lower node w of the block `a`: the mirror
      image of LinkIn, appending w to the predecessor list of x's block and
      linking with JoinOut. */
  function LinkOut(st: Linking, order: seq<nat>, blockOf: map<Node, nat>, a: nat, e: Edge): (r: Option<Linking>)
    requires a in order && e.1 in blockOf && blockOf[e.1] in order && Ready(st.blocks, order)
    ensures r.Some? ==> Kept(st.blocks, r.value.blocks) && Ready(r.value.blocks, order)
    ensures r.Some? && Balanced(st.blocks) ==> Balanced(r.value.blocks)
    ensures r.Some? ==> forall k | k in st.blocks ::
      && r.value.blocks[k].succs == st.blocks[k].succs
      && r.value.blocks[k].preds == st.blocks[k].preds + if k == blockOf[e.1] then [e.0] else []
  {
    var bx := blockOf[e.1];
    var j := |st.blocks[bx].preds|;
    var m1 := AppendPred(st.blocks, bx, e.0);
    if IndexOf(order, a) < IndexOf(order, bx) then Some(Linking(m1, st.pending[e := j]))
    else if e !in st.pending then None
    else
      var m2 := JoinOut(m1, bx, a, j, st.pending[e]);
      if m2.None? then None else Some(Linking(m2.value, st.pending))
  }

  /** The edges (us[k], x), (us[k+1], x), ... into the upper node x of `a`. */
  function LinkInsFrom(st: Linking, order: seq<nat>, blockOf: map<Node, nat>, a: nat, x: Node,
                       us: seq<Node>, k: nat): (r: Option<Linking>)
    requires k <= |us| && a in order && Ready(st.blocks, order)
    requires forall u | u in us :: u in blockOf && blockOf[u] in order
    ensures r.Some? ==> Kept(st.blocks, r.value.blocks) && Ready(r.value.blocks, order)
    ensures r.Some? && Balanced(st.blocks) ==> Balanced(r.value.blocks)
    decreases |us| - k
  {
    if k == |us| then Some(st)
    else
      var r1 := LinkIn(st, order, blockOf, a, (us[k], x));
      if r1.None? then None else LinkInsFrom(r1.value, order, blockOf, a, x, us, k + 1)
  }

  /** The edges (w, xs[k]), (w, xs[k+1]), ... out of the lower node w of `a`. */
  function LinkOutsFrom(st: Linking, order: seq<nat>, blockOf: map<Node, nat>, a: nat, w: Node,
                        xs: seq<Node>, k: nat): (r: Option<Linking>)
    requires k <= |xs| && a in order && Ready(st.blocks, order)
    requires forall x | x in xs :: x in blockOf && blockOf[x] in order
    ensures r.Some? ==> Kept(st.blocks, r.value.blocks) && Ready(r.value.blocks, order)
    ensures r.Some? && Balanced(st.blocks) ==> Balanced(r.value.blocks)
    decreases |xs| - k
  {
    if k == |xs| then Some(st)
    else
      var r1 := LinkOut(st, order, blockOf, a, (w, xs[k]));
      if r1.None? then None else LinkOutsFrom(r1.value, order, blockOf, a, w, xs, k + 1)
  }

  lemma PredecessorsPlaced(g: Graph, blockOf: map<Node, nat>, order: seq<nat>, v: Node)
    requires EdgesPlaced(g.edges, blockOf, order)
    ensures forall u | u in Predecessors(g, v) :: u in blockOf && blockOf[u] in order
    ensures forall x | x in Successors(g, v) :: x in blockOf && blockOf[x] in order
    ensures Predecessors(g, v) != [] || Successors(g, v) != [] ==> v in blockOf && blockOf[v] in order
  {
    if Predecessors(g, v) != [] {
      assert (Predecessors(g, v)[0], v) in g.edges;
    }
    if Successors(g, v) != [] {
      assert (v, Successors(g, v)[0]) in g.edges;
    }
    forall u | u in Predecessors(g, v) ensures u in blockOf && blockOf[u] in order {
      assert (u, v) in g.edges;
    }
    forall x | x in Successors(g, v) ensures x in blockOf && blockOf[x] in order {
      assert (v, x) in g.edges;
    }
  }

  /** The block at position p: the edges into its upper node, then the edges
      out of its lower node. */
  function LinkBlock(st: Linking, g: Graph, order: seq<nat>, blockOf: map<Node, nat>, p: nat): (r: Option<Linking>)
    requires p < |order| && Ready(st.blocks, order) && EdgesPlaced(g.edges, blockOf, order)
    ensures r.Some? ==> Kept(st.blocks, r.value.blocks) && Ready(r.value.blocks, order)
    ensures r.Some? && Balanced(st.blocks) ==> Balanced(r.value.blocks)
  {
    var blk := st.blocks[order[p]];
    PredecessorsPlaced(g, blockOf, order, blk.Upper());
    PredecessorsPlaced(g, blockOf, order, blk.Lower());
    var r1 := LinkInsFrom(st, order, blockOf, order[p], blk.Upper(), Predecessors(g, blk.Upper()), 0);
    if r1.None? then None
    else LinkOutsFrom(r1.value, order, blockOf, order[p], blk.Lower(), Successors(g, blk.Lower()), 0)
  }

  /** The blocks from position p on. */
  function LinkFrom(st: Linking, g: Graph, order: seq<nat>, blockOf: map<Node, nat>, p: nat): (r: Option<Linking>)
    requires p <= |order| && Ready(st.blocks, order) && EdgesPlaced(g.edges, blockOf, order)
    ensures r.Some? ==> Kept(st.blocks, r.value.blocks) && Ready(r.value.blocks, order)
    ensures r.Some? && Balanced(st.blocks) ==> Balanced(r.value.blocks)
    decreases |order| - p
  {
    if p == |order| then Some(st)
    else
      var r1 := LinkBlock(st, g, order, blockOf, p);
      if r1.None? then None else LinkFrom(r1.value, g, order, blockOf, p + 1)
  }

  /** The blocks after `sort_adjacencies`, or None for a KeyError or
      IndexError on the way. */
  function Adjacencies(m: map<nat, Block>, g: Graph, order: seq<nat>, blockOf: map<Node, nat>): (r: Option<map<nat, Block>>)
    requires Ready(m, order) && EdgesPlaced(g.edges, blockOf, order)
    ensures r.Some? ==> Kept(m, r.value) && Balanced(r.value)
  {
    var r := LinkFrom(Linking(Cleared(m), map[]), g, order, blockOf, 0);
    if r.None? then None else Some(r.value.blocks)
  }

  // ---------------------------------------------------------------------
  // Every entry names a placed node

  lemma LinkInPlaced(st: Linking, order: seq<nat>, blockOf: map<Node, nat>, a: nat, e: Edge)
    requires a in order && e.0 in blockOf && blockOf[e.0] in order && Ready(st.blocks, order)
    requires NeighboursPlaced(st.blocks, blockOf, order) && e.1 in blockOf && blockOf[e.1] in order
    ensures var r := LinkIn(st, order, blockOf, a, e); r.Some? ==> NeighboursPlaced(r.value.blocks, blockOf, order)
  {
  }

  lemma LinkOutPlaced(st: Linking, order: seq<nat>, blockOf: map<Node, nat>, a: nat, e: Edge)
    requires a in order && e.1 in blockOf && blockOf[e.1] in order && Ready(st.blocks, order)
    requires NeighboursPlaced(st.blocks, blockOf, order) && e.0 in blockOf && blockOf[e.0] in order
    ensures var r := LinkOut(st, order, blockOf, a, e); r.Some? ==> NeighboursPlaced(r.value.blocks, blockOf, order)
  {
  }

  lemma {:induction false} LinkInsPlaced(st: Linking, order: seq<nat>, blockOf: map<Node, nat>, a: nat, x: Node,
                                         us: seq<Node>, k: nat)
    requires k <= |us| && a in order && Ready(st.blocks, order)
    requires forall u | u in us :: u in blockOf && blockOf[u] in order
    requires NeighboursPlaced(st.blocks, blockOf, order) && (k < |us| ==> x in blockOf && blockOf[x] in order)
    ensures var r := LinkInsFrom(st, order, blockOf, a, x, us, k);
      r.Some? ==> NeighboursPlaced(r.value.blocks, blockOf, order)
    decreases |us| - k
  {
    if k < |us| {
      var r1 := LinkIn(st, order, blockOf, a, (us[k], x));
      if r1.Some? {
        LinkInPlaced(st, order, blockOf, a, (us[k], x));
        LinkInsPlaced(r1.value, order, blockOf, a, x, us, k + 1);
      }
    }
  }

  lemma {:induction false} LinkOutsPlaced(st: Linking, order: seq<nat>, blockOf: map<Node, nat>, a: nat, w: Node,
                                          xs: seq<Node>, k: nat)
    requires k <= |xs| && a in order && Ready(st.blocks, order)
    requires forall x | x in xs :: x in blockOf && blockOf[x] in order
    requires NeighboursPlaced(st.blocks, blockOf, order) && (k < |xs| ==> w in blockOf && blockOf[w] in order)
    ensures var r := LinkOutsFrom(st, order, blockOf, a, w, xs, k);
      r.Some? ==> NeighboursPlaced(r.value.blocks, blockOf, order)
    decreases |xs| - k
  {
    if k < |xs| {
      var r1 := LinkOut(st, order, blockOf, a, (w, xs[k]));
      if r1.Some? {
        LinkOutPlaced(st, order, blockOf, a, (w, xs[k]));
        LinkOutsPlaced(r1.value, order, blockOf, a, w, xs, k + 1);
      }
    }
  }

  lemma {:induction false} LinkFromPlaced(st: Linking, g: Graph, order: seq<nat>, blockOf: map<Node, nat>, p: nat)
    requires p <= |order| && Ready(st.blocks, order) && EdgesPlaced(g.edges, blockOf, order)
    requires NeighboursPlaced(st.blocks, blockOf, order)
    ensures var r := LinkFrom(st, g, order, blockOf, p); r.Some? ==> NeighboursPlaced(r.value.blocks, blockOf, order)
    decreases |order| - p
  {
    if p < |order| {
      var blk := st.blocks[order[p]];
      PredecessorsPlaced(g, blockOf, order, blk.Upper());
      PredecessorsPlaced(g, blockOf, order, blk.Lower());
      var r1 := LinkInsFrom(st, order, blockOf, order[p], blk.Upper(), Predecessors(g, blk.Upper()), 0);
      if r1.Some? {
        LinkInsPlaced(st, order, blockOf, order[p], blk.Upper(), Predecessors(g, blk.Upper()), 0);
        var r2 := LinkOutsFrom(r1.value, order, blockOf, order[p], blk.Lower(), Successors(g, blk.Lower()), 0);
        if r2.Some? {
          LinkOutsPlaced(r1.value, order, blockOf, order[p], blk.Lower(), Successors(g, blk.Lower()), 0);
          LinkFromPlaced(r2.value, g, order, blockOf, p + 1);
        }
      }
    }
  }

  /** After `sort_adjacencies`, every neighbour entry names a node whose
      block has a position, so `B_.pi(G.block(n))` is defined for it. */
  lemma AdjacenciesPlaced(m: map<nat, Block>, g: Graph, order: seq<nat>, blockOf: map<Node, nat>)
    requires Ready(m, order) && EdgesPlaced(g.edges, blockOf, order)
    ensures var r := Adjacencies(m, g, order, blockOf); r.Some? ==> NeighboursPlaced(r.value, blockOf, order)
  {
    LinkFromPlaced(Linking(Cleared(m), map[]), g, order, blockOf, 0);
  }

  // ---------------------------------------------------------------------
  // Every list in position order

  /** The upper and the lower node of every block belong to that block: the
      layout the layering leaves, where an edge leaves a block only at its
      lower node and enters it only at its upper node. */
  predicate EndsOwned(m: map<nat, Block>, order: seq<nat>, blockOf: map<Node, nat>)
    requires Ready(m, order)
  {
    forall id | id in order ::
      && m[id].Upper() in blockOf && blockOf[m[id].Upper()] == id
      && m[id].Lower() in blockOf && blockOf[m[id].Lower()] == id
  }

  lemma KeptEndsOwned(m: map<nat, Block>, m2: map<nat, Block>, order: seq<nat>, blockOf: map<Node, nat>)
    requires Ready(m, order) && Kept(m, m2) && EndsOwned(m, order, blockOf)
    ensures Ready(m2, order) && EndsOwned(m2, order, blockOf)
  {
    forall id | id in order ensures m2[id].Upper() == m[id].Upper() && m2[id].Lower() == m[id].Lower() {
      assert m2[id].nodes == m[id].nodes;
    }
  }

  /** The names of `ns` have placed blocks, in non-decreasing position. */
  predicate InPositionOrder(ns: seq<Node>, order: seq<nat>, blockOf: map<Node, nat>) {
    && Placed(ns, blockOf, order)
    && forall i, j | 0 <= i < j < |ns| :: Pos(order, blockOf, ns[i]) <= Pos(order, blockOf, ns[j])
  }

  /** In position order, and every name's block left of `lim`. */
  predicate SortedBelow(ns: seq<Node>, order: seq<nat>, blockOf: map<Node, nat>, lim: int) {
    && InPositionOrder(ns, order, blockOf)
    && forall n | n in ns :: Pos(order, blockOf, n) < lim
  }

  predicate AllSortedBelow(m: map<nat, Block>, order: seq<nat>, blockOf: map<Node, nat>, lim: int) {
    forall k | k in m :: SortedBelow(m[k].succs, order, blockOf, lim) && SortedBelow(m[k].preds, order, blockOf, lim)
  }

  lemma SortedAppend(ns: seq<Node>, n: Node, order: seq<nat>, blockOf: map<Node, nat>, lim: int)
    requires SortedBelow(ns, order, blockOf, lim) && n in blockOf && blockOf[n] in order
    requires Pos(order, blockOf, n) == lim - 1
    ensures SortedBelow(ns + [n], order, blockOf, lim)
  {
    var r := ns + [n];
    forall i, j | 0 <= i < j < |r| ensures Pos(order, blockOf, r[i]) <= Pos(order, blockOf, r[j]) {
      assert r[i] in ns;
      if j < |ns| {
        assert r[j] == ns[j];
      }
    }
  }

  lemma SortedRaise(m: map<nat, Block>, order: seq<nat>, blockOf: map<Node, nat>, lim: int)
    requires AllSortedBelow(m, order, blockOf, lim)
    ensures AllSortedBelow(m, order, blockOf, lim + 1)
  {
  }

  lemma LinkInSorted(st: Linking, order: seq<nat>, blockOf: map<Node, nat>, a: nat, e: Edge, lim: int)
    requires a in order && e.0 in blockOf && blockOf[e.0] in order && Ready(st.blocks, order)
    requires AllSortedBelow(st.blocks, order, blockOf, lim)
    requires e.1 in blockOf && blockOf[e.1] in order && Pos(order, blockOf, e.1) == lim - 1
    ensures var r := LinkIn(st, order, blockOf, a, e);
      r.Some? ==> AllSortedBelow(r.value.blocks, order, blockOf, lim)
  {
    var r := LinkIn(st, order, blockOf, a, e);
    if r.Some? {
      SortedAppend(st.blocks[blockOf[e.0]].succs, e.1, order, blockOf, lim);
    }
  }

  lemma LinkOutSorted(st: Linking, order: seq<nat>, blockOf: map<Node, nat>, a: nat, e: Edge, lim: int)
    requires a in order && e.1 in blockOf && blockOf[e.1] in order && Ready(st.blocks, order)
    requires AllSortedBelow(st.blocks, order, blockOf, lim)
    requires e.0 in blockOf && blockOf[e.0] in order && Pos(order, blockOf, e.0) == lim - 1
    ensures var r := LinkOut(st, order, blockOf, a, e);
      r.Some? ==> AllSortedBelow(r.value.blocks, order, blockOf, lim)
  {
    var r := LinkOut(st, order, blockOf, a, e);
    if r.Some? {
      SortedAppend(st.blocks[blockOf[e.1]].preds, e.0, order, blockOf, lim);
    }
  }

  lemma {:induction false} LinkInsSorted(st: Linking, order: seq<nat>, blockOf: map<Node, nat>, a: nat, x: Node,
                                         us: seq<Node>, k: nat, lim: int)
    requires k <= |us| && a in order && Ready(st.blocks, order)
    requires forall u | u in us :: u in blockOf && blockOf[u] in order
    requires AllSortedBelow(st.blocks, order, blockOf, lim)
    requires k < |us| ==> x in blockOf && blockOf[x] in order && Pos(order, blockOf, x) == lim - 1
    ensures var r := LinkInsFrom(st, order, blockOf, a, x, us, k);
      r.Some? ==> AllSortedBelow(r.value.blocks, order, blockOf, lim)
    decreases |us| - k
  {
    if k < |us| {
      var r1 := LinkIn(st, order, blockOf, a, (us[k], x));
      if r1.Some? {
        LinkInSorted(st, order, blockOf, a, (us[k], x), lim);
        LinkInsSorted(r1.value, order, blockOf, a, x, us, k + 1, lim);
      }
    }
  }

  lemma {:induction false} LinkOutsSorted(st: Linking, order: seq<nat>, blockOf: map<Node, nat>, a: nat, w: Node,
                                          xs: seq<Node>, k: nat, lim: int)
    requires k <= |xs| && a in order && Ready(st.blocks, order)
    requires forall x | x in xs :: x in blockOf && blockOf[x] in order
    requires AllSortedBelow(st.blocks, order, blockOf, lim)
    requires k < |xs| ==> w in blockOf && blockOf[w] in order && Pos(order, blockOf, w) == lim - 1
    ensures var r := LinkOutsFrom(st, order, blockOf, a, w, xs, k);
      r.Some? ==> AllSortedBelow(r.value.blocks, order, blockOf, lim)
    decreases |xs| - k
  {
    if k < |xs| {
      var r1 := LinkOut(st, order, blockOf, a, (w, xs[k]));
      if r1.Some? {
        LinkOutSorted(st, order, blockOf, a, (w, xs[k]), lim);
        LinkOutsSorted(r1.value, order, blockOf, a, w, xs, k + 1, lim);
      }
    }
  }

  lemma {:induction false} LinkFromSorted(st: Linking, g: Graph, order: seq<nat>, blockOf: map<Node, nat>, p: nat)
    requires p <= |order| && Ready(st.blocks, order) && EdgesPlaced(g.edges, blockOf, order)
    requires Distinct(order) && EndsOwned(st.blocks, order, blockOf) && AllSortedBelow(st.blocks, order, blockOf, p)
    ensures var r := LinkFrom(st, g, order, blockOf, p);
      r.Some? ==> AllSortedBelow(r.value.blocks, order, blockOf, |order|)
    decreases |order| - p
  {
    if p < |order| {
      var blk := st.blocks[order[p]];
      PredecessorsPlaced(g, blockOf, order, blk.Upper());
      PredecessorsPlaced(g, blockOf, order, blk.Lower());
      IndexOfDistinct(order, p);
      SortedRaise(st.blocks, order, blockOf, p);
      var r1 := LinkInsFrom(st, order, blockOf, order[p], blk.Upper(), Predecessors(g, blk.Upper()), 0);
      if r1.Some? {
        LinkInsSorted(st, order, blockOf, order[p], blk.Upper(), Predecessors(g, blk.Upper()), 0, p + 1);
        var r2 := LinkOutsFrom(r1.value, order, blockOf, order[p], blk.Lower(), Successors(g, blk.Lower()), 0);
        if r2.Some? {
          LinkOutsSorted(r1.value, order, blockOf, order[p], blk.Lower(), Successors(g, blk.Lower()), 0, p + 1);
          KeptEndsOwned(st.blocks, r2.value.blocks, order, blockOf);
          LinkFromSorted(r2.value, g, order, blockOf, p + 1);
        }
      }
    }
  }

  /** On the layering's layout, `sort_adjacencies` leaves every neighbour
      list ordered by the position of the neighbours' blocks, which is what
      the two-pointer merges of `uswap` and `update_adjacencies` rely on. */
  lemma AdjacenciesSorted(m: map<nat, Block>, g: Graph, order: seq<nat>, blockOf: map<Node, nat>)
    requires Ready(m, order) && EdgesPlaced(g.edges, blockOf, order)
    requires Distinct(order) && EndsOwned(m, order, blockOf)
    ensures var r := Adjacencies(m, g, order, blockOf);
      r.Some? ==> forall k | k in r.value ::
        InPositionOrder(r.value[k].succs, order, blockOf) && InPositionOrder(r.value[k].preds, order, blockOf)
  {
    KeptEndsOwned(m, Cleared(m), order, blockOf);
    LinkFromSorted(Linking(Cleared(m), map[]), g, order, blockOf, 0);
  }

  /** One round of `LinkInsFrom`. */
  lemma LinkInsStep(st: Linking, order: seq<nat>, blockOf: map<Node, nat>, a: nat, x: Node, us: seq<Node>, k: nat)
    requires k < |us| && a in order && Ready(st.blocks, order)
    requires forall u | u in us :: u in blockOf && blockOf[u] in order
    ensures var r1 := LinkIn(st, order, blockOf, a, (us[k], x));
      && (r1.None? ==> LinkInsFrom(st, order, blockOf, a, x, us, k).None?)
      && (r1.Some? ==> Ready(r1.value.blocks, order))
      && (r1.Some? ==> LinkInsFrom(st, order, blockOf, a, x, us, k) == LinkInsFrom(r1.value, order, blockOf, a, x, us, k + 1))
  {
  }

  /** One round of `LinkOutsFrom`. */
  lemma LinkOutsStep(st: Linking, order: seq<nat>, blockOf: map<Node, nat>, a: nat, w: Node, xs: seq<Node>, k: nat)
    requires k < |xs| && a in order && Ready(st.blocks, order)
    requires forall x | x in xs :: x in blockOf && blockOf[x] in order
    ensures var r1 := LinkOut(st, order, blockOf, a, (w, xs[k]));
      && (r1.None? ==> LinkOutsFrom(st, order, blockOf, a, w, xs, k).None?)
      && (r1.Some? ==> Ready(r1.value.blocks, order))
      && (r1.Some? ==> LinkOutsFrom(st, order, blockOf, a, w, xs, k) == LinkOutsFrom(r1.value, order, blockOf, a, w, xs, k + 1))
  {
  }

  /** One round of `LinkFrom`. */
  lemma LinkFromStep(st: Linking, g: Graph, order: seq<nat>, blockOf: map<Node, nat>, p: nat)
    requires p < |order| && Ready(st.blocks, order) && EdgesPlaced(g.edges, blockOf, order)
    ensures var r1 := LinkBlock(st, g, order, blockOf, p);
      && (r1.None? ==> LinkFrom(st, g, order, blockOf, p).None?)
      && (r1.Some? ==> Ready(r1.value.blocks, order))
      && (r1.Some? ==> LinkFrom(st, g, order, blockOf, p) == LinkFrom(r1.value, g, order, blockOf, p + 1))
  {
  }

  /** The loop over the edges into the upper node x of `a`. */
  method LinkIns(st0: Linking, order: seq<nat>, blockOf: map<Node, nat>, a: nat, x: Node, us: seq<Node>)
    returns (r: Option<Linking>)
    requires a in order && Ready(st0.blocks, order)
    requires forall u | u in us :: u in blockOf && blockOf[u] in order
    ensures r == LinkInsFrom(st0, order, blockOf, a, x, us, 0)
  {
    ghost var whole := LinkInsFrom(st0, order, blockOf, a, x, us, 0);
    var st := st0;
    var k := 0;
    while k < |us|
      invariant k <= |us| && Ready(st.blocks, order)
      invariant whole == LinkInsFrom(st, order, blockOf, a, x, us, k)
    {
      var r1 := LinkIn(st, order, blockOf, a, (us[k], x));
      LinkInsStep(st, order, blockOf, a, x, us, k);
      if r1.None? {
        return None;
      }
      st := r1.value;
      k := k + 1;
    }
    r := Some(st);
  }

  /** The loop over the edges out of the lower node w of `a`. */
  method LinkOuts(st0: Linking, order: seq<nat>, blockOf: map<Node, nat>, a: nat, w: Node, xs: seq<Node>)
    returns (r: Option<Linking>)
    requires a in order && Ready(st0.blocks, order)
    requires forall x | x in xs :: x in blockOf && blockOf[x] in order
    ensures r == LinkOutsFrom(st0, order, blockOf, a, w, xs, 0)
  {
    ghost var whole := LinkOutsFrom(st0, order, blockOf, a, w, xs, 0);
    var st := st0;
    var k := 0;
    while k < |xs|
      invariant k <= |xs| && Ready(st.blocks, order)
      invariant whole == LinkOutsFrom(st, order, blockOf, a, w, xs, k)
    {
      var r1 := LinkOut(st, order, blockOf, a, (w, xs[k]));
      LinkOutsStep(st, order, blockOf, a, w, xs, k);
      if r1.None? {
        return None;
      }
      st := r1.value;
      k := k + 1;
    }
    r := Some(st);
  }

  /** The loop over the blocks in position order. */
  method LinkAll(st0: Linking, g: Graph, order: seq<nat>, blockOf: map<Node, nat>) returns (r: Option<Linking>)
    requires Ready(st0.blocks, order) && EdgesPlaced(g.edges, blockOf, order)
    ensures r == LinkFrom(st0, g, order, blockOf, 0)
  {
    ghost var whole := LinkFrom(st0, g, order, blockOf, 0);
    var st := st0;
    var p := 0;
    while p < |order|
      invariant p <= |order| && Ready(st.blocks, order)
      invariant whole == LinkFrom(st, g, order, blockOf, p)
    {
      var r1 := LinkOne(st, g, order, blockOf, p);
      LinkFromStep(st, g, order, blockOf, p);
      if r1.None? {
        return None;
      }
      st := r1.value;
      p := p + 1;
    }
    r := Some(st);
  }

  /** One round of the loop of `sort_adjacencies`: the in-edges of the upper
      node of the block at position p, then the out-edges of its lower node. */
  method LinkOne(st: Linking, g: Graph, order: seq<nat>, blockOf: map<Node, nat>, p: nat) returns (r: Option<Linking>)
    requires p < |order| && Ready(st.blocks, order) && EdgesPlaced(g.edges, blockOf, order)
    ensures r == LinkBlock(st, g, order, blockOf, p)
  {
    var blk := st.blocks[order[p]];
    PredecessorsPlaced(g, blockOf, order, blk.Upper());
    PredecessorsPlaced(g, blockOf, order, blk.Lower());
    var r1 := LinkIns(st, order, blockOf, order[p], blk.Upper(), Predecessors(g, blk.Upper()));
    if r1.None? {
      return None;
    }
    r := LinkOuts(r1.value, order, blockOf, order[p], blk.Lower(), Successors(g, blk.Lower()));
  }

  /** `for block in B: block.clear()`. */
  method ClearAll(m0: map<nat, Block>, order: seq<nat>) returns (m: map<nat, Block>)
    requires forall k :: k in m0 <==> k in order
    ensures m == Cleared(m0)
  {
    m := m0;
    var i := 0;
    while i < |order|
      invariant i <= |order| && m.Keys == m0.Keys
      invariant forall k | k in m :: m[k] == if k in order[..i] then m0[k].Clear() else m0[k]
    {
      m := m[order[i] := m[order[i]].Clear()];
      i := i + 1;
    }
    assert forall k | k in m :: k in order[..i];
  }

  /** `sort_adjacencies(G, B)`: the blocks of `bl` get the neighbour lists
      Adjacencies computes; on a KeyError or IndexError they are left alone
      and `ok` is false.  The order is only read. */
  method SortAdjacencies(g: Graph, bl: BlockList, blockOf: map<Node, nat>) returns (ok: bool)
    requires bl.Valid() && Ready(bl.blocks, bl.order) && EdgesPlaced(g.edges, blockOf, bl.order)
    modifies bl
    ensures bl.Valid() && bl.order == old(bl.order)
    ensures var r := Adjacencies(old(bl.blocks), g, bl.order, blockOf);
      && ok == r.Some?
      && bl.blocks == if ok then r.value else old(bl.blocks)
  {
    ghost var adj := Adjacencies(bl.blocks, g, bl.order, blockOf);
    var m := ClearAll(bl.blocks, bl.order);
    var r := LinkAll(Linking(m, map[]), g, bl.order, blockOf);
    assert r.None? <==> adj.None?;
    if r.None? {
      return false;
    }
    assert Kept(bl.blocks, adj.value) && r.value.blocks == adj.value;
    bl.blocks := r.value.blocks;
    ok := true;
  }
}
