/**
 * What `sort_adjacencies` (algos/global_shift.py) builds on the layout the
 * layering leaves, where an edge between two blocks always leaves the lower
 * node of one and enters the upper node of the other: it never raises, the
 * successor list `n_p` of a block names the successors of its lower node
 * and the predecessor list `n_n` the predecessors of its upper node, each
 * in strictly increasing block position, and every entry's index (`i_p`,
 * `i_n`) points at the reciprocal entry in the neighbour's block.
 */
module NeighbourLinks {
  import opened Graphs
  import opened Blocks
  import opened NeighbourLists
  import opened Crossings

  /** The upper node of the block at position q. */
  function UpperAt(m: map<nat, Block>, order: seq<nat>, q: nat): Node
    requires Ready(m, order) && q < |order|
  {
    m[order[q]].Upper()
  }

  /** The lower node of the block at position q. */
  function LowerAt(m: map<nat, Block>, order: seq<nat>, q: nat): Node
    requires Ready(m, order) && q < |order|
  {
    m[order[q]].Lower()
  }

  /** An edge from the lower node of the block at position qy to the upper
      node of the block at position qx. */
  predicate EdgeAt(g: Graph, m: map<nat, Block>, order: seq<nat>, qy: nat, qx: nat)
    requires Ready(m, order) && qy < |order| && qx < |order|
  {
    (LowerAt(m, order, qy), UpperAt(m, order, qx)) in g.edges
  }

  /** The layout of the layering: every id has a block, every edge end a
      placed block, both ends of a block belong to it, and an edge either
      joins two blocks, leaving the lower node of one and entering the upper
      node of the other, or runs inside one block, away from its ends. */
  predicate Proper(g: Graph, m: map<nat, Block>, order: seq<nat>, blockOf: map<Node, nat>) {
    && Ready(m, order) && EdgesPlaced(g.edges, blockOf, order)
    && Distinct(order) && Distinct(g.edges) && EndsOwned(m, order, blockOf)
    && forall e | e in g.edges ::
         var y, x := blockOf[e.0], blockOf[e.1];
         if y == x then e.0 != m[y].Lower() && e.1 != m[x].Upper()
         else e.0 == m[y].Lower() && e.1 == m[x].Upper()
  }

  /** The ends of the block at position q are placed at q. */
  lemma EndsAt(g: Graph, m: map<nat, Block>, order: seq<nat>, blockOf: map<Node, nat>, q: nat)
    requires Proper(g, m, order, blockOf) && q < |order|
    ensures UpperAt(m, order, q) in blockOf && blockOf[UpperAt(m, order, q)] == order[q]
    ensures LowerAt(m, order, q) in blockOf && blockOf[LowerAt(m, order, q)] == order[q]
    ensures Pos(order, blockOf, UpperAt(m, order, q)) == q && Pos(order, blockOf, LowerAt(m, order, q)) == q
  {
    assert order[q] in order;
    IndexOfDistinct(order, q);
  }

  /** No edge runs from the lower to the upper node of one block. */
  lemma EdgeAtApart(g: Graph, m: map<nat, Block>, order: seq<nat>, blockOf: map<Node, nat>, qy: nat, qx: nat)
    requires Proper(g, m, order, blockOf) && qy < |order| && qx < |order| && EdgeAt(g, m, order, qy, qx)
    ensures qy != qx
  {
    EndsAt(g, m, order, blockOf, qy);
    EndsAt(g, m, order, blockOf, qx);
  }

  /** Distinct positions have distinct lower and distinct upper nodes. */
  lemma EndsApart(g: Graph, m: map<nat, Block>, order: seq<nat>, blockOf: map<Node, nat>, q: nat, q': nat)
    requires Proper(g, m, order, blockOf) && q < |order| && q' < |order| && q != q'
    ensures LowerAt(m, order, q) != LowerAt(m, order, q') && UpperAt(m, order, q) != UpperAt(m, order, q')
  {
    EndsAt(g, m, order, blockOf, q);
    EndsAt(g, m, order, blockOf, q');
  }

  /** The edges into the upper node of the block at p, as `G.in_edges` lists them. */
  function InAt(g: Graph, m: map<nat, Block>, order: seq<nat>, p: nat): seq<Node>
    requires Ready(m, order) && p < |order|
  {
    Predecessors(g, UpperAt(m, order, p))
  }

  /** The edges out of the lower node of the block at p. */
  function OutAt(g: Graph, m: map<nat, Block>, order: seq<nat>, p: nat): seq<Node>
    requires Ready(m, order) && p < |order|
  {
    Successors(g, LowerAt(m, order, p))
  }

  /** A predecessor of the upper node at p is the lower node of another block. */
  lemma InAtLower(g: Graph, m: map<nat, Block>, order: seq<nat>, blockOf: map<Node, nat>, p: nat, u: Node)
    requires Proper(g, m, order, blockOf) && p < |order| && u in InAt(g, m, order, p)
    ensures u in blockOf && blockOf[u] in order
    ensures var qz := Pos(order, blockOf, u);
      qz != p && u == LowerAt(m, order, qz) && EdgeAt(g, m, order, qz, p)
  {
    var e := (u, UpperAt(m, order, p));
    assert e in g.edges;
    EndsAt(g, m, order, blockOf, p);
    var qz := Pos(order, blockOf, u);
    assert order[qz] == blockOf[u];
  }

  /** A successor of the lower node at p is the upper node of another block. */
  lemma OutAtUpper(g: Graph, m: map<nat, Block>, order: seq<nat>, blockOf: map<Node, nat>, p: nat, x: Node)
    requires Proper(g, m, order, blockOf) && p < |order| && x in OutAt(g, m, order, p)
    ensures x in blockOf && blockOf[x] in order
    ensures var qx := Pos(order, blockOf, x);
      qx != p && x == UpperAt(m, order, qx) && EdgeAt(g, m, order, p, qx)
  {
    var e := (LowerAt(m, order, p), x);
    assert e in g.edges;
    EndsAt(g, m, order, blockOf, p);
    var qx := Pos(order, blockOf, x);
    assert order[qx] == blockOf[x];
  }

  /** The lower node at qy precedes the upper node at qx exactly on an edge. */
  lemma InAtIff(g: Graph, m: map<nat, Block>, order: seq<nat>, qy: nat, qx: nat)
    requires Ready(m, order) && qy < |order| && qx < |order|
    ensures LowerAt(m, order, qy) in InAt(g, m, order, qx) <==> EdgeAt(g, m, order, qy, qx)
    ensures UpperAt(m, order, qx) in OutAt(g, m, order, qy) <==> EdgeAt(g, m, order, qy, qx)
  {
  }

  // ---------------------------------------------------------------------
  // The lists sort_adjacencies builds

  /** The successor list of the block at qz once the blocks left of p have
      been visited: the upper nodes of those blocks that the lower node at
      qz has an edge to, left to right. */
  function SuccsAt(g: Graph, m: map<nat, Block>, order: seq<nat>, qz: nat, p: nat): (r: seq<Node>)
    requires Ready(m, order) && qz < |order| && p <= |order|
    ensures |r| <= p
  {
    if p == 0 then []
    else SuccsAt(g, m, order, qz, p - 1) + if EdgeAt(g, m, order, qz, p - 1) then [UpperAt(m, order, p - 1)] else []
  }

  /** The predecessor list of the block at qz once the blocks left of p
      have been visited: the lower nodes of those blocks that have an edge
      to the upper node at qz, left to right. */
  function PredsAt(g: Graph, m: map<nat, Block>, order: seq<nat>, qz: nat, p: nat): (r: seq<Node>)
    requires Ready(m, order) && qz < |order| && p <= |order|
    ensures |r| <= p
  {
    if p == 0 then []
    else PredsAt(g, m, order, qz, p - 1) + if EdgeAt(g, m, order, p - 1, qz) then [LowerAt(m, order, p - 1)] else []
  }

  /** The entry for an edge to the block at q sits at index |SuccsAt(qz, q)|,
      and every later block's entry comes after it. */
  lemma {:induction false} SuccsAtIndex(g: Graph, m: map<nat, Block>, order: seq<nat>, qz: nat, q: nat, p: nat)
    requires Ready(m, order) && qz < |order| && q < p <= |order| && EdgeAt(g, m, order, qz, q)
    ensures |SuccsAt(g, m, order, qz, q)| < |SuccsAt(g, m, order, qz, p)|
    ensures SuccsAt(g, m, order, qz, p)[|SuccsAt(g, m, order, qz, q)|] == UpperAt(m, order, q)
    decreases p
  {
    if q < p - 1 {
      SuccsAtIndex(g, m, order, qz, q, p - 1);
    }
  }

  /** The mirror image of SuccsAtIndex for predecessor lists. */
  lemma {:induction false} PredsAtIndex(g: Graph, m: map<nat, Block>, order: seq<nat>, qz: nat, q: nat, p: nat)
    requires Ready(m, order) && qz < |order| && q < p <= |order| && EdgeAt(g, m, order, q, qz)
    ensures |PredsAt(g, m, order, qz, q)| < |PredsAt(g, m, order, qz, p)|
    ensures PredsAt(g, m, order, qz, p)[|PredsAt(g, m, order, qz, q)|] == LowerAt(m, order, q)
    decreases p
  {
    if q < p - 1 {
      PredsAtIndex(g, m, order, qz, q, p - 1);
    }
  }

  /** The lists only grow as more blocks are visited. */
  lemma {:induction false} AtGrows(g: Graph, m: map<nat, Block>, order: seq<nat>, qz: nat, q: nat, p: nat)
    requires Ready(m, order) && qz < |order| && q <= p <= |order|
    ensures |SuccsAt(g, m, order, qz, q)| <= |SuccsAt(g, m, order, qz, p)|
    ensures |PredsAt(g, m, order, qz, q)| <= |PredsAt(g, m, order, qz, p)|
    decreases p
  {
    if q < p {
      AtGrows(g, m, order, qz, q, p - 1);
    }
  }

  /** The position of the block whose upper node is entry k of the successor
      list: entry k is the one added when that block was visited. */
  function SuccSource(g: Graph, m: map<nat, Block>, order: seq<nat>, qz: nat, p: nat, k: nat): (q: nat)
    requires Ready(m, order) && qz < |order| && p <= |order| && k < |SuccsAt(g, m, order, qz, p)|
    ensures q < p && EdgeAt(g, m, order, qz, q)
    ensures k == |SuccsAt(g, m, order, qz, q)| && SuccsAt(g, m, order, qz, p)[k] == UpperAt(m, order, q)
    decreases p
  {
    if k < |SuccsAt(g, m, order, qz, p - 1)| then SuccSource(g, m, order, qz, p - 1, k) else p - 1
  }

  /** The position of the block whose lower node is entry k of the
      predecessor list. */
  function PredSource(g: Graph, m: map<nat, Block>, order: seq<nat>, qz: nat, p: nat, k: nat): (q: nat)
    requires Ready(m, order) && qz < |order| && p <= |order| && k < |PredsAt(g, m, order, qz, p)|
    ensures q < p && EdgeAt(g, m, order, q, qz)
    ensures k == |PredsAt(g, m, order, qz, q)| && PredsAt(g, m, order, qz, p)[k] == LowerAt(m, order, q)
    decreases p
  {
    if k < |PredsAt(g, m, order, qz, p - 1)| then PredSource(g, m, order, qz, p - 1, k) else p - 1
  }

  // ---------------------------------------------------------------------
  // The state of sort_adjacencies at a point of its walk

  /** The clock (p, ins, outs): the blocks left of p are done, and of the
      block at p the first `ins` in-edges and then the first `outs`
      out-edges. */
  predicate Clock(g: Graph, m0: map<nat, Block>, order: seq<nat>, p: nat, ins: nat, outs: nat)
    requires Ready(m0, order)
  {
    && p <= |order|
    && (p == |order| ==> ins == 0 && outs == 0)
    && (p < |order| ==> ins <= |InAt(g, m0, order, p)| && outs <= |OutAt(g, m0, order, p)|
                        && (outs > 0 ==> ins == |InAt(g, m0, order, p)|))
  }

  /** The in-edge from v into the block at p has been handled. */
  predicate SeenIn(g: Graph, m0: map<nat, Block>, order: seq<nat>, p: nat, ins: nat, v: Node)
    requires Ready(m0, order)
  {
    p < |order| && ins <= |InAt(g, m0, order, p)| && v in InAt(g, m0, order, p)[..ins]
  }

  /** The out-edge from the block at p to x has been handled. */
  predicate SeenOut(g: Graph, m0: map<nat, Block>, order: seq<nat>, p: nat, outs: nat, x: Node)
    requires Ready(m0, order)
  {
    p < |order| && outs <= |OutAt(g, m0, order, p)| && x in OutAt(g, m0, order, p)[..outs]
  }

  /** The edge from the block at qy to the block at qx has been met from its
      upper end (while visiting qx). */
  predicate UpSeen(g: Graph, m0: map<nat, Block>, order: seq<nat>, p: nat, ins: nat, qy: nat, qx: nat)
    requires Ready(m0, order) && qy < |order|
  {
    qx < p || (qx == p && SeenIn(g, m0, order, p, ins, LowerAt(m0, order, qy)))
  }

  /** The edge from the block at qy to the block at qx has been met from its
      lower end (while visiting qy). */
  predicate LowSeen(g: Graph, m0: map<nat, Block>, order: seq<nat>, p: nat, outs: nat, qy: nat, qx: nat)
    requires Ready(m0, order) && qx < |order|
  {
    qy < p || (qy == p && SeenOut(g, m0, order, p, outs, UpperAt(m0, order, qx)))
  }

  /** The neighbour lists of the block at q hold the entries of the edges met
      so far, in the order they were met. */
  predicate ContentsOK(g: Graph, m0: map<nat, Block>, order: seq<nat>, m: map<nat, Block>,
                       p: nat, ins: nat, outs: nat, q: nat)
    requires Ready(m0, order) && Kept(m0, m) && p <= |order| && q < |order|
  {
    && m[order[q]].succs == SuccsAt(g, m0, order, q, p)
         + (if SeenIn(g, m0, order, p, ins, LowerAt(m0, order, q)) then [UpperAt(m0, order, p)] else [])
    && m[order[q]].preds == PredsAt(g, m0, order, q, p)
         + (if SeenOut(g, m0, order, p, outs, UpperAt(m0, order, q)) then [LowerAt(m0, order, p)] else [])
  }

  /** The edge from the block at qy to the block at qx: once met from both
      ends, its two entries hold each other's index; once met from one end,
      `p` holds the index of the entry made then. */
  predicate LinkOK(g: Graph, m0: map<nat, Block>, order: seq<nat>, st: Linking,
                   p: nat, ins: nat, outs: nat, qy: nat, qx: nat)
    requires Ready(m0, order) && Kept(m0, st.blocks) && qy < |order| && qx < |order|
  {
    EdgeAt(g, m0, order, qy, qx) ==>
      var si, pi := |SuccsAt(g, m0, order, qy, qx)|, |PredsAt(g, m0, order, qx, qy)|;
      var e := (LowerAt(m0, order, qy), UpperAt(m0, order, qx));
      var y, x := st.blocks[order[qy]], st.blocks[order[qx]];
      var up, low := UpSeen(g, m0, order, p, ins, qy, qx), LowSeen(g, m0, order, p, outs, qy, qx);
      && (up && low ==> si < |y.succIdx| && y.succIdx[si] == pi && pi < |x.predIdx| && x.predIdx[pi] == si)
      && (up && !low ==> e in st.pending && st.pending[e] == si)
      && (!up && low ==> e in st.pending && st.pending[e] == pi)
  }

  /** The invariant of the walk at clock (p, ins, outs). */
  predicate Inv(g: Graph, m0: map<nat, Block>, order: seq<nat>, st: Linking, p: nat, ins: nat, outs: nat)
    requires Ready(m0, order)
  {
    && Clock(g, m0, order, p, ins, outs)
    && Kept(m0, st.blocks) && Balanced(st.blocks) && Ready(st.blocks, order)
    && (forall q | 0 <= q < |order| :: ContentsOK(g, m0, order, st.blocks, p, ins, outs, q))
    && (forall qy, qx | 0 <= qy < |order| && 0 <= qx < |order| :: LinkOK(g, m0, order, st, p, ins, outs, qy, qx))
  }

  /** The walk starts with every list empty and nothing parked. */
  lemma InvInit(g: Graph, m0: map<nat, Block>, order: seq<nat>)
    requires Ready(m0, order)
    ensures Inv(g, m0, order, Linking(Cleared(m0), map[]), 0, 0, 0)
  {
    var st := Linking(Cleared(m0), map[]);
    forall q | 0 <= q < |order| ensures ContentsOK(g, m0, order, st.blocks, 0, 0, 0, q) {
      assert order[q] in order;
    }
  }

  /** Kept is transitive. */
  lemma KeptTrans(m0: map<nat, Block>, m1: map<nat, Block>, m2: map<nat, Block>)
    requires Kept(m0, m1) && Kept(m1, m2)
    ensures Kept(m0, m2)
  {
  }

  // ---------------------------------------------------------------------
  // One in-edge

  /** The next in-edge of the block at p comes from the lower node of the
      block at qu, and it is the only sighting the step adds. */
  lemma InEdgeFacts(g: Graph, m0: map<nat, Block>, order: seq<nat>, blockOf: map<Node, nat>, p: nat, ins: nat)
    returns (qu: nat)
    requires Proper(g, m0, order, blockOf) && p < |order| && ins < |InAt(g, m0, order, p)|
    ensures qu < |order| && qu != p && LowerAt(m0, order, qu) == InAt(g, m0, order, p)[ins] && EdgeAt(g, m0, order, qu, p)
    ensures blockOf[InAt(g, m0, order, p)[ins]] == order[qu]
    ensures IndexOf(order, order[p]) == p && IndexOf(order, order[qu]) == qu
    ensures !SeenIn(g, m0, order, p, ins, LowerAt(m0, order, qu))
    ensures forall q | 0 <= q < |order| ::
      SeenIn(g, m0, order, p, ins + 1, LowerAt(m0, order, q)) <==> SeenIn(g, m0, order, p, ins, LowerAt(m0, order, q)) || q == qu
  {
    var ns := InAt(g, m0, order, p);
    var u := ns[ins];
    InAtLower(g, m0, order, blockOf, p, u);
    qu := Pos(order, blockOf, u);
    IndexOfDistinct(order, p);
    IndexOfDistinct(order, qu);
    PredecessorsDistinct(g.edges, UpperAt(m0, order, p));
    assert ns[..ins + 1] == ns[..ins] + [u];
    forall q | 0 <= q < |order|
      ensures SeenIn(g, m0, order, p, ins + 1, LowerAt(m0, order, q)) <==> SeenIn(g, m0, order, p, ins, LowerAt(m0, order, q)) || q == qu
    {
      if q != qu {
        EndsApart(g, m0, order, blockOf, q, qu);
      }
    }
  }

  /** What LinkIn does with the in-edge from qu into p: it appends to the
      successor list of the block at qu and either parks the new entry's
      index (qu right of p) or links it with the parked index of the
      predecessor entry (qu left of p). */
  predicate InShape(g: Graph, m0: map<nat, Block>, order: seq<nat>, st: Linking, r: Linking, p: nat, qu: nat)
    requires Ready(m0, order) && Kept(m0, st.blocks) && p < |order| && qu < |order|
  {
    var e := (LowerAt(m0, order, qu), UpperAt(m0, order, p));
    var j, pi := |SuccsAt(g, m0, order, qu, p)|, |PredsAt(g, m0, order, p, qu)|;
    && Kept(m0, r.blocks) && Balanced(r.blocks) && Ready(r.blocks, order)
    && (qu > p ==> r.pending == st.pending[e := j])
    && (qu < p ==> r.pending == st.pending)
    && (forall k | k in st.blocks :: r.blocks[k].preds == st.blocks[k].preds)
    && (forall k | k in st.blocks :: r.blocks[k].succs == st.blocks[k].succs + if k == order[qu] then [UpperAt(m0, order, p)] else [])
    && (forall k | k in st.blocks && k != order[qu] :: r.blocks[k].succIdx == st.blocks[k].succIdx)
    && |st.blocks[order[qu]].succIdx| == j
    && r.blocks[order[qu]].succIdx == st.blocks[order[qu]].succIdx + [if qu < p then pi else -1]
    && (forall k | k in st.blocks && (k != order[p] || qu > p) :: r.blocks[k].predIdx == st.blocks[k].predIdx)
    && (qu < p ==> pi < |st.blocks[order[p]].predIdx| && r.blocks[order[p]].predIdx == st.blocks[order[p]].predIdx[pi := j])
  }

  lemma InStepShape(g: Graph, m0: map<nat, Block>, order: seq<nat>, blockOf: map<Node, nat>,
                    st: Linking, p: nat, ins: nat, qu: nat)
    requires Ready(m0, order) && Clock(g, m0, order, p, ins, 0)
    requires Kept(m0, st.blocks) && Balanced(st.blocks) && Ready(st.blocks, order)
    requires p < |order| && ins < |InAt(g, m0, order, p)|
    requires qu < |order| && qu != p && LowerAt(m0, order, qu) == InAt(g, m0, order, p)[ins] && EdgeAt(g, m0, order, qu, p)
    requires InAt(g, m0, order, p)[ins] in blockOf && blockOf[InAt(g, m0, order, p)[ins]] == order[qu]
    requires IndexOf(order, order[p]) == p && IndexOf(order, order[qu]) == qu
    requires !SeenIn(g, m0, order, p, ins, LowerAt(m0, order, qu))
    requires ContentsOK(g, m0, order, st.blocks, p, ins, 0, qu) && ContentsOK(g, m0, order, st.blocks, p, ins, 0, p)
    requires LinkOK(g, m0, order, st, p, ins, 0, qu, p)
    ensures var r := LinkIn(st, order, blockOf, order[p], (LowerAt(m0, order, qu), UpperAt(m0, order, p)));
      r.Some? && InShape(g, m0, order, st, r.value, p, qu)
      && Kept(m0, r.value.blocks) && Balanced(r.value.blocks) && Ready(r.value.blocks, order)
  {
    var e := (LowerAt(m0, order, qu), UpperAt(m0, order, p));
    var bu, j := order[qu], |SuccsAt(g, m0, order, qu, p)|;
    assert bu != order[p] && j == |st.blocks[bu].succs|;
    var m1 := AppendSucc(st.blocks, bu, e.1);
    KeptTrans(m0, st.blocks, m1);
    if qu < p {
      var pi := |PredsAt(g, m0, order, p, qu)|;
      PredsAtIndex(g, m0, order, p, qu, p);
      assert e in st.pending && st.pending[e] == pi;
      JoinInShape(g, m0, order, st, m1, p, qu);
      assert LinkIn(st, order, blockOf, order[p], e) == Some(Linking(JoinIn(m1, bu, order[p], j, pi).value, st.pending));
    } else {
      ParkInShape(g, m0, order, st, m1, p, qu);
      assert LinkIn(st, order, blockOf, order[p], e) == Some(Linking(m1, st.pending[e := j]));
    }
  }

  /** The parking half of InStepShape, for an edge from a block right of p. */
  lemma ParkInShape(g: Graph, m0: map<nat, Block>, order: seq<nat>, st: Linking, m1: map<nat, Block>, p: nat, qu: nat)
    requires Ready(m0, order) && Kept(m0, st.blocks) && Balanced(st.blocks) && Kept(m0, m1) && Ready(st.blocks, order)
    requires p < qu < |order|
    requires m1 == AppendSucc(st.blocks, order[qu], UpperAt(m0, order, p))
    requires |st.blocks[order[qu]].succs| == |SuccsAt(g, m0, order, qu, p)|
    ensures InShape(g, m0, order, st, Linking(m1, st.pending[(LowerAt(m0, order, qu), UpperAt(m0, order, p)) := |SuccsAt(g, m0, order, qu, p)|]), p, qu)
  {
  }

  /** The linking half of InStepShape, for an edge from a block left of p. */
  lemma JoinInShape(g: Graph, m0: map<nat, Block>, order: seq<nat>, st: Linking, m1: map<nat, Block>, p: nat, qu: nat)
    requires Ready(m0, order) && Kept(m0, st.blocks) && Balanced(st.blocks) && Kept(m0, m1)
    requires qu < p < |order| && order[qu] != order[p]
    requires m1 == AppendSucc(st.blocks, order[qu], UpperAt(m0, order, p))
    requires |st.blocks[order[qu]].succs| == |SuccsAt(g, m0, order, qu, p)|
    requires |PredsAt(g, m0, order, p, qu)| < |st.blocks[order[p]].preds|
    ensures var r := JoinIn(m1, order[qu], order[p], |SuccsAt(g, m0, order, qu, p)|, |PredsAt(g, m0, order, p, qu)|);
      r.Some? && InShape(g, m0, order, st, Linking(r.value, st.pending), p, qu)
  {
    AppendJoinIn(st.blocks, order[qu], order[p], UpperAt(m0, order, p), |SuccsAt(g, m0, order, qu, p)|, |PredsAt(g, m0, order, p, qu)|);
    var r := JoinIn(m1, order[qu], order[p], |SuccsAt(g, m0, order, qu, p)|, |PredsAt(g, m0, order, p, qu)|);
    KeptTrans(m0, st.blocks, r.value);
  }

  /** AppendSucc on z, then JoinIn of the new slot with slot q of a: the
      successor entry gets its partner's index straight away, and only
      slot q of a's predecessor indices changes besides. */
  lemma AppendJoinIn(m: map<nat, Block>, z: nat, a: nat, v: Node, j: nat, q: nat)
    requires z in m && a in m && z != a && |m[z].succIdx| == j && q < |m[a].predIdx|
    ensures var r := JoinIn(AppendSucc(m, z, v), z, a, j, q);
      && r.Some? && Kept(m, r.value)
      && (forall k | k in m :: r.value[k].preds == m[k].preds)
      && (forall k | k in m :: r.value[k].succs == m[k].succs + if k == z then [v] else [])
      && (forall k | k in m && k != z :: r.value[k].succIdx == m[k].succIdx)
      && r.value[z].succIdx == m[z].succIdx + [q]
      && (forall k | k in m && k != a :: r.value[k].predIdx == m[k].predIdx)
      && r.value[a].predIdx == m[a].predIdx[q := j]
  {
    var m1 := AppendSucc(m, z, v);
    KeptTrans(m, m1, JoinIn(m1, z, a, j, q).value);
    assert (m[z].succIdx + [-1])[j := q] == m[z].succIdx + [q];
  }

  /** The mirror image of AppendJoinIn: AppendPred on z, then JoinOut. */
  lemma AppendJoinOut(m: map<nat, Block>, z: nat, a: nat, w: Node, j: nat, q: nat)
    requires z in m && a in m && z != a && |m[z].predIdx| == j && q < |m[a].succIdx|
    ensures var r := JoinOut(AppendPred(m, z, w), z, a, j, q);
      && r.Some? && Kept(m, r.value)
      && (forall k | k in m :: r.value[k].succs == m[k].succs)
      && (forall k | k in m :: r.value[k].preds == m[k].preds + if k == z then [w] else [])
      && (forall k | k in m && k != z :: r.value[k].predIdx == m[k].predIdx)
      && r.value[z].predIdx == m[z].predIdx + [q]
      && (forall k | k in m && k != a :: r.value[k].succIdx == m[k].succIdx)
      && r.value[a].succIdx == m[a].succIdx[q := j]
  {
    var m1 := AppendPred(m, z, w);
    KeptTrans(m, m1, JoinOut(m1, z, a, j, q).value);
    assert (m[z].predIdx + [-1])[j := q] == m[z].predIdx + [q];
  }

  /** An edge whose sightings a step leaves as they were keeps its links
      when the slots and the parked index they use are untouched. */
  lemma LinkOKTransfer(g: Graph, m0: map<nat, Block>, order: seq<nat>, st: Linking, r: Linking,
                       p: nat, ins: nat, outs: nat, p': nat, ins': nat, outs': nat, qy: nat, qx: nat)
    requires Ready(m0, order) && Kept(m0, st.blocks) && Kept(m0, r.blocks) && qy < |order| && qx < |order|
    requires LinkOK(g, m0, order, st, p, ins, outs, qy, qx)
    requires EdgeAt(g, m0, order, qy, qx)
    requires UpSeen(g, m0, order, p', ins', qy, qx) == UpSeen(g, m0, order, p, ins, qy, qx)
    requires LowSeen(g, m0, order, p', outs', qy, qx) == LowSeen(g, m0, order, p, outs, qy, qx)
    requires UpSeen(g, m0, order, p, ins, qy, qx) && LowSeen(g, m0, order, p, outs, qy, qx) ==>
      var si, pi := |SuccsAt(g, m0, order, qy, qx)|, |PredsAt(g, m0, order, qx, qy)|;
      && si < |st.blocks[order[qy]].succIdx| && pi < |st.blocks[order[qx]].predIdx|
      && si < |r.blocks[order[qy]].succIdx| && r.blocks[order[qy]].succIdx[si] == st.blocks[order[qy]].succIdx[si]
      && pi < |r.blocks[order[qx]].predIdx| && r.blocks[order[qx]].predIdx[pi] == st.blocks[order[qx]].predIdx[pi]
    requires var e := (LowerAt(m0, order, qy), UpperAt(m0, order, qx));
      e in st.pending ==> e in r.pending && r.pending[e] == st.pending[e]
    ensures LinkOK(g, m0, order, r, p', ins', outs', qy, qx)
  {
  }

  /** The index at which the entry of the edge from qy to qx sits in the
      successor list of qy comes before every entry added at p or later;
      the same for the predecessor list of qx. */
  lemma SlotsBelow(g: Graph, m0: map<nat, Block>, order: seq<nat>, qy: nat, qx: nat, p: nat)
    requires Ready(m0, order) && qy < |order| && qx < |order| && p <= |order| && EdgeAt(g, m0, order, qy, qx)
    ensures qx < p ==> |SuccsAt(g, m0, order, qy, qx)| < |SuccsAt(g, m0, order, qy, p)|
    ensures qy < p ==> |PredsAt(g, m0, order, qx, qy)| < |PredsAt(g, m0, order, qx, p)|
  {
    if qx < p {
      SuccsAtIndex(g, m0, order, qy, qx, p);
    }
    if qy < p {
      PredsAtIndex(g, m0, order, qx, qy, p);
    }
  }

  /** Two edges into the same block have their predecessor entries at
      different indices; two edges out of the same block their successor
      entries. */
  lemma SlotsApart(g: Graph, m0: map<nat, Block>, order: seq<nat>, qz: nat, q: nat, q': nat)
    requires Ready(m0, order) && qz < |order| && q < |order| && q' < |order| && q != q'
    ensures EdgeAt(g, m0, order, q, qz) && EdgeAt(g, m0, order, q', qz) ==>
      |PredsAt(g, m0, order, qz, q)| != |PredsAt(g, m0, order, qz, q')|
    ensures EdgeAt(g, m0, order, qz, q) && EdgeAt(g, m0, order, qz, q') ==>
      |SuccsAt(g, m0, order, qz, q)| != |SuccsAt(g, m0, order, qz, q')|
  {
    if q < q' {
      if EdgeAt(g, m0, order, q, qz) { PredsAtIndex(g, m0, order, qz, q, q'); }
      if EdgeAt(g, m0, order, qz, q) { SuccsAtIndex(g, m0, order, qz, q, q'); }
    } else {
      if EdgeAt(g, m0, order, q', qz) { PredsAtIndex(g, m0, order, qz, q', q); }
      if EdgeAt(g, m0, order, qz, q') { SuccsAtIndex(g, m0, order, qz, q', q); }
    }
  }

  /** After the in-edge from qu, every edge's entries are still linked, or
      parked, as far as it has been met. */
  lemma InStepPair(g: Graph, m0: map<nat, Block>, order: seq<nat>,
                   st: Linking, r: Linking, p: nat, ins: nat, qu: nat, qy: nat, qx: nat)
    requires Ready(m0, order) && Kept(m0, st.blocks)
    requires p < |order| && ins < |InAt(g, m0, order, p)| && qy < |order| && qx < |order|
    requires qu < |order| && qu != p && EdgeAt(g, m0, order, qu, p)
    requires !SeenIn(g, m0, order, p, ins, LowerAt(m0, order, qu))
    requires SeenIn(g, m0, order, p, ins + 1, LowerAt(m0, order, qy)) <==> SeenIn(g, m0, order, p, ins, LowerAt(m0, order, qy)) || qy == qu
    requires InShape(g, m0, order, st, r, p, qu) && LinkOK(g, m0, order, st, p, ins, 0, qy, qx)
    requires qy != qu ==> LowerAt(m0, order, qy) != LowerAt(m0, order, qu)
    requires qx != p ==> UpperAt(m0, order, qx) != UpperAt(m0, order, p)
    ensures Kept(m0, r.blocks) && LinkOK(g, m0, order, r, p, ins + 1, 0, qy, qx)
  {
    if EdgeAt(g, m0, order, qy, qx) && (qy, qx) != (qu, p) {
      if UpSeen(g, m0, order, p, ins, qy, qx) && LowSeen(g, m0, order, p, 0, qy, qx) {
        InStepSlots(g, m0, order, st, r, p, ins, qu, qy, qx);
      }
      LinkOKTransfer(g, m0, order, st, r, p, ins, 0, p, ins + 1, 0, qy, qx);
    }
  }

  /** The in-edge from qu leaves the linked entries of every other edge
      where they were. */
  lemma InStepSlots(g: Graph, m0: map<nat, Block>, order: seq<nat>,
                    st: Linking, r: Linking, p: nat, ins: nat, qu: nat, qy: nat, qx: nat)
    requires Ready(m0, order) && Kept(m0, st.blocks)
    requires p < |order| && qy < |order| && qx < |order| && qu < |order|
    requires EdgeAt(g, m0, order, qy, qx) && EdgeAt(g, m0, order, qu, p) && (qy, qx) != (qu, p) && qu != p
    requires InShape(g, m0, order, st, r, p, qu) && LinkOK(g, m0, order, st, p, ins, 0, qy, qx)
    requires UpSeen(g, m0, order, p, ins, qy, qx) && LowSeen(g, m0, order, p, 0, qy, qx)
    requires qx != p ==> UpperAt(m0, order, qx) != UpperAt(m0, order, p)
    ensures var si, pi := |SuccsAt(g, m0, order, qy, qx)|, |PredsAt(g, m0, order, qx, qy)|;
      && si < |st.blocks[order[qy]].succIdx| && pi < |st.blocks[order[qx]].predIdx|
      && si < |r.blocks[order[qy]].succIdx| && r.blocks[order[qy]].succIdx[si] == st.blocks[order[qy]].succIdx[si]
      && pi < |r.blocks[order[qx]].predIdx| && r.blocks[order[qx]].predIdx[pi] == st.blocks[order[qx]].predIdx[pi]
  {
    var si, pi := |SuccsAt(g, m0, order, qy, qx)|, |PredsAt(g, m0, order, qx, qy)|;
    var y, y' := st.blocks[order[qy]], r.blocks[order[qy]];
    assert y'.succIdx == y.succIdx + (if order[qy] == order[qu] then [y'.succIdx[|y.succIdx|]] else []);
    assert y'.succIdx[si] == y.succIdx[si];
    var x, x' := st.blocks[order[qx]], r.blocks[order[qx]];
    if order[qx] == order[p] && qu < p {
      assert qx == p;
      SlotsApart(g, m0, order, p, qy, qu);
      assert pi != |PredsAt(g, m0, order, p, qu)|;
    } else {
      assert x'.predIdx == x.predIdx;
    }
  }

  /** The lists of the block at q after the in-edge from qu. */
  lemma InStepContents(g: Graph, m0: map<nat, Block>, order: seq<nat>,
                       st: Linking, r: Linking, p: nat, ins: nat, qu: nat, q: nat)
    requires Ready(m0, order) && Kept(m0, st.blocks) && Distinct(order)
    requires p < |order| && ins < |InAt(g, m0, order, p)| && q < |order| && qu < |order|
    requires SeenIn(g, m0, order, p, ins + 1, LowerAt(m0, order, q)) <==> SeenIn(g, m0, order, p, ins, LowerAt(m0, order, q)) || q == qu
    requires !SeenIn(g, m0, order, p, ins, LowerAt(m0, order, qu))
    requires InShape(g, m0, order, st, r, p, qu) && ContentsOK(g, m0, order, st.blocks, p, ins, 0, q)
    ensures Kept(m0, r.blocks) && ContentsOK(g, m0, order, r.blocks, p, ins + 1, 0, q)
  {
    assert order[q] in st.blocks;
    assert order[q] == order[qu] <==> q == qu;
  }

  /** Distinct positions have distinct ends: EndsApart for all positions
      at once. */
  predicate EndsDistinct(m0: map<nat, Block>, order: seq<nat>)
    requires Ready(m0, order)
  {
    forall q, q' | 0 <= q < q' < |order| ::
      LowerAt(m0, order, q) != LowerAt(m0, order, q') && UpperAt(m0, order, q) != UpperAt(m0, order, q')
  }

  lemma ProperEndsDistinct(g: Graph, m0: map<nat, Block>, order: seq<nat>, blockOf: map<Node, nat>)
    requires Proper(g, m0, order, blockOf)
    ensures EndsDistinct(m0, order)
  {
    forall q, q' | 0 <= q < q' < |order|
      ensures LowerAt(m0, order, q) != LowerAt(m0, order, q') && UpperAt(m0, order, q) != UpperAt(m0, order, q')
    {
      EndsApart(g, m0, order, blockOf, q, q');
    }
  }

  /** The links half of InStep. */
  lemma InStepLinks(g: Graph, m0: map<nat, Block>, order: seq<nat>, st: Linking, r: Linking, p: nat, ins: nat, ins1: nat, qu: nat)
    requires ins1 == ins + 1
    requires Ready(m0, order) && Kept(m0, st.blocks) && EndsDistinct(m0, order)
    requires p < |order| && ins < |InAt(g, m0, order, p)|
    requires qu < |order| && qu != p && EdgeAt(g, m0, order, qu, p)
    requires !SeenIn(g, m0, order, p, ins, LowerAt(m0, order, qu))
    requires forall q | 0 <= q < |order| ::
      SeenIn(g, m0, order, p, ins + 1, LowerAt(m0, order, q)) <==> SeenIn(g, m0, order, p, ins, LowerAt(m0, order, q)) || q == qu
    requires InShape(g, m0, order, st, r, p, qu)
    requires forall qy, qx | 0 <= qy < |order| && 0 <= qx < |order| :: LinkOK(g, m0, order, st, p, ins, 0, qy, qx)
    ensures Kept(m0, r.blocks)
    ensures forall qy, qx | 0 <= qy < |order| && 0 <= qx < |order| :: LinkOK(g, m0, order, r, p, ins1, 0, qy, qx)
  {
    forall qy, qx | 0 <= qy < |order| && 0 <= qx < |order| ensures LinkOK(g, m0, order, r, p, ins1, 0, qy, qx) {
      InStepPair(g, m0, order, st, r, p, ins, qu, qy, qx);
    }
  }

  /** The contents half of InStep. */
  lemma InStepAllContents(g: Graph, m0: map<nat, Block>, order: seq<nat>, st: Linking, r: Linking, p: nat, ins: nat, ins1: nat, qu: nat)
    requires ins1 == ins + 1
    requires Ready(m0, order) && Kept(m0, st.blocks) && Distinct(order)
    requires p < |order| && ins < |InAt(g, m0, order, p)| && qu < |order|
    requires !SeenIn(g, m0, order, p, ins, LowerAt(m0, order, qu))
    requires forall q | 0 <= q < |order| ::
      SeenIn(g, m0, order, p, ins + 1, LowerAt(m0, order, q)) <==> SeenIn(g, m0, order, p, ins, LowerAt(m0, order, q)) || q == qu
    requires InShape(g, m0, order, st, r, p, qu)
    requires forall q | 0 <= q < |order| :: ContentsOK(g, m0, order, st.blocks, p, ins, 0, q)
    ensures Kept(m0, r.blocks)
    ensures forall q | 0 <= q < |order| :: ContentsOK(g, m0, order, r.blocks, p, ins1, 0, q)
  {
    forall q | 0 <= q < |order| ensures ContentsOK(g, m0, order, r.blocks, p, ins1, 0, q) {
      InStepContents(g, m0, order, st, r, p, ins, qu, q);
    }
  }

  lemma InvIntro(g: Graph, m0: map<nat, Block>, order: seq<nat>, st: Linking, p: nat, ins: nat, outs: nat)
    requires Ready(m0, order) && Clock(g, m0, order, p, ins, outs)
    requires Kept(m0, st.blocks) && Balanced(st.blocks) && Ready(st.blocks, order)
    requires forall q | 0 <= q < |order| :: ContentsOK(g, m0, order, st.blocks, p, ins, outs, q)
    requires forall qy, qx | 0 <= qy < |order| && 0 <= qx < |order| :: LinkOK(g, m0, order, st, p, ins, outs, qy, qx)
    ensures Inv(g, m0, order, st, p, ins, outs)
  {
  }

  /** One in-edge of the block at p keeps the invariant. */
  lemma InStep(g: Graph, m0: map<nat, Block>, order: seq<nat>, blockOf: map<Node, nat>, st: Linking, p: nat, ins: nat)
    requires Proper(g, m0, order, blockOf) && Inv(g, m0, order, st, p, ins, 0)
    requires p < |order| && ins < |InAt(g, m0, order, p)|
    ensures var r := LinkIn(st, order, blockOf, order[p], (InAt(g, m0, order, p)[ins], UpperAt(m0, order, p)));
      r.Some? && Inv(g, m0, order, r.value, p, ins + 1, 0)
  {
    var qu := InEdgeFacts(g, m0, order, blockOf, p, ins);
    assert ContentsOK(g, m0, order, st.blocks, p, ins, 0, qu) && ContentsOK(g, m0, order, st.blocks, p, ins, 0, p);
    assert LinkOK(g, m0, order, st, p, ins, 0, qu, p);
    InStepShape(g, m0, order, blockOf, st, p, ins, qu);
    var e := (InAt(g, m0, order, p)[ins], UpperAt(m0, order, p));
    assert e == (LowerAt(m0, order, qu), UpperAt(m0, order, p));
    var r := LinkIn(st, order, blockOf, order[p], e).value;
    ProperEndsDistinct(g, m0, order, blockOf);
    InStepDone(g, m0, order, st, r, p, ins, qu);
  }

  /** The invariant after the in-edge from qu, from the shape of the step. */
  lemma InStepDone(g: Graph, m0: map<nat, Block>, order: seq<nat>, st: Linking, r: Linking, p: nat, ins: nat, qu: nat)
    requires Ready(m0, order) && Distinct(order) && EndsDistinct(m0, order) && Inv(g, m0, order, st, p, ins, 0)
    requires p < |order| && ins < |InAt(g, m0, order, p)|
    requires qu < |order| && qu != p && EdgeAt(g, m0, order, qu, p)
    requires !SeenIn(g, m0, order, p, ins, LowerAt(m0, order, qu))
    requires forall q | 0 <= q < |order| ::
      SeenIn(g, m0, order, p, ins + 1, LowerAt(m0, order, q)) <==> SeenIn(g, m0, order, p, ins, LowerAt(m0, order, q)) || q == qu
    requires InShape(g, m0, order, st, r, p, qu)
    ensures Inv(g, m0, order, r, p, ins + 1, 0)
  {
    assert Clock(g, m0, order, p, ins + 1, 0);
    InStepAllContents(g, m0, order, st, r, p, ins, ins + 1, qu);
    InStepLinks(g, m0, order, st, r, p, ins, ins + 1, qu);
    InvIntro(g, m0, order, r, p, ins + 1, 0);
  }

  // ---------------------------------------------------------------------
  // One out-edge

  /** The next out-edge of the block at p goes to the upper node of the
      block at qx, and it is the only sighting the step adds. */
  lemma OutEdgeFacts(g: Graph, m0: map<nat, Block>, order: seq<nat>, blockOf: map<Node, nat>, p: nat, outs: nat)
    returns (qx: nat)
    requires Proper(g, m0, order, blockOf) && p < |order| && outs < |OutAt(g, m0, order, p)|
    ensures qx < |order| && qx != p && UpperAt(m0, order, qx) == OutAt(g, m0, order, p)[outs] && EdgeAt(g, m0, order, p, qx)
    ensures OutAt(g, m0, order, p)[outs] in blockOf && blockOf[OutAt(g, m0, order, p)[outs]] == order[qx]
    ensures IndexOf(order, order[p]) == p && IndexOf(order, order[qx]) == qx
    ensures !SeenOut(g, m0, order, p, outs, UpperAt(m0, order, qx))
    ensures forall q | 0 <= q < |order| ::
      SeenOut(g, m0, order, p, outs + 1, UpperAt(m0, order, q)) <==> SeenOut(g, m0, order, p, outs, UpperAt(m0, order, q)) || q == qx
  {
    var ns := OutAt(g, m0, order, p);
    var x := ns[outs];
    OutAtUpper(g, m0, order, blockOf, p, x);
    qx := Pos(order, blockOf, x);
    IndexOfDistinct(order, p);
    IndexOfDistinct(order, qx);
    SuccessorsDistinct(g.edges, LowerAt(m0, order, p));
    assert ns[..outs + 1] == ns[..outs] + [x];
    forall q | 0 <= q < |order|
      ensures SeenOut(g, m0, order, p, outs + 1, UpperAt(m0, order, q)) <==> SeenOut(g, m0, order, p, outs, UpperAt(m0, order, q)) || q == qx
    {
      if q != qx {
        EndsApart(g, m0, order, blockOf, q, qx);
      }
    }
  }

  /** What LinkOut does with the out-edge from p to qx: it appends to the
      predecessor list of the block at qx and either parks the new entry's
      index (qx right of p) or links it with the parked index of the
      successor entry (qx left of p). */
  predicate OutShape(g: Graph, m0: map<nat, Block>, order: seq<nat>, st: Linking, r: Linking, p: nat, qx: nat)
    requires Ready(m0, order) && Kept(m0, st.blocks) && p < |order| && qx < |order|
  {
    var e := (LowerAt(m0, order, p), UpperAt(m0, order, qx));
    var j, si := |PredsAt(g, m0, order, qx, p)|, |SuccsAt(g, m0, order, p, qx)|;
    && Kept(m0, r.blocks) && Balanced(r.blocks) && Ready(r.blocks, order)
    && (qx > p ==> r.pending == st.pending[e := j])
    && (qx < p ==> r.pending == st.pending)
    && (forall k | k in st.blocks :: r.blocks[k].succs == st.blocks[k].succs)
    && (forall k | k in st.blocks :: r.blocks[k].preds == st.blocks[k].preds + if k == order[qx] then [LowerAt(m0, order, p)] else [])
    && (forall k | k in st.blocks && k != order[qx] :: r.blocks[k].predIdx == st.blocks[k].predIdx)
    && |st.blocks[order[qx]].predIdx| == j
    && r.blocks[order[qx]].predIdx == st.blocks[order[qx]].predIdx + [if qx < p then si else -1]
    && (forall k | k in st.blocks && (k != order[p] || qx > p) :: r.blocks[k].succIdx == st.blocks[k].succIdx)
    && (qx < p ==> si < |st.blocks[order[p]].succIdx| && r.blocks[order[p]].succIdx == st.blocks[order[p]].succIdx[si := j])
  }

  lemma OutStepShape(g: Graph, m0: map<nat, Block>, order: seq<nat>, blockOf: map<Node, nat>,
                     st: Linking, p: nat, qx: nat)
    requires Ready(m0, order) && p < |order| && qx < |order| && qx != p
    requires Kept(m0, st.blocks) && Balanced(st.blocks) && Ready(st.blocks, order)
    requires UpperAt(m0, order, qx) in blockOf && blockOf[UpperAt(m0, order, qx)] == order[qx]
    requires IndexOf(order, order[p]) == p && IndexOf(order, order[qx]) == qx
    requires |st.blocks[order[qx]].preds| == |PredsAt(g, m0, order, qx, p)|
    requires qx < p ==> |SuccsAt(g, m0, order, p, qx)| < |st.blocks[order[p]].succs|
    requires var e := (LowerAt(m0, order, p), UpperAt(m0, order, qx));
      qx < p ==> e in st.pending && st.pending[e] == |SuccsAt(g, m0, order, p, qx)|
    ensures var r := LinkOut(st, order, blockOf, order[p], (LowerAt(m0, order, p), UpperAt(m0, order, qx)));
      r.Some? && OutShape(g, m0, order, st, r.value, p, qx)
      && Kept(m0, r.value.blocks) && Balanced(r.value.blocks) && Ready(r.value.blocks, order)
  {
    var e := (LowerAt(m0, order, p), UpperAt(m0, order, qx));
    var bx, j := order[qx], |PredsAt(g, m0, order, qx, p)|;
    assert bx != order[p];
    var m1 := AppendPred(st.blocks, bx, e.0);
    KeptTrans(m0, st.blocks, m1);
    if qx < p {
      var si := |SuccsAt(g, m0, order, p, qx)|;
      JoinOutShape(g, m0, order, st, m1, p, qx);
      assert LinkOut(st, order, blockOf, order[p], e) == Some(Linking(JoinOut(m1, bx, order[p], j, si).value, st.pending));
    } else {
      ParkOutShape(g, m0, order, st, m1, p, qx);
      assert LinkOut(st, order, blockOf, order[p], e) == Some(Linking(m1, st.pending[e := j]));
    }
  }

  /** The parking half of OutStepShape, for an edge to a block right of p. */
  lemma ParkOutShape(g: Graph, m0: map<nat, Block>, order: seq<nat>, st: Linking, m1: map<nat, Block>, p: nat, qx: nat)
    requires Ready(m0, order) && Kept(m0, st.blocks) && Balanced(st.blocks) && Kept(m0, m1) && Ready(st.blocks, order)
    requires p < qx < |order|
    requires m1 == AppendPred(st.blocks, order[qx], LowerAt(m0, order, p))
    requires |st.blocks[order[qx]].preds| == |PredsAt(g, m0, order, qx, p)|
    ensures OutShape(g, m0, order, st, Linking(m1, st.pending[(LowerAt(m0, order, p), UpperAt(m0, order, qx)) := |PredsAt(g, m0, order, qx, p)|]), p, qx)
  {
  }

  /** The linking half of OutStepShape, for an edge to a block left of p. */
  lemma JoinOutShape(g: Graph, m0: map<nat, Block>, order: seq<nat>, st: Linking, m1: map<nat, Block>, p: nat, qx: nat)
    requires Ready(m0, order) && Kept(m0, st.blocks) && Balanced(st.blocks) && Kept(m0, m1)
    requires qx < p < |order| && order[qx] != order[p]
    requires m1 == AppendPred(st.blocks, order[qx], LowerAt(m0, order, p))
    requires |st.blocks[order[qx]].preds| == |PredsAt(g, m0, order, qx, p)|
    requires |SuccsAt(g, m0, order, p, qx)| < |st.blocks[order[p]].succs|
    ensures var r := JoinOut(m1, order[qx], order[p], |PredsAt(g, m0, order, qx, p)|, |SuccsAt(g, m0, order, p, qx)|);
      r.Some? && OutShape(g, m0, order, st, Linking(r.value, st.pending), p, qx)
  {
    AppendJoinOut(st.blocks, order[qx], order[p], LowerAt(m0, order, p), |PredsAt(g, m0, order, qx, p)|, |SuccsAt(g, m0, order, p, qx)|);
    var r := JoinOut(m1, order[qx], order[p], |PredsAt(g, m0, order, qx, p)|, |SuccsAt(g, m0, order, p, qx)|);
    KeptTrans(m0, st.blocks, r.value);
  }

  /** After the out-edge to qx, every edge's entries are still linked, or
      parked, as far as it has been met. */
  lemma OutStepPair(g: Graph, m0: map<nat, Block>, order: seq<nat>,
                    st: Linking, r: Linking, p: nat, ins: nat, outs: nat, qx: nat, qy': nat, qx': nat)
    requires Ready(m0, order) && Kept(m0, st.blocks)
    requires p < |order| && outs < |OutAt(g, m0, order, p)| && qy' < |order| && qx' < |order|
    requires qx < |order| && qx != p && EdgeAt(g, m0, order, p, qx)
    requires !SeenOut(g, m0, order, p, outs, UpperAt(m0, order, qx))
    requires SeenOut(g, m0, order, p, outs + 1, UpperAt(m0, order, qx')) <==> SeenOut(g, m0, order, p, outs, UpperAt(m0, order, qx')) || qx' == qx
    requires OutShape(g, m0, order, st, r, p, qx) && LinkOK(g, m0, order, st, p, ins, outs, qy', qx')
    requires qy' != p ==> LowerAt(m0, order, qy') != LowerAt(m0, order, p)
    requires qx' != qx ==> UpperAt(m0, order, qx') != UpperAt(m0, order, qx)
    ensures Kept(m0, r.blocks) && LinkOK(g, m0, order, r, p, ins, outs + 1, qy', qx')
  {
    if EdgeAt(g, m0, order, qy', qx') && (qy', qx') != (p, qx) {
      if UpSeen(g, m0, order, p, ins, qy', qx') && LowSeen(g, m0, order, p, outs, qy', qx') {
        OutStepSlots(g, m0, order, st, r, p, ins, outs, qx, qy', qx');
      }
      LinkOKTransfer(g, m0, order, st, r, p, ins, outs, p, ins, outs + 1, qy', qx');
    }
  }

  /** The out-edge to qx leaves the linked entries of every other edge
      where they were. */
  lemma OutStepSlots(g: Graph, m0: map<nat, Block>, order: seq<nat>,
                     st: Linking, r: Linking, p: nat, ins: nat, outs: nat, qx: nat, qy: nat, qx': nat)
    requires Ready(m0, order) && Kept(m0, st.blocks)
    requires p < |order| && qy < |order| && qx' < |order| && qx < |order|
    requires EdgeAt(g, m0, order, qy, qx') && EdgeAt(g, m0, order, p, qx) && (qy, qx') != (p, qx) && qx != p
    requires OutShape(g, m0, order, st, r, p, qx) && LinkOK(g, m0, order, st, p, ins, outs, qy, qx')
    requires UpSeen(g, m0, order, p, ins, qy, qx') && LowSeen(g, m0, order, p, outs, qy, qx')
    requires qy != p ==> LowerAt(m0, order, qy) != LowerAt(m0, order, p)
    ensures var si, pi := |SuccsAt(g, m0, order, qy, qx')|, |PredsAt(g, m0, order, qx', qy)|;
      && si < |st.blocks[order[qy]].succIdx| && pi < |st.blocks[order[qx']].predIdx|
      && si < |r.blocks[order[qy]].succIdx| && r.blocks[order[qy]].succIdx[si] == st.blocks[order[qy]].succIdx[si]
      && pi < |r.blocks[order[qx']].predIdx| && r.blocks[order[qx']].predIdx[pi] == st.blocks[order[qx']].predIdx[pi]
  {
    var si, pi := |SuccsAt(g, m0, order, qy, qx')|, |PredsAt(g, m0, order, qx', qy)|;
    var x, x' := st.blocks[order[qx']], r.blocks[order[qx']];
    assert x'.predIdx == x.predIdx + (if order[qx'] == order[qx] then [x'.predIdx[|x.predIdx|]] else []);
    assert x'.predIdx[pi] == x.predIdx[pi];
    var y, y' := st.blocks[order[qy]], r.blocks[order[qy]];
    if order[qy] == order[p] && qx < p {
      assert qy == p;
      SlotsApart(g, m0, order, p, qx', qx);
      assert si != |SuccsAt(g, m0, order, p, qx)|;
    } else {
      assert y'.succIdx == y.succIdx;
    }
  }

  /** The lists of the block at q after the out-edge to qx. */
  lemma OutStepContents(g: Graph, m0: map<nat, Block>, order: seq<nat>,
                        st: Linking, r: Linking, p: nat, ins: nat, outs: nat, qx: nat, q: nat)
    requires Ready(m0, order) && Kept(m0, st.blocks) && Distinct(order)
    requires p < |order| && outs < |OutAt(g, m0, order, p)| && q < |order| && qx < |order|
    requires SeenOut(g, m0, order, p, outs + 1, UpperAt(m0, order, q)) <==> SeenOut(g, m0, order, p, outs, UpperAt(m0, order, q)) || q == qx
    requires !SeenOut(g, m0, order, p, outs, UpperAt(m0, order, qx))
    requires OutShape(g, m0, order, st, r, p, qx) && ContentsOK(g, m0, order, st.blocks, p, ins, outs, q)
    ensures Kept(m0, r.blocks) && ContentsOK(g, m0, order, r.blocks, p, ins, outs + 1, q)
  {
    assert order[q] in st.blocks;
    assert order[q] == order[qx] <==> q == qx;
  }

  /** The links half of OutStep. */
  lemma OutStepLinks(g: Graph, m0: map<nat, Block>, order: seq<nat>, st: Linking, r: Linking, p: nat, ins: nat, outs: nat, outs1: nat, qx: nat)
    requires outs1 == outs + 1
    requires Ready(m0, order) && Kept(m0, st.blocks) && EndsDistinct(m0, order)
    requires p < |order| && outs < |OutAt(g, m0, order, p)|
    requires qx < |order| && qx != p && EdgeAt(g, m0, order, p, qx)
    requires !SeenOut(g, m0, order, p, outs, UpperAt(m0, order, qx))
    requires forall q | 0 <= q < |order| ::
      SeenOut(g, m0, order, p, outs + 1, UpperAt(m0, order, q)) <==> SeenOut(g, m0, order, p, outs, UpperAt(m0, order, q)) || q == qx
    requires OutShape(g, m0, order, st, r, p, qx)
    requires forall qy, qx' | 0 <= qy < |order| && 0 <= qx' < |order| :: LinkOK(g, m0, order, st, p, ins, outs, qy, qx')
    ensures Kept(m0, r.blocks)
    ensures forall qy, qx' | 0 <= qy < |order| && 0 <= qx' < |order| :: LinkOK(g, m0, order, r, p, ins, outs1, qy, qx')
  {
    forall qy, qx' | 0 <= qy < |order| && 0 <= qx' < |order| ensures LinkOK(g, m0, order, r, p, ins, outs1, qy, qx') {
      OutStepPoint(g, m0, order, st, r, p, ins, outs, qx, qy, qx');
    }
  }

  /** OutStepPair for one pair, from the facts OutStepLinks holds for all. */
  lemma OutStepPoint(g: Graph, m0: map<nat, Block>, order: seq<nat>, st: Linking, r: Linking, p: nat, ins: nat, outs: nat, qx: nat, qy: nat, qx': nat)
    requires Ready(m0, order) && Kept(m0, st.blocks) && EndsDistinct(m0, order)
    requires p < |order| && outs < |OutAt(g, m0, order, p)| && qy < |order| && qx' < |order|
    requires qx < |order| && qx != p && EdgeAt(g, m0, order, p, qx)
    requires !SeenOut(g, m0, order, p, outs, UpperAt(m0, order, qx))
    requires forall q | 0 <= q < |order| ::
      SeenOut(g, m0, order, p, outs + 1, UpperAt(m0, order, q)) <==> SeenOut(g, m0, order, p, outs, UpperAt(m0, order, q)) || q == qx
    requires OutShape(g, m0, order, st, r, p, qx)
    requires forall qy, qx' | 0 <= qy < |order| && 0 <= qx' < |order| :: LinkOK(g, m0, order, st, p, ins, outs, qy, qx')
    ensures Kept(m0, r.blocks) && LinkOK(g, m0, order, r, p, ins, outs + 1, qy, qx')
  {
    EndsPair(m0, order, qy, p);
    EndsPair(m0, order, qx', qx);
    assert LinkOK(g, m0, order, st, p, ins, outs, qy, qx');
    OutStepPair(g, m0, order, st, r, p, ins, outs, qx, qy, qx');
  }

  /** EndsDistinct for one pair of positions, in either order. */
  lemma EndsPair(m0: map<nat, Block>, order: seq<nat>, q: nat, q': nat)
    requires Ready(m0, order) && EndsDistinct(m0, order) && q < |order| && q' < |order|
    ensures q != q' ==> LowerAt(m0, order, q) != LowerAt(m0, order, q') && UpperAt(m0, order, q) != UpperAt(m0, order, q')
  {
  }

  /** The contents half of OutStep. */
  lemma OutStepAllContents(g: Graph, m0: map<nat, Block>, order: seq<nat>, st: Linking, r: Linking, p: nat, ins: nat, outs: nat, outs1: nat, qx: nat)
    requires outs1 == outs + 1
    requires Ready(m0, order) && Kept(m0, st.blocks) && Distinct(order)
    requires p < |order| && outs < |OutAt(g, m0, order, p)| && qx < |order|
    requires !SeenOut(g, m0, order, p, outs, UpperAt(m0, order, qx))
    requires forall q | 0 <= q < |order| ::
      SeenOut(g, m0, order, p, outs + 1, UpperAt(m0, order, q)) <==> SeenOut(g, m0, order, p, outs, UpperAt(m0, order, q)) || q == qx
    requires OutShape(g, m0, order, st, r, p, qx)
    requires forall q | 0 <= q < |order| :: ContentsOK(g, m0, order, st.blocks, p, ins, outs, q)
    ensures Kept(m0, r.blocks)
    ensures forall q | 0 <= q < |order| :: ContentsOK(g, m0, order, r.blocks, p, ins, outs1, q)
  {
    forall q | 0 <= q < |order| ensures ContentsOK(g, m0, order, r.blocks, p, ins, outs1, q) {
      OutStepContents(g, m0, order, st, r, p, ins, outs, qx, q);
    }
  }

  /** What the invariant says about the two blocks an out-edge joins. */
  lemma OutStepPre(g: Graph, m0: map<nat, Block>, order: seq<nat>, st: Linking, p: nat, ins: nat, outs: nat, qx: nat)
    requires Ready(m0, order) && Kept(m0, st.blocks) && p < |order| && qx < |order| && qx != p
    requires ins == |InAt(g, m0, order, p)| && outs <= |OutAt(g, m0, order, p)|
    requires EdgeAt(g, m0, order, p, qx) && !EdgeAt(g, m0, order, p, p)
    requires !SeenOut(g, m0, order, p, outs, UpperAt(m0, order, qx))
    requires ContentsOK(g, m0, order, st.blocks, p, ins, outs, qx) && ContentsOK(g, m0, order, st.blocks, p, ins, outs, p)
    requires LinkOK(g, m0, order, st, p, ins, outs, p, qx)
    ensures |st.blocks[order[qx]].preds| == |PredsAt(g, m0, order, qx, p)|
    ensures qx < p ==> |SuccsAt(g, m0, order, p, qx)| < |st.blocks[order[p]].succs|
    ensures var e := (LowerAt(m0, order, p), UpperAt(m0, order, qx));
      qx < p ==> e in st.pending && st.pending[e] == |SuccsAt(g, m0, order, p, qx)|
  {
    if qx < p {
      SuccsAtIndex(g, m0, order, p, qx, p);
    }
  }

  /** One out-edge of the block at p keeps the invariant. */
  lemma OutStep(g: Graph, m0: map<nat, Block>, order: seq<nat>, blockOf: map<Node, nat>, st: Linking, p: nat, outs: nat)
    requires Proper(g, m0, order, blockOf) && p < |order| && Inv(g, m0, order, st, p, |InAt(g, m0, order, p)|, outs)
    requires outs < |OutAt(g, m0, order, p)|
    ensures var r := LinkOut(st, order, blockOf, order[p], (LowerAt(m0, order, p), OutAt(g, m0, order, p)[outs]));
      r.Some? && Inv(g, m0, order, r.value, p, |InAt(g, m0, order, p)|, outs + 1)
  {
    var ins := |InAt(g, m0, order, p)|;
    var qx := OutEdgeFacts(g, m0, order, blockOf, p, outs);
    assert ContentsOK(g, m0, order, st.blocks, p, ins, outs, qx) && ContentsOK(g, m0, order, st.blocks, p, ins, outs, p);
    assert LinkOK(g, m0, order, st, p, ins, outs, p, qx);
    if EdgeAt(g, m0, order, p, p) {
      EdgeAtApart(g, m0, order, blockOf, p, p);
    }
    OutStepPre(g, m0, order, st, p, ins, outs, qx);
    OutStepShape(g, m0, order, blockOf, st, p, qx);
    var e := (LowerAt(m0, order, p), OutAt(g, m0, order, p)[outs]);
    assert e == (LowerAt(m0, order, p), UpperAt(m0, order, qx));
    var r := LinkOut(st, order, blockOf, order[p], e).value;
    assert Clock(g, m0, order, p, ins, outs + 1);
    ProperEndsDistinct(g, m0, order, blockOf);
    OutStepAllContents(g, m0, order, st, r, p, ins, outs, outs + 1, qx);
    OutStepLinks(g, m0, order, st, r, p, ins, outs, outs + 1, qx);
    InvIntro(g, m0, order, r, p, ins, outs + 1);
  }

  // ---------------------------------------------------------------------
  // The whole walk

  /** The remaining in-edges of the block at p keep the invariant. */
  lemma {:induction false} InsFromInv(g: Graph, m0: map<nat, Block>, order: seq<nat>, blockOf: map<Node, nat>,
                                      st: Linking, p: nat, ins: nat)
    requires Proper(g, m0, order, blockOf) && p < |order| && ins <= |InAt(g, m0, order, p)|
    requires Inv(g, m0, order, st, p, ins, 0)
    requires forall u | u in InAt(g, m0, order, p) :: u in blockOf && blockOf[u] in order
    ensures var r := LinkInsFrom(st, order, blockOf, order[p], UpperAt(m0, order, p), InAt(g, m0, order, p), ins);
      r.Some? && Inv(g, m0, order, r.value, p, |InAt(g, m0, order, p)|, 0)
    decreases |InAt(g, m0, order, p)| - ins, 1
  {
    if ins < |InAt(g, m0, order, p)| {
      InsFromInvNext(g, m0, order, blockOf, st, p, ins);
    } else {
      assert LinkInsFrom(st, order, blockOf, order[p], UpperAt(m0, order, p), InAt(g, m0, order, p), ins) == Some(st);
    }
  }

  /** The next in-edge, then the rest. */
  lemma {:induction false} InsFromInvNext(g: Graph, m0: map<nat, Block>, order: seq<nat>, blockOf: map<Node, nat>,
                                          st: Linking, p: nat, ins: nat)
    requires Proper(g, m0, order, blockOf) && p < |order| && ins < |InAt(g, m0, order, p)|
    requires Inv(g, m0, order, st, p, ins, 0)
    requires forall u | u in InAt(g, m0, order, p) :: u in blockOf && blockOf[u] in order
    ensures var r := LinkInsFrom(st, order, blockOf, order[p], UpperAt(m0, order, p), InAt(g, m0, order, p), ins);
      r.Some? && Inv(g, m0, order, r.value, p, |InAt(g, m0, order, p)|, 0)
    decreases |InAt(g, m0, order, p)| - ins, 0
  {
    var us, x := InAt(g, m0, order, p), UpperAt(m0, order, p);
    InStep(g, m0, order, blockOf, st, p, ins);
    var r1 := LinkIn(st, order, blockOf, order[p], (us[ins], x));
    assert r1.Some?;
    LinkInsStep(st, order, blockOf, order[p], x, us, ins);
    InsFromInv(g, m0, order, blockOf, r1.value, p, ins + 1);
  }

  /** The remaining out-edges of the block at p keep the invariant. */
  lemma {:induction false} OutsFromInv(g: Graph, m0: map<nat, Block>, order: seq<nat>, blockOf: map<Node, nat>,
                                       st: Linking, p: nat, outs: nat)
    requires Proper(g, m0, order, blockOf) && p < |order| && outs <= |OutAt(g, m0, order, p)|
    requires Inv(g, m0, order, st, p, |InAt(g, m0, order, p)|, outs)
    requires forall x | x in OutAt(g, m0, order, p) :: x in blockOf && blockOf[x] in order
    ensures var r := LinkOutsFrom(st, order, blockOf, order[p], LowerAt(m0, order, p), OutAt(g, m0, order, p), outs);
      r.Some? && Inv(g, m0, order, r.value, p, |InAt(g, m0, order, p)|, |OutAt(g, m0, order, p)|)
    decreases |OutAt(g, m0, order, p)| - outs, 1
  {
    if outs < |OutAt(g, m0, order, p)| {
      OutsFromInvNext(g, m0, order, blockOf, st, p, outs);
    } else {
      assert LinkOutsFrom(st, order, blockOf, order[p], LowerAt(m0, order, p), OutAt(g, m0, order, p), outs) == Some(st);
    }
  }

  /** The next out-edge, then the rest. */
  lemma {:induction false} OutsFromInvNext(g: Graph, m0: map<nat, Block>, order: seq<nat>, blockOf: map<Node, nat>,
                                           st: Linking, p: nat, outs: nat)
    requires Proper(g, m0, order, blockOf) && p < |order| && outs < |OutAt(g, m0, order, p)|
    requires Inv(g, m0, order, st, p, |InAt(g, m0, order, p)|, outs)
    requires forall x | x in OutAt(g, m0, order, p) :: x in blockOf && blockOf[x] in order
    ensures var r := LinkOutsFrom(st, order, blockOf, order[p], LowerAt(m0, order, p), OutAt(g, m0, order, p), outs);
      r.Some? && Inv(g, m0, order, r.value, p, |InAt(g, m0, order, p)|, |OutAt(g, m0, order, p)|)
    decreases |OutAt(g, m0, order, p)| - outs, 0
  {
    var xs, w := OutAt(g, m0, order, p), LowerAt(m0, order, p);
    OutStep(g, m0, order, blockOf, st, p, outs);
    var r1 := LinkOut(st, order, blockOf, order[p], (w, xs[outs]));
    assert r1.Some?;
    LinkOutsStep(st, order, blockOf, order[p], w, xs, outs);
    OutsFromInv(g, m0, order, blockOf, r1.value, p, outs + 1);
  }

  /** Once every edge of the block at p is handled, the clock moves on to
      p + 1 without changing the state: one edge's link at a time. */
  lemma ClockNextPair(g: Graph, m0: map<nat, Block>, order: seq<nat>, st: Linking, p: nat, qy: nat, qx: nat)
    requires Ready(m0, order) && Kept(m0, st.blocks) && p < |order| && qy < |order| && qx < |order|
    requires LinkOK(g, m0, order, st, p, |InAt(g, m0, order, p)|, |OutAt(g, m0, order, p)|, qy, qx)
    ensures LinkOK(g, m0, order, st, p + 1, 0, 0, qy, qx)
  {
    if EdgeAt(g, m0, order, qy, qx) {
      InAtIff(g, m0, order, qy, qx);
      assert InAt(g, m0, order, p)[..|InAt(g, m0, order, p)|] == InAt(g, m0, order, p);
      assert OutAt(g, m0, order, p)[..|OutAt(g, m0, order, p)|] == OutAt(g, m0, order, p);
      LinkOKTransfer(g, m0, order, st, st, p, |InAt(g, m0, order, p)|, |OutAt(g, m0, order, p)|, p + 1, 0, 0, qy, qx);
    }
  }

  /** The same for the lists of the block at q. */
  lemma ClockNextContents(g: Graph, m0: map<nat, Block>, order: seq<nat>, m: map<nat, Block>, p: nat, q: nat)
    requires Ready(m0, order) && Kept(m0, m) && p < |order| && q < |order|
    requires ContentsOK(g, m0, order, m, p, |InAt(g, m0, order, p)|, |OutAt(g, m0, order, p)|, q)
    ensures ContentsOK(g, m0, order, m, p + 1, 0, 0, q)
  {
    InAtIff(g, m0, order, q, p);
    InAtIff(g, m0, order, p, q);
    assert InAt(g, m0, order, p)[..|InAt(g, m0, order, p)|] == InAt(g, m0, order, p);
    assert OutAt(g, m0, order, p)[..|OutAt(g, m0, order, p)|] == OutAt(g, m0, order, p);
  }

  lemma ClockNext(g: Graph, m0: map<nat, Block>, order: seq<nat>, st: Linking, p: nat)
    requires Ready(m0, order) && p < |order| && Inv(g, m0, order, st, p, |InAt(g, m0, order, p)|, |OutAt(g, m0, order, p)|)
    ensures Inv(g, m0, order, st, p + 1, 0, 0)
  {
    var p1 := p + 1;
    forall q | 0 <= q < |order| ensures ContentsOK(g, m0, order, st.blocks, p1, 0, 0, q) {
      ClockNextContents(g, m0, order, st.blocks, p, q);
    }
    forall qy, qx | 0 <= qy < |order| && 0 <= qx < |order| ensures LinkOK(g, m0, order, st, p1, 0, 0, qy, qx) {
      ClockNextPair(g, m0, order, st, p, qy, qx);
    }
    InvIntro(g, m0, order, st, p1, 0, 0);
  }

  /** The block at p keeps the invariant and moves the clock on. */
  lemma BlockStep(g: Graph, m0: map<nat, Block>, order: seq<nat>, blockOf: map<Node, nat>, st: Linking, p: nat)
    requires Proper(g, m0, order, blockOf) && p < |order| && Inv(g, m0, order, st, p, 0, 0)
    ensures var r := LinkBlock(st, g, order, blockOf, p);
      r.Some? && Inv(g, m0, order, r.value, p + 1, 0, 0)
  {
    var blk := st.blocks[order[p]];
    assert order[p] in order;
    assert blk.Upper() == UpperAt(m0, order, p) && blk.Lower() == LowerAt(m0, order, p);
    PredecessorsPlaced(g, blockOf, order, UpperAt(m0, order, p));
    PredecessorsPlaced(g, blockOf, order, LowerAt(m0, order, p));
    InsFromInv(g, m0, order, blockOf, st, p, 0);
    var r1 := LinkInsFrom(st, order, blockOf, order[p], UpperAt(m0, order, p), InAt(g, m0, order, p), 0).value;
    OutsFromInv(g, m0, order, blockOf, r1, p, 0);
    var r2 := LinkOutsFrom(r1, order, blockOf, order[p], LowerAt(m0, order, p), OutAt(g, m0, order, p), 0).value;
    ClockNext(g, m0, order, r2, p);
  }

  /** The blocks from p on keep the invariant to the end of the walk. */
  lemma {:induction false} FromInv(g: Graph, m0: map<nat, Block>, order: seq<nat>, blockOf: map<Node, nat>, st: Linking, p: nat)
    requires Proper(g, m0, order, blockOf) && p <= |order| && Inv(g, m0, order, st, p, 0, 0)
    ensures var r := LinkFrom(st, g, order, blockOf, p);
      r.Some? && Inv(g, m0, order, r.value, |order|, 0, 0)
    decreases |order| - p, 1
  {
    if p < |order| {
      FromInvNext(g, m0, order, blockOf, st, p);
    } else {
      assert LinkFrom(st, g, order, blockOf, p) == Some(st);
    }
  }

  /** The block at p, then the rest. */
  lemma {:induction false} FromInvNext(g: Graph, m0: map<nat, Block>, order: seq<nat>, blockOf: map<Node, nat>, st: Linking, p: nat)
    requires Proper(g, m0, order, blockOf) && p < |order| && Inv(g, m0, order, st, p, 0, 0)
    ensures var r := LinkFrom(st, g, order, blockOf, p);
      r.Some? && Inv(g, m0, order, r.value, |order|, 0, 0)
    decreases |order| - p, 0
  {
    BlockStep(g, m0, order, blockOf, st, p);
    var r1 := LinkBlock(st, g, order, blockOf, p);
    assert r1.Some?;
    FromInv(g, m0, order, blockOf, r1.value, p + 1);
    LinkFromStep(st, g, order, blockOf, p);
  }

  // ---------------------------------------------------------------------
  // The finished lists

  /** The walk from the cleared blocks reaches the end of the order. */
  lemma WalkDone(g: Graph, m0: map<nat, Block>, order: seq<nat>, blockOf: map<Node, nat>)
    requires Proper(g, m0, order, blockOf)
    ensures var r := LinkFrom(Linking(Cleared(m0), map[]), g, order, blockOf, 0);
      r.Some? && Inv(g, m0, order, r.value, |order|, 0, 0)
  {
    InvInit(g, m0, order);
    FromInv(g, m0, order, blockOf, Linking(Cleared(m0), map[]), 0);
  }

  /** Once every block is visited, the lists of the block at q are exactly
      its reference lists. */
  lemma DoneContents(g: Graph, m0: map<nat, Block>, order: seq<nat>, m: map<nat, Block>, q: nat)
    requires Ready(m0, order) && Kept(m0, m) && q < |order|
    requires ContentsOK(g, m0, order, m, |order|, 0, 0, q)
    ensures m[order[q]].succs == SuccsAt(g, m0, order, q, |order|)
    ensures m[order[q]].preds == PredsAt(g, m0, order, q, |order|)
  {
  }

  /** Once every block is visited, every edge between blocks has been met
      from both ends. */
  lemma DoneLink(g: Graph, m0: map<nat, Block>, order: seq<nat>, st: Linking, qy: nat, qx: nat)
    requires Ready(m0, order) && Kept(m0, st.blocks) && qy < |order| && qx < |order|
    requires LinkOK(g, m0, order, st, |order|, 0, 0, qy, qx) && EdgeAt(g, m0, order, qy, qx)
    ensures var si, pi := |SuccsAt(g, m0, order, qy, qx)|, |PredsAt(g, m0, order, qx, qy)|;
      var y, x := st.blocks[order[qy]], st.blocks[order[qx]];
      si < |y.succIdx| && y.succIdx[si] == pi && pi < |x.predIdx| && x.predIdx[pi] == si
  {
  }

  /** Entry k of the successor list `n_p` of block x names a block y, the
      index `i_p[k]` points at x's lower node in y's predecessor list, and
      y's index there points back at k. */
  predicate SuccLinked(m: map<nat, Block>, blockOf: map<Node, nat>, x: Block, k: nat)
    requires x.nodes != [] && k < |x.succs|
  {
    var v := x.succs[k];
    && k < |x.succIdx| && v in blockOf && blockOf[v] in m
    && var y, j := m[blockOf[v]], x.succIdx[k];
       0 <= j < |y.preds| && j < |y.predIdx| && y.preds[j] == x.Lower() && y.predIdx[j] == k
  }

  /** The mirror image for entry k of the predecessor list `n_n`. */
  predicate PredLinked(m: map<nat, Block>, blockOf: map<Node, nat>, x: Block, k: nat)
    requires x.nodes != [] && k < |x.preds|
  {
    var u := x.preds[k];
    && k < |x.predIdx| && u in blockOf && blockOf[u] in m
    && var y, j := m[blockOf[u]], x.predIdx[k];
       0 <= j < |y.succs| && j < |y.succIdx| && y.succs[j] == x.Upper() && y.succIdx[j] == k
  }

  /** Every neighbour entry of every placed block and its index point at
      each other. */
  predicate Reciprocal(m: map<nat, Block>, order: seq<nat>, blockOf: map<Node, nat>) {
    && Ready(m, order)
    && (forall id, k | id in order && 0 <= k < |m[id].succs| :: SuccLinked(m, blockOf, m[id], k))
    && (forall id, k | id in order && 0 <= k < |m[id].preds| :: PredLinked(m, blockOf, m[id], k))
  }

  /** Every neighbour list of every placed block names placed blocks in
      strictly increasing position. */
  predicate InBlockOrder(m: map<nat, Block>, order: seq<nat>, blockOf: map<Node, nat>) {
    forall id | id in order && id in m ::
      && Placed(m[id].succs, blockOf, order) && Placed(m[id].preds, blockOf, order)
      && StrictlyIncreasing(Positions(m[id].succs, order, blockOf))
      && StrictlyIncreasing(Positions(m[id].preds, order, blockOf))
  }

  /** The successor list of every placed block holds the successors of its
      lower node and the predecessor list the predecessors of its upper
      node, each exactly once. */
  predicate ListsMatch(g: Graph, m: map<nat, Block>, order: seq<nat>) {
    && Ready(m, order)
    && forall id | id in order ::
         && multiset(m[id].succs) == multiset(Successors(g, m[id].Lower()))
         && multiset(m[id].preds) == multiset(Predecessors(g, m[id].Upper()))
  }

  /** Entry k of the successor list at qz is the upper node of a block
      further right than entry k' < k. */
  lemma SuccsAtOrdered(g: Graph, m: map<nat, Block>, order: seq<nat>, blockOf: map<Node, nat>, qz: nat, k': nat, k: nat)
    requires Proper(g, m, order, blockOf) && qz < |order| && k' < k < |SuccsAt(g, m, order, qz, |order|)|
    ensures var ns := SuccsAt(g, m, order, qz, |order|);
      ns[k'] in blockOf && ns[k] in blockOf && blockOf[ns[k']] in order && blockOf[ns[k]] in order
      && Pos(order, blockOf, ns[k']) < Pos(order, blockOf, ns[k])
  {
    var n := |order|;
    var q', q := SuccSource(g, m, order, qz, n, k'), SuccSource(g, m, order, qz, n, k);
    EndsAt(g, m, order, blockOf, q');
    EndsAt(g, m, order, blockOf, q);
    if q <= q' {
      AtGrows(g, m, order, qz, q, q');
    }
  }

  /** The mirror image for predecessor lists. */
  lemma PredsAtOrdered(g: Graph, m: map<nat, Block>, order: seq<nat>, blockOf: map<Node, nat>, qz: nat, k': nat, k: nat)
    requires Proper(g, m, order, blockOf) && qz < |order| && k' < k < |PredsAt(g, m, order, qz, |order|)|
    ensures var ns := PredsAt(g, m, order, qz, |order|);
      ns[k'] in blockOf && ns[k] in blockOf && blockOf[ns[k']] in order && blockOf[ns[k]] in order
      && Pos(order, blockOf, ns[k']) < Pos(order, blockOf, ns[k])
  {
    var n := |order|;
    var q', q := PredSource(g, m, order, qz, n, k'), PredSource(g, m, order, qz, n, k);
    EndsAt(g, m, order, blockOf, q');
    EndsAt(g, m, order, blockOf, q);
    if q <= q' {
      AtGrows(g, m, order, qz, q, q');
    }
  }

  /** The reference successor list at qz names each successor of the lower
      node at qz exactly once, in strictly increasing position. */
  lemma SuccsAtMatch(g: Graph, m: map<nat, Block>, order: seq<nat>, blockOf: map<Node, nat>, qz: nat)
    requires Proper(g, m, order, blockOf) && qz < |order|
    ensures var ns := SuccsAt(g, m, order, qz, |order|);
      && Placed(ns, blockOf, order) && StrictlyIncreasing(Positions(ns, order, blockOf))
      && multiset(ns) == multiset(OutAt(g, m, order, qz))
  {
    var n := |order|;
    var ns := SuccsAt(g, m, order, qz, n);
    forall k | 0 <= k < |ns| ensures ns[k] in blockOf && blockOf[ns[k]] in order && Pos(order, blockOf, ns[k]) < n {
      var q := SuccSource(g, m, order, qz, n, k);
      EndsAt(g, m, order, blockOf, q);
    }
    var ps := Positions(ns, order, blockOf);
    forall k', k | 0 <= k' < k < |ps| ensures ps[k'] < ps[k] {
      SuccsAtOrdered(g, m, order, blockOf, qz, k', k);
    }
    forall v ensures v in ns <==> v in OutAt(g, m, order, qz) {
      if v in ns {
        var k :| 0 <= k < |ns| && ns[k] == v;
        var q := SuccSource(g, m, order, qz, n, k);
        InAtIff(g, m, order, qz, q);
      }
      if v in OutAt(g, m, order, qz) {
        OutAtUpper(g, m, order, blockOf, qz, v);
        SuccsAtIndex(g, m, order, qz, Pos(order, blockOf, v), n);
      }
    }
    SuccessorsDistinct(g.edges, LowerAt(m, order, qz));
    DistinctSameElements(ns, OutAt(g, m, order, qz));
  }

  /** The mirror image for the reference predecessor list. */
  lemma PredsAtMatch(g: Graph, m: map<nat, Block>, order: seq<nat>, blockOf: map<Node, nat>, qz: nat)
    requires Proper(g, m, order, blockOf) && qz < |order|
    ensures var ns := PredsAt(g, m, order, qz, |order|);
      && Placed(ns, blockOf, order) && StrictlyIncreasing(Positions(ns, order, blockOf))
      && multiset(ns) == multiset(InAt(g, m, order, qz))
  {
    var n := |order|;
    var ns := PredsAt(g, m, order, qz, n);
    forall k | 0 <= k < |ns| ensures ns[k] in blockOf && blockOf[ns[k]] in order && Pos(order, blockOf, ns[k]) < n {
      var q := PredSource(g, m, order, qz, n, k);
      EndsAt(g, m, order, blockOf, q);
    }
    var ps := Positions(ns, order, blockOf);
    forall k', k | 0 <= k' < k < |ps| ensures ps[k'] < ps[k] {
      PredsAtOrdered(g, m, order, blockOf, qz, k', k);
    }
    forall u ensures u in ns <==> u in InAt(g, m, order, qz) {
      if u in ns {
        var k :| 0 <= k < |ns| && ns[k] == u;
        var q := PredSource(g, m, order, qz, n, k);
        InAtIff(g, m, order, q, qz);
      }
      if u in InAt(g, m, order, qz) {
        InAtLower(g, m, order, blockOf, qz, u);
        PredsAtIndex(g, m, order, qz, Pos(order, blockOf, u), n);
      }
    }
    PredecessorsDistinct(g.edges, UpperAt(m, order, qz));
    DistinctSameElements(ns, InAt(g, m, order, qz));
  }

  /** At the end of the walk, each successor entry and its index point at
      the reciprocal predecessor entry. */
  lemma DoneSuccLinked(g: Graph, m0: map<nat, Block>, order: seq<nat>, blockOf: map<Node, nat>, st: Linking, q: nat, k: nat)
    requires Proper(g, m0, order, blockOf) && Inv(g, m0, order, st, |order|, 0, 0)
    requires q < |order| && k < |st.blocks[order[q]].succs|
    ensures SuccLinked(st.blocks, blockOf, st.blocks[order[q]], k)
  {
    var n := |order|;
    assert ContentsOK(g, m0, order, st.blocks, n, 0, 0, q);
    DoneContents(g, m0, order, st.blocks, q);
    var qx := SuccSource(g, m0, order, q, n, k);
    assert ContentsOK(g, m0, order, st.blocks, n, 0, 0, qx);
    DoneContents(g, m0, order, st.blocks, qx);
    assert LinkOK(g, m0, order, st, n, 0, 0, q, qx);
    DoneLink(g, m0, order, st, q, qx);
    EndsAt(g, m0, order, blockOf, qx);
    PredsAtIndex(g, m0, order, qx, q, n);
    assert order[q] in order && order[qx] in order;
  }

  /** The mirror image for predecessor entries. */
  lemma DonePredLinked(g: Graph, m0: map<nat, Block>, order: seq<nat>, blockOf: map<Node, nat>, st: Linking, q: nat, k: nat)
    requires Proper(g, m0, order, blockOf) && Inv(g, m0, order, st, |order|, 0, 0)
    requires q < |order| && k < |st.blocks[order[q]].preds|
    ensures PredLinked(st.blocks, blockOf, st.blocks[order[q]], k)
  {
    var n := |order|;
    assert ContentsOK(g, m0, order, st.blocks, n, 0, 0, q);
    DoneContents(g, m0, order, st.blocks, q);
    var qy := PredSource(g, m0, order, q, n, k);
    assert ContentsOK(g, m0, order, st.blocks, n, 0, 0, qy);
    DoneContents(g, m0, order, st.blocks, qy);
    assert LinkOK(g, m0, order, st, n, 0, 0, qy, q);
    DoneLink(g, m0, order, st, qy, q);
    EndsAt(g, m0, order, blockOf, qy);
    SuccsAtIndex(g, m0, order, qy, q, n);
    assert order[q] in order && order[qy] in order;
  }

  /** At the end of the walk, the lists of the block at q hold its
      neighbours in graph terms, in strictly increasing position. */
  lemma DoneBlockMatch(g: Graph, m0: map<nat, Block>, order: seq<nat>, blockOf: map<Node, nat>, st: Linking, q: nat)
    requires Proper(g, m0, order, blockOf) && Inv(g, m0, order, st, |order|, 0, 0) && q < |order|
    ensures var b := st.blocks[order[q]];
      && Placed(b.succs, blockOf, order) && Placed(b.preds, blockOf, order)
      && StrictlyIncreasing(Positions(b.succs, order, blockOf))
      && StrictlyIncreasing(Positions(b.preds, order, blockOf))
      && multiset(b.succs) == multiset(Successors(g, b.Lower()))
      && multiset(b.preds) == multiset(Predecessors(g, b.Upper()))
  {
    assert ContentsOK(g, m0, order, st.blocks, |order|, 0, 0, q);
    DoneContents(g, m0, order, st.blocks, q);
    SuccsAtMatch(g, m0, order, blockOf, q);
    PredsAtMatch(g, m0, order, blockOf, q);
    assert order[q] in order;
  }

  /** `sort_adjacencies` on the layout the layering leaves: it never raises,
      every list holds the block's neighbours in graph terms, each once and
      in strictly increasing block position, and every entry's index points
      at the reciprocal entry. */
  lemma AdjacenciesLinked(m0: map<nat, Block>, g: Graph, order: seq<nat>, blockOf: map<Node, nat>)
    requires Proper(g, m0, order, blockOf)
    ensures var r := Adjacencies(m0, g, order, blockOf);
      && r.Some?
      && Reciprocal(r.value, order, blockOf)
      && InBlockOrder(r.value, order, blockOf)
      && ListsMatch(g, r.value, order)
  {
    WalkDone(g, m0, order, blockOf);
    var st := LinkFrom(Linking(Cleared(m0), map[]), g, order, blockOf, 0).value;
    assert Adjacencies(m0, g, order, blockOf) == Some(st.blocks);
    forall id, k | id in order && 0 <= k < |st.blocks[id].succs| ensures SuccLinked(st.blocks, blockOf, st.blocks[id], k) {
      DoneSuccLinked(g, m0, order, blockOf, st, IndexOf(order, id), k);
    }
    forall id, k | id in order && 0 <= k < |st.blocks[id].preds| ensures PredLinked(st.blocks, blockOf, st.blocks[id], k) {
      DonePredLinked(g, m0, order, blockOf, st, IndexOf(order, id), k);
    }
    forall id | id in order
      ensures && multiset(st.blocks[id].succs) == multiset(Successors(g, st.blocks[id].Lower()))
              && multiset(st.blocks[id].preds) == multiset(Predecessors(g, st.blocks[id].Upper()))
              && Placed(st.blocks[id].succs, blockOf, order) && Placed(st.blocks[id].preds, blockOf, order)
              && StrictlyIncreasing(Positions(st.blocks[id].succs, order, blockOf))
              && StrictlyIncreasing(Positions(st.blocks[id].preds, order, blockOf))
    {
      DoneBlockMatch(g, m0, order, blockOf, st, IndexOf(order, id));
    }
  }
}