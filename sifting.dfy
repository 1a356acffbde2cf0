/**
 * Global sifting (algos/global_shift.py): the crossing-reduction pass that
 * takes each block in turn to the far left, sweeps it to the right one
 * neighbour at a time while summing the crossing change of every swap, and
 * leaves it where the running sum was lowest.
 *
 * The neighbour lists the sweep reads are kept sorted by block position as
 * the block moves: when A passes B and both have an edge into the same
 * neighbour block z, `update_adjacencies` exchanges the two entries of z's
 * list (and their reciprocal indices) so that z's list follows the new
 * positions.
 */
module Sifting {
  import opened Graphs
  import opened Blocks
  import opened Crossings
  import opened NeighbourLists

  /** The side a level pair refers to: `'-'` (the blocks' upper neighbours,
      `n_n`) or `'+'` (the lower neighbours, `n_p`). */
  datatype Direction = Up | Down

  /** Python's `xs[k]` on a list of length n: a negative index counts from
      the end, an index outside -n .. n-1 raises IndexError (None). */
  function PyIndex(n: nat, k: int): (r: Option<nat>)
    ensures r.Some? <==> -(n as int) <= k < n
    ensures r.Some? ==> r.value < n && (r.value == k || r.value == k + n)
  {
    if 0 <= k < n then Some(k) else if -(n as int) <= k < 0 then Some(k + n) else None
  }

  /** The two entries at p and q trade places (`temp = s[p]; s[p] = s[q];
      s[q] = temp`). */
  function Exchange<T>(s: seq<T>, p: nat, q: nat): (r: seq<T>)
    requires p < |s| && q < |s|
    ensures |r| == |s| && r[p] == s[q] && r[q] == s[p]
    ensures forall k | 0 <= k < |s| && k != p && k != q :: r[k] == s[k]
  {
    if p == q then
      assert s[p := s[q]][q := s[p]] == s;
      s
    else
      s[p := s[q]][q := s[p]]
  }

  /** Exchanging two entries keeps the entries of the list. */
  lemma ExchangePermutes<T>(s: seq<T>, p: nat, q: nat)
    requires p < |s| && q < |s|
    ensures multiset(Exchange(s, p, q)) == multiset(s)
  {
    if p != q {
      SwapMultiset(s, p, q);
    }
  }

  lemma ExchangeTwice<T>(s: seq<T>, p: nat, q: nat)
    requires p < |s| && q < |s|
    ensures Exchange(Exchange(s, p, q), q, p) == s
  {
    var r := Exchange(Exchange(s, p, q), q, p);
    assert forall k | 0 <= k < |s| :: r[k] == s[k];
  }

  // ---------------------------------------------------------------------
  // swap_adjecenties

  /** The four lists `swap_adjecenties` works on: a neighbour block's name
      list and index list, and the index lists of A and of B that point into
      them. */
  datatype Adjacency = Adjacency(names: seq<Node>, idx: seq<int>, aIdx: seq<int>, bIdx: seq<int>)

  /** Every list access of `swap_adjecenties` is in range. */
  predicate SwapDefined(l: Adjacency, i: nat, j: nat) {
    && i < |l.aIdx| && j < |l.bIdx|
    && PyIndex(|l.names|, l.aIdx[i]).Some? && PyIndex(|l.names|, l.bIdx[j]).Some?
    && PyIndex(|l.idx|, l.aIdx[i]).Some? && PyIndex(|l.idx|, l.bIdx[j]).Some?
  }

  /** `swap_adjecenties(n, ix, ai, bi, i, j)`: with ka = ai[i] and kb = bi[j],
      the entries ka and kb of `n` and of `ix` trade places, then ai[i]
      becomes kb and bi[j] becomes ka.  An index out of range is an
      IndexError (None). */
  function SwapAdjacencies(l: Adjacency, i: nat, j: nat): (r: Option<Adjacency>)
    ensures r.Some? <==> SwapDefined(l, i, j)
    ensures r.Some? ==>
      && |r.value.names| == |l.names| && |r.value.idx| == |l.idx|
      && r.value.aIdx == l.aIdx[i := l.bIdx[j]] && r.value.bIdx == l.bIdx[j := l.aIdx[i]]
  {
    if !SwapDefined(l, i, j) then None
    else
      var ka, kb := l.aIdx[i], l.bIdx[j];
      var pn, qn := PyIndex(|l.names|, ka).value, PyIndex(|l.names|, kb).value;
      var pi, qi := PyIndex(|l.idx|, ka).value, PyIndex(|l.idx|, kb).value;
      Some(Adjacency(Exchange(l.names, pn, qn), Exchange(l.idx, pi, qi), l.aIdx[i := kb], l.bIdx[j := ka]))
  }

  /** The exchanged entries: the name and index at A's old pointer now sit at
      B's old pointer and the other way round; nothing else moves. */
  lemma SwapAdjacenciesExchanges(l: Adjacency, i: nat, j: nat)
    requires SwapDefined(l, i, j)
    ensures var r := SwapAdjacencies(l, i, j).value;
      var pn, qn := PyIndex(|l.names|, l.aIdx[i]).value, PyIndex(|l.names|, l.bIdx[j]).value;
      && r.names[pn] == l.names[qn] && r.names[qn] == l.names[pn]
      && (forall k | 0 <= k < |l.names| && k != pn && k != qn :: r.names[k] == l.names[k])
  {
  }

  /** The swap only reorders the neighbour block's name and index lists. */
  lemma SwapAdjacenciesPermutes(l: Adjacency, i: nat, j: nat)
    ensures var r := SwapAdjacencies(l, i, j);
      r.Some? ==> multiset(r.value.names) == multiset(l.names) && multiset(r.value.idx) == multiset(l.idx)
  {
    if SwapDefined(l, i, j) {
      var pn, qn := PyIndex(|l.names|, l.aIdx[i]).value, PyIndex(|l.names|, l.bIdx[j]).value;
      var pi, qi := PyIndex(|l.idx|, l.aIdx[i]).value, PyIndex(|l.idx|, l.bIdx[j]).value;
      ExchangePermutes(l.names, pn, qn);
      ExchangePermutes(l.idx, pi, qi);
    }
  }

  /** Calling `swap_adjecenties` twice with the same arguments restores all
      four lists. */
  lemma SwapAdjacenciesTwice(l: Adjacency, i: nat, j: nat)
    requires SwapDefined(l, i, j)
    ensures SwapAdjacencies(l, i, j).Some?
    ensures SwapAdjacencies(SwapAdjacencies(l, i, j).value, i, j) == Some(l)
  {
    var r := SwapAdjacencies(l, i, j).value;
    var ka, kb := l.aIdx[i], l.bIdx[j];
    assert r.aIdx[i] == kb && r.bIdx[j] == ka;
    assert SwapDefined(r, i, j);
    var pn, qn := PyIndex(|l.names|, ka).value, PyIndex(|l.names|, kb).value;
    var pi, qi := PyIndex(|l.idx|, ka).value, PyIndex(|l.idx|, kb).value;
    ExchangeTwice(l.names, pn, qn);
    ExchangeTwice(l.idx, pi, qi);
    assert r.aIdx[i := ka] == l.aIdx;
    assert r.bIdx[j := kb] == l.bIdx;
  }

  /** The swap only moves names around: names that all have a block in
      `order` still do afterwards. */
  lemma SwapAdjacenciesPlaced(l: Adjacency, i: nat, j: nat, blockOf: map<Node, nat>, order: seq<nat>)
    requires Placed(l.names, blockOf, order)
    ensures var r := SwapAdjacencies(l, i, j);
      r.Some? ==> Placed(r.value.names, blockOf, order)
  {
    if SwapDefined(l, i, j) {
      SwapAdjacenciesExchanges(l, i, j);
    }
  }

  // ---------------------------------------------------------------------
  // update_adjacencies

  /** The id, nodes and levels of a block are kept, and no list of it
      changes length. */
  predicate SameShape(x: Block, y: Block) {
    && x.id == y.id && x.nodes == y.nodes && x.levels == y.levels
    && |x.succs| == |y.succs| && |x.preds| == |y.preds|
    && |x.succIdx| == |y.succIdx| && |x.predIdx| == |y.predIdx|
  }

  predicate Reshuffled(m: map<nat, Block>, m2: map<nat, Block>) {
    m2.Keys == m.Keys && forall k | k in m :: SameShape(m[k], m2[k])
  }

  lemma ReshuffledTrans(m0: map<nat, Block>, m1: map<nat, Block>, m2: map<nat, Block>)
    requires Reshuffled(m0, m1) && Reshuffled(m1, m2)
    ensures Reshuffled(m0, m2)
  {
  }

  /** Only blocks in `touched` change, and a pass over the upper neighbours
      (Up) leaves every `n_n` list alone, one over the lower neighbours (Down)
      every `n_p` list. */
  predicate Touches(m: map<nat, Block>, m2: map<nat, Block>, dir: Direction, touched: set<nat>) {
    forall k | k in m && k in m2 ::
      && (k !in touched ==> m2[k] == m[k])
      && (dir == Up ==> m2[k].preds == m[k].preds)
      && (dir == Down ==> m2[k].succs == m[k].succs)
  }

  /** The ids of the blocks of the names in `ns`. */
  function BlocksOf(ns: seq<Node>, blockOf: map<Node, nat>): set<nat> {
    set n | n in ns && n in blockOf :: blockOf[n]
  }

  lemma TouchesTrans(m0: map<nat, Block>, m1: map<nat, Block>, m2: map<nat, Block>, dir: Direction, t1: set<nat>, t2: set<nat>)
    requires m1.Keys == m0.Keys && m2.Keys == m0.Keys
    requires Touches(m0, m1, dir, t1) && Touches(m1, m2, dir, t2)
    ensures Touches(m0, m2, dir, t1 + t2)
  {
  }

  /** Two passes, the first within the blocks the second may touch. */
  lemma TouchesWithin(m0: map<nat, Block>, m1: map<nat, Block>, m2: map<nat, Block>, dir: Direction, t1: set<nat>, t: set<nat>)
    requires m1.Keys == m0.Keys && m2.Keys == m0.Keys && t1 <= t
    requires Touches(m0, m1, dir, t1) && Touches(m1, m2, dir, t)
    ensures Touches(m0, m2, dir, t)
  {
  }

  /** Two names at the same block position name the same block, one that
      both lists name. */
  lemma SharedBlock(order: seq<nat>, blockOf: map<Node, nat>, x: seq<Node>, y: seq<Node>, i: nat, j: nat)
    requires i < |x| && j < |y| && Placed(x, blockOf, order) && Placed(y, blockOf, order)
    requires Pos(order, blockOf, x[i]) == Pos(order, blockOf, y[j])
    ensures blockOf[x[i]] == blockOf[y[j]]
    ensures blockOf[x[i]] in BlocksOf(x, blockOf) * BlocksOf(y, blockOf)
  {
    assert x[i] in x && y[j] in y;
  }

  /** Replacing one block by one of the same shape. */
  lemma ReplaceBlock(m: map<nat, Block>, k: nat, v: Block, dir: Direction)
    requires k in m && SameShape(m[k], v)
    requires dir == Up ==> v.preds == m[k].preds
    requires dir == Down ==> v.succs == m[k].succs
    ensures Reshuffled(m, m[k := v]) && Touches(m, m[k := v], dir, {k})
  {
  }

  /** The neighbour block's name and index lists after the swap: `n_p`, `i_p`
      for Up, `n_n`, `i_n` for Down. */
  function WithNames(blk: Block, dir: Direction, names: seq<Node>, idx: seq<int>): (r: Block)
    requires dir == Up ==> |names| == |blk.succs| && |idx| == |blk.succIdx|
    requires dir == Down ==> |names| == |blk.preds| && |idx| == |blk.predIdx|
    ensures SameShape(blk, r)
    ensures dir == Up ==> r.preds == blk.preds
    ensures dir == Down ==> r.succs == blk.succs
  {
    if dir == Up then blk.(succs := names, succIdx := idx) else blk.(preds := names, predIdx := idx)
  }

  /** A's or B's pointer list after the swap: `i_n` for Up, `i_p` for Down. */
  function WithPointers(blk: Block, dir: Direction, ptrs: seq<int>): (r: Block)
    requires dir == Up ==> |ptrs| == |blk.predIdx|
    requires dir == Down ==> |ptrs| == |blk.succIdx|
    ensures SameShape(blk, r) && r.preds == blk.preds && r.succs == blk.succs
  {
    if dir == Up then blk.(predIdx := ptrs) else blk.(succIdx := ptrs)
  }

  /** The four lists the tie branch hands to `swap_adjecenties`. */
  function TieLists(m: map<nat, Block>, a: nat, b: nat, z: nat, dir: Direction): (l: Adjacency)
    requires a in m && b in m && z in m
    ensures dir == Up ==> l.names == m[z].succs && |l.idx| == |m[z].succIdx|
    ensures dir == Down ==> l.names == m[z].preds && |l.idx| == |m[z].predIdx|
    ensures dir == Up ==> |l.aIdx| == |m[a].predIdx| && |l.bIdx| == |m[b].predIdx|
    ensures dir == Down ==> |l.aIdx| == |m[a].succIdx| && |l.bIdx| == |m[b].succIdx|
  {
    if dir == Up then Adjacency(m[z].succs, m[z].succIdx, m[a].predIdx, m[b].predIdx)
    else Adjacency(m[z].preds, m[z].predIdx, m[a].succIdx, m[b].succIdx)
  }

  /** The tie branch of `update_adjacencies`: z is the block of the shared
      neighbour.  Up: z's `n_p` and `i_p` with A's and B's `i_n`; Down: z's
      `n_n` and `i_n` with A's and B's `i_p`.  The writes go in the order of
      the source, so that z may be A or B. */
  function TieSwap(m: map<nat, Block>, a: nat, b: nat, z: nat, dir: Direction, i: nat, j: nat): (r: Option<map<nat, Block>>)
    requires a in m && b in m && z in m && a != b
    ensures r.Some? ==> r.value.Keys == m.Keys
  {
    var l := TieLists(m, a, b, z, dir);
    match SwapAdjacencies(l, i, j)
    case None => None
    case Some(s) =>
      var nz := WithNames(m[z], dir, s.names, s.idx);
      var m1 := m[z := nz];
      var na := WithPointers(m1[a], dir, s.aIdx);
      var m2 := m1[a := na];
      var nb := WithPointers(m2[b], dir, s.bIdx);
      Some(m2[b := nb])
  }

  /** The tie branch keeps every block's shape. */
  lemma TieSwapShape(m: map<nat, Block>, a: nat, b: nat, z: nat, dir: Direction, i: nat, j: nat)
    requires a in m && b in m && z in m && a != b
    ensures var r := TieSwap(m, a, b, z, dir, i, j);
      r.Some? ==> Reshuffled(m, r.value)
  {
    match SwapAdjacencies(TieLists(m, a, b, z, dir), i, j)
    case None =>
    case Some(s) =>
      var nz := WithNames(m[z], dir, s.names, s.idx);
      var m1 := m[z := nz];
      ReplaceBlock(m, z, nz, dir);
      var na := WithPointers(m1[a], dir, s.aIdx);
      var m2 := m1[a := na];
      ReplaceBlock(m1, a, na, dir);
      var nb := WithPointers(m2[b], dir, s.bIdx);
      ReplaceBlock(m2, b, nb, dir);
      ReshuffledTrans(m, m1, m2);
      ReshuffledTrans(m, m2, m2[b := nb]);
  }

  /** The tie branch writes only to z, A and B, and only on its side. */
  lemma TieSwapTouches(m: map<nat, Block>, a: nat, b: nat, z: nat, dir: Direction, i: nat, j: nat)
    requires a in m && b in m && z in m && a != b
    ensures var r := TieSwap(m, a, b, z, dir, i, j);
      r.Some? ==> Touches(m, r.value, dir, {z, a, b})
  {
    match SwapAdjacencies(TieLists(m, a, b, z, dir), i, j)
    case None =>
    case Some(s) =>
      var nz := WithNames(m[z], dir, s.names, s.idx);
      var m1 := m[z := nz];
      ReplaceBlock(m, z, nz, dir);
      var na := WithPointers(m1[a], dir, s.aIdx);
      var m2 := m1[a := na];
      ReplaceBlock(m1, a, na, dir);
      var nb := WithPointers(m2[b], dir, s.bIdx);
      ReplaceBlock(m2, b, nb, dir);
      TouchesTrans(m, m1, m2, dir, {z}, {a});
      TouchesTrans(m, m2, m2[b := nb], dir, {z, a}, {b});
  }

  /** The tie branch only moves z's neighbour names around, so they stay
      placed. */
  lemma TieSwapPlaced(m: map<nat, Block>, order: seq<nat>, blockOf: map<Node, nat>, a: nat, b: nat, z: nat, dir: Direction, i: nat, j: nat)
    requires a in m && b in m && z in m && a != b
    requires NeighboursPlaced(m, blockOf, order)
    ensures var r := TieSwap(m, a, b, z, dir, i, j);
      r.Some? ==> NeighboursPlaced(r.value, blockOf, order)
  {
    var l := TieLists(m, a, b, z, dir);
    match SwapAdjacencies(l, i, j)
    case None =>
    case Some(s) =>
      assert Placed(l.names, blockOf, order);
      SwapAdjacenciesPlaced(l, i, j, blockOf, order);
      var nz := WithNames(m[z], dir, s.names, s.idx);
      var m1 := m[z := nz];
      assert NeighboursPlaced(m1, blockOf, order);
      var na := WithPointers(m1[a], dir, s.aIdx);
      var m2 := m1[a := na];
      assert NeighboursPlaced(m2, blockOf, order);
      var nb := WithPointers(m2[b], dir, s.bIdx);
      assert NeighboursPlaced(m2[b := nb], blockOf, order);
  }

  /** The loop of `update_adjacencies` from pointers i, j: the two pointers
      walk A's list `x` and B's list `y` by block position, and where both
      point at the same block the tie branch swaps.  None is an IndexError. */
  function UpdateFrom(m: map<nat, Block>, order: seq<nat>, blockOf: map<Node, nat>, a: nat, b: nat,
                      x: seq<Node>, y: seq<Node>, dir: Direction, i: nat, j: nat): (r: Option<map<nat, Block>>)
    requires i <= |x| && j <= |y| && a in m && b in m && a != b
    requires Placed(x, blockOf, order) && Placed(y, blockOf, order)
    requires forall k | k in order :: k in m
    ensures r.Some? ==> r.value.Keys == m.Keys
    decreases |x| - i + |y| - j, 1
  {
    if i == |x| || j == |y| then Some(m)
    else UpdateRound(m, order, blockOf, a, b, x, y, dir, i, j)
  }

  /** One round of that loop: the pointer at the block further left
      advances; at a shared block the tie branch swaps and both advance. */
  function UpdateRound(m: map<nat, Block>, order: seq<nat>, blockOf: map<Node, nat>, a: nat, b: nat,
                       x: seq<Node>, y: seq<Node>, dir: Direction, i: nat, j: nat): (r: Option<map<nat, Block>>)
    requires i < |x| && j < |y| && a in m && b in m && a != b
    requires Placed(x, blockOf, order) && Placed(y, blockOf, order)
    requires forall k | k in order :: k in m
    ensures r.Some? ==> r.value.Keys == m.Keys
    decreases |x| - i + |y| - j, 0
  {
    var pa, pb := Pos(order, blockOf, x[i]), Pos(order, blockOf, y[j]);
    if pa < pb then UpdateFrom(m, order, blockOf, a, b, x, y, dir, i + 1, j)
    else if pa > pb then UpdateFrom(m, order, blockOf, a, b, x, y, dir, i, j + 1)
    else
      match TieSwap(m, a, b, blockOf[x[i]], dir, i, j)
      case None => None
      case Some(m1) => UpdateFrom(m1, order, blockOf, a, b, x, y, dir, i + 1, j + 1)
  }

  /** `update_adjacencies` keeps every block's shape. */
  lemma {:induction false} UpdateFromShape(m: map<nat, Block>, order: seq<nat>, blockOf: map<Node, nat>, a: nat, b: nat,
                                          x: seq<Node>, y: seq<Node>, dir: Direction, i: nat, j: nat)
    requires i <= |x| && j <= |y| && a in m && b in m && a != b
    requires Placed(x, blockOf, order) && Placed(y, blockOf, order)
    requires forall k | k in order :: k in m
    ensures var r := UpdateFrom(m, order, blockOf, a, b, x, y, dir, i, j);
      r.Some? ==> Reshuffled(m, r.value)
    decreases |x| - i + |y| - j, 1
  {
    if i < |x| && j < |y| {
      var pa, pb := Pos(order, blockOf, x[i]), Pos(order, blockOf, y[j]);
      if pa < pb {
        UpdateFromShape(m, order, blockOf, a, b, x, y, dir, i + 1, j);
      } else if pa > pb {
        UpdateFromShape(m, order, blockOf, a, b, x, y, dir, i, j + 1);
      } else {
        TieShape(m, order, blockOf, a, b, x, y, dir, i, j);
      }
    }
  }

  /** The tie round of `update_adjacencies` and the rounds after it keep
      every block's shape. */
  lemma {:induction false} TieShape(m: map<nat, Block>, order: seq<nat>, blockOf: map<Node, nat>, a: nat, b: nat,
                                   x: seq<Node>, y: seq<Node>, dir: Direction, i: nat, j: nat)
    requires i < |x| && j < |y| && a in m && b in m && a != b
    requires Placed(x, blockOf, order) && Placed(y, blockOf, order)
    requires forall k | k in order :: k in m
    requires Pos(order, blockOf, x[i]) == Pos(order, blockOf, y[j])
    ensures var r := UpdateRound(m, order, blockOf, a, b, x, y, dir, i, j);
      r.Some? ==> Reshuffled(m, r.value)
    decreases |x| - i + |y| - j, 0
  {
    var z := blockOf[x[i]];
    TieSwapShape(m, a, b, z, dir, i, j);
    var s := TieSwap(m, a, b, z, dir, i, j);
    if s.Some? {
      UpdateFromShape(s.value, order, blockOf, a, b, x, y, dir, i + 1, j + 1);
      var r := UpdateFrom(s.value, order, blockOf, a, b, x, y, dir, i + 1, j + 1);
      if r.Some? {
        ReshuffledTrans(m, s.value, r.value);
      }
    }
  }

  /** `update_adjacencies` writes only to A, B and the blocks both lists
      name, and only on its side: an Up pass leaves every `n_n` alone, a
      Down pass every `n_p`. */
  lemma {:induction false} UpdateFromTouches(m: map<nat, Block>, order: seq<nat>, blockOf: map<Node, nat>, a: nat, b: nat,
                                            x: seq<Node>, y: seq<Node>, dir: Direction, i: nat, j: nat)
    requires i <= |x| && j <= |y| && a in m && b in m && a != b
    requires Placed(x, blockOf, order) && Placed(y, blockOf, order)
    requires forall k | k in order :: k in m
    ensures var r := UpdateFrom(m, order, blockOf, a, b, x, y, dir, i, j);
      r.Some? ==> Touches(m, r.value, dir, BlocksOf(x, blockOf) * BlocksOf(y, blockOf) + {a, b})
    decreases |x| - i + |y| - j, 1
  {
    if i < |x| && j < |y| {
      var pa, pb := Pos(order, blockOf, x[i]), Pos(order, blockOf, y[j]);
      if pa < pb {
        UpdateFromTouches(m, order, blockOf, a, b, x, y, dir, i + 1, j);
      } else if pa > pb {
        UpdateFromTouches(m, order, blockOf, a, b, x, y, dir, i, j + 1);
      } else {
        TieTouches(m, order, blockOf, a, b, x, y, dir, i, j);
      }
    }
  }

  /** The tie round of `update_adjacencies` and the rounds after it write
      only to A, B and the blocks both lists name. */
  lemma {:induction false} TieTouches(m: map<nat, Block>, order: seq<nat>, blockOf: map<Node, nat>, a: nat, b: nat,
                                     x: seq<Node>, y: seq<Node>, dir: Direction, i: nat, j: nat)
    requires i < |x| && j < |y| && a in m && b in m && a != b
    requires Placed(x, blockOf, order) && Placed(y, blockOf, order)
    requires forall k | k in order :: k in m
    requires Pos(order, blockOf, x[i]) == Pos(order, blockOf, y[j])
    ensures var r := UpdateRound(m, order, blockOf, a, b, x, y, dir, i, j);
      r.Some? ==> Touches(m, r.value, dir, BlocksOf(x, blockOf) * BlocksOf(y, blockOf) + {a, b})
    decreases |x| - i + |y| - j, 0
  {
    var t := BlocksOf(x, blockOf) * BlocksOf(y, blockOf) + {a, b};
    var z := blockOf[x[i]];
    SharedBlock(order, blockOf, x, y, i, j);
    TieSwapTouches(m, a, b, z, dir, i, j);
    var s := TieSwap(m, a, b, z, dir, i, j);
    if s.Some? {
      UpdateFromTouches(s.value, order, blockOf, a, b, x, y, dir, i + 1, j + 1);
      var r := UpdateFrom(s.value, order, blockOf, a, b, x, y, dir, i + 1, j + 1);
      assert UpdateRound(m, order, blockOf, a, b, x, y, dir, i, j) == r;
      if r.Some? {
        TouchesWithin(m, s.value, r.value, dir, {z, a, b}, t);
      }
    } else {
      assert UpdateRound(m, order, blockOf, a, b, x, y, dir, i, j).None?;
    }
  }

  /** `update_adjacencies` only moves neighbour names around, so they stay
      placed. */
  lemma {:induction false} UpdateFromPlaced(m: map<nat, Block>, order: seq<nat>, blockOf: map<Node, nat>, a: nat, b: nat,
                                           x: seq<Node>, y: seq<Node>, dir: Direction, i: nat, j: nat)
    requires i <= |x| && j <= |y| && a in m && b in m && a != b
    requires Placed(x, blockOf, order) && Placed(y, blockOf, order)
    requires forall k | k in order :: k in m
    requires NeighboursPlaced(m, blockOf, order)
    ensures var r := UpdateFrom(m, order, blockOf, a, b, x, y, dir, i, j);
      r.Some? ==> NeighboursPlaced(r.value, blockOf, order)
    decreases |x| - i + |y| - j, 1
  {
    if i < |x| && j < |y| {
      var pa, pb := Pos(order, blockOf, x[i]), Pos(order, blockOf, y[j]);
      if pa < pb {
        UpdateFromPlaced(m, order, blockOf, a, b, x, y, dir, i + 1, j);
      } else if pa > pb {
        UpdateFromPlaced(m, order, blockOf, a, b, x, y, dir, i, j + 1);
      } else {
        TiePlaced(m, order, blockOf, a, b, x, y, dir, i, j);
      }
    }
  }

  /** The tie round of `update_adjacencies` and the rounds after it keep the
      neighbour names placed. */
  lemma {:induction false} TiePlaced(m: map<nat, Block>, order: seq<nat>, blockOf: map<Node, nat>, a: nat, b: nat,
                                    x: seq<Node>, y: seq<Node>, dir: Direction, i: nat, j: nat)
    requires i < |x| && j < |y| && a in m && b in m && a != b
    requires Placed(x, blockOf, order) && Placed(y, blockOf, order)
    requires forall k | k in order :: k in m
    requires NeighboursPlaced(m, blockOf, order)
    requires Pos(order, blockOf, x[i]) == Pos(order, blockOf, y[j])
    ensures var r := UpdateRound(m, order, blockOf, a, b, x, y, dir, i, j);
      r.Some? ==> NeighboursPlaced(r.value, blockOf, order)
    decreases |x| - i + |y| - j, 0
  {
    var z := blockOf[x[i]];
    TieSwapPlaced(m, order, blockOf, a, b, z, dir, i, j);
    var s := TieSwap(m, a, b, z, dir, i, j);
    if s.Some? {
      UpdateFromPlaced(s.value, order, blockOf, a, b, x, y, dir, i + 1, j + 1);
    }
  }

  /** One round of the loop of `update_adjacencies`. */
  lemma UpdateFromStep(m: map<nat, Block>, order: seq<nat>, blockOf: map<Node, nat>, a: nat, b: nat,
                       x: seq<Node>, y: seq<Node>, dir: Direction, i: nat, j: nat)
    requires i < |x| && j < |y| && a in m && b in m && a != b
    requires Placed(x, blockOf, order) && Placed(y, blockOf, order)
    requires forall k | k in order :: k in m
    ensures var pa, pb := Pos(order, blockOf, x[i]), Pos(order, blockOf, y[j]);
      UpdateFrom(m, order, blockOf, a, b, x, y, dir, i, j) ==
        if pa < pb then UpdateFrom(m, order, blockOf, a, b, x, y, dir, i + 1, j)
        else if pa > pb then UpdateFrom(m, order, blockOf, a, b, x, y, dir, i, j + 1)
        else match TieSwap(m, a, b, blockOf[x[i]], dir, i, j)
          case None => None
          case Some(m1) => UpdateFrom(m1, order, blockOf, a, b, x, y, dir, i + 1, j + 1)
  {
  }

  /** `update_adjacencies(A, B, x, y, B_, G, direction)` on the blocks of
      `B_`: i walks A's list `x`, j walks B's list `y`; the pointer at the
      block further left advances, and at a shared block both advance after
      the tie swap.  None is an IndexError of the swap; the order is only
      read. */
  method UpdateAdjacencies(m0: map<nat, Block>, order: seq<nat>, blockOf: map<Node, nat>, a: nat, b: nat,
                    x: seq<Node>, y: seq<Node>, dir: Direction) returns (r: Option<map<nat, Block>>)
    requires a in m0 && b in m0 && a != b && forall k | k in order :: k in m0
    requires Placed(x, blockOf, order) && Placed(y, blockOf, order)
    ensures r == UpdateFrom(m0, order, blockOf, a, b, x, y, dir, 0, 0)
  {
    var m := m0;
    var i, j := 0, 0;
    while i < |x| && j < |y|
      invariant i <= |x| && j <= |y|
      invariant m.Keys == m0.Keys
      invariant UpdateFrom(m, order, blockOf, a, b, x, y, dir, i, j) == UpdateFrom(m0, order, blockOf, a, b, x, y, dir, 0, 0)
      decreases |x| - i + |y| - j
    {
      var pa, pb := Pos(order, blockOf, x[i]), Pos(order, blockOf, y[j]);
      UpdateFromStep(m, order, blockOf, a, b, x, y, dir, i, j);
      if pa < pb {
        i := i + 1;
      } else if pa > pb {
        j := j + 1;
      } else {
        var t := TieSwap(m, a, b, blockOf[x[i]], dir, i, j);
        if t.None? {
          return None;
        }
        m := t.value;
        i, j := i + 1, j + 1;
      }
    }
    r := Some(m);
  }

  // ---------------------------------------------------------------------
  // sifting_swap

  /** Names placed in one order are placed in any order holding its ids. */
  lemma PlacedReorder(m: map<nat, Block>, blockOf: map<Node, nat>, order: seq<nat>, order2: seq<nat>)
    requires NeighboursPlaced(m, blockOf, order)
    requires forall k :: k in order ==> k in order2
    ensures NeighboursPlaced(m, blockOf, order2)
  {
    forall k | k in m ensures Placed(m[k].preds, blockOf, order2) && Placed(m[k].succs, blockOf, order2) {
      assert Placed(m[k].preds, blockOf, order) && Placed(m[k].succs, blockOf, order);
    }
  }

  /** `l.add(p)` on the level pairs, a set kept in the order of insertion. */
  function AddPair(ps: seq<(int, Direction)>, p: (int, Direction)): (r: seq<(int, Direction)>)
    ensures forall q :: q in r <==> q in ps || q == p
    ensures Distinct(ps) ==> Distinct(r)
  {
    if p in ps then ps else ps + [p]
  }

  /** The level pairs of `sifting_swap`: the level of A's upper node with '-'
      when B has a node on that level, the level of A's lower node with '+'
      likewise, and the same for B's upper and lower node against A. */
  function LevelPairs(ba: Block, bb: Block, level: map<Node, int>): (ps: seq<(int, Direction)>)
    requires ba.nodes != [] && bb.nodes != []
    requires ba.Upper() in level && ba.Lower() in level && bb.Upper() in level && bb.Lower() in level
    ensures Distinct(ps) && |ps| <= 4
    ensures forall p :: p in ps <==>
      || (p == (level[ba.Upper()], Up) && level[ba.Upper()] in bb.levels)
      || (p == (level[ba.Lower()], Down) && level[ba.Lower()] in bb.levels)
      || (p == (level[bb.Upper()], Up) && level[bb.Upper()] in ba.levels)
      || (p == (level[bb.Lower()], Down) && level[bb.Lower()] in ba.levels)
  {
    var ua, la, ub, lb := level[ba.Upper()], level[ba.Lower()], level[bb.Upper()], level[bb.Lower()];
    var ps1 := if ua in bb.levels then [(ua, Up)] else [];
    var ps2 := if la in bb.levels then AddPair(ps1, (la, Down)) else ps1;
    var ps3 := if ub in ba.levels then AddPair(ps2, (ub, Up)) else ps2;
    var ps4 := if lb in ba.levels then AddPair(ps3, (lb, Down)) else ps3;
    assert |ps4| <= 4 by {
      assert |ps1| <= 1 && |ps2| <= |ps1| + 1 && |ps3| <= |ps2| + 1 && |ps4| <= |ps3| + 1;
    }
    ps4
  }

  /** A's neighbour list on the side a level pair compares: `n_n` for '-',
      `n_p` for '+'. */
  function SideA(m: map<nat, Block>, a: nat, dir: Direction): seq<Node>
    requires a in m
  {
    if dir == Up then m[a].preds else m[a].succs
  }

  /** What a pair of `sifting_swap` needs of the blocks: A, B and every id
      of the order have a block, and every neighbour name is placed. */
  predicate SwapReady(m: map<nat, Block>, order: seq<nat>, blockOf: map<Node, nat>, a: nat, b: nat) {
    && a in m && b in m && (forall id | id in order :: id in m)
    && NeighboursPlaced(m, blockOf, order)
  }

  /** `uswap` of the lists of A and B on one side (with the tie branch
      corrected). */
  function PairDelta(m: map<nat, Block>, order: seq<nat>, blockOf: map<Node, nat>, a: nat, b: nat, dir: Direction): int
    requires a in m && b in m && NeighboursPlaced(m, blockOf, order)
  {
    MergeFrom(Positions(SideA(m, a, dir), order, blockOf), Positions(SideA(m, b, dir), order, blockOf), 0, 0)
  }

  /** When A's and B's lists on the side are both strictly sorted by block
      position, `PairDelta` is the change in crossings between them, pair by
      pair. */
  lemma PairDeltaIsPairs(m: map<nat, Block>, order: seq<nat>, blockOf: map<Node, nat>, a: nat, b: nat, dir: Direction)
    requires a in m && b in m && NeighboursPlaced(m, blockOf, order)
    requires StrictlyIncreasing(Positions(SideA(m, a, dir), order, blockOf))
    requires StrictlyIncreasing(Positions(SideA(m, b, dir), order, blockOf))
    ensures PairDelta(m, order, blockOf, a, b, dir)
         == Pairs(Positions(SideA(m, a, dir), order, blockOf), Positions(SideA(m, b, dir), order, blockOf))
  {
    var pa, pb := Positions(SideA(m, a, dir), order, blockOf), Positions(SideA(m, b, dir), order, blockOf);
    MergeCountsPairs(pa, pb, 0, 0);
    assert pa[0..] == pa && pb[0..] == pb;
  }

  /** `update_adjacencies` on the lists of A and B on one side. */
  function PairUpdate(m: map<nat, Block>, order: seq<nat>, blockOf: map<Node, nat>, a: nat, b: nat, dir: Direction): (r: Option<map<nat, Block>>)
    requires a != b && SwapReady(m, order, blockOf, a, b)
    ensures r.Some? ==> r.value.Keys == m.Keys && SwapReady(r.value, order, blockOf, a, b)
  {
    var r := UpdateFrom(m, order, blockOf, a, b, SideA(m, a, dir), SideA(m, b, dir), dir, 0, 0);
    if r.Some? then
      UpdateFromPlaced(m, order, blockOf, a, b, SideA(m, a, dir), SideA(m, b, dir), dir, 0, 0);
      r
    else r
  }

  /** `update_adjacencies` on one side keeps every block's shape. */
  lemma PairUpdateShape(m: map<nat, Block>, order: seq<nat>, blockOf: map<Node, nat>, a: nat, b: nat, dir: Direction)
    requires a != b && SwapReady(m, order, blockOf, a, b)
    ensures var r := PairUpdate(m, order, blockOf, a, b, dir);
      r.Some? ==> Reshuffled(m, r.value)
  {
    UpdateFromShape(m, order, blockOf, a, b, SideA(m, a, dir), SideA(m, b, dir), dir, 0, 0);
  }

  /** The outcome of the loop of `sifting_swap`: the summed crossing change
      and the blocks afterwards. */
  datatype Swept = Swept(delta: int, blocks: map<nat, Block>)

  /** The loop of `sifting_swap` over the level pairs from the k-th on, with
      `acc` the crossing change summed so far: for each pair the change of
      that side's lists is added and `update_adjacencies` re-sorts the
      neighbours' lists.  The result is the total and the blocks afterwards;
      None is an IndexError. */
  function SwapSumFrom(m: map<nat, Block>, order: seq<nat>, blockOf: map<Node, nat>, a: nat, b: nat,
                       ps: seq<(int, Direction)>, k: nat, acc: int): (r: Option<Swept>)
    requires k <= |ps| && a != b && SwapReady(m, order, blockOf, a, b)
    ensures r.Some? ==> r.value.blocks.Keys == m.Keys && NeighboursPlaced(r.value.blocks, blockOf, order)
    decreases |ps| - k, 2
  {
    if k == |ps| then Some(Swept(acc, m))
    else SwapSumRound(m, order, blockOf, a, b, ps, k, acc)
  }

  /** One round of that loop, on the k-th pair, and the rounds after it: the
      pair's level is compared on the pair's side. */
  function SwapSumRound(m: map<nat, Block>, order: seq<nat>, blockOf: map<Node, nat>, a: nat, b: nat,
                        ps: seq<(int, Direction)>, k: nat, acc: int): (r: Option<Swept>)
    requires k < |ps| && a != b && SwapReady(m, order, blockOf, a, b)
    ensures r.Some? ==> r.value.blocks.Keys == m.Keys && NeighboursPlaced(r.value.blocks, blockOf, order)
    decreases |ps| - k, 1
  {
    SwapSumPair(m, order, blockOf, a, b, ps, k, acc, ps[k].1)
  }

  /** The k-th round on side `dir`: `uswap` and `update_adjacencies` of A's
      and B's lists on that side, then the rounds after it. */
  function SwapSumPair(m: map<nat, Block>, order: seq<nat>, blockOf: map<Node, nat>, a: nat, b: nat,
                       ps: seq<(int, Direction)>, k: nat, acc: int, dir: Direction): (r: Option<Swept>)
    requires k < |ps| && a != b && SwapReady(m, order, blockOf, a, b)
    ensures r.Some? ==> r.value.blocks.Keys == m.Keys && NeighboursPlaced(r.value.blocks, blockOf, order)
    decreases |ps| - k, 0
  {
    var u := PairUpdate(m, order, blockOf, a, b, dir);
    if u.None? then None
    else SwapSumFrom(u.value, order, blockOf, a, b, ps, k + 1, acc + PairDelta(m, order, blockOf, a, b, dir))
  }

  /** The loop of `sifting_swap` keeps every block's shape: its id, nodes,
      levels and the lengths of its lists. */
  lemma {:induction false} SwapSumShape(m: map<nat, Block>, order: seq<nat>, blockOf: map<Node, nat>, a: nat, b: nat,
                                         ps: seq<(int, Direction)>, k: nat, acc: int)
    requires k <= |ps| && a != b && SwapReady(m, order, blockOf, a, b)
    ensures var r := SwapSumFrom(m, order, blockOf, a, b, ps, k, acc);
      r.Some? ==> Reshuffled(m, r.value.blocks)
    decreases |ps| - k, 2
  {
    if k < |ps| {
      PairShape(m, order, blockOf, a, b, ps, k, acc, ps[k].1);
    }
  }

  /** The k-th pair of the loop of `sifting_swap` and the pairs after it keep
      every block's shape. */
  lemma {:induction false} PairShape(m: map<nat, Block>, order: seq<nat>, blockOf: map<Node, nat>, a: nat, b: nat,
                                      ps: seq<(int, Direction)>, k: nat, acc: int, dir: Direction)
    requires k < |ps| && a != b && SwapReady(m, order, blockOf, a, b)
    ensures var r := SwapSumPair(m, order, blockOf, a, b, ps, k, acc, dir);
      r.Some? ==> Reshuffled(m, r.value.blocks)
    decreases |ps| - k, 0
  {
    var u := PairUpdate(m, order, blockOf, a, b, dir);
    PairUpdateShape(m, order, blockOf, a, b, dir);
    if u.Some? {
      var acc' := acc + PairDelta(m, order, blockOf, a, b, dir);
      SwapSumPairNext(m, order, blockOf, a, b, ps, k, acc, dir, u);
      SwapSumShape(u.value, order, blockOf, a, b, ps, k + 1, acc');
      var r := SwapSumFrom(u.value, order, blockOf, a, b, ps, k + 1, acc');
      if r.Some? {
        ReshuffledTrans(m, u.value, r.value.blocks);
      }
    }
  }

  /** The k-th pair, when its update succeeds, hands the loop on to the
      next pair with its change added. */
  lemma SwapSumPairNext(m: map<nat, Block>, order: seq<nat>, blockOf: map<Node, nat>, a: nat, b: nat,
                        ps: seq<(int, Direction)>, k: nat, acc: int, dir: Direction, u: Option<map<nat, Block>>)
    requires k < |ps| && a != b && SwapReady(m, order, blockOf, a, b)
    requires u == PairUpdate(m, order, blockOf, a, b, dir) && u.Some?
    ensures SwapSumPair(m, order, blockOf, a, b, ps, k, acc, dir)
         == SwapSumFrom(u.value, order, blockOf, a, b, ps, k + 1, acc + PairDelta(m, order, blockOf, a, b, dir))
  {
  }

  /** The levels of a block's upper and lower node are known. */
  predicate LevelsKnown(blk: Block, level: map<Node, int>) {
    blk.nodes != [] && blk.Upper() in level && blk.Lower() in level
  }

  /** One round of the loop of `sifting_swap`, for the loop's result `whole`
      from the k-th pair on: when the k-th pair fails so does the loop;
      otherwise the loop goes on from the next pair, on the blocks the k-th
      pair leaves and with its change `d` added. */
  lemma SwapSumStep(m: map<nat, Block>, order: seq<nat>, blockOf: map<Node, nat>, a: nat, b: nat,
                    ps: seq<(int, Direction)>, k: nat, acc: int, d: int, u: Option<map<nat, Block>>)
    requires k < |ps| && a != b && SwapReady(m, order, blockOf, a, b)
    requires d == PairDelta(m, order, blockOf, a, b, ps[k].1) && u == PairUpdate(m, order, blockOf, a, b, ps[k].1)
    requires u.Some?
    ensures SwapSumFrom(m, order, blockOf, a, b, ps, k, acc) == SwapSumFrom(u.value, order, blockOf, a, b, ps, k + 1, acc + d)
  {
    assert SwapSumFrom(m, order, blockOf, a, b, ps, k, acc) == SwapSumPair(m, order, blockOf, a, b, ps, k, acc, ps[k].1);
  }

  /** A pair whose `update_adjacencies` fails makes the whole loop fail. */
  lemma SwapSumFails(m: map<nat, Block>, order: seq<nat>, blockOf: map<Node, nat>, a: nat, b: nat,
                     ps: seq<(int, Direction)>, k: nat, acc: int)
    requires k < |ps| && a != b && SwapReady(m, order, blockOf, a, b)
    requires PairUpdate(m, order, blockOf, a, b, ps[k].1).None?
    ensures SwapSumFrom(m, order, blockOf, a, b, ps, k, acc).None?
  {
    assert SwapSumFrom(m, order, blockOf, a, b, ps, k, acc) == SwapSumPair(m, order, blockOf, a, b, ps, k, acc, ps[k].1);
  }

  /** The loop of `sifting_swap` with no pair left gives what it was given. */
  lemma SwapSumDone(m: map<nat, Block>, order: seq<nat>, blockOf: map<Node, nat>, a: nat, b: nat,
                    ps: seq<(int, Direction)>, acc: int)
    requires a != b && SwapReady(m, order, blockOf, a, b)
    ensures SwapSumFrom(m, order, blockOf, a, b, ps, |ps|, acc) == Some(Swept(acc, m))
  {
  }

  /** The loop `for level, order in l` of `sifting_swap` on the blocks: the
      crossing change of each pair's side is added up and the neighbours'
      lists re-sorted after each.  None is an IndexError. */
  method SumLevelPairs(m0: map<nat, Block>, order: seq<nat>, blockOf: map<Node, nat>, a: nat, b: nat,
                       ps: seq<(int, Direction)>) returns (r: Option<Swept>)
    requires a != b && SwapReady(m0, order, blockOf, a, b)
    ensures r == SwapSumFrom(m0, order, blockOf, a, b, ps, 0, 0)
  {
    ghost var whole := SwapSumFrom(m0, order, blockOf, a, b, ps, 0, 0);
    var m := m0;
    var delta := 0;
    var k := 0;
    while k < |ps|
      invariant k <= |ps| && SwapReady(m, order, blockOf, a, b)
      invariant whole == SwapSumFrom(m, order, blockOf, a, b, ps, k, delta)
    {
      var d, u := SwapPairOf(m, order, blockOf, a, b, ps, k, delta, whole);
      if u.None? {
        return None;
      }
      delta := delta + d;
      m := u.value;
      k := k + 1;
    }
    SwapSumDone(m, order, blockOf, a, b, ps, delta);
    r := Some(Swept(delta, m));
  }

  /** The k-th round of the loop of `sifting_swap`, for the loop's result
      `whole`: the round fails only when the loop does, and otherwise the
      loop goes on from the next pair with `d` added. */
  method SwapPairOf(m: map<nat, Block>, order: seq<nat>, blockOf: map<Node, nat>, a: nat, b: nat,
                    ps: seq<(int, Direction)>, k: nat, acc: int, ghost whole: Option<Swept>)
    returns (d: int, u: Option<map<nat, Block>>)
    requires k < |ps| && a != b && SwapReady(m, order, blockOf, a, b)
    requires whole == SwapSumFrom(m, order, blockOf, a, b, ps, k, acc)
    ensures u.None? ==> whole.None?
    ensures u.Some? ==> SwapReady(u.value, order, blockOf, a, b)
    ensures u.Some? ==> whole == SwapSumFrom(u.value, order, blockOf, a, b, ps, k + 1, acc + d)
  {
    d, u := SwapPair(m, order, blockOf, a, b, ps[k].1);
    if u.Some? {
      SwapSumStep(m, order, blockOf, a, b, ps, k, acc, d, u);
    } else {
      SwapSumFails(m, order, blockOf, a, b, ps, k, acc);
    }
  }

  /** One pair of `sifting_swap`: `uswap` of A's and B's lists on the pair's
      side, then `update_adjacencies` on them. */
  method SwapPair(m: map<nat, Block>, order: seq<nat>, blockOf: map<Node, nat>, a: nat, b: nat, dir: Direction)
    returns (d: int, u: Option<map<nat, Block>>)
    requires a != b && SwapReady(m, order, blockOf, a, b)
    ensures d == PairDelta(m, order, blockOf, a, b, dir)
    ensures u == PairUpdate(m, order, blockOf, a, b, dir)
  {
    var x, y := SideA(m, a, dir), SideA(m, b, dir);
    d := USwap(x, y, order, blockOf);
    u := UpdateAdjacencies(m, order, blockOf, a, b, x, y, dir);
  }

  /** `sifting_swap(G, A, B, B_)`: the crossing change of letting A (id a)
      and B (id b) trade places, summed over the level pairs with the
      neighbour lists re-sorted after each; then the two positions are
      exchanged.  With no shared level the change is 0 and only the
      positions move. */
  method SiftingSwap(bl: BlockList, level: map<Node, int>, blockOf: map<Node, nat>, a: nat, b: nat)
      returns (delta: int, ok: bool)
    requires bl.Valid() && a in bl.order && b in bl.order && a != b
    requires NeighboursPlaced(bl.blocks, blockOf, bl.order)
    requires LevelsKnown(bl.blocks[a], level) && LevelsKnown(bl.blocks[b], level)
    modifies bl
    ensures bl.Valid() && NeighboursPlaced(bl.blocks, blockOf, bl.order)
    ensures ok ==> Reshuffled(old(bl.blocks), bl.blocks)
    ensures var ps := LevelPairs(old(bl.blocks[a]), old(bl.blocks[b]), level);
      var r := SwapSumFrom(old(bl.blocks), old(bl.order), blockOf, a, b, ps, 0, 0);
      && ok == r.Some?
      && (ok ==> delta == r.value.delta && bl.blocks == r.value.blocks && bl.order == SwapSeq(old(bl.order), a, b))
    ensures LevelPairs(old(bl.blocks[a]), old(bl.blocks[b]), level) == [] ==>
      ok && delta == 0 && bl.blocks == old(bl.blocks)
  {
    var ps := LevelPairs(bl.blocks[a], bl.blocks[b], level);
    var r := SumLevelPairs(bl.blocks, bl.order, blockOf, a, b, ps);
    SwapSumShape(bl.blocks, bl.order, blockOf, a, b, ps, 0, 0);
    if r.None? {
      delta, ok := 0, false;
      return;
    }
    delta := r.value.delta;
    SwapExchanges(bl.order, a, b);
    PlacedReorder(r.value.blocks, blockOf, bl.order, SwapSeq(bl.order, a, b));
    bl.blocks := r.value.blocks;
    bl.SwapPos(a, b);
    ok := true;
  }

  // ---------------------------------------------------------------------
  // sifting_step

  /** The bookkeeping of the sweep: the running sum `x`, the least sum
      `xBest` so far and the position `pBest` where it was first reached. */
  datatype Sweep = Sweep(x: int, xBest: int, pBest: nat)

  /** The bookkeeping of `sifting_step` over the swap deltas `ds`, where
      `ds[p - 1]` is the change of the swap that takes A to position p: it
      starts at 0 with A at position 0, and a new best needs a strictly
      smaller sum. */
  function SweepOf(ds: seq<int>): (s: Sweep)
    ensures s.pBest <= |ds|
    decreases |ds|
  {
    if ds == [] then Sweep(0, 0, 0)
    else
      var s := SweepOf(ds[..|ds| - 1]);
      var x := s.x + ds[|ds| - 1];
      if x < s.xBest then Sweep(x, x, |ds|) else Sweep(x, s.xBest, s.pBest)
  }

  /** One more swap of the sweep. */
  lemma SweepStep(ds: seq<int>, d: int)
    ensures var s := SweepOf(ds);
      SweepOf(ds + [d]) == if s.x + d < s.xBest then Sweep(s.x + d, s.x + d, |ds| + 1) else Sweep(s.x + d, s.xBest, s.pBest)
  {
    assert (ds + [d])[..|ds|] == ds;
  }

  /** The sum of the first k deltas: the crossing change of A at position k
      against A at position 0. */
  function PrefixSum(ds: seq<int>, k: nat): int
    requires k <= |ds|
  {
    if k == 0 then 0 else PrefixSum(ds, k - 1) + ds[k - 1]
  }

  lemma {:induction false} PrefixSumOfPrefix(ds: seq<int>, n: nat, k: nat)
    requires k <= n <= |ds|
    ensures PrefixSum(ds[..n], k) == PrefixSum(ds, k)
  {
    if k > 0 {
      PrefixSumOfPrefix(ds, n, k - 1);
    }
  }

  /** `p_best` is the first position where the running sum is least (the
      start counting as position 0 with sum 0), `x_best` is that sum, so it
      is never positive, and `x` is the sum of all the deltas. */
  lemma {:induction false} SweepFindsFirstMinimum(ds: seq<int>)
    ensures var s := SweepOf(ds);
      && s.x == PrefixSum(ds, |ds|)
      && s.xBest == PrefixSum(ds, s.pBest) && s.xBest <= 0
      && (forall k | 0 <= k <= |ds| :: s.xBest <= PrefixSum(ds, k))
      && (forall k | 0 <= k < s.pBest :: s.xBest < PrefixSum(ds, k))
    decreases |ds|
  {
    if ds != [] {
      var init := ds[..|ds| - 1];
      SweepFindsFirstMinimum(init);
      forall k | 0 <= k <= |init| ensures PrefixSum(init, k) == PrefixSum(ds, k) {
        PrefixSumOfPrefix(ds, |init|, k);
      }
    }
  }

  /** A stays at position 0 exactly when no position gives a negative
      running sum. */
  lemma SweepStaysAtFront(ds: seq<int>)
    ensures SweepOf(ds).pBest == 0 <==> forall k | 0 <= k <= |ds| :: PrefixSum(ds, k) >= 0
  {
    SweepFindsFirstMinimum(ds);
    if SweepOf(ds).pBest != 0 {
      assert SweepOf(ds).xBest < PrefixSum(ds, 0);
    }
  }

  /** Every block's upper and lower node has a level. */
  predicate AllLevelsKnown(m: map<nat, Block>, level: map<Node, int>) {
    forall id | id in m :: LevelsKnown(m[id], level)
  }

  lemma ReshuffledLevels(m: map<nat, Block>, m2: map<nat, Block>, level: map<Node, int>)
    requires Reshuffled(m, m2) && AllLevelsKnown(m, level)
    ensures AllLevelsKnown(m2, level)
  {
    forall id | id in m2 ensures LevelsKnown(m2[id], level) {
      assert SameShape(m[id], m2[id]);
    }
  }

  lemma KeptLevels(m: map<nat, Block>, m2: map<nat, Block>, level: map<Node, int>)
    requires Kept(m, m2) && AllLevelsKnown(m, level)
    ensures AllLevelsKnown(m2, level)
  {
    forall id | id in m2 ensures LevelsKnown(m2[id], level) {
      assert m2[id].nodes == m[id].nodes;
    }
  }

  /** The same ids, in any order. */
  lemma SameIds(o1: seq<nat>, o2: seq<nat>, m: map<nat, Block>, g: Graph, blockOf: map<Node, nat>)
    requires multiset(o1) == multiset(o2) && Ready(m, o1) && EdgesPlaced(g.edges, blockOf, o1)
    ensures Ready(m, o2) && EdgesPlaced(g.edges, blockOf, o2)
    ensures forall k :: k in o1 <==> k in o2
  {
    forall k ensures k in o1 <==> k in o2 {
      assert k in o1 <==> k in multiset(o1);
    }
  }

  /** What the sweep needs when A sits at position p - 1 among the other
      blocks `others`: every id has a block, A is not among the others, the
      neighbour names are placed, and the block ends have levels. */
  predicate SweepReady(m: map<nat, Block>, others: seq<nat>, a: nat, blockOf: map<Node, nat>,
                       level: map<Node, int>, p: nat)
    requires 1 <= p <= |others| + 1
  {
    && a in m && a !in others && (forall id | id in InsertAt(others, p - 1, a) :: id in m)
    && NeighboursPlaced(m, blockOf, InsertAt(others, p - 1, a)) && AllLevelsKnown(m, level)
  }

  /** A swap that reshuffles the blocks leaves the sweep ready for the next
      position. */
  lemma SweepAdvance(m: map<nat, Block>, u: map<nat, Block>, others: seq<nat>, a: nat, blockOf: map<Node, nat>,
                     level: map<Node, int>, p: nat)
    requires 1 <= p <= |others| && SweepReady(m, others, a, blockOf, level, p) && Reshuffled(m, u)
    requires NeighboursPlaced(u, blockOf, InsertAt(others, p - 1, a))
    ensures SweepReady(u, others, a, blockOf, level, p + 1)
  {
    var o1, o2 := InsertAt(others, p - 1, a), InsertAt(others, p, a);
    forall k | k in o1 ensures k in o2 {
      assert k in multiset(o1);
    }
    forall k | k in o2 ensures k in o1 {
      assert k in multiset(o2);
    }
    PlacedReorder(u, blockOf, o1, o2);
    ReshuffledLevels(m, u, level);
  }

  /** The outcome of the sweep so far: the crossing change of each swap and
      the blocks they leave. */
  datatype SweepRun = SweepRun(ds: seq<int>, blocks: map<nat, Block>)

  /** The swap at p (`sifting_swap`) after the sweep so far has left `run`:
      A, at position p - 1, trades places with `others[p - 1]`; None is an
      error raised by the swap. */
  function SweepNext(run: SweepRun, others: seq<nat>, a: nat, blockOf: map<Node, nat>,
                     level: map<Node, int>, p: nat): (r: Option<SweepRun>)
    requires 1 <= p <= |others| && SweepReady(run.blocks, others, a, blockOf, level, p)
    ensures r.Some? ==>
      && |r.value.ds| == |run.ds| + 1 && r.value.blocks.Keys == run.blocks.Keys
      && SweepReady(r.value.blocks, others, a, blockOf, level, p + 1)
  {
    var m, b := run.blocks, others[p - 1];
    var s := SwapSumFrom(m, InsertAt(others, p - 1, a), blockOf, a, b, LevelPairs(m[a], m[b], level), 0, 0);
    if s.None? then None
    else
      SwapSumShape(m, InsertAt(others, p - 1, a), blockOf, a, b, LevelPairs(m[a], m[b], level), 0, 0);
      SweepAdvance(m, s.value.blocks, others, a, blockOf, level, p);
      Some(SweepRun(run.ds + [s.value.delta], s.value.blocks))
  }

  /** The sweep of `sifting_step` from position p on, after the swaps so far
      have left `run`: each swap trades A with the block to its right until
      A is last; None is an error raised by one of the swaps. */
  function SweepFrom(run: SweepRun, others: seq<nat>, a: nat, blockOf: map<Node, nat>,
                     level: map<Node, int>, p: nat): (r: Option<SweepRun>)
    requires 1 <= p <= |others| + 1 && SweepReady(run.blocks, others, a, blockOf, level, p)
    ensures r.Some? ==>
      && |r.value.ds| == |run.ds| + |others| + 1 - p && r.value.blocks.Keys == run.blocks.Keys
      && AllLevelsKnown(r.value.blocks, level)
    decreases |others| + 1 - p
  {
    if p == |others| + 1 then Some(run)
    else
      var next := SweepNext(run, others, a, blockOf, level, p);
      if next.None? then None else SweepFrom(next.value, others, a, blockOf, level, p + 1)
  }

  /** The whole sweep of `sifting_step`, A starting first among `others` on
      the blocks `m0`. */
  function SweepAll(m0: map<nat, Block>, others: seq<nat>, a: nat, blockOf: map<Node, nat>,
                    level: map<Node, int>): (r: Option<SweepRun>)
    requires SweepReady(m0, others, a, blockOf, level, 1)
  {
    SweepFrom(SweepRun([], m0), others, a, blockOf, level, 1)
  }

  /** The swap at p, with outcome `ok`, delta `d` and blocks `u`, is the
      first step of the sweep from p: when it fails the sweep fails, and
      otherwise the sweep goes on from p + 1 with `d` recorded. */
  lemma SweepFromStep(run: SweepRun, others: seq<nat>, a: nat, blockOf: map<Node, nat>,
                      level: map<Node, int>, p: nat, ok: bool, d: int, u: map<nat, Block>)
    requires 1 <= p <= |others| && SweepReady(run.blocks, others, a, blockOf, level, p)
    requires others[p - 1] in run.blocks
    requires var m, b := run.blocks, others[p - 1];
      var s := SwapSumFrom(m, InsertAt(others, p - 1, a), blockOf, a, b, LevelPairs(m[a], m[b], level), 0, 0);
      if ok then s.Some? && d == s.value.delta && u == s.value.blocks else s.None?
    ensures !ok ==> SweepFrom(run, others, a, blockOf, level, p).None?
    ensures ok ==> SweepReady(u, others, a, blockOf, level, p + 1)
    ensures ok ==> SweepFrom(run, others, a, blockOf, level, p) == SweepFrom(SweepRun(run.ds + [d], u), others, a, blockOf, level, p + 1)
  {
    var next := SweepNext(run, others, a, blockOf, level, p);
    if ok {
      assert next == Some(SweepRun(run.ds + [d], u));
    } else {
      assert next.None?;
    }
  }

  /** One swap of the sweep: A, at position p - 1, trades places with the
      block to its right (`sifting_swap(G, A, B_[p], B_)`). */
  method SwapAlong(bl: BlockList, level: map<Node, int>, blockOf: map<Node, nat>, a: nat, ghost others: seq<nat>, p: nat)
      returns (d: int, ok: bool)
    requires 1 <= p <= |others| && bl.Valid() && bl.order == InsertAt(others, p - 1, a)
    requires NeighboursPlaced(bl.blocks, blockOf, bl.order) && AllLevelsKnown(bl.blocks, level)
    requires SweepReady(bl.blocks, others, a, blockOf, level, p)
    modifies bl
    ensures var m, b := old(bl.blocks), others[p - 1];
      var s := SwapSumFrom(m, InsertAt(others, p - 1, a), blockOf, a, b, LevelPairs(m[a], m[b], level), 0, 0);
      if ok then s.Some? && d == s.value.delta && bl.blocks == s.value.blocks else s.None?
    ensures ok ==>
      && bl.Valid() && bl.order == InsertAt(others, p, a) && bl.blocks.Keys == old(bl.blocks).Keys
      && NeighboursPlaced(bl.blocks, blockOf, bl.order) && AllLevelsKnown(bl.blocks, level)
  {
    var b := bl.order[p];
    ghost var before := bl.blocks;
    d, ok := SiftingSwap(bl, level, blockOf, a, b);
    if ok {
      SwapRight(others, p - 1, a);
      ReshuffledLevels(before, bl.blocks, level);
    }
  }

  /** The bookkeeping after the swap that takes A to position p: the
      running sum grows by the swap's delta, and p becomes the best position
      when the sum falls strictly below the best so far. */
  method Record(x: int, xBest: int, pBest: nat, d: int, p: nat, ghost ds: seq<int>)
      returns (x': int, xBest': int, pBest': nat)
    requires p == |ds| + 1 && SweepOf(ds) == Sweep(x, xBest, pBest)
    ensures SweepOf(ds + [d]) == Sweep(x', xBest', pBest')
  {
    SweepStep(ds, d);
    x', xBest', pBest' := x + d, xBest, pBest;
    if x' < xBest {
      xBest', pBest' := x', p;
    }
  }

  /** One round of the loop of `sifting_step`: the swap that takes A from
      position p - 1 to p, and the bookkeeping of its delta. */
  method SweepOnce(bl: BlockList, level: map<Node, int>, blockOf: map<Node, nat>, a: nat, ghost others: seq<nat>,
                   p: nat, ghost whole: Option<SweepRun>, ghost ds: seq<int>, x: int, xBest: int, pBest: nat)
      returns (ok: bool, x': int, xBest': int, pBest': nat, ghost ds': seq<int>)
    requires 1 <= p <= |others| && bl.Valid() && bl.order == InsertAt(others, p - 1, a)
    requires SweepReady(bl.blocks, others, a, blockOf, level, p)
    requires whole == SweepFrom(SweepRun(ds, bl.blocks), others, a, blockOf, level, p)
    requires p == |ds| + 1 && SweepOf(ds) == Sweep(x, xBest, pBest)
    modifies bl
    ensures !ok ==> whole.None?
    ensures ok ==> bl.Valid() && bl.order == InsertAt(others, p, a) && SweepReady(bl.blocks, others, a, blockOf, level, p + 1)
    ensures ok ==> whole == SweepFrom(SweepRun(ds', bl.blocks), others, a, blockOf, level, p + 1)
    ensures ok ==> p + 1 == |ds'| + 1 && SweepOf(ds') == Sweep(x', xBest', pBest')
  {
    var d;
    x', xBest', pBest', ds' := x, xBest, pBest, ds;
    ghost var m := bl.blocks;
    assert others[p - 1] in InsertAt(others, p - 1, a);
    d, ok := SwapAlong(bl, level, blockOf, a, others, p);
    SweepFromStep(SweepRun(ds, m), others, a, blockOf, level, p, ok, d, bl.blocks);
    if ok {
      x', xBest', pBest' := Record(x, xBest, pBest, d, p, ds);
      ds' := ds + [d];
    }
  }

  /** The sweep of `sifting_step`: A, first of the blocks, is swapped with
      its right-hand neighbour until it is last; the sweep succeeds exactly
      when `SweepAll` does, `ds` are the crossing changes of the swaps, the
      blocks are those they leave, and `pBest` is where the running sum of
      the changes was first least. */
  method SweepRight(bl: BlockList, level: map<Node, int>, blockOf: map<Node, nat>, a: nat, ghost others: seq<nat>)
      returns (ok: bool, pBest: nat, ghost ds: seq<int>)
    requires bl.Valid() && bl.order == InsertAt(others, 0, a)
    requires SweepReady(bl.blocks, others, a, blockOf, level, 1)
    modifies bl
    ensures !ok ==> SweepAll(old(bl.blocks), others, a, blockOf, level).None?
    ensures ok ==> var r := SweepAll(old(bl.blocks), others, a, blockOf, level);
      r.Some? && r.value.ds == ds && r.value.blocks == bl.blocks && pBest == SweepOf(ds).pBest
    ensures ok ==> bl.Valid() && bl.order == InsertAt(others, |others|, a)
  {
    ghost var whole := SweepAll(bl.blocks, others, a, blockOf, level);
    ds := [];
    pBest := 0;
    ok := true;
    var x, xBest := 0, 0;
    var p := 1;
    while p < |bl.order|
      invariant 1 <= p <= |others| + 1 == |bl.order|
      invariant bl.Valid() && bl.order == InsertAt(others, p - 1, a)
      invariant SweepReady(bl.blocks, others, a, blockOf, level, p)
      invariant whole == SweepFrom(SweepRun(ds, bl.blocks), others, a, blockOf, level, p)
      invariant p == |ds| + 1 && SweepOf(ds) == Sweep(x, xBest, pBest)
    {
      ok, x, xBest, pBest, ds := SweepOnce(bl, level, blockOf, a, others, p, whole, ds, x, xBest, pBest);
      if !ok {
        return;
      }
      p := p + 1;
    }
  }

  /** What `sifting_step` needs of the blocks `m` for A and the other blocks
      `others`: A is not among them, every id has a non-empty block and every
      edge end a placed block, and the block ends have levels. */
  predicate SiftReady(g: Graph, m: map<nat, Block>, others: seq<nat>, a: nat, blockOf: map<Node, nat>, level: map<Node, int>) {
    && a !in others && Ready(m, InsertAt(others, 0, a))
    && EdgesPlaced(g.edges, blockOf, InsertAt(others, 0, a)) && AllLevelsKnown(m, level)
  }

  /** A block list with A first is ready for `sifting_step`. */
  lemma ReadyToSift(g: Graph, bl: BlockList, others: seq<nat>, a: nat, blockOf: map<Node, nat>, level: map<Node, int>)
    requires bl.Valid() && bl.order == InsertAt(others, 0, a)
    requires Ready(bl.blocks, bl.order) && EdgesPlaced(g.edges, blockOf, bl.order) && AllLevelsKnown(bl.blocks, level)
    ensures SiftReady(g, bl.blocks, others, a, blockOf, level)
  {
    forall k | 0 <= k < |others| ensures others[k] != a {
      assert others[k] == bl.order[k + 1];
    }
  }

  /** The neighbour lists that `sort_adjacencies` builds leave the blocks
      ready for the sweep. */
  lemma SiftPrepared(g: Graph, m: map<nat, Block>, others: seq<nat>, a: nat, blockOf: map<Node, nat>, level: map<Node, int>)
    requires SiftReady(g, m, others, a, blockOf, level)
    ensures var r := Adjacencies(m, g, InsertAt(others, 0, a), blockOf);
      r.Some? ==> SweepReady(r.value, others, a, blockOf, level, 1)
  {
    var order := InsertAt(others, 0, a);
    AdjacenciesPlaced(m, g, order, blockOf);
    var r := Adjacencies(m, g, order, blockOf);
    if r.Some? {
      KeptLevels(m, r.value, level);
      assert a in order;
    }
  }

  /** The outcome of `sifting_step`: the crossing changes of the sweep, the
      position A settles at, and the blocks with their final neighbour
      lists. */
  datatype SiftRun = SiftRun(ds: seq<int>, pBest: nat, blocks: map<nat, Block>)

  /** `sifting_step(G, B, A)` on the blocks `m`, where `others` is the order
      of B without A: the neighbour lists of the order with A first, then
      the sweep of A to the far right; A settles at the first position where
      the running sum of the sweep's crossing changes was least.  None is an
      error raised by `sort_adjacencies` or by a swap. */
  function SiftOf(g: Graph, m: map<nat, Block>, others: seq<nat>, a: nat, blockOf: map<Node, nat>,
                  level: map<Node, int>): (r: Option<SiftRun>)
    requires SiftReady(g, m, others, a, blockOf, level)
    ensures r.Some? ==>
      && |r.value.ds| == |others| && r.value.pBest <= |others|
      && r.value.blocks.Keys == m.Keys && AllLevelsKnown(r.value.blocks, level)
  {
    var adj := Adjacencies(m, g, InsertAt(others, 0, a), blockOf);
    if adj.None? then None
    else
      SiftPrepared(g, m, others, a, blockOf, level);
      var sw := SweepAll(adj.value, others, a, blockOf, level);
      if sw.None? then None
      else Some(SiftRun(sw.value.ds, SweepOf(sw.value.ds).pBest, sw.value.blocks))
  }

  /** `SiftOf` from the outcomes of its two stages: `sorted` and `m1` for
      the neighbour lists, `swept`, `ds` and `m2` for the sweep. */
  lemma SiftOfParts(g: Graph, m: map<nat, Block>, others: seq<nat>, a: nat, blockOf: map<Node, nat>, level: map<Node, int>,
                    sorted: bool, m1: map<nat, Block>, swept: bool, ds: seq<int>, m2: map<nat, Block>)
    requires SiftReady(g, m, others, a, blockOf, level)
    requires var adj := Adjacencies(m, g, InsertAt(others, 0, a), blockOf);
      if sorted then adj.Some? && adj.value == m1 else adj.None? && !swept
    requires sorted ==> SweepReady(m1, others, a, blockOf, level, 1)
    requires sorted && !swept ==> SweepAll(m1, others, a, blockOf, level).None?
    requires sorted && swept ==> var sw := SweepAll(m1, others, a, blockOf, level);
      sw.Some? && sw.value.ds == ds && sw.value.blocks == m2
    ensures !swept ==> SiftOf(g, m, others, a, blockOf, level).None?
    ensures swept ==> var r := SiftOf(g, m, others, a, blockOf, level);
      r.Some? && r.value.ds == ds && r.value.pBest == SweepOf(ds).pBest && r.value.blocks == m2
  {
    if sorted {
      SiftPrepared(g, m, others, a, blockOf, level);
      var sw := SweepAll(m1, others, a, blockOf, level);
      assert SiftOf(g, m, others, a, blockOf, level) ==
        if sw.None? then None else Some(SiftRun(sw.value.ds, SweepOf(sw.value.ds).pBest, sw.value.blocks));
    } else {
      assert SiftOf(g, m, others, a, blockOf, level) == None;
    }
  }

  /** `sifting_step(G, B, A)`: on a copy of B, A is moved to the far left,
      the neighbour lists are rebuilt, and A is swapped rightwards past every
      other block while the crossing changes `ds` are summed; it is then
      moved to the first position where the running sum was least.  B itself
      is left alone, and the copy ends as `SiftOf` says; `ok` is false
      exactly when a step raised an error. */
  method SiftingStep(g: Graph, bl: BlockList, level: map<Node, int>, blockOf: map<Node, nat>, a: nat)
      returns (res: BlockList, ok: bool, pBest: nat, ghost ds: seq<int>)
    requires bl.Valid() && a in bl.order && Ready(bl.blocks, bl.order)
    requires EdgesPlaced(g.edges, blockOf, bl.order) && AllLevelsKnown(bl.blocks, level)
    ensures fresh(res) && unchanged(bl)
    ensures SiftReady(g, bl.blocks, RemoveAll(bl.order, a), a, blockOf, level)
    ensures !ok ==> SiftOf(g, bl.blocks, RemoveAll(bl.order, a), a, blockOf, level).None?
    ensures ok ==> var r := SiftOf(g, bl.blocks, RemoveAll(bl.order, a), a, blockOf, level);
      && r.Some? && ds == r.value.ds && pBest == r.value.pBest && res.blocks == r.value.blocks
      && res.Valid() && res.order == InsertAt(RemoveAll(bl.order, a), pBest, a)
      && res.blocks.Keys == bl.blocks.Keys && AllLevelsKnown(res.blocks, level)
  {
    res := new BlockList.CopyOf(bl);
    ghost var others := RemoveAll(bl.order, a);
    ghost var m := bl.blocks;
    RemoveAtIsRemoveAll(bl.order, IndexOf(bl.order, a));
    ok, pBest, ds := SiftInPlace(g, res, level, blockOf, a, others);
    assert bl.blocks == m;
    ghost var r := SiftOf(g, m, others, a, blockOf, level);
    assert ok ==> r.Some? && res.blocks == r.value.blocks && res.blocks.Keys == m.Keys && AllLevelsKnown(res.blocks, level);
  }

  /** `sifting_step` on the copy `bl` of the block list; `others` is the
      order without A. */
  method SiftInPlace(g: Graph, bl: BlockList, level: map<Node, int>, blockOf: map<Node, nat>, a: nat,
                     ghost others: seq<nat>) returns (ok: bool, pBest: nat, ghost ds: seq<int>)
    requires bl.Valid() && a in bl.order && others == RemoveAt(bl.order, IndexOf(bl.order, a))
    requires Ready(bl.blocks, bl.order) && EdgesPlaced(g.edges, blockOf, bl.order) && AllLevelsKnown(bl.blocks, level)
    modifies bl
    ensures SiftReady(g, old(bl.blocks), others, a, blockOf, level)
    ensures !ok ==> SiftOf(g, old(bl.blocks), others, a, blockOf, level).None?
    ensures ok ==> var r := SiftOf(g, old(bl.blocks), others, a, blockOf, level);
      && r.Some? && ds == r.value.ds && pBest == r.value.pBest && bl.blocks == r.value.blocks
      && bl.Valid() && bl.order == InsertAt(others, pBest, a)
  {
    ds := [];
    pBest := 0;
    ghost var m := bl.blocks;
    var sorted := ToFrontAndSort(g, bl, level, blockOf, a, others);
    ghost var m1 := bl.blocks;
    SiftPrepared(g, m, others, a, blockOf, level);
    ok := sorted;
    if sorted {
      ok, pBest, ds := SweepAndSettle(bl, level, blockOf, a, others);
    }
    SiftOfParts(g, m, others, a, blockOf, level, sorted, m1, ok, ds, bl.blocks);
  }

  /** The second half of `sifting_step`: the sweep to the right, then the
      move to the best position found. */
  method SweepAndSettle(bl: BlockList, level: map<Node, int>, blockOf: map<Node, nat>, a: nat, ghost others: seq<nat>)
      returns (ok: bool, pBest: nat, ghost ds: seq<int>)
    requires bl.Valid() && bl.order == InsertAt(others, 0, a)
    requires SweepReady(bl.blocks, others, a, blockOf, level, 1)
    modifies bl
    ensures !ok ==> SweepAll(old(bl.blocks), others, a, blockOf, level).None?
    ensures ok ==> var r := SweepAll(old(bl.blocks), others, a, blockOf, level);
      && r.Some? && ds == r.value.ds && bl.blocks == r.value.blocks && pBest == SweepOf(ds).pBest
      && bl.Valid() && bl.order == InsertAt(others, pBest, a)
  {
    ok, pBest, ds := SweepRight(bl, level, blockOf, a, others);
    if ok {
      Settle(bl, a, others, pBest);
    }
  }

  /** `B_.move(A, p_best)`: A, last of the blocks, goes to position `pBest`
      among the others. */
  method Settle(bl: BlockList, a: nat, ghost others: seq<nat>, pBest: nat)
    requires bl.Valid() && bl.order == InsertAt(others, |others|, a) && pBest <= |others|
    modifies bl
    ensures bl.Valid() && bl.order == InsertAt(others, pBest, a) && bl.blocks == old(bl.blocks)
  {
    bl.Move(a, pBest);
    MoveInserted(others, |others|, a, pBest);
  }

  /** The first half of `sifting_step` on the copy: `B_.move(A, 0)`, then
      `sort_adjacencies(G, B_)`, whose neighbour lists are those of
      `Adjacencies` for the order with A first. */
  method ToFrontAndSort(g: Graph, bl: BlockList, level: map<Node, int>, blockOf: map<Node, nat>, a: nat,
                        ghost others: seq<nat>) returns (ok: bool)
    requires bl.Valid() && a in bl.order && others == RemoveAt(bl.order, IndexOf(bl.order, a))
    requires Ready(bl.blocks, bl.order) && EdgesPlaced(g.edges, blockOf, bl.order) && AllLevelsKnown(bl.blocks, level)
    modifies bl
    ensures SiftReady(g, old(bl.blocks), others, a, blockOf, level)
    ensures !ok ==> Adjacencies(old(bl.blocks), g, InsertAt(others, 0, a), blockOf).None?
    ensures ok ==> var r := Adjacencies(old(bl.blocks), g, InsertAt(others, 0, a), blockOf);
      && r.Some? && bl.blocks == r.value
      && bl.Valid() && bl.order == InsertAt(others, 0, a)
  {
    ghost var m := bl.blocks;
    ghost var o := bl.order;
    bl.Move(a, 0);
    assert bl.order == InsertAt(others, 0, a);
    SameIds(o, bl.order, m, g, blockOf);
    ReadyToSift(g, bl, others, a, blockOf, level);
    ok := SortAdjacencies(g, bl, blockOf);
  }
}
