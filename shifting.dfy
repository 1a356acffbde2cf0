/**
 * `global_shifting` (algos/global_shift.py): a number of rounds, each of
 * which runs `sifting_step` once for every block, in the order the blocks
 * had when the round began; afterwards every node is given the position of
 * its block as its horizontal coordinate `pi`.
 */
module Shifting {
  import opened Graphs
  import opened Blocks
  import opened NeighbourLists
  import opened Sifting

  /** What every `sifting_step` needs of the block list and keeps: a valid
      list whose blocks are non-empty and have known levels, and whose ids
      are those of `ids` (the ids of the layering). */
  ghost predicate Siftable(g: Graph, bl: BlockList, level: map<Node, int>, blockOf: map<Node, nat>, ids: set<nat>)
    reads bl
  {
    && bl.Valid() && bl.blocks.Keys == ids
    && Ready(bl.blocks, bl.order) && EdgesPlaced(g.edges, blockOf, bl.order)
    && AllLevelsKnown(bl.blocks, level)
  }

  /** A block list with the same ids as one that `Siftable` accepts, and with
      known levels, is accepted as well. */
  lemma SameIdsSiftable(g: Graph, b0: BlockList, b: BlockList, level: map<Node, int>, blockOf: map<Node, nat>)
    requires Siftable(g, b0, level, blockOf, b0.blocks.Keys)
    requires b.Valid() && b.blocks.Keys == b0.blocks.Keys && AllLevelsKnown(b.blocks, level)
    ensures Siftable(g, b, level, blockOf, b0.blocks.Keys)
    ensures forall k :: k in b0.order <==> k in b.order
  {
    forall k ensures k in b0.order <==> k in b.order {
      assert k in b0.order <==> k in b0.blocks;
      assert k in b.order <==> k in b.blocks;
    }
  }

  /** A block list as a value: the blocks by id and their left-to-right order. */
  datatype Layout = Layout(blocks: map<nat, Block>, order: seq<nat>)

  /** The value of a block list. */
  function LayoutOf(bl: BlockList): (l: Layout)
    reads bl
    ensures l.blocks == bl.blocks && l.order == bl.order
  {
    Layout(bl.blocks, bl.order)
  }

  /** `sifting_step(G, B, A)` on a layout: A is taken out of the order and put
      back at the position the sweep found best, with the blocks the sweep
      left.  None is an error of the step (or an A the step cannot handle). */
  ghost function StepOf(g: Graph, l: Layout, a: nat, blockOf: map<Node, nat>, level: map<Node, int>): Option<Layout>
  {
    var others := RemoveAll(l.order, a);
    if a in l.order && SiftReady(g, l.blocks, others, a, blockOf, level) then
      var r := SiftOf(g, l.blocks, others, a, blockOf, level);
      if r.None? then None else Some(Layout(r.value.blocks, InsertAt(others, r.value.pBest, a)))
    else None
  }

  /** The steps of a round for the ids `ids`, in that order, each on the
      layout the previous one left; the first error ends the round. */
  ghost function RoundFrom(g: Graph, l: Layout, ids: seq<nat>, blockOf: map<Node, nat>, level: map<Node, int>): Option<Layout>
    decreases |ids|
  {
    if ids == [] then Some(l)
    else
      var next := StepOf(g, l, ids[0], blockOf, level);
      if next.None? then None else RoundFrom(g, next.value, ids[1..], blockOf, level)
  }

  /** One round: a step for every block, in the order the round began with. */
  ghost function RoundOf(g: Graph, l: Layout, blockOf: map<Node, nat>, level: map<Node, int>): Option<Layout> {
    RoundFrom(g, l, l.order, blockOf, level)
  }

  /** `rounds` rounds, each on the layout the previous one left. */
  ghost function RoundsOf(g: Graph, l: Layout, rounds: nat, blockOf: map<Node, nat>, level: map<Node, int>): Option<Layout>
    decreases rounds
  {
    if rounds == 0 then Some(l)
    else
      var next := RoundOf(g, l, blockOf, level);
      if next.None? then None else RoundsOf(g, next.value, rounds - 1, blockOf, level)
  }

  /** A round that completes never raises, and one step per id: the steps of
      `RoundFrom` are those of its first id followed by the rest. */
  lemma RoundFromStep(g: Graph, l: Layout, ids: seq<nat>, blockOf: map<Node, nat>, level: map<Node, int>)
    requires ids != []
    ensures RoundFrom(g, l, ids, blockOf, level) ==
      var next := StepOf(g, l, ids[0], blockOf, level);
      if next.None? then None else RoundFrom(g, next.value, ids[1..], blockOf, level)
  {
  }

  /** A round with no ids left ends where it is. */
  lemma RoundFromDone(g: Graph, l: Layout, ids: seq<nat>, blockOf: map<Node, nat>, level: map<Node, int>)
    requires |ids| == 0
    ensures RoundFrom(g, l, ids, blockOf, level) == Some(l)
  {
  }

  /** One `sifting_step` on a siftable list is `StepOf` on its layout, and
      leaves a siftable list. */
  method SiftOne(g: Graph, bl: BlockList, level: map<Node, int>, blockOf: map<Node, nat>, a: nat, ghost ids: set<nat>)
      returns (res: BlockList, ok: bool)
    requires Siftable(g, bl, level, blockOf, ids) && a in ids
    ensures var r := StepOf(g, LayoutOf(bl), a, blockOf, level);
      && (ok <==> r.Some?)
      && (ok ==> LayoutOf(res) == r.value && Siftable(g, res, level, blockOf, ids))
  {
    assert a in bl.order by {
      assert a in bl.blocks;
    }
    var pBest;
    ghost var ds;
    res, ok, pBest, ds := SiftingStep(g, bl, level, blockOf, a);
    StepOfIs(g, LayoutOf(bl), a, blockOf, level, ok, if ok then LayoutOf(res) else LayoutOf(bl));
    if ok {
      SameIdsSiftable(g, bl, res, level, blockOf);
    }
  }

  /** The outcome of `sifting_step`, as `SiftOf` describes it, is `StepOf`. */
  lemma StepOfIs(g: Graph, l: Layout, a: nat, blockOf: map<Node, nat>, level: map<Node, int>, ok: bool, l2: Layout)
    requires a in l.order && SiftReady(g, l.blocks, RemoveAll(l.order, a), a, blockOf, level)
    requires var r := SiftOf(g, l.blocks, RemoveAll(l.order, a), a, blockOf, level);
      && (ok <==> r.Some?)
      && (ok ==> l2.blocks == r.value.blocks && l2.order == InsertAt(RemoveAll(l.order, a), r.value.pBest, a))
    ensures var r := StepOf(g, l, a, blockOf, level);
      (ok <==> r.Some?) && (ok ==> l2 == r.value)
  {
    var others := RemoveAll(l.order, a);
    var r := SiftOf(g, l.blocks, others, a, blockOf, level);
    if ok {
      assert StepOf(g, l, a, blockOf, level) == Some(Layout(r.value.blocks, InsertAt(others, r.value.pBest, a)));
    } else {
      assert StepOf(g, l, a, blockOf, level) == None;
    }
  }

  /** The step of a round for the first of the ids left: what is left of the
      round after it is the rest of the ids, or the round fails with it. */
  method RoundStep(g: Graph, bl: BlockList, level: map<Node, int>, blockOf: map<Node, nat>,
                   ids: seq<nat>, ghost keys: set<nat>, ghost whole: Option<Layout>)
      returns (res: BlockList, ok: bool)
    requires |ids| > 0 && ids[0] in keys && Siftable(g, bl, level, blockOf, keys)
    requires RoundFrom(g, LayoutOf(bl), ids, blockOf, level) == whole
    ensures ok ==> Siftable(g, res, level, blockOf, keys) && RoundFrom(g, LayoutOf(res), ids[1..], blockOf, level) == whole
    ensures !ok ==> whole.None?
  {
    RoundFromStep(g, LayoutOf(bl), ids, blockOf, level);
    res, ok := SiftOne(g, bl, level, blockOf, ids[0], keys);
  }

  /** One round of `global_shifting`: `sifting_step` for each block of
      `list(B)`, the order at the start of the round, each on the list the
      previous step returned.  `ok` is false exactly when a step raised an
      error, and a round that completes ends as `RoundOf` says. */
  method ShiftRound(g: Graph, bl: BlockList, level: map<Node, int>, blockOf: map<Node, nat>)
      returns (res: BlockList, ok: bool)
    requires Siftable(g, bl, level, blockOf, bl.blocks.Keys)
    ensures var r := RoundOf(g, LayoutOf(bl), blockOf, level);
      && (ok <==> r.Some?)
      && (ok ==> LayoutOf(res) == r.value && Siftable(g, res, level, blockOf, bl.blocks.Keys))
    ensures ok ==> |res.order| == |bl.order| && multiset(res.order) == multiset(bl.order)
  {
    var ids := bl.order;
    ghost var whole := RoundOf(g, LayoutOf(bl), blockOf, level);
    ghost var keys := bl.blocks.Keys;
    res := bl;
    ok := true;
    while |ids| > 0
      invariant Siftable(g, res, level, blockOf, keys)
      invariant forall a | a in ids :: a in keys
      invariant RoundFrom(g, LayoutOf(res), ids, blockOf, level) == whole
    {
      var next;
      next, ok := RoundStep(g, res, level, blockOf, ids, keys, whole);
      if !ok {
        return;
      }
      res := next;
      ids := ids[1..];
    }
    RoundFromDone(g, LayoutOf(res), ids, blockOf, level);
    SameIdsSiftable(g, bl, res, level, blockOf);
    SameOrderIds(bl, res);
  }

  /** Two valid block lists with the same ids have orders that are
      permutations of each other. */
  lemma SameOrderIds(b0: BlockList, b: BlockList)
    requires b0.Valid() && b.Valid() && b.blocks.Keys == b0.blocks.Keys
    ensures |b.order| == |b0.order| && multiset(b.order) == multiset(b0.order)
  {
    forall k ensures k in b0.order <==> k in b.order {
      assert k in b0.order <==> k in b0.blocks;
      assert k in b.order <==> k in b.blocks;
    }
    forall k ensures multiset(b.order)[k] == multiset(b0.order)[k] {
      DistinctCount(b.order, k);
      DistinctCount(b0.order, k);
    }
    assert multiset(b.order) == multiset(b0.order);
    assert |b.order| == |multiset(b.order)|;
  }

  /** In a list without repeats every entry occurs once. */
  lemma {:induction false} DistinctCount<T>(s: seq<T>, x: T)
    requires Distinct(s)
    ensures multiset(s)[x] == if x in s then 1 else 0
  {
    if s != [] {
      assert s == [s[0]] + s[1..];
      DistinctCons(s[0], s[1..]);
      DistinctCount(s[1..], x);
    }
  }

  /** The last loop of `global_shifting`: every node gets the position of its
      block, `pi(block(v))`.  It fails (a `KeyError` or `ValueError`) exactly
      when some node has no block or its block has no position. */
  method NodePositions(g: Graph, bl: BlockList, blockOf: map<Node, nat>) returns (ok: bool, pi: map<Node, nat>)
    requires bl.Valid()
    ensures ok <==> forall v | v in g.nodes :: v in blockOf && blockOf[v] in bl.order
    ensures ok ==> pi.Keys == set v | v in g.nodes
    ensures ok ==> forall v | v in g.nodes :: pi[v] < |bl.order| && bl.order[pi[v]] == blockOf[v]
  {
    pi := map[];
    var k := 0;
    while k < |g.nodes|
      invariant k <= |g.nodes|
      invariant forall v | v in g.nodes[..k] :: v in blockOf && blockOf[v] in bl.order
      invariant pi.Keys == set v | v in g.nodes[..k]
      invariant forall v | v in pi :: v in blockOf && pi[v] < |bl.order| && bl.order[pi[v]] == blockOf[v]
    {
      var v := g.nodes[k];
      if v !in blockOf || blockOf[v] !in bl.order {
        ok := false;
        return;
      }
      pi := pi[v := bl.Pi(blockOf[v])];
      assert g.nodes[..k + 1] == g.nodes[..k] + [v];
      k := k + 1;
    }
    assert g.nodes[..k] == g.nodes;
    ok := true;
  }

  /** Positions are a faithful coordinate: two nodes share `pi` exactly when
      they lie in the same block. */
  lemma PositionsSeparateBlocks(g: Graph, order: seq<nat>, blockOf: map<Node, nat>, pi: map<Node, nat>, u: Node, v: Node)
    requires Distinct(order) && u in g.nodes && v in g.nodes
    requires forall w | w in g.nodes :: w in blockOf && w in pi && pi[w] < |order| && order[pi[w]] == blockOf[w]
    ensures pi[u] == pi[v] <==> blockOf[u] == blockOf[v]
  {
    if blockOf[u] == blockOf[v] {
      IndexOfDistinct(order, pi[u]);
      IndexOfDistinct(order, pi[v]);
    }
  }

  /** The rounds of `global_shifting`: `rounds` times `ShiftRound`, each on
      the list the previous round returned; they end as `RoundsOf` says. */
  method ShiftRounds(g: Graph, bl: BlockList, level: map<Node, int>, blockOf: map<Node, nat>, rounds: nat)
      returns (res: BlockList, ok: bool)
    requires Siftable(g, bl, level, blockOf, bl.blocks.Keys)
    ensures var r := RoundsOf(g, LayoutOf(bl), rounds, blockOf, level);
      && (ok <==> r.Some?)
      && (ok ==> LayoutOf(res) == r.value && Siftable(g, res, level, blockOf, bl.blocks.Keys))
    ensures ok ==> multiset(res.order) == multiset(bl.order)
  {
    ghost var whole := RoundsOf(g, LayoutOf(bl), rounds, blockOf, level);
    res := bl;
    ok := true;
    var r := 0;
    while r < rounds
      invariant r <= rounds
      invariant Siftable(g, res, level, blockOf, bl.blocks.Keys)
      invariant |res.order| == |bl.order| && multiset(res.order) == multiset(bl.order)
      invariant RoundsOf(g, LayoutOf(res), rounds - r, blockOf, level) == whole
    {
      var next;
      next, ok := ShiftRound(g, res, level, blockOf);
      if !ok {
        return;
      }
      res := next;
      r := r + 1;
    }
  }

  /** `global_shifting(G, shifting_rounds)` on the block list of the layering:
      `rounds` rounds of sifting, then the positions.  It succeeds exactly
      when the rounds do and every node has a placed block; the final block
      list is the one `RoundsOf` gives, a reordering of the same blocks, and
      every node's `pi` is the position of its block. */
  method GlobalShifting(g: Graph, bl: BlockList, level: map<Node, int>, blockOf: map<Node, nat>, rounds: nat)
      returns (res: BlockList, ok: bool, pi: map<Node, nat>)
    requires Siftable(g, bl, level, blockOf, bl.blocks.Keys)
    ensures var r := RoundsOf(g, LayoutOf(bl), rounds, blockOf, level);
      ok <==> r.Some? && forall v | v in g.nodes :: v in blockOf && blockOf[v] in r.value.order
    ensures ok ==> LayoutOf(res) == RoundsOf(g, LayoutOf(bl), rounds, blockOf, level).value
    ensures ok ==> Siftable(g, res, level, blockOf, bl.blocks.Keys)
    ensures ok ==> multiset(res.order) == multiset(bl.order)
    ensures ok ==> pi.Keys == set v | v in g.nodes
    ensures ok ==> forall v | v in g.nodes :: v in pi && v in blockOf && pi[v] < |res.order| && res.order[pi[v]] == blockOf[v]
  {
    pi := map[];
    res, ok := ShiftRounds(g, bl, level, blockOf, rounds);
    if ok {
      ok, pi := NodePositions(g, res, blockOf);
    }
  }
}
