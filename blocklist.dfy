/**
 * Blocks and the block list (digraph.py, classes Block and BlockList).
 *
 * A block is a run of nodes on consecutive levels that moves as one unit
 * during crossing reduction: a single real node, or the dummy chain of one
 * long edge.  The block list keeps every block by id and a permutation of the
 * ids, `order`, whose index is the block's horizontal position.
 */
module Blocks {
  import opened Graphs

  /** A block.  `preds`/`succs` are the neighbour-name lists the source calls
      `n_n` and `n_p`; `predIdx`/`succIdx` (`i_n`, `i_p`) hold, for each
      neighbour entry, the index of the reciprocal entry in the neighbour's
      block.  `id` is -1 until the block is added to a block list. */
  datatype Block = Block(
    id: int,
    nodes: seq<Node>,
    levels: seq<int>,
    preds: seq<Node>,
    succs: seq<Node>,
    predIdx: seq<int>,
    succIdx: seq<int>)
  {
    /** The first node of the block (`upper`). */
    function Upper(): Node
      requires nodes != []
    {
      nodes[0]
    }

    /** The last node of the block (`lower`). */
    function Lower(): Node
      requires nodes != []
    {
      nodes[|nodes| - 1]
    }

    /** `clear`: all four neighbour lists emptied, nodes and levels kept. */
    function Clear(): (b: Block)
      ensures b.preds == [] && b.succs == [] && b.predIdx == [] && b.succIdx == []
      ensures b.id == id && b.nodes == nodes && b.levels == levels
    {
      this.(preds := [], succs := [], predIdx := [], succIdx := [])
    }
  }

  /** The constructor `Block(nodes, levels, predecessors, successors)`; it reads
      `nodes[0]` and `nodes[-1]` at once, so a block always has a node. */
  function NewBlock(nodes: seq<Node>, levels: seq<int>, preds: seq<Node>, succs: seq<Node>): (b: Block)
    requires nodes != []
    ensures b.nodes == nodes && b.levels == levels && b.preds == preds && b.succs == succs
    ensures b.id == -1 && b.Upper() == nodes[0] && b.Lower() == nodes[|nodes| - 1]
    ensures b.predIdx == [] && b.succIdx == []
  {
    Block(-1, nodes, levels, preds, succs, [], [])
  }

  /** In a block without repeated nodes, `upper` and `lower` are the same
      node exactly when the block has a single node. */
  lemma UpperIsLower(b: Block)
    requires b.nodes != [] && Distinct(b.nodes)
    ensures b.Upper() == b.Lower() <==> |b.nodes| == 1
  {
  }

  // ---------------------------------------------------------------------
  // The permutation operations on plain lists

  function InsertAt<T>(s: seq<T>, i: nat, x: T): (r: seq<T>)
    requires i <= |s|
    ensures |r| == |s| + 1 && r[i] == x
    ensures forall k | 0 <= k < i :: r[k] == s[k]
    ensures forall k | i < k < |r| :: r[k] == s[k - 1]
    ensures multiset(r) == multiset(s) + multiset{x}
  {
    assert s == s[..i] + s[i..];
    s[..i] + [x] + s[i..]
  }

  function RemoveAt<T>(s: seq<T>, i: nat): (r: seq<T>)
    requires i < |s|
    ensures |r| == |s| - 1
    ensures forall k | 0 <= k < i :: r[k] == s[k]
    ensures forall k | i <= k < |r| :: r[k] == s[k + 1]
    ensures multiset(r) == multiset(s) - multiset{s[i]}
  {
    assert s == s[..i] + [s[i]] + s[i + 1..];
    s[..i] + s[i + 1..]
  }

  lemma RemoveInsert<T>(s: seq<T>, i: nat, x: T)
    requires i <= |s|
    ensures RemoveAt(InsertAt(s, i, x), i) == s
  {
  }

  /** Where `move` puts the block: the target index, one less when the block
      sat before the target (it was taken out first), at most the end. */
  function MoveTarget(len: nat, from: nat, target: nat): (t: nat)
    requires from < len
    ensures t < len
  {
    var t := if target > from then target - 1 else target;
    if t < len - 1 then t else len - 1
  }

  /** `BlockList.move` on the id list: take `x` out, insert it at the target. */
  function MoveSeq<T(==)>(s: seq<T>, x: T, target: nat): (r: seq<T>)
    requires x in s
    ensures |r| == |s|
    ensures multiset(r) == multiset(s)
    ensures r[MoveTarget(|s|, IndexOf(s, x), target)] == x
    ensures RemoveAt(r, MoveTarget(|s|, IndexOf(s, x), target)) == RemoveAt(s, IndexOf(s, x))
  {
    var from := IndexOf(s, x);
    var rest := RemoveAt(s, from);
    var t := MoveTarget(|s|, from, target);
    RemoveInsert(rest, t, x);
    assert multiset(s) == multiset(rest) + multiset{x};
    InsertAt(rest, t, x)
  }

  /** `move` keeps the ids a duplicate-free permutation, lands `x` at the target
      when the target is not after its old position and at target - 1 otherwise,
      and keeps every other id in its relative order. */
  lemma MoveLandsAtTarget<T(!new)>(s: seq<T>, x: T, target: nat)
    requires Distinct(s) && x in s && target < |s|
    ensures Distinct(MoveSeq(s, x, target))
    ensures IndexOf(MoveSeq(s, x, target), x) == if target <= IndexOf(s, x) then target else target - 1
    ensures RemoveAll(MoveSeq(s, x, target), x) == RemoveAll(s, x)
  {
    var r := MoveSeq(s, x, target);
    var from := IndexOf(s, x);
    var t := MoveTarget(|s|, from, target);
    DistinctPermutation(r, s);
    IndexOfDistinct(r, t);
    RemoveAtIsRemoveAll(s, from);
    RemoveAtIsRemoveAll(r, t);
  }

  /** `move` of the id inserted at index i: the same list with the id
      inserted at the target instead. */
  lemma MoveInserted<T>(s: seq<T>, i: nat, x: T, target: nat)
    requires i <= |s| && Distinct(InsertAt(s, i, x))
    ensures MoveSeq(InsertAt(s, i, x), x, target) == InsertAt(s, MoveTarget(|s| + 1, i, target), x)
  {
    IndexOfDistinct(InsertAt(s, i, x), i);
    RemoveInsert(s, i, x);
  }

  /** Exchanging the id inserted at index i with its right-hand neighbour
      moves it one place to the right. */
  lemma SwapRight<T>(s: seq<T>, i: nat, x: T)
    requires i < |s| && Distinct(InsertAt(s, i, x))
    ensures SwapSeq(InsertAt(s, i, x), x, s[i]) == InsertAt(s, i + 1, x)
  {
    var r := InsertAt(s, i, x);
    IndexOfDistinct(r, i);
    IndexOfDistinct(r, i + 1);
    var t := InsertAt(s, i + 1, x);
    var w := SwapSeq(r, x, s[i]);
    assert |w| == |t|;
    forall k | 0 <= k < |w| ensures w[k] == t[k] {
      if k != i && k != i + 1 {
        assert w[k] == r[k];
      }
    }
  }

  /** In a duplicate-free list, removing the entry at the position of `s[i]`
      is removing that value. */
  lemma {:induction false} RemoveAtIsRemoveAll<T(!new)>(s: seq<T>, i: nat)
    requires Distinct(s) && i < |s|
    ensures RemoveAt(s, i) == RemoveAll(s, s[i])
  {
    assert s == [s[0]] + s[1..];
    DistinctCons(s[0], s[1..]);
    if i == 0 {
      RemoveAllAbsent(s[1..], s[0]);
      assert RemoveAll(s, s[0]) == RemoveAll(s[1..], s[0]);
    } else {
      assert s[1..][i - 1] == s[i];
      RemoveAtIsRemoveAll(s[1..], i - 1);
      RemoveAtCons(s, i);
      assert RemoveAll(s, s[i]) == [s[0]] + RemoveAll(s[1..], s[i]);
    }
  }

  /** Removing a later entry keeps the head. */
  lemma RemoveAtCons<T>(s: seq<T>, i: nat)
    requires 0 < i < |s|
    ensures RemoveAt(s, i) == [s[0]] + RemoveAt(s[1..], i - 1)
  {
    var r, t := RemoveAt(s, i), [s[0]] + RemoveAt(s[1..], i - 1);
    assert |r| == |t|;
    forall k | 0 <= k < |r|
      ensures r[k] == t[k]
    {
      if k > 0 {
        assert t[k] == RemoveAt(s[1..], i - 1)[k - 1];
      }
    }
  }

  lemma {:induction false} RemoveAllAbsent<T(!new)>(s: seq<T>, x: T)
    requires x !in s
    ensures RemoveAll(s, x) == s
  {
    if s != [] {
      assert s == [s[0]] + s[1..];
      RemoveAllAbsent(s[1..], x);
    }
  }

  /** `BlockList.swap_pos` on the id list: the two ids trade places. */
  function SwapSeq<T(==)>(s: seq<T>, a: T, b: T): (r: seq<T>)
    requires a in s && b in s
    ensures |r| == |s| && a in r && b in r
    ensures r[IndexOf(s, a)] == b && r[IndexOf(s, b)] == a
    ensures forall k | 0 <= k < |s| && k != IndexOf(s, a) && k != IndexOf(s, b) :: r[k] == s[k]
  {
    var pa := IndexOf(s, a);
    var pb := IndexOf(s, b);
    var r := s[pa := b][pb := a];
    assert r[pb] == a;
    assert pa != pb ==> r[pa] == b;
    r
  }

  /** `swap_pos` exchanges the positions of the two ids, changes no other entry
      and keeps the list a duplicate-free permutation. */
  lemma SwapExchanges<T>(s: seq<T>, a: T, b: T)
    requires Distinct(s) && a in s && b in s
    ensures var r := SwapSeq(s, a, b);
            && (forall k | 0 <= k < |s| && s[k] != a && s[k] != b :: r[k] == s[k])
            && multiset(r) == multiset(s) && Distinct(r)
            && IndexOf(r, a) == IndexOf(s, b) && IndexOf(r, b) == IndexOf(s, a)
  {
    var pa, pb := IndexOf(s, a), IndexOf(s, b);
    var r := SwapSeq(s, a, b);
    if pa == pb {
      assert r == s;
    } else {
      assert r == s[pa := s[pb]][pb := s[pa]];
      SwapMultiset(s, pa, pb);
      DistinctPermutation(r, s);
      IndexOfDistinct(r, pb);
      IndexOfDistinct(r, pa);
    }
  }

  lemma SwapMultiset<T>(s: seq<T>, i: nat, j: nat)
    requires i < |s| && j < |s| && i != j
    ensures multiset(s[i := s[j]][j := s[i]]) == multiset(s)
  {
    var t := s[i := s[j]];
    assert multiset(t) == multiset(s) - multiset{s[i]} + multiset{s[j]};
    assert multiset(t[j := s[i]]) == multiset(t) - multiset{t[j]} + multiset{s[i]};
  }

  /** Applying `swap_pos` twice with the same ids restores the order. */
  lemma SwapTwice<T>(s: seq<T>, a: T, b: T)
    requires Distinct(s) && a in s && b in s
    ensures SwapSeq(SwapSeq(s, a, b), a, b) == s
  {
    SwapExchanges(s, a, b);
    var r := SwapSeq(s, a, b);
    SwapExchanges(r, a, b);
    var t := SwapSeq(r, a, b);
    forall k | 0 <= k < |s| ensures t[k] == s[k] {
      IndexOfDistinct(s, k);
    }
  }

  // ---------------------------------------------------------------------
  // The block list

  /** The ids 0 .. n-1 each exactly once. */
  ghost predicate IsIdPermutation(order: seq<nat>) {
    Distinct(order) && forall b: nat :: b in order <==> b < |order|
  }

  lemma PermutationOfIds(r: seq<nat>, s: seq<nat>)
    requires IsIdPermutation(s) && multiset(r) == multiset(s)
    ensures IsIdPermutation(r)
  {
    DistinctPermutation(r, s);
    assert |r| == |s| by {
      assert |multiset(r)| == |multiset(s)|;
    }
    forall b: nat ensures b in r <==> b in s {
      assert b in r <==> b in multiset(r);
      assert b in s <==> b in multiset(s);
    }
  }

  class BlockList {
    /** `blocks`: id to block. */
    var blocks: map<nat, Block>
    /** `block_order`: the ids in horizontal order. */
    var order: seq<nat>

    ghost predicate Valid()
      reads this
    {
      && IsIdPermutation(order)
      && (forall b: nat :: b in blocks <==> b in order)
      && (forall b | b in blocks :: blocks[b].id == b)
    }

    constructor ()
      ensures Valid() && blocks == map[] && order == []
    {
      blocks := map[];
      order := [];
    }

    /** `deepcopy(B)`: a new block list with the same blocks and order; the
        blocks are values, so nothing is shared with `other`. */
    constructor CopyOf(other: BlockList)
      requires other.Valid()
      ensures Valid() && blocks == other.blocks && order == other.order
    {
      blocks := other.blocks;
      order := other.order;
    }

    /** `__len__`. */
    function Len(): nat
      reads this
    {
      |order|
    }

    /** `new_block_number`: the id the next added block will get. */
    function NewBlockNumber(): (id: nat)
      reads this
      requires Valid()
      ensures id !in order && id !in blocks
    {
      |order|
    }

    /** `add_block`: the block gets the next consecutive id, is stored under it
        and appended at the right end of the order. */
    method AddBlock(b: Block) returns (id: nat)
      requires Valid()
      modifies this
      ensures Valid()
      ensures id == |old(order)| && order == old(order) + [id]
      ensures blocks == old(blocks)[id := b.(id := id)]
    {
      id := |order|;
      assert id !in order;
      DistinctSnoc(order, id);
      blocks := blocks[id := b.(id := id)];
      order := order + [id];
    }

    /** `pi`: the position of a block id. */
    function Pi(b: nat): (p: nat)
      reads this
      requires b in order
      ensures p < |order| && order[p] == b
    {
      IndexOf(order, b)
    }

    /** `block_from_id`: the block stored under the id, which on a valid
        list carries that id and sits at the id's position. */
    function BlockFromId(b: nat): (blk: Block)
      reads this
      requires b in blocks
      ensures Valid() ==> blk.id == b && b in order && blk == BlockFromPos(Pi(b))
    {
      blocks[b]
    }

    /** `block_from_pos` (also `__getitem__`). */
    function BlockFromPos(p: nat): (blk: Block)
      reads this
      requires Valid() && p < |order|
      ensures blk.id == order[p]
    {
      blocks[order[p]]
    }

    /** `move`: the block is taken out of the order and reinserted at `target`
        (one less when it sat before the target); blocks are unchanged. */
    method Move(b: nat, target: nat)
      requires Valid() && b in order
      modifies this
      ensures Valid()
      ensures order == MoveSeq(old(order), b, target) && blocks == old(blocks)
    {
      PermutationOfIds(MoveSeq(order, b, target), order);
      order := MoveSeq(order, b, target);
    }

    /** `swap_pos`: the two ids exchange their positions. */
    method SwapPos(a: nat, b: nat)
      requires Valid() && a in order && b in order
      modifies this
      ensures Valid()
      ensures order == SwapSeq(old(order), a, b) && blocks == old(blocks)
    {
      SwapExchanges(order, a, b);
      PermutationOfIds(SwapSeq(order, a, b), order);
      order := SwapSeq(order, a, b);
    }
  }

  /** `pi(block_from_pos(p).id) == p`: positions and ids are inverse. */
  lemma PiOfBlockFromPos(bl: BlockList, p: nat)
    requires bl.Valid() && p < |bl.order|
    ensures bl.BlockFromPos(p).id in bl.order && bl.Pi(bl.BlockFromPos(p).id) == p
  {
    IndexOfDistinct(bl.order, p);
  }
}
