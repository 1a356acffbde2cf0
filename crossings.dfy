/**
 * The crossing-change count of global sifting (algos/global_shift.py, the
 * inner function `uswap` of `sifting_swap`).
 *
 * Block A stands directly left of block B.  For a neighbour a of A and a
 * neighbour b of B (on the same side), the edges A–a and B–b cross now when a
 * stands right of b, and cross after A and B trade places when a stands left
 * of b.  `uswap` merges the two neighbour lists, each sorted by the horizontal
 * position of the neighbour's block, and returns how many more crossings the
 * swap would create than remove.
 */
module Crossings {
  import opened Graphs
  import opened NeighbourLists

  // ---------------------------------------------------------------------
  // The reference count: one term per pair of neighbours

  /** Change in crossing of one pair when the swap happens: +1 if it starts to
      cross, -1 if it stops, 0 for a shared neighbour block. */
  function Sgn(x: int, y: int): int {
    if x < y then 1 else if x > y then -1 else 0
  }

  /** Sum of `Sgn(x, y)` over the entries y of `b`. */
  function Row(x: int, b: seq<int>): int {
    if b == [] then 0 else Sgn(x, b[0]) + Row(x, b[1..])
  }

  /** Sum of `Sgn(x, y)` over the entries x of `a`. */
  function Col(a: seq<int>, y: int): int {
    if a == [] then 0 else Sgn(a[0], y) + Col(a[1..], y)
  }

  /** The crossing change of swapping A past B, summed over every pair of
      neighbour positions. */
  function Pairs(a: seq<int>, b: seq<int>): int {
    if a == [] then 0 else Row(a[0], b) + Pairs(a[1..], b)
  }

  predicate StrictlyIncreasing(s: seq<int>) {
    forall i, j | 0 <= i < j < |s| :: s[i] < s[j]
  }

  lemma {:induction false} PairsSplitCol(a: seq<int>, b: seq<int>)
    requires b != []
    ensures Pairs(a, b) == Col(a, b[0]) + Pairs(a, b[1..])
  {
    if a != [] {
      PairsSplitCol(a[1..], b);
    }
  }

  lemma {:induction false} PairsEmptyRight(a: seq<int>)
    ensures Pairs(a, []) == 0
  {
    if a != [] {
      PairsEmptyRight(a[1..]);
    }
  }

  lemma {:induction false} RowAllAbove(x: int, b: seq<int>)
    requires forall k | 0 <= k < |b| :: x < b[k]
    ensures Row(x, b) == |b|
  {
    if b != [] {
      RowAllAbove(x, b[1..]);
    }
  }

  lemma {:induction false} RowAllBelow(x: int, b: seq<int>)
    requires forall k | 0 <= k < |b| :: x > b[k]
    ensures Row(x, b) == -|b|
  {
    if b != [] {
      RowAllBelow(x, b[1..]);
    }
  }

  lemma {:induction false} ColAllAbove(a: seq<int>, y: int)
    requires forall k | 0 <= k < |a| :: a[k] > y
    ensures Col(a, y) == -|a|
  {
    if a != [] {
      ColAllAbove(a[1..], y);
    }
  }

  lemma {:induction false} RowIsNegatedCol(x: int, b: seq<int>)
    ensures Row(x, b) == -Col(b, x)
  {
    if b != [] {
      RowIsNegatedCol(x, b[1..]);
    }
  }

  /** Swapping B past A undoes the crossing change of swapping A past B. */
  lemma {:induction false} PairsAntisymmetric(a: seq<int>, b: seq<int>)
    ensures Pairs(a, b) == -Pairs(b, a)
  {
    if a == [] {
      PairsEmptyRight(b);
    } else {
      PairsAntisymmetric(a[1..], b);
      PairsSplitCol(b, a);
      RowIsNegatedCol(a[0], b);
    }
  }

  /** When every neighbour of A stands before every neighbour of B, all r*s pairs
      start to cross. */
  lemma {:induction false} PairsAllBefore(a: seq<int>, b: seq<int>)
    requires forall i, j | 0 <= i < |a| && 0 <= j < |b| :: a[i] < b[j]
    ensures Pairs(a, b) == |a| * |b|
  {
    if a != [] {
      RowAllAbove(a[0], b);
      PairsAllBefore(a[1..], b);
      assert |a| * |b| == |b| + (|a| - 1) * |b| by {
        assert |a| * |b| == (1 + (|a| - 1)) * |b|;
      }
    }
  }

  /** When every neighbour of A stands after every neighbour of B, all r*s
      crossings disappear. */
  lemma PairsAllAfter(a: seq<int>, b: seq<int>)
    requires forall i, j | 0 <= i < |a| && 0 <= j < |b| :: a[i] > b[j]
    ensures Pairs(a, b) == -(|a| * |b|)
  {
    PairsAllBefore(b, a);
    PairsAntisymmetric(a, b);
  }

  // ---------------------------------------------------------------------
  // The merge, as the source writes it and as it is evidently meant

  /** r*s with one row, one column, or both split off. */
  lemma ProductSteps(r: int, s: int)
    ensures r * s == (r - 1) * s + s == r * (s - 1) + r
    ensures r * s == (r - 1) * (s - 1) + r + s - 1
  {
  }

  /** The merge of `uswap` from pointers i, j, with the tie branch exactly as
      written: `c += s - j - r - i`.  At a tie it adds `2 * i` less than the
      intended merge, so it never counts more. */
  function AsWrittenFrom(a: seq<int>, b: seq<int>, i: nat, j: nat): (c: int)
    requires i <= |a| && j <= |b|
    ensures c <= MergeFrom(a, b, i, j)
    decreases |a| - i + |b| - j
  {
    if i == |a| || j == |b| then 0
    else if a[i] < b[j] then (|b| - j) + AsWrittenFrom(a, b, i + 1, j)
    else if a[i] > b[j] then -(|a| - i) + AsWrittenFrom(a, b, i, j + 1)
    else (|b| - j - |a| - i) + AsWrittenFrom(a, b, i + 1, j + 1)
  }

  /** The merge of `uswap` from pointers i, j, with the tie branch adding what
      remains of b minus what remains of a: `(s - j) - (r - i)`.  The r*s
      pairs of the remaining entries change by at most r*s crossings. */
  function MergeFrom(a: seq<int>, b: seq<int>, i: nat, j: nat): (c: int)
    requires i <= |a| && j <= |b|
    ensures -((|a| - i) * (|b| - j)) <= c <= (|a| - i) * (|b| - j)
    decreases |a| - i + |b| - j
  {
    if i == |a| || j == |b| then 0
    else
      ProductSteps(|a| - i, |b| - j);
      if a[i] < b[j] then (|b| - j) + MergeFrom(a, b, i + 1, j)
      else if a[i] > b[j] then -(|a| - i) + MergeFrom(a, b, i, j + 1)
      else ((|b| - j) - (|a| - i)) + MergeFrom(a, b, i + 1, j + 1)
  }

  /** On strictly increasing neighbour positions the merge counts every pair:
      it is the crossing change of the swap. */
  lemma {:induction false} MergeCountsPairs(a: seq<int>, b: seq<int>, i: nat, j: nat)
    requires i <= |a| && j <= |b|
    requires StrictlyIncreasing(a) && StrictlyIncreasing(b)
    ensures MergeFrom(a, b, i, j) == Pairs(a[i..], b[j..])
    decreases |a| - i + |b| - j
  {
    if i == |a| {
      assert a[i..] == [];
    } else if j == |b| {
      assert b[j..] == [];
      PairsEmptyRight(a[i..]);
    } else {
      assert a[i..][0] == a[i] && a[i..][1..] == a[i + 1..];
      assert b[j..][0] == b[j] && b[j..][1..] == b[j + 1..];
      if a[i] < b[j] {
        MergeCountsPairs(a, b, i + 1, j);
        RowAllAbove(a[i], b[j..]);
      } else if a[i] > b[j] {
        MergeCountsPairs(a, b, i, j + 1);
        PairsSplitCol(a[i..], b[j..]);
        ColAllAbove(a[i..], b[j]);
      } else {
        MergeCountsPairs(a, b, i + 1, j + 1);
        RowAllAbove(a[i], b[j + 1..]);
        assert Row(a[i], b[j..]) == |b| - j - 1;
        PairsSplitCol(a[i + 1..], b[j..]);
        ColAllAbove(a[i + 1..], b[j]);
      }
    }
  }

  /** Without a shared neighbour block the tie branch is never taken, and the
      code as written agrees with the intended merge. */
  lemma {:induction false} NoTieAgrees(a: seq<int>, b: seq<int>, i: nat, j: nat)
    requires i <= |a| && j <= |b|
    requires forall x, y | 0 <= x < |a| && 0 <= y < |b| :: a[x] != b[y]
    ensures AsWrittenFrom(a, b, i, j) == MergeFrom(a, b, i, j)
    decreases |a| - i + |b| - j
  {
    if i < |a| && j < |b| {
      if a[i] < b[j] {
        NoTieAgrees(a, b, i + 1, j);
      } else {
        NoTieAgrees(a, b, i, j + 1);
      }
    }
  }

  /** Without a shared neighbour block, the code as written is antisymmetric. */
  lemma AsWrittenAntisymmetricWithoutTies(a: seq<int>, b: seq<int>)
    requires StrictlyIncreasing(a) && StrictlyIncreasing(b)
    requires forall x, y | 0 <= x < |a| && 0 <= y < |b| :: a[x] != b[y]
    ensures AsWrittenFrom(a, b, 0, 0) == -AsWrittenFrom(b, a, 0, 0)
  {
    NoTieAgrees(a, b, 0, 0);
    NoTieAgrees(b, a, 0, 0);
    MergeCountsPairs(a, b, 0, 0);
    MergeCountsPairs(b, a, 0, 0);
    assert a[0..] == a && b[0..] == b;
    PairsAntisymmetric(a, b);
  }

  /** The tie branch as written miscounts once the left pointer has moved:
      A's neighbours at positions 0 and 5, B's neighbour at 5.  The pair (0,5)
      starts to cross and the pair (5,5) shares a block, so the swap adds one
      crossing; the code as written reports -1. */
  lemma AsWrittenMiscountsTie()
    ensures Pairs([0, 5], [5]) == 1
    ensures MergeFrom([0, 5], [5], 0, 0) == 1
    ensures AsWrittenFrom([0, 5], [5], 0, 0) == -1
  {
    var a, b := [0, 5], [5];
    assert a[1..] == [5] && b[1..] == [];
    assert Row(0, b) == 1 && Row(5, b) == 0;
    assert AsWrittenFrom(a, b, 1, 0) == -2;
    assert MergeFrom(a, b, 1, 0) == 0;
  }

  // ---------------------------------------------------------------------
  // The merge over node names

  /** The horizontal position of each name's block: `B_.pi(G.block(n))`. */
  function Positions(ns: seq<Node>, order: seq<nat>, blockOf: map<Node, nat>): (ps: seq<int>)
    requires Placed(ns, blockOf, order)
    ensures |ps| == |ns|
    ensures forall k | 0 <= k < |ns| :: 0 <= ps[k] < |order| && order[ps[k]] == blockOf[ns[k]]
  {
    seq(|ns|, k requires 0 <= k < |ns| => IndexOf(order, blockOf[ns[k]]))
  }

  /** `uswap(n_a, n_b)` with the tie branch corrected: two pointers advance
      until one list is exhausted.  On lists sorted strictly by block position
      the result is the crossing change of the swap, pair by pair. */
  method USwap(na: seq<Node>, nb: seq<Node>, order: seq<nat>, blockOf: map<Node, nat>) returns (c: int)
    requires Placed(na, blockOf, order) && Placed(nb, blockOf, order)
    ensures c == MergeFrom(Positions(na, order, blockOf), Positions(nb, order, blockOf), 0, 0)
    ensures var pa, pb := Positions(na, order, blockOf), Positions(nb, order, blockOf);
            StrictlyIncreasing(pa) && StrictlyIncreasing(pb) ==> c == Pairs(pa, pb)
  {
    var pa, pb := Positions(na, order, blockOf), Positions(nb, order, blockOf);
    var i, j := 0, 0;
    c := 0;
    var s, r := |nb|, |na|;
    while i < r && j < s
      invariant 0 <= i <= r && 0 <= j <= s
      invariant c + MergeFrom(pa, pb, i, j) == MergeFrom(pa, pb, 0, 0)
      decreases r - i + s - j
    {
      var ra := IndexOf(order, blockOf[na[i]]);
      var rb := IndexOf(order, blockOf[nb[j]]);
      if ra < rb {
        c := c + (s - j);
        i := i + 1;
      } else if ra > rb {
        c := c - (r - i);
        j := j + 1;
      } else {
        c := c + ((s - j) - (r - i));
        i := i + 1;
        j := j + 1;
      }
    }
    if StrictlyIncreasing(pa) && StrictlyIncreasing(pb) {
      MergeCountsPairs(pa, pb, 0, 0);
      assert pa[0..] == pa && pb[0..] == pb;
    }
  }

  /** `uswap` of an empty list is 0; of lists where A's neighbours all stand
      before B's it is r*s, and -r*s in the opposite case. */
  lemma USwapExtremes(pa: seq<int>, pb: seq<int>)
    requires StrictlyIncreasing(pa) && StrictlyIncreasing(pb)
    ensures pa == [] || pb == [] ==> MergeFrom(pa, pb, 0, 0) == 0
    ensures (forall i, j | 0 <= i < |pa| && 0 <= j < |pb| :: pa[i] < pb[j]) ==>
              MergeFrom(pa, pb, 0, 0) == |pa| * |pb|
    ensures (forall i, j | 0 <= i < |pa| && 0 <= j < |pb| :: pa[i] > pb[j]) ==>
              MergeFrom(pa, pb, 0, 0) == -(|pa| * |pb|)
  {
    MergeCountsPairs(pa, pb, 0, 0);
    assert pa[0..] == pa && pb[0..] == pb;
    if forall i, j | 0 <= i < |pa| && 0 <= j < |pb| :: pa[i] < pb[j] {
      PairsAllBefore(pa, pb);
    }
    if forall i, j | 0 <= i < |pa| && 0 <= j < |pb| :: pa[i] > pb[j] {
      PairsAllAfter(pa, pb);
    }
  }

  /** `uswap(a, b) == -uswap(b, a)` on sorted lists, shared neighbour blocks included. */
  lemma USwapAntisymmetric(pa: seq<int>, pb: seq<int>)
    requires StrictlyIncreasing(pa) && StrictlyIncreasing(pb)
    ensures MergeFrom(pa, pb, 0, 0) == -MergeFrom(pb, pa, 0, 0)
  {
    MergeCountsPairs(pa, pb, 0, 0);
    MergeCountsPairs(pb, pa, 0, 0);
    assert pa[0..] == pa && pb[0..] == pb;
    PairsAntisymmetric(pa, pb);
  }
}
