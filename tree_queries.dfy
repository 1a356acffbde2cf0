/**
 * Order-based queries over a rooted graph: children, parent and the
 * left/right-most relatives of a node, where every non-root node carries a
 * sibling rank `order` (helper_functions/graph_helper_functions.py).
 */
module TreeQueries {
  import opened Graphs

  /** Every node that has a predecessor carries a sibling rank. */
  predicate Ranked(g: Graph, order: map<Node, int>) {
    forall w | w in g.nodes && InDegree(g, w) > 0 :: w in order
  }

  /** Python's truthiness test on a node identifier: only the empty name is false. */
  predicate Falsy(v: Node) {
    v == Named("")
  }

  /** `children`: the successors of `v` in edge order. */
  function Children(g: Graph, v: Node): (r: seq<Node>)
    ensures forall w :: w in r <==> (v, w) in g.edges
  {
    Successors(g, v)
  }

  /** `_parent`: the first predecessor, or None for a node without one. */
  function Parent(g: Graph, v: Node): (r: Option<Node>)
    ensures r.None? <==> InDegree(g, v) == 0
    ensures r.Some? ==> (r.value, v) in g.edges
  {
    var ps := Predecessors(g, v);
    if ps != [] then Some(ps[0]) else None
  }

  /** In a tree every non-root node has exactly one predecessor, and that is its parent. */
  lemma ParentOfTreeNode(g: Graph, v: Node, p: Node)
    requires Predecessors(g, v) == [p]
    ensures Parent(g, v) == Some(p)
  {
  }

  /** The first entry of `s` whose rank is minimal (the head of a stable sort by rank). */
  function FirstMin(s: seq<Node>, order: map<Node, int>): (r: Node)
    requires s != [] && forall w | w in s :: w in order
    ensures r in s
    ensures forall w | w in s :: order[r] <= order[w]
    ensures forall i | 0 <= i < IndexOf(s, r) :: order[s[i]] > order[r]
  {
    if |s| == 1 then s[0]
    else
      var m := FirstMin(s[1..], order);
      if order[s[0]] <= order[m] then s[0] else
        assert forall i | 1 <= i < |s| :: s[i] == s[1..][i - 1];
        m
  }

  /** Position of the last entry of `s` whose rank is maximal (the tail of a stable sort by rank). */
  function LastMaxIndex(s: seq<Node>, order: map<Node, int>): (k: nat)
    requires s != [] && forall w | w in s :: w in order
    ensures k < |s|
    ensures forall i | 0 <= i < |s| :: order[s[i]] <= order[s[k]]
    ensures forall i | k < i < |s| :: order[s[i]] < order[s[k]]
  {
    if |s| == 1 then 0
    else
      var k := LastMaxIndex(s[1..], order) + 1;
      assert forall i | 1 <= i < |s| :: s[i] == s[1..][i - 1];
      if order[s[0]] > order[s[k]] then 0 else k
  }

  /** The entries of `s` whose rank is strictly below `bound`, in their order. */
  function RankedBelow(s: seq<Node>, order: map<Node, int>, bound: int): (r: seq<Node>)
    requires forall w | w in s :: w in order
    ensures forall w :: w in r <==> w in s && order[w] < bound
  {
    if s == [] then []
    else
      assert s == [s[0]] + s[1..];
      (if order[s[0]] < bound then [s[0]] else []) + RankedBelow(s[1..], order, bound)
  }

  /** The first entry of `s` whose rank is exactly `rank`. */
  function FindRank(s: seq<Node>, order: map<Node, int>, rank: int): (r: Option<Node>)
    requires forall w | w in s :: w in order
    ensures r.None? <==> forall w | w in s :: order[w] != rank
    ensures r.Some? ==> r.value in s && order[r.value] == rank
  {
    if s == [] then None
    else if order[s[0]] == rank then Some(s[0])
    else FindRank(s[1..], order, rank)
  }

  /** `left_siblings`: the child of v's parent whose rank is one less than v's;
      None when v has no (or a falsy) parent or no such child exists. */
  function LeftSibling(g: Graph, order: map<Node, int>, v: Node): (r: Option<Node>)
    requires Valid(g) && Ranked(g, order)
    ensures r.Some? <==> Parent(g, v).Some? && !Falsy(Parent(g, v).value)
                         && exists w | w in Children(g, Parent(g, v).value) :: order[w] == order[v] - 1
    ensures r.Some? ==> r.value in Children(g, Parent(g, v).value) && order[r.value] == order[v] - 1
  {
    match Parent(g, v)
    case None => None
    case Some(p) =>
      if Falsy(p) then None
      else
        assert v in g.nodes && InDegree(g, v) > 0;
        ChildrenRanked(g, order, p);
        FindRank(Children(g, p), order, order[v] - 1)
  }

  lemma ChildrenRanked(g: Graph, order: map<Node, int>, p: Node)
    requires Valid(g) && Ranked(g, order)
    ensures forall w | w in Children(g, p) :: w in order
  {
    forall w | w in Children(g, p) ensures w in order {
      assert (p, w) in g.edges;
      InDegreeZero(g, w);
    }
  }

  /** `leftmost_sibling`: among the children of v's parent ranked strictly before v,
      the one of least rank (first such in child order); None for a root, a node
      with a falsy parent, or the least-ranked child. */
  function LeftmostSibling(g: Graph, order: map<Node, int>, v: Node): (r: Option<Node>)
    requires Valid(g) && Ranked(g, order)
    ensures r.Some? <==> Parent(g, v).Some? && !Falsy(Parent(g, v).value)
                         && exists w | w in Children(g, Parent(g, v).value) :: order[w] < order[v]
    ensures r.Some? ==> var sibs := Children(g, Parent(g, v).value);
                        && r.value in sibs && order[r.value] < order[v]
                        && forall w | w in sibs && order[w] < order[v] :: order[r.value] <= order[w]
  {
    match Parent(g, v)
    case None => None
    case Some(p) =>
      if Falsy(p) then None
      else
        assert v in g.nodes && InDegree(g, v) > 0;
        ChildrenRanked(g, order, p);
        var left := RankedBelow(Children(g, p), order, order[v]);
        if left == [] then None else Some(FirstMin(left, order))
  }

  /** `leftmost_child`: the child of least rank (first such in child order), None for a leaf. */
  function LeftmostChild(g: Graph, order: map<Node, int>, v: Node): (r: Option<Node>)
    requires Valid(g) && Ranked(g, order)
    ensures r.None? <==> Children(g, v) == []
    ensures r.Some? ==> r.value in Children(g, v) && forall w | w in Children(g, v) :: order[r.value] <= order[w]
  {
    ChildrenRanked(g, order, v);
    var ch := Children(g, v);
    if ch == [] then None else Some(FirstMin(ch, order))
  }

  /** `rightmost_child`: the child of greatest rank (last such in child order), None for a leaf. */
  function RightmostChild(g: Graph, order: map<Node, int>, v: Node): (r: Option<Node>)
    requires Valid(g) && Ranked(g, order)
    ensures r.None? <==> Children(g, v) == []
    ensures r.Some? ==> r.value in Children(g, v) && forall w | w in Children(g, v) :: order[w] <= order[r.value]
  {
    ChildrenRanked(g, order, v);
    var ch := Children(g, v);
    if ch == [] then None else Some(ch[LastMaxIndex(ch, order)])
  }

  /** A node has a leftmost child exactly when it has a rightmost one, and the
      leftmost is ranked no later than the rightmost. */
  lemma LeftmostNotAfterRightmost(g: Graph, order: map<Node, int>, v: Node)
    requires Valid(g) && Ranked(g, order)
    ensures LeftmostChild(g, order, v).Some? <==> RightmostChild(g, order, v).Some?
    ensures LeftmostChild(g, order, v).Some? ==>
              order[LeftmostChild(g, order, v).value] <= order[RightmostChild(g, order, v).value]
  {
  }

  /** Whenever v has a direct left sibling it also has a leftmost one, ranked no later. */
  lemma LeftSiblingHasLeftmost(g: Graph, order: map<Node, int>, v: Node)
    requires Valid(g) && Ranked(g, order)
    requires LeftSibling(g, order, v).Some?
    ensures LeftmostSibling(g, order, v).Some?
    ensures order[LeftmostSibling(g, order, v).value] <= order[LeftSibling(g, order, v).value]
  {
    var w := LeftSibling(g, order, v).value;
    assert w in Children(g, Parent(g, v).value) && order[w] < order[v];
  }
}
