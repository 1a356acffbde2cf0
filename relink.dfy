/**
 * `update_adjacencies` (algos/global_shift.py) keeps the neighbour lists
 * linked: when A and B share a neighbour block z, the tie branch exchanges
 * the two entries of z's list that name A and B together with their
 * indices, and points A's and B's indices at the new places, so every
 * entry and its index still point at each other.  On linked lists the
 * tie branch never raises.
 */
module TieLinks {
  import opened Graphs
  import opened Blocks
  import opened NeighbourLists
  import opened Crossings
  import opened NeighbourLinks
  import opened Sifting

  /** No block names one of its own nodes as a neighbour: an edge between
      blocks always joins two different blocks. */
  predicate Apart(m: map<nat, Block>, order: seq<nat>, blockOf: map<Node, nat>) {
    && Ready(m, order)
    && (forall id, k | id in order && 0 <= k < |m[id].succs| ::
          m[id].succs[k] in blockOf ==> blockOf[m[id].succs[k]] != id)
    && (forall id, k | id in order && 0 <= k < |m[id].preds| ::
          m[id].preds[k] in blockOf ==> blockOf[m[id].preds[k]] != id)
  }

  /** The state the sifting passes work on: linked lists, blocks that own
      their ends, no block its own neighbour. */
  predicate Linked(m: map<nat, Block>, order: seq<nat>, blockOf: map<Node, nat>) {
    Reciprocal(m, order, blockOf) && EndsOwned(m, order, blockOf) && Apart(m, order, blockOf)
  }

  // ---------------------------------------------------------------------
  // The tie branch on the upper neighbours (Up)

  /** What the tie branch needs on the Up side: A's entry i and B's entry j
      of `n_n` both name the block z, other than A and B. */
  predicate TieUpReady(m: map<nat, Block>, order: seq<nat>, blockOf: map<Node, nat>, a: nat, b: nat, z: nat, i: nat, j: nat) {
    && Linked(m, order, blockOf)
    && a in order && b in order && z in order && a != b && z != a && z != b
    && i < |m[a].preds| && j < |m[b].preds| && i < |m[a].predIdx| && j < |m[b].predIdx|
    && m[a].preds[i] in blockOf && blockOf[m[a].preds[i]] == z
    && m[b].preds[j] in blockOf && blockOf[m[b].preds[j]] == z
  }

  /** The blocks after the tie branch on the Up side: in z's `n_p` and
      `i_p` the entries ka and kb trade places, A's `i_n[i]` becomes kb and
      B's `i_n[j]` becomes ka; nothing else changes. */
  predicate TiedUp(m: map<nat, Block>, m2: map<nat, Block>, a: nat, b: nat, z: nat, i: nat, j: nat, ka: nat, kb: nat)
    requires a in m && b in m && z in m && i < |m[a].predIdx| && j < |m[b].predIdx|
    requires ka < |m[z].succs| && kb < |m[z].succs| && ka < |m[z].succIdx| && kb < |m[z].succIdx|
  {
    && m2.Keys == m.Keys
    && m2[z] == m[z].(succs := Exchange(m[z].succs, ka, kb), succIdx := Exchange(m[z].succIdx, ka, kb))
    && m2[a] == m[a].(predIdx := m[a].predIdx[i := kb])
    && m2[b] == m[b].(predIdx := m[b].predIdx[j := ka])
    && forall k | k in m && k != z && k != a && k != b :: m2[k] == m[k]
  }

  /** A's and B's entries point into z's `n_p` at the places of their upper
      nodes, so the tie branch is defined and does what TiedUp says. */
  lemma TieUpShape(m: map<nat, Block>, order: seq<nat>, blockOf: map<Node, nat>, a: nat, b: nat, z: nat, i: nat, j: nat)
    returns (ka: nat, kb: nat)
    requires TieUpReady(m, order, blockOf, a, b, z, i, j)
    ensures ka == m[a].predIdx[i] && kb == m[b].predIdx[j] && ka != kb
    ensures ka < |m[z].succs| && kb < |m[z].succs| && ka < |m[z].succIdx| && kb < |m[z].succIdx|
    ensures m[z].succs[ka] == m[a].Upper() && m[z].succIdx[ka] == i
    ensures m[z].succs[kb] == m[b].Upper() && m[z].succIdx[kb] == j
    ensures var r := TieSwap(m, a, b, z, Up, i, j);
      r.Some? && TiedUp(m, r.value, a, b, z, i, j, ka, kb)
  {
    assert PredLinked(m, blockOf, m[a], i);
    assert PredLinked(m, blockOf, m[b], j);
    ka, kb := m[a].predIdx[i], m[b].predIdx[j];
    assert m[a].Upper() != m[b].Upper();
    var l := TieLists(m, a, b, z, Up);
    assert SwapDefined(l, i, j);
  }

  /** After the Up tie branch, every successor entry is still linked. */
  lemma TieUpSucc(m: map<nat, Block>, m2: map<nat, Block>, order: seq<nat>, blockOf: map<Node, nat>,
                  a: nat, b: nat, z: nat, i: nat, j: nat, ka: nat, kb: nat, w: nat, k: nat)
    requires TieUpReady(m, order, blockOf, a, b, z, i, j)
    requires ka == m[a].predIdx[i] && kb == m[b].predIdx[j] && ka != kb
    requires ka < |m[z].succs| && kb < |m[z].succs| && ka < |m[z].succIdx| && kb < |m[z].succIdx|
    requires m[z].succs[ka] == m[a].Upper() && m[z].succIdx[ka] == i
    requires m[z].succs[kb] == m[b].Upper() && m[z].succIdx[kb] == j
    requires TiedUp(m, m2, a, b, z, i, j, ka, kb)
    requires w in order && k < |m2[w].succs|
    ensures SuccLinked(m2, blockOf, m2[w], k)
  {
    if w == z && (k == ka || k == kb) {
      TieUpSuccMoved(m, m2, order, blockOf, a, b, z, i, j, ka, kb, w, k);
    } else {
      TieUpSuccKept(m, m2, order, blockOf, a, b, z, i, j, ka, kb, w, k);
    }
  }

  /** The two entries of z that traded places. */
  lemma TieUpSuccMoved(m: map<nat, Block>, m2: map<nat, Block>, order: seq<nat>, blockOf: map<Node, nat>,
                       a: nat, b: nat, z: nat, i: nat, j: nat, ka: nat, kb: nat, w: nat, k: nat)
    requires TieUpReady(m, order, blockOf, a, b, z, i, j)
    requires ka == m[a].predIdx[i] && kb == m[b].predIdx[j] && ka != kb
    requires ka < |m[z].succs| && kb < |m[z].succs| && ka < |m[z].succIdx| && kb < |m[z].succIdx|
    requires m[z].succs[ka] == m[a].Upper() && m[z].succIdx[ka] == i
    requires m[z].succs[kb] == m[b].Upper() && m[z].succIdx[kb] == j
    requires TiedUp(m, m2, a, b, z, i, j, ka, kb)
    requires w in order && k < |m2[w].succs|
    requires w == z && (k == ka || k == kb)
    ensures SuccLinked(m2, blockOf, m2[w], k)
  {
    assert m2[w].nodes == m[w].nodes;
    if k == ka {
      assert SuccLinked(m, blockOf, m[z], kb);
    } else {
      assert SuccLinked(m, blockOf, m[z], ka);
    }
  }

  /** Every other successor entry: it and its index stay, and so does the
      entry it points at. */
  lemma TieUpSuccKept(m: map<nat, Block>, m2: map<nat, Block>, order: seq<nat>, blockOf: map<Node, nat>,
                      a: nat, b: nat, z: nat, i: nat, j: nat, ka: nat, kb: nat, w: nat, k: nat)
    requires TieUpReady(m, order, blockOf, a, b, z, i, j)
    requires ka == m[a].predIdx[i] && kb == m[b].predIdx[j] && ka != kb
    requires ka < |m[z].succs| && kb < |m[z].succs| && ka < |m[z].succIdx| && kb < |m[z].succIdx|
    requires m[z].succs[ka] == m[a].Upper() && m[z].succIdx[ka] == i
    requires m[z].succs[kb] == m[b].Upper() && m[z].succIdx[kb] == j
    requires TiedUp(m, m2, a, b, z, i, j, ka, kb)
    requires w in order && k < |m2[w].succs|
    requires !(w == z && (k == ka || k == kb))
    ensures SuccLinked(m2, blockOf, m2[w], k)
  {
    assert m2[w].nodes == m[w].nodes;
    assert SuccLinked(m, blockOf, m[w], k);
    assert m2[w].succs[k] == m[w].succs[k] && m2[w].succIdx[k] == m[w].succIdx[k];
    var v := m[w].succs[k];
    var t := m[w].succIdx[k];
    assert m[w].Lower() in blockOf && blockOf[m[w].Lower()] == w;
    assert blockOf[v] == a ==> t != i;
    assert blockOf[v] == b ==> t != j;
  }

  /** After the Up tie branch, every predecessor entry is still linked. */
  lemma TieUpPred(m: map<nat, Block>, m2: map<nat, Block>, order: seq<nat>, blockOf: map<Node, nat>,
                  a: nat, b: nat, z: nat, i: nat, j: nat, ka: nat, kb: nat, w: nat, k: nat)
    requires TieUpReady(m, order, blockOf, a, b, z, i, j)
    requires ka == m[a].predIdx[i] && kb == m[b].predIdx[j] && ka != kb
    requires ka < |m[z].succs| && kb < |m[z].succs| && ka < |m[z].succIdx| && kb < |m[z].succIdx|
    requires m[z].succs[ka] == m[a].Upper() && m[z].succIdx[ka] == i
    requires m[z].succs[kb] == m[b].Upper() && m[z].succIdx[kb] == j
    requires TiedUp(m, m2, a, b, z, i, j, ka, kb)
    requires w in order && k < |m2[w].preds|
    ensures PredLinked(m2, blockOf, m2[w], k)
  {
    assert m2[w].nodes == m[w].nodes && m2[w].preds == m[w].preds;
    assert PredLinked(m, blockOf, m[w], k);
    assert m[w].Upper() in blockOf && blockOf[m[w].Upper()] == w;
    assert m[a].Upper() in blockOf && blockOf[m[a].Upper()] == a;
    assert m[b].Upper() in blockOf && blockOf[m[b].Upper()] == b;
    if (w == a && k == i) || (w == b && k == j) {
    } else {
      assert m2[w].predIdx[k] == m[w].predIdx[k];
    }
  }

  /** The Up tie branch keeps the lists linked. */
  lemma TieUpLinked(m: map<nat, Block>, order: seq<nat>, blockOf: map<Node, nat>, a: nat, b: nat, z: nat, i: nat, j: nat)
    requires TieUpReady(m, order, blockOf, a, b, z, i, j)
    ensures var r := TieSwap(m, a, b, z, Up, i, j);
      r.Some? && Linked(r.value, order, blockOf)
  {
    var ka, kb := TieUpShape(m, order, blockOf, a, b, z, i, j);
    var m2 := TieSwap(m, a, b, z, Up, i, j).value;
    forall id | id in order ensures id in m2 && m2[id].nodes == m[id].nodes {
    }
    forall id, k | id in order && 0 <= k < |m2[id].succs| ensures SuccLinked(m2, blockOf, m2[id], k) {
      TieUpSucc(m, m2, order, blockOf, a, b, z, i, j, ka, kb, id, k);
    }
    forall id, k | id in order && 0 <= k < |m2[id].preds| ensures PredLinked(m2, blockOf, m2[id], k) {
      TieUpPred(m, m2, order, blockOf, a, b, z, i, j, ka, kb, id, k);
    }
    TieUpApart(m, m2, order, blockOf, a, b, z, i, j, ka, kb);
  }

  /** The Up tie branch only reorders z's `n_p`, so no block becomes its own
      neighbour. */
  lemma TieUpApart(m: map<nat, Block>, m2: map<nat, Block>, order: seq<nat>, blockOf: map<Node, nat>,
                   a: nat, b: nat, z: nat, i: nat, j: nat, ka: nat, kb: nat)
    requires TieUpReady(m, order, blockOf, a, b, z, i, j)
    requires ka < |m[z].succs| && kb < |m[z].succs| && ka < |m[z].succIdx| && kb < |m[z].succIdx|
    requires TiedUp(m, m2, a, b, z, i, j, ka, kb)
    ensures Ready(m2, order) && EndsOwned(m2, order, blockOf) && Apart(m2, order, blockOf)
  {
    forall id | id in order ensures id in m2 && m2[id].nodes == m[id].nodes && m2[id].preds == m[id].preds {
    }
    forall id, k | id in order && 0 <= k < |m2[id].succs| && m2[id].succs[k] in blockOf
      ensures blockOf[m2[id].succs[k]] != id
    {
      if id == z {
        var k' := if k == ka then kb else if k == kb then ka else k;
        assert m2[id].succs[k] == m[id].succs[k'];
      }
    }
  }

  // ---------------------------------------------------------------------
  // The tie branch on the lower neighbours (Down)

  /** What the tie branch needs on the Down side: A's entry i and B's entry j
      of `n_p` both name the block z, other than A and B. */
  predicate TieDownReady(m: map<nat, Block>, order: seq<nat>, blockOf: map<Node, nat>, a: nat, b: nat, z: nat, i: nat, j: nat) {
    && Linked(m, order, blockOf)
    && a in order && b in order && z in order && a != b && z != a && z != b
    && i < |m[a].succs| && j < |m[b].succs| && i < |m[a].succIdx| && j < |m[b].succIdx|
    && m[a].succs[i] in blockOf && blockOf[m[a].succs[i]] == z
    && m[b].succs[j] in blockOf && blockOf[m[b].succs[j]] == z
  }

  /** The blocks after the tie branch on the Down side: in z's `n_n` and
      `i_n` the entries ka and kb trade places, A's `i_p[i]` becomes kb and
      B's `i_p[j]` becomes ka; nothing else changes. */
  predicate TiedDown(m: map<nat, Block>, m2: map<nat, Block>, a: nat, b: nat, z: nat, i: nat, j: nat, ka: nat, kb: nat)
    requires a in m && b in m && z in m && i < |m[a].succIdx| && j < |m[b].succIdx|
    requires ka < |m[z].preds| && kb < |m[z].preds| && ka < |m[z].predIdx| && kb < |m[z].predIdx|
  {
    && m2.Keys == m.Keys
    && m2[z] == m[z].(preds := Exchange(m[z].preds, ka, kb), predIdx := Exchange(m[z].predIdx, ka, kb))
    && m2[a] == m[a].(succIdx := m[a].succIdx[i := kb])
    && m2[b] == m[b].(succIdx := m[b].succIdx[j := ka])
    && forall k | k in m && k != z && k != a && k != b :: m2[k] == m[k]
  }

  /** A's and B's entries point into z's `n_n` at the places of their lower
      nodes, so the tie branch is defined and does what TiedDown says. */
  lemma TieDownShape(m: map<nat, Block>, order: seq<nat>, blockOf: map<Node, nat>, a: nat, b: nat, z: nat, i: nat, j: nat)
    returns (ka: nat, kb: nat)
    requires TieDownReady(m, order, blockOf, a, b, z, i, j)
    ensures ka == m[a].succIdx[i] && kb == m[b].succIdx[j] && ka != kb
    ensures ka < |m[z].preds| && kb < |m[z].preds| && ka < |m[z].predIdx| && kb < |m[z].predIdx|
    ensures m[z].preds[ka] == m[a].Lower() && m[z].predIdx[ka] == i
    ensures m[z].preds[kb] == m[b].Lower() && m[z].predIdx[kb] == j
    ensures var r := TieSwap(m, a, b, z, Down, i, j);
      r.Some? && TiedDown(m, r.value, a, b, z, i, j, ka, kb)
  {
    assert SuccLinked(m, blockOf, m[a], i);
    assert SuccLinked(m, blockOf, m[b], j);
    ka, kb := m[a].succIdx[i], m[b].succIdx[j];
    assert m[a].Lower() != m[b].Lower();
    var l := TieLists(m, a, b, z, Down);
    assert SwapDefined(l, i, j);
  }

  /** After the Down tie branch, every predecessor entry is still linked. */
  lemma TieDownPred(m: map<nat, Block>, m2: map<nat, Block>, order: seq<nat>, blockOf: map<Node, nat>,
                    a: nat, b: nat, z: nat, i: nat, j: nat, ka: nat, kb: nat, w: nat, k: nat)
    requires TieDownReady(m, order, blockOf, a, b, z, i, j)
    requires ka == m[a].succIdx[i] && kb == m[b].succIdx[j] && ka != kb
    requires ka < |m[z].preds| && kb < |m[z].preds| && ka < |m[z].predIdx| && kb < |m[z].predIdx|
    requires m[z].preds[ka] == m[a].Lower() && m[z].predIdx[ka] == i
    requires m[z].preds[kb] == m[b].Lower() && m[z].predIdx[kb] == j
    requires TiedDown(m, m2, a, b, z, i, j, ka, kb)
    requires w in order && k < |m2[w].preds|
    ensures PredLinked(m2, blockOf, m2[w], k)
  {
    if w == z && (k == ka || k == kb) {
      TieDownPredMoved(m, m2, order, blockOf, a, b, z, i, j, ka, kb, w, k);
    } else {
      TieDownPredKept(m, m2, order, blockOf, a, b, z, i, j, ka, kb, w, k);
    }
  }

  /** The two entries of z that traded places. */
  lemma TieDownPredMoved(m: map<nat, Block>, m2: map<nat, Block>, order: seq<nat>, blockOf: map<Node, nat>,
                         a: nat, b: nat, z: nat, i: nat, j: nat, ka: nat, kb: nat, w: nat, k: nat)
    requires TieDownReady(m, order, blockOf, a, b, z, i, j)
    requires ka == m[a].succIdx[i] && kb == m[b].succIdx[j] && ka != kb
    requires ka < |m[z].preds| && kb < |m[z].preds| && ka < |m[z].predIdx| && kb < |m[z].predIdx|
    requires m[z].preds[ka] == m[a].Lower() && m[z].predIdx[ka] == i
    requires m[z].preds[kb] == m[b].Lower() && m[z].predIdx[kb] == j
    requires TiedDown(m, m2, a, b, z, i, j, ka, kb)
    requires w in order && k < |m2[w].preds|
    requires w == z && (k == ka || k == kb)
    ensures PredLinked(m2, blockOf, m2[w], k)
  {
    assert m2[w].nodes == m[w].nodes;
    if k == ka {
      assert PredLinked(m, blockOf, m[z], kb);
    } else {
      assert PredLinked(m, blockOf, m[z], ka);
    }
  }

  /** Every other predecessor entry: it and its index stay, and so does the
      entry it points at. */
  lemma TieDownPredKept(m: map<nat, Block>, m2: map<nat, Block>, order: seq<nat>, blockOf: map<Node, nat>,
                        a: nat, b: nat, z: nat, i: nat, j: nat, ka: nat, kb: nat, w: nat, k: nat)
    requires TieDownReady(m, order, blockOf, a, b, z, i, j)
    requires ka == m[a].succIdx[i] && kb == m[b].succIdx[j] && ka != kb
    requires ka < |m[z].preds| && kb < |m[z].preds| && ka < |m[z].predIdx| && kb < |m[z].predIdx|
    requires m[z].preds[ka] == m[a].Lower() && m[z].predIdx[ka] == i
    requires m[z].preds[kb] == m[b].Lower() && m[z].predIdx[kb] == j
    requires TiedDown(m, m2, a, b, z, i, j, ka, kb)
    requires w in order && k < |m2[w].preds|
    requires !(w == z && (k == ka || k == kb))
    ensures PredLinked(m2, blockOf, m2[w], k)
  {
    assert m2[w].nodes == m[w].nodes;
    assert PredLinked(m, blockOf, m[w], k);
    assert m2[w].preds[k] == m[w].preds[k] && m2[w].predIdx[k] == m[w].predIdx[k];
    var v := m[w].preds[k];
    var t := m[w].predIdx[k];
    assert m[w].Upper() in blockOf && blockOf[m[w].Upper()] == w;
    assert blockOf[v] == a ==> t != i;
    assert blockOf[v] == b ==> t != j;
  }

  /** After the Down tie branch, every successor entry is still linked. */
  lemma TieDownSucc(m: map<nat, Block>, m2: map<nat, Block>, order: seq<nat>, blockOf: map<Node, nat>,
                    a: nat, b: nat, z: nat, i: nat, j: nat, ka: nat, kb: nat, w: nat, k: nat)
    requires TieDownReady(m, order, blockOf, a, b, z, i, j)
    requires ka == m[a].succIdx[i] && kb == m[b].succIdx[j] && ka != kb
    requires ka < |m[z].preds| && kb < |m[z].preds| && ka < |m[z].predIdx| && kb < |m[z].predIdx|
    requires m[z].preds[ka] == m[a].Lower() && m[z].predIdx[ka] == i
    requires m[z].preds[kb] == m[b].Lower() && m[z].predIdx[kb] == j
    requires TiedDown(m, m2, a, b, z, i, j, ka, kb)
    requires w in order && k < |m2[w].succs|
    ensures SuccLinked(m2, blockOf, m2[w], k)
  {
    assert m2[w].nodes == m[w].nodes && m2[w].succs == m[w].succs;
    assert SuccLinked(m, blockOf, m[w], k);
    assert m[w].Lower() in blockOf && blockOf[m[w].Lower()] == w;
    assert m[a].Lower() in blockOf && blockOf[m[a].Lower()] == a;
    assert m[b].Lower() in blockOf && blockOf[m[b].Lower()] == b;
    if (w == a && k == i) || (w == b && k == j) {
    } else {
      assert m2[w].succIdx[k] == m[w].succIdx[k];
    }
  }

  /** The Down tie branch keeps the lists linked. */
  lemma TieDownLinked(m: map<nat, Block>, order: seq<nat>, blockOf: map<Node, nat>, a: nat, b: nat, z: nat, i: nat, j: nat)
    requires TieDownReady(m, order, blockOf, a, b, z, i, j)
    ensures var r := TieSwap(m, a, b, z, Down, i, j);
      r.Some? && Linked(r.value, order, blockOf)
  {
    var ka, kb := TieDownShape(m, order, blockOf, a, b, z, i, j);
    var m2 := TieSwap(m, a, b, z, Down, i, j).value;
    forall id | id in order ensures id in m2 && m2[id].nodes == m[id].nodes {
    }
    forall id, k | id in order && 0 <= k < |m2[id].preds| ensures PredLinked(m2, blockOf, m2[id], k) {
      TieDownPred(m, m2, order, blockOf, a, b, z, i, j, ka, kb, id, k);
    }
    forall id, k | id in order && 0 <= k < |m2[id].succs| ensures SuccLinked(m2, blockOf, m2[id], k) {
      TieDownSucc(m, m2, order, blockOf, a, b, z, i, j, ka, kb, id, k);
    }
    TieDownApart(m, m2, order, blockOf, a, b, z, i, j, ka, kb);
  }

  /** The Down tie branch only reorders z's `n_n`, so no block becomes its own
      neighbour. */
  lemma TieDownApart(m: map<nat, Block>, m2: map<nat, Block>, order: seq<nat>, blockOf: map<Node, nat>,
                     a: nat, b: nat, z: nat, i: nat, j: nat, ka: nat, kb: nat)
    requires TieDownReady(m, order, blockOf, a, b, z, i, j)
    requires ka < |m[z].preds| && kb < |m[z].preds| && ka < |m[z].predIdx| && kb < |m[z].predIdx|
    requires TiedDown(m, m2, a, b, z, i, j, ka, kb)
    ensures Ready(m2, order) && EndsOwned(m2, order, blockOf) && Apart(m2, order, blockOf)
  {
    forall id | id in order ensures id in m2 && m2[id].nodes == m[id].nodes && m2[id].succs == m[id].succs {
    }
    forall id, k | id in order && 0 <= k < |m2[id].preds| && m2[id].preds[k] in blockOf
      ensures blockOf[m2[id].preds[k]] != id
    {
      if id == z {
        var k' := if k == ka then kb else if k == kb then ka else k;
        assert m2[id].preds[k] == m[id].preds[k'];
      }
    }
  }

  // ---------------------------------------------------------------------
  // update_adjacencies and sifting_swap

  /** Whether the side compared is `n_n` (Up) or `n_p` (Down), the tie
      branch at a shared block z is defined, keeps the lists linked and
      leaves A's and B's lists on that side as they were. */
  lemma TieLinked(m: map<nat, Block>, order: seq<nat>, blockOf: map<Node, nat>, a: nat, b: nat,
                  x: seq<Node>, y: seq<Node>, dir: Direction, i: nat, j: nat)
    requires Linked(m, order, blockOf) && a in order && b in order && a != b
    requires x == SideA(m, a, dir) && y == SideA(m, b, dir) && i < |x| && j < |y|
    requires Placed(x, blockOf, order) && Placed(y, blockOf, order)
    requires Pos(order, blockOf, x[i]) == Pos(order, blockOf, y[j])
    ensures var r := TieSwap(m, a, b, blockOf[x[i]], dir, i, j);
      && r.Some? && Linked(r.value, order, blockOf)
      && SideA(r.value, a, dir) == x && SideA(r.value, b, dir) == y
  {
    SharedBlock(order, blockOf, x, y, i, j);
    var z := blockOf[x[i]];
    if dir == Up {
      assert PredLinked(m, blockOf, m[a], i) && PredLinked(m, blockOf, m[b], j);
      TieUpLinked(m, order, blockOf, a, b, z, i, j);
    } else {
      assert SuccLinked(m, blockOf, m[a], i) && SuccLinked(m, blockOf, m[b], j);
      TieDownLinked(m, order, blockOf, a, b, z, i, j);
    }
    TieSwapTouches(m, a, b, z, dir, i, j);
  }

  /** `update_adjacencies` on linked lists never raises and keeps them
      linked. */
  lemma {:induction false} UpdateFromLinked(m: map<nat, Block>, order: seq<nat>, blockOf: map<Node, nat>, a: nat, b: nat,
                                            x: seq<Node>, y: seq<Node>, dir: Direction, i: nat, j: nat)
    requires Linked(m, order, blockOf) && a in order && b in order && a != b
    requires x == SideA(m, a, dir) && y == SideA(m, b, dir) && i <= |x| && j <= |y|
    requires Placed(x, blockOf, order) && Placed(y, blockOf, order)
    ensures var r := UpdateFrom(m, order, blockOf, a, b, x, y, dir, i, j);
      r.Some? && Linked(r.value, order, blockOf)
    decreases |x| - i + |y| - j, 1
  {
    if i < |x| && j < |y| {
      var pa, pb := Pos(order, blockOf, x[i]), Pos(order, blockOf, y[j]);
      if pa < pb {
        UpdateFromLinked(m, order, blockOf, a, b, x, y, dir, i + 1, j);
      } else if pa > pb {
        UpdateFromLinked(m, order, blockOf, a, b, x, y, dir, i, j + 1);
      } else {
        TieRoundLinked(m, order, blockOf, a, b, x, y, dir, i, j);
      }
    }
  }

  /** The tie round of `update_adjacencies` and the rounds after it. */
  lemma {:induction false} TieRoundLinked(m: map<nat, Block>, order: seq<nat>, blockOf: map<Node, nat>, a: nat, b: nat,
                                          x: seq<Node>, y: seq<Node>, dir: Direction, i: nat, j: nat)
    requires Linked(m, order, blockOf) && a in order && b in order && a != b
    requires x == SideA(m, a, dir) && y == SideA(m, b, dir) && i < |x| && j < |y|
    requires Placed(x, blockOf, order) && Placed(y, blockOf, order)
    requires Pos(order, blockOf, x[i]) == Pos(order, blockOf, y[j])
    ensures var r := UpdateRound(m, order, blockOf, a, b, x, y, dir, i, j);
      r.Some? && Linked(r.value, order, blockOf)
    decreases |x| - i + |y| - j, 0
  {
    TieLinked(m, order, blockOf, a, b, x, y, dir, i, j);
    var s := TieSwap(m, a, b, blockOf[x[i]], dir, i, j);
    UpdateFromLinked(s.value, order, blockOf, a, b, x, y, dir, i + 1, j + 1);
    assert UpdateRound(m, order, blockOf, a, b, x, y, dir, i, j) == UpdateFrom(s.value, order, blockOf, a, b, x, y, dir, i + 1, j + 1);
  }

  /** `update_adjacencies` on the lists of A and B on one side, from linked
      lists: it never raises and keeps them linked. */
  lemma PairUpdateLinked(m: map<nat, Block>, order: seq<nat>, blockOf: map<Node, nat>, a: nat, b: nat, dir: Direction)
    requires a != b && SwapReady(m, order, blockOf, a, b) && Linked(m, order, blockOf) && a in order && b in order
    ensures var r := PairUpdate(m, order, blockOf, a, b, dir);
      r.Some? && Linked(r.value, order, blockOf)
  {
    assert Placed(SideA(m, a, dir), blockOf, order) && Placed(SideA(m, b, dir), blockOf, order);
    UpdateFromLinked(m, order, blockOf, a, b, SideA(m, a, dir), SideA(m, b, dir), dir, 0, 0);
  }

  /** The loop of `sifting_swap` from the k-th level pair, from linked
      lists: it never raises and keeps them linked. */
  lemma {:induction false} SwapSumLinked(m: map<nat, Block>, order: seq<nat>, blockOf: map<Node, nat>, a: nat, b: nat,
                                         ps: seq<(int, Direction)>, k: nat, acc: int)
    requires k <= |ps| && a != b && SwapReady(m, order, blockOf, a, b) && Linked(m, order, blockOf)
    requires a in order && b in order
    ensures var r := SwapSumFrom(m, order, blockOf, a, b, ps, k, acc);
      r.Some? && Linked(r.value.blocks, order, blockOf)
    decreases |ps| - k
  {
    if k < |ps| {
      var dir := ps[k].1;
      PairUpdateLinked(m, order, blockOf, a, b, dir);
      var u := PairUpdate(m, order, blockOf, a, b, dir);
      var d := PairDelta(m, order, blockOf, a, b, dir);
      SwapSumStep(m, order, blockOf, a, b, ps, k, acc, d, u);
      SwapSumLinked(u.value, order, blockOf, a, b, ps, k + 1, acc + d);
    } else {
      SwapSumDone(m, order, blockOf, a, b, ps, acc);
    }
  }

  /** Linked depends on the order only through the ids it holds, so the
      exchange of A's and B's positions keeps it. */
  lemma LinkedReorder(m: map<nat, Block>, order: seq<nat>, order2: seq<nat>, blockOf: map<Node, nat>)
    requires Linked(m, order, blockOf) && forall id :: id in order2 <==> id in order
    ensures Linked(m, order2, blockOf)
  {
  }

  /** `sifting_swap` on linked lists: the loop over the level pairs never
      raises, and after the positions of A and B are exchanged the lists
      are still linked. */
  lemma SiftingSwapLinked(m: map<nat, Block>, order: seq<nat>, blockOf: map<Node, nat>, level: map<Node, int>, a: nat, b: nat)
    requires a != b && a in order && b in order && Distinct(order)
    requires SwapReady(m, order, blockOf, a, b) && Linked(m, order, blockOf)
    requires LevelsKnown(m[a], level) && LevelsKnown(m[b], level)
    ensures var r := SwapSumFrom(m, order, blockOf, a, b, LevelPairs(m[a], m[b], level), 0, 0);
      r.Some? && Linked(r.value.blocks, SwapSeq(order, a, b), blockOf)
  {
    var ps := LevelPairs(m[a], m[b], level);
    SwapSumLinked(m, order, blockOf, a, b, ps, 0, 0);
    SwapExchanges(order, a, b);
    var r := SwapSumFrom(m, order, blockOf, a, b, ps, 0, 0);
    LinkedReorder(r.value.blocks, order, SwapSeq(order, a, b), blockOf);
  }

  // ---------------------------------------------------------------------
  // Where the linked state comes from

  /** Lists that hold the block's neighbours in graph terms never name the
      block itself on the layout of the layering. */
  lemma MatchedApart(g: Graph, m0: map<nat, Block>, m: map<nat, Block>, order: seq<nat>, blockOf: map<Node, nat>)
    requires Proper(g, m0, order, blockOf) && Kept(m0, m) && ListsMatch(g, m, order)
    ensures Apart(m, order, blockOf)
  {
    forall id, k | id in order && 0 <= k < |m[id].succs| && m[id].succs[k] in blockOf
      ensures blockOf[m[id].succs[k]] != id
    {
      SuccApart(g, m0, m, order, blockOf, id, k);
    }
    forall id, k | id in order && 0 <= k < |m[id].preds| && m[id].preds[k] in blockOf
      ensures blockOf[m[id].preds[k]] != id
    {
      PredApart(g, m0, m, order, blockOf, id, k);
    }
  }

  /** A successor in a block's list belongs to another block. */
  lemma SuccApart(g: Graph, m0: map<nat, Block>, m: map<nat, Block>, order: seq<nat>, blockOf: map<Node, nat>, id: nat, k: nat)
    requires Proper(g, m0, order, blockOf) && Kept(m0, m) && ListsMatch(g, m, order)
    requires id in order && k < |m[id].succs| && m[id].succs[k] in blockOf
    ensures blockOf[m[id].succs[k]] != id
  {
    var v, lo := m[id].succs[k], m0[id].Lower();
    assert m[id].Lower() == lo by { assert m[id].nodes == m0[id].nodes; }
    assert v in multiset(m[id].succs);
    assert (lo, v) in g.edges;
    assert blockOf[lo] == id;
  }

  /** A predecessor in a block's list belongs to another block. */
  lemma PredApart(g: Graph, m0: map<nat, Block>, m: map<nat, Block>, order: seq<nat>, blockOf: map<Node, nat>, id: nat, k: nat)
    requires Proper(g, m0, order, blockOf) && Kept(m0, m) && ListsMatch(g, m, order)
    requires id in order && k < |m[id].preds| && m[id].preds[k] in blockOf
    ensures blockOf[m[id].preds[k]] != id
  {
    var v, lo := m[id].preds[k], m0[id].Upper();
    assert m[id].Upper() == lo by { assert m[id].nodes == m0[id].nodes; }
    assert v in multiset(m[id].preds);
    assert (v, lo) in g.edges;
    assert blockOf[lo] == id;
  }

  /** `sort_adjacencies` on the layout of the layering hands the sifting
      passes linked lists. */
  lemma AdjacenciesReady(m0: map<nat, Block>, g: Graph, order: seq<nat>, blockOf: map<Node, nat>)
    requires Proper(g, m0, order, blockOf)
    ensures var r := Adjacencies(m0, g, order, blockOf);
      r.Some? && Linked(r.value, order, blockOf) && InBlockOrder(r.value, order, blockOf)
  {
    AdjacenciesLinked(m0, g, order, blockOf);
    var r := Adjacencies(m0, g, order, blockOf).value;
    KeptEndsOwned(m0, r, order, blockOf);
    MatchedApart(g, m0, r, order, blockOf);
  }

  /** The list a level pair compares: for '-' (`n_n`) the predecessors of the
      block's upper node, for '+' (`n_p`) the successors of its lower node. */
  lemma SideANames(g: Graph, m: map<nat, Block>, order: seq<nat>, a: nat, dir: Direction)
    requires ListsMatch(g, m, order) && a in order
    ensures multiset(SideA(m, a, dir))
         == multiset(if dir == Up then Predecessors(g, m[a].Upper()) else Successors(g, m[a].Lower()))
  {
  }

  /** Right after `sort_adjacencies`, the `uswap` of every level pair is the
      change in crossings between the two lists, pair by pair. */
  lemma PairDeltaCounts(m0: map<nat, Block>, g: Graph, order: seq<nat>, blockOf: map<Node, nat>, a: nat, b: nat, dir: Direction)
    requires Proper(g, m0, order, blockOf) && a in order && b in order
    ensures var r := Adjacencies(m0, g, order, blockOf);
      && r.Some? && a in r.value && b in r.value && NeighboursPlaced(r.value, blockOf, order)
      && PairDelta(r.value, order, blockOf, a, b, dir)
         == Pairs(Positions(SideA(r.value, a, dir), order, blockOf), Positions(SideA(r.value, b, dir), order, blockOf))
  {
    AdjacenciesReady(m0, g, order, blockOf);
    var m := Adjacencies(m0, g, order, blockOf).value;
    AdjacenciesPlaced(m0, g, order, blockOf);
    assert a in m && b in m;
    PairDeltaIsPairs(m, order, blockOf, a, b, dir);
  }
}
