# Layered drawing core: cycle removal, longest-path layering, global sifting

This project is a Dafny model of the layout core of a graph-drawing tool
written in Python on top of networkx. It covers four parts:

- **Cycle removal.** `greedy_cycle_removal` peels sinks and sources off a copy
  of the graph. When neither is left it takes the node of greatest
  out-degree minus in-degree (`_edge_delta`). This gives a node order
  `s = s1 ++ s2`. Every edge that points backward in `s` is turned round, and
  every self-loop is dropped.
- **Layering.** `longest_path_layering` puts every sink on level `m` (the
  node count). Every other node goes one level above the lowest of its
  successors. An edge that now spans more than one level is replaced by a
  chain of dummy nodes (`_insert_dummy_edges_and_blocks`). Every original
  node becomes a block of its own, and every dummy chain becomes one block.
  The blocks live in a `BlockList`: an id-to-block dictionary plus the
  horizontal order of the ids.
- **Global sifting.** `global_shifting` runs rounds of `sifting_step`, one
  step per block. A step moves block A to the far left. It rebuilds the
  neighbour lists and their reciprocal indices (`sort_adjacencies`). Then it
  swaps A rightwards past every other block (`sifting_swap`), adding up the
  change in crossings each swap causes (`uswap`). While swapping, it repairs
  the reciprocal indices of the shared neighbours (`update_adjacencies`,
  `swap_adjecenties`). Finally A goes to the first position where the
  running sum was least. After the rounds, every node gets its block's
  position `pi`.
- **Trees.** `insert_dummy_root` and `as_tree` give a graph a single root.
  The sibling and child queries of the helper module read the `order`
  attribute of a tree's nodes.

## Data model

The project models data in these terms:

- A graph is a value: a duplicate-free list of nodes and a duplicate-free
  list of edges (`Graphs.Graph`).
  - Successors and predecessors come out in edge order. This is the order
    networkx reports them in.
  - `G.edges` comes out grouped by source, the sources in node order, each
    group in successor order (`Graphs.EdgesBySource`). The re-orientation
    loop of the cycle removal walks the edges in this order.
  - `Node` is a real name, a numbered dummy (`DUMMY_NODE<k>`) or the dummy
    root.
- The networkx node attributes `level` and `block` are maps from nodes, kept
  as fields of `Layering.DiGraph`. `phi` and `block` are `DiGraph.Phi` and
  `DiGraph.NodeBlock`.
- A `Block` is a value holding:
  - its id, nodes and levels;
  - the neighbour lists `n_n` (preds) and `n_p` (succs);
  - their reciprocal index lists `i_n` and `i_p`.
- `BlockList` is a class whose fields `blocks` and `order` its methods
  update in place.
- `sort_adjacencies`, `update_adjacencies` and the loops of `sifting_swap`
  and `sifting_step` each have two forms:
  - a recursive specification function over the map of blocks;
  - a method with the source's loop, proved equal to that function.

  A Python `IndexError` or `KeyError` on the way is the `None` of an
  `Option`.
- The greedy ordering keeps a ghost trace of peels (`CycleRemoval.Peel`):
  which node was taken and by which rule (sink, source, largest delta).
  `GreedyTrace` is the run of the heuristic on a graph, peel by peel, and
  `s1`/`s2` are read off it.
- `uswap` is modelled as a merge over the block positions of the neighbour
  names (`Crossings`). When both lists are strictly sorted by block
  position, it is proved equal to the pairwise count of crossings that start
  or stop when A and B trade places. `sort_adjacencies` leaves every list so
  sorted, so the first swap of a step counts crossings exactly
  (`TieLinks.PairDeltaCounts`). That the lists stay sorted after a swap is
  not proved (see "Left out").
- `NeighbourLinks` proves what `sort_adjacencies` builds on the layout the
  layering leaves. Each block's `n_p` holds the successors of its lower node
  and `n_n` the predecessors of its upper node, each once and in strictly
  increasing block position. Every entry's index (`i_p`, `i_n`) points at the
  reciprocal entry, and its index points back.
- `TieLinks` proves that `update_adjacencies` and `sifting_swap` keep those
  reciprocal indices, and never raise on such lists.
- A `Shifting.Layout` is the value of a block list. `StepOf`, `RoundOf` and
  `RoundsOf` fold `sifting_step` over the ids of a round and over the rounds.

The layering loop terminates only on an acyclic graph. `LongestPathLayering`
takes a ghost order that every edge follows, which stands for that
assumption. `GreedyCycleRemoval` proves that its result has such an order.

## Model

| member | source | states |
|---|---|---|
| `Graphs.IndexOf` | digraph.py:73 | `list.index`: the result is a position holding `x` |
| `Graphs.IndexOfFirst` | digraph.py:73 | `list.index` finds the first occurrence: `x` does not occur before it |
| `Graphs.IndexOfDistinct` | digraph.py:73 | in a list without repeats, the index of the entry at `i` is `i`, so `pi` and `block_from_pos` are inverse |
| `Graphs.SuccessorsIn` | digraph.py:138 | `successors(v)`: exactly the targets of edges leaving `v`, in edge order |
| `Graphs.PredecessorsIn` | digraph.py:127 | `predecessors(v)`: exactly the sources of edges entering `v` |
| `Graphs.SuccessorsDistinct` | digraph.py:138 | a graph without repeated edges lists each successor once |
| `Graphs.PredecessorsDistinct` | digraph.py:127 | a graph without repeated edges lists each predecessor once |
| `Graphs.SuccessorsAppend` | digraph.py:138 | the successors in a concatenation of edge lists are those of the first part, then those of the second |
| `Graphs.OutEdgesIn` | digraph.py:195 | exactly the edges leaving `v`, without repeats |
| `Graphs.EdgesGrouped` | digraph.py:195 | exactly the edges leaving the listed nodes, without repeats |
| `Graphs.EdgesBySource` | digraph.py:195 | `G.edges` order: exactly the graph's edges, each once |
| `Graphs.Sinks` | digraph.py:124 | the nodes of out-degree 0, and only those |
| `Graphs.Sources` | digraph.py:259 | the nodes of in-degree 0, and only those |
| `Graphs.RemoveAll` | digraph.py:77 | the list without `x`, other entries kept in order; one entry fewer when `x` was there once |
| `Graphs.RemoveNode` | digraph.py:171 | `remove_node`: the node and every edge touching it go; the multiset of nodes loses exactly that node; the graph stays valid |
| `Graphs.RemoveNodeCount` | digraph.py:171 | removing a node takes exactly one copy of it out of the node multiset, and one node out of the count |
| `Graphs.RemoveEdge` | digraph.py:218 | `remove_edge`: exactly that edge goes; nodes unchanged |
| `Graphs.SuccessorsRemoveOther` | digraph.py:218 | removing an edge that leaves another node keeps `v`'s successor list |
| `Graphs.RemoveSelfLoops` | digraph.py:292 | `remove_edges_from(selfloop_edges)`: exactly the non-loop edges remain; nodes unchanged |
| `Graphs.AddNode` | digraph.py:263 | `add_node`: appended unless present; edges unchanged |
| `Graphs.AddEdge` | digraph.py:265 | `add_edge`: missing end points are added, the edge appended unless present; validity kept |
| `Graphs.ForwardIsAcyclic` | digraph.py:192-203 | a graph whose edges all point forward in some list has no cycle |
| `TreeQueries.Children` | helper_functions/graph_helper_functions.py:32-33 | exactly the targets of `v`'s edges |
| `TreeQueries.Parent` | helper_functions/graph_helper_functions.py:50-54 | None exactly for a node of in-degree 0; otherwise a predecessor |
| `TreeQueries.ParentOfTreeNode` | helper_functions/graph_helper_functions.py:50-54 | a node with the single predecessor `p` has parent `p` |
| `TreeQueries.FirstMin` | helper_functions/graph_helper_functions.py:40 | head of the stable sort by `order`: least rank, no entry of equal or smaller rank before it |
| `TreeQueries.LastMaxIndex` | helper_functions/graph_helper_functions.py:47 | tail of the stable sort: greatest rank, no entry of equal rank after it |
| `TreeQueries.RankedBelow` | helper_functions/graph_helper_functions.py:24 | exactly the siblings ranked strictly before the bound |
| `TreeQueries.FindRank` | helper_functions/graph_helper_functions.py:14-16 | the first entry of the given rank, None exactly when no entry has it |
| `TreeQueries.LeftSibling` | helper_functions/graph_helper_functions.py:10-17 | `left_siblings`: a result exactly when the parent exists, is truthy and has a child ranked one below `v`; the result is such a child |
| `TreeQueries.LeftmostSibling` | helper_functions/graph_helper_functions.py:20-29 | `leftmost_sibling`: a result exactly when a truthy parent has a child ranked before `v`; the result is the least ranked of those |
| `TreeQueries.LeftmostChild` | helper_functions/graph_helper_functions.py:36-40 | None exactly for a leaf; otherwise a child of least rank |
| `TreeQueries.RightmostChild` | helper_functions/graph_helper_functions.py:43-47 | None exactly for a leaf; otherwise a child of greatest rank |
| `TreeQueries.LeftmostNotAfterRightmost` | helper_functions/graph_helper_functions.py:36-47 | leftmost and rightmost child exist together, and the leftmost is ranked no later |
| `TreeQueries.LeftSiblingHasLeftmost` | helper_functions/graph_helper_functions.py:10-29 | a node with a direct left sibling has a leftmost sibling ranked no later |
| `Blocks.Block.Clear` | digraph.py:47-51 | `clear`: all four neighbour lists empty; id, nodes and levels kept |
| `Blocks.NewBlock` | digraph.py:11-21 | the constructor: `upper` is the first node, `lower` the last, id -1, no index lists; only a non-empty node list is accepted (`nodes[0]` raises otherwise) |
| `Blocks.UpperIsLower` | digraph.py:14-15 | in a block without repeated nodes, `upper` and `lower` coincide exactly for a one-node block |
| `Blocks.InsertAt` | digraph.py:82 | `list.insert`: `x` at `i`, the entries before unchanged, those after shifted by one; one more `x` in the multiset |
| `Blocks.RemoveAt` | digraph.py:77 | the entry at `i` removed, the rest shifted back; one fewer of it in the multiset |
| `Blocks.RemoveInsert` | digraph.py:77-82 | removing at `i` undoes inserting at `i` |
| `Blocks.RemoveAtIsRemoveAll` | digraph.py:76-77 | in a list without repeats, `remove` at the value's index removes that value |
| `Blocks.MoveTarget` | digraph.py:79-80 | where `move` reinserts: always a valid index |
| `Blocks.MoveSeq` | digraph.py:75-82 | `move` on the id list: same length and multiset; `x` at the target; the rest as before `x` was removed |
| `Blocks.MoveLandsAtTarget` | digraph.py:75-82 | `move` keeps the list duplicate-free, puts `x` at `target` or `target - 1` (when it sat before it), and keeps the other ids in order |
| `Blocks.MoveInserted` | digraph.py:75-82 | moving the id inserted at `i` is inserting it at the target instead |
| `Blocks.SwapSeq` | digraph.py:84-89 | `swap_pos` on the id list: the two positions exchange their ids, no other entry changes |
| `Blocks.SwapExchanges` | digraph.py:84-89 | `swap_pos` keeps a duplicate-free permutation and exchanges the positions of the two ids |
| `Blocks.SwapTwice` | digraph.py:84-89 | `swap_pos` twice with the same ids restores the order |
| `Blocks.SwapRight` | digraph.py:84-89 | swapping the id at `i` with its right neighbour moves it to `i + 1` |
| `Blocks.PermutationOfIds` | digraph.py:62-67 | any permutation of the ids `0 .. n-1` is again such a permutation |
| `Blocks.BlockList.constructor` | digraph.py:58-60 | an empty, valid block list |
| `Blocks.BlockList.CopyOf` | algos/global_shift.py:138 | `deepcopy(B)`: a fresh list with the same blocks and order |
| `Blocks.BlockList.NewBlockNumber` | digraph.py:69-70 | the next id is unused |
| `Blocks.BlockList.AddBlock` | digraph.py:62-67 | the block gets id `len(order)`, is stored under it and appended to the order; the list stays valid |
| `Blocks.BlockList.Pi` | digraph.py:72-73 | `pi`: a position holding the id |
| `Blocks.BlockList.BlockFromId` | digraph.py:94-95 | `block_from_id`: on a valid list, the block carrying the id, which is the block at the id's position |
| `Blocks.BlockList.BlockFromPos` | digraph.py:97-98 | the block at position `p` carries the id stored there |
| `Blocks.BlockList.Move` | digraph.py:75-82 | `move` changes only the order, as `MoveSeq` says; the list stays valid |
| `Blocks.BlockList.SwapPos` | digraph.py:84-89 | `swap_pos` changes only the order, as `SwapSeq` says; the list stays valid |
| `Blocks.PiOfBlockFromPos` | digraph.py:97-98 | `pi(block_from_pos(p).id) == p` |
| `CycleRemoval.EdgeDelta` | digraph.py:245-251 | `_edge_delta`: one entry per node of the graph |
| `CycleRemoval.DeltasSumToZero` | digraph.py:245-251 | the deltas of a graph add up to 0 |
| `CycleRemoval.FirstMaxIndex` | digraph.py:185 | `max(delta, key=delta.get)`: greatest value, first in insertion order among equals |
| `CycleRemoval.MaxDeltaNonNegative` | digraph.py:183-187 | the node chosen has at least as many outgoing as incoming edges |
| `CycleRemoval.MaxDeltaNode` | digraph.py:183-187 | the chosen node belongs to the graph and no node has a greater delta |
| `CycleRemoval.NextPeel` | digraph.py:165-187 | the rule of each round: a sink exactly when one is left; otherwise a source when one is left; otherwise the `MaxDeltaNode` |
| `CycleRemoval.GreedyTrace` | digraph.py:164-187 | the run takes one peel per node |
| `CycleRemoval.PeelStep` | digraph.py:167-187 | taking the next peel moves it from the rest of the run to the part done, and extends `s1` or `s2` as its rule says |
| `CycleRemoval.FrontBackKinds` | digraph.py:167-187 | every node of `s2` was taken as a sink; every node of `s1` as a source or as the largest-delta node |
| `CycleRemoval.SourceRemovalKeepsNoSinks` | digraph.py:175-181 | removing a source from a graph without sinks leaves none |
| `CycleRemoval.SourcePeelStep` | digraph.py:175-181 | with no sink left, the last source is the next peel, and no sink appears |
| `CycleRemoval.PeelSinks` | digraph.py:167-173 | the sink loop takes the last current sink each round, as the heuristic's run does: the ghost trace grows by sink peels only, `s2` is `Back` of it, and no sink is left |
| `CycleRemoval.PeelSources` | digraph.py:175-181 | the source loop takes the last current source each round, as the run does: `s1` is `Front` of the trace; no source or sink is left |
| `CycleRemoval.TakeMaxDelta` | digraph.py:183-187 | with neither sink nor source left, the largest-delta node is the next peel and goes to the end of `s1` |
| `CycleRemoval.GreedyOrder` | digraph.py:159-190 | `s` is `s1 ++ s2` read off `GreedyTrace(g)`, the heuristic's run: `s2` the sinks (last taken first), `s1` the sources and largest-delta nodes in the order taken; every node exactly once |
| `CycleRemoval.FrontBackNodes` | digraph.py:188-190 | `s1 ++ s2` holds exactly the nodes the run takes |
| `CycleRemoval.GreedyTraceNodes` | digraph.py:164-187 | the run takes every node of the graph exactly once |
| `CycleRemoval.GreedyOrderPermutes` | digraph.py:159-190 | the greedy order is a duplicate-free permutation of the nodes |
| `CycleRemoval.HandledStep` | digraph.py:195-201 | handling one input edge changes only that edge and its reversal |
| `CycleRemoval.ReorientEdge` | digraph.py:195-201 | one round of the edge loop keeps the invariant "edges handled so far" |
| `CycleRemoval.ReorientEdges` | digraph.py:193-201 | visits the edges in `EdgesBySource` order; the result has the same nodes and exactly the input edges and reversals that point forward in `s` |
| `CycleRemoval.GreedyCycleRemoval` | digraph.py:159-203 | `s` is the greedy order of `GreedyTrace(g)`, a permutation of the nodes; the result keeps the nodes, has exactly the forward-pointing input edges and reversals, all edges follow `s`, and it is acyclic |
| `CycleRemoval.EdgeFate` | digraph.py:195-201 | a forward edge is kept, a backward one reversed, a self-loop dropped |
| `Crossings.PairsAntisymmetric` | algos/global_shift.py:157-173 | swapping B past A undoes the crossing change of swapping A past B |
| `Crossings.PairsAllBefore` | algos/global_shift.py:162-165 | all of A's neighbours before all of B's: every one of the `r*s` pairs starts to cross |
| `Crossings.PairsAllAfter` | algos/global_shift.py:166-168 | all of A's neighbours after all of B's: all `r*s` crossings disappear |
| `Crossings.MergeCountsPairs` | algos/global_shift.py:157-173 | on strictly increasing positions, the merge with the corrected tie equals the pairwise crossing change |
| `Crossings.NoTieAgrees` | algos/global_shift.py:162-172 | without a shared neighbour block, the code as written and the corrected merge agree |
| `Crossings.AsWrittenAntisymmetricWithoutTies` | algos/global_shift.py:157-173 | without shared neighbour blocks, the code as written is antisymmetric |
| `Crossings.AsWrittenMiscountsTie` | algos/global_shift.py:169-172 | with positions `[0, 5]` and `[5]`, the code as written gives -1 where the pairwise change is +1 |
| `Crossings.AsWrittenFrom` | algos/global_shift.py:157-173 | `uswap` as written never gives more than the corrected merge: at a tie it adds `2 * i` less |
| `Crossings.MergeFrom` | algos/global_shift.py:157-173 | the corrected merge changes the `r*s` pairs of the remaining entries by at most `r*s` either way |
| `Crossings.Positions` | algos/global_shift.py:163 | `B_.pi(G.block(n))` for each name: a position holding the name's block |
| `Crossings.USwap` | algos/global_shift.py:157-173 | `uswap` with the tie corrected; on strictly sorted lists it is the pairwise crossing change |
| `Crossings.USwapExtremes` | algos/global_shift.py:157-173 | an empty list gives 0, all before gives `r*s`, all after gives `-r*s` |
| `Crossings.USwapAntisymmetric` | algos/global_shift.py:157-173 | `uswap(a, b) == -uswap(b, a)`, shared neighbour blocks included |
| `DummyChains.DummyChain` | digraph.py:226-231 | one dummy per level in between |
| `DummyChains.DummyChainMembers` | digraph.py:227-228 | the chain's dummies carry the consecutive numbers from the counter |
| `DummyChains.DummyChainDistinct` | digraph.py:227-228 | no dummy of a chain repeats |
| `DummyChains.ChainLevels` | digraph.py:226-232 | one level per dummy |
| `DummyChains.PathEdges` | digraph.py:234-237 | one edge per consecutive pair of the path |
| `DummyChains.WithChainLevelsAt` | digraph.py:230 | the `i`-th dummy gets level `lu + 1 + i`; every other node keeps its level |
| `DummyChains.WithChainBlockAt` | digraph.py:230 | every dummy of the chain is in the new block; every other node keeps its block |
| `DummyChains.ChainIsLayered` | digraph.py:226-237 | every edge of `u → d1 → … → dk → v` spans exactly one level |
| `DummyChains.LastHasNoEdge` | digraph.py:234-237 | the final edge to `v` is new, so `add_edge` appends it |
| `DummyChains.HangBelow` | digraph.py:230-234 | `add_node` then `add_edge` appends exactly the node and the edge, keeping validity |
| `DummyChains.HungStep` | digraph.py:226-235 | one more dummy keeps the shape of the partial chain |
| `DummyChains.ChainLoopStep` | digraph.py:226-235 | one round of the dummy loop keeps the loop invariant |
| `DummyChains.HangFresh` | digraph.py:227-230 | a dummy numbered from the counter is new, and the counter stays ahead |
| `Layering.DiGraph.constructor` | digraph.py:111-114 | an empty block list and a dummy counter at 0 |
| `Layering.DiGraph.HangChain` | digraph.py:226-235 | the loop hangs `hi - lo - 1` dummies below `top` |
| `Layering.DiGraph.RerouteEdge` | digraph.py:217-237 | the long edge is replaced by the chain through fresh dummies on the levels in between, all in the new block |
| `Layering.DiGraph.InsertDummyEdgesAndBlocks` | digraph.py:213-238 | an edge of span at most 0 changes nothing; a longer one becomes the dummy chain plus one new block `[u]` above, `[v]` below |
| `Layering.DiGraph.InsertChainBlock` | digraph.py:217-238 | a span above one becomes the dummy chain through fresh dummies, with one new block holding it |
| `Layering.DiGraph.ScanSuccessors` | digraph.py:136-147 | ready exactly when every successor has a level; then their levels in successor order |
| `Layering.DiGraph.SetLevel` | digraph.py:147-148 | the popped node gets level `min - 1`; nothing else changes |
| `Layering.DiGraph.SettleEdge` | digraph.py:150-152 | one successor's edge is settled: kept if one level down, rerouted otherwise |
| `Layering.DiGraph.SettleEdges` | digraph.py:150-152 | after the loop every edge of the placed node spans one level |
| `Layering.DiGraph.AddNodeBlock` | digraph.py:154-157 | the placed node becomes a block recording its level |
| `Layering.DiGraph.PlaceNode` | digraph.py:146-157 | placing a ready node keeps the layering invariant with the node off the worklist |
| `Layering.DiGraph.PlaceSinks` | digraph.py:124-129 | every sink is on level `m` in a block of its own |
| `Layering.DiGraph.LongestPathLayering` | digraph.py:120-157 | every node has a level; original nodes have the longest-path level; every edge spans exactly one level; added nodes are dummies; every node is in a block recording its level |
| `Layering.DiGraph.InsertDummyRoot` | digraph.py:258-266 | the flag is set and the graph is `WithDummyRoot` of the old one |
| `Layering.DiGraph.AsTree` | digraph.py:271-308 | self-loops go; no source gives None, one source is the root, several get the dummy root; a returned root is the only parentless node |
| `Layering.DiGraph.PhiAlongEdge` | digraph.py:207-208 | after the layering, `phi` grows by exactly one along every edge |
| `Layering.DiGraph.NodeBlockHolds` | digraph.py:210-211 | after the layering, `block(v)` names a block that holds `v` and records `phi(v)` at its place |
| `LayerSpec.LevelsOf` | digraph.py:136-140 | `layers_neighbors`: the successors' levels in order |
| `LayerSpec.MinOf` | digraph.py:147 | `min`: a member of the list, no greater than any |
| `LayerSpec.LongestPathLevelEdges` | digraph.py:146-148 | a placed node lies above all its successors and exactly one above some; a sink is on `m` |
| `LayerSpec.LongestPathLevelFrame` | digraph.py:146-148 | giving more nodes a level keeps a placed node's level right |
| `LayerSpec.EdgesFrom` | digraph.py:150 | exactly the edges from `v` to the listed successors |
| `LayerSpec.PlacedLevel` | digraph.py:147-148 | the placed node has the longest-path level |
| `LayerSpec.PlaceKeepsLevels` | digraph.py:147-148 | placing a node keeps every placed node's level right |
| `LayerSpec.PlaceBelowSuccessors` | digraph.py:147-148 | every successor lies at least one level below the placed node |
| `LayerSpec.PlaceEdges` | digraph.py:148-152 | after placing, only the new node's edges may span more than one level |
| `LayerSpec.PlaceKeepsSuccessors` | digraph.py:148 | unplaced original nodes keep their successor lists |
| `LayerSpec.PlaceKeepsNodes` | digraph.py:134-148 | the placed node leaves the worklist |
| `LayerSpec.PlaceKeepsBlocks` | digraph.py:148-157 | only the placed node lacks a block |
| `LayerSpec.PopDistinct` | digraph.py:134 | the popped node leaves a worklist without repeats |
| `LayerSpec.LevelNodeStep` | digraph.py:146-148 | setting the level starts the successor loop |
| `LayerSpec.ChainFresh` | digraph.py:226-230 | the chain's dummies are new and get a level and the block; others keep theirs |
| `LayerSpec.RerouteKeepsNodes` | digraph.py:226-235 | rerouting keeps the worklist invariant |
| `LayerSpec.RerouteKeepsSuccessors` | digraph.py:218-237 | rerouting keeps unplaced nodes' successor lists |
| `LayerSpec.RerouteKeepsLevels` | digraph.py:226-230 | rerouting keeps original nodes' levels right |
| `LayerSpec.RerouteKeepsBlocks` | digraph.py:230-238 | after rerouting, the dummies are in their block with their levels |
| `LayerSpec.RerouteKeepsEdges` | digraph.py:217-237 | after rerouting, the chain's edges span one level each |
| `LayerSpec.RerouteKeepsPending` | digraph.py:150-152 | the remaining pending edges are unchanged |
| `LayerSpec.SettlingNext` | digraph.py:150-152 | the next successor's edge is still in the graph and reaches down |
| `LayerSpec.DummyStep` | digraph.py:150-152 | rerouting a long edge advances the successor loop |
| `LayerSpec.ShortKeepsEdges` | digraph.py:150-151 | an edge spanning one level is settled as it is |
| `LayerSpec.ShortKeepsPending` | digraph.py:150-151 | the other pending edges still reach down |
| `LayerSpec.ShortStep` | digraph.py:150-151 | a short edge advances the successor loop unchanged |
| `LayerSpec.BlockStep` | digraph.py:154-157 | the new block completes the placement and restores the main invariant |
| `LayerSpec.RotateStep` | digraph.py:144 | re-inserting an unready node at the front keeps the invariant |
| `LayerSpec.Unleveled` | digraph.py:131 | the worklist: exactly the nodes without a level, without repeats |
| `LayerSpec.SinkStep` | digraph.py:126-129 | one more sink placed on level `m` in its own block |
| `LayerSpec.SinksDone` | digraph.py:124-131 | after the sink loop the layering invariant holds for the worklist |
| `LayerSpec.MaxTopo` | digraph.py:133-145 | the worklist node latest in the order |
| `LayerSpec.MaxTopoReady` | digraph.py:133-145 | the latest worklist node has all its successors placed, so the loop never gets stuck |
| `LayerSpec.RotateAdvances` | digraph.py:144 | rotating a node that is not the latest moves the latest one place further |
| `LayerSpec.PopNode` | digraph.py:134-138 | the popped node is unplaced and has successors |
| `LayerSpec.RotateUnready` | digraph.py:138-145 | an unready node goes to the front; the invariant holds and the measure decreases |
| `LayerSpec.LayerDone` | digraph.py:133-157 | an empty worklist is a finished layering |
| `RootSpec.AddEdgesFrom` | digraph.py:264-265 | adding the edges keeps the graph valid |
| `RootSpec.AddEdgesFromStep` | digraph.py:264-265 | one round of the `add_edge` loop |
| `RootSpec.AddEdgesFromFresh` | digraph.py:264-265 | edges not yet present are appended in order; nodes unchanged |
| `RootSpec.DummyRootShape` | digraph.py:258-266 | the dummy root is appended; its successors are the former roots in node order |
| `RootSpec.FormerNodeHasParent` | digraph.py:258-266 | every former node has a predecessor afterwards |
| `RootSpec.DummyRootParentless` | digraph.py:258-266 | no edge enters the dummy root |
| `RootSpec.DummyRootUnique` | digraph.py:258-266 | the dummy root is the only node without a predecessor |
| `RootSpec.SingleSourceUnique` | digraph.py:294-304 | a single source is the unique root |
| `NeighbourLists.Cleared` | algos/global_shift.py:75-77 | every block keeps id, nodes and levels; all neighbour and index lists are empty |
| `NeighbourLists.AppendSucc` | algos/global_shift.py:87-89 | `n_p.append(v)`, `i_p.append(-1)` on block `z` only |
| `NeighbourLists.AppendPred` | algos/global_shift.py:104-106 | `n_n.append(w)`, `i_n.append(-1)` on block `z` only |
| `NeighbourLists.JoinIn` | algos/global_shift.py:94-95 | defined exactly when both index writes are in range; only index entries change |
| `NeighbourLists.JoinOut` | algos/global_shift.py:111-112 | the mirror image of `JoinIn` |
| `NeighbourLists.LinkIn` | algos/global_shift.py:83-95 | an in-edge appends `v` to the successor list of `u`'s block only |
| `NeighbourLists.LinkOut` | algos/global_shift.py:99-112 | an out-edge appends `w` to the predecessor list of `x`'s block only |
| `NeighbourLists.LinkInsFrom` | algos/global_shift.py:83-97 | the in-edge loop keeps blocks and balance |
| `NeighbourLists.LinkOutsFrom` | algos/global_shift.py:99-114 | the out-edge loop keeps blocks and balance |
| `NeighbourLists.LinkBlock` | algos/global_shift.py:82-114 | one block's edges keep blocks and balance |
| `NeighbourLists.LinkFrom` | algos/global_shift.py:82-114 | the block loop keeps blocks and balance |
| `NeighbourLists.Adjacencies` | algos/global_shift.py:74-114 | on success the same blocks with each index list as long as its neighbour list; contents and reciprocity are `NeighbourLinks.AdjacenciesLinked` |
| `NeighbourLists.LinkFromPlaced` | algos/global_shift.py:82-114 | every neighbour name the loop adds has a placed block |
| `NeighbourLists.AdjacenciesPlaced` | algos/global_shift.py:74-114 | after `sort_adjacencies`, `pi(block(n))` is defined for every neighbour |
| `NeighbourLists.LinkFromSorted` | algos/global_shift.py:82-114 | the block loop appends in order of position |
| `NeighbourLists.AdjacenciesSorted` | algos/global_shift.py:74-114 | every neighbour list comes out sorted by block position |
| `NeighbourLists.LinkIns` | algos/global_shift.py:83-97 | the in-edge loop computes `LinkInsFrom` |
| `NeighbourLists.LinkOuts` | algos/global_shift.py:99-114 | the out-edge loop computes `LinkOutsFrom` |
| `NeighbourLists.LinkOne` | algos/global_shift.py:83-114 | one round computes `LinkBlock` |
| `NeighbourLists.LinkAll` | algos/global_shift.py:82-114 | the block loop computes `LinkFrom` |
| `NeighbourLists.ClearAll` | algos/global_shift.py:75-77 | the clear loop computes `Cleared` |
| `NeighbourLists.SortAdjacencies` | algos/global_shift.py:74-114 | the blocks become `Adjacencies` of the order, which is unchanged; failure exactly when that is None; on the layering's layout the lists are those `NeighbourLinks.AdjacenciesLinked` describes |
| `NeighbourLinks.SuccsAtMatch` | algos/global_shift.py:82-97 | the reference successor list of a block names each successor of its lower node once, in strictly increasing position |
| `NeighbourLinks.PredsAtMatch` | algos/global_shift.py:99-114 | the mirror image for the predecessors of the upper node |
| `NeighbourLinks.DoneBlockMatch` | algos/global_shift.py:82-114 | after the walk each block's lists hold its neighbours in graph terms, in strictly increasing position |
| `NeighbourLinks.AdjacenciesLinked` | algos/global_shift.py:74-114 | on the layering's layout `sort_adjacencies` never raises; `n_p` holds the successors of the lower node and `n_n` the predecessors of the upper node, each once, in strictly increasing block position; every entry's index points at the reciprocal entry, whose index points back |
| `Sifting.PyIndex` | algos/global_shift.py:202-211 | Python indexing: defined exactly for `-n <= k < n`, negative counting from the end |
| `Sifting.Exchange` | algos/global_shift.py:205-207 | the two entries trade places; nothing else changes |
| `Sifting.ExchangePermutes` | algos/global_shift.py:205-211 | exchanging keeps the multiset |
| `Sifting.ExchangeTwice` | algos/global_shift.py:205-211 | exchanging twice is the identity |
| `Sifting.SwapAdjacencies` | algos/global_shift.py:200-214 | defined exactly when every access is in range; lengths kept; the two pointers exchanged |
| `Sifting.SwapAdjacenciesExchanges` | algos/global_shift.py:200-214 | the names at the two pointed entries trade places; no other name moves |
| `Sifting.SwapAdjacenciesPermutes` | algos/global_shift.py:200-214 | the name and index lists keep their multisets |
| `Sifting.SwapAdjacenciesTwice` | algos/global_shift.py:200-214 | calling it twice restores all four lists |
| `Sifting.SwapAdjacenciesPlaced` | algos/global_shift.py:200-214 | placed names stay placed |
| `Sifting.TieSwap` | algos/global_shift.py:224-229 | the tie branch keeps the block ids |
| `Sifting.TieSwapShape` | algos/global_shift.py:224-229 | every block keeps its shape |
| `Sifting.TieSwapTouches` | algos/global_shift.py:224-229 | only `z`, A and B change, and only on the pass's side |
| `Sifting.TieSwapPlaced` | algos/global_shift.py:224-229 | neighbour names stay placed |
| `Sifting.UpdateFrom` | algos/global_shift.py:217-232 | the pointer loop keeps the block ids; on linked lists it never raises and keeps them linked (`TieLinks.UpdateFromLinked`) |
| `Sifting.UpdateFromStep` | algos/global_shift.py:219-232 | one round advances the pointer at the block further left, or swaps at a tie |
| `Sifting.UpdateFromShape` | algos/global_shift.py:217-232 | `update_adjacencies` keeps every block's shape |
| `Sifting.UpdateFromTouches` | algos/global_shift.py:217-232 | only A, B and shared neighbour blocks change, only on the pass's side |
| `Sifting.UpdateFromPlaced` | algos/global_shift.py:217-232 | neighbour names stay placed |
| `Sifting.UpdateAdjacencies` | algos/global_shift.py:217-232 | the loop computes `UpdateFrom` |
| `TieLinks.TieUpLinked` | algos/global_shift.py:224-229 | the tie branch on `n_n` keeps the lists linked |
| `TieLinks.TieDownLinked` | algos/global_shift.py:224-229 | the tie branch on `n_p` keeps the lists linked |
| `TieLinks.TieLinked` | algos/global_shift.py:224-229 | on either side the tie branch is defined, keeps the lists linked and leaves A's and B's lists on that side as they were |
| `TieLinks.TieRoundLinked` | algos/global_shift.py:219-232 | a tie round and the rounds after it never raise and keep the lists linked |
| `TieLinks.UpdateFromLinked` | algos/global_shift.py:217-232 | `update_adjacencies` on linked lists never raises and keeps them linked |
| `TieLinks.PairUpdateLinked` | algos/global_shift.py:189-194 | one level pair's update on linked lists never raises and keeps them linked |
| `TieLinks.SwapSumLinked` | algos/global_shift.py:187-194 | the loop over the level pairs on linked lists never raises and keeps them linked |
| `TieLinks.LinkedReorder` | algos/global_shift.py:195 | exchanging positions keeps the lists linked |
| `TieLinks.SiftingSwapLinked` | algos/global_shift.py:156-197 | `sifting_swap` on linked lists never raises, and the lists stay linked after A and B exchange positions |
| `TieLinks.MatchedApart` | algos/global_shift.py:82-114 | on the layering's layout no block names one of its own nodes as a neighbour |
| `TieLinks.AdjacenciesReady` | algos/global_shift.py:74-114 | `sort_adjacencies` on the layering's layout hands the sifting passes linked lists in strictly increasing position |
| `TieLinks.SideANames` | algos/global_shift.py:189-194 | for '-' the compared list `n_n` holds the predecessors of the upper node, for '+' `n_p` the successors of the lower node |
| `TieLinks.PairDeltaCounts` | algos/global_shift.py:157-194 | right after `sort_adjacencies`, each level pair's `uswap` is the change in crossings between the two lists, pair by pair |
| `Sifting.AddPair` | algos/global_shift.py:175-185 | `l.add(p)`: the members are the old ones plus `p`, without repeats |
| `Sifting.LevelPairs` | algos/global_shift.py:175-185 | at most four distinct pairs, exactly those whose level the other block spans |
| `Sifting.PairUpdate` | algos/global_shift.py:187-194 | one pair's update keeps the ids and readiness |
| `Sifting.PairUpdateShape` | algos/global_shift.py:187-194 | one pair's update keeps every block's shape |
| `Sifting.SwapSumFrom` | algos/global_shift.py:187-194 | the pair loop keeps the ids and placed names |
| `Sifting.SwapSumShape` | algos/global_shift.py:187-194 | the pair loop keeps every block's shape |
| `Sifting.SwapSumStep` | algos/global_shift.py:187-194 | one pair adds its `uswap` and hands on the updated blocks |
| `Sifting.SwapSumFails` | algos/global_shift.py:187-194 | a failing pair makes the loop fail |
| `Sifting.SwapSumDone` | algos/global_shift.py:187-194 | no pairs left: the sum and the blocks so far |
| `Sifting.SwapPair` | algos/global_shift.py:189-194 | one pair computes its delta and update |
| `Sifting.SwapPairOf` | algos/global_shift.py:189-194 | one round of the pair loop keeps the loop's result |
| `Sifting.PairDeltaIsPairs` | algos/global_shift.py:157-194 | when both lists are strictly sorted by block position, `PairDelta` (`uswap` on one side) is the pairwise crossing change between them |
| `Sifting.SumLevelPairs` | algos/global_shift.py:187-194 | the pair loop computes `SwapSumFrom` |
| `Sifting.SiftingSwap` | algos/global_shift.py:156-197 | the delta and blocks are `SwapSumFrom`, the sum of `PairDelta` over the level pairs; the two ids trade positions; shapes kept; no shared level gives 0 and no change |
| `Sifting.SweepOf` | algos/global_shift.py:143-150 | the best position is within range |
| `Sifting.SweepStep` | algos/global_shift.py:145-150 | a new best needs a strictly smaller sum |
| `Sifting.SweepFindsFirstMinimum` | algos/global_shift.py:143-150 | `p_best` is the first position of least running sum; `x_best <= 0`; `x` is the total |
| `Sifting.SweepStaysAtFront` | algos/global_shift.py:143-152 | A stays at position 0 exactly when no running sum is negative |
| `Sifting.SweepNext` | algos/global_shift.py:146 | one swap records one delta and keeps the ids |
| `Sifting.SweepFrom` | algos/global_shift.py:145-146 | the sweep records one delta per remaining position |
| `Sifting.SweepFromStep` | algos/global_shift.py:145-146 | one swap is the first step of the sweep |
| `Sifting.SwapAlong` | algos/global_shift.py:146 | the swap at `p` computes `SwapSumFrom` and moves A one place right |
| `Sifting.Record` | algos/global_shift.py:147-150 | the bookkeeping computes `SweepOf` |
| `Sifting.SweepOnce` | algos/global_shift.py:145-150 | one loop round keeps the sweep's result and bookkeeping |
| `Sifting.SweepRight` | algos/global_shift.py:145-150 | the loop computes `SweepAll`; A ends last |
| `Sifting.SiftPrepared` | algos/global_shift.py:139-146 | the neighbour lists `sort_adjacencies` builds leave the blocks ready for the sweep |
| `Sifting.SiftOf` | algos/global_shift.py:137-153 | one delta per other block, `p_best` within range, ids kept; the deltas are `PairDelta` sums |
| `Sifting.Settle` | algos/global_shift.py:152 | `move(A, p_best)` puts A at `p_best` among the others |
| `Sifting.ToFrontAndSort` | algos/global_shift.py:139-141 | A first, then the neighbour lists of `Adjacencies` |
| `Sifting.SweepAndSettle` | algos/global_shift.py:143-152 | the sweep, then A at the first best position |
| `Sifting.SiftInPlace` | algos/global_shift.py:139-153 | the copy ends as `SiftOf` says, A at `p_best` among the others |
| `Sifting.SiftingStep` | algos/global_shift.py:137-153 | a fresh list, input unchanged; success exactly as `SiftOf`; A at the first position where the running sum of the `PairDelta` sums is least |
| `Shifting.ShiftRound` | algos/global_shift.py:36-37 | the round is `RoundOf`: one `sifting_step` per id of the order the round began with, each on the list the previous one left; `ok` exactly when every step succeeds; the order stays a permutation of the ids |
| `Shifting.SiftOne` | algos/global_shift.py:37 | one `sifting_step` is `StepOf` on the list's layout, and leaves a list the next step accepts |
| `Shifting.StepOfIs` | algos/global_shift.py:37 | the outcome of `sifting_step` as `SiftOf` states it is `StepOf` |
| `Shifting.RoundStep` | algos/global_shift.py:36-37 | the step for the first id left: the rest of the round follows from its result, or the round fails with it |
| `Shifting.ShiftRounds` | algos/global_shift.py:35-37 | the rounds are `RoundsOf`, each round on the list the previous one left; `ok` exactly when every round succeeds; the order stays a permutation |
| `Shifting.NodePositions` | algos/global_shift.py:50-51 | succeeds exactly when every node's block has a position; then `pi` is that position |
| `Shifting.PositionsSeparateBlocks` | algos/global_shift.py:50-51 | two nodes share `pi` exactly when they share a block |
| `Shifting.GlobalShifting` | algos/global_shift.py:31-53 | succeeds exactly when `RoundsOf` does and every node's block is placed in the final order; the final list is `RoundsOf`'s, a reordering of the same ids, and every node's `pi` is its block's position there |

## Left out

- Drawing, printing, file loading and the worker processes of
  `global_shifting` (`_draw_step`, `Process`, `print`, `load`,
  `load_file` and the newick and GraphML readers) are not modelled. They are
  I/O or concurrency.
- networkx itself is not part of this model. Only the operations the core
  calls are modelled on values. Nodes and each node's successors keep
  insertion order, as the library keeps them. `G.edges` is grouped by source
  in node order (`Graphs.EdgesBySource`).
  Edge attributes (`color`, `dummy`) are dropped because nothing in the core
  reads them.
- Dummy names are a separate constructor `DummyNode(k)`. In the source they
  are strings `DUMMY_NODE<k>`, so a real node of that name would collide with
  a dummy. The model assumes no real node has such a name.
- `Layering.DiGraph.InsertDummyEdgesAndBlocks` requires a span other than 1.
  The source's guard at digraph.py:217 is `>= 1`. A span of exactly 1 would
  remove the edge, add it back and add a block with no node, whose `nodes[0]`
  raises. The only caller (digraph.py:151) passes spans greater than 1.
- `Layering.DiGraph.LongestPathLayering` requires a ghost order that every
  edge follows. On a cyclic graph the source loops forever, and a
  terminating model cannot express that.
- `Sifting.SiftingStep` and `Shifting.GlobalShifting` require the block list
  to be well formed: every id has a non-empty block, every edge end has a
  placed block, and block ends have levels. The model does not prove that
  the layering's output meets these conditions, so the two phases are not
  composed. `global_shifting`'s call to `get_block_list` is not modelled.
- `Sifting.LevelPairs` keeps the set `l` in insertion order. Python iterates
  a set of tuples in hash order, which the model does not reproduce. Pairs
  that update overlapping lists could be processed in another order.
- `NeighbourLists.SortAdjacencies` leaves the blocks unchanged when it fails.
  The source raises part way, after some blocks were already changed; the
  model reports the failure but not the partial state.
- `Sifting.SiftingSwap` fails as a whole on an `IndexError` in
  `update_adjacencies`. The source raises from inside the loop. The model
  then keeps the order unchanged.
- `Blocks.BlockList.CopyOf` copies values. Blocks are values here, so the
  aliasing between `A`, `B` and the blocks in `B_` is expressed through the
  map of blocks rather than through shared objects.
- `check_index` and `_nodes_on_same_level` are debugging code called only
  from comments. `remove_dummy_root`, `to_tree`, `get_block_list` and the
  `run`-style drivers are thin wrappers. None of these is modelled.
- `set_order_in_layers` inside `as_tree` is not modelled because its call is
  commented out. The sibling queries take the `order` attribute as a map.
- The cycle-removed graph's tag `color='r'` on reversed edges is not
  modelled.
- CycleRemoval.ReorientEdges: states which edges the result holds, not their
  order in the edge list. The loop visits the edges in `G.edges` order, as
  the source does, so reversed edges are appended in that order; the
  contract does not restate that order.
- CycleRemoval.GreedyCycleRemoval: the same gap as `ReorientEdges`; the
  result's edge order, which later fixes dummy numbers and block ids, is
  not stated.
- Sifting.PairDelta: computes `uswap` with the corrected tie (see
  "Findings"), not the source's `s - j - r - i`. When A and B share a
  neighbour block after A's first entry, the source's value is smaller by
  `2 * i` at that tie.
- Sifting.SiftingSwap: its delta is a sum of `PairDelta`, so it can differ
  from the source's as `PairDelta` does.
- Sifting.SiftOf: its running sums use the corrected tie, so its `p_best`
  can differ from the source's when A and B share a neighbour block.
- Sifting.SiftingStep: the same divergence as `SiftOf`. It also proves
  `p_best` the first position of least running sum of `PairDelta`. That sum
  is the change in crossings only while the lists are strictly sorted by
  block position, which is proved for the first swap of a step
  (`TieLinks.PairDeltaCounts`) and not after it.
- Shifting.GlobalShifting: its steps are `SiftOf` with the corrected tie, so
  its final order can differ from the source's.
- Sifting.UpdateFrom: does not state that the shared neighbour's list is in
  strictly increasing block position again under the exchanged order. What
  is proved of the repair is that the lists stay linked
  (`TieLinks.UpdateFromLinked`).
- Sifting.UpdateAdjacencies: the same gap as `UpdateFrom`, which it
  computes.
- `CycleRemoval.FirstMaxIndex` breaks ties as the code does: the first node
  in insertion order wins. A tie rule such as "smallest id" is not what the
  code does.

## Findings

| source | as written | input that shows it | evidently intended | confidence | as-written member | corrected member |
|---|---|---|---|---|---|---|
| algos/global_shift.py:170 | `c += s - j - r - i` on a tie of block positions | neighbour positions of A `[0, 5]`, of B `[5]`: as written gives -1, but the pair (0,5) starts to cross and (5,5) shares a block, so the change is +1 | `c += (s - j) - (r - i)`: what remains of B minus what remains of A | high; not executed | `Crossings.AsWrittenMiscountsTie` | `Crossings.MergeCountsPairs` |

The rest of the model (`Crossings.USwap`, and through it `Sifting.SiftingSwap`)
uses the corrected tie. `Crossings.NoTieAgrees` shows that the two forms
agree whenever A and B share no neighbour block.
