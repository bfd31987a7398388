# Route search on a road graph, modelled in Dafny

This project models the route-search engine of a small shortest-path
program on road networks. The engine has four parts:

- A plain Dijkstra search (`dijkstra_raw`) over a graph of raw nodes, with
  its labels kept in two dictionaries and a visited set.
- The label-record Dijkstra (`dijkstra`) and A* (`a_star`) searches, with
  one mutable record per node (`visited`, `distance`, `previous`).
- The experimental "enhanced" A* (`a_star_enhanced`). A node's `visited`
  flag means "has been labelled", the step cost blends geodesic estimates
  through a scale factor, and a running best distance prunes the queue.
- Path reconstruction, speed-limit cleaning and the small graph
  utilities: fresh labels and the nearest-node scan.

Each file covers one part:

- `graph.dfy`: the road graph, as successor lists plus an edge map keyed
  by the ordered pair of end points. Also the edge costs (kilometres over
  km/h), walks, reachability and walk costs.
- `pqueue.dfy`: the `heapq` of `(priority, node)` pairs, as a sequence
  whose pop returns the lexicographic minimum.
- `labels.dfy`: distances with +infinity, node labels,
  `create_simple_graph`, the drivers' seeding of the source and
  `find_nearest_node_from_point`.
- `raw_dijkstra.dfy`: `dijkstra_raw` and `reconstruct_path_raw`.
- `label_search.dfy`: the search loop shared by `dijkstra` and `a_star`.
  It is parameterised by how an edge is priced; `Dijkstra` and `AStar` are
  its two instances.
- `enhanced.dfy`: `a_star_enhanced`.
- `chain.dfy`: chains of previous nodes, and the sums along them.
- `reconstruct.dfy`: `reconstruct_path`, with its `<algorithm>_uses`
  counters.
- `speed.dfy`: `clean_max_speed`.

The searches are methods with loops, proved against predicates on the
labels and queue. The geodesic distance (`find_distance_by_nodes`, a
haversine) is an uninterpreted function parameter `geo`.

Three behaviours of the code shape the model:

- `a_star` adds the geodesic distance from the successor to the
  destination to the edge length before dividing by the speed, and stores
  that sum as the node's `distance` (a_star.py:48-52). The stored
  distances are therefore not travel times. `AStar` and
  `AStarRelaxStoresGeoTerm` state this.
- `a_star_enhanced` prunes with a running best distance and nothing else.
  A newly labelled node is not pushed when its geodesic distance to the
  destination exceeds a truthy best distance. Otherwise the best distance
  becomes that geodesic distance on its first set, and later the larger
  of it and the source-destination distance (a_star_enhanced.py:69-76).
  `Prune` states exactly this.
- Both reconstructions follow the previous nodes until they reach the
  source (raw_dijkstra.py:59-68, a_star.py:68-78). On a cycle of previous
  nodes they never stop; on a `None` previous node or a missing edge they
  raise. The model therefore requires a chain of previous nodes back to
  the source. `AStarEnhanced` establishes that chain for the destination
  it finds, and `DijkstraRaw` does so when no edge has a negative length.

## Model

| member | source | states |
|---|---|---|
| RoadGraph.Hours | shortest_path/raw_dijkstra.py:36-38 | an edge's travel time times its speed is its length in km, and is non-negative for a non-negative length |
| RoadGraph.StepCost | shortest_path/a_star.py:48-50 | the Dijkstra step cost is the travel time; the A* step cost is never below it when the geodesic term is non-negative |
| RoadGraph.NonNegativeLengthsGiveNonNegativeCosts | shortest_path/dijkstra.py:35 | non-negative lengths (and, for A*, non-negative geodesic terms) give non-negative edge costs |
| RoadGraph.PathCostNonNegative | shortest_path/raw_dijkstra.py:38-40 | a walk of non-negative edge costs has non-negative cost |
| RoadGraph.PrefixCostBelow | shortest_path/raw_dijkstra.py:38-40 | with non-negative edge costs, a prefix of a walk costs no more than the walk |
| RoadGraph.ClosedSetHoldsReachable | shortest_path/raw_dijkstra.py:24-45 | a set holding the source and closed under arcs holds every node reachable from the source |
| RoadGraph.DistinctBounded | shortest_path/a_star_enhanced.py:35-36 | a repeat-free list of nodes drawn from a set is no longer than the set (bounds the pops) |
| PriorityQueue.Push | shortest_path/raw_dijkstra.py:44 | pushing adds exactly the one entry to the queue's multiset |
| PriorityQueue.PopMin | shortest_path/raw_dijkstra.py:25 | the popped entry is in the queue and is its unique least (priority, node) pair; the rest is the queue minus that one entry |
| Labels.Plus | shortest_path/dijkstra.py:36-37 | adding a cost to a finite distance stays finite and differs by the cost; +infinity stays +infinity |
| Labels.CreateSimpleGraph | shortest_path/modules/utils.py:87-97 | exactly one label per graph node and no other key; each is unvisited, at +infinity, with no previous node |
| Labels.SeedSource | shortest_path/a_star.py:118 | the source's distance becomes 0 and its visited flag and previous node are kept; every other label is kept, and no key is added or lost |
| Labels.SeededFreshLabelsStart | shortest_path/a_star.py:116-118 | fresh labels with the source seeded satisfy the searches' start condition |
| Labels.FindNearestNodeFromPoint | shortest_path/modules/utils.py:63-77 | no node only when the node list is empty (the raise); otherwise a node at least as near as every node and strictly nearer than each earlier one |
| Labels.FirstNearestUnique | shortest_path/modules/utils.py:70 | the strict `<` makes the chosen index unique: ties go to the earliest node |
| PredecessorChain.ChainEdgesPriced | shortest_path/raw_dijkstra.py:59-67 | every edge of a chain back to the source exists and has a positive speed |
| PredecessorChain.ChainBackMono | shortest_path/raw_dijkstra.py:59-68 | a chain back to the source within k steps is one within any larger bound |
| PredecessorChain.ChainIsWalk | shortest_path/raw_dijkstra.py:59-68 | a chain, read from the source, is a walk to the node whose travel-time cost is the chain's hours |
| PredecessorChain.ChainIsPath | shortest_path/raw_dijkstra.py:59-68 | when every previous entry lies along an arc, as the searches set them, the chain is a path of the graph from the source to the node |
| PredecessorChain.ChainStep | shortest_path/raw_dijkstra.py:60-68 | one step back: the chain is the edge into the node followed by the chain of its previous node, and the sums split accordingly |
| PredecessorChain.ChainEdgesUnique | shortest_path/raw_dijkstra.py:59-68 | the chain of a node does not depend on the step bound used to find it |
| PredecessorChain.ChainSuffix | shortest_path/raw_dijkstra.py:59-68 | every suffix of a chain is the chain of that suffix's first node |
| PredecessorChain.ChainEdgesDistinct | shortest_path/a_star.py:68-78 | a chain that reaches the source never walks an edge twice |
| RawDijkstra.Relax | shortest_path/raw_dijkstra.py:40-44 | a relaxation changes anything iff it improves next's weight (absent = +infinity); then next gets the new weight, current as previous, and a pushed entry carrying that weight; no other node changes and no weight rises |
| RawDijkstra.PoppedIsLowerBound | shortest_path/raw_dijkstra.py:24-31 | the least queued priority is at most the cost of every walk to an unexpanded node |
| RawDijkstra.PoppedLabel | shortest_path/raw_dijkstra.py:25-31 | the popped unexpanded node's priority is its weight, the cost of a walk to it, and (with non-negative lengths) the least such cost |
| RawDijkstra.RelaxKeepsPrevious | shortest_path/raw_dijkstra.py:41-44 | a relaxation keeps every previous node an expanded predecessor along an arc |
| RawDijkstra.RelaxKeepsQueued | shortest_path/raw_dijkstra.py:41-44 | a relaxation keeps every unexpanded weight queued, with no entry below its node's weight |
| RawDijkstra.RelaxKeepsRelaxed | shortest_path/raw_dijkstra.py:41-42 | a relaxation never undoes an earlier one |
| RawDijkstra.RelaxKeepsWitnessed | shortest_path/raw_dijkstra.py:40-42 | every weight remains the cost of a walk from the source |
| RawDijkstra.SettledExtend | shortest_path/raw_dijkstra.py:25-31 | expanding the popped node at the weight it was popped with keeps every expanded node's weight the one it was expanded at |
| RawDijkstra.RelaxSkipsSettled | shortest_path/raw_dijkstra.py:40-44 | with the lower bounds, relaxing into an already expanded node other than the source changes nothing |
| RawDijkstra.RelaxStep | shortest_path/raw_dijkstra.py:33-44 | relaxing the next out-edge extends the inner loop's state by one edge, with walks witnessing the new weights |
| RawDijkstra.RelaxedAll | shortest_path/raw_dijkstra.py:33-44 | after the last out-edge, every arc out of an expanded node is relaxed from its expansion weight |
| RawDijkstra.RelaxOutEdges | shortest_path/raw_dijkstra.py:32-44 | the counter grows by the out-degree, and the invariants above hold after all out-edges are relaxed |
| RawDijkstra.ExpandKeepsQueue | shortest_path/raw_dijkstra.py:25-31 | removing the popped entry keeps the queue invariants for the enlarged visited set |
| RawDijkstra.ExpandKeepsLabels | shortest_path/raw_dijkstra.py:29-31 | marking the popped node visited keeps the label invariants and fixes its final weight |
| RawDijkstra.ExpandBookkeeping | shortest_path/raw_dijkstra.py:29-34 | each node is expanded at most once, and the counter equals the out-degrees of the expanded nodes |
| RawDijkstra.BeginExpand | shortest_path/raw_dijkstra.py:25-31 | the state after popping and marking a new node satisfies all invariants but the relaxation of its own edges |
| RawDijkstra.Expand | shortest_path/raw_dijkstra.py:28-44 | one expansion keeps the search invariant and leaves fewer nodes unvisited |
| RawDijkstra.InitialInv | shortest_path/raw_dijkstra.py:17-23 | the initial state (queue [(0, source)], only the source's previous entry) satisfies the search invariant |
| RawDijkstra.DiscardKeeps | shortest_path/raw_dijkstra.py:29-30 | discarding an already visited node keeps the invariant |
| RawDijkstra.InvGivesExpansionFacts | shortest_path/raw_dijkstra.py:29-31 | expanded nodes are distinct reachable graph nodes other than the destination |
| RawDijkstra.RankedExtend | shortest_path/raw_dijkstra.py:29-31 | expanding a node whose previous node is already expanded keeps each expanded node's previous node earlier in the expansion order |
| RawDijkstra.ExpandedChains | shortest_path/raw_dijkstra.py:41-43 | the previous entries lead from the i-th expanded node back to the source within i + 1 steps |
| RawDijkstra.WeightedChain | shortest_path/raw_dijkstra.py:41-43 | every weighted node leads back to the source through its previous entries within one step more than the expansions |
| RawDijkstra.DestinationPopped | shortest_path/raw_dijkstra.py:26-27 | when the destination is popped, the returned labels are correct: walks witness weights, previous nodes are expanded predecessors, and the destination's weight is minimal |
| RawDijkstra.QueueExhausted | shortest_path/raw_dijkstra.py:45 | an empty queue means every reachable node was expanded and the destination is unreachable |
| RawDijkstra.DijkstraRaw | shortest_path/raw_dijkstra.py:16-45 | a result iff the destination is reachable, None iff not; the counter is the out-degree sum of the expanded nodes, each expanded once; every weight is the cost of a walk and every previous entry an expanded predecessor along an arc; with non-negative lengths the destination's weight is the least walk cost (Dijkstra's guarantee) and its previous entries lead back to the source within one step more than the expansions |
| RawDijkstra.ReconstructPathRaw | shortest_path/raw_dijkstra.py:48-68 | the edges listed from destination back to source are the chain of previous nodes, and dist/time are the sums of km and hours over them |
| LabelSearch.Relax | shortest_path/dijkstra.py:35-39 | a relaxation pushes iff the new distance is strictly below next's; then it stores it, sets previous to current and pushes exactly the stored distance; no other label changes and the visited flag is kept |
| LabelSearch.RelaxOutEdges | shortest_path/dijkstra.py:28-39 | the counter grows by the out-degree; labels only fall, each fall from an expanded node along an arc; every successor ends at most the current distance plus the edge's cost under the pricing `cm`; from start labels every finite distance stays the cost of a walk from the source; the queue invariants are kept |
| LabelSearch.RelaxKeepsWitnessed | shortest_path/dijkstra.py:36-37 | a relaxation from a finite distance extends the walk to the current node by the arc, so every finite distance stays the cost of a walk from the source |
| LabelSearch.RelaxStep | shortest_path/dijkstra.py:28-39 | relaxing the next out-edge extends the inner loop's state by one edge, with walks witnessing the new distances |
| LabelSearch.RelaxStepKept | shortest_path/dijkstra.py:35-39 | relaxing the next out-edge keeps the labels' flags, falls and queue facts for one more edge |
| LabelSearch.RelaxBounds | shortest_path/dijkstra.py:35-37 | a relaxation only lowers distances, so each earlier successor stays within the current distance plus its edge cost |
| LabelSearch.RelaxKeeps | shortest_path/dijkstra.py:36-39 | one relaxation keeps the label and queue invariants |
| LabelSearch.DiscardKeeps | shortest_path/dijkstra.py:24-25 | skipping a popped node whose flag is set keeps the invariant |
| LabelSearch.ExpandBookkeeping | shortest_path/dijkstra.py:24-29 | each node is expanded at most once, and the counter equals the out-degrees of the expanded nodes |
| LabelSearch.BeginExpand | shortest_path/dijkstra.py:24-26 | setting the popped node's flag keeps the invariants; the flag set is the initial one plus the expanded nodes |
| LabelSearch.BeginExpandStart | shortest_path/dijkstra.py:24-26 | from start labels, setting the popped node's flag keeps the walk witnesses and every unflagged finite node queued, and the popped distance is finite |
| LabelSearch.Expand | shortest_path/dijkstra.py:26-39 | one expansion keeps the search invariant and leaves fewer nodes unexpanded |
| LabelSearch.FinishExpand | shortest_path/dijkstra.py:28-39 | after the out-edges are relaxed, the search invariant holds with the node expanded |
| LabelSearch.CompleteExpand | shortest_path/dijkstra.py:24-39 | the relaxation's guarantees restore the search invariant with the node expanded and one fewer node left |
| LabelSearch.SettleKeeps | shortest_path/dijkstra.py:28-39 | recording the expanded node's distance keeps every arc out of an expanded node relaxed |
| LabelSearch.PoppedIsLabelled | shortest_path/dijkstra.py:24 | every popped node other than the destination has a label |
| LabelSearch.DestinationPopped | shortest_path/dijkstra.py:19-22 | a popped destination is reachable |
| LabelSearch.QueueExhausted | shortest_path/dijkstra.py:44 | from start labels, an empty queue means everything reachable was expanded and the destination is unreachable |
| LabelSearch.InitialInv | shortest_path/dijkstra.py:15-16 | the queue [(0, source)] over the initial labels satisfies the invariant |
| LabelSearch.InvGivesResults | shortest_path/dijkstra.py:17-44 | the invariant gives monotone labels, the expansion facts and the counter |
| LabelSearch.SearchStep | shortest_path/dijkstra.py:18-39 | a stop means the destination was popped (and is reachable), with nothing changed; otherwise the invariant holds and the search made progress |
| LabelSearch.Search | shortest_path/dijkstra.py:11-44 | labels only fall, each fall from an expanded node along an arc, and the previous node changes only with the distance; flags are the initial ones plus the expanded nodes, each expanded once; the counter is their out-degree sum; every arc out of an expanded node ends within the distance its tail was expanded at plus the arc's `cm` cost; from start labels every finite distance is the source's plus the `cm` cost of a walk to the node, and True iff the destination is reachable |
| LabelSearch.Dijkstra | shortest_path/dijkstra.py:11-44 | `Search` priced by travel time: every arc out of an expanded node ends within the tail's expanded distance plus (km / maxspeed); from start labels every finite distance is the travel time of a walk from the source, and True iff the destination is reachable; the same flag and counter facts |
| LabelSearch.AStar | shortest_path/a_star.py:26-59 | `Search` priced by the geodesic sum: every arc (x, v) out of an expanded node ends within x's expanded distance plus (km + geo(v, destination)) / maxspeed; from start labels every finite distance is the A* cost of a walk from the source, and True iff the destination is reachable; the same flag and counter facts |
| LabelSearch.AStarRelaxStoresGeoTerm | shortest_path/a_star.py:48-52 | an A* relaxation stores the current distance plus (km + geo(next, destination)) / maxspeed, which with a non-negative geo is never below the Dijkstra step |
| EnhancedSearch.ExpectedDistance | shortest_path/a_star_enhanced.py:56-60 | undefined (division by zero) iff the scale factor is zero; at distance 0 the estimate is the geodesic distance; otherwise estimate × source distance = geodesic distance × travelled distance |
| EnhancedSearch.EnhancedCost | shortest_path/a_star_enhanced.py:62-64 | the stored step cost times the speed is km + 0.5·dd + 0.5·expected, never below the travel time for non-negative estimates |
| EnhancedSearch.Offered | shortest_path/a_star_enhanced.py:52-65 | the distance a scan offers is undefined iff the scale factor is zero, and is otherwise finite, from a finite current distance |
| EnhancedSearch.IsSet | shortest_path/a_star_enhanced.py:69 | the best distance counts as set iff it is neither unset nor 0.0, as Python truthiness decides |
| EnhancedSearch.Prune | shortest_path/a_star_enhanced.py:69-76 | pushed iff the best distance is unset or falsy, or dd is within it; a pruned node leaves the best unchanged; the first set stores dd, later ones the larger of dd and the source-destination distance |
| EnhancedSearch.PruneFirst | shortest_path/a_star_enhanced.py:69-76 | pruning the first k labelled nodes in turn pushes only listed nodes, and from an unset best always the first |
| EnhancedSearch.PruneAll | shortest_path/a_star_enhanced.py:69-76 | pruning a list of labelled nodes in turn pushes only listed nodes, and from an unset best always the first |
| EnhancedSearch.PruneFirstExtend | shortest_path/a_star_enhanced.py:69-76 | the pruning of a prefix does not depend on the nodes labelled after it |
| EnhancedSearch.PrunedSnoc | shortest_path/a_star_enhanced.py:69-76 | labelling one more node extends the pruning fold by that node's `Prune` step |
| EnhancedSearch.InitialInv | shortest_path/a_star_enhanced.py:30-33 | only the source flagged and queued satisfies the invariant |
| EnhancedSearch.PushedNodeFacts | shortest_path/a_star_enhanced.py:66-76 | a pushed node is a flagged, reachable graph node |
| EnhancedSearch.PopKeeps | shortest_path/a_star_enhanced.py:36 | popping keeps the invariant, pops only flagged reachable nodes, and never more pops than nodes |
| EnhancedSearch.LabelKeeps | shortest_path/a_star_enhanced.py:65-68 | labelling an unflagged successor keeps the invariant, touches no flagged label, and the node was never pushed |
| EnhancedSearch.RankedSnoc | shortest_path/a_star_enhanced.py:65-68 | labelling a node from the source or a labelled node keeps every labelled node's previous node earlier in the labelling order |
| EnhancedSearch.PushKeeps | shortest_path/a_star_enhanced.py:76 | pushing a newly labelled node keeps the invariant: each node is pushed at most once, with its stored distance |
| EnhancedSearch.LabelStep | shortest_path/a_star_enhanced.py:65-76 | labelling a successor with the offered distance when it is below its own, then pushing it as `Prune` decides, keeps the invariant and the pruning fold |
| EnhancedSearch.ScanEdge | shortest_path/a_star_enhanced.py:43-76 | one out-edge: a flagged target is skipped with nothing changed; otherwise the counter goes up by one, a zero scale factor stops the scan, and the target is labelled with the offered distance iff that is below its own, and pushed as `Prune` decides |
| EnhancedSearch.UnflaggedScans | shortest_path/a_star_enhanced.py:48-51 | the scans that find their target unflagged are at most the successors scanned |
| EnhancedSearch.UnflaggedScansSame | shortest_path/a_star_enhanced.py:48-51 | that count depends on the labelled nodes only through which successors were labelled |
| EnhancedSearch.ScanLabelStep | shortest_path/a_star_enhanced.py:42-68 | one more scanned edge extends the label facts; a node is labelled only at its first occurrence among the successors |
| EnhancedSearch.ScanCountStep | shortest_path/a_star_enhanced.py:48-51 | one more scanned edge extends the counter facts: counted when its target is unflagged |
| EnhancedSearch.ScanFactsStep | shortest_path/a_star_enhanced.py:42-76 | one more scanned edge extends the label and counter facts together |
| EnhancedSearch.ScanStart | shortest_path/a_star_enhanced.py:42 | before the first successor the scan state holds with nothing changed |
| EnhancedSearch.ScanStep | shortest_path/a_star_enhanced.py:43-76 | scanning the next successor covers one more successor, or stops on a zero scale factor with one more count and nothing else changed |
| EnhancedSearch.ScanLoop | shortest_path/a_star_enhanced.py:42-76 | the successors are scanned in order until the last, or until a scan stops on a zero scale factor |
| EnhancedSearch.ScanEnds | shortest_path/a_star_enhanced.py:42-76 | when the scan ends the invariant and pruning fold hold, new labels are successors, flagged labels are kept, and the counter has its bounds and exact value |
| EnhancedSearch.ScanOutEdges | shortest_path/a_star_enhanced.py:42-76 | the invariant is kept; flagged labels are never rewritten; each newly labelled node is a successor carrying the distance its scan offered (the popped node's distance plus `EnhancedCost`), and the pushes and the best distance stay the `Prune` fold of the labelled nodes; after a full scan the counter grew by exactly the scans that found their target unflagged, and from fresh labels by one per labelled node; it stops early only on a zero scale factor |
| EnhancedSearch.SearchStep | shortest_path/a_star_enhanced.py:35-76 | pops one node: Found iff it is the destination (then reachable); a division by zero only on its zero scale factor; the invariant holds |
| EnhancedSearch.AStarEnhanced | shortest_path/a_star_enhanced.py:26-81 | the source is flagged at once; labels are written once, only on unflagged nodes, each carrying the distance the scan from its popped previous node offered, strictly below its initial one; the pushed nodes are the source followed by the `Prune` fold of the labelled nodes in labelling order; each node is pushed and popped at most once; the counter is at least the labelled nodes and at most the popped nodes' out-degrees, and from start labels exactly the labelled nodes plus one on a division by zero; Found iff the destination is popped, and then it is reachable and its previous nodes lead back to the source; NotFound means the destination was never pushed; a division by zero only on a zero scale factor |
| EnhancedSearch.InvGivesResults | shortest_path/a_star_enhanced.py:31-81 | the invariant gives the write-once and push-once facts, and with an empty queue every pushed node was popped |
| EnhancedSearch.RankedChains | shortest_path/a_star_enhanced.py:65-68 | each labelled node leads back to the source through its previous nodes within one step more than its place in the labelling order |
| EnhancedSearch.PushedChains | shortest_path/a_star_enhanced.py:65-76 | every pushed node leads back to the source within as many steps as there are labelled nodes |
| EnhancedSearch.FreshLabelsFacts | shortest_path/a_star_enhanced.py:30-33 | from fresh labels, every unwritten unflagged label is still +infinity and every pushed node's distance is finite |
| Reconstruction.Bump | shortest_path/a_star.py:77 | one `<algorithm>_uses` attribute goes up by one, starting from 0 when absent; no other changes |
| Reconstruction.AddUses | shortest_path/a_star.py:76-77 | bumping the counters along a list of edges loses no counter and lowers none |
| Reconstruction.AddUsesCounts | shortest_path/a_star.py:76-77 | bumping along a list raises each edge's counter by its number of occurrences |
| Reconstruction.AddUsesKeepsOthers | shortest_path/a_star.py:76-77 | bumping along a list changes no other attribute and creates keys only on listed edges |
| Reconstruction.CountDistinct | shortest_path/a_star.py:76-77 | in a repeat-free list each listed edge occurs once |
| Reconstruction.ReconstructPath | shortest_path/a_star.py:61-78 | dist and time are the km and hours summed over the chain of previous nodes; with a truthy algorithm name each chain edge's `_uses` is bumped, otherwise the counters are unchanged (the identical `reconstruct_path` of a_star_enhanced.py, lines 83-100, is the same member) |
| Reconstruction.WalkBackStep | shortest_path/a_star.py:68-78 | one step back from a node other than the source keeps the walk state: the sums so far plus the sums over the rest of the chain give the whole chain's, and the counters are those bumped along the edges walked so far |
| Reconstruction.WalkBackDone | shortest_path/a_star.py:68-78 | once the walk stands at the source, dist and time are the whole chain's sums and the counters are bumped along the whole chain |
| Reconstruction.ReconstructCountsEachEdgeOnce | shortest_path/a_star.py:76-77 | each edge of the path has its `<algorithm>_uses` raised by exactly one; every other edge and attribute is unchanged |
| SpeedLimit.Digits | shortest_path/a_star.py:22 | writes a number as an all-digit string |
| SpeedLimit.IsNumeric | shortest_path/a_star.py:19-22 | a numeric string is non-empty and holds no sign, point, space or separator |
| SpeedLimit.ParseNat | shortest_path/a_star.py:19-23 | `int` of an all-digit string is 0 iff every digit is 0, and without a leading zero writes back to the same string |
| SpeedLimit.ParseNatLeadingZero | shortest_path/a_star.py:19-23 | a leading zero adds nothing to the value `int` gives, so "050" parses as "50" |
| SpeedLimit.ParseDigits | shortest_path/a_star.py:23 | parsing a number's written digits gives the number back |
| SpeedLimit.NumericSpeeds | shortest_path/a_star.py:19 | the comprehension keeps exactly the values of the all-digit entries |
| SpeedLimit.Min | shortest_path/a_star.py:21 | the least element of a non-empty list |
| SpeedLimit.CleanSpeed | shortest_path/a_star.py:15-23 | one edge's cleaned speed is never negative; a missing or non-string attribute gives 30; a numeric string gives exactly its value `ParseNat(s)` and any other string 30; a list gives 30 or the value of a numeric entry |
| SpeedLimit.CleanListIsLeastNumeric | shortest_path/a_star.py:18-21 | a list becomes the least value of its all-digit entries, or 30 when there is none |
| SpeedLimit.CleanSpeedZero | shortest_path/a_star.py:15-24 | a cleaned speed is 0 only when the attribute is a numeric string made of zeros, or a list holding one |
| SpeedLimit.ZeroStringGivesZero | shortest_path/a_star.py:22-23 | the string "0" becomes speed 0, which would later divide by zero |
| SpeedLimit.NotIdempotent | shortest_path/a_star.py:15-24 | cleaning twice resets every speed other than 30 to 30 |
| SpeedLimit.CleanMaxSpeed | shortest_path/a_star.py:12-24 | every edge keeps its length and gets exactly its cleaned speed, and there are no other keys |

## Left out

- The `run_*` drivers and `index.py`: HTTP geolocation, map download,
  nearest-node lookup, random destination choice and argument parsing are
  all I/O or foreign calls. The drivers' seeding of the source's distance
  with 0 is kept as `Labels.SeedSource`.
- Rendering: the `style_*` calls, `plot_graph`, `plot_heatmap`, and the
  print and format tail of the reconstruction functions. These are
  display side effects, except for one raise in the tail.
- Reconstruction.ReconstructPath, RawDijkstra.ReconstructPathRaw: the
  print tail divides the distance by the time for the average speed
  (raw_dijkstra.py:72, always; a_star.py:83 and a_star_enhanced.py:105,
  only with `plot`). It raises a ZeroDivisionError when the time is 0,
  as when the source is the destination or every path edge has length 0.
  The model returns the sums normally on those inputs.
- `haversine` and `find_distance_by_nodes` are floating-point
  trigonometry. The geodesic distance is the parameter `geo`, about which
  nothing is assumed except where a lemma says "non-negative".
- Floating point: all weights are mathematical reals, with +infinity
  modelled explicitly. Rounding is not modelled.
- Parallel multigraph edges: only key 0 is ever looked up, so one edge
  per ordered pair is kept.
- SpeedLimit.IsNumeric: only ASCII digit strings count as numeric.
  Python's `isnumeric` also accepts other Unicode digits and numerals.
- The dijkstra.py module's broken imports and call signatures: it names
  two functions that utils.py does not define, calls `create_simple_graph`
  with too many arguments, and passes unknown keyword arguments to
  `plot_graph`. The search loop is modelled with labels prepared as in
  utils.py and seeded as the other drivers do.
- In-place updates: the per-node label records, the edge attribute
  dictionaries and the graph are modelled as values passed in and
  returned. Aliasing between them is not modelled. The `iteration`
  counter is returned as a result.
- Heap layout: the queue is a sequence whose pop returns the least
  (priority, node) pair. The internal order of the binary heap is not
  modelled.
- RawDijkstra.DijkstraRaw, LabelSearch.Search, EnhancedSearch.AStarEnhanced:
  `ValidGraph` requires every successor listed anywhere in the graph to
  be a node, with an edge of positive speed. The code raises (a KeyError,
  or a ZeroDivisionError on speed 0) only when it scans such an edge, so a
  search that ends before reaching a bad edge returns normally in the code
  but is outside the model.
- EnhancedSearch.AStarEnhanced: requires the destination to be a graph
  node. The code looks up its geodesic distance before the loop and raises
  a KeyError when it is not (a_star_enhanced.py:34); that raise is not
  modelled.
- LabelSearch.AStar: when the destination is not a graph node, the code
  raises a KeyError at the first geodesic lookup, as soon as an edge is
  scanned (a_star.py:49). The geodesic distance is a total function here,
  so the model returns normally on that input.
- LabelSearch.Search: does not state that the previous nodes form a chain
  back to the source, which `ReconstructPath` requires; that chain is
  proved only for `DijkstraRaw` and `AStarEnhanced`.
- LabelSearch.Dijkstra, LabelSearch.AStar: optimality of the final labels
  is not stated. A* does not store pure travel times, and the
  label-record Dijkstra's guarantee is proved only for `DijkstraRaw`.
  Reachability is stated both ways only from start labels (all flags
  clear, all distances +infinity except the source's).
- EnhancedSearch.AStarEnhanced: NotFound does not mean unreachable. The
  pruning can drop the only route, and nothing stronger than "the
  destination was never pushed" holds.
- Reconstruction.ReconstructPath, RawDijkstra.ReconstructPathRaw: require
  a chain of previous nodes that reaches the source. On a cycle the code
  loops for ever; on a missing entry it raises. Neither outcome is
  modelled. The chain also requires every edge on it to have a positive
  speed (`maxspeed > 0` in `ChainBack`), which excludes the
  ZeroDivisionError the code raises on a speed-0 edge of the path
  (raw_dijkstra.py:67, a_star.py:74).
