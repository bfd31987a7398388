/** The searches over node records: `dijkstra` (travel-time edge cost) and
    `a_star` (travel time with the geodesic distance of the edge's target to
    the destination added to the length). Both pop the least
    (distance, node) pair, stop at the destination, skip visited nodes, and
    relax every out-edge from the current node's stored distance. */
module LabelSearch {
  import opened RoadGraph
  import opened PriorityQueue
  import opened Labels

  /** The outcome of one relaxation: the new labels and the pushed entry, if any. */
  datatype Step = Step(labels: map<NodeId, Label>, pushed: Option<Entry>)

  /** Relaxes the edge current -> next of step cost `cost`: when the current
      node's distance plus the cost is strictly below next's distance, that
      sum becomes next's distance, current its previous node, and the pair
      (distance, next) is pushed. */
  function Relax(labels: map<NodeId, Label>, current: NodeId, next: NodeId, cost: real): (s: Step)
    requires current in labels && next in labels
    ensures s.labels.Keys == labels.Keys
    ensures forall n :: n in labels && n != next ==> s.labels[n] == labels[n]
    ensures s.labels[next].visited == labels[next].visited
    ensures s.pushed.Some? <==> Below(Plus(labels[current].distance, cost), labels[next].distance)
    ensures s.pushed.None? ==> s.labels == labels
    ensures s.pushed.Some? ==>
      && s.pushed.value.node == next
      && s.labels[next].distance == Finite(s.pushed.value.priority) == Plus(labels[current].distance, cost)
      && s.labels[next].previous == Some(current)
    ensures AtMost(s.labels[next].distance, labels[next].distance)
  {
    var newDistance := Plus(labels[current].distance, cost);
    if Below(newDistance, labels[next].distance) then
      Step(labels[next := labels[next].(distance := newDistance, previous := Some(current))], Some(Entry(newDistance.r, next)))
    else
      Step(labels, None)
  }

  /** Distances only go down, and a previous node only changes together with
      the distance. */
  ghost predicate Monotone(labels0: map<NodeId, Label>, labels: map<NodeId, Label>) {
    && labels.Keys == labels0.Keys
    && forall n :: n in labels0 ==>
      && AtMost(labels[n].distance, labels0[n].distance)
      && (labels[n].previous != labels0[n].previous ==> labels[n].distance != labels0[n].distance)
  }

  /** Every lowered distance came from an expanded node along an arc. */
  ghost predicate Lowered(g: Graph, labels0: map<NodeId, Label>, labels: map<NodeId, Label>, expanded: seq<NodeId>)
    requires labels.Keys == labels0.Keys
  {
    forall n :: n in labels0 && labels[n].distance != labels0[n].distance ==>
      labels[n].previous.Some? && labels[n].previous.value in expanded && Arc(g, labels[n].previous.value, n)
  }

  /** Every queued node is reachable, and is the source or a graph node with a finite distance. */
  ghost predicate QueueOk(g: Graph, source: NodeId, labels: map<NodeId, Label>, queue: seq<Entry>) {
    forall e :: e in queue ==>
      && Reachable(g, source, e.node)
      && (e.node == source || (e.node in g.nodes && e.node in labels && labels[e.node].distance.Finite?))
  }

  /** The current distance of every unvisited node other than the source
      that has a finite distance is queued. */
  ghost predicate Queued(source: NodeId, labels: map<NodeId, Label>, queue: seq<Entry>) {
    forall v :: v in labels && !labels[v].visited && v != source && labels[v].distance.Finite? ==>
      Entry(labels[v].distance.r, v) in queue
  }

  /** Each arc out of an expanded node leads to a visited node or to one
      with a finite distance. */
  ghost predicate Closure(g: Graph, labels: map<NodeId, Label>, expanded: seq<NodeId>) {
    forall x, v :: x in expanded && Arc(g, x, v) ==> v in labels && (labels[v].visited || labels[v].distance.Finite?)
  }

  /** Every arc out of an expanded node has been relaxed: the target's
      distance is at most the distance `settled[x]` the node had when it was
      expanded plus the arc's cost. */
  ghost predicate RelaxedFrom(g: Graph, cm: CostModel, labels: map<NodeId, Label>, expanded: seq<NodeId>,
                              settled: map<NodeId, Dist>)
  {
    forall x, v :: x in expanded && Arc(g, x, v) ==>
      x in settled && v in labels && AtMost(labels[v].distance, Plus(settled[x], ArcCost(g, cm, x, v)))
  }

  /** Every finite distance is the source's starting distance plus the cost
      of a walk `wit[n]` from the source (used from start labels). */
  ghost predicate Witnessed(g: Graph, cm: CostModel, source: NodeId, labels0: map<NodeId, Label>,
                            labels: map<NodeId, Label>, wit: map<NodeId, seq<NodeId>>)
  {
    && source in labels0 && labels0[source].distance.Finite?
    && forall n :: n in labels && labels[n].distance.Finite? ==>
      n in wit && PathFromTo(g, wit[n], source, n) &&
      labels[n].distance.r == labels0[source].distance.r + PathCost(g, cm, wit[n])
  }

  /** A relaxation that lowers `next` from a finite `current` extends the
      walk to `current` by the arc into `next`, so every finite distance
      stays the cost of a walk from the source. */
  lemma RelaxKeepsWitnessed(g: Graph, cm: CostModel, source: NodeId, labels0: map<NodeId, Label>,
                            labels: map<NodeId, Label>, wit: map<NodeId, seq<NodeId>>, current: NodeId, next: NodeId)
    returns (wit': map<NodeId, seq<NodeId>>)
    requires ValidGraph(g) && Arc(g, current, next) && current in labels && next in labels
    requires labels[current].distance.Finite?
    requires Witnessed(g, cm, source, labels0, labels, wit)
    ensures Witnessed(g, cm, source, labels0,
                      Relax(labels, current, next, StepCost(cm, g.edges[(current, next)], next)).labels, wit')
  {
    var cost := StepCost(cm, g.edges[(current, next)], next);
    var s := Relax(labels, current, next, cost);
    wit' := wit;
    if s.pushed.Some? {
      var p := wit[current];
      PathSnoc(g, p, source, current, next);
      PathCostSnoc(g, cm, p, next);
      assert ArcCost(g, cm, current, next) == cost;
      wit' := wit[next := p + [next]];
      forall n | n in s.labels && s.labels[n].distance.Finite?
        ensures n in wit' && PathFromTo(g, wit'[n], source, n) &&
                s.labels[n].distance.r == labels0[source].distance.r + PathCost(g, cm, wit'[n])
      {
        if n != next {
          assert s.labels[n] == labels[n];
        }
      }
    }
  }

  /** What the relaxation loop keeps after the first `i` out-edges of
      `current`: the label and queue invariants, visited flags and finite
      distances, and from start labels the scanned targets finite and every
      finite distance a walk cost. */
  ghost predicate RelaxKept(g: Graph, cm: CostModel, source: NodeId, labels0: map<NodeId, Label>,
                            labels: map<NodeId, Label>, current: NodeId, expanded: seq<NodeId>, start: bool,
                            nextNodes: seq<NodeId>, i: nat, labels': map<NodeId, Label>, queue': seq<Entry>,
                            wit': map<NodeId, seq<NodeId>>)
    requires i <= |nextNodes| && labels.Keys == labels0.Keys && current in labels
    requires forall j :: 0 <= j < |nextNodes| ==> nextNodes[j] in labels
  {
    && Monotone(labels0, labels') && Lowered(g, labels0, labels', expanded)
    && (forall n :: n in labels ==> labels'[n].visited == labels[n].visited)
    && (forall n :: n in labels && labels[n].distance.Finite? ==> labels'[n].distance.Finite?)
    && QueueOk(g, source, labels', queue')
    && (start ==> Queued(source, labels', queue') && labels'[current].distance.Finite?)
    && (start ==> forall j :: 0 <= j < i ==> labels'[nextNodes[j]].visited || labels'[nextNodes[j]].distance.Finite?)
    && (start ==> Witnessed(g, cm, source, labels0, labels', wit'))
  }

  /** The distance bounds after the first `i` out-edges of `current`:
      distances only lowered, and each scanned target at most the current
      node's distance plus the step cost. */
  ghost predicate RelaxBounded(g: Graph, cm: CostModel, labels: map<NodeId, Label>, current: NodeId,
                               nextNodes: seq<NodeId>, i: nat, labels': map<NodeId, Label>)
    requires ValidGraph(g) && i <= |nextNodes| && labels'.Keys == labels.Keys && current in labels
    requires forall j :: 0 <= j < |nextNodes| ==> Arc(g, current, nextNodes[j]) && nextNodes[j] in labels
  {
    && (forall n :: n in labels ==> AtMost(labels'[n].distance, labels[n].distance))
    && (forall j :: 0 <= j < i ==>
          AtMost(labels'[nextNodes[j]].distance,
                 Plus(labels[current].distance, StepCost(cm, g.edges[(current, nextNodes[j])], nextNodes[j]))))
  }

  /** The state of the relaxation loop after the first `i` out-edges. */
  ghost predicate RelaxLoopInv(g: Graph, cm: CostModel, source: NodeId, labels0: map<NodeId, Label>,
                               labels: map<NodeId, Label>, current: NodeId, expanded: seq<NodeId>, start: bool,
                               nextNodes: seq<NodeId>, i: nat, labels': map<NodeId, Label>, queue': seq<Entry>,
                               wit': map<NodeId, seq<NodeId>>)
  {
    && ValidGraph(g) && i <= |nextNodes| && labels.Keys == labels0.Keys && current in labels
    && (forall j :: 0 <= j < |nextNodes| ==> Arc(g, current, nextNodes[j]) && nextNodes[j] in labels)
    && RelaxKept(g, cm, source, labels0, labels, current, expanded, start, nextNodes, i, labels', queue', wit')
    && RelaxBounded(g, cm, labels, current, nextNodes, i, labels')
  }

  /** Relaxing the `i`-th out-edge of `current` (giving `labelsN` and
      `queueN`) extends the loop state by one edge; the returned map
      witnesses the new distances. */
  lemma RelaxStep(g: Graph, cm: CostModel, source: NodeId, labels0: map<NodeId, Label>,
                  labels: map<NodeId, Label>, current: NodeId, expanded: seq<NodeId>, start: bool,
                  nextNodes: seq<NodeId>, i: nat, labelsC: map<NodeId, Label>, queueC: seq<Entry>,
                  witC: map<NodeId, seq<NodeId>>, labelsN: map<NodeId, Label>, queueN: seq<Entry>)
    returns (wit': map<NodeId, seq<NodeId>>)
    requires ValidGraph(g) && g.nodes.Keys <= labels0.Keys
    requires current in g.nodes && current in expanded && Reachable(g, source, current)
    requires i < |nextNodes| && Arc(g, current, nextNodes[i])
    requires RelaxLoopInv(g, cm, source, labels0, labels, current, expanded, start, nextNodes, i, labelsC, queueC, witC)
    requires var s := Relax(labelsC, current, nextNodes[i], StepCost(cm, g.edges[(current, nextNodes[i])], nextNodes[i]));
      labelsN == s.labels && queueN == if s.pushed.Some? then Push(queueC, s.pushed.value) else queueC
    ensures RelaxLoopInv(g, cm, source, labels0, labels, current, expanded, start, nextNodes, i + 1, labelsN, queueN, wit')
  {
    wit' := RelaxStepKept(g, cm, source, labels0, labels, current, expanded, start, nextNodes, i,
                          labelsC, queueC, witC, labelsN, queueN);
    RelaxBounds(g, cm, labels, labelsC, current, nextNodes, i);
  }

  /** The kept part of `RelaxStep`. */
  lemma RelaxStepKept(g: Graph, cm: CostModel, source: NodeId, labels0: map<NodeId, Label>,
                      labels: map<NodeId, Label>, current: NodeId, expanded: seq<NodeId>, start: bool,
                      nextNodes: seq<NodeId>, i: nat, labelsC: map<NodeId, Label>, queueC: seq<Entry>,
                      witC: map<NodeId, seq<NodeId>>, labelsN: map<NodeId, Label>, queueN: seq<Entry>)
    returns (wit': map<NodeId, seq<NodeId>>)
    requires ValidGraph(g) && g.nodes.Keys <= labels0.Keys
    requires current in g.nodes && current in expanded && Reachable(g, source, current)
    requires i < |nextNodes| && Arc(g, current, nextNodes[i])
    requires labels.Keys == labels0.Keys && current in labels
    requires forall j :: 0 <= j < |nextNodes| ==> nextNodes[j] in labels
    requires RelaxKept(g, cm, source, labels0, labels, current, expanded, start, nextNodes, i, labelsC, queueC, witC)
    requires var s := Relax(labelsC, current, nextNodes[i], StepCost(cm, g.edges[(current, nextNodes[i])], nextNodes[i]));
      labelsN == s.labels && queueN == if s.pushed.Some? then Push(queueC, s.pushed.value) else queueC
    ensures RelaxKept(g, cm, source, labels0, labels, current, expanded, start, nextNodes, i + 1, labelsN, queueN, wit')
  {
    var next := nextNodes[i];
    var cost := StepCost(cm, g.edges[(current, next)], next);
    RelaxKeeps(g, source, labels0, labelsC, queueC, current, next, cost, expanded, start);
    wit' := witC;
    if start {
      wit' := RelaxKeepsWitnessed(g, cm, source, labels0, labelsC, witC, current, next);
    }
  }

  /** Relaxes the out-edges of the just-expanded node `current` in order, one
      `iteration` per edge (the inner loop of both searches). */
  method RelaxOutEdges(g: Graph, cm: CostModel, source: NodeId, labels0: map<NodeId, Label>,
                       labels: map<NodeId, Label>, queue: seq<Entry>, current: NodeId, iteration: nat,
                       ghost expanded: seq<NodeId>, ghost start: bool, ghost wit: map<NodeId, seq<NodeId>>)
    returns (labels': map<NodeId, Label>, queue': seq<Entry>, iteration': nat, ghost wit': map<NodeId, seq<NodeId>>)
    requires ValidGraph(g) && g.nodes.Keys <= labels0.Keys
    requires current in g.nodes && current in expanded
    requires Monotone(labels0, labels) && Lowered(g, labels0, labels, expanded)
    requires QueueOk(g, source, labels, queue) && Reachable(g, source, current)
    requires start ==> Queued(source, labels, queue) && labels[current].distance.Finite?
    requires start ==> Witnessed(g, cm, source, labels0, labels, wit)
    ensures iteration' == iteration + |g.nodes[current]|
    ensures Monotone(labels0, labels') && Lowered(g, labels0, labels', expanded)
    ensures forall n :: n in labels ==> AtMost(labels'[n].distance, labels[n].distance)
    ensures forall v :: Arc(g, current, v) ==>
      AtMost(labels'[v].distance, Plus(labels[current].distance, StepCost(cm, g.edges[(current, v)], v)))
    ensures start ==> Witnessed(g, cm, source, labels0, labels', wit')
    ensures forall n :: n in labels ==> labels'[n].visited == labels[n].visited
    ensures forall n :: n in labels && labels[n].distance.Finite? ==> labels'[n].distance.Finite?
    ensures QueueOk(g, source, labels', queue')
    ensures start ==> Queued(source, labels', queue')
    ensures start ==> forall v :: Arc(g, current, v) ==> labels'[v].visited || labels'[v].distance.Finite?
  {
    labels', queue', iteration', wit' := labels, queue, iteration, wit;
    var nextNodes := g.nodes[current];
    assert forall j :: 0 <= j < |nextNodes| ==> Arc(g, current, nextNodes[j]);
    var i := 0;
    while i < |nextNodes|
      invariant 0 <= i <= |nextNodes|
      invariant iteration' == iteration + i
      invariant RelaxLoopInv(g, cm, source, labels0, labels, current, expanded, start, nextNodes, i, labels', queue', wit')
    {
      var next := nextNodes[i];
      iteration' := iteration' + 1;
      var cost := StepCost(cm, g.edges[(current, next)], next);
      ghost var labelsC, queueC := labels', queue';
      var step := Relax(labels', current, next, cost);
      labels' := step.labels;
      if step.pushed.Some? {
        queue' := Push(queue', step.pushed.value);
      }
      wit' := RelaxStep(g, cm, source, labels0, labels, current, expanded, start, nextNodes, i,
                        labelsC, queueC, wit', labels', queue');
      i := i + 1;
    }
    forall v | Arc(g, current, v)
      ensures start ==> labels'[v].visited || labels'[v].distance.Finite?
      ensures AtMost(labels'[v].distance, Plus(labels[current].distance, StepCost(cm, g.edges[(current, v)], v)))
    {
      var j :| 0 <= j < |nextNodes| && nextNodes[j] == v;
    }
  }

  /** A relaxation only lowers distances and leaves `next` at most the
      current node's distance plus the step cost, so bounds taken against
      the labels before the scan survive it. */
  lemma RelaxBounds(g: Graph, cm: CostModel, labels: map<NodeId, Label>, labels': map<NodeId, Label>,
                    current: NodeId, xs: seq<NodeId>, i: nat)
    requires ValidGraph(g) && i < |xs| && labels'.Keys == labels.Keys && current in labels
    requires forall j :: 0 <= j < |xs| ==> Arc(g, current, xs[j]) && xs[j] in labels
    requires forall n :: n in labels ==> AtMost(labels'[n].distance, labels[n].distance)
    requires forall j :: 0 <= j < i ==>
      AtMost(labels'[xs[j]].distance, Plus(labels[current].distance, StepCost(cm, g.edges[(current, xs[j])], xs[j])))
    ensures var s := Relax(labels', current, xs[i], StepCost(cm, g.edges[(current, xs[i])], xs[i]));
      && (forall n :: n in labels ==> AtMost(s.labels[n].distance, labels[n].distance))
      && (forall j :: 0 <= j < i + 1 ==>
            AtMost(s.labels[xs[j]].distance, Plus(labels[current].distance, StepCost(cm, g.edges[(current, xs[j])], xs[j]))))
  {
    var cost := StepCost(cm, g.edges[(current, xs[i])], xs[i]);
    var s := Relax(labels', current, xs[i], cost);
    assert AtMost(Plus(labels'[current].distance, cost), Plus(labels[current].distance, cost));
    forall j | 0 <= j < i + 1
      ensures AtMost(s.labels[xs[j]].distance, Plus(labels[current].distance, StepCost(cm, g.edges[(current, xs[j])], xs[j])))
    {
      if xs[j] != xs[i] {
        assert s.labels[xs[j]] == labels'[xs[j]];
      }
    }
  }

  /** One relaxation from an expanded, reachable node keeps the label and
      queue invariants, leaves every visited flag alone, keeps finite
      distances finite, and (from a finite distance) gives `next` one. */
  lemma RelaxKeeps(g: Graph, source: NodeId, labels0: map<NodeId, Label>, labels: map<NodeId, Label>,
                   queue: seq<Entry>, current: NodeId, next: NodeId, cost: real, expanded: seq<NodeId>, start: bool)
    requires ValidGraph(g) && g.nodes.Keys <= labels0.Keys
    requires current in expanded && Arc(g, current, next) && Reachable(g, source, current)
    requires Monotone(labels0, labels) && Lowered(g, labels0, labels, expanded)
    requires QueueOk(g, source, labels, queue)
    requires start ==> Queued(source, labels, queue) && labels[current].distance.Finite?
    ensures var s := Relax(labels, current, next, cost);
      var queue' := if s.pushed.Some? then Push(queue, s.pushed.value) else queue;
      && Monotone(labels0, s.labels) && Lowered(g, labels0, s.labels, expanded)
      && (forall n :: n in labels ==> s.labels[n].visited == labels[n].visited)
      && (forall n :: n in labels && labels[n].distance.Finite? ==> s.labels[n].distance.Finite?)
      && QueueOk(g, source, s.labels, queue')
      && (start ==> Queued(source, s.labels, queue') && s.labels[current].distance.Finite?)
      && (start ==> s.labels[next].visited || s.labels[next].distance.Finite?)
  {
    var s := Relax(labels, current, next, cost);
    if s.pushed.Some? {
      ReachableSnoc(g, source, current, next);
      var queue' := Push(queue, s.pushed.value);
      assert s.labels[next].distance.r == s.pushed.value.priority;
      forall v | v in s.labels && !s.labels[v].visited && v != source && s.labels[v].distance.Finite? && start
        ensures Entry(s.labels[v].distance.r, v) in queue'
      {
        if v != next {
          assert Entry(labels[v].distance.r, v) in queue;
        }
      }
    }
  }

  /** The loop invariant of the search: labels only improve, each lowered
      label came from an expanded node, the expanded nodes are distinct,
      reachable and were unvisited, every edge scan is counted, queued
      nodes are reachable, and every arc out of an expanded node was relaxed
      from the distance `settled` records for it. From start labels, the
      queue also holds every unvisited finite node, expanded nodes only lead
      to visited or finite ones, and finite distances are walk costs. */
  ghost predicate SearchInv(g: Graph, cm: CostModel, source: NodeId, destination: NodeId, labels0: map<NodeId, Label>,
                            labels: map<NodeId, Label>, queue: seq<Entry>, iteration: nat,
                            expanded: seq<NodeId>, done: set<NodeId>, settled: map<NodeId, Dist>,
                            wit: map<NodeId, seq<NodeId>>, start: bool)
  {
    && Monotone(labels0, labels) && Lowered(g, labels0, labels, expanded)
    && Distinct(expanded) && destination !in expanded
    && (forall x :: x in expanded <==> x in done) && done <= g.nodes.Keys
    && (forall x :: x in expanded ==> x in labels0 && !labels0[x].visited && Reachable(g, source, x))
    && (forall n :: n in labels0 ==> (labels[n].visited <==> labels0[n].visited || n in expanded))
    && iteration == OutDegrees(g, expanded)
    && QueueOk(g, source, labels, queue)
    && (source == destination || source in labels)
    && ((source in labels ==> !labels[source].visited) ==> expanded == [] && queue == [Entry(0.0, source)])
    && (forall x :: x in expanded ==> x in settled && x in labels && AtMost(labels[x].distance, settled[x]))
    && RelaxedFrom(g, cm, labels, expanded, settled)
    && (start ==> StartLabels(labels0, source) && Witnessed(g, cm, source, labels0, labels, wit))
    && (start ==> Queued(source, labels, queue) && labels[source].distance.Finite? && Closure(g, labels, expanded))
  }

  /** Popping a visited node only shrinks the queue. */
  lemma DiscardKeeps(g: Graph, cm: CostModel, source: NodeId, destination: NodeId, labels0: map<NodeId, Label>,
                     labels: map<NodeId, Label>, queue: seq<Entry>, iteration: nat,
                     expanded: seq<NodeId>, done: set<NodeId>, settled: map<NodeId, Dist>,
                     wit: map<NodeId, seq<NodeId>>, start: bool, top: Entry, rest: seq<Entry>)
    requires SearchInv(g, cm, source, destination, labels0, labels, queue, iteration, expanded, done, settled, wit, start)
    requires top in queue && top.node in labels && labels[top.node].visited
    requires forall x :: x in rest ==> x in queue
    requires forall x :: x in queue && x != top ==> x in rest
    ensures SearchInv(g, cm, source, destination, labels0, labels, rest, iteration, expanded, done, settled, wit, start)
  {
    if start {
      forall v | v in labels && !labels[v].visited && v != source && labels[v].distance.Finite?
        ensures Entry(labels[v].distance.r, v) in rest
      {
        assert Entry(labels[v].distance.r, v) in queue;
      }
    }
  }

  /** Recording one more expanded node, a graph node not yet expanded and
      not the destination, keeps the bookkeeping of the expansion order. */
  lemma ExpandBookkeeping(g: Graph, destination: NodeId, iteration: nat, expanded: seq<NodeId>,
                          done: set<NodeId>, u: NodeId)
    requires u in g.nodes && u !in done && u != destination
    requires Distinct(expanded) && destination !in expanded
    requires (forall x :: x in expanded <==> x in done) && done <= g.nodes.Keys
    requires iteration == OutDegrees(g, expanded)
    ensures |g.nodes.Keys - (done + {u})| < |g.nodes.Keys - done|
    ensures Distinct(expanded + [u]) && destination !in expanded + [u]
    ensures (forall x :: x in expanded + [u] <==> x in done + {u}) && done + {u} <= g.nodes.Keys
    ensures OutDegrees(g, expanded + [u]) == iteration + |g.nodes[u]|
  {
    FewerUnvisited(g.nodes.Keys, done, u);
    OutDegreesSnoc(g, expanded, u);
    assert Distinct(expanded + [u]) by {
      assert u !in expanded;
    }
  }

  /** Marking the popped unvisited node visited keeps the label invariants
      and sets up the relaxation of its out-edges. */
  lemma BeginExpand(g: Graph, cm: CostModel, source: NodeId, destination: NodeId, labels0: map<NodeId, Label>,
                    labels: map<NodeId, Label>, queue: seq<Entry>, iteration: nat,
                    expanded: seq<NodeId>, done: set<NodeId>, settled: map<NodeId, Dist>,
                    wit: map<NodeId, seq<NodeId>>, start: bool, top: Entry, rest: seq<Entry>)
    requires ValidGraph(g) && g.nodes.Keys <= labels0.Keys && (source == destination || source in g.nodes)
    requires SearchInv(g, cm, source, destination, labels0, labels, queue, iteration, expanded, done, settled, wit, start)
    requires top in queue && top.node != destination && top.node in labels && !labels[top.node].visited
    requires forall x :: x in rest ==> x in queue
    requires forall x :: x in queue && x != top ==> x in rest
    ensures var u := top.node;
      var labels' := labels[u := labels[u].(visited := true)];
      && u in g.nodes && u !in done && Reachable(g, source, u)
      && Monotone(labels0, labels') && Lowered(g, labels0, labels', expanded + [u])
      && (forall n :: n in labels0 ==> (labels'[n].visited <==> labels0[n].visited || n in expanded + [u]))
      && QueueOk(g, source, labels', rest)
      && source in labels' && labels'[source].visited
      && (forall x :: x in expanded ==> x in settled && x in labels' && AtMost(labels'[x].distance, settled[x]))
      && RelaxedFrom(g, cm, labels', expanded, settled)
      && (start ==> Witnessed(g, cm, source, labels0, labels', wit))
      && (start ==> Queued(source, labels', rest) && labels'[u].distance.Finite? && labels'[source].distance.Finite?)
      && (start ==> Closure(g, labels', expanded))
  {
    var u := top.node;
    var labels' := labels[u := labels[u].(visited := true)];
    assert (source in labels ==> !labels[source].visited) ==> u == source;
    assert Monotone(labels0, labels');
    assert Lowered(g, labels0, labels', expanded + [u]);
    assert QueueOk(g, source, labels', rest);
    assert RelaxedFrom(g, cm, labels', expanded, settled);
    if start {
      BeginExpandStart(g, cm, source, destination, labels0, labels, queue, iteration, expanded, done, settled, wit,
                       top, rest);
    }
  }

  /** From start labels, marking the popped node visited keeps every
      unvisited finite node queued, the closure of the expanded nodes and
      the walk witnesses, and the popped node's distance is finite. */
  lemma BeginExpandStart(g: Graph, cm: CostModel, source: NodeId, destination: NodeId, labels0: map<NodeId, Label>,
                         labels: map<NodeId, Label>, queue: seq<Entry>, iteration: nat,
                         expanded: seq<NodeId>, done: set<NodeId>, settled: map<NodeId, Dist>,
                         wit: map<NodeId, seq<NodeId>>, top: Entry, rest: seq<Entry>)
    requires ValidGraph(g) && g.nodes.Keys <= labels0.Keys && (source == destination || source in g.nodes)
    requires SearchInv(g, cm, source, destination, labels0, labels, queue, iteration, expanded, done, settled, wit, true)
    requires top in queue && top.node != destination && top.node in labels && !labels[top.node].visited
    requires forall x :: x in queue && x != top ==> x in rest
    ensures var u := top.node;
      var labels' := labels[u := labels[u].(visited := true)];
      && Witnessed(g, cm, source, labels0, labels', wit)
      && Queued(source, labels', rest) && labels'[u].distance.Finite? && labels'[source].distance.Finite?
      && Closure(g, labels', expanded)
  {
    var u := top.node;
    var labels' := labels[u := labels[u].(visited := true)];
    forall v | v in labels' && !labels'[v].visited && v != source && labels'[v].distance.Finite?
      ensures Entry(labels'[v].distance.r, v) in rest
    {
      assert Entry(labels[v].distance.r, v) in queue;
    }
    assert labels'[u].distance.Finite?;
  }

  /** One expansion: the popped node, neither the destination nor visited,
      is marked visited and its out-edges are relaxed; its distance at that
      moment is recorded in `settled`. */
  method Expand(g: Graph, cm: CostModel, source: NodeId, destination: NodeId, labels0: map<NodeId, Label>,
                labels: map<NodeId, Label>, queue: seq<Entry>, iteration: nat,
                ghost expanded: seq<NodeId>, ghost done: set<NodeId>, ghost settled: map<NodeId, Dist>,
                ghost wit: map<NodeId, seq<NodeId>>, ghost start: bool, top: Entry, rest: seq<Entry>)
    returns (labels': map<NodeId, Label>, queue': seq<Entry>, iteration': nat,
             ghost expanded': seq<NodeId>, ghost done': set<NodeId>, ghost settled': map<NodeId, Dist>,
             ghost wit': map<NodeId, seq<NodeId>>)
    requires ValidGraph(g) && g.nodes.Keys <= labels0.Keys && (source == destination || source in g.nodes)
    requires SearchInv(g, cm, source, destination, labels0, labels, queue, iteration, expanded, done, settled, wit, start)
    requires top in queue && top.node != destination && top.node in labels && !labels[top.node].visited
    requires forall x :: x in rest ==> x in queue
    requires forall x :: x in queue && x != top ==> x in rest
    ensures SearchInv(g, cm, source, destination, labels0, labels', queue', iteration', expanded', done', settled', wit', start)
    ensures |g.nodes.Keys - done'| < |g.nodes.Keys - done|
  {
    var u := top.node;
    BeginExpand(g, cm, source, destination, labels0, labels, queue, iteration, expanded, done, settled, wit, start, top, rest);
    var marked := labels[u := labels[u].(visited := true)];
    expanded', done', settled' := expanded + [u], done + {u}, settled[u := marked[u].distance];
    labels', queue', iteration', wit' := RelaxOutEdges(g, cm, source, labels0, marked, rest, u, iteration, expanded', start, wit);
    CompleteExpand(g, cm, source, destination, labels0, labels, queue, iteration, expanded, done, settled, wit, start,
                   top, rest, labels', queue', iteration', wit');
  }

  /** The expansion of `top.node` ends with the search invariant restored,
      given what the relaxation of its out-edges (from `rest` and the
      labels with `top.node` marked visited) guarantees. */
  lemma CompleteExpand(g: Graph, cm: CostModel, source: NodeId, destination: NodeId, labels0: map<NodeId, Label>,
                       labels: map<NodeId, Label>, queue: seq<Entry>, iteration: nat,
                       expanded: seq<NodeId>, done: set<NodeId>, settled: map<NodeId, Dist>,
                       wit: map<NodeId, seq<NodeId>>, start: bool, top: Entry, rest: seq<Entry>,
                       labels': map<NodeId, Label>, queue': seq<Entry>, iteration': nat, wit': map<NodeId, seq<NodeId>>)
    requires ValidGraph(g) && g.nodes.Keys <= labels0.Keys && (source == destination || source in g.nodes)
    requires SearchInv(g, cm, source, destination, labels0, labels, queue, iteration, expanded, done, settled, wit, start)
    requires top in queue && top.node != destination && top.node in labels && !labels[top.node].visited
    requires forall x :: x in rest ==> x in queue
    requires forall x :: x in queue && x != top ==> x in rest
    requires var u := top.node;
      var marked := labels[u := labels[u].(visited := true)];
      && u in g.nodes
      && iteration' == iteration + |g.nodes[u]|
      && Monotone(labels0, labels') && Lowered(g, labels0, labels', expanded + [u])
      && (forall n :: n in marked ==> AtMost(labels'[n].distance, marked[n].distance))
      && (forall v :: Arc(g, u, v) ==>
            AtMost(labels'[v].distance, Plus(marked[u].distance, StepCost(cm, g.edges[(u, v)], v))))
      && (start ==> Witnessed(g, cm, source, labels0, labels', wit'))
      && (forall n :: n in marked ==> labels'[n].visited == marked[n].visited)
      && (forall n :: n in marked && marked[n].distance.Finite? ==> labels'[n].distance.Finite?)
      && QueueOk(g, source, labels', queue')
      && (start ==> Queued(source, labels', queue'))
      && (start ==> forall v :: Arc(g, u, v) ==> labels'[v].visited || labels'[v].distance.Finite?)
    ensures var u := top.node;
      && SearchInv(g, cm, source, destination, labels0, labels', queue', iteration', expanded + [u], done + {u},
                   settled[u := labels[u].distance], wit', start)
      && |g.nodes.Keys - (done + {u})| < |g.nodes.Keys - done|
  {
    var u := top.node;
    BeginExpand(g, cm, source, destination, labels0, labels, queue, iteration, expanded, done, settled, wit, start, top, rest);
    ExpandBookkeeping(g, destination, iteration, expanded, done, u);
    var marked := labels[u := labels[u].(visited := true)];
    assert marked[u].distance == labels[u].distance;
    SettleKeeps(g, cm, marked, labels', expanded, settled, u);
    FinishExpand(g, cm, source, destination, labels0, marked, labels', queue', iteration', expanded, done + {u},
                 settled[u := marked[u].distance], wit', start, u);
  }

  /** After the out-edges of `u` are relaxed from its current distance, that
      distance, recorded as settled, keeps every arc out of an expanded node
      relaxed. */
  lemma SettleKeeps(g: Graph, cm: CostModel, labels: map<NodeId, Label>, labels': map<NodeId, Label>,
                    expanded: seq<NodeId>, settled: map<NodeId, Dist>, u: NodeId)
    requires ValidGraph(g) && u in g.nodes && g.nodes.Keys <= labels.Keys && labels'.Keys == labels.Keys
    requires forall x :: x in expanded ==> x in settled && x in labels && AtMost(labels[x].distance, settled[x])
    requires RelaxedFrom(g, cm, labels, expanded, settled)
    requires forall n :: n in labels ==> AtMost(labels'[n].distance, labels[n].distance)
    requires forall v :: Arc(g, u, v) ==>
      AtMost(labels'[v].distance, Plus(labels[u].distance, StepCost(cm, g.edges[(u, v)], v)))
    ensures var settled' := settled[u := labels[u].distance];
      && (forall x :: x in expanded + [u] ==> x in settled' && x in labels' && AtMost(labels'[x].distance, settled'[x]))
      && RelaxedFrom(g, cm, labels', expanded + [u], settled')
  {
    var settled' := settled[u := labels[u].distance];
    forall x, v | x in expanded + [u] && Arc(g, x, v)
      ensures x in settled' && v in labels' && AtMost(labels'[v].distance, Plus(settled'[x], ArcCost(g, cm, x, v)))
    {
      if x == u {
        assert ArcCost(g, cm, u, v) == StepCost(cm, g.edges[(u, v)], v);
      } else {
        assert x in expanded;
      }
    }
  }

  /** The relaxation of the expanded node's out-edges restores the invariant. */
  lemma FinishExpand(g: Graph, cm: CostModel, source: NodeId, destination: NodeId, labels0: map<NodeId, Label>,
                     labels: map<NodeId, Label>, labels': map<NodeId, Label>, queue': seq<Entry>, iteration': nat,
                     expanded: seq<NodeId>, done: set<NodeId>, settled': map<NodeId, Dist>,
                     wit': map<NodeId, seq<NodeId>>, start: bool, u: NodeId)
    requires ValidGraph(g) && g.nodes.Keys <= labels0.Keys && u in g.nodes
    requires Monotone(labels0, labels) && Monotone(labels0, labels') && Lowered(g, labels0, labels', expanded + [u])
    requires Distinct(expanded + [u]) && destination !in expanded + [u]
    requires (forall x :: x in expanded + [u] <==> x in done) && done <= g.nodes.Keys
    requires forall x :: x in expanded + [u] ==> x in labels0 && !labels0[x].visited && Reachable(g, source, x)
    requires forall n :: n in labels0 ==> (labels[n].visited <==> labels0[n].visited || n in expanded + [u])
    requires forall n :: n in labels ==> labels'[n].visited == labels[n].visited
    requires forall n :: n in labels && labels[n].distance.Finite? ==> labels'[n].distance.Finite?
    requires iteration' == OutDegrees(g, expanded + [u])
    requires QueueOk(g, source, labels', queue')
    requires source in labels && labels[source].visited
    requires forall x :: x in expanded + [u] ==> x in settled' && x in labels' && AtMost(labels'[x].distance, settled'[x])
    requires RelaxedFrom(g, cm, labels', expanded + [u], settled')
    requires start ==> StartLabels(labels0, source) && Witnessed(g, cm, source, labels0, labels', wit')
    requires start ==> Queued(source, labels', queue') && labels[source].distance.Finite?
    requires start ==> Closure(g, labels, expanded)
    requires start ==> forall v :: Arc(g, u, v) ==> labels'[v].visited || labels'[v].distance.Finite?
    ensures SearchInv(g, cm, source, destination, labels0, labels', queue', iteration', expanded + [u], done, settled', wit', start)
  {
    if start {
      forall x, v | x in expanded + [u] && Arc(g, x, v)
        ensures v in labels' && (labels'[v].visited || labels'[v].distance.Finite?)
      {
        if x != u {
          assert x in expanded;
        }
      }
    }
  }

  /** A popped node other than the destination has a label. */
  lemma PoppedIsLabelled(g: Graph, cm: CostModel, source: NodeId, destination: NodeId, labels0: map<NodeId, Label>,
                         labels: map<NodeId, Label>, queue: seq<Entry>, iteration: nat,
                         expanded: seq<NodeId>, done: set<NodeId>, settled: map<NodeId, Dist>,
                         wit: map<NodeId, seq<NodeId>>, start: bool, top: Entry)
    requires SearchInv(g, cm, source, destination, labels0, labels, queue, iteration, expanded, done, settled, wit, start)
    requires top in queue && top.node != destination
    ensures top.node in labels
  {
  }

  /** The destination was popped: it is reachable. */
  lemma DestinationPopped(g: Graph, cm: CostModel, source: NodeId, destination: NodeId, labels0: map<NodeId, Label>,
                          labels: map<NodeId, Label>, queue: seq<Entry>, iteration: nat,
                          expanded: seq<NodeId>, done: set<NodeId>, settled: map<NodeId, Dist>,
                          wit: map<NodeId, seq<NodeId>>, start: bool, top: Entry)
    requires SearchInv(g, cm, source, destination, labels0, labels, queue, iteration, expanded, done, settled, wit, start)
    requires top in queue && top.node == destination
    ensures Reachable(g, source, destination)
  {
  }

  /** The queue ran dry: from start labels, the expanded nodes hold the
      source and are closed under arcs, so they are all reachable nodes,
      and the destination is not reachable. */
  lemma QueueExhausted(g: Graph, cm: CostModel, source: NodeId, destination: NodeId, labels0: map<NodeId, Label>,
                       labels: map<NodeId, Label>, iteration: nat,
                       expanded: seq<NodeId>, done: set<NodeId>, settled: map<NodeId, Dist>,
                       wit: map<NodeId, seq<NodeId>>)
    requires ValidGraph(g)
    requires SearchInv(g, cm, source, destination, labels0, labels, [], iteration, expanded, done, settled, wit, true)
    ensures !Reachable(g, source, destination)
    ensures forall n :: Reachable(g, source, n) ==> n in expanded
  {
    assert source in labels0;
    assert source in done;
    forall x, v | x in done && Arc(g, x, v) ensures v in done {
      assert x in expanded;
      assert labels[v].visited;
    }
    forall n | Reachable(g, source, n) ensures n in expanded {
      ClosedSetHoldsReachable(g, source, done, n);
    }
    ClosedSetHoldsReachable(g, source, done, destination);
  }

  /** The invariant holds of the untouched labels and the queue [(0, source)],
      with the one-node walk witnessing the source's distance. */
  lemma InitialInv(g: Graph, cm: CostModel, source: NodeId, destination: NodeId, labels0: map<NodeId, Label>)
    requires g.nodes.Keys <= labels0.Keys && (source == destination || source in g.nodes)
    ensures SearchInv(g, cm, source, destination, labels0, labels0, [Entry(0.0, source)], 0, [], {}, map[],
                      map[source := [source]], StartLabels(labels0, source))
  {
    assert PathFromTo(g, [source], source, source);
    assert PathCost(g, cm, [source]) == 0.0;
  }

  /** What the invariant says about the search's results, however it ends. */
  lemma InvGivesResults(g: Graph, cm: CostModel, source: NodeId, destination: NodeId, labels0: map<NodeId, Label>,
                        labels: map<NodeId, Label>, queue: seq<Entry>, iteration: nat,
                        expanded: seq<NodeId>, done: set<NodeId>, settled: map<NodeId, Dist>,
                        wit: map<NodeId, seq<NodeId>>, start: bool)
    requires SearchInv(g, cm, source, destination, labels0, labels, queue, iteration, expanded, done, settled, wit, start)
    requires done <= g.nodes.Keys
    ensures Monotone(labels0, labels) && Lowered(g, labels0, labels, expanded)
    ensures Distinct(expanded) && destination !in expanded
    ensures forall x :: x in expanded ==> x in g.nodes && !labels0[x].visited && Reachable(g, source, x)
    ensures forall n :: n in labels0 ==> (labels[n].visited <==> labels0[n].visited || n in expanded)
    ensures iteration == OutDegrees(g, expanded)
    ensures forall x :: x in expanded ==> x in settled && x in labels && AtMost(labels[x].distance, settled[x])
    ensures forall x, v :: x in expanded && Arc(g, x, v) ==>
      x in settled && v in labels && AtMost(labels[v].distance, Plus(settled[x], ArcCost(g, cm, x, v)))
    ensures start ==> forall n :: n in labels && labels[n].distance.Finite? ==>
      n in wit && PathFromTo(g, wit[n], source, n) &&
      labels[n].distance.r == labels0[source].distance.r + PathCost(g, cm, wit[n])
  {
  }

  /** One turn of the search loop: pop the least entry; stop on the
      destination, drop an already visited node, or expand the node. */
  method SearchStep(g: Graph, cm: CostModel, source: NodeId, destination: NodeId, labels0: map<NodeId, Label>,
                    labels: map<NodeId, Label>, queue: seq<Entry>, iteration: nat,
                    ghost expanded: seq<NodeId>, ghost done: set<NodeId>, ghost settled: map<NodeId, Dist>,
                    ghost wit: map<NodeId, seq<NodeId>>, ghost start: bool)
    returns (stop: bool, labels': map<NodeId, Label>, queue': seq<Entry>, iteration': nat,
             ghost expanded': seq<NodeId>, ghost done': set<NodeId>, ghost settled': map<NodeId, Dist>,
             ghost wit': map<NodeId, seq<NodeId>>)
    requires ValidGraph(g) && g.nodes.Keys <= labels0.Keys && (source == destination || source in g.nodes)
    requires SearchInv(g, cm, source, destination, labels0, labels, queue, iteration, expanded, done, settled, wit, start)
    requires queue != []
    ensures stop ==> Reachable(g, source, destination)
    ensures stop ==> labels' == labels && iteration' == iteration && expanded' == expanded
    ensures stop ==> settled' == settled && wit' == wit
    ensures !stop ==> SearchInv(g, cm, source, destination, labels0, labels', queue', iteration', expanded', done',
                                settled', wit', start)
    ensures !stop ==> |g.nodes.Keys - done'| < |g.nodes.Keys - done| || (done' == done && |queue'| < |queue|)
  {
    var top, rest := PopMin(queue);
    var node := top.node;
    if node == destination {
      DestinationPopped(g, cm, source, destination, labels0, labels, queue, iteration, expanded, done, settled, wit, start, top);
      return true, labels, queue, iteration, expanded, done, settled, wit;
    }
    PoppedIsLabelled(g, cm, source, destination, labels0, labels, queue, iteration, expanded, done, settled, wit, start, top);
    if labels[node].visited {
      DiscardKeeps(g, cm, source, destination, labels0, labels, queue, iteration, expanded, done, settled, wit, start, top, rest);
      return false, labels, rest, iteration, expanded, done, settled, wit;
    }
    stop := false;
    labels', queue', iteration', expanded', done', settled', wit' :=
      Expand(g, cm, source, destination, labels0, labels, queue, iteration, expanded, done, settled, wit, start, top, rest);
  }

  /** The search loop shared by `dijkstra` and `a_star`, pricing each edge by
      `cm`. Python updates the node records in place and returns only the
      found flag; here the updated labels and the edge-scan counter are
      returned beside it. The ghost results list the expanded nodes, the
      distance each had when expanded, and walks witnessing the distances. */
  method Search(g: Graph, cm: CostModel, labels0: map<NodeId, Label>, source: NodeId, destination: NodeId)
    returns (found: bool, labels: map<NodeId, Label>, iteration: nat, ghost expanded: seq<NodeId>,
             ghost settled: map<NodeId, Dist>, ghost wit: map<NodeId, seq<NodeId>>)
    requires ValidGraph(g) && g.nodes.Keys <= labels0.Keys
    requires source == destination || source in g.nodes
    ensures Monotone(labels0, labels) && Lowered(g, labels0, labels, expanded)
    ensures Distinct(expanded) && destination !in expanded
    ensures forall x :: x in expanded ==> x in g.nodes && !labels0[x].visited && Reachable(g, source, x)
    ensures forall n :: n in labels0 ==> (labels[n].visited <==> labels0[n].visited || n in expanded)
    ensures iteration == OutDegrees(g, expanded)
    ensures forall x :: x in expanded ==> x in settled && x in labels && AtMost(labels[x].distance, settled[x])
    ensures forall x, v :: x in expanded && Arc(g, x, v) ==>
      x in settled && v in labels && AtMost(labels[v].distance, Plus(settled[x], ArcCost(g, cm, x, v)))
    ensures StartLabels(labels0, source) ==> forall n :: n in labels && labels[n].distance.Finite? ==>
      n in wit && PathFromTo(g, wit[n], source, n) &&
      labels[n].distance.r == labels0[source].distance.r + PathCost(g, cm, wit[n])
    ensures found ==> Reachable(g, source, destination)
    ensures StartLabels(labels0, source) ==> (found <==> Reachable(g, source, destination))
    ensures StartLabels(labels0, source) && !found ==> forall n :: Reachable(g, source, n) ==> n in expanded
  {
    ghost var start := StartLabels(labels0, source);
    labels := labels0;
    var queue := [Entry(0.0, source)];
    iteration := 0;
    expanded, settled, wit := [], map[], map[source := [source]];
    ghost var done: set<NodeId> := {};
    InitialInv(g, cm, source, destination, labels0);
    while queue != []
      invariant SearchInv(g, cm, source, destination, labels0, labels, queue, iteration, expanded, done, settled, wit, start)
      decreases |g.nodes.Keys - done|, |queue|
    {
      InvGivesResults(g, cm, source, destination, labels0, labels, queue, iteration, expanded, done, settled, wit, start);
      var stop;
      stop, labels, queue, iteration, expanded, done, settled, wit :=
        SearchStep(g, cm, source, destination, labels0, labels, queue, iteration, expanded, done, settled, wit, start);
      if stop {
        return true, labels, iteration, expanded, settled, wit;
      }
    }
    InvGivesResults(g, cm, source, destination, labels0, labels, queue, iteration, expanded, done, settled, wit, start);
    if start {
      QueueExhausted(g, cm, source, destination, labels0, labels, iteration, expanded, done, settled, wit);
    }
    found := false;
  }

  /** `dijkstra`: the search with an edge's travel time as its cost. Every
      arc out of an expanded node ends relaxed by the arc's travel time, and
      from start labels every finite distance is the source's plus the
      travel time of a walk to the node. */
  method Dijkstra(g: Graph, labels0: map<NodeId, Label>, source: NodeId, destination: NodeId)
    returns (found: bool, labels: map<NodeId, Label>, iteration: nat, ghost expanded: seq<NodeId>,
             ghost settled: map<NodeId, Dist>, ghost wit: map<NodeId, seq<NodeId>>)
    requires ValidGraph(g) && g.nodes.Keys <= labels0.Keys
    requires source == destination || source in g.nodes
    ensures Monotone(labels0, labels) && Lowered(g, labels0, labels, expanded)
    ensures Distinct(expanded) && destination !in expanded
    ensures forall n :: n in labels0 ==> (labels[n].visited <==> labels0[n].visited || n in expanded)
    ensures iteration == OutDegrees(g, expanded)
    ensures forall x :: x in expanded ==> x in settled && x in labels && AtMost(labels[x].distance, settled[x])
    ensures forall x, v :: x in expanded && Arc(g, x, v) ==>
      x in settled && v in labels && AtMost(labels[v].distance, Plus(settled[x], Hours(g.edges[(x, v)])))
    ensures StartLabels(labels0, source) ==> forall n :: n in labels && labels[n].distance.Finite? ==>
      n in wit && PathFromTo(g, wit[n], source, n) &&
      labels[n].distance.r == labels0[source].distance.r + PathCost(g, TravelTime, wit[n])
    ensures found ==> Reachable(g, source, destination)
    ensures StartLabels(labels0, source) ==> (found <==> Reachable(g, source, destination))
  {
    found, labels, iteration, expanded, settled, wit := Search(g, TravelTime, labels0, source, destination);
    forall x, v | x in expanded && Arc(g, x, v) ensures ArcCost(g, TravelTime, x, v) == Hours(g.edges[(x, v)]) {
    }
  }

  /** The cost model of `a_star`: the geodesic distance from the edge's
      target to the destination is added to the edge's kilometres. */
  function AStarCost(geo: (NodeId, NodeId) -> real, destination: NodeId): CostModel {
    TravelTimePlusGeo(n => geo(n, destination))
  }

  /** `a_star`: the search with the geodesic distance `geo(next, destination)`
      added to the edge length before dividing by the speed; the sum is what
      is stored as the distance. Every arc out of an expanded node ends
      relaxed by that sum, and from start labels every finite distance is
      the source's plus the A* cost of a walk to the node. */
  method AStar(g: Graph, geo: (NodeId, NodeId) -> real, labels0: map<NodeId, Label>, source: NodeId, destination: NodeId)
    returns (found: bool, labels: map<NodeId, Label>, iteration: nat, ghost expanded: seq<NodeId>,
             ghost settled: map<NodeId, Dist>, ghost wit: map<NodeId, seq<NodeId>>)
    requires ValidGraph(g) && g.nodes.Keys <= labels0.Keys
    requires source == destination || source in g.nodes
    ensures Monotone(labels0, labels) && Lowered(g, labels0, labels, expanded)
    ensures Distinct(expanded) && destination !in expanded
    ensures forall n :: n in labels0 ==> (labels[n].visited <==> labels0[n].visited || n in expanded)
    ensures iteration == OutDegrees(g, expanded)
    ensures forall x :: x in expanded ==> x in settled && x in labels && AtMost(labels[x].distance, settled[x])
    ensures forall x, v :: x in expanded && Arc(g, x, v) ==>
      x in settled && v in labels &&
      AtMost(labels[v].distance,
             Plus(settled[x], (Km(g.edges[(x, v)]) + geo(v, destination)) / g.edges[(x, v)].maxspeed as real))
    ensures StartLabels(labels0, source) ==> forall n :: n in labels && labels[n].distance.Finite? ==>
      n in wit && PathFromTo(g, wit[n], source, n) &&
      labels[n].distance.r == labels0[source].distance.r + PathCost(g, AStarCost(geo, destination), wit[n])
    ensures found ==> Reachable(g, source, destination)
    ensures StartLabels(labels0, source) ==> (found <==> Reachable(g, source, destination))
  {
    var cm := AStarCost(geo, destination);
    found, labels, iteration, expanded, settled, wit := Search(g, cm, labels0, source, destination);
    forall x, v | x in expanded && Arc(g, x, v)
      ensures ArcCost(g, cm, x, v) == (Km(g.edges[(x, v)]) + geo(v, destination)) / g.edges[(x, v)].maxspeed as real
    {
    }
  }

  /** An A* relaxation that lowers `next` stores the current distance plus
      the edge's kilometres and the geodesic distance from `next` to the
      destination, over the speed; with a non-negative geodesic term that is
      never below what Dijkstra would store. */
  lemma AStarRelaxStoresGeoTerm(g: Graph, geo: (NodeId, NodeId) -> real, labels: map<NodeId, Label>,
                                current: NodeId, next: NodeId, destination: NodeId)
    requires current in labels && next in labels && Arc(g, current, next) && ValidGraph(g)
    requires labels[current].distance.Finite?
    ensures var e := g.edges[(current, next)];
      var s := Relax(labels, current, next, StepCost(AStarCost(geo, destination), e, next));
      && (s.pushed.Some? ==>
            s.labels[next].distance.r == labels[current].distance.r + (Km(e) + geo(next, destination)) / e.maxspeed as real)
      && (geo(next, destination) >= 0.0 ==>
            StepCost(AStarCost(geo, destination), e, next) >= StepCost(TravelTime, e, next))
  {
  }
}
