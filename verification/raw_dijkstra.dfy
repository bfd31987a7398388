/** `dijkstra_raw`: Dijkstra's search over a plain graph whose labels live in
    two dictionaries (weight from source, previous node) and a visited set,
    relaxing from the weight popped off the queue; and `reconstruct_path_raw`,
    which walks the previous nodes back from the destination. */
module RawDijkstra {
  import opened RoadGraph
  import opened PriorityQueue
  import opened PredecessorChain

  /** What a successful search hands back: the number of scanned edges and
      the two label dictionaries. */
  datatype RawResult = RawResult(iteration: nat, weights: map<NodeId, real>, previous: map<NodeId, Option<NodeId>>)

  /** The search's mutable labels and its queue. */
  datatype Frontier = Frontier(weights: map<NodeId, real>, previous: map<NodeId, Option<NodeId>>, queue: seq<Entry>)

  /** `next` is improved by `newWeight`: an absent weight counts as +infinity. */
  predicate Improves(weights: map<NodeId, real>, next: NodeId, newWeight: real) {
    next !in weights || weights[next] > newWeight
  }

  /** One relaxation: when `newWeight` improves `next`, it becomes next's
      weight, `current` its previous node, and the pair is pushed. */
  function Relax(f: Frontier, current: NodeId, next: NodeId, newWeight: real): (f': Frontier)
    ensures next in f'.weights && f'.weights[next] <= newWeight
    ensures next in f.weights ==> f'.weights[next] <= f.weights[next]
    ensures f' != f <==> Improves(f.weights, next, newWeight)
    ensures f' != f ==> f'.weights[next] == newWeight && next in f'.previous && f'.previous[next] == Some(current)
    ensures f' != f ==> f'.queue == Push(f.queue, Entry(f'.weights[next], next))
    ensures f' == f || f'.queue[|f'.queue| - 1] == Entry(newWeight, next)
    ensures forall n :: n != next ==>
      (n in f'.weights <==> n in f.weights) && (n in f.weights ==> f'.weights[n] == f.weights[n]) &&
      (n in f'.previous <==> n in f.previous) && (n in f.previous ==> f'.previous[n] == f.previous[n])
    ensures next in f.previous ==> next in f'.previous
    ensures forall n :: n in f.weights ==> n in f'.weights && f'.weights[n] <= f.weights[n]
  {
    if Improves(f.weights, next, newWeight) then
      var f' := Frontier(f.weights[next := newWeight], f.previous[next := Some(current)], Push(f.queue, Entry(newWeight, next)));
      assert next in f'.weights;
      assert f' != f by {
        if next in f.weights { assert f'.weights[next] != f.weights[next]; } else { assert f'.weights != f.weights; }
      }
      f'
    else
      f
  }

  /** Every labelled node has a walk from the source costing exactly its label. */
  ghost predicate Witnessed(g: Graph, source: NodeId, w: map<NodeId, real>, wit: map<NodeId, seq<NodeId>>) {
    wit.Keys == w.Keys &&
    forall y :: y in w ==> PathFromTo(g, wit[y], source, y) && PathCost(g, TravelTime, wit[y]) == w[y]
  }

  /** Every arc out of a node in `done` has been relaxed from that node's
      final weight `d[x]`, unless it leads to a visited node. */
  ghost predicate RelaxedFrom(g: Graph, done: set<NodeId>, visited: set<NodeId>, weights: map<NodeId, real>, d: map<NodeId, real>) {
    done <= d.Keys &&
    forall x, v :: x in done && Arc(g, x, v) ==>
      v in visited || (v in weights && weights[v] <= d[x] + ArcCost(g, TravelTime, x, v))
  }

  /** The current weight of every unvisited labelled node is queued, and no
      queued entry is below the weight of its node. */
  ghost predicate Queued(source: NodeId, visited: set<NodeId>, weights: map<NodeId, real>, queue: seq<Entry>) {
    (forall y :: y in weights && y !in visited && y != source ==> Entry(weights[y], y) in queue) &&
    (forall e :: e in queue ==> e.node == source || (e.node in weights && weights[e.node] <= e.priority))
  }

  /** No walk from the source to an expanded node is cheaper than its final weight. */
  ghost predicate LowerBounds(g: Graph, source: NodeId, visited: set<NodeId>, d: map<NodeId, real>) {
    visited <= d.Keys &&
    forall x, p :: x in visited && PathFromTo(g, p, source, x) ==> d[x] <= PathCost(g, TravelTime, p)
  }

  /** The Dijkstra step: once the source is expanded, the least queued
      priority is a lower bound on every walk to an unexpanded node. */
  lemma PoppedIsLowerBound(g: Graph, source: NodeId, visited: set<NodeId>, weights: map<NodeId, real>,
                           d: map<NodeId, real>, queue: seq<Entry>, top: Entry, u: NodeId)
    requires NonNegativeCosts(g, TravelTime)
    requires source in visited && u !in visited
    requires RelaxedFrom(g, visited, visited, weights, d)
    requires Queued(source, visited, weights, queue)
    requires LowerBounds(g, source, visited, d)
    requires forall e :: e in queue ==> Le(top, e)
    ensures forall p :: PathFromTo(g, p, source, u) ==> top.priority <= PathCost(g, TravelTime, p)
  {
    forall p | PathFromTo(g, p, source, u) ensures top.priority <= PathCost(g, TravelTime, p) {
      var i := ExitArc(g, p, visited);
      var x, v := p[i], p[i + 1];
      PrefixCostBelow(g, TravelTime, p, i + 1);
      PrefixCostBelow(g, TravelTime, p, i + 2);
      var head, head' := p[..i + 1], p[..i + 2];
      assert head'[..|head'| - 1] == head;
      assert PathCost(g, TravelTime, head') == PathCost(g, TravelTime, head) + ArcCost(g, TravelTime, x, v);
      assert PathFromTo(g, head, source, x);
      assert d[x] <= PathCost(g, TravelTime, head);
      assert v in weights && weights[v] <= d[x] + ArcCost(g, TravelTime, x, v);
      assert Entry(weights[v], v) in queue;
    }
  }

  /** Every queued node is a graph node. */
  ghost predicate QueueInGraph(g: Graph, source: NodeId, queue: seq<Entry>) {
    forall e :: e in queue ==> e.node == source || e.node in g.nodes
  }

  /** The source keeps a previous entry, and every weighted node has an
      expanded predecessor along an arc as its previous node. */
  ghost predicate PreviousOk(g: Graph, source: NodeId, visited: set<NodeId>, f: Frontier) {
    source in f.previous &&
    forall n :: n in f.weights ==>
      n in f.previous && f.previous[n].Some? && f.previous[n].value in visited && Arc(g, f.previous[n].value, n)
  }

  /** Before the source is expanded nothing has happened yet. */
  ghost predicate NotStarted(source: NodeId, visited: set<NodeId>, f: Frontier) {
    source !in visited ==>
      visited == {} && f.queue == [Entry(0.0, source)] && f.weights == map[] && f.previous == map[source := None]
  }

  /** What the popped least entry tells about its node when that node is not
      yet expanded: the entry carries the node's weight, a walk of that cost
      exists, and (with non-negative costs) no walk is cheaper. */
  lemma PoppedLabel(g: Graph, source: NodeId, visited: set<NodeId>, f: Frontier, d: map<NodeId, real>,
                    wit: map<NodeId, seq<NodeId>>, top: Entry, nonNeg: bool) returns (path: seq<NodeId>)
    requires ValidGraph(g)
    requires top in f.queue && forall e :: e in f.queue ==> Le(top, e)
    requires top.node !in visited
    requires NotStarted(source, visited, f)
    requires Queued(source, visited, f.weights, f.queue)
    requires Witnessed(g, source, f.weights, wit)
    requires RelaxedFrom(g, visited, visited, f.weights, d)
    requires nonNeg ==> NonNegativeCosts(g, TravelTime) && LowerBounds(g, source, visited, d)
    ensures PathFromTo(g, path, source, top.node) && PathCost(g, TravelTime, path) == top.priority
    ensures top.node != source ==> top.node in f.weights && f.weights[top.node] == top.priority
    ensures nonNeg ==> forall p :: PathFromTo(g, p, source, top.node) ==> top.priority <= PathCost(g, TravelTime, p)
  {
    var u := top.node;
    if source !in visited {
      assert top == Entry(0.0, source);
      path := [source];
      assert PathFromTo(g, path, source, source);
      if nonNeg {
        forall p | PathFromTo(g, p, source, source) ensures 0.0 <= PathCost(g, TravelTime, p) {
          PathCostNonNegative(g, TravelTime, p);
        }
      }
    } else {
      assert u != source;
      assert Entry(f.weights[u], u) in f.queue;
      path := wit[u];
      if nonNeg {
        PoppedIsLowerBound(g, source, visited, f.weights, d, f.queue, top, u);
      }
    }
  }

  /** A relaxation keeps every queued node in the graph and every weighted
      node's previous node an expanded predecessor. */
  lemma RelaxKeepsPrevious(g: Graph, source: NodeId, f: Frontier, visited: set<NodeId>, current: NodeId,
                           next: NodeId, newWeight: real)
    requires current in visited && Arc(g, current, next) && ValidGraph(g)
    requires QueueInGraph(g, source, f.queue) && PreviousOk(g, source, visited, f)
    ensures QueueInGraph(g, source, Relax(f, current, next, newWeight).queue)
    ensures PreviousOk(g, source, visited, Relax(f, current, next, newWeight))
  {
  }

  /** A relaxation keeps the queue holding every unvisited node's weight. */
  lemma RelaxKeepsQueued(source: NodeId, f: Frontier, visited: set<NodeId>, current: NodeId,
                         next: NodeId, newWeight: real)
    requires Queued(source, visited, f.weights, f.queue)
    ensures var f' := Relax(f, current, next, newWeight); Queued(source, visited, f'.weights, f'.queue)
  {
    var f' := Relax(f, current, next, newWeight);
    if f' != f {
      forall e | e in f'.queue ensures e.node == source || (e.node in f'.weights && f'.weights[e.node] <= e.priority) {
        if e !in f.queue {
          assert e == Entry(newWeight, next);
        }
      }
    }
  }

  /** A relaxation only lowers weights, so arcs already relaxed stay relaxed. */
  lemma RelaxKeepsRelaxed(g: Graph, f: Frontier, done: set<NodeId>, visited: set<NodeId>, current: NodeId,
                          next: NodeId, newWeight: real, d: map<NodeId, real>)
    requires RelaxedFrom(g, done, visited, f.weights, d)
    ensures RelaxedFrom(g, done, visited, Relax(f, current, next, newWeight).weights, d)
  {
  }

  /** The walk to `current` extended by `next` witnesses a lowered weight. */
  lemma RelaxKeepsWitnessed(g: Graph, source: NodeId, f: Frontier, current: NodeId, next: NodeId, newWeight: real,
                            dWit: map<NodeId, seq<NodeId>>, wit: map<NodeId, seq<NodeId>>)
    returns (wit': map<NodeId, seq<NodeId>>)
    requires Arc(g, current, next)
    requires current in dWit && PathFromTo(g, dWit[current], source, current)
    requires newWeight == PathCost(g, TravelTime, dWit[current]) + ArcCost(g, TravelTime, current, next)
    requires Witnessed(g, source, f.weights, wit)
    ensures Witnessed(g, source, Relax(f, current, next, newWeight).weights, wit')
  {
    wit' := wit;
    if Improves(f.weights, next, newWeight) {
      var w' := f.weights[next := newWeight];
      assert Relax(f, current, next, newWeight).weights == w';
      var p := dWit[current] + [next];
      PathSnoc(g, dWit[current], source, current, next);
      PathCostSnoc(g, TravelTime, dWit[current], next);
      wit' := wit[next := p];
      forall y | y in w' ensures PathFromTo(g, wit'[y], source, y) && PathCost(g, TravelTime, wit'[y]) == w'[y] {
        if y != next {
          assert wit'[y] == wit[y] && w'[y] == f.weights[y];
        }
      }
    }
  }

  /** Every expanded node other than the source still has the weight it was
      expanded with. */
  ghost predicate Settled(source: NodeId, visited: set<NodeId>, weights: map<NodeId, real>, d: map<NodeId, real>) {
    forall n :: n in visited && n != source ==> n in weights && n in d && weights[n] == d[n]
  }

  /** Settling the popped node at the weight it was popped with keeps the
      visited weights settled. */
  lemma SettledExtend(source: NodeId, visited: set<NodeId>, weights: map<NodeId, real>, d: map<NodeId, real>,
                      u: NodeId, w: real)
    requires Settled(source, visited, weights, d)
    requires u != source ==> u in weights && weights[u] == w
    ensures Settled(source, visited + {u}, weights, d[u := w])
  {
  }

  /** Each expanded node other than the source has as previous node one
      expanded before it. */
  ghost predicate RankedExpansion(source: NodeId, expanded: seq<NodeId>, previous: map<NodeId, Option<NodeId>>) {
    forall i :: 0 <= i < |expanded| && expanded[i] != source ==>
      expanded[i] in previous && previous[expanded[i]].Some? && previous[expanded[i]].value in expanded[..i]
  }

  /** With the lower bounds, relaxing into an expanded node other than the
      source changes nothing: the walk through `current` is no cheaper than
      the weight the node was expanded with. */
  lemma RelaxSkipsSettled(g: Graph, source: NodeId, f: Frontier, visited: set<NodeId>, current: NodeId,
                          next: NodeId, newWeight: real, d: map<NodeId, real>, dWit: map<NodeId, seq<NodeId>>)
    requires Arc(g, current, next) && current in visited
    requires d.Keys == visited && Witnessed(g, source, d, dWit)
    requires newWeight == d[current] + ArcCost(g, TravelTime, current, next)
    requires LowerBounds(g, source, visited, d) && Settled(source, visited, f.weights, d)
    requires next in visited && next != source
    ensures Relax(f, current, next, newWeight) == f
  {
    PathSnoc(g, dWit[current], source, current, next);
    PathCostSnoc(g, TravelTime, dWit[current], next);
    assert d[next] <= PathCost(g, TravelTime, dWit[current] + [next]);
  }

  /** The state of the relaxation loop after the first `i` out-edges of
      `current`: the frontier facts, the arcs already relaxed, and with
      non-negative costs the expanded weights and previous entries kept. */
  ghost predicate RelaxLoopInv(g: Graph, source: NodeId, f: Frontier, visited: set<NodeId>, current: NodeId,
                               currentWeight: real, d: map<NodeId, real>, nonNeg: bool, nextNodes: seq<NodeId>,
                               i: nat, f': Frontier, wit': map<NodeId, seq<NodeId>>)
  {
    && i <= |nextNodes|
    && QueueInGraph(g, source, f'.queue) && PreviousOk(g, source, visited, f')
    && Witnessed(g, source, f'.weights, wit')
    && RelaxedFrom(g, visited - {current}, visited, f'.weights, d)
    && (forall j :: 0 <= j < i ==>
         (nextNodes[j] in visited ||
          (nextNodes[j] in f'.weights &&
           f'.weights[nextNodes[j]] <= currentWeight + ArcCost(g, TravelTime, current, nextNodes[j]))))
    && Queued(source, visited, f'.weights, f'.queue)
    && (nonNeg ==> Settled(source, visited, f'.weights, d))
    && (nonNeg ==> forall n :: n in visited && n != source && n in f.previous ==>
         n in f'.previous && f'.previous[n] == f.previous[n])
  }

  /** Relaxing the `i`-th out-edge of `current` extends the loop state by one
      edge; the returned map witnesses the new weights. */
  lemma RelaxStep(g: Graph, source: NodeId, f: Frontier, visited: set<NodeId>, current: NodeId,
                  currentWeight: real, d: map<NodeId, real>, dWit: map<NodeId, seq<NodeId>>, nonNeg: bool,
                  nextNodes: seq<NodeId>, i: nat, fC: Frontier, witC: map<NodeId, seq<NodeId>>,
                  newWeight: real, f': Frontier)
    returns (wit': map<NodeId, seq<NodeId>>)
    requires ValidGraph(g) && current in g.nodes && current in visited && nextNodes == g.nodes[current]
    requires d.Keys == visited && d[current] == currentWeight && Witnessed(g, source, d, dWit)
    requires nonNeg ==> LowerBounds(g, source, visited, d)
    requires i < |nextNodes|
    requires RelaxLoopInv(g, source, f, visited, current, currentWeight, d, nonNeg, nextNodes, i, fC, witC)
    requires Arc(g, current, nextNodes[i]) && newWeight == currentWeight + Hours(g.edges[(current, nextNodes[i])])
    requires f' == Relax(fC, current, nextNodes[i], newWeight)
    ensures RelaxLoopInv(g, source, f, visited, current, currentWeight, d, nonNeg, nextNodes, i + 1, f', wit')
  {
    var next := nextNodes[i];
    assert newWeight == currentWeight + ArcCost(g, TravelTime, current, next);
    if nonNeg && next in visited && next != source {
      RelaxSkipsSettled(g, source, fC, visited, current, next, newWeight, d, dWit);
    }
    RelaxKeepsPrevious(g, source, fC, visited, current, next, newWeight);
    RelaxKeepsQueued(source, fC, visited, current, next, newWeight);
    RelaxKeepsRelaxed(g, fC, visited - {current}, visited, current, next, newWeight, d);
    wit' := RelaxKeepsWitnessed(g, source, fC, current, next, newWeight, dWit, witC);
    forall j | 0 <= j < i + 1
      ensures nextNodes[j] in visited ||
        (nextNodes[j] in f'.weights && f'.weights[nextNodes[j]] <= currentWeight + ArcCost(g, TravelTime, current, nextNodes[j]))
    {
      if j < i && nextNodes[j] !in visited {
        assert nextNodes[j] in fC.weights;
      }
    }
  }

  /** Relaxes every out-edge of the just-expanded node `current` from its
      popped weight, one `iteration` per edge (the inner loop of
      raw_dijkstra.py). Afterwards every arc out of an expanded node is relaxed. */
  method RelaxOutEdges(g: Graph, source: NodeId, f: Frontier, visited: set<NodeId>, current: NodeId,
                       currentWeight: real, iteration: nat, ghost d: map<NodeId, real>,
                       ghost dWit: map<NodeId, seq<NodeId>>, ghost wit: map<NodeId, seq<NodeId>>, ghost nonNeg: bool)
    returns (f': Frontier, iteration': nat, ghost wit': map<NodeId, seq<NodeId>>)
    requires ValidGraph(g) && current in g.nodes && current in visited && visited <= g.nodes.Keys
    requires d.Keys == visited && d[current] == currentWeight && Witnessed(g, source, d, dWit)
    requires QueueInGraph(g, source, f.queue) && PreviousOk(g, source, visited, f)
    requires Witnessed(g, source, f.weights, wit)
    requires RelaxedFrom(g, visited - {current}, visited, f.weights, d)
    requires Queued(source, visited, f.weights, f.queue)
    requires nonNeg ==> LowerBounds(g, source, visited, d) && Settled(source, visited, f.weights, d)
    ensures iteration' == iteration + |g.nodes[current]|
    ensures QueueInGraph(g, source, f'.queue) && PreviousOk(g, source, visited, f')
    ensures Witnessed(g, source, f'.weights, wit')
    ensures RelaxedFrom(g, visited, visited, f'.weights, d)
    ensures Queued(source, visited, f'.weights, f'.queue)
    ensures nonNeg ==> Settled(source, visited, f'.weights, d)
    ensures nonNeg ==> forall n :: n in visited && n != source && n in f.previous ==>
      n in f'.previous && f'.previous[n] == f.previous[n]
  {
    f', iteration', wit' := f, iteration, wit;
    var nextNodes := g.nodes[current];
    var i := 0;
    while i < |nextNodes|
      invariant 0 <= i <= |nextNodes|
      invariant iteration' == iteration + i
      invariant RelaxLoopInv(g, source, f, visited, current, currentWeight, d, nonNeg, nextNodes, i, f', wit')
    {
      var next := nextNodes[i];
      assert Arc(g, current, next);
      iteration' := iteration' + 1;
      var edge := g.edges[(current, next)];
      var edgeWeight := Hours(edge);
      var newWeight := currentWeight + edgeWeight;
      ghost var fC := f';
      f' := Relax(f', current, next, newWeight);
      wit' := RelaxStep(g, source, f, visited, current, currentWeight, d, dWit, nonNeg, nextNodes, i, fC, wit',
                        newWeight, f');
      i := i + 1;
    }
    RelaxedAll(g, source, f, visited, current, currentWeight, d, nonNeg, nextNodes, f', wit');
  }

  /** Once every out-edge of `current` is relaxed, so is every arc out of an
      expanded node. */
  lemma RelaxedAll(g: Graph, source: NodeId, f: Frontier, visited: set<NodeId>, current: NodeId,
                   currentWeight: real, d: map<NodeId, real>, nonNeg: bool, nextNodes: seq<NodeId>,
                   f': Frontier, wit': map<NodeId, seq<NodeId>>)
    requires ValidGraph(g) && current in g.nodes && nextNodes == g.nodes[current]
    requires d.Keys == visited && current in visited && d[current] == currentWeight
    requires RelaxLoopInv(g, source, f, visited, current, currentWeight, d, nonNeg, nextNodes, |nextNodes|, f', wit')
    ensures RelaxedFrom(g, visited, visited, f'.weights, d)
  {
    forall x, v | x in visited && Arc(g, x, v)
      ensures v in visited || (v in f'.weights && f'.weights[v] <= d[x] + ArcCost(g, TravelTime, x, v))
    {
      if x == current {
        var j :| 0 <= j < |nextNodes| && nextNodes[j] == v;
      }
    }
  }

  /** Moving the popped node into the visited set keeps the queue facts for
      the remaining entries. */
  lemma ExpandKeepsQueue(g: Graph, source: NodeId, visited: set<NodeId>, f: Frontier, rest: seq<Entry>, top: Entry)
    requires top in f.queue && top.node !in visited
    requires forall x :: x in rest ==> x in f.queue
    requires forall x :: x in f.queue && x != top ==> x in rest
    requires QueueInGraph(g, source, f.queue) && NotStarted(source, visited, f)
    requires Queued(source, visited, f.weights, f.queue)
    ensures QueueInGraph(g, source, rest)
    ensures NotStarted(source, visited + {top.node}, f.(queue := rest))
    ensures Queued(source, visited + {top.node}, f.weights, rest)
  {
    assert source !in visited ==> top.node == source;
    forall y | y in f.weights && y !in visited + {top.node} && y != source ensures Entry(f.weights[y], y) in rest {
      assert Entry(f.weights[y], y) in f.queue;
    }
  }

  /** Moving the popped node into the visited set with its popped weight
      keeps the label facts: previous nodes, witnesses, relaxed arcs and,
      with non-negative costs, the lower bounds. */
  lemma ExpandKeepsLabels(g: Graph, source: NodeId, visited: set<NodeId>, f: Frontier,
                          d: map<NodeId, real>, dWit: map<NodeId, seq<NodeId>>, top: Entry,
                          path: seq<NodeId>, nonNeg: bool)
    requires top.node !in visited
    requires PreviousOk(g, source, visited, f)
    requires d.Keys == visited && Witnessed(g, source, d, dWit)
    requires RelaxedFrom(g, visited, visited, f.weights, d)
    requires nonNeg ==> LowerBounds(g, source, visited, d)
    requires PathFromTo(g, path, source, top.node) && PathCost(g, TravelTime, path) == top.priority
    requires nonNeg ==> forall p :: PathFromTo(g, p, source, top.node) ==> top.priority <= PathCost(g, TravelTime, p)
    ensures var visited', d' := visited + {top.node}, d[top.node := top.priority];
      && PreviousOk(g, source, visited', f)
      && d'.Keys == visited' && Witnessed(g, source, d', dWit[top.node := path])
      && RelaxedFrom(g, visited' - {top.node}, visited', f.weights, d')
      && (nonNeg ==> LowerBounds(g, source, visited', d'))
  {
    assert (visited + {top.node}) - {top.node} == visited;
  }

  /** The loop invariant of the search, over its real state (visited set,
      counter, frontier) and its ghost state (expansion order, final weights
      of expanded nodes and walks witnessing every weight). */
  ghost predicate SearchInv(g: Graph, source: NodeId, destination: NodeId, visited: set<NodeId>, expanded: seq<NodeId>,
                            iteration: nat, f: Frontier, d: map<NodeId, real>, dWit: map<NodeId, seq<NodeId>>,
                            wit: map<NodeId, seq<NodeId>>, nonNeg: bool)
  {
    && visited <= g.nodes.Keys
    && (forall x :: x in expanded <==> x in visited)
    && Distinct(expanded)
    && destination !in visited
    && iteration == OutDegrees(g, expanded)
    && (source == destination || source in g.nodes)
    && QueueInGraph(g, source, f.queue)
    && NotStarted(source, visited, f)
    && PreviousOk(g, source, visited, f)
    && Witnessed(g, source, f.weights, wit)
    && d.Keys == visited && Witnessed(g, source, d, dWit)
    && RelaxedFrom(g, visited, visited, f.weights, d)
    && Queued(source, visited, f.weights, f.queue)
    && (nonNeg ==> NonNegativeCosts(g, TravelTime) && LowerBounds(g, source, visited, d))
    && (nonNeg ==> Settled(source, visited, f.weights, d) && RankedExpansion(source, expanded, f.previous))
  }

  /** The bookkeeping of one expansion: the popped node is a graph node not
      yet expanded, so fewer nodes remain unvisited, the expansion order
      stays free of repeats and the counter grows by its out-degree. */
  lemma ExpandBookkeeping(g: Graph, destination: NodeId, visited: set<NodeId>, expanded: seq<NodeId>,
                          iteration: nat, u: NodeId)
    requires visited <= g.nodes.Keys && (forall x :: x in expanded <==> x in visited) && Distinct(expanded)
    requires destination !in visited && iteration == OutDegrees(g, expanded)
    requires u in g.nodes && u != destination && u !in visited
    ensures var visited' := visited + {u};
      && visited' <= g.nodes.Keys && destination !in visited'
      && |g.nodes.Keys - visited'| < |g.nodes.Keys - visited|
      && Distinct(expanded + [u]) && (forall x :: x in expanded + [u] <==> x in visited')
      && OutDegrees(g, expanded + [u]) == iteration + |g.nodes[u]|
  {
    FewerUnvisited(g.nodes.Keys, visited, u);
    OutDegreesSnoc(g, expanded, u);
    assert Distinct(expanded + [u]) by {
      assert u !in expanded;
    }
  }

  /** The label invariants for the enlarged visited set before the popped
      node's out-edges are relaxed, with a walk of the popped cost. */
  lemma BeginExpand(g: Graph, source: NodeId, visited: set<NodeId>,
                    f: Frontier, d: map<NodeId, real>, dWit: map<NodeId, seq<NodeId>>,
                    wit: map<NodeId, seq<NodeId>>, nonNeg: bool, top: Entry, rest: seq<Entry>)
    returns (path: seq<NodeId>)
    requires ValidGraph(g)
    requires QueueInGraph(g, source, f.queue) && NotStarted(source, visited, f) && PreviousOk(g, source, visited, f)
    requires Witnessed(g, source, f.weights, wit)
    requires d.Keys == visited && Witnessed(g, source, d, dWit)
    requires RelaxedFrom(g, visited, visited, f.weights, d)
    requires Queued(source, visited, f.weights, f.queue)
    requires nonNeg ==> NonNegativeCosts(g, TravelTime) && LowerBounds(g, source, visited, d)
    requires top in f.queue && (forall e :: e in f.queue ==> Le(top, e))
    requires forall x :: x in rest ==> x in f.queue
    requires forall x :: x in f.queue && x != top ==> x in rest
    requires top.node !in visited
    ensures var u, visited', d' := top.node, visited + {top.node}, d[top.node := top.priority];
      && QueueInGraph(g, source, rest)
      && NotStarted(source, visited', f.(queue := rest))
      && PreviousOk(g, source, visited', f.(queue := rest))
      && d'.Keys == visited' && Witnessed(g, source, d', dWit[u := path])
      && RelaxedFrom(g, visited' - {u}, visited', f.weights, d')
      && Queued(source, visited', f.weights, rest)
      && (nonNeg ==> LowerBounds(g, source, visited', d'))
      && (u != source ==> u in f.weights && f.weights[u] == top.priority)
  {
    path := PoppedLabel(g, source, visited, f, d, wit, top, nonNeg);
    ExpandKeepsQueue(g, source, visited, f, rest, top);
    ExpandKeepsLabels(g, source, visited, f, d, dWit, top, path, nonNeg);
  }

  /** One expansion: the popped node, neither the destination nor visited,
      is marked visited with its popped weight and its out-edges are relaxed. */
  method Expand(g: Graph, source: NodeId, destination: NodeId, visited: set<NodeId>, ghost expanded: seq<NodeId>,
                iteration: nat, f: Frontier, ghost d: map<NodeId, real>, ghost dWit: map<NodeId, seq<NodeId>>,
                ghost wit: map<NodeId, seq<NodeId>>, ghost nonNeg: bool, top: Entry, rest: seq<Entry>)
    returns (visited': set<NodeId>, ghost expanded': seq<NodeId>, iteration': nat, f': Frontier,
             ghost d': map<NodeId, real>, ghost dWit': map<NodeId, seq<NodeId>>, ghost wit': map<NodeId, seq<NodeId>>)
    requires ValidGraph(g) && (source == destination || source in g.nodes)
    requires SearchInv(g, source, destination, visited, expanded, iteration, f, d, dWit, wit, nonNeg)
    requires top in f.queue && (forall e :: e in f.queue ==> Le(top, e))
    requires forall x :: x in rest ==> x in f.queue
    requires forall x :: x in f.queue && x != top ==> x in rest
    requires top.node != destination && top.node !in visited
    ensures SearchInv(g, source, destination, visited', expanded', iteration', f', d', dWit', wit', nonNeg)
    ensures visited' == visited + {top.node}
    ensures |g.nodes.Keys - visited'| < |g.nodes.Keys - visited|
  {
    var current := top.node;
    assert top.node in g.nodes;
    ExpandBookkeeping(g, destination, visited, expanded, iteration, current);
    ghost var path := BeginExpand(g, source, visited, f, d, dWit, wit, nonNeg, top, rest);
    visited' := visited + {current};
    expanded' := expanded + [current];
    d' := d[current := top.priority];
    dWit' := dWit[current := path];
    if nonNeg {
      SettledExtend(source, visited, f.weights, d, current, top.priority);
    }
    f', iteration', wit' :=
      RelaxOutEdges(g, source, f.(queue := rest), visited', current, top.priority, iteration, d', dWit', wit, nonNeg);
    if nonNeg {
      RankedExtend(source, expanded, f.previous, f'.previous, visited, current);
    }
  }

  /** Expanding `u`, whose previous node (unless it is the source) is
      already expanded, keeps the expansion ranked when the previous entries
      of expanded nodes are left alone. */
  lemma RankedExtend(source: NodeId, expanded: seq<NodeId>, previous: map<NodeId, Option<NodeId>>,
                     previous': map<NodeId, Option<NodeId>>, visited: set<NodeId>, u: NodeId)
    requires RankedExpansion(source, expanded, previous)
    requires forall x :: x in expanded <==> x in visited
    requires u != source ==> u in previous && previous[u].Some? && previous[u].value in visited
    requires forall n :: n in visited + {u} && n != source && n in previous ==>
      n in previous' && previous'[n] == previous[n]
    ensures RankedExpansion(source, expanded + [u], previous')
  {
    var e := expanded + [u];
    forall i | 0 <= i < |e| && e[i] != source
      ensures e[i] in previous' && previous'[e[i]].Some? && previous'[e[i]].value in e[..i]
    {
      if i < |expanded| {
        assert e[..i] == expanded[..i] && e[i] == expanded[i] && e[i] in visited;
      } else {
        assert e[..i] == expanded;
      }
    }
  }

  /** Along a ranked expansion the previous entries lead from the `i`-th
      expanded node back to the source within `i + 1` steps. */
  lemma {:induction false} ExpandedChains(g: Graph, source: NodeId, expanded: seq<NodeId>,
                                          previous: map<NodeId, Option<NodeId>>, i: nat)
    requires ValidGraph(g) && RankedExpansion(source, expanded, previous) && i < |expanded|
    requires forall n :: n in expanded && n != source ==>
      n in previous && previous[n].Some? && Arc(g, previous[n].value, n)
    ensures ChainBack(g, previous, source, expanded[i], i + 1)
    decreases i
  {
    var n := expanded[i];
    if n != source {
      var p := previous[n].value;
      var j :| 0 <= j < i && expanded[j] == p;
      ExpandedChains(g, source, expanded, previous, j);
      ChainBackMono(g, previous, source, p, j + 1, i);
      assert Arc(g, p, n);
    }
  }

  /** The invariant holds before the first pop: nothing visited, no
      weights, the queue [(0, source)] and only the source's previous entry. */
  lemma InitialInv(g: Graph, source: NodeId, destination: NodeId)
    requires ValidGraph(g) && (source == destination || source in g.nodes)
    ensures SearchInv(g, source, destination, {}, [], 0, Frontier(map[], map[source := None], [Entry(0.0, source)]),
                      map[], map[], map[], NonNegativeLengths(g))
  {
    if NonNegativeLengths(g) {
      NonNegativeLengthsGiveNonNegativeCosts(g, TravelTime);
    }
  }

  /** Popping an already expanded node only shrinks the queue. */
  lemma DiscardKeeps(g: Graph, source: NodeId, destination: NodeId, visited: set<NodeId>, expanded: seq<NodeId>,
                     iteration: nat, f: Frontier, d: map<NodeId, real>, dWit: map<NodeId, seq<NodeId>>,
                     wit: map<NodeId, seq<NodeId>>, nonNeg: bool, top: Entry, rest: seq<Entry>)
    requires SearchInv(g, source, destination, visited, expanded, iteration, f, d, dWit, wit, nonNeg)
    requires top in f.queue && top.node in visited
    requires forall x :: x in rest ==> x in f.queue
    requires forall x :: x in f.queue && x != top ==> x in rest
    ensures SearchInv(g, source, destination, visited, expanded, iteration, f.(queue := rest), d, dWit, wit, nonNeg)
  {
    var f' := f.(queue := rest);
    assert source in visited;
    forall y | y in f.weights && y !in visited && y != source ensures Entry(f.weights[y], y) in rest {
      assert Entry(f.weights[y], y) in f.queue;
    }
  }

  /** Facts every run ends with, whichever way it ends. */
  ghost predicate ExpansionFacts(g: Graph, source: NodeId, destination: NodeId, expanded: seq<NodeId>) {
    && Distinct(expanded) && destination !in expanded && |expanded| <= |g.nodes.Keys|
    && (forall x :: x in expanded ==> x in g.nodes && Reachable(g, source, x))
  }

  lemma InvGivesExpansionFacts(g: Graph, source: NodeId, destination: NodeId, visited: set<NodeId>, expanded: seq<NodeId>,
                               iteration: nat, f: Frontier, d: map<NodeId, real>, dWit: map<NodeId, seq<NodeId>>,
                               wit: map<NodeId, seq<NodeId>>, nonNeg: bool)
    requires SearchInv(g, source, destination, visited, expanded, iteration, f, d, dWit, wit, nonNeg)
    ensures ExpansionFacts(g, source, destination, expanded)
  {
    forall x | x in expanded ensures Reachable(g, source, x) {
      assert PathFromTo(g, dWit[x], source, x);
    }
    DistinctBounded(expanded, g.nodes.Keys);
  }

  /** The destination has been popped: what the search then returns. */
  lemma DestinationPopped(g: Graph, source: NodeId, destination: NodeId, visited: set<NodeId>, expanded: seq<NodeId>,
                          iteration: nat, f: Frontier, d: map<NodeId, real>, dWit: map<NodeId, seq<NodeId>>,
                          wit: map<NodeId, seq<NodeId>>, nonNeg: bool, top: Entry)
    requires ValidGraph(g) && (source == destination || source in g.nodes)
    requires SearchInv(g, source, destination, visited, expanded, iteration, f, d, dWit, wit, nonNeg)
    requires nonNeg == NonNegativeLengths(g)
    requires top in f.queue && (forall e :: e in f.queue ==> Le(top, e)) && top.node == destination
    ensures var res := RawResult(iteration, f.weights, f.previous);
      && ExpansionFacts(g, source, destination, expanded)
      && Reachable(g, source, destination)
      && res.iteration == OutDegrees(g, expanded)
      && (destination == source ==> res == RawResult(0, map[], map[source := None]))
      && source in res.previous
      && (forall n :: n in res.weights ==>
        && n in res.previous && res.previous[n].Some?
        && res.previous[n].value in expanded && Arc(g, res.previous[n].value, n))
      && (forall n :: n in res.weights ==>
        exists p :: PathFromTo(g, p, source, n) && PathCost(g, TravelTime, p) == res.weights[n])
      && (destination != source ==> destination in res.weights)
      && (destination != source && NonNegativeLengths(g) ==>
        forall p :: PathFromTo(g, p, source, destination) ==> res.weights[destination] <= PathCost(g, TravelTime, p))
      && (NonNegativeLengths(g) ==> ChainBack(g, res.previous, source, destination, |expanded| + 1))
  {
    InvGivesExpansionFacts(g, source, destination, visited, expanded, iteration, f, d, dWit, wit, nonNeg);
    var path := PoppedLabel(g, source, visited, f, d, wit, top, nonNeg);
    forall n | n in f.weights
      ensures exists p :: PathFromTo(g, p, source, n) && PathCost(g, TravelTime, p) == f.weights[n]
    {
      assert PathFromTo(g, wit[n], source, n);
    }
    if nonNeg && destination != source {
      WeightedChain(g, source, visited, expanded, f, d, destination);
    }
  }

  /** Along a ranked expansion with settled weights, a weighted node leads
      back to the source within one step more than the expanded nodes. */
  lemma WeightedChain(g: Graph, source: NodeId, visited: set<NodeId>, expanded: seq<NodeId>, f: Frontier,
                      d: map<NodeId, real>, n: NodeId)
    requires ValidGraph(g) && (forall x :: x in expanded <==> x in visited)
    requires PreviousOk(g, source, visited, f) && Settled(source, visited, f.weights, d)
    requires RankedExpansion(source, expanded, f.previous)
    requires n in f.weights
    ensures ChainBack(g, f.previous, source, n, |expanded| + 1)
  {
    var p := f.previous[n].value;
    var j :| 0 <= j < |expanded| && expanded[j] == p;
    ExpandedChains(g, source, expanded, f.previous, j);
    ChainBackMono(g, f.previous, source, p, j + 1, |expanded|);
    assert Arc(g, p, n);
  }

  /** The queue ran dry: the expanded set holds the source and is closed
      under arcs, so it is everything reachable, and the destination is not. */
  lemma QueueExhausted(g: Graph, source: NodeId, destination: NodeId, visited: set<NodeId>, expanded: seq<NodeId>,
                       iteration: nat, f: Frontier, d: map<NodeId, real>, dWit: map<NodeId, seq<NodeId>>,
                       wit: map<NodeId, seq<NodeId>>, nonNeg: bool)
    requires SearchInv(g, source, destination, visited, expanded, iteration, f, d, dWit, wit, nonNeg)
    requires f.queue == []
    ensures ExpansionFacts(g, source, destination, expanded)
    ensures !Reachable(g, source, destination)
    ensures forall n :: Reachable(g, source, n) ==> n in expanded
  {
    InvGivesExpansionFacts(g, source, destination, visited, expanded, iteration, f, d, dWit, wit, nonNeg);
    assert source in visited;
    assert forall y :: y in f.weights ==> y in visited || y == source;
    forall n | Reachable(g, source, n) ensures n in expanded {
      ClosedSetHoldsReachable(g, source, visited, n);
    }
    ClosedSetHoldsReachable(g, source, visited, destination);
  }

  /** The search of raw_dijkstra.py: pops the least (weight, node) pair, stops
      when it is the destination, skips visited nodes, and otherwise marks the
      node visited and relaxes each out-edge from the popped weight with cost
      (length / 1000) / maxspeed. Returns None when the queue runs dry. The
      ghost result lists the expanded nodes in expansion order. */
  method DijkstraRaw(g: Graph, source: NodeId, destination: NodeId) returns (r: Option<RawResult>, ghost expanded: seq<NodeId>)
    requires ValidGraph(g)
    requires source == destination || source in g.nodes
    ensures Distinct(expanded) && destination !in expanded
    ensures forall x :: x in expanded ==> x in g.nodes && Reachable(g, source, x)
    ensures r.Some? <==> Reachable(g, source, destination)
    ensures r.None? ==> forall n :: Reachable(g, source, n) ==> n in expanded
    ensures r.Some? ==> r.value.iteration == OutDegrees(g, expanded)
    ensures r.Some? && destination == source ==> r.value == RawResult(0, map[], map[source := None])
    ensures r.Some? ==> (source in r.value.previous &&
      forall n :: n in r.value.weights ==>
        && n in r.value.previous && r.value.previous[n].Some?
        && r.value.previous[n].value in expanded && Arc(g, r.value.previous[n].value, n))
    ensures r.Some? ==> forall n :: n in r.value.weights ==>
      exists p :: PathFromTo(g, p, source, n) && PathCost(g, TravelTime, p) == r.value.weights[n]
    ensures r.Some? && destination != source ==> destination in r.value.weights
    ensures r.Some? && destination != source && NonNegativeLengths(g) ==>
      forall p :: PathFromTo(g, p, source, destination) ==> r.value.weights[destination] <= PathCost(g, TravelTime, p)
    ensures r.Some? && NonNegativeLengths(g) ==>
      |expanded| <= |g.nodes.Keys| && ChainBack(g, r.value.previous, source, destination, |expanded| + 1)
  {
    ghost var nonNeg := NonNegativeLengths(g);
    var f := Frontier(map[], map[source := None], [Entry(0.0, source)]);
    var visited: set<NodeId> := {};
    var iteration: nat := 0;
    expanded := [];
    ghost var d: map<NodeId, real> := map[];
    ghost var dWit: map<NodeId, seq<NodeId>> := map[];
    ghost var wit: map<NodeId, seq<NodeId>> := map[];
    InitialInv(g, source, destination);
    while f.queue != []
      invariant SearchInv(g, source, destination, visited, expanded, iteration, f, d, dWit, wit, nonNeg)
      decreases |g.nodes.Keys - visited|, |f.queue|
    {
      var top, rest := PopMin(f.queue);
      var currentWeight, current := top.priority, top.node;
      if current == destination {
        DestinationPopped(g, source, destination, visited, expanded, iteration, f, d, dWit, wit, nonNeg, top);
        r := Some(RawResult(iteration, f.weights, f.previous));
        return;
      }
      if current in visited {
        DiscardKeeps(g, source, destination, visited, expanded, iteration, f, d, dWit, wit, nonNeg, top, rest);
        f := f.(queue := rest);
        continue;
      }
      visited, expanded, iteration, f, d, dWit, wit :=
        Expand(g, source, destination, visited, expanded, iteration, f, d, dWit, wit, nonNeg, top, rest);
    }
    QueueExhausted(g, source, destination, visited, expanded, iteration, f, d, dWit, wit, nonNeg);
    r := None;
  }

  /** What `reconstruct_path_raw` accumulates before printing and plotting:
      the route's length in km, its travel time in hours and its edges from
      the destination back to the source. */
  datatype RawRoute = RawRoute(dist: real, time: real, edgesInPath: seq<EdgeId>)

  /** Walks the previous entries back from the destination to the source,
      summing each edge's kilometres and hours. The source would loop forever
      or fail on a broken chain, so a chain back to the source is required. */
  method ReconstructPathRaw(g: Graph, source: NodeId, destination: NodeId, previous: map<NodeId, Option<NodeId>>,
                            ghost k: nat) returns (route: RawRoute)
    requires ChainBack(g, previous, source, destination, k)
    ensures route.edgesInPath == ChainEdges(g, previous, source, destination, k)
    ensures Priced(g, route.edgesInPath)
    ensures route.dist == KmAlong(g, route.edgesInPath)
    ensures route.time == HoursAlong(g, route.edgesInPath)
  {
    ChainEdgesPriced(g, previous, source, destination, k);
    ghost var all := ChainEdges(g, previous, source, destination, k);
    var dist, time := 0.0, 0.0;
    var edgesInPath: seq<EdgeId> := [];
    var current := destination;
    ghost var left := k;
    ghost var remaining := all;
    ghost var i := 0;
    while current != source
      invariant ChainBack(g, previous, source, current, left)
      invariant remaining == ChainEdges(g, previous, source, current, left) && Priced(g, remaining)
      invariant 0 <= i <= |all| && edgesInPath == all[..i] && remaining == all[i..]
      invariant dist + KmAlong(g, remaining) == KmAlong(g, all)
      invariant time + HoursAlong(g, remaining) == HoursAlong(g, all)
      decreases left
    {
      var prev := previous[current].value;
      var edgeId := (prev, current);
      ChainStep(g, previous, source, current, left);
      edgesInPath := edgesInPath + [edgeId];
      var edge := g.edges[edgeId];
      var km := edge.length / 1000.0;
      var hours := km / edge.maxspeed as real;
      assert km == Km(edge) && hours == Hours(edge);
      ghost var rest := remaining[1..];
      assert KmAlong(g, remaining) == km + KmAlong(g, rest);
      assert HoursAlong(g, remaining) == hours + HoursAlong(g, rest);
      assert i < |all| && all[i] == edgeId;
      assert all[..i + 1] == all[..i] + [all[i]];
      dist := dist + km;
      time := time + hours;
      current := prev;
      left := left - 1;
      remaining := rest;
      i := i + 1;
    }
    route := RawRoute(dist, time, edgesInPath);
  }
}
