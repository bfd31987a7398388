/** `a_star_enhanced`: a best-first search in which a node's `visited` flag
    means "has been labelled". The source is flagged up front, an edge into a
    flagged node is skipped, and a node is labelled at most once, with a
    cost that blends the geodesic distance to the destination with an
    estimate scaled by how far the search has come. A running best distance
    to the destination prunes newly labelled nodes from the queue. */
module EnhancedSearch {
  import opened RoadGraph
  import opened PriorityQueue
  import opened Labels
  import opened PredecessorChain

  /** How the search ends: the destination popped, the queue emptied, or a
      float division by zero in the scale factor. */
  datatype Outcome = Found | NotFound | DivisionByZero

  /** The scale factor, geodesic source distance over travelled distance,
      is zero: the travelled distance is infinite, or it is non-zero and the
      source distance is zero. */
  predicate ScaleIsZero(sd: real, d: Dist) {
    d.Infinite? || (d.r != 0.0 && sd / d.r == 0.0)
  }

  /** The expected remaining distance: the geodesic distance `dd` to the
      destination over the scale factor, which is 1 when the travelled
      distance is 0. None when the scale factor is zero. */
  function ExpectedDistance(dd: real, sd: real, d: Dist): (r: Option<real>)
    ensures r.None? <==> ScaleIsZero(sd, d)
    ensures d.Finite? && d.r != 0.0 ==> (r.None? <==> sd == 0.0)
    ensures d == Finite(0.0) ==> r == Some(dd)
    ensures r.Some? && d.r != 0.0 ==> r.value * sd == dd * d.r
  {
    match d
    case Infinite => None
    case Finite(x) =>
      if x == 0.0 then Some(dd / 1.0)
      else
        var scale := sd / x;
        if scale == 0.0 then None
        else
          assert scale * x == sd;
          var e := dd / scale;
          assert e * scale == dd;
          assert e * sd == e * scale * x;
          Some(e)
  }

  /** The step cost stored by a labelling: the edge's kilometres plus the
      average of the geodesic and expected distances, over the speed. */
  function EnhancedCost(e: Edge, dd: real, expected: real): (c: real)
    requires e.maxspeed > 0
    ensures c * e.maxspeed as real == Km(e) + 0.5 * dd + 0.5 * expected
    ensures dd >= 0.0 && expected >= 0.0 ==> c >= Hours(e)
  {
    (Km(e) + (0.5 * dd + 0.5 * expected)) / e.maxspeed as real
  }

  /** Python truthiness of the running best distance: unset and 0.0 both
      count as unset. */
  predicate IsSet(best: Option<real>)
    ensures IsSet(best) <==> best !in {None, Some(0.0)}
  {
    best.Some? && best.value != 0.0
  }

  /** The pruning of a newly labelled node with geodesic distance `dd` to the
      destination: whether it is pushed, and the new best distance. */
  function Prune(best: Option<real>, dd: real, s2d: real): (r: (bool, Option<real>))
    ensures r.0 <==> !IsSet(best) || dd <= best.value
    ensures !r.0 ==> r.1 == best
    ensures r.0 && !IsSet(best) ==> r.1 == Some(dd)
    ensures r.0 && IsSet(best) ==>
      r.1.Some? && r.1.value >= dd && r.1.value >= s2d && (r.1.value == dd || r.1.value == s2d)
  {
    if IsSet(best) then
      if dd > best.value then (false, best) else (true, Some(if dd >= s2d then dd else s2d))
    else
      (true, Some(dd))
  }


  /** The distance a scan of the edge `current` -> `next` offers `next` when
      `current` is at distance `d`: `d` plus the enhanced cost, or None when
      the scale factor is zero. */
  function Offered(g: Graph, geo: (NodeId, NodeId) -> real, source: NodeId, destination: NodeId, d: Dist,
                   current: NodeId, next: NodeId): (r: Option<Dist>)
    requires (current, next) in g.edges && g.edges[(current, next)].maxspeed > 0
    ensures r.None? <==> ScaleIsZero(geo(source, current), d)
    ensures r.Some? ==> d.Finite? && r.value.Finite?
  {
    var dd := geo(next, destination);
    match ExpectedDistance(dd, geo(source, current), d)
    case None => None
    case Some(expected) => Some(Plus(d, EnhancedCost(g.edges[(current, next)], dd, expected)))
  }

  /** The pruning of the first `k` nodes of `xs` in turn, starting from the
      best distance `best`: the nodes pushed, in order, and the final best
      distance. */
  function PruneFirst(best: Option<real>, xs: seq<NodeId>, k: nat, geo: (NodeId, NodeId) -> real,
                      destination: NodeId, s2d: real): (r: (seq<NodeId>, Option<real>))
    requires k <= |xs|
    ensures forall n :: n in r.0 ==> n in xs
    ensures best == None && k > 0 ==> r.0 != [] && r.0[0] == xs[0]
    decreases k
  {
    if k == 0 then ([], best)
    else
      var before := PruneFirst(best, xs, k - 1, geo, destination, s2d);
      var x := xs[k - 1];
      var step := Prune(before.1, geo(x, destination), s2d);
      (if step.0 then before.0 + [x] else before.0, step.1)
  }

  /** The pruning of all the nodes of `xs` in turn. */
  function PruneAll(best: Option<real>, xs: seq<NodeId>, geo: (NodeId, NodeId) -> real, destination: NodeId,
                    s2d: real): (r: (seq<NodeId>, Option<real>))
    ensures forall n :: n in r.0 ==> n in xs
    ensures best == None && xs != [] ==> r.0 != [] && r.0[0] == xs[0]
  {
    PruneFirst(best, xs, |xs|, geo, destination, s2d)
  }

  /** Pruning a prefix does not look past it. */
  lemma {:induction false} PruneFirstExtend(best: Option<real>, xs: seq<NodeId>, x: NodeId, k: nat,
                                            geo: (NodeId, NodeId) -> real, destination: NodeId, s2d: real)
    requires k <= |xs|
    ensures PruneFirst(best, xs + [x], k, geo, destination, s2d) == PruneFirst(best, xs, k, geo, destination, s2d)
    decreases k
  {
    if k > 0 {
      PruneFirstExtend(best, xs, x, k - 1, geo, destination, s2d);
      assert (xs + [x])[k - 1] == xs[k - 1];
    }
  }

  /** The pushes and the running best distance are those of pruning the
      labelled nodes in labelling order, the source pushed first. */
  ghost predicate Pruned(geo: (NodeId, NodeId) -> real, source: NodeId, destination: NodeId, s2d: real,
                         labelled: seq<NodeId>, pushed: seq<NodeId>, best: Option<real>)
  {
    var r := PruneAll(None, labelled, geo, destination, s2d);
    pushed == [source] + r.0 && best == r.1
  }

  /** Labelling one more node prunes it against the running best distance:
      it is pushed, and the best distance moves, as `Prune` decides. */
  lemma PrunedSnoc(geo: (NodeId, NodeId) -> real, source: NodeId, destination: NodeId, s2d: real,
                   labelled: seq<NodeId>, pushed: seq<NodeId>, best: Option<real>, x: NodeId)
    requires Pruned(geo, source, destination, s2d, labelled, pushed, best)
    ensures var step := Prune(best, geo(x, destination), s2d);
      Pruned(geo, source, destination, s2d, labelled + [x], if step.0 then pushed + [x] else pushed, step.1)
  {
    PruneFirstExtend(None, labelled, x, |labelled|, geo, destination, s2d);
  }

  /** What a labelled node carries: it was an unflagged graph node other
      than the source, it is flagged now, its distance is finite and below
      its initial one, and its previous node is a popped node along an arc
      whose scan offered exactly that distance; it is reachable from the
      source. */
  ghost predicate Labelled(g: Graph, geo: (NodeId, NodeId) -> real, source: NodeId, destination: NodeId,
                           labels0: map<NodeId, Label>, labels: map<NodeId, Label>, popped: seq<NodeId>, n: NodeId)
  {
    && n in g.nodes && n != source && n in labels0 && n in labels && !labels0[n].visited
    && labels[n].visited && labels[n].distance.Finite? && Below(labels[n].distance, labels0[n].distance)
    && labels[n].previous.Some? && labels[n].previous.value in popped && Arc(g, labels[n].previous.value, n)
    && Reachable(g, source, n)
    && var p := labels[n].previous.value;
       && p in labels && (p, n) in g.edges && g.edges[(p, n)].maxspeed > 0
       && Offered(g, geo, source, destination, labels[p].distance, p, n) == Some(labels[n].distance)
  }

  /** Each labelled node's previous node is the source or was labelled
      before it. */
  ghost predicate Ranked(source: NodeId, labels: map<NodeId, Label>, labelled: seq<NodeId>) {
    && (forall i :: 0 <= i < |labelled| ==>
          labelled[i] in labels && labels[labelled[i]].previous.Some? &&
          (labels[labelled[i]].previous.value == source || labels[labelled[i]].previous.value in labelled))
    && (forall i, j ::
          (0 <= i < |labelled| && 0 <= j < |labelled| && labelled[i] in labels &&
           labels[labelled[i]].previous == Some(labelled[j])) ==> j < i)
  }

  /** Labels are written once: the source only gains its flag, a node not
      labelled by the search keeps its initial label, and the labelled nodes,
      in labelling order, are distinct. */
  ghost predicate LabelsOk(g: Graph, geo: (NodeId, NodeId) -> real, source: NodeId, destination: NodeId,
                           labels0: map<NodeId, Label>, labels: map<NodeId, Label>,
                           labelled: seq<NodeId>, popped: seq<NodeId>)
  {
    && source in labels0 && labels.Keys == labels0.Keys
    && labels[source] == labels0[source].(visited := true)
    && (forall n :: n in labels0 && n != source && n !in labelled ==> labels[n] == labels0[n])
    && Distinct(labelled)
    && (forall n :: n in labelled ==> Labelled(g, geo, source, destination, labels0, labels, popped, n))
    && Ranked(source, labels, labelled)
  }

  /** The pushed nodes, in push order: the source first, then labelled
      nodes, none twice. */
  ghost predicate PushedOk(source: NodeId, labelled: seq<NodeId>, pushed: seq<NodeId>) {
    |pushed| >= 1 && pushed[0] == source && Distinct(pushed) &&
    forall i :: 1 <= i < |pushed| ==> pushed[i] in labelled
  }

  /** The entry pushed for node `n`: (0, source) for the source, and the
      node's (write-once) distance otherwise. */
  ghost function QueueEntry(labels: map<NodeId, Label>, source: NodeId, n: NodeId): Entry
    requires n in labels
  {
    if n == source || labels[n].distance.Infinite? then Entry(0.0, n) else Entry(labels[n].distance.r, n)
  }

  /** The queue holds, once each, exactly the entries of the pushed nodes not
      yet popped. */
  ghost predicate QueueOk(source: NodeId, labels: map<NodeId, Label>, queue: seq<Entry>, pushed: seq<NodeId>,
                          popped: seq<NodeId>)
  {
    && (forall e :: e in queue ==>
          e.node in pushed && e.node !in popped && e.node in labels &&
          e == QueueEntry(labels, source, e.node) && multiset(queue)[e] == 1)
    && (forall n :: n in pushed && n !in popped ==> n in labels && QueueEntry(labels, source, n) in queue)
  }

  /** The popped nodes, in pop order, are distinct pushed nodes. */
  ghost predicate PoppedOk(pushed: seq<NodeId>, popped: seq<NodeId>) {
    Distinct(popped) && forall n :: n in popped ==> n in pushed
  }

  ghost predicate Inv(g: Graph, geo: (NodeId, NodeId) -> real, source: NodeId, destination: NodeId,
                      labels0: map<NodeId, Label>, labels: map<NodeId, Label>,
                      queue: seq<Entry>, labelled: seq<NodeId>, pushed: seq<NodeId>, popped: seq<NodeId>)
  {
    && LabelsOk(g, geo, source, destination, labels0, labels, labelled, popped)
    && PushedOk(source, labelled, pushed)
    && QueueOk(source, labels, queue, pushed, popped)
    && PoppedOk(pushed, popped)
  }

  /** The state before the loop: only the source flagged and queued. */
  lemma InitialInv(g: Graph, geo: (NodeId, NodeId) -> real, source: NodeId, destination: NodeId,
                   labels0: map<NodeId, Label>)
    requires source in labels0
    ensures Inv(g, geo, source, destination, labels0, labels0[source := labels0[source].(visited := true)],
                [Entry(0.0, source)], [], [source], [])
  {
    var labels := labels0[source := labels0[source].(visited := true)];
    assert multiset([Entry(0.0, source)])[Entry(0.0, source)] == 1;
    assert QueueEntry(labels, source, source) == Entry(0.0, source);
  }

  /** A pushed node is flagged, is a graph node and is reachable. */
  lemma PushedNodeFacts(g: Graph, geo: (NodeId, NodeId) -> real, source: NodeId, destination: NodeId,
                        labels0: map<NodeId, Label>, labels: map<NodeId, Label>,
                        labelled: seq<NodeId>, pushed: seq<NodeId>, popped: seq<NodeId>, n: NodeId)
    requires source in g.nodes
    requires LabelsOk(g, geo, source, destination, labels0, labels, labelled, popped)
    requires PushedOk(source, labelled, pushed)
    requires n in pushed
    ensures n in g.nodes && n in labels && labels[n].visited && Reachable(g, source, n)
    ensures n == source || n in labelled
  {
    if n == source {
      ReachableSelf(g, source);
    } else {
      var i :| 0 <= i < |pushed| && pushed[i] == n;
      assert n in labelled;
    }
  }

  /** Popping the least entry moves its node to the popped nodes. */
  lemma PopKeeps(g: Graph, geo: (NodeId, NodeId) -> real, source: NodeId, destination: NodeId,
                 labels0: map<NodeId, Label>, labels: map<NodeId, Label>,
                 queue: seq<Entry>, labelled: seq<NodeId>, pushed: seq<NodeId>, popped: seq<NodeId>,
                 top: Entry, rest: seq<Entry>)
    requires source in g.nodes
    requires Inv(g, geo, source, destination, labels0, labels, queue, labelled, pushed, popped)
    requires top in queue && multiset(rest) + multiset{top} == multiset(queue)
    ensures var node := top.node;
      && Inv(g, geo, source, destination, labels0, labels, rest, labelled, pushed, popped + [node])
      && node in g.nodes && node in labels && labels[node].visited && Reachable(g, source, node)
      && (node == source || node in labelled)
      && |popped + [node]| <= |g.nodes.Keys|
  {
    var node, popped' := top.node, popped + [top.node];
    assert top !in rest by {
      assert multiset(queue)[top] == 1;
    }
    forall e | e in rest
      ensures e.node in pushed && e.node !in popped' && e.node in labels &&
              e == QueueEntry(labels, source, e.node) && multiset(rest)[e] == 1
    {
      assert e in multiset(queue);
    }
    forall n | n in pushed && n !in popped' ensures n in labels && QueueEntry(labels, source, n) in rest {
      assert QueueEntry(labels, source, n) in multiset(queue);
    }
    PushedNodeFacts(g, geo, source, destination, labels0, labels, labelled, pushed, popped, node);
    forall n | n in popped' ensures n in g.nodes {
      PushedNodeFacts(g, geo, source, destination, labels0, labels, labelled, pushed, popped, n);
    }
    forall n | n in labelled ensures Labelled(g, geo, source, destination, labels0, labels, popped', n) {
      assert Labelled(g, geo, source, destination, labels0, labels, popped, n);
    }
    DistinctBounded(popped', g.nodes.Keys);
  }

  /** Labelling an unflagged successor of a popped node with the distance
      its scan offers keeps the invariant; the node was never pushed and
      flagged labels are untouched. */
  lemma LabelKeeps(g: Graph, geo: (NodeId, NodeId) -> real, source: NodeId, destination: NodeId,
                   labels0: map<NodeId, Label>, labels: map<NodeId, Label>,
                   queue: seq<Entry>, labelled: seq<NodeId>, pushed: seq<NodeId>, popped: seq<NodeId>,
                   current: NodeId, next: NodeId, d: Dist)
    requires ValidGraph(g) && g.nodes.Keys <= labels0.Keys && source in g.nodes
    requires Inv(g, geo, source, destination, labels0, labels, queue, labelled, pushed, popped)
    requires current in popped && Arc(g, current, next) && !labels[next].visited
    requires (current, next) in g.edges && g.edges[(current, next)].maxspeed > 0
    requires Offered(g, geo, source, destination, labels[current].distance, current, next) == Some(d)
    requires Below(d, labels[next].distance)
    ensures var labels' := labels[next := Label(true, d, Some(current))];
      && Inv(g, geo, source, destination, labels0, labels', queue, labelled + [next], pushed, popped)
      && next !in pushed && next !in popped
      && forall n :: n in labels && labels[n].visited ==> labels'[n] == labels[n]
  {
    var labels', labelled' := labels[next := Label(true, d, Some(current))], labelled + [next];
    PushedNodeFacts(g, geo, source, destination, labels0, labels, labelled, pushed, popped, current);
    ReachableSnoc(g, source, current, next);
    assert next !in labelled;
    assert next !in pushed by {
      forall i | 0 <= i < |pushed| ensures pushed[i] != next {
        if i > 0 { assert pushed[i] in labelled; }
      }
    }
    forall n | n in labelled' ensures Labelled(g, geo, source, destination, labels0, labels', popped, n) {
      if n != next {
        assert Labelled(g, geo, source, destination, labels0, labels, popped, n);
        PushedNodeFacts(g, geo, source, destination, labels0, labels, labelled, pushed, popped,
                        labels[n].previous.value);
      }
    }
    forall n | n in labelled ensures labels[n].previous != Some(next) {
      assert Labelled(g, geo, source, destination, labels0, labels, popped, n);
      PushedNodeFacts(g, geo, source, destination, labels0, labels, labelled, pushed, popped,
                      labels[n].previous.value);
    }
    RankedSnoc(source, labels, labelled, current, next, d);
    assert Distinct(labelled');
    forall e | e in queue ensures e == QueueEntry(labels', source, e.node) {
      assert e.node != next;
    }
  }

  /** Labelling a node that no labelled node points back to, from the source
      or a labelled node, keeps the labelling order ranked. */
  lemma RankedSnoc(source: NodeId, labels: map<NodeId, Label>, labelled: seq<NodeId>,
                   current: NodeId, next: NodeId, d: Dist)
    requires Ranked(source, labels, labelled) && next !in labelled && current != next
    requires current == source || current in labelled
    requires forall n :: n in labelled ==> labels[n].previous != Some(next)
    ensures Ranked(source, labels[next := Label(true, d, Some(current))], labelled + [next])
  {
    var labels', labelled' := labels[next := Label(true, d, Some(current))], labelled + [next];
    forall i | 0 <= i < |labelled'|
      ensures labelled'[i] in labels' && labels'[labelled'[i]].previous.Some? &&
        (labels'[labelled'[i]].previous.value == source || labels'[labelled'[i]].previous.value in labelled')
    {
      if i < |labelled| {
        assert labelled'[i] == labelled[i];
      }
    }
    forall i, j | 0 <= i < |labelled'| && 0 <= j < |labelled'| && labelled'[i] in labels' &&
        labels'[labelled'[i]].previous == Some(labelled'[j])
      ensures j < i
    {
      if i < |labelled| {
        assert labelled'[i] == labelled[i] && labelled[i] in labelled;
        if j < |labelled| {
          assert labelled'[j] == labelled[j];
        }
      } else {
        if current != source {
          var k :| 0 <= k < |labelled| && labelled[k] == current;
          assert labelled'[k] == current;
          if j < |labelled| { assert labelled'[j] == labelled[j]; }
        }
      }
    }
  }

  /** Pushing a labelled node that was never pushed keeps the invariant. */
  lemma PushKeeps(source: NodeId, labels: map<NodeId, Label>, queue: seq<Entry>, labelled: seq<NodeId>,
                  pushed: seq<NodeId>, popped: seq<NodeId>, next: NodeId)
    requires QueueOk(source, labels, queue, pushed, popped) && PushedOk(source, labelled, pushed)
    requires PoppedOk(pushed, popped)
    requires next in labelled && next !in pushed && next in labels && labels[next].distance.Finite?
    ensures var queue', pushed' := Push(queue, Entry(labels[next].distance.r, next)), pushed + [next];
      QueueOk(source, labels, queue', pushed', popped) && PushedOk(source, labelled, pushed') &&
      PoppedOk(pushed', popped)
  {
    var x := Entry(labels[next].distance.r, next);
    var queue', pushed' := Push(queue, x), pushed + [next];
    assert x !in queue;
    assert next != source;
    assert QueueEntry(labels, source, next) == x;
    forall e | e in queue' ensures multiset(queue')[e] == 1 {
      if e != x {
        assert e in queue;
      }
    }
    assert Distinct(pushed');
    forall i | 1 <= i < |pushed'| ensures pushed'[i] in labelled {
      if i < |pushed| { assert pushed'[i] == pushed[i]; }
    }
  }

  /** What scanning the edge `current` -> `next` does, from `labels`,
      `labelled` and `iteration` to the primed ones: a flagged `next` is
      skipped; otherwise the counter goes up, the scan stops (`ok` false)
      exactly when no distance is offered, and `next` is labelled with the
      offered distance, and `current` as previous node, exactly when that
      distance is below its own. Nothing else changes. */
  ghost predicate ScannedEdge(g: Graph, geo: (NodeId, NodeId) -> real, source: NodeId, destination: NodeId,
                              labels: map<NodeId, Label>, labelled: seq<NodeId>, iteration: nat,
                              current: NodeId, next: NodeId, ok: bool,
                              labels': map<NodeId, Label>, labelled': seq<NodeId>, iteration': nat)
  {
    && (current, next) in g.edges && g.edges[(current, next)].maxspeed > 0 && current in labels && next in labels
    && labels'.Keys == labels.Keys && (forall n :: n in labels && n != next ==> labels'[n] == labels[n])
    && var o := Offered(g, geo, source, destination, labels[current].distance, current, next);
       if labels[next].visited then
         ok && labels' == labels && labelled' == labelled && iteration' == iteration
       else
         && iteration' == iteration + 1 && (ok <==> o.Some?)
         && if ok && Below(o.value, labels[next].distance) then
              labelled' == labelled + [next] && labels'[next] == Label(true, o.value, Some(current))
            else
              labelled' == labelled && labels' == labels
  }

  /** Labelling `next` with the distance `d` offered by the scan of the arc
      from the popped node `current`, then pushing it as the pruning `(push,
      b)` of its geodesic distance decides, keeps the invariant and the
      pruning fold. */
  lemma LabelStep(g: Graph, geo: (NodeId, NodeId) -> real, source: NodeId, destination: NodeId, s2d: real,
                  labels0: map<NodeId, Label>, labels: map<NodeId, Label>, queue: seq<Entry>,
                  labelled: seq<NodeId>, pushed: seq<NodeId>, popped: seq<NodeId>, best: Option<real>,
                  current: NodeId, next: NodeId, d: Dist, push: bool, b: Option<real>)
    requires ValidGraph(g) && g.nodes.Keys <= labels0.Keys && source in g.nodes
    requires Inv(g, geo, source, destination, labels0, labels, queue, labelled, pushed, popped)
    requires Pruned(geo, source, destination, s2d, labelled, pushed, best)
    requires current in popped && Arc(g, current, next) && !labels[next].visited
    requires (current, next) in g.edges && g.edges[(current, next)].maxspeed > 0
    requires Offered(g, geo, source, destination, labels[current].distance, current, next) == Some(d)
    requires Below(d, labels[next].distance) && (push, b) == Prune(best, geo(next, destination), s2d)
    ensures d.Finite?
    ensures var labels', labelled' := labels[next := Label(true, d, Some(current))], labelled + [next];
      var queue' := if push then Push(queue, Entry(d.r, next)) else queue;
      var pushed' := if push then pushed + [next] else pushed;
      && Inv(g, geo, source, destination, labels0, labels', queue', labelled', pushed', popped)
      && Pruned(geo, source, destination, s2d, labelled', pushed', b)
  {
    LabelKeeps(g, geo, source, destination, labels0, labels, queue, labelled, pushed, popped, current, next, d);
    PrunedSnoc(geo, source, destination, s2d, labelled, pushed, best, next);
    if push {
      PushKeeps(source, labels[next := Label(true, d, Some(current))], queue, labelled + [next], pushed, popped,
                next);
    }
  }

  /** Scans one out-edge `current` -> `next` of the popped node: skipped when
      `next` is flagged; otherwise counted, and stopped on a zero scale
      factor; otherwise `next` is labelled with the offered distance when
      that is below its own, and pushed unless pruned. */
  method ScanEdge(g: Graph, geo: (NodeId, NodeId) -> real, source: NodeId, destination: NodeId, s2d: real,
                  labels0: map<NodeId, Label>, labels: map<NodeId, Label>, queue: seq<Entry>, iteration: nat,
                  best: Option<real>, current: NodeId, next: NodeId, ghost labelled: seq<NodeId>,
                  ghost pushed: seq<NodeId>, ghost popped: seq<NodeId>)
    returns (ok: bool, labels': map<NodeId, Label>, queue': seq<Entry>, iteration': nat, best': Option<real>,
             ghost labelled': seq<NodeId>, ghost pushed': seq<NodeId>)
    requires ValidGraph(g) && g.nodes.Keys <= labels0.Keys && source in g.nodes
    requires Inv(g, geo, source, destination, labels0, labels, queue, labelled, pushed, popped)
    requires Pruned(geo, source, destination, s2d, labelled, pushed, best)
    requires current in popped && Arc(g, current, next) && current in labels && labels[current].visited
    ensures Inv(g, geo, source, destination, labels0, labels', queue', labelled', pushed', popped)
    ensures Pruned(geo, source, destination, s2d, labelled', pushed', best')
    ensures ScannedEdge(g, geo, source, destination, labels, labelled, iteration, current, next, ok,
                        labels', labelled', iteration')
  {
    ok, labels', queue', iteration', best', labelled', pushed' := true, labels, queue, iteration, best, labelled, pushed;
    assert next in g.nodes;
    if labels[next].visited {
      return;
    }
    iteration' := iteration + 1;
    var destinationDistance := geo(next, destination);
    var sourceDistance := geo(source, current);
    var expected := ExpectedDistance(destinationDistance, sourceDistance, labels[current].distance);
    if expected.None? {
      ok := false;
      return;
    }
    var edge := g.edges[(current, next)];
    var newDistance := Plus(labels[current].distance, EnhancedCost(edge, destinationDistance, expected.value));
    if Below(newDistance, labels[next].distance) {
      var (push, b) := Prune(best, destinationDistance, s2d);
      LabelStep(g, geo, source, destination, s2d, labels0, labels, queue, labelled, pushed, popped, best,
                current, next, newDistance, push, b);
      labels' := labels[next := Label(true, newDistance, Some(current))];
      labelled' := labelled + [next];
      best' := b;
      if push {
        queue' := Push(queue, Entry(newDistance.r, next));
        pushed' := pushed + [next];
      }
    }
  }

  /** Every unflagged label still has an infinite distance, as when the
      search starts from fresh labels. */
  ghost predicate UnflaggedInfinite(labels: map<NodeId, Label>) {
    forall n :: n in labels && !labels[n].visited ==> labels[n].distance.Infinite?
  }

  /** How many scans of the successors `xs`, in order, find the successor
      unflagged, given the labels when the scans start and the nodes
      labelled when they end: an unflagged successor is found so at its
      first occurrence, and again at a later one unless it was labelled. */
  ghost function UnflaggedScans(labels: map<NodeId, Label>, xs: seq<NodeId>, labelled: seq<NodeId>): (r: nat)
    ensures r <= |xs|
    decreases |xs|
  {
    if xs == [] then 0
    else
      var x, init := xs[|xs| - 1], xs[..|xs| - 1];
      UnflaggedScans(labels, init, labelled) +
      (if x in labels && !labels[x].visited && (x !in init || x !in labelled) then 1 else 0)
  }

  /** The count depends on the labelled nodes only through which of the
      successors are among them. */
  lemma {:induction false} UnflaggedScansSame(labels: map<NodeId, Label>, xs: seq<NodeId>,
                                              l1: seq<NodeId>, l2: seq<NodeId>)
    requires forall x :: x in xs ==> (x in l1 <==> x in l2)
    ensures UnflaggedScans(labels, xs, l1) == UnflaggedScans(labels, xs, l2)
    decreases |xs|
  {
    if xs != [] {
      var init := xs[..|xs| - 1];
      forall x | x in init ensures x in l1 <==> x in l2 {
        assert x in xs;
      }
      UnflaggedScansSame(labels, init, l1, l2);
      assert xs[|xs| - 1] in xs;
    }
  }

  /** The scan of `current` -> `next` found `next` unflagged, and the
      distance offered was not below its own. */
  ghost predicate Rejected(g: Graph, geo: (NodeId, NodeId) -> real, source: NodeId, destination: NodeId,
                           labels: map<NodeId, Label>, current: NodeId, next: NodeId)
  {
    && (current, next) in g.edges && g.edges[(current, next)].maxspeed > 0 && current in labels && next in labels
    && var o := Offered(g, geo, source, destination, labels[current].distance, current, next);
       o.Some? && !Below(o.value, labels[next].distance)
  }

  /** What the scan of the first `i` successors `xs` of `current` has done
      to the labels (from `labels` to `labels'`) and to the labelled nodes:
      flagged labels are kept, only nodes it labelled changed, each a
      successor, and every other unflagged successor was rejected. */
  ghost predicate ScanLabelFacts(g: Graph, geo: (NodeId, NodeId) -> real, source: NodeId, destination: NodeId,
                                 labels: map<NodeId, Label>, current: NodeId, xs: seq<NodeId>, i: nat,
                                 labelled: seq<NodeId>, labels': map<NodeId, Label>, labelled': seq<NodeId>)
    requires i <= |xs|
  {
    && labels'.Keys == labels.Keys
    && (forall n :: n in labels && labels[n].visited ==> labels'[n] == labels[n])
    && (forall n :: n in labels && n !in labelled' ==> labels'[n] == labels[n])
    && (forall n :: n in labels ==> (labels'[n].visited <==> labels[n].visited || n in labelled'))
    && |labelled| <= |labelled'| && labelled'[..|labelled|] == labelled
    && (forall n :: n in labelled ==> n in labels && labels[n].visited)
    && (forall n :: n in labelled' && n !in labelled ==> n in xs[..i])
    && (forall j :: 0 <= j < i && xs[j] in labels && !labels[xs[j]].visited && xs[j] !in labelled' ==>
          Rejected(g, geo, source, destination, labels, current, xs[j]))
  }

  /** What the scan of the first `i` successors has done to the counter: it
      went up by the unflagged scans, and by exactly one per labelled node
      when no scan met a zero scale factor. */
  ghost predicate ScanCountFacts(labels: map<NodeId, Label>, current: NodeId, xs: seq<NodeId>, i: nat,
                                 labelled: seq<NodeId>, iteration: nat, labelled': seq<NodeId>, iteration': nat)
    requires i <= |xs|
  {
    && iteration' == iteration + UnflaggedScans(labels, xs[..i], labelled')
    && |labelled'| - |labelled| <= iteration' - iteration <= i
    && (UnflaggedInfinite(labels) && current in labels && labels[current].distance.Finite? ==>
          iteration' - iteration == |labelled'| - |labelled|)
  }

  /** The scan facts: labels, labelled nodes and counter together. */
  ghost predicate ScanFacts(g: Graph, geo: (NodeId, NodeId) -> real, source: NodeId, destination: NodeId,
                            labels: map<NodeId, Label>, current: NodeId, xs: seq<NodeId>, i: nat,
                            labelled: seq<NodeId>, iteration: nat,
                            labels': map<NodeId, Label>, labelled': seq<NodeId>, iteration': nat)
    requires i <= |xs|
  {
    && ScanLabelFacts(g, geo, source, destination, labels, current, xs, i, labelled, labels', labelled')
    && ScanCountFacts(labels, current, xs, i, labelled, iteration, labelled', iteration')
  }

  /** One more scanned edge, as `ScanEdge` leaves it, extends the label
      facts. A node can only be labelled at its first occurrence: at an
      earlier one it was rejected, and the offer and its label are the same
      now. */
  lemma ScanLabelStep(g: Graph, geo: (NodeId, NodeId) -> real, source: NodeId, destination: NodeId,
                      labels: map<NodeId, Label>, current: NodeId, xs: seq<NodeId>, i: nat,
                      labelled: seq<NodeId>, labelsC: map<NodeId, Label>, labelledC: seq<NodeId>, iterationC: nat,
                      labelsN: map<NodeId, Label>, labelledN: seq<NodeId>, iterationN: nat)
    requires i < |xs| && current in labels && labels[current].visited
    requires ScanLabelFacts(g, geo, source, destination, labels, current, xs, i, labelled, labelsC, labelledC)
    requires ScannedEdge(g, geo, source, destination, labelsC, labelledC, iterationC, current, xs[i], true,
                         labelsN, labelledN, iterationN)
    ensures ScanLabelFacts(g, geo, source, destination, labels, current, xs, i + 1, labelled, labelsN, labelledN)
    ensures labelledN != labelledC ==>
      labelledN == labelledC + [xs[i]] && xs[i] !in xs[..i] &&
      xs[i] in labels && !labels[xs[i]].visited && xs[i] !in labelledC
  {
    var x := xs[i];
    var o := Offered(g, geo, source, destination, labels[current].distance, current, x);
    assert labelsC[current] == labels[current] && x in labels;
    assert xs[..i + 1][..i] == xs[..i] && xs[..i + 1] == xs[..i] + [x];
    if labelledN != labelledC {
      assert !labelsC[x].visited && Below(o.value, labelsC[x].distance);
      assert !labels[x].visited && x !in labelledC && labelsC[x] == labels[x];
      assert x !in xs[..i];
      assert labelledN[..|labelled|] == labelledC[..|labelled|];
    }
  }

  /** One more scanned edge extends the counter facts: the scan counts the
      edge when its end is unflagged, and labels it at most once. */
  lemma ScanCountStep(g: Graph, geo: (NodeId, NodeId) -> real, source: NodeId, destination: NodeId,
                      labels: map<NodeId, Label>, current: NodeId, xs: seq<NodeId>, i: nat,
                      labelled: seq<NodeId>, iteration: nat,
                      labelsC: map<NodeId, Label>, labelledC: seq<NodeId>, iterationC: nat,
                      labelsN: map<NodeId, Label>, labelledN: seq<NodeId>, iterationN: nat)
    requires i < |xs| && current in labels && labels[current].visited
    requires ScanFacts(g, geo, source, destination, labels, current, xs, i, labelled, iteration,
                       labelsC, labelledC, iterationC)
    requires ScannedEdge(g, geo, source, destination, labelsC, labelledC, iterationC, current, xs[i], true,
                         labelsN, labelledN, iterationN)
    requires labelledN != labelledC ==>
      labelledN == labelledC + [xs[i]] && xs[i] !in xs[..i] &&
      xs[i] in labels && !labels[xs[i]].visited && xs[i] !in labelledC
    ensures ScanCountFacts(labels, current, xs, i + 1, labelled, iteration, labelledN, iterationN)
  {
    var x := xs[i];
    assert labelsC[current] == labels[current] && x in labels;
    assert xs[..i + 1][..i] == xs[..i] && xs[..i + 1] == xs[..i] + [x];
    if labelledN != labelledC {
      UnflaggedScansSame(labels, xs[..i], labelledC, labelledN);
    }
    assert UnflaggedScans(labels, xs[..i + 1], labelledN) ==
      UnflaggedScans(labels, xs[..i], labelledN) +
      (if x in labels && !labels[x].visited && (x !in xs[..i] || x !in labelledN) then 1 else 0);
  }

  /** One more scanned edge, as `ScanEdge` leaves it, extends the scan
      facts. */
  lemma ScanFactsStep(g: Graph, geo: (NodeId, NodeId) -> real, source: NodeId, destination: NodeId,
                      labels: map<NodeId, Label>, current: NodeId, xs: seq<NodeId>, i: nat,
                      labelled: seq<NodeId>, iteration: nat,
                      labelsC: map<NodeId, Label>, labelledC: seq<NodeId>, iterationC: nat,
                      labelsN: map<NodeId, Label>, labelledN: seq<NodeId>, iterationN: nat)
    requires i < |xs| && current in labels && labels[current].visited
    requires ScanFacts(g, geo, source, destination, labels, current, xs, i, labelled, iteration,
                       labelsC, labelledC, iterationC)
    requires ScannedEdge(g, geo, source, destination, labelsC, labelledC, iterationC, current, xs[i], true,
                         labelsN, labelledN, iterationN)
    ensures ScanFacts(g, geo, source, destination, labels, current, xs, i + 1, labelled, iteration,
                      labelsN, labelledN, iterationN)
  {
    ScanLabelStep(g, geo, source, destination, labels, current, xs, i, labelled, labelsC, labelledC, iterationC,
                  labelsN, labelledN, iterationN);
    ScanCountStep(g, geo, source, destination, labels, current, xs, i, labelled, iteration,
                  labelsC, labelledC, iterationC, labelsN, labelledN, iterationN);
  }

  /** The state of the scan after `i` successors: the search invariant,
      the pruning fold and the scan facts. */
  ghost predicate ScanLoopInv(g: Graph, geo: (NodeId, NodeId) -> real, source: NodeId, destination: NodeId, s2d: real,
                              labels0: map<NodeId, Label>, labels: map<NodeId, Label>, current: NodeId,
                              xs: seq<NodeId>, i: nat, labelled: seq<NodeId>, iteration: nat, popped: seq<NodeId>,
                              labels': map<NodeId, Label>, queue': seq<Entry>, labelled': seq<NodeId>,
                              pushed': seq<NodeId>, best': Option<real>, iteration': nat)
  {
    && i <= |xs|
    && Inv(g, geo, source, destination, labels0, labels', queue', labelled', pushed', popped)
    && Pruned(geo, source, destination, s2d, labelled', pushed', best')
    && ScanFacts(g, geo, source, destination, labels, current, xs, i, labelled, iteration,
                 labels', labelled', iteration')
  }

  /** What the scan state says once the scan ends, after the last successor
      (`ok`) or stopped by the scan of the `i`-th: the search invariant and
      the pruning fold hold, the nodes newly labelled are successors,
      flagged labels are kept, and the counter's bounds and exact value. */
  lemma ScanEnds(g: Graph, geo: (NodeId, NodeId) -> real, source: NodeId, destination: NodeId, s2d: real,
                 labels0: map<NodeId, Label>, labels: map<NodeId, Label>, current: NodeId, xs: seq<NodeId>, i: nat,
                 labelled: seq<NodeId>, iteration: nat, popped: seq<NodeId>,
                 labels': map<NodeId, Label>, queue': seq<Entry>, labelled': seq<NodeId>, pushed': seq<NodeId>,
                 best': Option<real>, iterationC: nat, ok: bool, iteration': nat)
    requires current in labels && labels[current].visited
    requires ScanLoopInv(g, geo, source, destination, s2d, labels0, labels, current, xs, i, labelled, iteration,
                         popped, labels', queue', labelled', pushed', best', iterationC)
    requires ok ==> i == |xs| && iteration' == iterationC
    requires !ok ==> (i < |xs| && iteration' == iterationC + 1 &&
                      ScaleIsZero(geo(source, current), labels'[current].distance))
    ensures Inv(g, geo, source, destination, labels0, labels', queue', labelled', pushed', popped)
    ensures Pruned(geo, source, destination, s2d, labelled', pushed', best')
    ensures forall n :: n in labels && labels[n].visited ==> labels'[n] == labels[n]
    ensures |labelled| <= |labelled'| && labelled'[..|labelled|] == labelled
    ensures forall n :: n in labelled' && n !in labelled ==> n in xs
    ensures ok ==> iteration' == iteration + UnflaggedScans(labels, xs, labelled')
    ensures |labelled'| - |labelled| <= iteration' - iteration <= |xs|
    ensures UnflaggedInfinite(labels) && labels[current].distance.Finite? ==>
      iteration' - iteration == |labelled'| - |labelled| + (if ok then 0 else 1)
    ensures !ok ==> ScaleIsZero(geo(source, current), labels[current].distance)
  {
    forall n | n in labelled' && n !in labelled ensures n in xs {
      assert n in xs[..i];
    }
    assert xs[..|xs|] == xs;
  }

  /** Before the first successor is scanned the loop state holds with
      nothing changed. */
  lemma ScanStart(g: Graph, geo: (NodeId, NodeId) -> real, source: NodeId, destination: NodeId, s2d: real,
                  labels0: map<NodeId, Label>, labels: map<NodeId, Label>, queue: seq<Entry>,
                  labelled: seq<NodeId>, pushed: seq<NodeId>, best: Option<real>, iteration: nat,
                  popped: seq<NodeId>, current: NodeId, xs: seq<NodeId>)
    requires Inv(g, geo, source, destination, labels0, labels, queue, labelled, pushed, popped)
    requires Pruned(geo, source, destination, s2d, labelled, pushed, best)
    ensures ScanLoopInv(g, geo, source, destination, s2d, labels0, labels, current, xs, 0, labelled, iteration,
                        popped, labels, queue, labelled, pushed, best, iteration)
  {
    assert labelled[..|labelled|] == labelled && xs[..0] == [];
    forall n | n in labelled ensures n in labels && labels[n].visited {
      assert Labelled(g, geo, source, destination, labels0, labels, popped, n);
    }
  }

  /** The scan of the `i`-th successor within the loop of `ScanOutEdges`:
      afterwards the loop state covers one more successor, or the scan
      stopped on a zero scale factor with one more count and nothing else
      changed. */
  method ScanStep(g: Graph, geo: (NodeId, NodeId) -> real, source: NodeId, destination: NodeId, s2d: real,
                  labels0: map<NodeId, Label>, labels: map<NodeId, Label>, current: NodeId, xs: seq<NodeId>,
                  i: nat, ghost labelled: seq<NodeId>, iteration: nat, ghost popped: seq<NodeId>,
                  labelsC: map<NodeId, Label>, queueC: seq<Entry>, ghost labelledC: seq<NodeId>,
                  ghost pushedC: seq<NodeId>, bestC: Option<real>, iterationC: nat)
    returns (ok: bool, labels': map<NodeId, Label>, queue': seq<Entry>, iteration': nat, best': Option<real>,
             ghost labelled': seq<NodeId>, ghost pushed': seq<NodeId>)
    requires ValidGraph(g) && g.nodes.Keys <= labels0.Keys && source in g.nodes
    requires current in popped && current in g.nodes && current in labels && labels[current].visited
    requires xs == g.nodes[current] && i < |xs|
    requires ScanLoopInv(g, geo, source, destination, s2d, labels0, labels, current, xs, i, labelled, iteration,
                         popped, labelsC, queueC, labelledC, pushedC, bestC, iterationC)
    ensures ok ==> ScanLoopInv(g, geo, source, destination, s2d, labels0, labels, current, xs, i + 1, labelled,
                               iteration, popped, labels', queue', labelled', pushed', best', iteration')
    ensures !ok ==>
      && ScanLoopInv(g, geo, source, destination, s2d, labels0, labels, current, xs, i, labelled, iteration,
                     popped, labels', queue', labelled', pushed', best', iterationC)
      && iteration' == iterationC + 1 && ScaleIsZero(geo(source, current), labels'[current].distance)
  {
    var next := xs[i];
    assert Arc(g, current, next);
    ok, labels', queue', iteration', best', labelled', pushed' :=
      ScanEdge(g, geo, source, destination, s2d, labels0, labelsC, queueC, iterationC, bestC, current, next,
               labelledC, pushedC, popped);
    if ok {
      ScanFactsStep(g, geo, source, destination, labels, current, xs, i, labelled, iteration,
                    labelsC, labelledC, iterationC, labels', labelled', iteration');
    }
  }

  /** Scans the out-edges of the popped node `current` in order, labelling
      and (unless pruned) pushing each unflagged successor whose new
      distance is below its current one. Stops early on a zero scale factor. */
  method ScanOutEdges(g: Graph, geo: (NodeId, NodeId) -> real, source: NodeId, destination: NodeId, s2d: real,
                      labels0: map<NodeId, Label>, labels: map<NodeId, Label>, queue: seq<Entry>, iteration: nat,
                      best: Option<real>, current: NodeId, ghost labelled: seq<NodeId>, ghost pushed: seq<NodeId>,
                      ghost popped: seq<NodeId>)
    returns (ok: bool, labels': map<NodeId, Label>, queue': seq<Entry>, iteration': nat, best': Option<real>,
             ghost labelled': seq<NodeId>, ghost pushed': seq<NodeId>)
    requires ValidGraph(g) && g.nodes.Keys <= labels0.Keys && source in g.nodes
    requires Inv(g, geo, source, destination, labels0, labels, queue, labelled, pushed, popped)
    requires Pruned(geo, source, destination, s2d, labelled, pushed, best)
    requires current in popped && current in g.nodes && current in labels && labels[current].visited
    ensures Inv(g, geo, source, destination, labels0, labels', queue', labelled', pushed', popped)
    ensures Pruned(geo, source, destination, s2d, labelled', pushed', best')
    ensures forall n :: n in labels && labels[n].visited ==> labels'[n] == labels[n]
    ensures |labelled| <= |labelled'| && labelled'[..|labelled|] == labelled
    ensures forall n :: n in labelled' && n !in labelled ==> n in g.nodes[current]
    ensures ok ==> iteration' == iteration + UnflaggedScans(labels, g.nodes[current], labelled')
    ensures |labelled'| - |labelled| <= iteration' - iteration <= |g.nodes[current]|
    ensures UnflaggedInfinite(labels) && labels[current].distance.Finite? ==>
      iteration' - iteration == |labelled'| - |labelled| + (if ok then 0 else 1)
    ensures !ok ==> ScaleIsZero(geo(source, current), labels[current].distance)
  {
    var i: nat;
    ghost var iterationC: nat;
    ScanStart(g, geo, source, destination, s2d, labels0, labels, queue, labelled, pushed, best, iteration, popped,
              current, g.nodes[current]);
    ok, labels', queue', iteration', best', labelled', pushed', i, iterationC :=
      ScanLoop(g, geo, source, destination, s2d, labels0, labels, queue, iteration, best, current, labelled, pushed,
               popped);
    ScanEnds(g, geo, source, destination, s2d, labels0, labels, current, g.nodes[current], i, labelled, iteration,
             popped, labels', queue', labelled', pushed', best', iterationC, ok, iteration');
  }

  /** The loop of `ScanOutEdges`: scans the successors in order until the
      last one or until a scan stops on a zero scale factor, which leaves
      the state of the scan before it but for one more count. */
  method ScanLoop(g: Graph, geo: (NodeId, NodeId) -> real, source: NodeId, destination: NodeId, s2d: real,
                  labels0: map<NodeId, Label>, labels: map<NodeId, Label>, queue: seq<Entry>, iteration: nat,
                  best: Option<real>, current: NodeId, ghost labelled: seq<NodeId>, ghost pushed: seq<NodeId>,
                  ghost popped: seq<NodeId>)
    returns (ok: bool, labels': map<NodeId, Label>, queue': seq<Entry>, iteration': nat, best': Option<real>,
             ghost labelled': seq<NodeId>, ghost pushed': seq<NodeId>, i: nat, ghost iterationC: nat)
    requires ValidGraph(g) && g.nodes.Keys <= labels0.Keys && source in g.nodes
    requires current in popped && current in g.nodes && current in labels && labels[current].visited
    requires ScanLoopInv(g, geo, source, destination, s2d, labels0, labels, current, g.nodes[current], 0, labelled,
                         iteration, popped, labels, queue, labelled, pushed, best, iteration)
    ensures ScanLoopInv(g, geo, source, destination, s2d, labels0, labels, current, g.nodes[current], i, labelled,
                        iteration, popped, labels', queue', labelled', pushed', best', iterationC)
    ensures ok ==> i == |g.nodes[current]| && iteration' == iterationC
    ensures !ok ==>
      i < |g.nodes[current]| && iteration' == iterationC + 1 &&
      ScaleIsZero(geo(source, current), labels'[current].distance)
  {
    ok, labels', queue', iteration', best', labelled', pushed' := true, labels, queue, iteration, best, labelled, pushed;
    var nextNodes := g.nodes[current];
    i, iterationC := 0, iteration;
    while i < |nextNodes|
      invariant 0 <= i <= |nextNodes| && ok && iterationC == iteration'
      invariant ScanLoopInv(g, geo, source, destination, s2d, labels0, labels, current, nextNodes, i, labelled,
                            iteration, popped, labels', queue', labelled', pushed', best', iteration')
    {
      iterationC := iteration';
      ok, labels', queue', iteration', best', labelled', pushed' :=
        ScanStep(g, geo, source, destination, s2d, labels0, labels, current, nextNodes, i, labelled, iteration,
                 popped, labels', queue', labelled', pushed', best', iteration');
      if !ok {
        break;
      }
      iterationC := iteration';
      i := i + 1;
    }
  }

  /** Each labelled node leads back to the source through its previous
      nodes, within one more step than its place in the labelling order. */
  lemma {:induction false} RankedChains(g: Graph, source: NodeId, labels: map<NodeId, Label>,
                                        labelled: seq<NodeId>, i: nat)
    requires Ranked(source, labels, labelled) && i < |labelled|
    requires forall n :: n in labelled ==>
      n in labels && labels[n].previous.Some? &&
      (labels[n].previous.value, n) in g.edges && g.edges[(labels[n].previous.value, n)].maxspeed > 0
    ensures ChainBack(g, PreviousOf(labels), source, labelled[i], i + 1)
    decreases i
  {
    var n := labelled[i];
    var p := labels[n].previous.value;
    assert n in labelled;
    if p != source {
      var j :| 0 <= j < |labelled| && labelled[j] == p;
      assert labels[labelled[i]].previous == Some(labelled[j]);
      RankedChains(g, source, labels, labelled, j);
      ChainBackMono(g, PreviousOf(labels), source, p, j + 1, i);
    }
    assert PreviousOf(labels)[n] == labels[n].previous;
  }

  /** A pushed node leads back to the source through the previous nodes
      within as many steps as there are labelled nodes. */
  lemma PushedChains(g: Graph, geo: (NodeId, NodeId) -> real, source: NodeId, destination: NodeId,
                     labels0: map<NodeId, Label>, labels: map<NodeId, Label>,
                     labelled: seq<NodeId>, pushed: seq<NodeId>, popped: seq<NodeId>, n: NodeId)
    requires LabelsOk(g, geo, source, destination, labels0, labels, labelled, popped)
    requires PushedOk(source, labelled, pushed) && n in pushed
    ensures ChainBack(g, PreviousOf(labels), source, n, |labelled|)
  {
    if n != source {
      var k :| 0 <= k < |pushed| && pushed[k] == n;
      var i :| 0 <= i < |labelled| && labelled[i] == n;
      RankedChains(g, source, labels, labelled, i);
      ChainBackMono(g, PreviousOf(labels), source, n, i + 1, |labelled|);
    }
  }

  /** Started from fresh labels, every label the search has not written is
      still infinite, and a pushed node's distance is finite. */
  lemma FreshLabelsFacts(g: Graph, geo: (NodeId, NodeId) -> real, source: NodeId, destination: NodeId,
                         labels0: map<NodeId, Label>, labels: map<NodeId, Label>,
                         labelled: seq<NodeId>, pushed: seq<NodeId>, popped: seq<NodeId>, n: NodeId)
    requires LabelsOk(g, geo, source, destination, labels0, labels, labelled, popped)
    requires PushedOk(source, labelled, pushed) && n in pushed
    requires StartLabels(labels0, source)
    ensures UnflaggedInfinite(labels) && n in labels && labels[n].distance.Finite?
  {
    if n != source {
      var k :| 0 <= k < |pushed| && pushed[k] == n;
      assert Labelled(g, geo, source, destination, labels0, labels, popped, n);
    }
  }

  /** The search. `labelled`, `pushed` and `popped` record, in order, the
      nodes labelled, pushed and popped. */
  method AStarEnhanced(g: Graph, geo: (NodeId, NodeId) -> real, labels0: map<NodeId, Label>,
                       source: NodeId, destination: NodeId)
    returns (outcome: Outcome, labels: map<NodeId, Label>, iteration: nat,
             ghost labelled: seq<NodeId>, ghost pushed: seq<NodeId>, ghost popped: seq<NodeId>)
    requires ValidGraph(g) && g.nodes.Keys <= labels0.Keys
    requires source in g.nodes && destination in g.nodes
    ensures labels.Keys == labels0.Keys
    ensures labels[source] == labels0[source].(visited := true)
    ensures forall n :: n in labels0 && n != source && n !in labelled ==> labels[n] == labels0[n]
    ensures Distinct(labelled) && |labelled| <= |g.nodes.Keys|
    ensures forall n :: n in labelled ==> Labelled(g, geo, source, destination, labels0, labels, popped, n)
    ensures pushed == [source] + PruneAll(None, labelled, geo, destination, geo(source, destination)).0
    ensures Distinct(pushed)
    ensures Distinct(popped) && |popped| <= |g.nodes.Keys| && forall n :: n in popped ==> n in pushed
    ensures |labelled| <= iteration <= OutDegrees(g, popped)
    ensures StartLabels(labels0, source) ==>
      iteration == |labelled| + (if outcome.DivisionByZero? then 1 else 0)
    ensures outcome.Found? <==> destination in popped
    ensures outcome.Found? ==>
      Reachable(g, source, destination) && ChainBack(g, PreviousOf(labels), source, destination, |labelled|)
    ensures outcome.NotFound? ==> destination !in pushed && forall n :: n in pushed ==> n in popped
    ensures outcome.DivisionByZero? ==>
      |popped| > 0 && popped[|popped| - 1] in labels &&
      ScaleIsZero(geo(source, popped[|popped| - 1]), labels[popped[|popped| - 1]].distance)
  {
    iteration := 0;
    var queue := [Entry(0.0, source)];
    labels := labels0[source := labels0[source].(visited := true)];
    var best: Option<real> := None;
    var s2d := geo(source, destination);
    labelled, pushed, popped := [], [source], [];
    InitialInv(g, geo, source, destination, labels0);
    outcome := NotFound;
    while queue != [] && outcome.NotFound?
      invariant Inv(g, geo, source, destination, labels0, labels, queue, labelled, pushed, popped)
      invariant Pruned(geo, source, destination, s2d, labelled, pushed, best)
      invariant |labelled| <= iteration <= OutDegrees(g, popped)
      invariant StartLabels(labels0, source) ==>
        iteration == |labelled| + (if outcome.DivisionByZero? then 1 else 0)
      invariant |popped| <= |g.nodes.Keys|
      invariant outcome.Found? <==> destination in popped
      invariant outcome.Found? ==> Reachable(g, source, destination)
      invariant outcome.DivisionByZero? ==>
        |popped| > 0 && popped[|popped| - 1] in labels &&
        ScaleIsZero(geo(source, popped[|popped| - 1]), labels[popped[|popped| - 1]].distance)
      decreases |g.nodes.Keys| - |popped|
    {
      var node;
      outcome, node, labels, queue, iteration, best, labelled, pushed, popped :=
        SearchStep(g, geo, source, destination, s2d, labels0, labels, queue, iteration, best, labelled, pushed, popped);
    }
    InvGivesResults(g, geo, source, destination, labels0, labels, queue, labelled, pushed, popped);
    if outcome.Found? {
      PushedChains(g, geo, source, destination, labels0, labels, labelled, pushed, popped, destination);
    }
  }

  /** One round of the loop: pops the least entry and stops with Found on
      the destination; otherwise scans the popped node's out-edges and
      stops with DivisionByZero on a zero scale factor, or carries on
      (reported as NotFound). */
  method SearchStep(g: Graph, geo: (NodeId, NodeId) -> real, source: NodeId, destination: NodeId, s2d: real,
                    labels0: map<NodeId, Label>, labels: map<NodeId, Label>, queue: seq<Entry>, iteration: nat,
                    best: Option<real>, ghost labelled: seq<NodeId>, ghost pushed: seq<NodeId>,
                    ghost popped: seq<NodeId>)
    returns (outcome: Outcome, node: NodeId, labels': map<NodeId, Label>, queue': seq<Entry>, iteration': nat,
             best': Option<real>, ghost labelled': seq<NodeId>, ghost pushed': seq<NodeId>,
             ghost popped': seq<NodeId>)
    requires ValidGraph(g) && g.nodes.Keys <= labels0.Keys && source in g.nodes
    requires Inv(g, geo, source, destination, labels0, labels, queue, labelled, pushed, popped) && queue != []
    requires Pruned(geo, source, destination, s2d, labelled, pushed, best)
    requires |labelled| <= iteration <= OutDegrees(g, popped)
    requires StartLabels(labels0, source) ==> iteration == |labelled|
    ensures Inv(g, geo, source, destination, labels0, labels', queue', labelled', pushed', popped')
    ensures Pruned(geo, source, destination, s2d, labelled', pushed', best')
    ensures popped' == popped + [node] && |popped'| <= |g.nodes.Keys|
    ensures |labelled'| <= iteration' <= OutDegrees(g, popped')
    ensures StartLabels(labels0, source) ==>
      iteration' == |labelled'| + (if outcome.DivisionByZero? then 1 else 0)
    ensures outcome.Found? <==> node == destination
    ensures outcome.Found? ==> Reachable(g, source, destination)
    ensures outcome.DivisionByZero? ==> node in labels' && ScaleIsZero(geo(source, node), labels'[node].distance)
  {
    var top, rest := PopMin(queue);
    node := top.node;
    PopKeeps(g, geo, source, destination, labels0, labels, queue, labelled, pushed, popped, top, rest);
    OutDegreesSnoc(g, popped, node);
    popped' := popped + [node];
    if node == destination {
      return Found, node, labels, rest, iteration, best, labelled, pushed, popped';
    }
    if StartLabels(labels0, source) {
      FreshLabelsFacts(g, geo, source, destination, labels0, labels, labelled, pushed, popped', node);
    }
    var ok;
    ok, labels', queue', iteration', best', labelled', pushed' :=
      ScanOutEdges(g, geo, source, destination, s2d, labels0, labels, rest, iteration, best, node,
                   labelled, pushed, popped');
    outcome := if ok then NotFound else DivisionByZero;
  }

  /** What the invariant says about the labels and the recorded nodes, and,
      once the queue is empty, that every pushed node was popped. */
  lemma InvGivesResults(g: Graph, geo: (NodeId, NodeId) -> real, source: NodeId, destination: NodeId,
                        labels0: map<NodeId, Label>, labels: map<NodeId, Label>,
                        queue: seq<Entry>, labelled: seq<NodeId>, pushed: seq<NodeId>, popped: seq<NodeId>)
    requires source in g.nodes
    requires Inv(g, geo, source, destination, labels0, labels, queue, labelled, pushed, popped)
    ensures labels.Keys == labels0.Keys
    ensures labels[source] == labels0[source].(visited := true)
    ensures forall n :: n in labels0 && n != source && n !in labelled ==> labels[n] == labels0[n]
    ensures Distinct(labelled) && |labelled| <= |g.nodes.Keys|
    ensures forall n :: n in labelled ==> Labelled(g, geo, source, destination, labels0, labels, popped, n)
    ensures |pushed| >= 1 && pushed[0] == source && Distinct(pushed) && forall i :: 1 <= i < |pushed| ==> pushed[i] in labelled
    ensures Distinct(popped) && forall n :: n in popped ==> n in pushed && n in labels && Reachable(g, source, n)
    ensures queue == [] ==> forall n :: n in pushed ==> n in popped
  {
    forall n | n in popped ensures n in labels && Reachable(g, source, n) {
      PushedNodeFacts(g, geo, source, destination, labels0, labels, labelled, pushed, popped, n);
    }
    forall n | n in labelled ensures n in g.nodes {
      assert Labelled(g, geo, source, destination, labels0, labels, popped, n);
    }
    DistinctBounded(labelled, g.nodes.Keys);
  }
}
