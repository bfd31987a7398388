/** The chain of previous nodes a finished search leaves behind, walked
    back from a node to the source as the path reconstructions do, with the
    edges met on the way and their summed lengths and travel times. */
module PredecessorChain {
  import opened RoadGraph

  /** The previous entries lead from `n` back to `source` in at most `k`
      steps, each over an edge of the graph that has a usable speed limit. */
  ghost predicate ChainBack(g: Graph, previous: map<NodeId, Option<NodeId>>, source: NodeId, n: NodeId, k: nat)
    decreases k
  {
    n == source ||
    (k > 0 && n in previous && previous[n].Some? &&
     (previous[n].value, n) in g.edges && g.edges[(previous[n].value, n)].maxspeed > 0 &&
     ChainBack(g, previous, source, previous[n].value, k - 1))
  }

  /** A chain within `k` steps is also within any larger bound. */
  lemma {:induction false} ChainBackMono(g: Graph, previous: map<NodeId, Option<NodeId>>, source: NodeId, n: NodeId,
                                         k: nat, k': nat)
    requires ChainBack(g, previous, source, n, k) && k <= k'
    ensures ChainBack(g, previous, source, n, k')
    decreases k
  {
    if n != source {
      ChainBackMono(g, previous, source, previous[n].value, k - 1, k' - 1);
    }
  }

  /** The edges met walking the previous entries back from `n` to `source`,
      in the order met. */
  ghost function ChainEdges(g: Graph, previous: map<NodeId, Option<NodeId>>, source: NodeId, n: NodeId, k: nat): seq<EdgeId>
    requires ChainBack(g, previous, source, n, k)
    decreases k
  {
    if n == source then [] else [(previous[n].value, n)] + ChainEdges(g, previous, source, previous[n].value, k - 1)
  }

  /** The nodes of that chain, from `source` forward to `n`. */
  ghost function ChainNodes(g: Graph, previous: map<NodeId, Option<NodeId>>, source: NodeId, n: NodeId, k: nat): seq<NodeId>
    requires ChainBack(g, previous, source, n, k)
    decreases k
  {
    if n == source then [source] else ChainNodes(g, previous, source, previous[n].value, k - 1) + [n]
  }

  /** Every listed edge exists and has a usable speed limit. */
  ghost predicate Priced(g: Graph, es: seq<EdgeId>) {
    forall i :: 0 <= i < |es| ==> es[i] in g.edges && g.edges[es[i]].maxspeed > 0
  }

  /** Total length in kilometres of the listed edges. */
  ghost function KmAlong(g: Graph, es: seq<EdgeId>): real
    requires Priced(g, es)
  {
    if es == [] then 0.0 else Km(g.edges[es[0]]) + KmAlong(g, es[1..])
  }

  /** Total travel time in hours of the listed edges. */
  ghost function HoursAlong(g: Graph, es: seq<EdgeId>): real
    requires Priced(g, es)
  {
    if es == [] then 0.0 else Hours(g.edges[es[0]]) + HoursAlong(g, es[1..])
  }

  lemma {:induction false} ChainEdgesPriced(g: Graph, previous: map<NodeId, Option<NodeId>>, source: NodeId, n: NodeId, k: nat)
    requires ChainBack(g, previous, source, n, k)
    ensures Priced(g, ChainEdges(g, previous, source, n, k))
    decreases k
  {
    if n != source {
      ChainEdgesPriced(g, previous, source, previous[n].value, k - 1);
    }
  }

  /** The chain, read from `source`, is a walk to `n` whose edges are the
      chain's edges read backwards, so its travel time is the walk's cost. */
  lemma {:induction false} ChainIsWalk(g: Graph, previous: map<NodeId, Option<NodeId>>, source: NodeId, n: NodeId, k: nat)
    requires ChainBack(g, previous, source, n, k)
    ensures var p, es := ChainNodes(g, previous, source, n, k), ChainEdges(g, previous, source, n, k);
      && |p| == |es| + 1 && p[0] == source && p[|p| - 1] == n
      && (forall i :: 0 <= i < |es| ==> es[i] == (p[|p| - 2 - i], p[|p| - 1 - i]))
      && Priced(g, es) && HoursAlong(g, es) == PathCost(g, TravelTime, p)
    decreases k
  {
    ChainEdgesPriced(g, previous, source, n, k);
    if n != source {
      var u := previous[n].value;
      ChainIsWalk(g, previous, source, u, k - 1);
      var p := ChainNodes(g, previous, source, n, k);
      assert p[..|p| - 1] == ChainNodes(g, previous, source, u, k - 1);
    }
  }

  /** When every previous entry is an arc of the graph, as the searches
      leave them, the chain is a path of the graph from `source` to `n`. */
  lemma {:induction false} ChainIsPath(g: Graph, previous: map<NodeId, Option<NodeId>>, source: NodeId, n: NodeId, k: nat)
    requires ChainBack(g, previous, source, n, k)
    requires forall m :: m in previous && previous[m].Some? ==> Arc(g, previous[m].value, m)
    ensures PathFromTo(g, ChainNodes(g, previous, source, n, k), source, n)
    decreases k
  {
    if n == source {
      assert IsPath(g, [source]);
    } else {
      var u := previous[n].value;
      ChainIsPath(g, previous, source, u, k - 1);
      PathSnoc(g, ChainNodes(g, previous, source, u, k - 1), source, u, n);
    }
  }

  /** One step back along the chain: its first edge is the one into `n`, and
      the sums split off that edge's kilometres and hours. */
  lemma ChainStep(g: Graph, previous: map<NodeId, Option<NodeId>>, source: NodeId, n: NodeId, k: nat)
    requires ChainBack(g, previous, source, n, k) && n != source
    ensures var u, es := previous[n].value, ChainEdges(g, previous, source, n, k);
      var rest := ChainEdges(g, previous, source, u, k - 1);
      && ChainBack(g, previous, source, u, k - 1)
      && es == [(u, n)] + rest && Priced(g, es) && Priced(g, rest)
      && KmAlong(g, es) == Km(g.edges[(u, n)]) + KmAlong(g, rest)
      && HoursAlong(g, es) == Hours(g.edges[(u, n)]) + HoursAlong(g, rest)
  {
    var u := previous[n].value;
    ChainEdgesPriced(g, previous, source, n, k);
    ChainEdgesPriced(g, previous, source, u, k - 1);
    var rest := ChainEdges(g, previous, source, u, k - 1);
    assert ([(u, n)] + rest)[1..] == rest;
  }

  /** The chain from `n` does not depend on the step bound it was shown with:
      the previous entries alone decide it. */
  lemma {:induction false} ChainEdgesUnique(g: Graph, previous: map<NodeId, Option<NodeId>>, source: NodeId,
                                            n1: NodeId, k1: nat, n2: NodeId, k2: nat)
    requires ChainBack(g, previous, source, n1, k1) && ChainBack(g, previous, source, n2, k2)
    ensures n1 == n2 ==> ChainEdges(g, previous, source, n1, k1) == ChainEdges(g, previous, source, n2, k2)
    decreases k1
  {
    if n1 == n2 && n1 != source {
      ChainEdgesUnique(g, previous, source, previous[n1].value, k1 - 1, previous[n2].value, k2 - 1);
    }
  }

  /** The i-th edge met walking back ends at a node whose own chain is the
      rest of the walk from there. */
  lemma {:induction false} ChainSuffix(g: Graph, previous: map<NodeId, Option<NodeId>>, source: NodeId,
                                       n: NodeId, k: nat, i: nat)
    requires ChainBack(g, previous, source, n, k)
    requires i < |ChainEdges(g, previous, source, n, k)|
    ensures var es := ChainEdges(g, previous, source, n, k);
      i < k && ChainBack(g, previous, source, es[i].1, k - i) &&
      ChainEdges(g, previous, source, es[i].1, k - i) == es[i..]
    decreases i
  {
    var u := previous[n].value;
    var es, rest := ChainEdges(g, previous, source, n, k), ChainEdges(g, previous, source, u, k - 1);
    assert es == [(u, n)] + rest;
    if i > 0 {
      ChainSuffix(g, previous, source, u, k - 1, i - 1);
      assert es[i] == rest[i - 1];
      assert es[i..] == rest[i - 1..];
    }
  }

  /** No edge listed twice. */
  ghost predicate NoRepeats(es: seq<EdgeId>) {
    forall i, j :: 0 <= i < j < |es| ==> es[i] != es[j]
  }

  /** A chain that reaches the source never meets an edge twice: the walk
      would otherwise cycle before arriving. */
  lemma ChainEdgesDistinct(g: Graph, previous: map<NodeId, Option<NodeId>>, source: NodeId, n: NodeId, k: nat)
    requires ChainBack(g, previous, source, n, k)
    ensures NoRepeats(ChainEdges(g, previous, source, n, k))
  {
    var es := ChainEdges(g, previous, source, n, k);
    forall i, j | 0 <= i < j < |es| ensures es[i] != es[j] {
      ChainSuffix(g, previous, source, n, k, i);
      ChainSuffix(g, previous, source, n, k, j);
      ChainEdgesUnique(g, previous, source, es[i].1, k - i, es[j].1, k - j);
    }
  }
}
