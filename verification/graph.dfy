/** The road graph the searches run on: node ids, directed edges keyed by the
    ordered pair (from, to), the travel-time cost of an edge, and the paths,
    path costs and reachability that the search guarantees are stated in. */
module RoadGraph {

  type NodeId = int

  /** An edge is identified by the ordered pair of its end points; parallel
      edges of the multigraph are not kept (only key 0 is ever looked up). */
  type EdgeId = (NodeId, NodeId)

  datatype Option<T> = None | Some(value: T)

  /** Edge attributes the searches read: length in metres and the cleaned
      speed limit in km/h. */
  datatype Edge = Edge(length: real, maxspeed: int)

  /** `nodes[n]` is the list of n's successors in iteration order (the
      `next_nodes` of a raw node, or the targets of `out_edges(n)`);
      `edges[(u, v)]` holds the attributes of the edge u -> v. */
  datatype Graph = Graph(nodes: map<NodeId, seq<NodeId>>, edges: map<EdgeId, Edge>)

  /** How a search prices one edge: plain travel time, or travel time with a
      per-node geodesic term added to the length before dividing by the
      speed (the A* variant). */
  datatype CostModel = TravelTime | TravelTimePlusGeo(geoToGoal: NodeId -> real)

  /** Length of an edge in kilometres. */
  function Km(e: Edge): real {
    e.length / 1000.0
  }

  /** Travel time of an edge in hours: kilometres over km/h. */
  function Hours(e: Edge): (h: real)
    requires e.maxspeed > 0
    ensures e.length >= 0.0 ==> h >= 0.0
    ensures h * (e.maxspeed as real) == Km(e)
  {
    Km(e) / e.maxspeed as real
  }

  /** The cost a search stores for stepping along edge `e` into node `next`. */
  function StepCost(cm: CostModel, e: Edge, next: NodeId): (c: real)
    requires e.maxspeed > 0
    ensures cm.TravelTime? ==> c == Hours(e)
    ensures cm.TravelTimePlusGeo? && cm.geoToGoal(next) >= 0.0 ==> c >= Hours(e)
  {
    match cm
    case TravelTime => Hours(e)
    case TravelTimePlusGeo(geoToGoal) => (Km(e) + geoToGoal(next)) / e.maxspeed as real
  }

  /** v is one of u's successors. */
  predicate Arc(g: Graph, u: NodeId, v: NodeId) {
    u in g.nodes && v in g.nodes[u]
  }

  /** What every lookup of the searches relies on: each successor is itself a
      node, its edge record exists, and its speed limit can be divided by. */
  ghost predicate ValidGraph(g: Graph) {
    forall u, v :: Arc(g, u, v) ==>
      v in g.nodes && (u, v) in g.edges && g.edges[(u, v)].maxspeed > 0
  }

  /** Every edge has a non-negative length (true of road data). */
  ghost predicate NonNegativeLengths(g: Graph) {
    forall k :: k in g.edges ==> g.edges[k].length >= 0.0
  }

  /** The cost of the arc u -> v under `cm`; 0 off the graph, where it is never used. */
  function ArcCost(g: Graph, cm: CostModel, u: NodeId, v: NodeId): real {
    if (u, v) in g.edges && g.edges[(u, v)].maxspeed > 0 then StepCost(cm, g.edges[(u, v)], v) else 0.0
  }

  /** Every arc costs at least nothing under `cm`. */
  ghost predicate NonNegativeCosts(g: Graph, cm: CostModel) {
    forall u, v :: Arc(g, u, v) ==> ArcCost(g, cm, u, v) >= 0.0
  }

  /** Non-negative lengths and a non-negative geodesic term give non-negative
      arc costs, for both cost models. */
  lemma NonNegativeLengthsGiveNonNegativeCosts(g: Graph, cm: CostModel)
    requires ValidGraph(g) && NonNegativeLengths(g)
    requires cm.TravelTimePlusGeo? ==> forall n :: cm.geoToGoal(n) >= 0.0
    ensures NonNegativeCosts(g, cm)
  {
    forall u, v | Arc(g, u, v) ensures ArcCost(g, cm, u, v) >= 0.0 {
      var e := g.edges[(u, v)];
      assert e.length >= 0.0;
      if cm.TravelTimePlusGeo? {
        assert cm.geoToGoal(v) >= 0.0;
      }
    }
  }

  /** A non-empty walk along arcs. */
  ghost predicate IsPath(g: Graph, p: seq<NodeId>) {
    |p| >= 1 && forall i :: 0 <= i < |p| - 1 ==> Arc(g, p[i], p[i + 1])
  }

  /** A walk from s to t. */
  ghost predicate PathFromTo(g: Graph, p: seq<NodeId>, s: NodeId, t: NodeId) {
    IsPath(g, p) && p[0] == s && p[|p| - 1] == t
  }

  ghost predicate Reachable(g: Graph, s: NodeId, t: NodeId) {
    exists p :: PathFromTo(g, p, s, t)
  }

  /** Sum of the arc costs along a walk, accumulated from its last arc. */
  ghost function PathCost(g: Graph, cm: CostModel, p: seq<NodeId>): real
    requires |p| >= 1
    decreases |p|
  {
    if |p| == 1 then 0.0 else PathCost(g, cm, p[..|p| - 1]) + ArcCost(g, cm, p[|p| - 2], p[|p| - 1])
  }

  /** Extending a walk by one arc adds that arc's cost. */
  lemma PathCostSnoc(g: Graph, cm: CostModel, p: seq<NodeId>, v: NodeId)
    requires |p| >= 1
    ensures PathCost(g, cm, p + [v]) == PathCost(g, cm, p) + ArcCost(g, cm, p[|p| - 1], v)
  {
    assert (p + [v])[..|p|] == p;
  }

  lemma PathSnoc(g: Graph, p: seq<NodeId>, s: NodeId, u: NodeId, v: NodeId)
    requires PathFromTo(g, p, s, u) && Arc(g, u, v)
    ensures PathFromTo(g, p + [v], s, v)
  {
    var q := p + [v];
    forall i | 0 <= i < |q| - 1 ensures Arc(g, q[i], q[i + 1]) {
      if i < |p| - 1 {
        assert q[i] == p[i] && q[i + 1] == p[i + 1];
      }
    }
  }

  /** With non-negative arc costs every walk costs at least nothing. */
  lemma {:induction false} PathCostNonNegative(g: Graph, cm: CostModel, p: seq<NodeId>)
    requires IsPath(g, p) && NonNegativeCosts(g, cm)
    ensures PathCost(g, cm, p) >= 0.0
    decreases |p|
  {
    if |p| > 1 {
      var q := p[..|p| - 1];
      assert IsPath(g, q) by {
        forall i | 0 <= i < |q| - 1 ensures Arc(g, q[i], q[i + 1]) {
          assert Arc(g, p[i], p[i + 1]);
        }
      }
      PathCostNonNegative(g, cm, q);
      assert Arc(g, p[|p| - 2], p[|p| - 1]);
    }
  }

  /** With non-negative arc costs a prefix of a walk costs no more than the walk. */
  lemma {:induction false} PrefixCostBelow(g: Graph, cm: CostModel, p: seq<NodeId>, j: nat)
    requires IsPath(g, p) && NonNegativeCosts(g, cm)
    requires 1 <= j <= |p|
    ensures IsPath(g, p[..j])
    ensures PathCost(g, cm, p[..j]) <= PathCost(g, cm, p)
    decreases |p| - j
  {
    var q := p[..j];
    assert IsPath(g, q) by {
      forall i | 0 <= i < |q| - 1 ensures Arc(g, q[i], q[i + 1]) {
        assert Arc(g, p[i], p[i + 1]);
      }
    }
    if j < |p| {
      PrefixCostBelow(g, cm, p, j + 1);
      var q' := p[..j + 1];
      assert q'[..|q'| - 1] == q;
      assert Arc(g, p[j - 1], p[j]);
    } else {
      assert q == p;
    }
  }

  /** Every node reaches itself. */
  lemma ReachableSelf(g: Graph, s: NodeId)
    ensures Reachable(g, s, s)
  {
    assert PathFromTo(g, [s], s, s);
  }

  /** Reachability extends along an arc. */
  lemma ReachableSnoc(g: Graph, s: NodeId, u: NodeId, v: NodeId)
    requires Reachable(g, s, u) && Arc(g, u, v)
    ensures Reachable(g, s, v)
  {
    var p :| PathFromTo(g, p, s, u);
    PathSnoc(g, p, s, u, v);
  }

  /** A walk that starts inside `s` and ends outside it has an arc leaving `s`. */
  lemma {:induction false} ExitArc(g: Graph, p: seq<NodeId>, s: set<NodeId>) returns (i: nat)
    requires IsPath(g, p) && p[0] in s && p[|p| - 1] !in s
    ensures i < |p| - 1 && p[i] in s && p[i + 1] !in s && Arc(g, p[i], p[i + 1])
    decreases |p|
  {
    if p[|p| - 2] in s {
      i := |p| - 2;
    } else {
      var q := p[..|p| - 1];
      assert IsPath(g, q) by {
        forall k | 0 <= k < |q| - 1 ensures Arc(g, q[k], q[k + 1]) {
          assert Arc(g, p[k], p[k + 1]);
        }
      }
      i := ExitArc(g, q, s);
      assert q[i] == p[i] && q[i + 1] == p[i + 1];
    }
  }

  /** A set of nodes that holds s and is closed under arcs holds every node
      reachable from s. */
  lemma ClosedSetHoldsReachable(g: Graph, s: NodeId, closed: set<NodeId>, t: NodeId)
    requires s in closed
    requires forall u, v :: u in closed && Arc(g, u, v) ==> v in closed
    ensures Reachable(g, s, t) ==> t in closed
  {
    if Reachable(g, s, t) && t !in closed {
      var p :| PathFromTo(g, p, s, t);
      var i := ExitArc(g, p, closed);
      assert false;
    }
  }

  /** No node listed twice. */
  ghost predicate Distinct(s: seq<NodeId>) {
    forall i, j :: 0 <= i < j < |s| ==> s[i] != s[j]
  }

  /** Number of out-edges of the listed nodes. */
  function OutDegrees(g: Graph, xs: seq<NodeId>): nat {
    if xs == [] then 0
    else OutDegrees(g, xs[..|xs| - 1]) + (if xs[|xs| - 1] in g.nodes then |g.nodes[xs[|xs| - 1]]| else 0)
  }

  lemma OutDegreesSnoc(g: Graph, xs: seq<NodeId>, x: NodeId)
    requires x in g.nodes
    ensures OutDegrees(g, xs + [x]) == OutDegrees(g, xs) + |g.nodes[x]|
  {
    assert (xs + [x])[..|xs|] == xs;
  }

  /** Visiting one more node of the graph leaves fewer unvisited nodes. */
  lemma FewerUnvisited(all: set<NodeId>, visited: set<NodeId>, u: NodeId)
    requires u in all && u !in visited
    ensures |all - (visited + {u})| < |all - visited|
  {
    var after := all - (visited + {u});
    assert all - visited == after + {u};
    assert u !in after;
  }

  /** A list without repeats drawn from a set is no longer than the set. */
  lemma {:induction false} DistinctBounded(xs: seq<NodeId>, s: set<NodeId>)
    requires Distinct(xs) && forall x :: x in xs ==> x in s
    ensures |xs| <= |s|
    decreases |xs|
  {
    if xs != [] {
      var x, init := xs[|xs| - 1], xs[..|xs| - 1];
      forall y | y in init ensures y in s - {x} {
        var i :| 0 <= i < |init| && init[i] == y;
        assert xs[i] == y && xs[|xs| - 1] == x;
      }
      DistinctBounded(init, s - {x});
    }
  }
}
