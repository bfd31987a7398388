/** The per-node search labels of the node-record searches (visited flag,
    distance from the source, previous node), their initialisation from the
    graph's node list, and the nearest-node scan of the utilities module. */
module Labels {
  import opened RoadGraph

  /** A float distance that may be +infinity: adding a finite step to
      infinity stays infinite and nothing compares above infinity. */
  datatype Dist = Finite(r: real) | Infinite

  /** `a + w` for a finite step `w`. */
  function Plus(a: Dist, w: real): (s: Dist)
    ensures s.Finite? <==> a.Finite?
    ensures a.Finite? ==> s.r - a.r == w
  {
    match a
    case Finite(x) => Finite(x + w)
    case Infinite => Infinite
  }

  /** `b > a`, the comparison that guards a relaxation. */
  predicate Below(a: Dist, b: Dist) {
    match (a, b)
    case (Finite(x), Finite(y)) => x < y
    case (Finite(_), Infinite) => true
    case (Infinite, _) => false
  }

  /** `a <= b`. */
  predicate AtMost(a: Dist, b: Dist) {
    b.Infinite? || (a.Finite? && a.r <= b.r)
  }

  /** The search fields of a node record. */
  datatype Label = Label(visited: bool, distance: Dist, previous: Option<NodeId>)

  /** The previous node of every label, as a dictionary. */
  function PreviousOf(labels: map<NodeId, Label>): map<NodeId, Option<NodeId>> {
    map n | n in labels :: labels[n].previous
  }

  /** The label every node starts with: unvisited, infinitely far, no previous node. */
  const Fresh: Label := Label(false, Infinite, None)

  /** Builds one fresh label per listed node. */
  method CreateSimpleGraph(nodes: seq<NodeId>) returns (labels: map<NodeId, Label>)
    ensures labels.Keys == set n | n in nodes
    ensures forall n :: n in labels ==> labels[n] == Fresh
  {
    labels := map[];
    var i := 0;
    while i < |nodes|
      invariant 0 <= i <= |nodes|
      invariant labels.Keys == set n | n in nodes[..i]
      invariant forall n :: n in labels ==> labels[n] == Fresh
    {
      assert nodes[..i + 1] == nodes[..i] + [nodes[i]];
      labels := labels[nodes[i] := Fresh];
      i := i + 1;
    }
    assert nodes[..i] == nodes;
  }

  /** The labels a search is started from: fresh everywhere, except that the
      source has been given a finite distance (0 by the drivers). */
  predicate StartLabels(labels: map<NodeId, Label>, source: NodeId) {
    && source in labels && !labels[source].visited && labels[source].distance.Finite?
    && forall n :: n in labels && n != source ==> !labels[n].visited && labels[n].distance == Infinite
  }

  /** The drivers' seeding of the source: distance 0, everything else kept. */
  function SeedSource(labels: map<NodeId, Label>, source: NodeId): (seeded: map<NodeId, Label>)
    requires source in labels
    ensures seeded.Keys == labels.Keys
    ensures seeded[source] == labels[source].(distance := Finite(0.0))
    ensures forall n :: n in labels && n != source ==> seeded[n] == labels[n]
  {
    labels[source := labels[source].(distance := Finite(0.0))]
  }

  /** Fresh labels with a seeded source are what a search is started from. */
  lemma SeededFreshLabelsStart(nodes: seq<NodeId>, labels: map<NodeId, Label>, source: NodeId)
    requires labels.Keys == set n | n in nodes
    requires forall n :: n in labels ==> labels[n] == Fresh
    requires source in nodes
    ensures StartLabels(SeedSource(labels, source), source)
  {
    assert source in labels;
  }

  /** The outcome of the nearest-node scan: the node found, or the exception
      raised when there are no nodes. */
  datatype Nearest = Nearest(node: NodeId) | NoNodes

  /** Scans the nodes in order for the one nearest to a fixed point,
      `distanceTo` being the great-circle distance to it; a later node
      replaces the current pick only when strictly nearer. Raises on an
      empty node list. */
  method FindNearestNodeFromPoint(nodes: seq<NodeId>, distanceTo: NodeId -> real) returns (r: Nearest)
    ensures r.NoNodes? <==> nodes == []
    ensures r.Nearest? ==> exists i :: 0 <= i < |nodes| && nodes[i] == r.node && IsFirstNearest(nodes, distanceTo, i)
  {
    var nearest: Option<NodeId> := None;
    var minDistance: Option<real> := None;
    ghost var k := 0;
    var i := 0;
    while i < |nodes|
      invariant 0 <= i <= |nodes|
      invariant minDistance.None? <==> i == 0
      invariant nearest.None? <==> i == 0
      invariant i > 0 ==> 0 <= k < i && nearest == Some(nodes[k]) && minDistance == Some(distanceTo(nodes[k]))
      invariant i > 0 ==> forall j :: 0 <= j < k ==> distanceTo(nodes[j]) > distanceTo(nodes[k])
      invariant i > 0 ==> forall j :: 0 <= j < i ==> distanceTo(nodes[k]) <= distanceTo(nodes[j])
    {
      var distance := distanceTo(nodes[i]);
      if minDistance.None? || distance < minDistance.value {
        minDistance := Some(distance);
        nearest := Some(nodes[i]);
        k := i;
      }
      i := i + 1;
    }
    if nearest.None? {
      return NoNodes;
    }
    r := Nearest(nearest.value);
  }

  /** `nodes[i]` is nearest of all the nodes, and strictly nearer than every
      node listed before it. */
  ghost predicate IsFirstNearest(nodes: seq<NodeId>, distanceTo: NodeId -> real, i: int)
    requires 0 <= i < |nodes|
  {
    && (forall j :: 0 <= j < |nodes| ==> distanceTo(nodes[i]) <= distanceTo(nodes[j]))
    && (forall j :: 0 <= j < i ==> distanceTo(nodes[j]) > distanceTo(nodes[i]))
  }

  /** The first nearest node is unique: ties go to the earliest. */
  lemma FirstNearestUnique(nodes: seq<NodeId>, distanceTo: NodeId -> real, i: int, j: int)
    requires 0 <= i < |nodes| && 0 <= j < |nodes|
    requires IsFirstNearest(nodes, distanceTo, i) && IsFirstNearest(nodes, distanceTo, j)
    ensures i == j
  {
    assert distanceTo(nodes[i]) <= distanceTo(nodes[j]) && distanceTo(nodes[j]) <= distanceTo(nodes[i]);
  }
}
