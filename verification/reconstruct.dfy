/** `reconstruct_path` of the node-record searches: walks the previous
    nodes back from the destination to the source, summing kilometres and
    hours, and, when an algorithm name is given, bumps the edge attribute
    `<algorithm>_uses` of every edge it walks. */
module Reconstruction {
  import opened RoadGraph
  import opened Labels
  import opened PredecessorChain

  /** Integer edge attributes, keyed by edge and attribute name. */
  type Counters = map<(EdgeId, string), nat>

  /** The name of the attribute counting the uses of an edge by `algorithm`. */
  function UsesKey(algorithm: string): string {
    algorithm + "_uses"
  }

  /** An algorithm name that is neither absent nor empty. */
  predicate Truthy(algorithm: Option<string>) {
    algorithm.Some? && algorithm.value != ""
  }

  /** An attribute's value, 0 when the edge does not have it yet. */
  function Get(c: Counters, key: (EdgeId, string)): nat {
    if key in c then c[key] else 0
  }

  /** Adds one to a counter, creating it at 1 when absent. */
  function Bump(c: Counters, key: (EdgeId, string)): (c': Counters)
    ensures c'.Keys == c.Keys + {key}
    ensures Get(c', key) == Get(c, key) + 1
    ensures forall other :: other != key ==> Get(c', other) == Get(c, other)
  {
    c[key := Get(c, key) + 1]
  }

  /** The counters after bumping attribute `name` of each listed edge in
      turn: no counter is lost or lowered. */
  function AddUses(c: Counters, es: seq<EdgeId>, name: string): (r: Counters)
    ensures c.Keys <= r.Keys
    ensures forall key: (EdgeId, string) :: Get(c, key) <= Get(r, key)
    decreases |es|
  {
    if es == [] then c else Bump(AddUses(c, es[..|es| - 1], name), (es[|es| - 1], name))
  }

  /** How often `e` is listed. */
  function Count(es: seq<EdgeId>, e: EdgeId): nat {
    if es == [] then 0 else (if es[|es| - 1] == e then 1 else 0) + Count(es[..|es| - 1], e)
  }

  /** Bumping along a list raises each edge's counter by the number of times
      the edge is listed. */
  lemma {:induction false} AddUsesCounts(c: Counters, es: seq<EdgeId>, name: string)
    ensures forall e :: Get(AddUses(c, es, name), (e, name)) == Get(c, (e, name)) + Count(es, e)
    decreases |es|
  {
    if es != [] {
      AddUsesCounts(c, es[..|es| - 1], name);
    }
  }

  /** Bumping along a list touches no other attribute, and creates the
      attribute exactly on the listed edges. */
  lemma {:induction false} AddUsesKeepsOthers(c: Counters, es: seq<EdgeId>, name: string)
    ensures forall key: (EdgeId, string) :: key.1 != name ==> Get(AddUses(c, es, name), key) == Get(c, key)
    ensures AddUses(c, es, name).Keys == c.Keys + set e | e in es :: (e, name)
    decreases |es|
  {
    if es != [] {
      var init := es[..|es| - 1];
      AddUsesKeepsOthers(c, init, name);
      assert es == init + [es[|es| - 1]];
      assert (set e | e in es :: (e, name)) == (set e | e in init :: (e, name)) + {(es[|es| - 1], name)};
    }
  }

  /** In a list without repeats every listed edge occurs once. */
  lemma {:induction false} CountDistinct(es: seq<EdgeId>, e: EdgeId)
    requires NoRepeats(es)
    ensures Count(es, e) == if e in es then 1 else 0
    decreases |es|
  {
    if es != [] {
      var init := es[..|es| - 1];
      CountDistinct(init, e);
      assert es == init + [es[|es| - 1]];
      if es[|es| - 1] == e {
        assert e !in init by {
          forall i | 0 <= i < |init| ensures init[i] != e {
            assert es[i] != es[|es| - 1];
          }
        }
      }
    }
  }

  /** Walks the previous nodes back from the destination to the source.
      A chain of previous nodes back to the source is required: on a broken
      chain the source would loop forever or look up a missing edge. */
  method ReconstructPath(g: Graph, labels: map<NodeId, Label>, source: NodeId, destination: NodeId,
                         algorithm: Option<string>, counters: Counters, ghost k: nat)
    returns (dist: real, time: real, counters': Counters)
    requires ChainBack(g, PreviousOf(labels), source, destination, k)
    ensures var es := ChainEdges(g, PreviousOf(labels), source, destination, k);
      && Priced(g, es) && dist == KmAlong(g, es) && time == HoursAlong(g, es)
      && counters' == if Truthy(algorithm) then AddUses(counters, es, UsesKey(algorithm.value)) else counters
  {
    ghost var previous := PreviousOf(labels);
    ChainEdgesPriced(g, previous, source, destination, k);
    ghost var all := ChainEdges(g, previous, source, destination, k);
    ghost var on := Truthy(algorithm);
    ghost var name := if on then UsesKey(algorithm.value) else "";
    dist, time, counters' := 0.0, 0.0, counters;
    var current := destination;
    ghost var left := k;
    ghost var i := 0;
    while current != source
      invariant WalkBack(g, previous, source, all, counters, on, name, current, left, i, dist, time, counters')
      decreases left
    {
      var prev := labels[current].previous.value;
      var edgeId := (prev, current);
      assert prev == previous[current].value;
      ghost var distC, timeC, countersC := dist, time, counters';
      var edge := g.edges[edgeId];
      dist := dist + Km(edge);
      time := time + Hours(edge);
      if Truthy(algorithm) {
        counters' := Bump(counters', (edgeId, UsesKey(algorithm.value)));
      }
      WalkBackStep(g, previous, source, all, counters, on, name, current, left, i, distC, timeC, countersC,
                   dist, time, counters');
      current := prev;
      left := left - 1;
      i := i + 1;
    }
    WalkBackDone(g, previous, source, all, counters, on, name, left, i, dist, time, counters');
  }

  /** The walk back has passed the first `i` edges of the chain `all` and
      stands at `current`, `left` steps from the source at most: the sums
      and counters cover exactly the edges passed. */
  ghost predicate WalkBack(g: Graph, previous: map<NodeId, Option<NodeId>>, source: NodeId, all: seq<EdgeId>,
                           counters: Counters, on: bool, name: string, current: NodeId, left: nat, i: nat,
                           dist: real, time: real, counters': Counters)
  {
    && Priced(g, all) && 0 <= i <= |all| && ChainBack(g, previous, source, current, left)
    && ChainEdges(g, previous, source, current, left) == all[i..] && Priced(g, all[i..])
    && dist + KmAlong(g, all[i..]) == KmAlong(g, all)
    && time + HoursAlong(g, all[i..]) == HoursAlong(g, all)
    && counters' == if on then AddUses(counters, all[..i], name) else counters
  }

  /** One step of the walk back over the edge into `current`, the next one of
      the whole chain `all`, moves the sums and counters past it. */
  lemma WalkBackStep(g: Graph, previous: map<NodeId, Option<NodeId>>, source: NodeId, all: seq<EdgeId>,
                     counters: Counters, on: bool, name: string, current: NodeId, left: nat, i: nat,
                     dist: real, time: real, counters': Counters, dist': real, time': real, counters'': Counters)
    requires WalkBack(g, previous, source, all, counters, on, name, current, left, i, dist, time, counters')
    requires current != source && current in previous && previous[current].Some?
    requires var e := (previous[current].value, current);
      && e in g.edges
      && dist' == dist + Km(g.edges[e]) && time' == time + Hours(g.edges[e])
      && counters'' == if on then Bump(counters', (e, name)) else counters'
    ensures left > 0
    ensures WalkBack(g, previous, source, all, counters, on, name, previous[current].value, left - 1, i + 1,
                     dist', time', counters'')
  {
    ChainStep(g, previous, source, current, left);
    assert all[i + 1..] == all[i..][1..];
    assert all[..i + 1][..i] == all[..i];
  }

  /** Once the walk stands at the source it has passed the whole chain. */
  lemma WalkBackDone(g: Graph, previous: map<NodeId, Option<NodeId>>, source: NodeId, all: seq<EdgeId>,
                     counters: Counters, on: bool, name: string, left: nat, i: nat,
                     dist: real, time: real, counters': Counters)
    requires WalkBack(g, previous, source, all, counters, on, name, source, left, i, dist, time, counters')
    ensures dist == KmAlong(g, all) && time == HoursAlong(g, all)
    ensures counters' == if on then AddUses(counters, all, name) else counters
  {
    assert all[..i] == all;
  }

  /** With an algorithm name, each edge of the reconstructed path has its
      `<algorithm>_uses` attribute raised by exactly one; every other edge
      and every other attribute is left alone. */
  lemma ReconstructCountsEachEdgeOnce(g: Graph, labels: map<NodeId, Label>, source: NodeId, destination: NodeId,
                                      algorithm: string, counters: Counters, k: nat)
    requires ChainBack(g, PreviousOf(labels), source, destination, k)
    ensures var es, name := ChainEdges(g, PreviousOf(labels), source, destination, k), UsesKey(algorithm);
      var c' := AddUses(counters, es, name);
      && (forall e :: Get(c', (e, name)) == Get(counters, (e, name)) + (if e in es then 1 else 0))
      && (forall key: (EdgeId, string) :: key.1 != name ==> Get(c', key) == Get(counters, key))
  {
    var es, name := ChainEdges(g, PreviousOf(labels), source, destination, k), UsesKey(algorithm);
    AddUsesCounts(counters, es, name);
    AddUsesKeepsOthers(counters, es, name);
    ChainEdgesDistinct(g, PreviousOf(labels), source, destination, k);
    forall e ensures Count(es, e) == if e in es then 1 else 0 {
      CountDistinct(es, e);
    }
  }
}
