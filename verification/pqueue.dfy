/** The searches' priority queue: a list of (priority, node) entries used as a
    binary heap, whose pop yields the least entry in the lexicographic order of
    (priority, node id), the order in which tuples compare. */
module PriorityQueue {
  import opened RoadGraph

  datatype Entry = Entry(priority: real, node: NodeId)

  /** Tuple order: by priority, then by node id. */
  predicate Le(a: Entry, b: Entry) {
    a.priority < b.priority || (a.priority == b.priority && a.node <= b.node)
  }

  /** Pushing appends the entry; the heap order of the list is not modelled,
      only its contents. */
  function Push(q: seq<Entry>, e: Entry): (r: seq<Entry>)
    ensures multiset(r) == multiset(q) + multiset{e}
    ensures forall x :: x in r <==> x in q || x == e
  {
    q + [e]
  }

  /** Removes and returns the least entry. Ties in priority go to the smaller
      node id, so the popped entry is the unique minimum of the queue. */
  method PopMin(q: seq<Entry>) returns (e: Entry, rest: seq<Entry>)
    requires |q| > 0
    ensures e in q
    ensures forall x :: x in q ==> Le(e, x)
    ensures forall x :: x in q && Le(x, e) ==> x == e
    ensures multiset(rest) + multiset{e} == multiset(q)
    ensures |rest| == |q| - 1
    ensures forall x :: x in rest ==> x in q
    ensures forall x :: x in q && x != e ==> x in rest
  {
    var k := 0;
    var i := 1;
    while i < |q|
      invariant 0 <= k < |q| && 1 <= i <= |q|
      invariant forall j :: 0 <= j < i ==> Le(q[k], q[j])
    {
      if !Le(q[k], q[i]) {
        k := i;
      }
      i := i + 1;
    }
    e := q[k];
    rest := q[..k] + q[k + 1..];
    assert q == q[..k] + [e] + q[k + 1..];
    forall x | x in q && x != e ensures x in rest {
      var j :| 0 <= j < |q| && q[j] == x;
      if j < k { assert rest[j] == x; } else { assert rest[j - 1] == x; }
    }
  }
}
