/** Directed graphs over transaction ids, as the flusher builds them: a map from an id to the
    list of its successors. An id that is not a key has no successors. */
module Graphs {

  // A transaction id. The twelve bytes of an ObjectId compare as one big-endian number.
  type Id = nat

  type Graph = map<Id, seq<Id>>

  function Succ(g: Graph, v: Id): seq<Id> {
    if v in g then g[v] else []
  }

  predicate Edge(g: Graph, v: Id, w: Id) {
    w in Succ(g, v)
  }

  /** Every id the graph mentions. */
  ghost function Nodes(g: Graph): set<Id> {
    g.Keys + (set v, w | v in g && w in g[v] :: w)
  }

  ghost predicate IsPath(g: Graph, p: seq<Id>, a: Id, b: Id) {
    && |p| > 0 && p[0] == a && p[|p| - 1] == b
    && forall i :: 0 <= i < |p| - 1 ==> Edge(g, p[i], p[i + 1])
  }

  ghost predicate Reach(g: Graph, a: Id, b: Id) {
    exists p :: IsPath(g, p, a, b)
  }

  lemma ReachSelf(g: Graph, a: Id)
    ensures Reach(g, a, a)
  {
    assert IsPath(g, [a], a, a);
  }

  lemma ReachEdge(g: Graph, a: Id, b: Id)
    requires Edge(g, a, b)
    ensures Reach(g, a, b)
  {
    assert IsPath(g, [a, b], a, b);
  }

  lemma ReachTrans(g: Graph, a: Id, b: Id, c: Id)
    requires Reach(g, a, b) && Reach(g, b, c)
    ensures Reach(g, a, c)
  {
    var p :| IsPath(g, p, a, b);
    var q :| IsPath(g, q, b, c);
    var r := p + q[1..];
    forall i | 0 <= i < |r| - 1 ensures Edge(g, r[i], r[i + 1]) {
      if i < |p| - 1 {
        assert r[i] == p[i] && r[i + 1] == p[i + 1];
      } else {
        var j := i - (|p| - 1);
        assert r[i] == q[j] && r[i + 1] == q[j + 1];
      }
    }
    assert IsPath(g, r, a, c);
  }

  ghost predicate Closed(g: Graph, s: set<Id>) {
    forall v, w :: v in s && Edge(g, v, w) ==> w in s
  }

  /** A set that no edge leaves is never left by a path. */
  lemma ClosedReach(g: Graph, s: set<Id>, a: Id, b: Id)
    requires Closed(g, s) && a in s && Reach(g, a, b)
    ensures b in s
  {
    var p :| IsPath(g, p, a, b);
    var i := 0;
    while i < |p| - 1
      invariant 0 <= i <= |p| - 1 && p[i] in s
    {
      assert Edge(g, p[i], p[i + 1]);
      i := i + 1;
    }
  }

  /** Two graphs with the same edges reach the same nodes, however their lists are ordered. */
  lemma SameEdgesSameReach(g: Graph, h: Graph, a: Id, b: Id)
    requires forall v, w :: Edge(g, v, w) ==> Edge(h, v, w)
    requires Reach(g, a, b)
    ensures Reach(h, a, b)
  {
    var p :| IsPath(g, p, a, b);
    assert IsPath(h, p, a, b);
  }
}
