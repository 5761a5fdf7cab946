/** Tarjan's strongly connected components (txn/tarjan.go), with the mutable state of the
    original: the node table with lowlinks and stacked flags, the stack, the index map and the
    output, all updated in place by a recursive `StrongConnect`. */
module Tarjan {
  import opened Graphs

  datatype Node = Node(lowlink: nat, stacked: bool)

  /** What the invariants speak of: the numbers given so far (and the ids in that order), the ids on the stack, the ids whose
      call is still running (`gray`), and for each id already output the position of its
      component. */
  datatype Snapshot = Snapshot(index: map<Id, nat>, order: seq<Id>, stacked: set<Id>,
                               gray: set<Id>, comp: map<Id, nat>, emitted: nat)

  // --- Invariants ---------------------------------------------------------------------------

  ghost predicate Numbered(t: Snapshot) {
    forall v :: v in t.index ==> t.index[v] < |t.order| && t.order[t.index[v]] == v
  }

  ghost predicate Split(t: Snapshot) {
    && t.index.Keys == t.stacked + t.comp.Keys
    && t.stacked !! t.comp.Keys
    && t.gray <= t.stacked
    && (forall v :: v in t.comp ==> t.comp[v] < t.emitted)
  }

  /** A finished id has only visited successors. */
  ghost predicate NoWhiteBelow(g: Graph, t: Snapshot) {
    forall v, w :: v in t.index && v !in t.gray && Edge(g, v, w) ==> w in t.index
  }

  /** An id already output has only successors that were output no later. */
  ghost predicate OutputClosed(g: Graph, t: Snapshot) {
    forall v, w :: v in t.comp && Edge(g, v, w) ==> w in t.comp && t.comp[w] <= t.comp[v]
  }

  ghost predicate HasGrayBelow(g: Graph, t: Snapshot, y: Id) {
    exists x :: x in t.gray && x in t.index && y in t.index && t.index[x] <= t.index[y] && Reach(g, y, x)
  }

  ghost predicate AllHaveGrayBelow(g: Graph, t: Snapshot) {
    forall y {:trigger HasGrayBelow(g, t, y)} :: y in t.stacked ==> HasGrayBelow(g, t, y)
  }

  ghost predicate GrayReachesAbove(g: Graph, t: Snapshot) {
    forall x, y {:trigger Reach(g, x, y)} ::
      x in t.gray && y in t.stacked && x in t.index && y in t.index && t.index[x] <= t.index[y] ==> Reach(g, x, y)
  }

  ghost predicate ComponentsLinked(g: Graph, t: Snapshot) {
    forall u, v {:trigger Reach(g, u, v)} :: u in t.comp && v in t.comp && t.comp[u] == t.comp[v] ==> Reach(g, u, v)
  }

  ghost predicate Inv(g: Graph, t: Snapshot) {
    && Numbered(t) && Split(t)
    && NoWhiteBelow(g, t) && OutputClosed(g, t)
    && AllHaveGrayBelow(g, t) && GrayReachesAbove(g, t) && ComponentsLinked(g, t)
  }

  /** `t` continues `t0`: nothing recorded before was changed, the stack only grew on top. */
  ghost predicate Extends(t0: Snapshot, t: Snapshot) {
    && |t0.order| <= |t.order| && t0.emitted <= t.emitted
    && (forall v :: v in t0.index ==> v in t.index && t.index[v] == t0.index[v])
    && (forall v :: v in t.index && v !in t0.index ==> t.index[v] >= |t0.order|)
    && (forall v :: v in t0.comp ==> v in t.comp && t.comp[v] == t0.comp[v])
    && (forall v :: v in t.comp && v !in t0.comp ==> t.comp[v] >= t0.emitted && v !in t0.index)
    && t0.stacked <= t.stacked
  }

  /** Edges from stacked ids numbered `num` or more to stacked ids numbered less lead to
      numbers no smaller than `low`. */
  ghost predicate EdgesAbove(g: Graph, t: Snapshot, num: nat, low: nat) {
    forall v, w | v in t.stacked && w in t.stacked && v in t.index && w in t.index && Edge(g, v, w) ::
      t.index[v] >= num && t.index[w] < num ==> low <= t.index[w]
  }

  ghost predicate LowReached(g: Graph, t: Snapshot, id: Id, low: nat) {
    exists y :: y in t.stacked && y in t.index && t.index[y] == low && Reach(g, id, y)
  }

  // --- The three moves ----------------------------------------------------------------------

  ghost function Push(t: Snapshot, id: Id): Snapshot {
    t.(index := t.index[id := |t.order|], order := t.order + [id], stacked := t.stacked + {id},
       gray := t.gray + {id})
  }

  lemma PushKeeps(g: Graph, t: Snapshot, id: Id)
    requires Inv(g, t) && id !in t.index
    requires forall x :: x in t.gray ==> Reach(g, x, id)
    ensures Inv(g, Push(t, id)) && Extends(t, Push(t, id))
  {
    hide Reach, Edge;
    var s := Push(t, id);
    ReachSelf(g, id);
    assert AllHaveGrayBelow(g, s) by {
      forall y | y in s.stacked ensures HasGrayBelow(g, s, y) {
        if y != id {
          assert HasGrayBelow(g, t, y);
        }
      }
    }
  }

  /** Everything on the stack still reaches a running call when that of `id` ends, because `id`
      reaches something lower. */
  lemma GrayBelowWithout(g: Graph, t: Snapshot, id: Id, low: nat, y: Id)
    requires Numbered(t) && Split(t) && AllHaveGrayBelow(g, t)
    requires id in t.gray && low < t.index[id] && LowReached(g, t, id, low) && y in t.stacked
    ensures HasGrayBelow(g, t.(gray := t.gray - {id}), y)
  {
    hide Reach, Edge;
    assert HasGrayBelow(g, t, y);
    var x :| x in t.gray && x in t.index && t.index[x] <= t.index[y] && Reach(g, y, x);
    if x == id {
      var z :| z in t.stacked && z in t.index && t.index[z] == low && Reach(g, id, z);
      assert HasGrayBelow(g, t, z);
      var x0 :| x0 in t.gray && x0 in t.index && t.index[x0] <= t.index[z] && Reach(g, z, x0);
      ReachTrans(g, id, z, x0);
      ReachTrans(g, y, id, x0);
    }
  }

  /** The call of `id` ends without a component. */
  lemma BlackenKeeps(g: Graph, t: Snapshot, id: Id, low: nat)
    requires Inv(g, t) && id in t.gray
    requires low < t.index[id] && LowReached(g, t, id, low)
    requires forall w :: Edge(g, id, w) ==> w in t.index
    ensures Inv(g, t.(gray := t.gray - {id}))
  {
    hide Reach, Edge, HasGrayBelow, LowReached;
    var s := t.(gray := t.gray - {id});
    forall y | y in s.stacked ensures HasGrayBelow(g, s, y) {
      GrayBelowWithout(g, t, id, low, y);
    }
  }

  /** The ids that sit on the stack at or above `id`. */
  ghost function Top(t: Snapshot, id: Id): set<Id>
    requires id in t.index
  {
    set v | v in t.stacked && v in t.index && t.index[v] >= t.index[id]
  }

  ghost function PopComponent(t: Snapshot, id: Id): Snapshot
    requires id in t.index
  {
    t.(stacked := t.stacked - Top(t, id), gray := t.gray - {id},
       comp := t.comp + (map v | v in Top(t, id) :: t.emitted), emitted := t.emitted + 1)
  }

  /** `id` is the innermost running call, all its successors were visited, and no edge from its
      part of the stack leads below it. */
  ghost predicate IsRoot(g: Graph, t: Snapshot, id: Id) {
    && id in t.gray && id in t.index
    && (forall x :: x in t.gray && x in t.index ==> t.index[x] <= t.index[id])
    && (forall w :: Edge(g, id, w) ==> w in t.index)
    && EdgesAbove(g, t, t.index[id], t.index[id])
  }

  lemma TopEdges(g: Graph, t: Snapshot, id: Id, v: Id, w: Id)
    requires Numbered(t) && Split(t) && NoWhiteBelow(g, t) && OutputClosed(g, t) && IsRoot(g, t, id)
    requires v in Top(t, id) && Edge(g, v, w)
    ensures w in Top(t, id) || w in t.comp
  {
    hide Edge;
    assert w in t.index;
  }

  lemma TopReachesRoot(g: Graph, t: Snapshot, id: Id, y: Id)
    requires Inv(g, t) && IsRoot(g, t, id) && y in Top(t, id)
    ensures Reach(g, y, id)
  {
    hide Reach, Edge;
    assert HasGrayBelow(g, t, y);
    var x :| x in t.gray && x in t.index && t.index[x] <= t.index[y] && Reach(g, y, x);
    var s := Top(t, id) + t.comp.Keys;
    forall v, w | v in s && Edge(g, v, w) ensures w in s {
      if v in Top(t, id) {
        TopEdges(g, t, id, v, w);
      }
    }
    ClosedReach(g, s, y, x);
    assert x in Top(t, id);
  }

  lemma PopOutputClosed(g: Graph, t: Snapshot, id: Id)
    requires Inv(g, t) && IsRoot(g, t, id)
    ensures OutputClosed(g, PopComponent(t, id)) && Split(PopComponent(t, id))
  {
    hide Reach, Edge, HasGrayBelow;
    var s := PopComponent(t, id);
    forall v, w | v in s.comp && Edge(g, v, w) ensures w in s.comp && s.comp[w] <= s.comp[v] {
      if v in Top(t, id) {
        TopEdges(g, t, id, v, w);
      }
    }
  }

  lemma PopGrayBelow(g: Graph, t: Snapshot, id: Id, y: Id)
    requires Numbered(t) && Split(t) && AllHaveGrayBelow(g, t) && IsRoot(g, t, id)
    requires y in PopComponent(t, id).stacked
    ensures HasGrayBelow(g, PopComponent(t, id), y)
  {
    hide Reach, Edge;
    assert HasGrayBelow(g, t, y);
    var x :| x in t.gray && x in t.index && t.index[x] <= t.index[y] && Reach(g, y, x);
    assert x in PopComponent(t, id).gray;
  }

  lemma PopLinked(g: Graph, t: Snapshot, id: Id, u: Id, v: Id)
    requires Inv(g, t) && IsRoot(g, t, id)
    requires var s := PopComponent(t, id); u in s.comp && v in s.comp && s.comp[u] == s.comp[v]
    ensures Reach(g, u, v)
  {
    hide Reach, Edge, HasGrayBelow;
    if u in Top(t, id) {
      TopReachesRoot(g, t, id, u);
      ReachTrans(g, u, id, v);
    }
  }

  lemma PopKeeps(g: Graph, t: Snapshot, id: Id)
    requires Inv(g, t) && IsRoot(g, t, id)
    ensures Inv(g, PopComponent(t, id))
  {
    hide Reach, Edge, HasGrayBelow, EdgesAbove;
    var s := PopComponent(t, id);
    PopOutputClosed(g, t, id);
    forall y | y in s.stacked ensures HasGrayBelow(g, s, y) {
      PopGrayBelow(g, t, id, y);
    }
    forall u, v | u in s.comp && v in s.comp && s.comp[u] == s.comp[v] ensures Reach(g, u, v) {
      PopLinked(g, t, id, u, v);
    }
  }

  // --- One pass over the successors of an id ------------------------------------------------

  /** The promise of a call on an id numbered `num`, started at `t0` and ended at `t`. */
  ghost predicate Returned(g: Graph, t0: Snapshot, t: Snapshot, id: Id, low: nat) {
    && Inv(g, t) && Extends(t0, t) && t.gray == t0.gray
    && id in t.index && t.index[id] == |t0.order| && low <= |t0.order|
    && (if low == |t0.order| then t.stacked == t0.stacked else LowReached(g, t0, id, low))
    && EdgesAbove(g, t, |t0.order|, low)
  }

  /** Like EdgesAbove, but silent about the edges that start at `id`. */
  ghost predicate EdgesAboveBut(g: Graph, t: Snapshot, id: Id, num: nat, low: nat) {
    forall v, w | v in t.stacked && w in t.stacked && v in t.index && w in t.index && Edge(g, v, w) ::
      v != id && t.index[v] >= num && t.index[w] < num ==> low <= t.index[w]
  }

  /** The edges from `id` to the ids in `done` were all followed. */
  ghost predicate Followed(t: Snapshot, done: seq<Id>, num: nat, low: nat) {
    forall w :: w in done ==> w in t.index && (w in t.stacked && t.index[w] < num ==> low <= t.index[w])
  }

  /** The call on `id`, started at `t0`, has followed the edges to `done` and reached `t`. */
  ghost predicate Running(g: Graph, t0: Snapshot, t: Snapshot, id: Id, done: seq<Id>, low: nat) {
    && Inv(g, t) && Extends(t0, t) && t.gray == t0.gray + {id} && id !in t0.gray
    && id in t.index && t.index[id] == |t0.order| && low <= |t0.order|
    && (low < |t0.order| ==> LowReached(g, t0, id, low))
    && EdgesAboveBut(g, t, id, |t0.order|, low)
    && Followed(t, done, |t0.order|, low)
  }

  lemma StartRunning(g: Graph, t0: Snapshot, id: Id)
    requires Inv(g, t0) && id !in t0.index
    requires forall x :: x in t0.gray ==> Reach(g, x, id)
    ensures Running(g, t0, Push(t0, id), id, [], |t0.order|)
  {
    hide Reach, Edge, HasGrayBelow, LowReached;
    PushKeeps(g, t0, id);
  }

  /** Following an edge to an id that was seen before. */
  lemma FollowSeen(g: Graph, t0: Snapshot, t: Snapshot, id: Id, done: seq<Id>, low: nat, w: Id)
    requires Inv(g, t0) && Running(g, t0, t, id, done, low) && Edge(g, id, w) && w in t.index
    ensures Running(g, t0, t, id, done + [w], if w in t.stacked && t.index[w] < low then t.index[w] else low)
  {
    hide Reach, Edge, HasGrayBelow, Inv;
    ReachEdge(g, id, w);
    InvParts(g, t0); InvParts(g, t);
    if w in t.stacked && t.index[w] < low {
      OldStacked(t0, t, w);
      assert LowReached(g, t0, id, t.index[w]);
    }
  }

  lemma InvParts(g: Graph, t: Snapshot)
    requires Inv(g, t)
    ensures Numbered(t) && Split(t)
  {
  }

  /** An id on the stack with an old number was on the stack before. */
  lemma OldStacked(t0: Snapshot, t: Snapshot, w: Id)
    requires Extends(t0, t) && Split(t0) && Split(t)
    requires w in t.stacked && t.index[w] < |t0.order|
    ensures w in t0.stacked && t0.index[w] == t.index[w]
  {
    assert w in t0.index;
    assert w !in t0.comp;
  }

  /** Following an edge to a new id: the recursive call went from `t` to `s`. */
  lemma FollowNew(g: Graph, t0: Snapshot, t: Snapshot, s: Snapshot, id: Id, done: seq<Id>, low: nat, w: Id, wlow: nat)
    requires Inv(g, t0) && Running(g, t0, t, id, done, low) && Edge(g, id, w)
    requires Returned(g, t, s, w, wlow)
    ensures Running(g, t0, s, id, done + [w], if wlow < low then wlow else low)
  {
    hide Reach, Edge, HasGrayBelow, Inv, LowReached, Followed, EdgesAbove, EdgesAboveBut;
    var low' := if wlow < low then wlow else low;
    InvParts(g, t0); InvParts(g, t); InvParts(g, s);
    if wlow < low {
      LowFromBelow(g, t0, t, id, w, wlow);
    }
    StackedBefore(t, s);
    FollowedGrows(t, s, done, |t0.order|, low, low');
    FollowedOne(s, done, |t0.order|, low', w);
    EdgesGrow(g, t0, t, s, id, low, wlow);
    ExtendsTrans(t0, t, s);
  }

  lemma StackedBefore(t: Snapshot, s: Snapshot)
    requires Split(t) && Split(s) && Extends(t, s)
    ensures forall x :: x in s.stacked && x in t.index ==> x in t.stacked
  {
  }

  lemma FollowedOne(s: Snapshot, done: seq<Id>, num: nat, low: nat, w: Id)
    requires Followed(s, done, num, low) && w in s.index && s.index[w] >= num
    ensures Followed(s, done + [w], num, low)
  {
  }

  lemma ExtendsTrans(a: Snapshot, b: Snapshot, c: Snapshot)
    requires Extends(a, b) && Extends(b, c)
    ensures Extends(a, c)
  {
  }

  lemma LowFromBelow(g: Graph, t0: Snapshot, t: Snapshot, id: Id, w: Id, wlow: nat)
    requires Split(t0) && Split(t) && Extends(t0, t) && Edge(g, id, w)
    requires LowReached(g, t, w, wlow) && wlow < |t0.order|
    ensures LowReached(g, t0, id, wlow)
  {
    hide Reach, Edge;
    var y :| y in t.stacked && y in t.index && t.index[y] == wlow && Reach(g, w, y);
    OldStacked(t0, t, y);
    ReachEdge(g, id, w);
    ReachTrans(g, id, w, y);
  }

  lemma FollowedGrows(t: Snapshot, s: Snapshot, done: seq<Id>, num: nat, low: nat, low': nat)
    requires Followed(t, done, num, low) && Extends(t, s) && low' <= low
    requires forall x :: x in s.stacked && x in t.index ==> x in t.stacked
    ensures Followed(s, done, num, low')
  {
  }

  lemma EdgesGrow(g: Graph, t0: Snapshot, t: Snapshot, s: Snapshot, id: Id, low: nat, wlow: nat)
    requires Numbered(t) && Split(t) && Numbered(s) && Split(s) && Extends(t, s) && |t0.order| <= |t.order|
    requires EdgesAboveBut(g, t, id, |t0.order|, low) && EdgesAbove(g, s, |t.order|, wlow)
    requires forall x :: x in s.stacked && x in t.index ==> x in t.stacked
    ensures EdgesAboveBut(g, s, id, |t0.order|, if wlow < low then wlow else low)
  {
    hide Edge;
  }

  /** When all edges of `id` were followed its own edges join the others. */
  lemma AllFollowed(g: Graph, t0: Snapshot, t: Snapshot, id: Id, low: nat)
    requires Running(g, t0, t, id, Succ(g, id), low)
    ensures EdgesAbove(g, t, |t0.order|, low)
    ensures forall w :: Edge(g, id, w) ==> w in t.index
  {
    hide Inv, LowReached;
  }

  lemma EndWithoutComponent(g: Graph, t0: Snapshot, t: Snapshot, id: Id, low: nat)
    requires Inv(g, t0) && Running(g, t0, t, id, Succ(g, id), low) && low < |t0.order|
    ensures Returned(g, t0, t.(gray := t.gray - {id}), id, low)
  {
    hide Reach, Edge, HasGrayBelow, Inv, LowReached, Extends, EdgesAbove, EdgesAboveBut, Followed;
    var s := t.(gray := t.gray - {id});
    AllFollowed(g, t0, t, id, low);
    LowKept(g, t0, t, id, low);
    assert id in t.gray;
    BlackenKeeps(g, t, id, low);
    GrayIrrelevant(g, t0, t, s, |t0.order|, low);
    assert s.gray == t0.gray;
  }

  lemma LowKept(g: Graph, t0: Snapshot, t: Snapshot, id: Id, low: nat)
    requires Extends(t0, t) && LowReached(g, t0, id, low)
    ensures LowReached(g, t, id, low)
  {
    hide Reach;
    var y :| y in t0.stacked && y in t0.index && t0.index[y] == low && Reach(g, id, y);
    assert y in t.stacked;
  }

  lemma GrayIrrelevant(g: Graph, t0: Snapshot, t: Snapshot, s: Snapshot, num: nat, low: nat)
    requires s == t.(gray := s.gray) && Extends(t0, t) && EdgesAbove(g, t, num, low)
    ensures Extends(t0, s) && EdgesAbove(g, s, num, low)
  {
    hide Edge;
  }

  lemma EndWithComponent(g: Graph, t0: Snapshot, t: Snapshot, id: Id)
    requires Inv(g, t0) && Running(g, t0, t, id, Succ(g, id), |t0.order|)
    ensures IsRoot(g, t, id)
    ensures Returned(g, t0, PopComponent(t, id), id, |t0.order|)
    ensures PopComponent(t, id).stacked == t0.stacked
  {
    hide Reach, Edge, Inv, HasGrayBelow, LowReached, Extends, EdgesAboveBut, Followed;
    AllFollowed(g, t0, t, id, |t0.order|);
    InvParts(g, t0); InvParts(g, t);
    assert IsRoot(g, t, id) by { OldNumbers(t0, t); }
    PopKeeps(g, t, id);
    PopRestoresStack(t0, t, id);
    PopExtends(t0, t, id);
    PopEdges(g, t0, t, id);
  }

  lemma OldNumbers(t0: Snapshot, t: Snapshot)
    requires Numbered(t0) && Extends(t0, t)
    ensures forall x :: x in t0.index ==> x in t.index && t.index[x] < |t0.order|
  {
  }

  lemma PopExtends(t0: Snapshot, t: Snapshot, id: Id)
    requires Extends(t0, t) && id in t.index && PopComponent(t, id).stacked == t0.stacked
    requires forall v :: v in Top(t, id) ==> v !in t0.index
    requires Numbered(t0) && Split(t0) && Split(t)
    ensures Extends(t0, PopComponent(t, id))
  {
    assert forall v :: v in t0.comp ==> v in t0.index.Keys;
  }

  lemma PopEdges(g: Graph, t0: Snapshot, t: Snapshot, id: Id)
    requires Numbered(t0) && Split(t0) && Extends(t0, t)
    requires id in t.index && PopComponent(t, id).stacked == t0.stacked
    ensures EdgesAbove(g, PopComponent(t, id), |t0.order|, |t0.order|)
  {
    hide Edge;
    forall v | v in t0.stacked ensures v in t.index && t.index[v] < |t0.order| {
      assert v in t0.index.Keys;
    }
  }

  lemma PopRestoresStack(t0: Snapshot, t: Snapshot, id: Id)
    requires Numbered(t0) && Split(t0) && Numbered(t) && Split(t) && Extends(t0, t)
    requires id in t.index && t.index[id] == |t0.order|
    ensures PopComponent(t, id).stacked == t0.stacked
    ensures forall v :: v in Top(t, id) ==> v !in t0.index
  {
    forall v | v in t.stacked ensures v in Top(t, id) <==> v !in t0.stacked {
      if v !in Top(t, id) { OldStacked(t0, t, v); }
    }
  }

  // --- The algorithm ------------------------------------------------------------------------

  ghost predicate NoDup(s: seq<Id>) {
    forall i, j :: 0 <= i < j < |s| ==> s[i] != s[j]
  }

  /** The stack holds the stacked ids, each once, in the order of their numbers. */
  ghost predicate StackOf(t: Snapshot, stack: seq<Id>) {
    && (forall v :: v in stack <==> v in t.stacked)
    && (forall v :: v in stack ==> v in t.index)
    && (forall i, j :: 0 <= i < j < |stack| ==> t.index[stack[i]] < t.index[stack[j]])
  }

  ghost predicate NodesOf(t: Snapshot, nodes: seq<Node>) {
    && |nodes| == |t.order|
    && (forall v :: v in t.index ==> t.index[v] < |nodes| && (nodes[t.index[v]].stacked <==> v in t.stacked))
  }

  ghost predicate OutputOf(t: Snapshot, output: seq<seq<Id>>) {
    && |output| == t.emitted
    && (forall k :: 0 <= k < |output| ==> output[k] != [] && NoDup(output[k]))
    && (forall k, v :: 0 <= k < |output| ==> (v in output[k] <==> v in t.comp && t.comp[v] == k))
  }

  lemma PushLinks(g: Graph, t: Snapshot, id: Id, stack: seq<Id>, nodes: seq<Node>, output: seq<seq<Id>>)
    requires Inv(g, t) && id !in t.index
    requires StackOf(t, stack) && NodesOf(t, nodes) && OutputOf(t, output)
    ensures StackOf(Push(t, id), stack + [id])
    ensures NodesOf(Push(t, id), nodes + [Node(|nodes|, true)])
    ensures OutputOf(Push(t, id), output)
  {
    hide OutputOf, Inv;
    InvParts(g, t);
    assert OutputOf(Push(t, id), output) by { SameOutput(t, Push(t, id), output); }
  }

  lemma SameOutput(t: Snapshot, s: Snapshot, output: seq<seq<Id>>)
    requires OutputOf(t, output) && s.comp == t.comp && s.emitted == t.emitted
    ensures OutputOf(s, output)
  {
  }

  lemma GrayLinks(t: Snapshot, gray: set<Id>, stack: seq<Id>, nodes: seq<Node>, output: seq<seq<Id>>)
    requires StackOf(t, stack) && NodesOf(t, nodes) && OutputOf(t, output)
    ensures StackOf(t.(gray := gray), stack) && NodesOf(t.(gray := gray), nodes) && OutputOf(t.(gray := gray), output)
  {
  }

  lemma LowlinkLinks(t: Snapshot, nodes: seq<Node>, k: nat, low: nat)
    requires NodesOf(t, nodes) && k < |nodes|
    ensures NodesOf(t, nodes[k := nodes[k].(lowlink := low)])
  {
  }

  /** `scc` is the stack from the top down to position `base`. */
  ghost predicate TopDown(stack: seq<Id>, base: nat, scc: seq<Id>) {
    && base <= |stack| && |scc| == |stack| - base
    && forall k :: 0 <= k < |scc| ==> scc[k] == stack[|stack| - 1 - k]
  }

  /** `now` are the `before` nodes after those of the ids in `gone` lost their stacked flag. */
  ghost predicate Unstacked(t: Snapshot, before: seq<Node>, now: seq<Node>, gone: seq<Id>) {
    && |before| == |now| == |t.order|
    && (forall k :: 0 <= k < |now| ==> now[k].lowlink == before[k].lowlink)
    && (forall v :: v in t.index && t.index[v] < |now| ==>
         (now[t.index[v]].stacked <==> before[t.index[v]].stacked && v !in gone))
  }

  lemma UnstackOne(g: Graph, t: Snapshot, before: seq<Node>, now: seq<Node>, gone: seq<Id>, v: Id)
    requires Inv(g, t) && v in t.index && Unstacked(t, before, now, gone)
    ensures Unstacked(t, before, now[t.index[v] := now[t.index[v]].(stacked := false)], gone + [v])
  {
    hide Inv;
    InvParts(g, t);
  }

  lemma TopOfStack(t: Snapshot, id: Id, stack: seq<Id>, base: nat, scc: seq<Id>)
    requires StackOf(t, stack) && id in t.index && base < |stack| && stack[base] == id && TopDown(stack, base, scc)
    ensures forall v :: v in scc <==> v in Top(t, id)
    ensures forall v :: v in stack[..base] <==> v in t.stacked && v !in Top(t, id)
  {
    forall v | v in Top(t, id) ensures v in scc {
      var i :| 0 <= i < |stack| && stack[i] == v;
      assert scc[|stack| - 1 - i] == v;
    }
    forall v | v in t.stacked && v !in Top(t, id) ensures v in stack[..base] {
      var i :| 0 <= i < |stack| && stack[i] == v;
      assert stack[..base][i] == v;
    }
    forall v | v in stack[..base] ensures v in t.stacked && v !in Top(t, id) {
      var i :| 0 <= i < base && stack[i] == v;
      assert t.index[stack[i]] < t.index[stack[base]];
    }
  }

  lemma PopLinks(g: Graph, t: Snapshot, id: Id, stack: seq<Id>, base: nat, before: seq<Node>, now: seq<Node>,
                 output: seq<seq<Id>>, scc: seq<Id>)
    requires Inv(g, t) && id in t.index
    requires StackOf(t, stack) && NodesOf(t, before) && OutputOf(t, output)
    requires base < |stack| && stack[base] == id && TopDown(stack, base, scc) && Unstacked(t, before, now, scc)
    ensures StackOf(PopComponent(t, id), stack[..base])
    ensures NodesOf(PopComponent(t, id), now)
    ensures OutputOf(PopComponent(t, id), output + [scc])
  {
    hide Inv, OutputOf, NodesOf, Unstacked, NoDup, StackOf, TopDown, Numbered, Split;
    InvParts(g, t);
    TopOfStack(t, id, stack, base, scc);
    PopStack(t, id, stack, base);
    assert scc != [] by { TakeTopNonEmpty(stack, base, scc); }
    TopDownNoDup(t, stack, base, scc);
    PopNodes(t, id, before, now, scc);
    PopOutput(t, id, output, scc);
  }

  lemma TakeTopNonEmpty(stack: seq<Id>, base: nat, scc: seq<Id>)
    requires TopDown(stack, base, scc) && base < |stack|
    ensures scc != []
  {
  }

  lemma PopStack(t: Snapshot, id: Id, stack: seq<Id>, base: nat)
    requires StackOf(t, stack) && base < |stack| && id in t.index
    requires forall v :: v in stack[..base] <==> v in t.stacked && v !in Top(t, id)
    ensures StackOf(PopComponent(t, id), stack[..base])
  {
    assert forall v :: v in stack[..base] ==> v in stack;
  }

  lemma PopNodes(t: Snapshot, id: Id, before: seq<Node>, now: seq<Node>, scc: seq<Id>)
    requires id in t.index && NodesOf(t, before) && Unstacked(t, before, now, scc)
    requires forall v :: v in scc <==> v in Top(t, id)
    ensures NodesOf(PopComponent(t, id), now)
  {
  }

  lemma TopDownNoDup(t: Snapshot, stack: seq<Id>, base: nat, scc: seq<Id>)
    requires StackOf(t, stack) && TopDown(stack, base, scc)
    ensures NoDup(scc)
  {
    forall i, j | 0 <= i < j < |scc| ensures scc[i] != scc[j] {
      assert t.index[stack[|stack| - 1 - j]] < t.index[stack[|stack| - 1 - i]];
    }
  }

  lemma PopOutput(t: Snapshot, id: Id, output: seq<seq<Id>>, scc: seq<Id>)
    requires Split(t) && id in t.index && OutputOf(t, output)
    requires NoDup(scc) && scc != [] && forall v :: v in scc <==> v in Top(t, id)
    ensures OutputOf(PopComponent(t, id), output + [scc])
  {
    var s, o := PopComponent(t, id), output + [scc];
    forall k, v | 0 <= k < |o| ensures v in o[k] <==> v in s.comp && s.comp[v] == k {
      if k < |output| {
        assert o[k] == output[k];
      }
    }
  }

  lemma SuccEdge(g: Graph, id: Id, i: nat)
    requires i < |Succ(g, id)|
    ensures Edge(g, id, Succ(g, id)[i])
  {
  }

  lemma EdgeInNodes(g: Graph, v: Id, w: Id)
    requires Edge(g, v, w)
    ensures w in Nodes(g)
  {
  }

  lemma NodeFlag(t: Snapshot, nodes: seq<Node>, v: Id)
    requires NodesOf(t, nodes) && v in t.index
    ensures t.index[v] < |nodes| && (nodes[t.index[v]].stacked <==> v in t.stacked)
  {
  }

  lemma TakeNone(stack: seq<Id>)
    ensures TopDown(stack, |stack|, [])
  {
  }

  lemma TakeTop(stack: seq<Id>, i: nat, scc: seq<Id>)
    requires i < |stack| && TopDown(stack, i + 1, scc)
    ensures TopDown(stack, i, scc + [stack[i]])
  {
  }

  lemma RunningParts(g: Graph, t0: Snapshot, t: Snapshot, id: Id, done: seq<Id>, low: nat)
    requires Running(g, t0, t, id, done, low)
    ensures Inv(g, t) && low <= |t0.order| && id in t.index && t.index[id] == |t0.order|
    ensures t0.index.Keys <= t.index.Keys
  {
    hide Inv, EdgesAboveBut, LowReached, Followed;
  }

  lemma ReturnedParts(g: Graph, t0: Snapshot, t: Snapshot, id: Id, low: nat)
    requires Returned(g, t0, t, id, low)
    ensures Inv(g, t)
  {
    hide Inv, EdgesAbove, LowReached;
  }

  lemma GrayReachesSucc(g: Graph, t0: Snapshot, t: Snapshot, id: Id, done: seq<Id>, low: nat, w: Id)
    requires Inv(g, t0) && Running(g, t0, t, id, done, low) && Edge(g, id, w)
    ensures forall x :: x in t.gray ==> Reach(g, x, w)
  {
    hide Reach, Edge, HasGrayBelow, EdgesAboveBut, LowReached;
    ReachEdge(g, id, w);
    forall x | x in t.gray ensures Reach(g, x, w) {
      assert x in t0.gray || x == id;
      assert Reach(g, x, id) by {
        if x == id { ReachSelf(g, id); }
      }
      ReachTrans(g, x, id, w);
    }
  }

  lemma UnstackNone(t: Snapshot, nodes: seq<Node>)
    requires NodesOf(t, nodes)
    ensures Unstacked(t, nodes, nodes, [])
  {
  }

  lemma StackNumber(g: Graph, t: Snapshot, stack: seq<Id>, nodes: seq<Node>, i: nat, base: nat, id: Id)
    requires Inv(g, t) && StackOf(t, stack) && |nodes| == |t.order| && base <= i < |stack| && stack[base] == id
    ensures stack[i] in t.index && t.index[stack[i]] < |nodes|
    ensures id in t.index && (t.index[stack[i]] == t.index[id] <==> i == base)
  {
    hide Inv;
    InvParts(g, t);
  }

  class TarjanData {
    const successors: Graph
    var output: seq<seq<Id>>
    var nodes: seq<Node>
    var stack: seq<Id>
    var index: map<Id, nat>
    ghost var snap: Snapshot

    constructor (successors: Graph)
      ensures this.successors == successors && Valid()
      ensures output == [] && stack == [] && index == map[] && snap.gray == {}
    {
      this.successors := successors;
      output, nodes, stack, index := [], [], [], map[];
      snap := Snapshot(map[], [], {}, {}, map[], 0);
    }

    ghost predicate Valid()
      reads this
    {
      && Inv(successors, snap) && snap.index == index && |nodes| == |snap.order|
      && StackOf(snap, stack) && NodesOf(snap, nodes) && OutputOf(snap, output)
    }

    /** The call on `id` has followed the edges to `done`; its node is number `num`. */
    ghost predicate InCall(t0: Snapshot, id: Id, num: nat, done: seq<Id>)
      reads this
    {
      && Valid() && num == |t0.order| && num < |nodes|
      && Running(successors, t0, snap, id, done, nodes[num].lowlink)
    }

    /** Pops the stack from the top down to `id` and outputs what was popped. */
    method EmitComponent(ghost t0: Snapshot, id: Id, num: nat, ghost base: nat)
      requires InCall(t0, id, num, Succ(successors, id)) && nodes[num].lowlink == num && Inv(successors, t0)
      requires base < |stack| && stack[base] == id
      modifies this`output, this`nodes, this`stack, this`snap
      ensures Valid() && snap == PopComponent(old(snap), id)
      ensures Returned(successors, t0, snap, id, num)
      ensures stack == old(stack)[..base]
      ensures |nodes| == |old(nodes)| && forall k :: 0 <= k < |nodes| ==> nodes[k].lowlink == old(nodes)[k].lowlink
    {
      hide Inv, Reach, Edge, Running, Returned, LowReached, EdgesAbove, NodesOf, StackOf, OutputOf, Extends, Nodes, Unstacked, TopDown, IsRoot;
      ghost var t := snap;
      RunningParts(successors, t0, t, id, Succ(successors, id), num);
      EndWithComponent(successors, t0, t, id);
      ReturnedParts(successors, t0, PopComponent(t, id), id, num);
      ghost var before := nodes;
      var scc: seq<Id> := [];
      var i := |stack| - 1;
      UnstackNone(t, nodes);
      TakeNone(stack);
      while true
        invariant base <= i < |stack| && TopDown(stack, i + 1, scc)
        invariant Unstacked(t, before, nodes, scc) && |nodes| == |before|
        invariant forall k :: 0 <= k < |nodes| ==> nodes[k].lowlink == before[k].lowlink
        modifies this`nodes
        decreases i
      {
        var stackid := stack[i];
        StackNumber(successors, t, stack, nodes, i, base, id);
        var stackindex := index[stackid];
        UnstackOne(successors, t, before, nodes, scc, stackid);
        nodes := nodes[stackindex := nodes[stackindex].(stacked := false)];
        TakeTop(stack, i, scc);
        scc := scc + [stackid];
        if stackindex == num {
          break;
        }
        i := i - 1;
      }
      PopLinks(successors, t, id, stack, base, before, nodes, output, scc);
      stack := stack[..i];
      output := output + [scc];
      snap := PopComponent(t, id);
    }

    method StrongConnect(id: Id) returns (low: nat)
      requires Valid() && id in Nodes(successors) && id !in index && index.Keys <= Nodes(successors)
      requires forall x :: x in snap.gray ==> Reach(successors, x, id)
      modifies this`output, this`nodes, this`stack, this`index, this`snap
      ensures Valid() && Returned(successors, old(snap), snap, id, low) && index.Keys <= Nodes(successors)
      ensures |old(stack)| <= |stack| && stack[..|old(stack)|] == old(stack)
      ensures |old(nodes)| < |nodes| && nodes[|old(nodes)|].lowlink == low
      ensures forall k :: 0 <= k < |old(nodes)| ==> nodes[k].lowlink == old(nodes)[k].lowlink
      decreases Nodes(successors) - index.Keys
    {
      hide Inv, Reach, Edge, Running, Returned, LowReached, EdgesAbove, NodesOf, StackOf, OutputOf, Extends, Nodes;
      ghost var t0 := snap;
      var num := |nodes|;
      PushLinks(successors, snap, id, stack, nodes, output);
      StartRunning(successors, snap, id);
      ghost var base := |stack|;
      index := index[id := num];
      stack := stack + [id];
      nodes := nodes + [Node(num, true)];
      snap := Push(snap, id);

      var succs := Succ(successors, id);
      assert succs[..0] == [];
      RunningParts(successors, t0, snap, id, [], num);
      for i := 0 to |succs|
        invariant InCall(t0, id, num, succs[..i]) && index.Keys <= Nodes(successors)
        invariant base < |stack| && stack[..base] == old(stack) && stack[base] == id
        invariant |old(nodes)| == num && forall k :: 0 <= k < num ==> nodes[k].lowlink == old(nodes)[k].lowlink
        invariant id in index && old(index.Keys) <= index.Keys
      {
        var succid := succs[i];
        ghost var t, low0 := snap, nodes[num].lowlink;
        RunningParts(successors, t0, t, id, succs[..i], low0);
        assert Edge(successors, id, succid) by { SuccEdge(successors, id, i); }
        assert succs[..i + 1] == succs[..i] + [succid];
        if succid !in index {
          EdgeInNodes(successors, id, succid);
          GrayReachesSucc(successors, t0, t, id, succs[..i], low0, succid);
          var succlow := StrongConnect(succid);
          FollowNew(successors, t0, t, snap, id, succs[..i], low0, succid, succlow);
          RunningParts(successors, t0, snap, id, succs[..i + 1], if succlow < low0 then succlow else low0);
          if succlow < nodes[num].lowlink {
            LowlinkLinks(snap, nodes, num, succlow);
            nodes := nodes[num := nodes[num].(lowlink := succlow)];
          }
        } else {
          NodeFlag(snap, nodes, succid);
          FollowSeen(successors, t0, t, id, succs[..i], low0, succid);
          if nodes[index[succid]].stacked {
            if index[succid] < nodes[num].lowlink {
              LowlinkLinks(snap, nodes, num, index[succid]);
              nodes := nodes[num := nodes[num].(lowlink := index[succid])];
            }
          }
        }
      }
      assert succs[..|succs|] == succs;
      RunningParts(successors, t0, snap, id, succs, nodes[num].lowlink);

      if nodes[num].lowlink == num {
        EmitComponent(t0, id, num, base);
      } else {
        EndWithoutComponent(successors, t0, snap, id, nodes[num].lowlink);
        ReturnedParts(successors, t0, snap.(gray := snap.gray - {id}), id, nodes[num].lowlink);
        GrayLinks(snap, snap.gray - {id}, stack, nodes, output);
        snap := snap.(gray := snap.gray - {id});
      }
      low := nodes[num].lowlink;
    }
  }

  // --- What the sort promises ---------------------------------------------------------------

  ghost predicate Ascending(s: seq<Id>) {
    forall i, j :: 0 <= i < j < |s| ==> s[i] < s[j]
  }

  /** Every node of the graph is in exactly one part, and in it once. */
  ghost predicate IsPartition(g: Graph, out: seq<seq<Id>>) {
    && (forall v :: v in Nodes(g) ==> exists k :: 0 <= k < |out| && v in out[k])
    && (forall k, v :: 0 <= k < |out| && v in out[k] ==> v in Nodes(g))
    && (forall k, l, v :: 0 <= k < l < |out| && v in out[k] ==> v !in out[l])
    && (forall k :: 0 <= k < |out| ==> out[k] != [] && NoDup(out[k]))
  }

  /** Each part holds exactly the nodes that any one of its members reaches and is reached by:
      a maximal strongly connected set. */
  ghost predicate AreComponents(g: Graph, out: seq<seq<Id>>) {
    forall k, u, v :: 0 <= k < |out| && u in out[k] ==> (v in out[k] <==> Reach(g, u, v) && Reach(g, v, u))
  }

  /** Every edge leads into the same part or one earlier in the output. */
  ghost predicate LeadsBack(g: Graph, out: seq<seq<Id>>) {
    forall k, v, w :: 0 <= k < |out| && v in out[k] && Edge(g, v, w) ==> exists j :: 0 <= j <= k && w in out[j]
  }

  ghost predicate IsSccOrder(g: Graph, out: seq<seq<Id>>) {
    IsPartition(g, out) && AreComponents(g, out) && LeadsBack(g, out)
  }

  /** A finished search: no call runs and every node was visited. */
  ghost predicate Finished(g: Graph, t: Snapshot) {
    Inv(g, t) && t.gray == {} && t.index.Keys == Nodes(g)
  }

  lemma StackedHasGray(g: Graph, t: Snapshot, y: Id)
    requires AllHaveGrayBelow(g, t)
    ensures y in t.stacked ==> t.gray != {}
  {
    hide Reach;
    assert y in t.stacked ==> HasGrayBelow(g, t, y);
  }

  /** Once no call runs the stack is empty. */
  lemma NothingStacked(g: Graph, t: Snapshot)
    requires Inv(g, t) && t.gray == {}
    ensures t.stacked == {} && t.comp.Keys == t.index.Keys
  {
    forall y ensures y !in t.stacked {
      StackedHasGray(g, t, y);
    }
  }

  /** Nothing reachable was output later than the id it was reached from. */
  lemma CompReach(g: Graph, t: Snapshot, u: Id, v: Id)
    requires OutputClosed(g, t) && u in t.comp && Reach(g, u, v)
    ensures v in t.comp && t.comp[v] <= t.comp[u]
  {
    hide Reach, Edge;
    var s := set x | x in t.comp && t.comp[x] <= t.comp[u];
    ClosedReach(g, s, u, v);
  }

  lemma FinishedComponents(g: Graph, t: Snapshot, out: seq<seq<Id>>)
    requires Inv(g, t) && OutputOf(t, out)
    ensures AreComponents(g, out)
  {
    hide Reach, Edge, HasGrayBelow;
    forall k, u, v | 0 <= k < |out| && u in out[k] ensures v in out[k] <==> Reach(g, u, v) && Reach(g, v, u) {
      if Reach(g, u, v) && Reach(g, v, u) {
        CompReach(g, t, u, v);
        CompReach(g, t, v, u);
      }
    }
  }

  lemma PartsDisjoint(t: Snapshot, out: seq<seq<Id>>)
    requires OutputOf(t, out)
    ensures forall k, l, v :: 0 <= k < l < |out| && v in out[k] ==> v !in out[l]
  {
    hide NoDup;
    forall k, l, v | 0 <= k < l < |out| && v in out[k] ensures v !in out[l] {
      assert t.comp[v] == k;
      assert v in out[l] <==> v in t.comp && t.comp[v] == l;
    }
  }

  lemma FinishedIsSccOrder(g: Graph, t: Snapshot, out: seq<seq<Id>>)
    requires Finished(g, t) && OutputOf(t, out)
    ensures IsSccOrder(g, out)
  {
    hide Reach, Edge, HasGrayBelow, Nodes, NoDup, AreComponents;
    NothingStacked(g, t);
    assert IsPartition(g, out) by {
      forall v | v in Nodes(g) ensures exists k :: 0 <= k < |out| && v in out[k] {
        assert v in t.comp.Keys;
        assert v in out[t.comp[v]];
      }
      forall k, v | 0 <= k < |out| && v in out[k] ensures v in Nodes(g) {
        assert v in t.comp.Keys;
      }
      PartsDisjoint(t, out);
    }
    FinishedComponents(g, t, out);
    forall k, v, w | 0 <= k < |out| && v in out[k] && Edge(g, v, w) ensures exists j :: 0 <= j <= k && w in out[j] {
      assert w in out[t.comp[w]];
    }
  }

  // --- Sorting a component ------------------------------------------------------------------

  function InsertId(s: seq<Id>, v: Id): seq<Id> {
    if s == [] || v < s[0] then [v] + s else [s[0]] + InsertId(s[1..], v)
  }

  /** The ids in ascending order, as `sort.Sort(idList(ids))` leaves them. */
  function SortIds(s: seq<Id>): seq<Id> {
    if s == [] then [] else InsertId(SortIds(s[1..]), s[0])
  }

  lemma {:induction false} InsertAscending(s: seq<Id>, v: Id)
    requires Ascending(s) && v !in s
    ensures Ascending(InsertId(s, v))
    ensures forall x :: x in InsertId(s, v) <==> x in s || x == v
  {
    if s != [] && s[0] <= v {
      InsertAscending(s[1..], v);
      var r := InsertId(s[1..], v);
      forall j | 0 <= j < |r| ensures s[0] < r[j] {
        assert r[j] in r;
      }
    }
  }

  lemma {:induction false} SortAscending(s: seq<Id>)
    requires NoDup(s)
    ensures Ascending(SortIds(s))
    ensures forall x :: x in SortIds(s) <==> x in s
  {
    if s != [] {
      SortAscending(s[1..]);
      InsertAscending(SortIds(s[1..]), s[0]);
    }
  }

  /** Sorting inside the parts changes no part as a set. */
  ghost predicate SameParts(a: seq<seq<Id>>, b: seq<seq<Id>>) {
    && |a| == |b|
    && forall k :: 0 <= k < |a| ==> b[k] != [] && NoDup(b[k]) && forall v :: v in a[k] <==> v in b[k]
  }

  lemma SamePartsOrder(g: Graph, a: seq<seq<Id>>, b: seq<seq<Id>>)
    requires IsSccOrder(g, a) && SameParts(a, b)
    ensures IsSccOrder(g, b)
  {
    hide Reach, Edge, Nodes;
    assert IsPartition(g, b) by {
      forall v | v in Nodes(g) ensures exists k :: 0 <= k < |b| && v in b[k] {
        var k :| 0 <= k < |a| && v in a[k];
        assert v in b[k];
      }
    }
    forall k, v, w | 0 <= k < |b| && v in b[k] && Edge(g, v, w) ensures exists j :: 0 <= j <= k && w in b[j] {
      assert v in a[k];
      var j :| 0 <= j <= k && w in a[j];
      assert w in b[j];
    }
  }

  /** The components of a graph in reverse topological order, each sorted. The order in which
      the ids of the map are taken is left open, as Go leaves it. */
  method TarjanSort(successors: Graph) returns (output: seq<seq<Id>>)
    ensures IsSccOrder(successors, output)
    ensures forall k :: 0 <= k < |output| ==> Ascending(output[k])
  {
    hide Reach, Inv, Edge, IsPartition, AreComponents, LeadsBack, Nodes, Returned, NodesOf, StackOf, OutputOf;
    var data := new TarjanData(successors);
    KeysInNodes(successors);
    var ids := successors.Keys;
    while ids != {}
      invariant data.successors == successors && data.Valid() && data.snap.gray == {}
      invariant data.index.Keys <= Nodes(successors) && ids <= successors.Keys <= data.index.Keys + ids
      invariant fresh(data)
    {
      var id :| id in ids;
      if id !in data.index {
        ghost var t0 := data.snap;
        var low := data.StrongConnect(id);
        ReturnedKeeps(successors, t0, data.snap, id, low);
      }
      ids := ids - {id};
    }
    AllVisited(successors, data.snap);
    FinishedIsSccOrder(successors, data.snap, data.output);
    output := SortParts(successors, data.output);
  }

  lemma KeysInNodes(g: Graph)
    ensures g.Keys <= Nodes(g)
  {
  }

  lemma ReturnedKeeps(g: Graph, t0: Snapshot, t: Snapshot, id: Id, low: nat)
    requires Returned(g, t0, t, id, low)
    ensures t0.index.Keys <= t.index.Keys && id in t.index && t.gray == t0.gray
  {
    hide Inv, EdgesAbove, LowReached;
  }

  lemma AllVisited(g: Graph, t: Snapshot)
    requires Inv(g, t) && t.gray == {} && g.Keys <= t.index.Keys <= Nodes(g)
    ensures Finished(g, t)
  {
    hide Reach, HasGrayBelow;
    forall w | w in Nodes(g) ensures w in t.index {
      if w !in g {
        var v :| v in g && w in g[v];
        assert Edge(g, v, w);
      }
    }
  }

  method SortParts(ghost g: Graph, parts: seq<seq<Id>>) returns (output: seq<seq<Id>>)
    requires IsSccOrder(g, parts)
    ensures IsSccOrder(g, output) && forall k :: 0 <= k < |output| ==> Ascending(output[k])
  {
    hide Reach, Edge, Nodes, AreComponents, LeadsBack, IsSccOrder;
    PartsNonEmpty(g, parts);
    output := parts;
    for i := 0 to |parts|
      invariant SameParts(parts, output) && output[i..] == parts[i..]
      invariant forall k :: 0 <= k < i ==> Ascending(output[k])
    {
      assert output[i] == output[i..][0] == parts[i];
      if |output[i]| > 1 {
        SortAscending(output[i]);
        assert output[i][0] in SortIds(output[i]);
        output := output[i := SortIds(output[i])];
      }
    }
    SamePartsOrder(g, parts, output);
  }

  lemma PartsNonEmpty(g: Graph, parts: seq<seq<Id>>)
    requires IsSccOrder(g, parts)
    ensures SameParts(parts, parts)
  {
  }

  // --- The result does not depend on the order of the map -----------------------------------

  lemma AscendingUnique(a: seq<Id>, b: seq<Id>)
    requires Ascending(a) && Ascending(b) && forall v :: v in a <==> v in b
    ensures a == b
  {
    assert |a| > 0 ==> a[0] in b;
    assert |b| > 0 ==> b[0] in a;
    if a != [] && b != [] {
      forall v ensures v in a[1..] <==> v in b[1..] {
        if v in a[1..] { assert v in a && v != a[0]; }
        if v in b[1..] { assert v in b && v != b[0]; }
      }
      AscendingUnique(a[1..], b[1..]);
      assert a == [a[0]] + a[1..] && b == [b[0]] + b[1..];
    }
  }

  ghost predicate SameGraph(g: Graph, h: Graph) {
    Nodes(g) == Nodes(h) && forall v, w :: Edge(g, v, w) <==> Edge(h, v, w)
  }

  /** Any two orders, of two graphs with the same nodes and edges, hold the same components. */
  lemma ComponentsUnique(g: Graph, h: Graph, a: seq<seq<Id>>, b: seq<seq<Id>>, c: seq<Id>)
    requires SameGraph(g, h) && IsSccOrder(g, a) && IsSccOrder(h, b)
    requires forall k :: 0 <= k < |a| ==> Ascending(a[k])
    requires forall k :: 0 <= k < |b| ==> Ascending(b[k])
    requires c in a
    ensures c in b
  {
    hide Reach, Edge, Nodes, LeadsBack, NoDup;
    var i :| 0 <= i < |a| && a[i] == c;
    var u := c[0];
    assert u in a[i] && u in Nodes(h);
    var j :| 0 <= j < |b| && u in b[j];
    forall v ensures v in c <==> v in b[j] {
      SameReach(g, h, u, v);
      SameReach(g, h, v, u);
    }
    AscendingUnique(c, b[j]);
  }

  lemma SameReach(g: Graph, h: Graph, u: Id, v: Id)
    requires SameGraph(g, h)
    ensures Reach(g, u, v) <==> Reach(h, u, v)
  {
    hide Reach, Nodes;
    if Reach(g, u, v) { SameEdgesSameReach(g, h, u, v); }
    if Reach(h, u, v) { SameEdgesSameReach(h, g, u, v); }
  }

  /** What is reached lies in the same part or one output earlier. */
  lemma PathsLeadBack(g: Graph, out: seq<seq<Id>>, i: nat, j: nat, u: Id, v: Id)
    requires IsSccOrder(g, out) && i < |out| && j < |out| && u in out[i] && v in out[j] && Reach(g, u, v)
    ensures j <= i
  {
    hide Reach, Edge, Nodes, NoDup, AreComponents;
    var s := set k, x | 0 <= k <= i && x in out[k] :: x;
    forall x, y | x in s && Edge(g, x, y) ensures y in s {
      var k :| 0 <= k <= i && x in out[k];
      var l :| 0 <= l <= k && y in out[l];
    }
    ClosedReach(g, s, u, v);
  }
}
