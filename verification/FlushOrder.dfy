/** How a flusher orders the transactions it must apply (txn/flusher.go, `run`): the successor
    graph read off the token queues, and the order of the calls to `advance`. */
module FlushOrder {
  import opened Graphs
  import opened Tarjan

  type DocKey = nat
  type Nonce = string

  datatype Token = Token(id: Id, nonce: Nonce)

  /** The queues the flusher read, one per document. */
  type Queues = map<DocKey, seq<Token>>

  /** The nonce stored with every transaction the flusher has seen. */
  type Seen = map<Id, Nonce>

  predicate IsValid(seen: Seen, t: Token) {
    t.id in seen && seen[t.id] == t.nonce
  }

  // --- What the graph means -----------------------------------------------------------------

  /** The transactions with a valid token in a queue, in queue order. */
  ghost function Chain(seen: Seen, q: seq<Token>): seq<Id> {
    if q == [] then [] else
      var t := q[|q| - 1];
      Chain(seen, q[..|q| - 1]) + if IsValid(seen, t) then [t.id] else []
  }

  ghost function PairAt(s: seq<Id>, k: nat): (Id, Id)
    requires k + 1 < |s|
  {
    (s[k], s[k + 1])
  }

  ghost function Pairs(s: seq<Id>): set<(Id, Id)> {
    set k: nat | 0 <= k < |s| - 1 :: PairAt(s, k)
  }

  ghost function IdSet(s: seq<Id>): set<Id> {
    set v | v in s
  }

  ghost function QueuedIds(queue: Queues, seen: Seen, docs: set<DocKey>): set<Id> {
    set d, v | d in docs && d in queue && v in IdSet(Chain(seen, queue[d])) :: v
  }

  ghost function QueueEdges(queue: Queues, seen: Seen, docs: set<DocKey>): set<(Id, Id)> {
    set d, e | d in docs && d in queue && e in Pairs(Chain(seen, queue[d])) :: e
  }

  /** `g` is a successor graph of the queues, with its lists in any order. */
  ghost predicate IsSuccessorGraph(g: Graph, queue: Queues, seen: Seen) {
    && g.Keys == QueuedIds(queue, seen, queue.Keys)
    && HasEdges(g, QueueEdges(queue, seen, queue.Keys))
  }

  ghost predicate HasEdges(g: Graph, edges: set<(Id, Id)>) {
    && (forall v: Id, w: Id :: Edge(g, v, w) <==> (v, w) in edges)
    && (forall v :: v in g ==> NoDup(g[v]))
  }

  lemma ChainStep(seen: Seen, q: seq<Token>, i: nat)
    requires i < |q|
    ensures Chain(seen, q[..i + 1]) == if IsValid(seen, q[i]) then Chain(seen, q[..i]) + [q[i].id] else Chain(seen, q[..i])
  {
    assert q[..i + 1][..i] == q[..i];
  }

  /** Tokens that are not valid add nothing to the chain. */
  lemma {:induction false} ChainSkip(seen: Seen, q: seq<Token>, i: nat, j: nat)
    requires i <= j <= |q| && forall k :: i <= k < j ==> !IsValid(seen, q[k])
    ensures Chain(seen, q[..j]) == Chain(seen, q[..i])
  {
    if i < j {
      ChainSkip(seen, q, i, j - 1);
      ChainStep(seen, q, j - 1);
    }
  }

  lemma PairsAppend(s: seq<Id>, v: Id)
    ensures Pairs(s + [v]) == Pairs(s) + if s == [] then {} else {(s[|s| - 1], v)}
  {
    var r := s + [v];
    forall k: nat | k < |s| - 1 ensures PairAt(r, k) == PairAt(s, k) && PairAt(s, k) in Pairs(r) {}
    if s != [] {
      assert PairAt(r, |s| - 1) == (s[|s| - 1], v);
    }
  }

  // --- Building the graph -------------------------------------------------------------------

  function AddKey(g: Graph, v: Id): Graph {
    if v in g then g else g[v := []]
  }

  lemma AddKeyEdges(g: Graph, v: Id, edges: set<(Id, Id)>)
    requires HasEdges(g, edges)
    ensures HasEdges(AddKey(g, v), edges)
  {
    forall a: Id, b: Id ensures Edge(AddKey(g, v), a, b) <==> Edge(g, a, b) {}
  }

  lemma AddEdge(g: Graph, v: Id, w: Id, edges: set<(Id, Id)>)
    requires HasEdges(g, edges) && v in g && w !in g[v]
    ensures HasEdges(g[v := g[v] + [w]], edges + {(v, w)})
  {
    var h := g[v := g[v] + [w]];
    forall a: Id, b: Id ensures Edge(h, a, b) <==> (a, b) in edges + {(v, w)} {
      assert Edge(g, a, b) <==> (a, b) in edges;
    }
  }

  lemma OldEdge(g: Graph, v: Id, w: Id, edges: set<(Id, Id)>)
    requires HasEdges(g, edges) && v in g
    ensures w in g[v] <==> (v, w) in edges
  {
    assert Edge(g, v, w) <==> (v, w) in edges;
  }

  /** How far the pairs have been taken when the outer loop stands at `i`. */
  ghost function Upto(q: seq<Token>, i: nat): nat
    requires i <= |q|
  {
    if i < |q| then i + 1 else i
  }

  ghost function PairsUpto(seen: Seen, q: seq<Token>, i: nat): set<(Id, Id)>
    requires i <= |q|
  {
    Pairs(Chain(seen, q[..Upto(q, i)]))
  }

  /** The outer loop stands on a token that is not valid only before the first or after the
      last valid one. */
  ghost predicate OnPath(seen: Seen, q: seq<Token>, i: nat) {
    && i <= |q|
    && (i < |q| && !IsValid(seen, q[i]) ==>
         Chain(seen, q[..i]) == [] || forall k :: i <= k < |q| ==> !IsValid(seen, q[k]))
  }

  lemma StartOnPath(seen: Seen, q: seq<Token>)
    ensures OnPath(seen, q, 0) && PairsUpto(seen, q, 0) == {} && Chain(seen, q[..0]) == []
    ensures PairsUpto(seen, q, |q|) == Pairs(Chain(seen, q))
  {
    assert q[..0] == [] && q[..|q|] == q;
    if q != [] { ChainStep(seen, q, 0); }
  }

  lemma StepOnInvalid(seen: Seen, q: seq<Token>, i: nat)
    requires i < |q| && OnPath(seen, q, i) && !IsValid(seen, q[i])
    ensures OnPath(seen, q, i + 1) && PairsUpto(seen, q, i + 1) == PairsUpto(seen, q, i)
    ensures Chain(seen, q[..i + 1]) == Chain(seen, q[..i])
  {
    ChainStep(seen, q, i);
    if i + 1 < |q| {
      ChainStep(seen, q, i + 1);
      PairsAppend(Chain(seen, q[..i + 1]), q[i + 1].id);
    }
  }

  lemma StepAfterLast(seen: Seen, q: seq<Token>, i: nat)
    requires i < |q| && forall k :: i < k < |q| ==> !IsValid(seen, q[k])
    ensures OnPath(seen, q, i + 1) && PairsUpto(seen, q, i + 1) == PairsUpto(seen, q, i)
  {
    if i + 1 < |q| { ChainStep(seen, q, i + 1); }
  }

  lemma StepToSucc(seen: Seen, q: seq<Token>, i: nat, j: nat)
    requires i < j < |q| && IsValid(seen, q[i]) && IsValid(seen, q[j])
    requires forall k :: i < k < j ==> !IsValid(seen, q[k])
    ensures OnPath(seen, q, j) && PairsUpto(seen, q, j) == PairsUpto(seen, q, i) + {(q[i].id, q[j].id)}
    ensures Chain(seen, q[..j]) == Chain(seen, q[..i + 1]) == Chain(seen, q[..i]) + [q[i].id]
    ensures Chain(seen, q[..j + 1]) == Chain(seen, q[..j]) + [q[j].id]
  {
    ChainStep(seen, q, i);
    ChainSkip(seen, q, i + 1, j);
    ChainStep(seen, q, j);
    PairsAppend(Chain(seen, q[..i + 1]), q[j].id);
  }

  /** The keys written so far: every id of the chain, except perhaps the one the outer loop
      stands on. */
  ghost predicate KeysUpto(keys: set<Id>, before: set<Id>, seen: Seen, q: seq<Token>, i: nat)
    requires i <= |q|
  {
    before + IdSet(Chain(seen, q[..i])) <= keys <= before + IdSet(Chain(seen, q[..Upto(q, i)]))
  }

  lemma IdSetAppend(s: seq<Id>, v: Id)
    ensures IdSet(s + [v]) == IdSet(s) + {v}
  {
  }

  lemma KeysEnds(seen: Seen, q: seq<Token>, before: set<Id>)
    ensures KeysUpto(before, before, seen, q, 0)
    ensures forall keys :: KeysUpto(keys, before, seen, q, |q|) ==> keys == before + IdSet(Chain(seen, q))
  {
    assert q[..0] == [] && q[..|q|] == q;
  }

  lemma KeysSkip(keys: set<Id>, before: set<Id>, seen: Seen, q: seq<Token>, i: nat)
    requires i < |q| && !IsValid(seen, q[i]) && KeysUpto(keys, before, seen, q, i)
    ensures KeysUpto(keys, before, seen, q, i + 1)
  {
    ChainStep(seen, q, i);
    if i + 1 < |q| {
      ChainStep(seen, q, i + 1);
      IdSetAppend(Chain(seen, q[..i + 1]), q[i + 1].id);
    }
  }

  lemma KeysLast(keys: set<Id>, before: set<Id>, seen: Seen, q: seq<Token>, i: nat)
    requires i < |q| && IsValid(seen, q[i]) && KeysUpto(keys, before, seen, q, i)
    ensures KeysUpto(keys + {q[i].id}, before, seen, q, i + 1)
  {
    ChainStep(seen, q, i);
    IdSetAppend(Chain(seen, q[..i]), q[i].id);
    if i + 1 < |q| {
      ChainStep(seen, q, i + 1);
      IdSetAppend(Chain(seen, q[..i + 1]), q[i + 1].id);
    }
  }

  lemma KeysSucc(keys: set<Id>, before: set<Id>, seen: Seen, q: seq<Token>, i: nat, j: nat)
    requires i < j < |q| && IsValid(seen, q[i]) && IsValid(seen, q[j]) && KeysUpto(keys, before, seen, q, i)
    requires forall k :: i < k < j ==> !IsValid(seen, q[k])
    ensures KeysUpto(keys + {q[i].id} + {q[j].id}, before, seen, q, j)
  {
    StepToSucc(seen, q, i, j);
    IdSetAppend(Chain(seen, q[..i]), q[i].id);
    IdSetAppend(Chain(seen, q[..j]), q[j].id);
  }

  ghost predicate ReadyFor(ready: bool, edges: set<(Id, Id)>, goal: Id) {
    ready <==> forall v: Id :: (v, goal) !in edges
  }

  lemma StillReady(ready: bool, edges: set<(Id, Id)>, goal: Id, e: (Id, Id))
    requires ReadyFor(ready, edges, goal)
    ensures e in edges || e.1 != goal ==> ReadyFor(ready, edges + {e}, goal)
    ensures e.1 == goal ==> ReadyFor(false, edges + {e}, goal)
  {
    if e.1 == goal {
      var v: Id := e.0;
      assert (v, goal) in edges + {e};
    }
  }

  /** Adds the valid pairs of one document's queue. */
  method AddQueue(successors0: Graph, ready0: bool, dqueue: seq<Token>, seen: Seen, goal: Id, ghost edges: set<(Id, Id)>)
      returns (successors: Graph, ready: bool)
    requires HasEdges(successors0, edges) && ReadyFor(ready0, edges, goal)
    ensures successors.Keys == successors0.Keys + IdSet(Chain(seen, dqueue))
    ensures HasEdges(successors, edges + Pairs(Chain(seen, dqueue)))
    ensures ReadyFor(ready, edges + Pairs(Chain(seen, dqueue)), goal)
  {
    hide HasEdges, Pairs, Chain, Edge, IsValid, OnPath, ReadyFor, PairsUpto, KeysUpto;
    successors, ready := successors0, ready0;
    var i := 0;
    StartOnPath(seen, dqueue);
    KeysEnds(seen, dqueue, successors0.Keys);
    ghost var now := edges;
    assert dqueue[..0] == [];
    while i < |dqueue|
      invariant 0 <= i <= |dqueue| && OnPath(seen, dqueue, i)
      invariant now == edges + PairsUpto(seen, dqueue, i)
      invariant HasEdges(successors, now) && ReadyFor(ready, now, goal)
      invariant KeysUpto(successors.Keys, successors0.Keys, seen, dqueue, i)
    {
      var pred := dqueue[i];
      var predid := pred.id;
      ghost var keys := successors.Keys;
      if !IsValid(seen, pred) {
        StepOnInvalid(seen, dqueue, i);
        KeysSkip(keys, successors0.Keys, seen, dqueue, i);
        i := i + 1;
        continue;
      }
      AddKeyEdges(successors, predid, now);
      successors := AddKey(successors, predid);
      var predsuccids := successors[predid];

      var j := i + 1;
      while j < |dqueue| && !IsValid(seen, dqueue[j])
        invariant i < j <= |dqueue| && forall k :: i < k < j ==> !IsValid(seen, dqueue[k])
      {
        j := j + 1;
      }
      if j == |dqueue| {
        StepAfterLast(seen, dqueue, i);
        KeysLast(keys, successors0.Keys, seen, dqueue, i);
        assert successors.Keys == keys + {predid};
        i := i + 1;
        continue;
      }

      // Found a valid pred/succ pair.
      var succid := dqueue[j].id;
      StepToSucc(seen, dqueue, i, j);
      KeysSucc(keys, successors0.Keys, seen, dqueue, i, j);
      AddKeyEdges(successors, succid, now);
      successors := AddKey(successors, succid);
      OldEdge(successors, predid, succid, now);
      StillReady(ready, now, goal, (predid, succid));
      if succid !in predsuccids {
        AddEdge(successors, predid, succid, now);
        successors := successors[predid := predsuccids + [succid]];
        if succid == goal {
          ready := false;
        }
      } else {
        assert now + {(predid, succid)} == now;
      }
      assert successors.Keys == keys + {predid} + {succid};
      now := now + {(predid, succid)};
      i := j;
    }
    assert dqueue[..i] == dqueue;
  }

  /** Reads the successor graph off the queues, taking the documents in any order. `ready` says
      that the goal is nobody's successor. */
  method BuildSuccessors(queue: Queues, seen: Seen, goal: Id) returns (successors: Graph, ready: bool)
    ensures IsSuccessorGraph(successors, queue, seen)
    ensures ReadyFor(ready, QueueEdges(queue, seen, queue.Keys), goal)
  {
    hide Pairs, Chain, HasEdges, Edge, IdSet, ReadyFor, QueuedIds, QueueEdges;
    successors, ready := map[], true;
    NothingQueued(queue, seen, goal);
    var rest := queue.Keys;
    while rest != {}
      invariant rest <= queue.Keys
      invariant successors.Keys == QueuedIds(queue, seen, queue.Keys - rest)
      invariant HasEdges(successors, QueueEdges(queue, seen, queue.Keys - rest))
      invariant ReadyFor(ready, QueueEdges(queue, seen, queue.Keys - rest), goal)
    {
      var d :| d in rest;
      OneMoreQueue(queue, seen, queue.Keys - rest, d);
      successors, ready := AddQueue(successors, ready, queue[d], seen, goal,
                                    QueueEdges(queue, seen, queue.Keys - rest));
      assert queue.Keys - (rest - {d}) == queue.Keys - rest + {d};
      rest := rest - {d};
    }
    assert queue.Keys - rest == queue.Keys;
  }

  lemma NothingQueued(queue: Queues, seen: Seen, goal: Id)
    ensures QueuedIds(queue, seen, queue.Keys - queue.Keys) == {}
    ensures HasEdges(map[], QueueEdges(queue, seen, queue.Keys - queue.Keys))
    ensures ReadyFor(true, QueueEdges(queue, seen, queue.Keys - queue.Keys), goal)
  {
    assert queue.Keys - queue.Keys == {};
  }

  lemma OneMoreQueue(queue: Queues, seen: Seen, docs: set<DocKey>, d: DocKey)
    requires d in queue
    ensures QueuedIds(queue, seen, docs + {d}) == QueuedIds(queue, seen, docs) + IdSet(Chain(seen, queue[d]))
    ensures QueueEdges(queue, seen, docs + {d}) == QueueEdges(queue, seen, docs) + Pairs(Chain(seen, queue[d]))
  {
    hide Pairs, Chain, IdSet;
  }

  // --- The order of the calls ---------------------------------------------------------------

  /** The ids in the order `advance` is called on them: the last component first, and the ids of
      a component in their sorted order. */
  ghost function FlushSeq(sorted: seq<seq<Id>>): seq<Id> {
    if sorted == [] then [] else FlushSeq(sorted[1..]) + sorted[0]
  }

  ghost predicate Before(s: seq<Id>, u: Id, v: Id) {
    exists i, j :: 0 <= i < j < |s| && s[i] == u && s[j] == v
  }

  ghost predicate Disjoint(sorted: seq<seq<Id>>) {
    forall k, l, v :: 0 <= k < l < |sorted| && v in sorted[k] ==> v !in sorted[l]
  }

  lemma BeforeAppend(s: seq<Id>, t: seq<Id>, u: Id, v: Id)
    ensures u !in t && v !in t ==> (Before(s + t, u, v) <==> Before(s, u, v))
    ensures u !in s && v !in s ==> (Before(s + t, u, v) <==> Before(t, u, v))
    ensures u in s && v in t ==> Before(s + t, u, v)
    ensures u !in s && v !in t ==> !Before(s + t, u, v)
  {
    var r := s + t;
    assert forall i :: 0 <= i < |s| ==> r[i] == s[i];
    assert forall i :: 0 <= i < |t| ==> r[|s| + i] == t[i];
    if u in s && v in t {
      var i :| 0 <= i < |s| && s[i] == u;
      var j :| 0 <= j < |t| && t[j] == v;
      assert r[i] == u && r[|s| + j] == v;
    }
    if Before(s, u, v) {
      var i, j :| 0 <= i < j < |s| && s[i] == u && s[j] == v;
      assert r[i] == u && r[j] == v;
    }
    if Before(t, u, v) {
      var i, j :| 0 <= i < j < |t| && t[i] == u && t[j] == v;
      assert r[|s| + i] == u && r[|s| + j] == v;
    }
    if u !in s && v !in s && Before(r, u, v) {
      var i, j :| 0 <= i < j < |r| && r[i] == u && r[j] == v;
      assert t[i - |s|] == u && t[j - |s|] == v;
    }
  }

  lemma {:induction false} InFlushSeq(sorted: seq<seq<Id>>, v: Id)
    ensures v in FlushSeq(sorted) <==> exists k :: 0 <= k < |sorted| && v in sorted[k]
  {
    if sorted != [] {
      InFlushSeq(sorted[1..], v);
      if exists k :: 0 <= k < |sorted| && v in sorted[k] {
        var k :| 0 <= k < |sorted| && v in sorted[k];
        if k > 0 { assert v in sorted[1..][k - 1]; }
      }
      if exists k :: 0 <= k < |sorted[1..]| && v in sorted[1..][k] {
        var k :| 0 <= k < |sorted[1..]| && v in sorted[1..][k];
        assert v in sorted[k + 1];
      }
    }
  }

  /** Who is flushed first: the id of the later component, or the smaller id of one component. */
  lemma {:induction false} FlushedBefore(sorted: seq<seq<Id>>, i: nat, j: nat, u: Id, v: Id)
    requires Disjoint(sorted) && forall k :: 0 <= k < |sorted| ==> Ascending(sorted[k])
    requires i < |sorted| && j < |sorted| && u in sorted[i] && v in sorted[j]
    ensures Before(FlushSeq(sorted), u, v) <==> i > j || (i == j && u < v)
  {
    hide Before;
    var rest := sorted[1..];
    BeforeAppend(FlushSeq(rest), sorted[0], u, v);
    forall k, l, x | 0 <= k < l < |rest| && x in rest[k] ensures x !in rest[l] {
      assert x in sorted[k + 1];
    }
    if i == 0 { NotLater(sorted, u); } else { InFlushSeq(rest, u); assert u in rest[i - 1]; NotFirst(sorted, i, u); }
    if j == 0 { NotLater(sorted, v); } else { InFlushSeq(rest, v); assert v in rest[j - 1]; NotFirst(sorted, j, v); }
    if i > 0 && j > 0 {
      FlushedBefore(rest, i - 1, j - 1, u, v);
    } else if i == 0 && j == 0 {
      BeforeAscending(sorted[0], u, v);
    }
  }

  lemma NotFirst(sorted: seq<seq<Id>>, i: nat, u: Id)
    requires Disjoint(sorted) && 0 < i < |sorted| && u in sorted[i]
    ensures u !in sorted[0]
  {
  }

  lemma NotLater(sorted: seq<seq<Id>>, u: Id)
    requires Disjoint(sorted) && sorted != [] && u in sorted[0]
    ensures u !in FlushSeq(sorted[1..])
  {
    InFlushSeq(sorted[1..], u);
    forall k | 0 <= k < |sorted[1..]| ensures u !in sorted[1..][k] {
      assert sorted[1..][k] == sorted[k + 1];
    }
  }

  lemma BeforeAscending(s: seq<Id>, u: Id, v: Id)
    requires Ascending(s) && u in s && v in s
    ensures Before(s, u, v) <==> u < v
  {
    var i :| 0 <= i < |s| && s[i] == u;
    var j :| 0 <= j < |s| && s[j] == v;
  }

  // --- Agreement ----------------------------------------------------------------------------

  /** A token of `u` stands before a token of `v` in the queue, both with the nonces that are stored
      with the transactions. */
  ghost predicate Precedes(seen: Seen, q: seq<Token>, u: Id, v: Id) {
    u in seen && v in seen && exists a, b :: 0 <= a < b < |q| && q[a] == Token(u, seen[u]) && q[b] == Token(v, seen[v])
  }

  /** The transaction has a token with its stored nonce in some queue. */
  ghost predicate Queued(queue: Queues, seen: Seen, v: Id) {
    v in seen && exists d :: d in queue && Token(v, seen[v]) in queue[d]
  }

  lemma {:induction false} InChain(seen: Seen, q: seq<Token>, a: nat)
    requires a < |q| && IsValid(seen, q[a])
    ensures |Chain(seen, q[..a])| < |Chain(seen, q)| && Chain(seen, q)[|Chain(seen, q[..a])|] == q[a].id
  {
    var r := q[..|q| - 1];
    if a < |q| - 1 {
      assert r[..a] == q[..a];
      InChain(seen, r, a);
    }
  }

  lemma {:induction false} ChainGrows(seen: Seen, q: seq<Token>, a: nat, b: nat)
    requires a <= b <= |q|
    ensures |Chain(seen, q[..a])| <= |Chain(seen, q[..b])|
  {
    if a < b {
      ChainGrows(seen, q, a, b - 1);
      ChainStep(seen, q, b - 1);
    }
  }

  lemma {:induction false} ChainReach(g: Graph, s: seq<Id>, i: nat, j: nat)
    requires i <= j < |s| && forall k :: 0 <= k < |s| - 1 ==> Edge(g, s[k], s[k + 1])
    ensures Reach(g, s[i], s[j])
  {
    hide Reach, Edge;
    if i == j {
      ReachSelf(g, s[i]);
    } else {
      ChainReach(g, s, i, j - 1);
      assert Edge(g, s[j - 1], s[j - 1 + 1]);
      ReachEdge(g, s[j - 1], s[j]);
      ReachTrans(g, s[i], s[j - 1], s[j]);
    }
  }

  /** The path the loop over adjacent valid pairs makes between any two valid tokens. */
  lemma PrecedesReach(g: Graph, queue: Queues, seen: Seen, d: DocKey, u: Id, v: Id)
    requires IsSuccessorGraph(g, queue, seen) && d in queue && Precedes(seen, queue[d], u, v)
    ensures Reach(g, u, v) && u in QueuedIds(queue, seen, queue.Keys) && v in QueuedIds(queue, seen, queue.Keys)
  {
    hide Reach, Edge;
    var q := queue[d];
    var s := Chain(seen, q);
    var a, b :| 0 <= a < b < |q| && q[a] == Token(u, seen[u]) && q[b] == Token(v, seen[v]);
    InChain(seen, q, a);
    InChain(seen, q, b);
    ChainGrows(seen, q, a, b);
    forall k: nat | k < |s| - 1 ensures Edge(g, s[k], s[k + 1]) {
      assert PairAt(s, k) in Pairs(s);
      var v, w := s[k], s[k + 1];
      assert (v, w) in QueueEdges(queue, seen, queue.Keys);
    }
    ChainReach(g, s, |Chain(seen, q[..a])|, |Chain(seen, q[..b])|);
    assert u in IdSet(s) && v in IdSet(s);
  }

  lemma {:induction false} FromChain(seen: Seen, q: seq<Token>, k: nat) returns (a: nat)
    requires k < |Chain(seen, q)|
    ensures a < |q| && |Chain(seen, q[..a])| == k
    ensures Chain(seen, q)[k] in seen && q[a] == Token(Chain(seen, q)[k], seen[Chain(seen, q)[k]])
  {
    var r := q[..|q| - 1];
    if k < |Chain(seen, r)| {
      a := FromChain(seen, r, k);
      assert r[..a] == q[..a];
    } else {
      a := |q| - 1;
    }
  }

  /** There is an edge only between transactions that follow each other in some queue. */
  lemma EdgePrecedes(g: Graph, queue: Queues, seen: Seen, u: Id, v: Id) returns (d: DocKey)
    requires IsSuccessorGraph(g, queue, seen) && Edge(g, u, v)
    ensures d in queue && Precedes(seen, queue[d], u, v)
  {
    hide Edge, Chain;
    assert (u, v) in QueueEdges(queue, seen, queue.Keys);
    d :| d in queue && (u, v) in Pairs(Chain(seen, queue[d]));
    var q := queue[d];
    var s := Chain(seen, q);
    var k: nat :| k < |s| - 1 && PairAt(s, k) == (u, v);
    var a := FromChain(seen, q, k);
    var b := FromChain(seen, q, k + 1);
    if b <= a { ChainGrows(seen, q, b, a); }
  }

  ghost predicate Comes(queue: Queues, seen: Seen, u: Id, v: Id) {
    exists d :: d in queue && Precedes(seen, queue[d], u, v)
  }

  /** From `u` to `v` by transactions each of which stands before the next in some queue. */
  ghost predicate Leads(queue: Queues, seen: Seen, u: Id, v: Id) {
    exists p: seq<Id> :: Steps(queue, seen, p, u, v)
  }

  ghost predicate Steps(queue: Queues, seen: Seen, p: seq<Id>, u: Id, v: Id) {
    && |p| > 0 && p[0] == u && p[|p| - 1] == v
    && forall i :: 0 <= i < |p| - 1 ==> Comes(queue, seen, p[i], p[i + 1])
  }

  /** The graph reaches exactly as far as the queues lead. */
  lemma ReachIsLeads(g: Graph, queue: Queues, seen: Seen, u: Id, v: Id)
    requires IsSuccessorGraph(g, queue, seen)
    ensures Reach(g, u, v) <==> Leads(queue, seen, u, v)
  {
    hide Edge, Precedes, Chain;
    if Reach(g, u, v) {
      var p :| IsPath(g, p, u, v);
      forall i | 0 <= i < |p| - 1 ensures Comes(queue, seen, p[i], p[i + 1]) {
        var d := EdgePrecedes(g, queue, seen, p[i], p[i + 1]);
      }
      assert Steps(queue, seen, p, u, v);
    }
    if Leads(queue, seen, u, v) {
      var p :| Steps(queue, seen, p, u, v);
      LeadsReach(g, queue, seen, p, |p| - 1);
    }
  }

  lemma {:induction false} LeadsReach(g: Graph, queue: Queues, seen: Seen, p: seq<Id>, i: nat)
    requires IsSuccessorGraph(g, queue, seen) && i < |p|
    requires forall i :: 0 <= i < |p| - 1 ==> Comes(queue, seen, p[i], p[i + 1])
    ensures Reach(g, p[0], p[i])
  {
    hide Edge, Precedes, Chain, Reach;
    if i == 0 {
      ReachSelf(g, p[0]);
    } else {
      LeadsReach(g, queue, seen, p, i - 1);
      assert Comes(queue, seen, p[i - 1], p[i - 1 + 1]);
      var d :| d in queue && Precedes(seen, queue[d], p[i - 1], p[i]);
      PrecedesReach(g, queue, seen, d, p[i - 1], p[i]);
      ReachTrans(g, p[0], p[i - 1], p[i]);
    }
  }

  /** The goal has a prerequisite: a token that stands before one of its own. */
  ghost predicate HasPrerequisite(queue: Queues, seen: Seen, goal: Id) {
    exists u :: Comes(queue, seen, u, goal)
  }

  lemma ReadyMeans(g: Graph, queue: Queues, seen: Seen, goal: Id)
    requires IsSuccessorGraph(g, queue, seen)
    ensures ReadyFor(true, QueueEdges(queue, seen, queue.Keys), goal) <==> !HasPrerequisite(queue, seen, goal)
  {
    hide Chain, Edge, Precedes;
    var edges := QueueEdges(queue, seen, queue.Keys);
    if !ReadyFor(true, edges, goal) {
      var u: Id :| (u, goal) in edges;
      assert Edge(g, u, goal);
      var d := EdgePrecedes(g, queue, seen, u, goal);
      assert Comes(queue, seen, u, goal);
    }
    if HasPrerequisite(queue, seen, goal) {
      var u :| Comes(queue, seen, u, goal);
      var d :| d in queue && Precedes(seen, queue[d], u, goal);
      LastEdge(queue, seen, d, u, goal);
    }
  }

  lemma LastEdge(queue: Queues, seen: Seen, d: DocKey, u: Id, v: Id)
    requires d in queue && Precedes(seen, queue[d], u, v)
    ensures !ReadyFor(true, QueueEdges(queue, seen, queue.Keys), v)
  {
    hide Pairs, Chain;
    var q := queue[d];
    var s := Chain(seen, q);
    var a, b :| 0 <= a < b < |q| && q[a] == Token(u, seen[u]) && q[b] == Token(v, seen[v]);
    InChain(seen, q, a);
    InChain(seen, q, b);
    ChainGrows(seen, q, a + 1, b);
    ChainStep(seen, q, a);
    var k := |Chain(seen, q[..b])|;
    LastPair(s, k);
    assert (s[k - 1], v) in QueueEdges(queue, seen, queue.Keys);
  }

  lemma LastPair(s: seq<Id>, k: nat)
    requires 0 < k < |s|
    ensures (s[k - 1], s[k]) in Pairs(s)
  {
    assert PairAt(s, k - 1) == (s[k - 1], s[k]);
  }

  lemma {:induction false} InSomeChain(seen: Seen, q: seq<Token>, v: Id)
    ensures v in Chain(seen, q) <==> v in seen && Token(v, seen[v]) in q
  {
    if v in Chain(seen, q) {
      var k :| 0 <= k < |Chain(seen, q)| && Chain(seen, q)[k] == v;
      var a := FromChain(seen, q, k);
    } else if v in seen && Token(v, seen[v]) in q {
      var a :| 0 <= a < |q| && q[a] == Token(v, seen[v]);
      InChain(seen, q, a);
    }
  }

  lemma QueuedAre(queue: Queues, seen: Seen, v: Id)
    ensures v in QueuedIds(queue, seen, queue.Keys) <==> Queued(queue, seen, v)
  {
    hide Chain;
    forall d | d in queue ensures v in IdSet(Chain(seen, queue[d])) <==> v in seen && Token(v, seen[v]) in queue[d] {
      InSomeChain(seen, queue[d], v);
    }
  }

  lemma NodesAreQueued(g: Graph, queue: Queues, seen: Seen)
    requires IsSuccessorGraph(g, queue, seen)
    ensures Nodes(g) == QueuedIds(queue, seen, queue.Keys)
  {
    hide Chain;
    forall v, w | v in g && w in g[v] ensures w in g.Keys {
      assert Edge(g, v, w);
      var d :| d in queue && (v, w) in Pairs(Chain(seen, queue[d]));
      assert w in IdSet(Chain(seen, queue[d]));
    }
  }

  lemma SuccessorGraphsAgree(g: Graph, h: Graph, queue: Queues, seen: Seen)
    requires IsSuccessorGraph(g, queue, seen) && IsSuccessorGraph(h, queue, seen)
    ensures SameGraph(g, h)
  {
    hide Edge, QueueEdges, QueuedIds, Nodes;
    NodesAreQueued(g, queue, seen);
    NodesAreQueued(h, queue, seen);
  }

  ghost predicate IsSorted(g: Graph, sorted: seq<seq<Id>>) {
    IsSccOrder(g, sorted) && forall k :: 0 <= k < |sorted| ==> Ascending(sorted[k])
  }

  /** Of two transactions with valid tokens in a common queue, the one first in the queue is
      flushed first, unless the two are in a cycle; then the one with the smaller id is. */
  lemma FlushedInQueueOrder(queue: Queues, seen: Seen, g: Graph, sorted: seq<seq<Id>>, d: DocKey, u: Id, v: Id)
    requires IsSuccessorGraph(g, queue, seen) && IsSorted(g, sorted)
    requires d in queue && Precedes(seen, queue[d], u, v)
    ensures Before(FlushSeq(sorted), u, v) <==> (Leads(queue, seen, v, u) ==> u < v)
  {
    ReachIsLeads(g, queue, seen, v, u);
    hide Leads, Reach, Edge, Nodes, Before, Precedes, IsSuccessorGraph, LeadsBack, NoDup, Ascending;
    PrecedesReach(g, queue, seen, d, u, v);
    NodesAreQueued(g, queue, seen);
    var i :| 0 <= i < |sorted| && u in sorted[i];
    var j :| 0 <= j < |sorted| && v in sorted[j];
    PathsLeadBack(g, sorted, i, j, u, v);
    FlushedBefore(sorted, i, j, u, v);
    assert Reach(g, v, u) <==> v in sorted[i];
    assert v in sorted[i] <==> i == j;
  }

  /** Two flushers that saw the same transactions and queues flush conflicting transactions in
      the same order, in whatever order each took its documents and its graph's ids. */
  lemma FlushersAgree(queue: Queues, seen: Seen, g: Graph, h: Graph, a: seq<seq<Id>>, b: seq<seq<Id>>,
                      d: DocKey, u: Id, v: Id)
    requires IsSuccessorGraph(g, queue, seen) && IsSuccessorGraph(h, queue, seen)
    requires IsSorted(g, a) && IsSorted(h, b)
    requires d in queue && Precedes(seen, queue[d], u, v)
    ensures Before(FlushSeq(a), u, v) <==> Before(FlushSeq(b), u, v)
    ensures u != v ==> Before(FlushSeq(a), u, v) != Before(FlushSeq(a), v, u)
  {
    hide Reach, Edge, Nodes, Before, Precedes, IsSuccessorGraph, LeadsBack, NoDup, Ascending, SameGraph;
    FlushedInQueueOrder(queue, seen, g, a, d, u, v);
    FlushedInQueueOrder(queue, seen, h, b, d, u, v);
    SuccessorGraphsAgree(g, h, queue, seen);
    SameReach(g, h, v, u);
    PrecedesReach(g, queue, seen, d, u, v);
    NodesAreQueued(g, queue, seen);
    var i :| 0 <= i < |a| && u in a[i];
    var j :| 0 <= j < |a| && v in a[j];
    FlushedBefore(a, i, j, u, v);
    FlushedBefore(a, j, i, v, u);
  }

  // --- Flushing -----------------------------------------------------------------------------

  /** A call of `advance`, with the transactions whose leftover tokens it may pull. */
  datatype Call = Call(id: Id, pull: set<Id>)

  ghost function CallIds(calls: seq<Call>): seq<Id> {
    seq(|calls|, i requires 0 <= i < |calls| => calls[i].id)
  }

  /** The tokens a call may pull belong to itself, when it is alone in its component, and to the
      components flushed before it, all of them and nothing else. */
  ghost predicate PullsFinished(sorted: seq<seq<Id>>, c: Call) {
    exists k ::
      && 0 <= k < |sorted| && c.id in sorted[k]
      && forall x :: x in c.pull <==> (sorted[k] == [x] || exists l :: k < l < |sorted| && x in sorted[l])
  }

  lemma CallIdsAppend(calls: seq<Call>, c: Call)
    ensures CallIds(calls + [c]) == CallIds(calls) + [c.id]
  {
  }

  ghost predicate InFrom(sorted: seq<seq<Id>>, k: nat, x: Id) {
    exists l :: k <= l < |sorted| && x in sorted[l]
  }

  /** Calls `advance` on every transaction of the sorted components, last component first, until a
      call fails. */
  method FlushAll(sorted: seq<seq<Id>>) returns (calls: seq<Call>, failed: bool)
    ensures CallIds(calls) <= FlushSeq(sorted) && (!failed ==> CallIds(calls) == FlushSeq(sorted))
    ensures failed ==> calls != []
    ensures forall n :: 0 <= n < |calls| ==> PullsFinished(sorted, calls[n])
  {
    hide CallIds, PullsFinished, InFrom;
    calls, failed := [], false;
    assert CallIds(calls) == [] by { NoCalls(); }
    var pull: set<Id> := {};
    var i := |sorted| - 1;
    NoneLater(sorted);
    while i >= 0
      invariant -1 <= i < |sorted|
      invariant !failed && CallIds(calls) == FlushSeq(sorted[i + 1..])
      invariant forall n :: 0 <= n < |calls| ==> PullsFinished(sorted, calls[n])
      invariant forall x :: x in pull <==> InFrom(sorted, i + 1, x)
    {
      var scc := sorted[i];
      ghost var calls0 := calls;
      OneMoreLater(sorted, i);
      assert sorted[i..][1..] == sorted[i + 1..] && sorted[i..][0] == scc;
      if |scc| == 1 {
        pull := pull + {scc[0]};
      }
      FlushSeqSplits(sorted, i);
      for j := 0 to |scc|
        invariant !failed
        invariant CallIds(calls) == CallIds(calls0) + scc[..j]
        invariant forall n :: 0 <= n < |calls| ==> PullsFinished(sorted, calls[n])
      {
        var c := Call(scc[j], pull);
        PullsLater(sorted, i, c);
        CallIdsAppend(calls, c);
        assert scc[..j + 1] == scc[..j] + [scc[j]];
        calls := calls + [c];
        var error := *;
        if error {
          assert CallIds(calls0) + scc[..j + 1] <= CallIds(calls0) + scc <= FlushSeq(sorted);
          return calls, true;
        }
      }
      if |scc| > 1 {
        pull := pull + (set id | id in scc);
      }
      assert scc[..|scc|] == scc;
      i := i - 1;
    }
    assert sorted[0..] == sorted;
  }

  /** What is flushed for the last components comes first. */
  lemma {:induction false} FlushSeqSplits(sorted: seq<seq<Id>>, i: nat)
    requires i < |sorted|
    ensures FlushSeq(sorted[i + 1..]) + sorted[i] <= FlushSeq(sorted)
  {
    assert sorted[i..][1..] == sorted[i + 1..] && sorted[i..][0] == sorted[i];
    if i == 0 {
      assert sorted[0..] == sorted;
    } else {
      FlushSeqSplits(sorted[1..], i - 1);
      assert sorted[1..][i..] == sorted[i + 1..] && sorted[1..][i - 1] == sorted[i];
    }
  }

  lemma NoCalls()
    ensures CallIds([]) == []
  {
  }

  lemma NoneLater(sorted: seq<seq<Id>>)
    ensures forall x :: InFrom(sorted, |sorted|, x) ==> false
  {
  }

  lemma OneMoreLater(sorted: seq<seq<Id>>, i: nat)
    requires i < |sorted|
    ensures forall x :: InFrom(sorted, i, x) <==> InFrom(sorted, i + 1, x) || x in sorted[i]
  {
    forall x ensures InFrom(sorted, i, x) <==> InFrom(sorted, i + 1, x) || x in sorted[i] {
      if InFrom(sorted, i + 1, x) {
        var l :| i + 1 <= l < |sorted| && x in sorted[l];
        assert i <= l && x in sorted[l];
      }
    }
  }

  lemma PullsLater(sorted: seq<seq<Id>>, i: nat, c: Call)
    requires i < |sorted| && c.id in sorted[i]
    requires forall x :: x in c.pull <==> InFrom(sorted, i + 1, x) || (|sorted[i]| == 1 && x == sorted[i][0])
    ensures PullsFinished(sorted, c)
  {
    assert |sorted[i]| == 1 ==> sorted[i] == [sorted[i][0]];
  }

  // --- The whole ordering part of run -------------------------------------------------------

  /** Exactly the transactions that were seen and have a token with their stored nonce are flushed. */
  lemma FlushedAreQueued(queue: Queues, seen: Seen, g: Graph, sorted: seq<seq<Id>>, v: Id)
    requires IsSuccessorGraph(g, queue, seen) && IsSorted(g, sorted)
    ensures v in FlushSeq(sorted) <==> Queued(queue, seen, v)
  {
    hide Chain, Edge, Nodes, Reach, QueueEdges, QueuedIds, Queued, LeadsBack, AreComponents;
    NodesAreQueued(g, queue, seen);
    InFlushSeq(sorted, v);
    QueuedAre(queue, seen, v);
  }

  lemma NotReady(ready: bool, edges: set<(Id, Id)>, goal: Id)
    requires ReadyFor(ready, edges, goal)
    ensures ready <==> ReadyFor(true, edges, goal)
  {
  }

  /** Without a prerequisite only the goal is advanced; otherwise everything that was seen and has
      a valid token is, in the agreed order, up to the first call that fails. */
  method Plan(queue: Queues, seen: Seen, goal: Id) returns (calls: seq<Call>, failed: bool, ghost g: Graph, ghost order: seq<Id>)
    ensures IsSuccessorGraph(g, queue, seen)
    ensures !HasPrerequisite(queue, seen, goal) ==> calls == [Call(goal, {goal})]
    ensures HasPrerequisite(queue, seen, goal) ==>
              && CallIds(calls) <= order && (!failed ==> CallIds(calls) == order)
              && (forall v :: v in order <==> Queued(queue, seen, v))
              && (forall d, u, v :: d in queue && Precedes(seen, queue[d], u, v) ==>
                   (Before(order, u, v) <==> (Leads(queue, seen, v, u) ==> u < v)))
  {
    hide Before, Precedes, Leads, HasPrerequisite, ReadyFor, IsSuccessorGraph, Queued, QueueEdges, CallIds, FlushSeq, IsSccOrder, Ascending;
    var successors, ready := BuildSuccessors(queue, seen, goal);
    ReadyMeans(successors, queue, seen, goal);
    NotReady(ready, QueueEdges(queue, seen, queue.Keys), goal);
    g, order := successors, [goal];
    if ready {
      failed := *;
      return [Call(goal, {goal})], failed, g, order;
    }
    var sorted := TarjanSort(successors);
    order := FlushSeq(sorted);
    calls, failed := FlushAll(sorted);
    forall v ensures v in order <==> Queued(queue, seen, v) {
      FlushedAreQueued(queue, seen, g, sorted, v);
    }
    forall d, u, v | d in queue && Precedes(seen, queue[d], u, v)
      ensures Before(order, u, v) <==> (Leads(queue, seen, v, u) ==> u < v)
    {
      FlushedInQueueOrder(queue, seen, g, sorted, d, u, v);
    }
  }
}
