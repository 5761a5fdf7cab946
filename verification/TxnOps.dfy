/** Operations of a transaction, and the revision numbers they run on (txn/txn.go, and
    `assembledRevnos` in txn/flusher.go). */
module TxnOps {

  // A document of a collection; only its identity matters here.
  type Key = nat

  /** What an update or insert document stands for. The content of a document is kept as the list
      of what was applied to it, so that nothing is lost or reordered unseen. */
  type Content = seq<nat>

  datatype Change = NoChange | Insert(doc: nat) | Update(with: nat) | Remove

  datatype Assertion = NoAssert | DocExists | DocMissing | Query(query: nat)

  datatype Op = Op(key: Key, change: Change, assertion: Assertion)

  /** A document with its txn-revno. A negative number means that the document is not in its
      collection but in the stash, or nowhere at all; zero stands for a missing txn-revno field in
      the collection, and minus one for a missing one in the stash. */
  datatype Val = Val(revno: int, content: Content) {
    predicate Live() { revno >= 0 }
  }

  type Vals = map<Key, Val>

  ghost predicate Covers(vals: Vals, ops: seq<Op>) {
    forall i :: 0 <= i < |ops| ==> ops[i].key in vals
  }

  // --- What an operation does ---------------------------------------------------------------

  predicate Effective(op: Op, live: bool) {
    match op.change
    case NoChange => false
    case Insert(_) => !live
    case Update(_) => live
    case Remove => live
  }

  /** The revision that follows an effective change. */
  function NextRevno(op: Op, revno: int): int {
    if !Effective(op, revno >= 0) then revno
    else match op.change
      case Insert(_) => -revno + 1
      case Update(_) => revno + 1
      case _ => -revno - 1
  }

  function NextContent(op: Op, content: Content): Content {
    match op.change
    case Insert(doc) => [doc]
    case Update(u) => content + [u]
    case _ => []
  }

  function Effect(op: Op, v: Val): Val {
    if Effective(op, v.Live()) then Val(NextRevno(op, v.revno), NextContent(op, v.content)) else v
  }

  function EffectAt(op: Op, vals: Vals): Vals
    requires op.key in vals
  {
    vals[op.key := Effect(op, vals[op.key])]
  }

  /** The documents after the first `k` operations. */
  function After(vals: Vals, ops: seq<Op>, k: nat): (r: Vals)
    requires k <= |ops| && Covers(vals, ops)
    ensures r.Keys == vals.Keys
  {
    if k == 0 then vals else EffectAt(ops[k - 1], After(vals, ops, k - 1))
  }

  function Abs(x: int): nat { if x < 0 then -x else x }

  /** Zero and minus one are revisions a document only has before its first transaction. */
  lemma RevnoGrows(op: Op, revno: int)
    requires Effective(op, revno >= 0)
    ensures Abs(NextRevno(op, revno)) == Abs(revno) + 1
    ensures (NextRevno(op, revno) >= 0) == !op.change.Remove?
  {
  }

  lemma {:induction false} AbsRevnoGrows(vals: Vals, ops: seq<Op>, i: nat, j: nat, d: Key)
    requires i <= j <= |ops| && Covers(vals, ops) && d in vals
    ensures Abs(After(vals, ops, i)[d].revno) <= Abs(After(vals, ops, j)[d].revno)
    ensures After(vals, ops, i)[d].revno == After(vals, ops, j)[d].revno ==>
              After(vals, ops, i)[d] == After(vals, ops, j)[d]
  {
    if i < j {
      AbsRevnoGrows(vals, ops, i, j - 1, d);
    }
  }

  /** The document of an update that took effect never has the revision from before again. */
  lemma RevnoMoved(vals: Vals, ops: seq<Op>, i: nat, k: nat)
    requires i < k <= |ops| && Covers(vals, ops) && ops[i].change.Update?
    requires After(vals, ops, i)[ops[i].key].revno >= 0
    ensures After(vals, ops, k)[ops[i].key].revno != After(vals, ops, i)[ops[i].key].revno
  {
    var d := ops[i].key;
    assert After(vals, ops, i + 1)[d] == Effect(ops[i], After(vals, ops, i)[d]);
    AbsRevnoGrows(vals, ops, i + 1, k, d);
  }

  // --- What becomes of a document -----------------------------------------------------------

  /** Whether document `d` exists after the first `k` operations, if it did before or not. */
  ghost function Exists(ops: seq<Op>, k: nat, d: Key, before: bool): bool
    requires k <= |ops|
  {
    if k == 0 then before
    else if ops[k - 1].key == d && ops[k - 1].change.Insert? then true
    else if ops[k - 1].key == d && ops[k - 1].change.Remove? then false
    else Exists(ops, k - 1, d, before)
  }

  /** The insert of `d` was made: the document did not exist. */
  ghost predicate Inserts(ops: seq<Op>, i: nat, d: Key, before: bool)
    requires i < |ops|
  {
    ops[i].key == d && ops[i].change.Insert? && !Exists(ops, i, d, before)
  }

  /** The operation behind the last insert of `d` that was made among the first `k`, 0 if none was. */
  ghost function Since(ops: seq<Op>, k: nat, d: Key, before: bool): (i: nat)
    requires k <= |ops|
    ensures i <= k && (i > 0 ==> Inserts(ops, i - 1, d, before))
    ensures forall j :: i <= j < k ==> !Inserts(ops, j, d, before)
  {
    if k == 0 then 0 else if Inserts(ops, k - 1, d, before) then k else Since(ops, k - 1, d, before)
  }

  /** What the updates of `d` among the operations from `i` to `k` add, in their order. */
  ghost function Updates(ops: seq<Op>, i: nat, k: nat, d: Key): Content
    requires i <= k <= |ops|
  {
    if i == k then []
    else Updates(ops, i, k - 1, d) + if ops[k - 1].key == d && ops[k - 1].change.Update? then [ops[k - 1].change.with] else []
  }

  /** The content of a document that exists after `k` operations: what the last insert brought, or what
      was there if none was made, and the updates since. */
  ghost function Made(ops: seq<Op>, k: nat, d: Key, v: Val): Content
    requires k <= |ops|
  {
    var i := Since(ops, k, d, v.Live());
    (if i > 0 then [ops[i - 1].change.doc] else v.content) + Updates(ops, i, k, d)
  }

  lemma MadeNext(ops: seq<Op>, k: nat, d: Key, v: Val)
    requires 0 < k <= |ops|
    ensures var op := ops[k - 1];
      Made(ops, k, d, v) == if Inserts(ops, k - 1, d, v.Live()) then [op.change.doc]
                            else if op.key == d && op.change.Update? then Made(ops, k - 1, d, v) + [op.change.with]
                            else Made(ops, k - 1, d, v)
  {
    var i := Since(ops, k, d, v.Live());
    if i == k {
      assert Updates(ops, k, k, d) == [];
    } else {
      assert i == Since(ops, k - 1, d, v.Live());
      var base := if i > 0 then [ops[i - 1].change.doc] else v.content;
      var more := Updates(ops, i, k, d);
      assert base + more == base + Updates(ops, i, k - 1, d) + more[|Updates(ops, i, k - 1, d)|..];
    }
  }

  /** Whatever inserts, updates and removes there are: a document exists as the last insert or remove
      of it says, and holds what was inserted last and updated since. */
  lemma {:induction false} WhatIsThere(vals: Vals, ops: seq<Op>, k: nat, d: Key)
    requires k <= |ops| && Covers(vals, ops) && d in vals
    ensures After(vals, ops, k)[d].Live() == Exists(ops, k, d, vals[d].Live())
    ensures Exists(ops, k, d, vals[d].Live()) ==> After(vals, ops, k)[d].content == Made(ops, k, d, vals[d])
  {
    hide Since, Updates, Made;
    if k > 0 {
      WhatIsThere(vals, ops, k - 1, d);
      MadeNext(ops, k, d, vals[d]);
      var v := After(vals, ops, k - 1)[d];
      assert After(vals, ops, k)[d] == if ops[k - 1].key == d then Effect(ops[k - 1], v) else v;
    } else {
      NothingMade(ops, d, vals[d]);
    }
  }

  lemma NothingMade(ops: seq<Op>, d: Key, v: Val)
    ensures Made(ops, 0, d, v) == v.content
  {
    assert v.content + [] == v.content;
  }

  // --- The revisions a transaction is assembled with ----------------------------------------

  /** The list that is stored with the transaction: for each operation the revision its document
      is expected to have when its turn comes. */
  function Assembled(ops: seq<Op>, revno: map<Key, int>): (r: seq<int>)
    requires forall i :: 0 <= i < |ops| ==> ops[i].key in revno
    ensures |r| == |ops|
    decreases |ops|
  {
    if ops == [] then [] else
      var d := ops[0].key;
      [revno[d]] + Assembled(ops[1..], revno[d := NextRevno(ops[0], revno[d])])
  }

  method AssembledRevnos(ops: seq<Op>, revno0: map<Key, int>) returns (revnos: seq<int>)
    requires forall i :: 0 <= i < |ops| ==> ops[i].key in revno0
    ensures revnos == Assembled(ops, revno0)
  {
    revnos := [];
    var revno := revno0;
    for i := 0 to |ops|
      invariant revno.Keys == revno0.Keys
      invariant Assembled(ops, revno0) == revnos + Assembled(ops[i..], revno)
    {
      var op := ops[i];
      var drevno := revno[op.key];
      assert ops[i..][0] == op && ops[i..][1..] == ops[i + 1..];
      revnos := revnos + [drevno];
      match op.change {
        case Insert(_) => if drevno < 0 { revno := revno[op.key := -drevno + 1]; }
        case Update(_) => if drevno >= 0 { revno := revno[op.key := drevno + 1]; }
        case Remove => if drevno >= 0 { revno := revno[op.key := -drevno - 1]; }
        case NoChange =>
      }
      assert revno == revno[op.key := NextRevno(op, drevno)];
    }
  }

  function Revnos(vals: Vals): map<Key, int> {
    map d | d in vals :: vals[d].revno
  }

  /** The stored revision of every operation is the one its document has after the operations
      before it, whatever mix of changes they make to whatever documents. */
  lemma {:induction false} AssembledPredicts(ops: seq<Op>, vals: Vals, i: nat)
    requires Covers(vals, ops) && i < |ops|
    ensures Assembled(ops, Revnos(vals))[i] == After(vals, ops, i)[ops[i].key].revno
  {
    if i > 0 {
      var vals' := EffectAt(ops[0], vals);
      assert Revnos(vals') == Revnos(vals)[ops[0].key := NextRevno(ops[0], vals[ops[0].key].revno)];
      AssembledPredicts(ops[1..], vals', i - 1);
      AfterFirst(vals, ops, i);
    }
  }

  lemma {:induction false} AfterFirst(vals: Vals, ops: seq<Op>, k: nat)
    requires 0 < k <= |ops| && Covers(vals, ops)
    ensures After(vals, ops, k) == After(EffectAt(ops[0], vals), ops[1..], k - 1)
  {
    if k > 1 {
      AfterFirst(vals, ops, k - 1);
      assert ops[1..][k - 2] == ops[k - 1];
    }
  }
}
