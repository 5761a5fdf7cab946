/** Applying a transaction with any mix of inserts, updates, removes and assertions, by one runner
    that is not interrupted (txn/flusher.go, `apply`): the documents of the collections, the stash
    that stands in for documents that do not exist, and the single-document operations on them. */
module TxnApply {
  import opened TxnOps

  type Id = nat

  datatype Token = Token(id: Id, nonce: string)

  /** A document of a collection. A revno of zero is a missing txn-revno field, and zero in `marked`
      a missing txn-remove field. */
  datatype Doc = Doc(revno: nat, queue: seq<Token>, content: Content, marked: Id)

  /** A stash entry. Zero stands for missing fields here as well, and `nonces` is its field n. */
  datatype Stash = Stash(revno: int, queue: seq<Token>, nonces: seq<nat>, marked: Id)

  function StashRevno(s: Stash): int {
    if s.revno == 0 then -1 else s.revno
  }

  // --- Tokens to pull -----------------------------------------------------------------------

  function Without(queue: seq<Token>, pulled: seq<Token>): (r: seq<Token>)
    ensures forall t :: t in r <==> t in queue && t !in pulled
  {
    if queue == [] then [] else
      (if queue[0] in pulled then [] else [queue[0]]) + Without(queue[1..], pulled)
  }

  /** The tokens of the queue that belong to handled transactions, except the one not to pull. */
  method TokensToPull(dqueue: seq<Token>, pull: set<Id>, dontPull: Token) returns (result: seq<Token>)
    ensures forall t :: t in result <==> t in dqueue && t.id in pull && t != dontPull
  {
    result := [];
    var j := |dqueue| - 1;
    while j >= 0
      invariant -1 <= j < |dqueue|
      invariant forall t :: t in result <==> t in dqueue[j + 1..] && t.id in pull && t != dontPull
    {
      var dtt := dqueue[j];
      assert dqueue[j..] == [dtt] + dqueue[j + 1..];
      if dtt != dontPull && dtt.id in pull {
        result := result + [dtt];
      }
      j := j - 1;
    }
    assert dqueue[0..] == dqueue;
  }

  predicate HasToken(tokens: seq<Token>, tt: Token) {
    tt in tokens
  }

  // --- The database -------------------------------------------------------------------------

  class Database {
    var live: map<Key, Doc>
    var stash: map<Key, Stash>

    constructor (live: map<Key, Doc>, stash: map<Key, Stash>)
      ensures this.live == live && this.stash == stash
    {
      this.live, this.stash := live, stash;
    }

    /** The document a key stands for, with the sign of its revision telling where it is. */
    ghost function Vals(keys: set<Key>): (r: Vals)
      reads this
      ensures r.Keys == keys
    {
      map d | d in keys :: ValAt(live, stash, d)
    }

    predicate Matches(d: Key, revno: int, tt: Token)
      reads this
    {
      d in live && live[d].revno == revno && tt in live[d].queue
    }

    /** The query for a stash entry; revision -1 asks for a missing field. */
    predicate MatchesStash(d: Key, revno: int, tt: Token)
      reads this
    {
      d in stash && stash[d].revno == (if revno == -1 then 0 else revno) && tt in stash[d].queue
    }

    method Update(d: Key, revno: int, tt: Token, with: nat, pulled: seq<Token>, newRevno: nat) returns (found: bool)
      modifies this`live
      ensures found == old(Matches(d, revno, tt))
      ensures live == if found then old(live)[d := old(live)[d].(revno := newRevno, content := old(live)[d].content + [with],
                                                                queue := Without(old(live)[d].queue, pulled))] else old(live)
    {
      found := Matches(d, revno, tt);
      if found {
        var doc := live[d];
        live := live[d := doc.(revno := newRevno, content := doc.content + [with], queue := Without(doc.queue, pulled))];
      }
    }

    /** Pushes a nonce onto a stash entry, which is created when missing, and returns the entry. */
    method PushNonce(d: Key, nonce: nat) returns (entry: Stash)
      modifies this`stash
      ensures var before := if d in old(stash) then old(stash)[d] else Stash(0, [], [], 0);
              entry == before.(nonces := before.nonces + [nonce])
      ensures stash == old(stash)[d := entry]
    {
      var before := if d in stash then stash[d] else Stash(0, [], [], 0);
      entry := before.(nonces := before.nonces + [nonce]);
      stash := stash[d := entry];
    }

    method MarkRemove(d: Key, revno: int, tt: Token, id: Id) returns (found: bool, info: Doc)
      modifies this`live
      ensures found == old(Matches(d, revno, tt))
      ensures live == if found then old(live)[d := info] else old(live)
      ensures found ==> info == old(live)[d].(marked := id)
    {
      found, info := Matches(d, revno, tt), Doc(0, [], [], 0);
      if found {
        info := live[d].(marked := id);
        live := live[d := info];
      }
    }

    /** Overwrites queue and revision of the stash entry that still has the nonce. */
    method SetStash(d: Key, nonce: nat, queue: seq<Token>, revno: int)
      modifies this`stash
      ensures stash == if d in old(stash) && nonce in old(stash)[d].nonces
                       then old(stash)[d := old(stash)[d].(queue := queue, revno := revno, nonces := [])] else old(stash)
    {
      if d in stash && nonce in stash[d].nonces {
        stash := stash[d := stash[d].(queue := queue, revno := revno, nonces := [])];
      }
    }

    method RemoveDoc(d: Key, revno: int, tt: Token) returns (found: bool)
      modifies this`live
      ensures found == old(Matches(d, revno, tt)) && live == if found then old(live) - {d} else old(live)
    {
      found := Matches(d, revno, tt);
      if found { live := live - {d}; }
    }

    method MarkInsert(d: Key, revno: int, tt: Token, id: Id) returns (found: bool, info: Stash)
      modifies this`stash
      ensures found == old(MatchesStash(d, revno, tt))
      ensures stash == if found then old(stash)[d := info] else old(stash)
      ensures found ==> info == old(stash)[d].(marked := id)
    {
      found, info := MatchesStash(d, revno, tt), Stash(0, [], [], 0);
      if found {
        info := stash[d].(marked := id);
        stash := stash[d := info];
      }
    }

    method InsertDoc(d: Key, doc: Doc) returns (dup: bool)
      modifies this`live
      ensures dup == (d in old(live)) && live == if dup then old(live) else old(live)[d := doc]
    {
      dup := d in live;
      if !dup { live := live[d := doc]; }
    }

    method RemoveStash(d: Key, revno: int, tt: Token) returns (found: bool)
      modifies this`stash
      ensures found == old(MatchesStash(d, revno, tt)) && stash == if found then old(stash) - {d} else old(stash)
    {
      found := MatchesStash(d, revno, tt);
      if found { stash := stash - {d}; }
    }
  }

  ghost function ValAt(live: map<Key, Doc>, stash: map<Key, Stash>, d: Key): Val {
    if d in live then Val(live[d].revno, live[d].content)
    else if d in stash then Val(StashRevno(stash[d]), [])
    else Val(-1, [])
  }

  /** The queue of a document: its own, or that of the stash entry that stands in for it. */
  ghost function QueueAt(live: map<Key, Doc>, stash: map<Key, Stash>, d: Key): seq<Token> {
    if d in live then live[d].queue else if d in stash then stash[d].queue else []
  }

  /** What preparing leaves behind for a document: the token is in the queue of the document, and
      not in a stash entry next to it; or the document is missing and the token is in its stash
      entry, whose revision is missing or below -1. */
  ghost predicate ReadyAt(live: map<Key, Doc>, stash: map<Key, Stash>, d: Key, tt: Token) {
    if d in live then tt in live[d].queue && (d in stash ==> tt !in stash[d].queue)
    else d in stash && tt in stash[d].queue && (stash[d].revno == 0 || stash[d].revno < -1)
  }

  ghost predicate Ready(live: map<Key, Doc>, stash: map<Key, Stash>, keys: set<Key>, tt: Token) {
    forall d :: d in keys ==> ReadyAt(live, stash, d, tt)
  }

  datatype Outcome = Done | Miss

  /** An update pulls leftover tokens; a remove and an insert take the queue along. */
  ghost function NewQueue(op: Op, live: bool, queue: seq<Token>, pullAll: seq<Token>): seq<Token> {
    if op.change.Update? && live then Without(queue, pullAll) else queue
  }

  /** What an operation on a document leaves there, and that it touched nothing else. */
  ghost predicate Changed(live: map<Key, Doc>, stash: map<Key, Stash>, live': map<Key, Doc>, stash': map<Key, Stash>,
                          op: Op, tt: Token, pullAll: seq<Token>)
  {
    && QueueAt(live', stash', op.key) == NewQueue(op, ValAt(live, stash, op.key).Live(), QueueAt(live, stash, op.key), pullAll)
    && ValAt(live', stash', op.key) == Effect(op, ValAt(live, stash, op.key))
    && ReadyAt(live', stash', op.key, tt)
    && live' - {op.key} == live - {op.key} && stash' - {op.key} == stash - {op.key}
  }

  method ApplyUpdate(db: Database, tt: Token, op: Op, revno: int, pullAll: seq<Token>) returns (found: bool, newRevno: int)
    requires op.change.Update? && ReadyAt(db.live, db.stash, op.key, tt) && tt !in pullAll
    requires revno == ValAt(db.live, db.stash, op.key).revno
    modifies db
    ensures Changed(old(db.live), old(db.stash), db.live, db.stash, op, tt, pullAll)
    ensures found == (revno >= 0) && newRevno == ValAt(db.live, db.stash, op.key).revno
  {
    if revno < 0 {
      return false, revno;
    }
    newRevno := revno + 1;
    found := db.Update(op.key, revno, tt, op.change.with, pullAll, newRevno);
  }

  method ApplyRemove(db: Database, id: Id, tt: Token, op: Op, revno: int, nonce: nat) returns (found: bool, newRevno: int)
    requires op.change.Remove? && ReadyAt(db.live, db.stash, op.key, tt)
    requires revno == ValAt(db.live, db.stash, op.key).revno
    modifies db
    ensures Changed(old(db.live), old(db.stash), db.live, db.stash, op, tt, [])
    ensures found == (revno >= 0) && newRevno == ValAt(db.live, db.stash, op.key).revno
  {
    var d := op.key;
    if revno < 0 {
      return false, revno;
    }
    newRevno := -revno - 1;
    var entry := db.PushNonce(d, nonce);
    var info;
    found, info := db.MarkRemove(d, revno, tt, id);
    if found {
      if !HasToken(entry.queue, tt) {
        // Missing revno in stash means -1.
        db.SetStash(d, nonce, info.queue, if revno == 0 then 0 else newRevno);
      }
      found := db.RemoveDoc(d, revno, tt);
    }
  }

  method ApplyInsert(db: Database, id: Id, tt: Token, op: Op, revno: int) returns (found: bool, newRevno: int)
    requires op.change.Insert? && ReadyAt(db.live, db.stash, op.key, tt)
    requires revno == ValAt(db.live, db.stash, op.key).revno
    modifies db
    ensures Changed(old(db.live), old(db.stash), db.live, db.stash, op, tt, [])
    ensures found == (revno < 0) && newRevno == ValAt(db.live, db.stash, op.key).revno
  {
    var d := op.key;
    if revno >= 0 {
      return false, revno;
    }
    newRevno := -revno + 1;
    var info;
    found, info := db.MarkInsert(d, revno, tt, id);
    if found {
      var dup := db.InsertDoc(d, Doc(newRevno, info.queue, [op.change.doc], 0));
      found := db.RemoveStash(d, revno, tt);
    }
  }

  /** One operation, on the revision that was predicted for its document. */
  method ApplyOp(db: Database, id: Id, tt: Token, op: Op, revno: int, pullAll: seq<Token>, ghost keys: set<Key>)
      returns (found: bool, newRevno: int)
    requires op.key in keys && Ready(db.live, db.stash, keys, tt) && tt !in pullAll
    requires db.Vals(keys)[op.key].revno == revno
    modifies db
    ensures Ready(db.live, db.stash, keys, tt) && db.Vals(keys) == EffectAt(op, old(db.Vals(keys)))
    ensures QueuesChanged(old(db.live), old(db.stash), db.live, db.stash, op, revno >= 0, pullAll, keys)
    ensures found == (op.change.NoChange? || Effective(op, revno >= 0))
    ensures db.Vals(keys)[op.key].revno == newRevno
  {
    hide Ready, Changed, Effective, NextRevno, Effect;
    ghost var live0, stash0, vals0 := db.live, db.stash, db.Vals(keys);
    assert ReadyAt(live0, stash0, op.key, tt) by { ReadyHere(live0, stash0, keys, tt, op.key); }
    assert vals0[op.key] == ValAt(live0, stash0, op.key);
    found, newRevno := true, revno;
    match op.change {
      case Update(_) => found, newRevno := ApplyUpdate(db, tt, op, revno, pullAll);
      case Remove => var nonce: nat := *; found, newRevno := ApplyRemove(db, id, tt, op, revno, nonce);
      case Insert(_) => found, newRevno := ApplyInsert(db, id, tt, op, revno);
      case NoChange => // Pure assertion. No changes to apply.
        NothingChanged(live0, stash0, op, tt);
    }
    if !op.change.Update? { AnyPull(live0, stash0, db.live, db.stash, op, tt, pullAll); }
    OneApplied(live0, stash0, db.live, db.stash, op, tt, pullAll, keys, vals0, db.Vals(keys));
    assert db.Vals(keys)[op.key] == ValAt(db.live, db.stash, op.key);
    FoundMeans(op, revno, found);
  }

  /** Applies the operations one after the other, on the revisions they were assembled with, with
      the tokens each may pull from the queue the runner read. `logRevnos` is what the change log
      records. */
  method Apply(db: Database, id: Id, tt: Token, ops: seq<Op>, revnos: seq<int>, queue: map<Key, seq<Token>>,
               pull: set<Id>, ghost keys: set<Key>) returns (outcomes: seq<Outcome>, logRevnos: seq<int>)
    requires forall i :: 0 <= i < |ops| ==> ops[i].key in keys && ops[i].key in queue
    requires Ready(db.live, db.stash, keys, tt)
    requires revnos == Assembled(ops, Revnos(db.Vals(keys)))
    modifies db
    ensures Ready(db.live, db.stash, keys, tt)
    ensures db.Vals(keys) == After(old(db.Vals(keys)), ops, |ops|)
    ensures |outcomes| == |logRevnos| == |ops|
    ensures forall i :: 0 <= i < |ops| ==> OutcomeOk(old(db.Vals(keys)), ops, i, revnos[i], outcomes[i], logRevnos[i])
    ensures forall d :: d in keys ==> (d in db.live <==> Exists(ops, |ops|, d, d in old(db.live)))
    ensures forall d :: d in keys && d in db.live ==> db.live[d].content == Made(ops, |ops|, d, old(db.Vals(keys))[d])
    ensures QueuesOk(old(db.live), old(db.stash), db.live, db.stash, old(db.Vals(keys)), ops, |ops|, queue, pull, tt)
  {
    hide Ready, Changed, After, Assembled, Effective, NextRevno, Effect, QueuesChanged, QueuesOk, Exists, Made, QueueAt;
    ghost var vals := db.Vals(keys);
    outcomes, logRevnos := [], [];
    AfterNone(vals, ops);
    QueuesNone(db.live, db.stash, vals, ops, queue, pull, tt);
    for i := 0 to |ops|
      invariant Ready(db.live, db.stash, keys, tt) && db.Vals(keys) == After(vals, ops, i)
      invariant QueuesOk(old(db.live), old(db.stash), db.live, db.stash, vals, ops, i, queue, pull, tt)
      invariant |outcomes| == |logRevnos| == i
      invariant forall j :: 0 <= j < i ==> OutcomeOk(vals, ops, j, revnos[j], outcomes[j], logRevnos[j])
    {
      var op, revno := ops[i], revnos[i];
      var pullAll := TokensToPull(queue[op.key], pull, tt);
      AssembledPredicts(ops, vals, i);
      ghost var live1, stash1 := db.live, db.stash;
      var found, newRevno := ApplyOp(db, id, tt, op, revno, pullAll, keys);
      WhatIsThere(vals, ops, i, op.key);
      QueuesOn(old(db.live), old(db.stash), live1, stash1, db.live, db.stash, vals, ops, i, pullAll, queue, pull, tt);
      outcomes := outcomes + [if found then Done else Miss];
      logRevnos := logRevnos + [newRevno];
      AfterOne(vals, ops, i);
    }
    forall d | d in keys
      ensures d in db.live <==> Exists(ops, |ops|, d, d in old(db.live))
      ensures d in db.live ==> db.live[d].content == Made(ops, |ops|, d, vals[d])
    {
      WhatIsThere(vals, ops, |ops|, d);
      LiveHere(old(db.live), old(db.stash), keys, tt, d);
      LiveHere(db.live, db.stash, keys, tt, d);
      assert db.Vals(keys)[d] == ValAt(db.live, db.stash, d);
    }
  }

  /** The sign of its revision tells whether a document is there. */
  lemma LiveHere(live: map<Key, Doc>, stash: map<Key, Stash>, keys: set<Key>, tt: Token, d: Key)
    requires Ready(live, stash, keys, tt) && d in keys
    ensures ValAt(live, stash, d).Live() <==> d in live
    ensures d in live ==> ValAt(live, stash, d).content == live[d].content
  {
    assert ReadyAt(live, stash, d, tt);
  }

  lemma QueuesNone(live: map<Key, Doc>, stash: map<Key, Stash>, vals: Vals, ops: seq<Op>, queue: map<Key, seq<Token>>, pull: set<Id>, tt: Token)
    ensures QueuesOk(live, stash, live, stash, vals, ops, 0, queue, pull, tt)
  {
  }

  /** The operation met its document at the revision that was predicted, took effect exactly when
      the sign of that revision allows it, and left the revision that is logged. */
  ghost predicate OutcomeOk(vals: Vals, ops: seq<Op>, i: nat, revno: int, outcome: Outcome, logged: int)
    requires i < |ops| && Covers(vals, ops)
  {
    && After(vals, ops, i)[ops[i].key].revno == revno
    && (outcome == Done <==> ops[i].change.NoChange? || Effective(ops[i], revno >= 0))
    && After(vals, ops, i + 1)[ops[i].key].revno == logged
  }

  lemma AfterNone(vals: Vals, ops: seq<Op>)
    requires Covers(vals, ops)
    ensures After(vals, ops, 0) == vals
  {
  }

  lemma AfterOne(vals: Vals, ops: seq<Op>, i: nat)
    requires Covers(vals, ops) && i < |ops|
    ensures After(vals, ops, i + 1) == EffectAt(ops[i], After(vals, ops, i))
  {
  }

  lemma FoundMeans(op: Op, revno: int, found: bool)
    requires match op.change
             case Update(_) => found == (revno >= 0)
             case Remove => found == (revno >= 0)
             case Insert(_) => found == (revno < 0)
             case NoChange => found
    ensures found <==> op.change.NoChange? || Effective(op, revno >= 0)
  {
  }

  lemma ReadyHere(live: map<Key, Doc>, stash: map<Key, Stash>, keys: set<Key>, tt: Token, d: Key)
    requires Ready(live, stash, keys, tt) && d in keys
    ensures ReadyAt(live, stash, d, tt)
  {
  }

  /** An operation that is no update pulls nothing, whatever it may pull. */
  lemma AnyPull(live: map<Key, Doc>, stash: map<Key, Stash>, live': map<Key, Doc>, stash': map<Key, Stash>,
                op: Op, tt: Token, pullAll: seq<Token>)
    requires Changed(live, stash, live', stash', op, tt, []) && !op.change.Update?
    ensures Changed(live, stash, live', stash', op, tt, pullAll)
  {
  }

  /** What an operation does to the queues of the documents. */
  ghost predicate QueuesChanged(live: map<Key, Doc>, stash: map<Key, Stash>, live': map<Key, Doc>, stash': map<Key, Stash>,
                                op: Op, exists_: bool, pullAll: seq<Token>, keys: set<Key>)
  {
    forall d :: d in keys ==>
      QueueAt(live', stash', d) ==
        if d == op.key then NewQueue(op, exists_, QueueAt(live, stash, d), pullAll) else QueueAt(live, stash, d)
  }

  /** A token is pulled from the queue of `d` by an update of it that takes effect among the first `k`
      operations: it was in the queue that the runner read, of a transaction that was handled, and is
      not the token of the transaction itself. */
  ghost predicate Pulled(ops: seq<Op>, k: nat, d: Key, before: bool, queue: map<Key, seq<Token>>, pull: set<Id>, tt: Token, x: Token)
    requires k <= |ops|
  {
    && d in queue && x in queue[d] && x.id in pull && x != tt
    && exists j :: 0 <= j < k && ops[j].key == d && ops[j].change.Update? && Exists(ops, j, d, before)
  }

  /** Of the tokens in the queues exactly those are gone that were pulled. */
  ghost predicate QueuesOk(live: map<Key, Doc>, stash: map<Key, Stash>, live': map<Key, Doc>, stash': map<Key, Stash>,
                           vals: Vals, ops: seq<Op>, k: nat, queue: map<Key, seq<Token>>, pull: set<Id>, tt: Token)
    requires k <= |ops|
  {
    forall d, x :: d in vals ==>
      (x in QueueAt(live', stash', d) <==>
        x in QueueAt(live, stash, d) && !Pulled(ops, k, d, vals[d].Live(), queue, pull, tt, x))
  }

  lemma QueuesOn(live: map<Key, Doc>, stash: map<Key, Stash>, live1: map<Key, Doc>, stash1: map<Key, Stash>,
                 live2: map<Key, Doc>, stash2: map<Key, Stash>, vals: Vals, ops: seq<Op>, k: nat, pullAll: seq<Token>,
                 queue: map<Key, seq<Token>>, pull: set<Id>, tt: Token)
    requires k < |ops| && QueuesOk(live, stash, live1, stash1, vals, ops, k, queue, pull, tt) && Covers(vals, ops)
    requires QueuesChanged(live1, stash1, live2, stash2, ops[k], Exists(ops, k, ops[k].key, vals[ops[k].key].Live()), pullAll, vals.Keys)
    requires ops[k].key in queue && forall x :: x in pullAll <==> x in queue[ops[k].key] && x.id in pull && x != tt
    ensures QueuesOk(live, stash, live2, stash2, vals, ops, k + 1, queue, pull, tt)
  {
    hide QueueAt;
    forall d, x | d in vals
      ensures x in QueueAt(live2, stash2, d) <==>
        x in QueueAt(live, stash, d) && !Pulled(ops, k + 1, d, vals[d].Live(), queue, pull, tt, x)
    {
      PulledNext(ops, k, d, vals[d].Live(), queue, pull, tt, x);
    }
  }

  lemma PulledNext(ops: seq<Op>, k: nat, d: Key, before: bool, queue: map<Key, seq<Token>>, pull: set<Id>, tt: Token, x: Token)
    requires k < |ops|
    ensures Pulled(ops, k + 1, d, before, queue, pull, tt, x) <==>
      Pulled(ops, k, d, before, queue, pull, tt, x) ||
      (d in queue && x in queue[d] && x.id in pull && x != tt && ops[k].key == d && ops[k].change.Update? && Exists(ops, k, d, before))
  {
  }

  lemma NothingChanged(live: map<Key, Doc>, stash: map<Key, Stash>, op: Op, tt: Token)
    requires op.change.NoChange? && ReadyAt(live, stash, op.key, tt)
    ensures Changed(live, stash, live, stash, op, tt, [])
  {
  }

  lemma OneApplied(live: map<Key, Doc>, stash: map<Key, Stash>, live': map<Key, Doc>, stash': map<Key, Stash>,
                   op: Op, tt: Token, pullAll: seq<Token>, keys: set<Key>, vals: Vals, vals': Vals)
    requires op.key in keys && Ready(live, stash, keys, tt) && Changed(live, stash, live', stash', op, tt, pullAll)
    requires vals == (map d | d in keys :: ValAt(live, stash, d))
    requires vals' == (map d | d in keys :: ValAt(live', stash', d))
    ensures Ready(live', stash', keys, tt) && vals' == EffectAt(op, vals)
    ensures QueuesChanged(live, stash, live', stash', op, vals[op.key].Live(), pullAll, keys)
  {
    OthersKept(live, stash, live', stash', keys, op.key, tt);
  }

  /** A change of one document leaves the others ready and as they were. */
  lemma OthersKept(live: map<Key, Doc>, stash: map<Key, Stash>, live': map<Key, Doc>, stash': map<Key, Stash>,
                   keys: set<Key>, d: Key, tt: Token)
    requires Ready(live, stash, keys, tt) && ReadyAt(live', stash', d, tt)
    requires live' - {d} == live - {d} && stash' - {d} == stash - {d}
    ensures Ready(live', stash', keys, tt)
    ensures forall e :: e in keys && e != d ==>
              ValAt(live', stash', e) == ValAt(live, stash, e) && QueueAt(live', stash', e) == QueueAt(live, stash, e)
  {
    forall e | e in keys && e != d
      ensures ValAt(live', stash', e) == ValAt(live, stash, e) && ReadyAt(live', stash', e, tt)
      ensures QueueAt(live', stash', e) == QueueAt(live, stash, e)
    {
      assert ReadyAt(live, stash, e, tt);
      assert e in live <==> e in live - {d};
      assert e in live' <==> e in live' - {d};
      assert e in stash <==> e in stash - {d};
      assert e in stash' <==> e in stash' - {d};
      assert e in live ==> live[e] == (live - {d})[e] == live'[e];
      assert e in stash ==> stash[e] == (stash - {d})[e] == stash'[e];
    }
  }
}
