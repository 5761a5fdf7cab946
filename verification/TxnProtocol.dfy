/** The commit protocol of one transaction record (txn/flusher.go): any number of runners, each
    working on a copy of the record that may be out of date, moving it with single-document
    compare-and-set operations, and stopping wherever they like. What the documents answer is
    left open here; TxnAtomic says what they answer. */
module TxnProtocol {
  import opened TxnOps

  datatype State = Preparing | Prepared | Aborting | Applying | Aborted | Applied

  type Nonce = string

  /** The stored part of a transaction that changes: state, nonce and revision numbers. */
  datatype Rec = Rec(s: State, n: Nonce, r: seq<int>)

  type Found = map<Key, int>

  /** Where a runner stands in `advance`. */
  datatype Pc =
    | Top                                     // the switch on the state
    | Queue(nonce: Nonce, k: nat, found: Found)  // injecting the token into document k
    | SavePrepared(nonce: Nonce, found: Found)
    | ReloadPrepared(found: Found)            // lost the race to save the nonce
    | Decide(found: Found)                    // looking for pre-requisites
    | Rescan(k: nat, found: Found, have: set<Key>)        // `have` are the documents seen with the token
    | RescanLost                              // the token is gone from a document
    | RescanReload(k: nat, found: Found, have: set<Key>)  // neither document nor stash found
    | Assert(i: nat, revnos: seq<int>)
    | SaveAborting(revnos: seq<int>)
    | ReloadAborting(revnos: seq<int>)
    | Pull(i: nat, revnos: seq<int>)          // taking the tokens of an aborted transaction out
    | SaveAborted
    | SaveApplying(revnos: seq<int>)
    | ReloadApplying
    | Apply(i: nat)
    | SaveApplied
    | Returned                                // without an error
    | Failed                                  // with an error
    | Panic

  /** A runner's copy of the transaction. */
  datatype Copy = Copy(s: State, n: Nonce, r: seq<int>, pc: Pc)

  /** What a step did, with the answers it got. */
  datatype Event =
    | Switch(nonce: Nonce)
    | Inject(d: Key, revno: int)
    | ReadDoc(d: Key, revno: int, hasToken: bool)
    | DocGone
    | Check(ok: bool)
    | ApplyOp
    | PullTokens
    | Store(reply: bool)      // a write to the record; without a reply the runner sees an error
    | NoStore                 // a write that failed with an error and was not made
    | Load                    // the record is read again
    | Found(again: bool)      // the outcome of hasPreReqs: rescan, or go on
    | Fail                    // the database reports an error; a runner that is killed just makes no more steps
    | Again                   // advance is called once more on a copy it failed on

  /** The documents of the transaction in the order all runners visit them. */
  datatype Txn = Txn(ops: seq<Op>, keys: seq<Key>) {
    ghost predicate Valid() {
      && (forall i :: 0 <= i < |ops| ==> ops[i].key in keys)
      && (forall d :: d in keys ==> exists i :: 0 <= i < |ops| && ops[i].key == d)
      && (forall i, j :: 0 <= i < j < |keys| ==> keys[i] != keys[j])
    }
  }

  ghost predicate Complete(t: Txn, found: Found) {
    forall i :: 0 <= i < |t.ops| ==> t.ops[i].key in found
  }

  function Reloaded(rec: Rec, pc: Pc): Copy {
    Copy(rec.s, rec.n, rec.r, pc)
  }

  // --- One step of one runner ---------------------------------------------------------------

  /** The switch at the head of advance's loop, and the checks its branches start with. */
  ghost predicate SwitchStep(c: Copy, nonce: Nonce, c': Copy) {
    match c.s
    case Preparing => nonce != "" && c' == c.(pc := Queue(if c.n == "" then nonce else c.n, 0, map[]))
    case Prepared => c' == c.(pc := Rescan(0, map[], {}))
    case Applying => c' == c.(pc := Apply(0))
    case Aborting => c' == c.(pc := SaveAborted)
    case _ => c' == c.(pc := Returned)
  }

  /** The three guarded writes. `c'` is the copy when the write was made and answered. */
  ghost predicate StoreStep(rec: Rec, c: Copy, reply: bool, rec': Rec, c': Copy) {
    match c.pc
    case SavePrepared(nonce, found) =>
      && rec.s == Preparing && rec' == rec.(s := Prepared, n := nonce)
      && c' == if reply then c.(s := Prepared, n := nonce, pc := Decide(found)) else c.(pc := Failed)
    case SaveAborting(revnos) =>
      && rec.s == Prepared && rec' == rec.(s := Aborting)
      && c' == if reply then c.(s := Aborting, pc := Pull(0, revnos)) else c.(pc := Failed)
    case SaveApplying(revnos) =>
      && rec.s == Prepared && rec' == rec.(s := Applying, r := revnos)
      && c' == if reply then c.(s := Applying, r := revnos, pc := Top) else c.(pc := Top)
    case SaveAborted =>
      // The one write without a guard on the state.
      && rec' == rec.(s := Aborted)
      && c' == if reply then c.(s := Aborted, pc := Top) else c.(pc := Failed)
    case SaveApplied =>
      && rec' == (if rec.s == Applying then rec.(s := Applied) else rec)
      && c' == c.(pc := Returned)
    case _ => false
  }

  /** A guarded write that found the record in another state, or failed with an error. */
  ghost predicate NoStoreStep(rec: Rec, c: Copy, c': Copy) {
    match c.pc
    case SavePrepared(_, found) => rec.s != Preparing && c' == c.(pc := ReloadPrepared(found))
    case SaveAborting(revnos) => rec.s != Prepared && c' == c.(pc := ReloadAborting(revnos))
    case SaveApplying(_) => (rec.s != Prepared && c' == c.(pc := ReloadApplying)) || c' == c.(pc := Top)
    case SaveApplied => c' == c.(pc := Returned)
    case _ => false
  }

  ghost predicate LoadStep(rec: Rec, c: Copy, c': Copy) {
    match c.pc
    case ReloadPrepared(found) =>
      c' == Reloaded(rec, if rec.s == Preparing then Panic else if rec.s == Prepared then Decide(found) else Top)
    case RescanLost =>
      c' == Reloaded(rec, if rec.s == Preparing || rec.s == Prepared then Panic else Top)
    case RescanReload(k, found, have) =>
      || c' == Reloaded(rec, if rec.s == Prepared then Rescan(k, found, have) else Top)
      || (rec.s == Prepared && c' == Reloaded(rec, Failed))
    case ReloadAborting(revnos) =>
      c' == Reloaded(rec, if rec.s == Aborting then Pull(0, revnos)
                          else if rec.s == Prepared then SaveApplying(revnos) else Top)
    case ReloadApplying => c' == Reloaded(rec, Top)
    case _ => false
  }

  /** The steps between the writes, including the checks that panic. */
  ghost predicate WorkStep(t: Txn, c: Copy, ev: Event, c': Copy) {
    match c.pc
    case Queue(nonce, k, found) =>
      if k < |t.keys|
      then ev.Inject? && ev.d == t.keys[k] && c' == c.(pc := Queue(nonce, k + 1, found[ev.d := ev.revno]))
      else ev.Found? && c' == c.(pc := SavePrepared(nonce, found))
    case Decide(found) =>
      && ev.Found? && Complete(t, found)
      && c' == c.(pc := if ev.again then Rescan(0, map[], {}) else Assert(0, Assembled(t.ops, found)))
    case Rescan(k, found, have) =>
      if c.s != Prepared then ev.Found? && c' == c.(pc := Panic)
      else if k == |t.keys| then
        // hasPreReqs looks for the token in the queues once more.
        if exists d :: d in t.keys && d !in have then ev.Found? && c' == c.(pc := Panic)
        else ev.Found? && Complete(t, found) && c' == c.(pc := Assert(0, Assembled(t.ops, found)))
      else
        || (ev.DocGone? && c' == c.(pc := RescanReload(k, found, have)))
        || (ev.ReadDoc? && k < |t.keys| && ev.d == t.keys[k]
            && c' == c.(pc := if ev.hasToken then Rescan(k + 1, found[ev.d := ev.revno], have + {ev.d}) else RescanLost))
    case Assert(i, revnos) =>
      if c.s != Prepared then ev.Found? && c' == c.(pc := Panic)
      else if i >= |t.ops| then ev.Found? && c' == c.(pc := SaveApplying(revnos))
      else ev.Check? && c' == c.(pc := if ev.ok then Assert(i + 1, revnos) else SaveAborting(revnos))
    case SaveAborting(_) => c.s != Prepared && c.s != Aborting && ev.Found? && c' == c.(pc := Panic)
    case Pull(i, revnos) =>
      if i < |t.ops| then ev.PullTokens? && c' == c.(pc := Pull(i + 1, revnos))
      else ev.Found? && c' == c.(pc := SaveAborted)
    case Apply(i) =>
      if c.s != Applying then ev.Found? && c' == c.(pc := Panic)
      else if i < |t.ops| then ev.ApplyOp? && c' == c.(pc := Apply(i + 1))
      else ev.Found? && c' == c.(s := Applied, pc := SaveApplied)
    case _ => false
  }

  /** An error ends `advance`, with one exception: when a document misses the token, the state is
      checked before the error of the reload is, and a failed reload leaves the state as it was. */
  function Failing(c: Copy): Pc {
    if c.pc == RescanLost && (c.s == Preparing || c.s == Prepared) then Panic else Failed
  }

  /** One atomic step of a runner on the record; the step may also be its last. */
  ghost predicate CopyStep(t: Txn, rec: Rec, c: Copy, ev: Event, rec': Rec, c': Copy) {
    match ev
    case Switch(nonce) => c.pc == Top && rec' == rec && SwitchStep(c, nonce, c')
    case Store(reply) => StoreStep(rec, c, reply, rec', c')
    case NoStore => rec' == rec && NoStoreStep(rec, c, c')
    case Load => rec' == rec && LoadStep(rec, c, c')
    case Fail => rec' == rec && c' == c.(pc := Failing(c)) && !c.pc.Returned? && !c.pc.Panic?
    case Again => rec' == rec && c.pc == Failed && c' == c.(pc := Top)
    case _ => rec' == rec && WorkStep(t, c, ev, c')
  }

  // --- The system ---------------------------------------------------------------------------

  type Agent = nat

  /** `past` holds every value the record had: a runner may start from a stale one. */
  datatype Sys = Sys(rec: Rec, past: set<Rec>, copies: map<Agent, Copy>)

  const NEW_REC := Rec(Preparing, "", [])

  ghost predicate Init(s: Sys) {
    s == Sys(NEW_REC, {NEW_REC}, map[])
  }

  ghost predicate Joins(s: Sys, a: Agent, old_: Rec, s': Sys) {
    && a !in s.copies && old_ in s.past
    && s' == s.(copies := s.copies[a := Reloaded(old_, Top)])
  }

  ghost predicate Moves(t: Txn, s: Sys, a: Agent, ev: Event, s': Sys) {
    && a in s.copies && a in s'.copies
    && CopyStep(t, s.rec, s.copies[a], ev, s'.rec, s'.copies[a])
    && s'.past == s.past + {s'.rec}
    && s'.copies == s.copies[a := s'.copies[a]]
  }

  ghost predicate Next(t: Txn, s: Sys, s': Sys) {
    || (exists a, old_ :: Joins(s, a, old_, s'))
    || (exists a, ev :: Moves(t, s, a, ev, s'))
  }

  ghost predicate IsRun(t: Txn, run: seq<Sys>) {
    && |run| > 0 && Init(run[0])
    && forall i :: 0 <= i < |run| - 1 ==> Next(t, run[i], run[i + 1])
  }

  // --- The lifecycle ------------------------------------------------------------------------

  /** The states in the order a record may take them, possibly stopping anywhere. */
  ghost predicate StateLeq(a: State, b: State) {
    match a
    case Preparing => true
    case Prepared => b != Preparing
    case Aborting => b == Aborting || b == Aborted
    case Applying => b == Applying || b == Applied
    case _ => a == b
  }

  /** `b` is the record `a` at the same or a later time: the state only moved forward, and what
      was once written to nonce and revnos is still there. */
  ghost predicate Leq(a: Rec, b: Rec) {
    && StateLeq(a.s, b.s)
    && (a.s != Preparing ==> b.n == a.n)
    && (a.s == Applying || a.s == Applied ==> b.r == a.r)
  }

  ghost predicate WellFormed(rec: Rec) {
    && (rec.s == Preparing <==> rec.n == "")
    && (rec.s != Applying && rec.s != Applied ==> rec.r == [])
  }

  /** What a copy holds was once stored. Only `applied` runs ahead: a runner that finished applying
      knows it before the record does. */
  ghost predicate Known(rec: Rec, c: Copy) {
    && (if c.s == Applied then rec.s == Applying || rec.s == Applied else StateLeq(c.s, rec.s))
    && (if c.s == Preparing then c.n == "" else c.n == rec.n)
    && (if c.s == Applying || c.s == Applied then c.r == rec.r else c.r == [])
  }

  ghost predicate HaveTo(t: Txn, k: nat, have: set<Key>) {
    k <= |t.keys| && forall i :: 0 <= i < k ==> t.keys[i] in have
  }

  ghost predicate PcOk(t: Txn, rec: Rec, c: Copy) {
    match c.pc
    case Queue(nonce, _, _) => c.s == Preparing && nonce != ""
    case SavePrepared(nonce, _) => c.s == Preparing && nonce != ""
    case ReloadPrepared(_) => c.s == Preparing && rec.s != Preparing
    case Decide(_) => c.s == Prepared
    case Rescan(k, _, have) => c.s == Prepared && HaveTo(t, k, have)
    case RescanLost => c.s == Prepared
    case RescanReload(k, _, have) => c.s == Prepared && HaveTo(t, k, have)
    case Assert(_, _) => c.s == Prepared
    case SaveAborting(_) => c.s == Prepared
    case ReloadAborting(_) => c.s == Prepared && rec.s != Prepared
    case Pull(_, _) => c.s == Aborting
    case SaveAborted => c.s == Aborting
    case SaveApplying(_) => c.s == Prepared
    case ReloadApplying => c.s == Prepared && rec.s != Prepared
    case Apply(_) => c.s == Applying
    case SaveApplied => c.s == Applied
    case Returned => c.s == Applied || c.s == Aborted
    case _ => true
  }

  ghost predicate CopyOk(t: Txn, rec: Rec, c: Copy) {
    Known(rec, c) && PcOk(t, rec, c)
  }

  ghost predicate Inv(t: Txn, s: Sys) {
    && WellFormed(s.rec)
    && s.rec in s.past
    && (forall p :: p in s.past ==> WellFormed(p) && Leq(p, s.rec))
    && (forall a :: a in s.copies ==> CopyOk(t, s.rec, s.copies[a]))
  }

  /** The moves of the lifecycle: preparing, prepared, applying, applied; or prepared, aborting,
      aborted. */
  ghost predicate LifecycleMove(a: State, b: State) {
    || (a == Preparing && b == Prepared)
    || (a == Prepared && (b == Applying || b == Aborting))
    || (a == Applying && b == Applied)
    || (a == Aborting && b == Aborted)
  }

  /** The answer of the documents that would make a runner panic while rescanning: the token of a
      transaction still prepared is missing. TxnAtomic shows that it is never given. */
  ghost predicate LostToken(rec: Rec, c: Copy) {
    c.pc == RescanLost && rec.s == Prepared
  }

  /** The two ways to panic, both of a runner that found a document without the token: it cannot
      reload the transaction, or finds it still prepared. */
  ghost predicate Panics(rec: Rec, c: Copy, ev: Event) {
    (ev.Fail? && c.pc == RescanLost) || (ev.Load? && LostToken(rec, c))
  }

  lemma LeqTrans(a: Rec, b: Rec, c: Rec)
    requires Leq(a, b) && Leq(b, c) && WellFormed(a) && WellFormed(b)
    ensures Leq(a, c)
  {
  }

  /** A copy that is not moving stays sound while the record moves forward. */
  lemma CopyOkLater(t: Txn, rec: Rec, rec': Rec, c: Copy)
    requires CopyOk(t, rec, c) && WellFormed(rec) && WellFormed(rec') && Leq(rec, rec')
    ensures CopyOk(t, rec', c)
  {
  }

  lemma WorkKeeps(t: Txn, rec: Rec, c: Copy, ev: Event, c': Copy)
    requires WellFormed(rec) && CopyOk(t, rec, c) && WorkStep(t, c, ev, c')
    ensures CopyOk(t, rec, c') && c'.pc != Panic
  {
  }

  /** A step moves the record along its lifecycle or not at all, writes nonce and revnos only with
      the moves that set them, and panics in two ways only. */
  lemma StepKeeps(t: Txn, rec: Rec, c: Copy, ev: Event, rec': Rec, c': Copy)
    requires WellFormed(rec) && CopyOk(t, rec, c) && CopyStep(t, rec, c, ev, rec', c')
    ensures WellFormed(rec') && Leq(rec, rec') && CopyOk(t, rec', c')
    ensures rec' == rec || LifecycleMove(rec.s, rec'.s)
    ensures c'.pc == Panic <==> Panics(rec, c, ev)
  {
    hide WorkStep;
    if ev.Inject? || ev.ReadDoc? || ev.DocGone? || ev.Check? || ev.ApplyOp? || ev.PullTokens? || ev.Found? {
      WorkKeeps(t, rec, c, ev, c');
    }
  }

  lemma NextKeeps(t: Txn, s: Sys, s': Sys)
    requires Inv(t, s) && Next(t, s, s')
    ensures Inv(t, s') && Leq(s.rec, s'.rec)
    ensures s'.rec == s.rec || LifecycleMove(s.rec.s, s'.rec.s)
  {
    hide CopyStep, PcOk;
    if a, old_ :| Joins(s, a, old_, s') {
      assert CopyOk(t, s.rec, Reloaded(old_, Top)) by { JoinOk(t, s.rec, old_); }
    } else {
      var a, ev :| Moves(t, s, a, ev, s');
      StepKeeps(t, s.rec, s.copies[a], ev, s'.rec, s'.copies[a]);
      forall p | p in s'.past ensures WellFormed(p) && Leq(p, s'.rec) {
        if p in s.past { LeqTrans(p, s.rec, s'.rec); }
      }
      forall b | b in s'.copies ensures CopyOk(t, s'.rec, s'.copies[b]) {
        if b != a { CopyOkLater(t, s.rec, s'.rec, s.copies[b]); }
      }
    }
  }

  lemma JoinOk(t: Txn, rec: Rec, old_: Rec)
    requires WellFormed(old_) && Leq(old_, rec)
    ensures CopyOk(t, rec, Reloaded(old_, Top))
  {
  }

  // --- Whole runs ---------------------------------------------------------------------------

  lemma {:induction false} RunInv(t: Txn, run: seq<Sys>, i: nat)
    requires IsRun(t, run) && i < |run|
    ensures Inv(t, run[i])
  {
    hide Next, Inv;
    if i == 0 {
      InitInv(t, run[0]);
    } else {
      RunInv(t, run, i - 1);
      assert Next(t, run[i - 1], run[i - 1 + 1]);
      NextKeeps(t, run[i - 1], run[i]);
    }
  }

  lemma InitInv(t: Txn, s: Sys)
    requires Init(s)
    ensures Inv(t, s)
  {
  }

  /** However the runners interleave and wherever they stop: the stored state only moves along the
      lifecycle, and the nonce and the revnos, once stored, stay as they are. */
  lemma {:induction false} RecordLifecycle(t: Txn, run: seq<Sys>, i: nat, j: nat)
    requires IsRun(t, run) && i <= j < |run|
    ensures Leq(run[i].rec, run[j].rec)
    ensures j == i + 1 ==> run[j].rec == run[i].rec || LifecycleMove(run[i].rec.s, run[j].rec.s)
  {
    hide Next, Inv, Leq;
    RunInv(t, run, i);
    if i == j {
      assert Leq(run[i].rec, run[i].rec) by { LeqSelf(run[i].rec); }
    } else {
      RecordLifecycle(t, run, i, j - 1);
      RunInv(t, run, j - 1);
      assert Next(t, run[j - 1], run[j - 1 + 1]);
      NextKeeps(t, run[j - 1], run[j]);
      InvWellFormed(t, run[i]);
      InvWellFormed(t, run[j - 1]);
      LeqTrans(run[i].rec, run[j - 1].rec, run[j].rec);
    }
  }

  lemma LeqSelf(rec: Rec)
    ensures Leq(rec, rec)
  {
  }

  lemma InvWellFormed(t: Txn, s: Sys)
    requires Inv(t, s)
    ensures WellFormed(s.rec)
  {
  }

  /** All runners that reach the apply stage hold the nonce and revnos that are stored. */
  lemma AppliersAgree(t: Txn, run: seq<Sys>, i: nat, a: Agent)
    requires IsRun(t, run) && i < |run| && a in run[i].copies
    requires run[i].copies[a].s == Applying || run[i].copies[a].s == Applied
    ensures run[i].copies[a].n == run[i].rec.n != "" && run[i].copies[a].r == run[i].rec.r
  {
    RunInv(t, run, i);
  }

  /** Two runners that return without an error report the same outcome, and it is the stored one
      but for the last write of `applied`, which nobody waits for. */
  lemma OutcomesAgree(t: Txn, run: seq<Sys>, i: nat, a: Agent, b: Agent)
    requires IsRun(t, run) && i < |run| && a in run[i].copies && b in run[i].copies
    requires run[i].copies[a].pc == Returned && run[i].copies[b].pc == Returned
    ensures run[i].copies[a].s == run[i].copies[b].s
    ensures run[i].copies[a].s == Aborted ==> run[i].rec.s == Aborted
    ensures run[i].copies[a].s == Applied ==> run[i].rec.s == Applied || run[i].rec.s == Applying
    ensures run[i].copies[a].s == Applied || run[i].copies[a].s == Aborted
  {
    RunInv(t, run, i);
    assert CopyOk(t, run[i].rec, run[i].copies[a]) && CopyOk(t, run[i].rec, run[i].copies[b]);
  }

  ghost predicate LostRace(c: Copy) {
    c.pc.ReloadPrepared? || c.pc.ReloadAborting? || c.pc.ReloadApplying?
  }

  /** A runner that lost a compare-and-set finds a strictly later state when it reloads, so it
      never meets the state whose guard failed again. */
  lemma LostRaceIsLater(t: Txn, run: seq<Sys>, i: nat, a: Agent)
    requires IsRun(t, run) && i < |run| && a in run[i].copies && LostRace(run[i].copies[a])
    ensures StateLeq(run[i].copies[a].s, run[i].rec.s) && run[i].rec.s != run[i].copies[a].s
  {
    RunInv(t, run, i);
    assert CopyOk(t, run[i].rec, run[i].copies[a]);
  }

  /** Runner `a` panics between two moments. */
  ghost predicate PanicStep(t: Txn, s: Sys, a: Agent, s': Sys) {
    a in s.copies && exists ev :: Moves(t, s, a, ev, s') && Panics(s.rec, s.copies[a], ev)
  }

  /** Of all the checks of the protocol code that panic only the one for a missing token can fail:
      a runner has panicked exactly when it found a document without the token and then could not
      reload the transaction, or found it still prepared. */
  lemma {:induction false} PanicsExactlyWhen(t: Txn, run: seq<Sys>, i: nat, a: Agent)
    requires IsRun(t, run) && i < |run| && a in run[i].copies
    ensures run[i].copies[a].pc == Panic <==> exists j :: 0 <= j < i && PanicStep(t, run[j], a, run[j + 1])
  {
    hide CopyStep, Inv, Panics, Joins, Moves, Next;
    if i > 0 {
      var s, s' := run[i - 1], run[i - 1 + 1];
      assert Next(t, s, s');
      RunInv(t, run, i - 1);
      PanicNext(t, s, a, s');
      if a in s.copies {
        PanicsExactlyWhen(t, run, i - 1, a);
      } else {
        Absent(t, run, i - 1, a);
      }
    }
  }

  /** Runners that are not there yet did not panic. */
  lemma {:induction false} Absent(t: Txn, run: seq<Sys>, i: nat, a: Agent)
    requires IsRun(t, run) && i < |run| && a !in run[i].copies
    ensures forall j :: 0 <= j < i ==> !PanicStep(t, run[j], a, run[j + 1])
  {
    hide CopyStep, Panics;
    if i > 0 {
      assert Next(t, run[i - 1], run[i - 1 + 1]);
      Absent(t, run, i - 1, a);
    }
  }

  /** A copy is at a panic when it steps into one, or was there before. */
  lemma PanicNext(t: Txn, s: Sys, a: Agent, s': Sys)
    requires Inv(t, s) && Next(t, s, s') && a in s'.copies
    ensures s'.copies[a].pc == Panic <==> PanicStep(t, s, a, s') || (a in s.copies && s.copies[a].pc == Panic)
  {
    hide CopyStep, Inv, Panics, Joins, CopyOk;
    if PanicStep(t, s, a, s') {
      var ev :| Moves(t, s, a, ev, s') && Panics(s.rec, s.copies[a], ev);
      InvCopy(t, s, a);
      StepKeeps(t, s.rec, s.copies[a], ev, s'.rec, s'.copies[a]);
    } else if b, old_ :| Joins(s, b, old_, s') {
      JoinsCopies(s, b, old_, s');
    } else {
      var b, ev :| Moves(t, s, b, ev, s');
      if a == b {
        InvCopy(t, s, a);
        StepKeeps(t, s.rec, s.copies[a], ev, s'.rec, s'.copies[a]);
        NoStepFromPanic(t, s.rec, s.copies[a], ev, s'.rec, s'.copies[a]);
      }
    }
  }

  lemma NoStepFromPanic(t: Txn, rec: Rec, c: Copy, ev: Event, rec': Rec, c': Copy)
    requires CopyStep(t, rec, c, ev, rec', c')
    ensures c.pc != Panic
  {
  }

  lemma JoinsCopies(s: Sys, a: Agent, old_: Rec, s': Sys)
    requires Joins(s, a, old_, s')
    ensures a !in s.copies && s'.copies == s.copies[a := Reloaded(old_, Top)]
  {
  }

  lemma InvCopy(t: Txn, s: Sys, a: Agent)
    requires Inv(t, s) && a in s.copies
    ensures WellFormed(s.rec) && CopyOk(t, s.rec, s.copies[a])
  {
  }
}
