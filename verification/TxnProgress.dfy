/** A runner that meets no error of the database finishes its transaction, wherever the others
    stopped: the protocol of TxnAtomic makes progress. */
module TxnProgress {
  import opened TxnOps
  import opened TxnProtocol
  import opened TxnAtomic

  /** No error of the database shows: nothing fails, every write that is made is answered, and a write
      is not made only because its guard does not hold. */
  ghost predicate Smooth(ev: Event, c': Copy) {
    && !ev.Fail? && !ev.DocGone? && (ev.Store? ==> ev.reply)
    && (ev.NoStore? ==> c'.pc.ReloadPrepared? || c'.pc.ReloadAborting? || c'.pc.ReloadApplying?)
    && c'.pc != Failed
  }

  /** Only runner `a` moves, without an error. */
  ghost predicate SoloStep(t: Txn, m: Matches, w: World, a: Agent, w': World) {
    exists ev :: Moves(t, w.sys, a, ev, w'.sys) && DocStep(t, m, w, w.sys.copies[a], ev, w') && Smooth(ev, w'.sys.copies[a])
  }

  // --- How far a runner has got -------------------------------------------------------------

  function Ahead(s: State): nat {
    match s
    case Preparing => 3
    case Prepared => 2
    case Aborting => 1
    case Applying => 1
    case _ => 0
  }

  function Stage(pc: Pc): nat {
    match pc
    case Failed => 14
    case Top => 13
    case Queue(_, _, _) => 12
    case SavePrepared(_, _) => 11
    case ReloadPrepared(_) => 10
    case Decide(_) => 9
    case RescanReload(_, _, _) => 8
    case Rescan(_, _, _) => 7
    case RescanLost => 6
    case Assert(_, _) => 5
    case SaveAborting(_) => 4
    case SaveApplying(_) => 4
    case ReloadAborting(_) => 3
    case ReloadApplying => 3
    case Pull(_, _) => 2
    case Apply(_) => 2
    case SaveAborted => 1
    case SaveApplied => 1
    case _ => 0
  }

  /** What is left of the loop that a runner is in. */
  function Left(t: Txn, pc: Pc): nat {
    match pc
    case Queue(_, k, _) => if k < |t.keys| then |t.keys| - k else 0
    case Rescan(k, _, _) => if k < |t.keys| then |t.keys| - k else 0
    case Assert(i, _) => if i < |t.ops| then |t.ops| - i else 0
    case Pull(i, _) => if i < |t.ops| then |t.ops| - i else 0
    case Apply(i) => if i < |t.ops| then |t.ops| - i else 0
    case _ => 0
  }

  ghost predicate Nearer(t: Txn, c: Copy, c': Copy) {
    || Ahead(c'.s) < Ahead(c.s)
    || (Ahead(c'.s) == Ahead(c.s) && Stage(c'.pc) < Stage(c.pc))
    || (Ahead(c'.s) == Ahead(c.s) && Stage(c'.pc) == Stage(c.pc) && Left(t, c'.pc) < Left(t, c.pc))
  }

  // --- The next step of a runner ------------------------------------------------------------

  /** A step: its answers, and what it leaves of record, copy and documents. */
  datatype Solo = Solo(ev: Event, rec: Rec, c: Copy, vals: Vals, tokens: map<Key, set<Nonce>>)

  ghost function Moved(w: World, a: Agent, s: Solo): World {
    World(Sys(s.rec, w.sys.past + {s.rec}, w.sys.copies[a := s.c]), s.vals, s.tokens)
  }

  /** The step is one that the protocol, the record and the documents allow, without an error. */
  ghost predicate Allowed(t: Txn, m: Matches, w: World, c: Copy, s: Solo) {
    && CopyStep(t, w.sys.rec, c, s.ev, s.rec, s.c)
    && DocStep(t, m, w, c, s.ev, World(w.sys, s.vals, s.tokens))
    && Smooth(s.ev, s.c)
  }

  ghost predicate Good(t: Txn, m: Matches, w: World, c: Copy, s: Solo) {
    Allowed(t, m, w, c, s) && Nearer(t, c, s.c) && s.c.pc != Panic
  }

  ghost function Same(w: World, ev: Event, c: Copy): Solo {
    Solo(ev, w.sys.rec, c, w.vals, w.tokens)
  }

  lemma SwitchOn(t: Txn, m: Matches, w: World, c: Copy) returns (s: Solo)
    requires c.pc.Top? || c.pc.Failed?
    ensures Good(t, m, w, c, s)
  {
    if c.pc.Failed? {
      s := Same(w, Again, c.(pc := Top));
    } else {
      var nonce := "n";
      var pc := match c.s
        case Preparing => Queue(if c.n == "" then nonce else c.n, 0, map[])
        case Prepared => Rescan(0, map[], {})
        case Applying => Apply(0)
        case Aborting => SaveAborted
        case _ => Returned;
      s := Same(w, Switch(nonce), c.(pc := pc));
    }
  }

  /** Preparing: the token goes into every document, then the nonce into the record. */
  lemma InjectOn(t: Txn, m: Matches, vals: Vals, w: World, k: nat, c: Copy) returns (s: Solo)
    requires HasKeys(t, vals) && w.vals.Keys == vals.Keys && w.tokens.Keys == vals.Keys && CopyOk(t, w.sys.rec, c)
    requires RunnerOk(t, m, vals, w.sys.rec.s, w.tokens, k, c)
    requires c.pc.Queue?
    ensures Good(t, m, w, c, s)
  {
    hide Plan, AllCheck, ChecksTo;
    var Queue(nonce, j, found) := c.pc;
    if j < |t.keys| {
      var d := t.keys[j];
      assert d in t.keys;
      var revno := w.vals[d].revno;
      s := Solo(Inject(d, revno), w.sys.rec, c.(pc := Queue(nonce, j + 1, found[d := revno])), w.vals,
        w.tokens[d := w.tokens[d] + {nonce}]);
    } else {
      s := Same(w, Event.Found(false), c.(pc := SavePrepared(nonce, found)));
    }
  }

  lemma PrepareOn(t: Txn, m: Matches, vals: Vals, w: World, k: nat, c: Copy) returns (s: Solo)
    requires HasKeys(t, vals) && w.vals.Keys == vals.Keys && w.tokens.Keys == vals.Keys && CopyOk(t, w.sys.rec, c)
    requires RunnerOk(t, m, vals, w.sys.rec.s, w.tokens, k, c)
    requires c.pc.SavePrepared? || c.pc.ReloadPrepared?
    ensures Good(t, m, w, c, s)
  {
    hide Plan, AllCheck, ChecksTo, RunnerOk;
    match c.pc {
      case SavePrepared(nonce, found) =>
        s := if w.sys.rec.s == Preparing
          then Solo(Store(true), w.sys.rec.(s := Prepared, n := nonce), c.(s := Prepared, n := nonce, pc := Decide(found)), w.vals, w.tokens)
          else Same(w, NoStore, c.(pc := ReloadPrepared(found)));
      case ReloadPrepared(found) =>
        s := Same(w, Load, Reloaded(w.sys.rec, if w.sys.rec.s == Prepared then Decide(found) else Top));
      case _ =>
    }
  }

  /** All documents were read, or are read again. */
  lemma ScanOn(t: Txn, m: Matches, vals: Vals, w: World, k: nat, c: Copy) returns (s: Solo)
    requires HasKeys(t, vals) && w.vals.Keys == vals.Keys && w.tokens.Keys == vals.Keys && CopyOk(t, w.sys.rec, c)
    requires RunnerOk(t, m, vals, w.sys.rec.s, w.tokens, k, c)
    requires c.pc.Decide? || c.pc.Rescan?
    ensures Good(t, m, w, c, s)
  {
    hide Plan, AllCheck, ChecksTo, Assembled;
    match c.pc {
      case Decide(found) =>
        ReadAllCompletes(t, vals, Early(w.sys.rec.s), found);
        s := Same(w, Event.Found(false), c.(pc := Assert(0, Assembled(t.ops, found))));
      case Rescan(j, found, have) =>
        if j == |t.keys| {
          ReadAllCompletes(t, vals, Early(w.sys.rec.s), found);
          s := Same(w, Event.Found(false), c.(pc := Assert(0, Assembled(t.ops, found))));
        } else {
          s := ReadOn(t, m, vals, w, c);
        }
      case _ =>
    }
  }

  lemma ReadOn(t: Txn, m: Matches, vals: Vals, w: World, c: Copy) returns (s: Solo)
    requires HasKeys(t, vals) && w.vals.Keys == vals.Keys && w.tokens.Keys == vals.Keys
    requires c.pc.Rescan? && c.s == Prepared && c.pc.k < |t.keys|
    ensures Good(t, m, w, c, s)
  {
    var Rescan(j, found, have) := c.pc;
    var d := t.keys[j];
    assert d in t.keys;
    var revno, hasToken := w.vals[d].revno, c.n in w.tokens[d];
    s := Same(w, ReadDoc(d, revno, hasToken),
      c.(pc := if hasToken then Rescan(j + 1, found[d := revno], have + {d}) else RescanLost));
  }

  lemma RereadOn(t: Txn, m: Matches, vals: Vals, w: World, k: nat, c: Copy) returns (s: Solo)
    requires HasKeys(t, vals) && w.vals.Keys == vals.Keys && w.tokens.Keys == vals.Keys && CopyOk(t, w.sys.rec, c)
    requires RunnerOk(t, m, vals, w.sys.rec.s, w.tokens, k, c)
    requires c.pc.RescanReload? || c.pc.RescanLost?
    ensures Good(t, m, w, c, s)
  {
    hide Plan, AllCheck, ChecksTo;
    match c.pc {
      case RescanReload(j, found, have) =>
        s := Same(w, Load, Reloaded(w.sys.rec, if w.sys.rec.s == Prepared then Rescan(j, found, have) else Top));
      case RescanLost => s := Same(w, Load, Reloaded(w.sys.rec, Top));
      case _ =>
    }
  }

  /** Checking the assertions. */
  lemma AssertOn(t: Txn, m: Matches, vals: Vals, w: World, k: nat, c: Copy) returns (s: Solo)
    requires HasKeys(t, vals) && w.vals.Keys == vals.Keys && w.tokens.Keys == vals.Keys && CopyOk(t, w.sys.rec, c)
    requires RunnerOk(t, m, vals, w.sys.rec.s, w.tokens, k, c)
    requires c.pc.Assert?
    ensures Good(t, m, w, c, s)
  {
    hide Plan, AllCheck, ChecksTo, Checks;
    var Assert(i, revnos) := c.pc;
    if i >= |t.ops| {
      s := Same(w, Event.Found(false), c.(pc := SaveApplying(revnos)));
    } else {
      assert t.ops[i].key in t.keys;
      var ok := Checks(m, t.ops, i, revnos, w.vals);
      s := Same(w, Check(ok), c.(pc := if ok then Assert(i + 1, revnos) else SaveAborting(revnos)));
    }
  }

  /** The decision is stored, or was made by somebody else. */
  lemma DecideOn(t: Txn, m: Matches, vals: Vals, w: World, k: nat, c: Copy) returns (s: Solo)
    requires HasKeys(t, vals) && w.vals.Keys == vals.Keys && w.tokens.Keys == vals.Keys && CopyOk(t, w.sys.rec, c)
    requires RunnerOk(t, m, vals, w.sys.rec.s, w.tokens, k, c)
    requires c.pc.SaveAborting? || c.pc.SaveApplying?
    ensures Good(t, m, w, c, s)
  {
    hide Plan, AllCheck, ChecksTo, RunnerOk;
    match c.pc {
      case SaveAborting(revnos) =>
        s := if w.sys.rec.s == Prepared
          then Solo(Store(true), w.sys.rec.(s := Aborting), c.(s := Aborting, pc := Pull(0, revnos)), w.vals, w.tokens)
          else Same(w, NoStore, c.(pc := ReloadAborting(revnos)));
      case SaveApplying(revnos) =>
        s := if w.sys.rec.s == Prepared
          then Solo(Store(true), w.sys.rec.(s := Applying, r := revnos), c.(s := Applying, r := revnos, pc := Top), w.vals, w.tokens)
          else Same(w, NoStore, c.(pc := ReloadApplying));
      case _ =>
    }
  }

  lemma ReloadOn(t: Txn, m: Matches, vals: Vals, w: World, k: nat, c: Copy) returns (s: Solo)
    requires HasKeys(t, vals) && w.vals.Keys == vals.Keys && w.tokens.Keys == vals.Keys && CopyOk(t, w.sys.rec, c)
    requires RunnerOk(t, m, vals, w.sys.rec.s, w.tokens, k, c)
    requires c.pc.ReloadAborting? || c.pc.ReloadApplying?
    ensures Good(t, m, w, c, s)
  {
    hide Plan, AllCheck, ChecksTo, RunnerOk;
    match c.pc {
      case ReloadAborting(revnos) =>
        s := Same(w, Load, Reloaded(w.sys.rec, if w.sys.rec.s == Aborting then Pull(0, revnos) else Top));
      case ReloadApplying => s := Same(w, Load, Reloaded(w.sys.rec, Top));
      case _ =>
    }
  }

  /** Carrying out what was decided. */
  lemma ApplyOn(t: Txn, m: Matches, vals: Vals, w: World, k: nat, c: Copy) returns (s: Solo)
    requires HasKeys(t, vals) && WorldInv(t, m, vals, w, k) && w.vals.Keys == vals.Keys && CopyOk(t, w.sys.rec, c)
    requires c.pc.Apply?
    ensures Good(t, m, w, c, s)
  {
    hide AllCheck, ChecksTo, After, Plan, RunnerOk, Inv, TokensKept;
    var i := c.pc.i;
    if i < |t.ops| {
      var op, revno := t.ops[i], c.r[i];
      assert op.key in t.keys;
      var hit := op.change.Update? && revno >= 0 && w.vals[op.key].revno == revno && c.n in w.tokens[op.key];
      s := Solo(ApplyOp, w.sys.rec, c.(pc := Apply(i + 1)), if hit then EffectAt(op, w.vals) else w.vals, w.tokens);
    } else {
      s := Same(w, Event.Found(false), c.(s := Applied, pc := SaveApplied));
    }
  }

  lemma FinishOn(t: Txn, m: Matches, vals: Vals, w: World, k: nat, c: Copy) returns (s: Solo)
    requires HasKeys(t, vals) && WorldInv(t, m, vals, w, k) && w.vals.Keys == vals.Keys && CopyOk(t, w.sys.rec, c)
    requires c.pc.Pull? || c.pc.SaveAborted? || c.pc.SaveApplied?
    ensures Good(t, m, w, c, s)
  {
    hide WorldInv, HasKeys;
    match c.pc {
      case Pull(i, revnos) =>
        s := if i < |t.ops| then Same(w, PullTokens, c.(pc := Pull(i + 1, revnos)))
             else Same(w, Event.Found(false), c.(pc := SaveAborted));
      case SaveAborted => s := Solo(Store(true), w.sys.rec.(s := Aborted), c.(s := Aborted, pc := Top), w.vals, w.tokens);
      case SaveApplied =>
        s := Solo(Store(true), if w.sys.rec.s == Applying then w.sys.rec.(s := Applied) else w.sys.rec, c.(pc := Returned),
          w.vals, w.tokens);
      case _ =>
    }
  }

  lemma ValsKeys(t: Txn, m: Matches, vals: Vals, w: World, k: nat)
    requires HasKeys(t, vals) && WorldInv(t, m, vals, w, k)
    ensures w.vals.Keys == vals.Keys && w.tokens.Keys == vals.Keys
  {
    KeysCover(t, vals);
  }

  /** A runner that has not finished can always make a step without an error that takes it nearer to
      its end, whatever the others left. */
  lemma StepOn(t: Txn, m: Matches, vals: Vals, w: World, k: nat, a: Agent) returns (s: Solo)
    requires HasKeys(t, vals) && WorldInv(t, m, vals, w, k) && a in w.sys.copies
    requires w.sys.copies[a].pc != Returned && w.sys.copies[a].pc != Panic
    ensures Good(t, m, w, w.sys.copies[a], s)
  {
    var c := w.sys.copies[a];
    WorldParts(t, m, vals, w, k, a);
    ValsKeys(t, m, vals, w, k);
    hide WorldInv, RunnerOk, CopyOk, Good, HasKeys;
    match c.pc {
      case Failed => s := SwitchOn(t, m, w, c);
      case Top => s := SwitchOn(t, m, w, c);
      case Queue(_, _, _) => s := InjectOn(t, m, vals, w, k, c);
      case SavePrepared(_, _) => s := PrepareOn(t, m, vals, w, k, c);
      case ReloadPrepared(_) => s := PrepareOn(t, m, vals, w, k, c);
      case Decide(_) => s := ScanOn(t, m, vals, w, k, c);
      case Rescan(_, _, _) => s := ScanOn(t, m, vals, w, k, c);
      case RescanReload(_, _, _) => s := RereadOn(t, m, vals, w, k, c);
      case RescanLost => s := RereadOn(t, m, vals, w, k, c);
      case Assert(_, _) => s := AssertOn(t, m, vals, w, k, c);
      case SaveAborting(_) => s := DecideOn(t, m, vals, w, k, c);
      case SaveApplying(_) => s := DecideOn(t, m, vals, w, k, c);
      case Apply(_) => s := ApplyOn(t, m, vals, w, k, c);
      case Pull(_, _) => s := FinishOn(t, m, vals, w, k, c);
      case SaveAborted => s := FinishOn(t, m, vals, w, k, c);
      case SaveApplied => s := FinishOn(t, m, vals, w, k, c);
      case _ => s := ReloadOn(t, m, vals, w, k, c);
    }
  }

  lemma Goes(t: Txn, m: Matches, w: World, a: Agent, s: Solo)
    requires a in w.sys.copies && Allowed(t, m, w, w.sys.copies[a], s)
    ensures WorldNext(t, m, w, Moved(w, a, s)) && SoloStep(t, m, w, a, Moved(w, a, s))
  {
    hide CopyStep, Smooth;
    var w' := Moved(w, a, s);
    assert Moves(t, w.sys, a, s.ev, w'.sys);
    assert DocStep(t, m, w, w.sys.copies[a], s.ev, w');
  }

  // --- Runs ---------------------------------------------------------------------------------

  function Last(run: seq<World>): World
    requires run != []
  {
    run[|run| - 1]
  }

  lemma Longer(t: Txn, m: Matches, vals: Vals, run: seq<World>, w: World)
    requires IsWorldRun(t, m, vals, run) && WorldNext(t, m, Last(run), w)
    ensures IsWorldRun(t, m, vals, run + [w])
  {
    hide WorldInit, WorldNext;
    var longer := run + [w];
    forall i | 0 <= i < |longer| - 1 ensures WorldNext(t, m, longer[i], longer[i + 1]) {
      if i < |run| - 1 { assert WorldNext(t, m, run[i], run[i + 1]); }
    }
  }

  /** From moment `i` on only runner `a` moves, without an error. */
  ghost predicate Solos(t: Txn, m: Matches, run: seq<World>, i: nat, a: Agent) {
    forall j :: i <= j < |run| - 1 ==> SoloStep(t, m, run[j], a, run[j + 1])
  }

  /** The record says applied, too, unless the runner knows it only by itself. */
  ghost predicate Told(rec: Rec, c: Copy) {
    c.s == Applied && c.pc != SaveApplied ==> rec.s == Applied
  }

  lemma ToldOn(t: Txn, m: Matches, w: World, c: Copy, s: Solo)
    requires CopyOk(t, w.sys.rec, c) && Told(w.sys.rec, c) && Allowed(t, m, w, c, s)
    ensures Told(s.rec, s.c)
  {
    hide DocStep;
  }

  /** Wherever a run stands, and wherever the other runners stopped: a runner that has not finished
      finishes by itself, if it meets no error any more. It reports `applied` exactly if all assertions
      held of the documents as they were; then the record says so, too. */
  lemma {:induction false} CanFinish(t: Txn, m: Matches, vals: Vals, run: seq<World>, a: Agent) returns (longer: seq<World>)
    requires UpdatesOnly(t) && IsWorldRun(t, m, vals, run) && a in Last(run).sys.copies && Last(run).sys.copies[a].pc != Panic
    ensures HasKeys(t, vals) && run <= longer && IsWorldRun(t, m, vals, longer) && Solos(t, m, longer, |run| - 1, a)
    ensures a in Last(longer).sys.copies && Last(longer).sys.copies[a].pc == Returned
    ensures Last(longer).sys.copies[a].s == if AllWanted(t, m, vals) then Applied else Aborted
    ensures Told(Last(run).sys.rec, Last(run).sys.copies[a]) ==> Told(Last(longer).sys.rec, Last(longer).sys.copies[a])
    decreases Ahead(Last(run).sys.copies[a].s), Stage(Last(run).sys.copies[a].pc), Left(t, Last(run).sys.copies[a].pc)
  {
    hide WorldNext, WorldInit, SoloStep, AllWanted, HasKeys, WorldInv, Allowed, Told;
    var w, c := Last(run), Last(run).sys.copies[a];
    var k := WorldRunInv(t, m, vals, run, |run| - 1);
    if c.pc == Returned {
      longer := run;
      Outcome(t, m, vals, run, a);
    } else {
      WorldParts(t, m, vals, w, k, a);
      var s := StepOn(t, m, vals, w, k, a);
      var w' := Moved(w, a, s);
      Goes(t, m, w, a, s);
      Longer(t, m, vals, run, w');
      if Told(w.sys.rec, c) { ToldOn(t, m, w, c, s); }
      longer := CanFinish(t, m, vals, run + [w'], a);
      assert longer[|run| - 1] == w && longer[|run|] == w';
    }
  }

  lemma Outcome(t: Txn, m: Matches, vals: Vals, run: seq<World>, a: Agent)
    requires UpdatesOnly(t) && IsWorldRun(t, m, vals, run) && a in Last(run).sys.copies && Last(run).sys.copies[a].pc == Returned
    ensures HasKeys(t, vals) && Last(run).sys.copies[a].s == if AllWanted(t, m, vals) then Applied else Aborted
  {
    var k := WorldRunInv(t, m, vals, run, |run| - 1);
    hide WorldInv, AllWanted;
    ReturnedKnows(t, m, vals, Last(run), k, a);
    var k2 := AllOrNothing(t, m, vals, run, |run| - 1);
  }

  /** One runner, alone and without an error, from the start: the transaction ends applied, with every
      update made, exactly if all assertions hold, and aborted with nothing changed otherwise. */
  lemma RunsAlone(t: Txn, m: Matches, vals: Vals, a: Agent) returns (run: seq<World>)
    requires HasKeys(t, vals)
    ensures |run| > 1 && IsWorldRun(t, m, vals, run) && run[1].sys.copies.Keys == {a} && Solos(t, m, run, 1, a)
    ensures a in Last(run).sys.copies && Last(run).sys.copies[a].pc == Returned && Covers(vals, t.ops)
    ensures AllWanted(t, m, vals) ==> Last(run).sys.rec.s == Applied && Last(run).vals == After(vals, t.ops, |t.ops|)
    ensures !AllWanted(t, m, vals) ==> Last(run).sys.rec.s == Aborted && Last(run).vals == vals
  {
    hide AllWanted;
    KeysCover(t, vals);
    var w := World(Sys(NEW_REC, {NEW_REC}, map[]), vals, map d | d in vals :: {});
    var w' := w.(sys := w.sys.(copies := map[a := Reloaded(NEW_REC, Top)]));
    assert Joins(w.sys, a, NEW_REC, w'.sys);
    assert WorldNext(t, m, w, w');
    var start := [w, w'];
    assert IsWorldRun(t, m, vals, start) by { Longer(t, m, vals, [w], w'); assert [w] + [w'] == start; }
    run := CanFinish(t, m, vals, start, a);
    assert run[1] == start[1];
    var k := WorldRunInv(t, m, vals, run, |run| - 1);
    ReturnedKnows(t, m, vals, Last(run), k, a);
  }
}
