/** One transaction of updates and assertions on documents that no other transaction touches, with
    any number of runners: the protocol of TxnProtocol together with the documents it reads and
    writes. The runners may interleave and stop anywhere, and still all updates are applied, each
    once and in order, or none is. */
module TxnAtomic {
  import opened TxnOps
  import opened TxnProtocol

  /** Whether a query document matches a content. */
  type Matches = (nat, Content) -> bool

  /** `vals` are the documents and `tokens` the nonces of this transaction's tokens in their
      queues, wherever the queue of a document is kept. */
  datatype World = World(sys: Sys, vals: Vals, tokens: map<Key, set<Nonce>>)

  ghost predicate UpdatesOnly(t: Txn) {
    t.Valid() && forall i :: 0 <= i < |t.ops| ==> t.ops[i].change.Update? || t.ops[i].change.NoChange?
  }

  // --- What the documents answer ------------------------------------------------------------

  /** The position of the first operation on the document of operation `i`. */
  function First(ops: seq<Op>, i: nat): (k: nat)
    requires i < |ops|
    ensures k <= i && ops[k].key == ops[i].key
    ensures forall j :: 0 <= j < k ==> ops[j].key != ops[i].key
  {
    FirstFrom(ops, i, 0)
  }

  function FirstFrom(ops: seq<Op>, i: nat, from: nat): (k: nat)
    requires from <= i < |ops| && forall j :: 0 <= j < from ==> ops[j].key != ops[i].key
    ensures k <= i && ops[k].key == ops[i].key
    ensures forall j :: 0 <= j < k ==> ops[j].key != ops[i].key
    decreases i - from
  {
    if ops[from].key == ops[i].key then from else FirstFrom(ops, i, from + 1)
  }

  /** Whether the assertion of operation `i` holds when it is checked against these documents. All
      assertions on a document are checked at the revision of its first operation. */
  ghost predicate Checks(m: Matches, ops: seq<Op>, i: nat, revnos: seq<int>, vals: Vals)
    requires i < |ops| && |revnos| == |ops| && ops[i].key in vals
  {
    var v := vals[ops[i].key];
    match ops[i].assertion
    case NoAssert => true
    case DocMissing => revnos[i] < 0
    case DocExists => v.Live() && v.revno == revnos[First(ops, i)]
    case Query(q) => v.Live() && v.revno == revnos[First(ops, i)] && m(q, v.content)
  }

  /** The update of operation `i`: a document at the recorded revision, with the token in its queue,
      is changed; any other is left alone. Leftover tokens may be pulled, the token itself is not. */
  ghost predicate ApplyDoc(op: Op, revno: int, n: Nonce, w: World, w': World) {
    if op.key in w.vals && op.key in w.tokens && op.change.Update? && revno >= 0
       && w.vals[op.key].revno == revno && n in w.tokens[op.key]
    then
      && w'.vals == EffectAt(op, w.vals)
      && op.key in w'.tokens && n in w'.tokens[op.key] && w'.tokens[op.key] <= w.tokens[op.key]
      && w'.tokens == w.tokens[op.key := w'.tokens[op.key]]
    else
      w'.vals == w.vals && w'.tokens == w.tokens
  }

  ghost predicate DocStep(t: Txn, m: Matches, w: World, c: Copy, ev: Event, w': World) {
    match ev
    case Inject(d, revno) =>
      && c.pc.Queue? && d in w.vals && d in w.tokens && revno == w.vals[d].revno && w'.vals == w.vals
      && w'.tokens == w.tokens[d := w.tokens[d] + {c.pc.nonce}]
    case ReadDoc(d, revno, hasToken) =>
      && d in w.vals && d in w.tokens && revno == w.vals[d].revno && (hasToken <==> c.n in w.tokens[d])
      && w'.vals == w.vals && w'.tokens == w.tokens
    case Check(ok) =>
      && c.pc.Assert? && c.pc.i < |t.ops| == |c.pc.revnos| && t.ops[c.pc.i].key in w.vals
      && (ok <==> Checks(m, t.ops, c.pc.i, c.pc.revnos, w.vals))
      && w'.vals == w.vals && w'.tokens == w.tokens
    case ApplyOp =>
      c.pc.Apply? && c.pc.i < |t.ops| == |c.r| && ApplyDoc(t.ops[c.pc.i], c.r[c.pc.i], c.n, w, w')
    case PullTokens =>
      && w'.vals == w.vals && w'.tokens.Keys == w.tokens.Keys
      && forall d :: d in w.tokens ==> w'.tokens[d] <= w.tokens[d]
    case _ => w'.vals == w.vals && w'.tokens == w.tokens
  }

  /** The world moves when a runner joins or makes a step that the documents go along with. */
  ghost predicate WorldNext(t: Txn, m: Matches, w: World, w': World) {
    || (exists a, old_ :: Joins(w.sys, a, old_, w'.sys) && w'.vals == w.vals && w'.tokens == w.tokens)
    || (exists a, ev :: Moves(t, w.sys, a, ev, w'.sys) && DocStep(t, m, w, w.sys.copies[a], ev, w'))
  }

  /** Documents in any state, with no token of the transaction. */
  ghost predicate WorldInit(t: Txn, vals: Vals, w: World) {
    && Init(w.sys) && w.vals == vals && w.tokens.Keys == vals.Keys
    && (forall d :: d in t.keys ==> d in vals)
    && (forall d :: d in w.tokens ==> w.tokens[d] == {})
  }

  ghost predicate IsWorldRun(t: Txn, m: Matches, vals: Vals, run: seq<World>) {
    && |run| > 0 && WorldInit(t, vals, run[0])
    && forall i :: 0 <= i < |run| - 1 ==> WorldNext(t, m, run[i], run[i + 1])
  }

  // --- The invariant ------------------------------------------------------------------------

  ghost predicate HasKeys(t: Txn, vals: Vals) {
    UpdatesOnly(t) && forall d :: d in t.keys ==> d in vals
  }

  /** The revnos every runner assembles as long as nothing was applied. */
  ghost function Plan(t: Txn, vals: Vals): (r: seq<int>)
    requires HasKeys(t, vals)
    ensures |r| == |t.ops|
  {
    Assembled(t.ops, Revnos(vals))
  }

  ghost predicate ChecksTo(t: Txn, m: Matches, vals: Vals, k: nat)
    requires HasKeys(t, vals)
  {
    forall i :: 0 <= i < k && i < |t.ops| ==> Checks(m, t.ops, i, Plan(t, vals), vals)
  }

  ghost predicate AllCheck(t: Txn, m: Matches, vals: Vals)
    requires HasKeys(t, vals)
  {
    ChecksTo(t, m, vals, |t.ops|)
  }

  /** The documents up to the `k`th were read; if it was early, at their first revision. */
  ghost predicate ReadTo(t: Txn, vals: Vals, early: bool, k: nat, found: map<Key, int>) {
    && k <= |t.keys|
    && (forall i :: 0 <= i < k ==> t.keys[i] in found)
    && (early ==> forall d :: d in found && d in vals ==> found[d] == vals[d].revno)
  }

  ghost predicate TokenTo(t: Txn, tokens: map<Key, set<Nonce>>, n: Nonce, k: nat) {
    forall i :: 0 <= i < k && i < |t.keys| ==> t.keys[i] in tokens && n in tokens[t.keys[i]]
  }

  ghost predicate Early(s: State) {
    s == Preparing || s == Prepared
  }

  /** What a runner knows about the documents where it stands; `k` operations were applied. */
  ghost predicate RunnerOk(t: Txn, m: Matches, vals: Vals, s: State, tokens: map<Key, set<Nonce>>, k: nat, c: Copy)
    requires HasKeys(t, vals)
  {
    && (c.s == Applied ==> k == |t.ops|)
    && match c.pc
       case Queue(n, j, found) => ReadTo(t, vals, Early(s), j, found) && (s == Preparing ==> TokenTo(t, tokens, n, j))
       case SavePrepared(n, found) =>
         ReadTo(t, vals, Early(s), |t.keys|, found) && (s == Preparing ==> TokenTo(t, tokens, n, |t.keys|))
       case ReloadPrepared(found) => ReadTo(t, vals, Early(s), |t.keys|, found)
       case Decide(found) => ReadTo(t, vals, Early(s), |t.keys|, found)
       case Rescan(j, found, _) => ReadTo(t, vals, Early(s), j, found)
       case RescanReload(j, found, _) => ReadTo(t, vals, Early(s), j, found)
       case RescanLost => s != Prepared
       case Assert(i, revnos) =>
         |revnos| == |t.ops| && (Early(s) ==> revnos == Plan(t, vals) && ChecksTo(t, m, vals, i))
       case SaveAborting(revnos) => Early(s) ==> !AllCheck(t, m, vals)
       case SaveApplying(revnos) => Early(s) ==> revnos == Plan(t, vals) && AllCheck(t, m, vals)
       case Apply(i) => i <= k
       case _ => true
  }

  /** The first `k` operations were applied and nothing else, and the stored state agrees with
      what the assertions say about the documents as they were. */
  ghost predicate Applied_(t: Txn, m: Matches, vals: Vals, w: World, k: nat)
    requires HasKeys(t, vals)
  {
    && k <= |t.ops| && w.vals == After(vals, t.ops, k)
    && match w.sys.rec.s
       case Applying => w.sys.rec.r == Plan(t, vals) && AllCheck(t, m, vals)
       case Applied => k == |t.ops| && w.sys.rec.r == Plan(t, vals) && AllCheck(t, m, vals)
       case Aborting => k == 0 && !AllCheck(t, m, vals)
       case Aborted => k == 0 && !AllCheck(t, m, vals)
       case _ => k == 0
  }

  /** From prepared to applied the token of the transaction is in every queue. */
  ghost predicate TokensKept(t: Txn, w: World) {
    var s := w.sys.rec.s;
    s == Prepared || s == Applying || s == Applied ==> TokenTo(t, w.tokens, w.sys.rec.n, |t.keys|)
  }

  ghost predicate WorldInv(t: Txn, m: Matches, vals: Vals, w: World, k: nat)
    requires HasKeys(t, vals)
  {
    && Inv(t, w.sys) && w.tokens.Keys == vals.Keys
    && Applied_(t, m, vals, w, k)
    && TokensKept(t, w)
    && (forall a :: a in w.sys.copies ==> RunnerOk(t, m, vals, w.sys.rec.s, w.tokens, k, w.sys.copies[a]))
  }

  lemma KeysCover(t: Txn, vals: Vals)
    requires HasKeys(t, vals)
    ensures Covers(vals, t.ops)
  {
  }

  // --- Steps --------------------------------------------------------------------------------

  /** A runner that does not move keeps what it knows. */
  lemma OtherRunner(t: Txn, m: Matches, vals: Vals, rec: Rec, rec': Rec, tokens: map<Key, set<Nonce>>,
                    tokens': map<Key, set<Nonce>>, k: nat, k': nat, c: Copy)
    requires HasKeys(t, vals) && RunnerOk(t, m, vals, rec.s, tokens, k, c) && k <= k' <= |t.ops|
    requires StateLeq(rec.s, rec'.s) && CopyOk(t, rec, c)
    requires rec'.s == Preparing ==> forall d :: d in tokens ==> d in tokens' && tokens[d] <= tokens'[d]
    ensures RunnerOk(t, m, vals, rec'.s, tokens', k', c)
  {
    hide AllCheck, ChecksTo, Plan;
  }

  /** Only the entries of the operations' own documents matter to what is assembled. */
  lemma {:induction false} AssembledSame(ops: seq<Op>, a: map<Key, int>, b: map<Key, int>)
    requires forall i :: 0 <= i < |ops| ==> ops[i].key in a && ops[i].key in b && a[ops[i].key] == b[ops[i].key]
    ensures Assembled(ops, a) == Assembled(ops, b)
  {
    if ops != [] {
      var d := ops[0].key;
      AssembledSame(ops[1..], a[d := NextRevno(ops[0], a[d])], b[d := NextRevno(ops[0], b[d])]);
    }
  }

  /** Whoever read all documents early assembles the plan. */
  lemma ReadAllPlans(t: Txn, vals: Vals, found: map<Key, int>)
    requires HasKeys(t, vals) && ReadTo(t, vals, true, |t.keys|, found)
    ensures Complete(t, found) && Assembled(t.ops, found) == Plan(t, vals)
  {
    ReadAllCompletes(t, vals, true, found);
    AssembledSame(t.ops, found, Revnos(vals));
  }

  lemma ReadAllCompletes(t: Txn, vals: Vals, early: bool, found: map<Key, int>)
    requires HasKeys(t, vals) && ReadTo(t, vals, early, |t.keys|, found)
    ensures Complete(t, found)
  {
    forall i | 0 <= i < |t.ops| ensures t.ops[i].key in found {
      var j :| 0 <= j < |t.keys| && t.keys[j] == t.ops[i].key;
      assert t.keys[j] in found;
    }
  }

  /** Steps that change neither record nor documents. */
  ghost predicate Quiet(ev: Event) {
    !ev.Store? && !ev.Inject? && !ev.ApplyOp? && !ev.PullTokens?
  }

  lemma DecideStep(t: Txn, m: Matches, vals: Vals, w: World, k: nat, c: Copy, ev: Event, c': Copy)
    requires HasKeys(t, vals) && Applied_(t, m, vals, w, k) && CopyOk(t, w.sys.rec, c)
    requires RunnerOk(t, m, vals, w.sys.rec.s, w.tokens, k, c)
    requires c.pc.Decide? || c.pc.Rescan?
    requires WorkStep(t, c, ev, c') && DocStep(t, m, w, c, ev, w) && TokensKept(t, w)
    ensures RunnerOk(t, m, vals, w.sys.rec.s, w.tokens, k, c')
  {
    hide Plan, AllCheck;
    if Early(w.sys.rec.s) && ev.Found? && (c.pc.Decide? || c.pc.k == |t.keys|) {
      ReadAllPlans(t, vals, c.pc.found);
    }
  }

  lemma AssertStep(t: Txn, m: Matches, vals: Vals, w: World, k: nat, c: Copy, ev: Event, c': Copy)
    requires HasKeys(t, vals) && Applied_(t, m, vals, w, k) && CopyOk(t, w.sys.rec, c)
    requires RunnerOk(t, m, vals, w.sys.rec.s, w.tokens, k, c)
    requires c.pc.Assert?
    requires WorkStep(t, c, ev, c') && DocStep(t, m, w, c, ev, w)
    ensures RunnerOk(t, m, vals, w.sys.rec.s, w.tokens, k, c')
  {
    hide Plan, Checks;
    if Early(w.sys.rec.s) && ev.Check? {
      assert w.vals == vals;
    }
  }

  /** The steps that compare documents. */
  predicate Compares(pc: Pc, ev: Event) {
    (pc.Decide? || pc.Rescan? || pc.Assert?) && (ev.Found? || ev.ReadDoc? || ev.DocGone? || ev.Check?)
  }

  lemma PlainStep(t: Txn, m: Matches, vals: Vals, w: World, k: nat, c: Copy, ev: Event, rec': Rec, c': Copy)
    requires HasKeys(t, vals) && Applied_(t, m, vals, w, k) && CopyOk(t, w.sys.rec, c)
    requires RunnerOk(t, m, vals, w.sys.rec.s, w.tokens, k, c)
    requires Quiet(ev) && !Compares(c.pc, ev) && CopyStep(t, w.sys.rec, c, ev, rec', c') && DocStep(t, m, w, c, ev, w)
    ensures RunnerOk(t, m, vals, w.sys.rec.s, w.tokens, k, c')
  {
    hide Plan, AllCheck, ChecksTo;
  }

  lemma QuietStep(t: Txn, m: Matches, vals: Vals, w: World, k: nat, c: Copy, ev: Event, rec': Rec, c': Copy)
    requires HasKeys(t, vals) && WorldInv(t, m, vals, w, k) && CopyOk(t, w.sys.rec, c)
    requires RunnerOk(t, m, vals, w.sys.rec.s, w.tokens, k, c)
    requires Quiet(ev) && CopyStep(t, w.sys.rec, c, ev, rec', c') && DocStep(t, m, w, c, ev, w)
    ensures rec' == w.sys.rec && RunnerOk(t, m, vals, w.sys.rec.s, w.tokens, k, c')
  {
    hide Plan, AllCheck, TokensKept, RunnerOk, DocStep, Applied_, CopyOk, WorkStep;
    if !Compares(c.pc, ev) {
      PlainStep(t, m, vals, w, k, c, ev, rec', c');
    } else if c.pc.Assert? {
      AssertStep(t, m, vals, w, k, c, ev, c');
    } else {
      DecideStep(t, m, vals, w, k, c, ev, c');
    }
  }

  lemma InjectStep(t: Txn, m: Matches, vals: Vals, w: World, k: nat, c: Copy, ev: Event, rec': Rec, c': Copy, w': World)
    requires HasKeys(t, vals) && Applied_(t, m, vals, w, k) && CopyOk(t, w.sys.rec, c) && TokensKept(t, w)
    requires RunnerOk(t, m, vals, w.sys.rec.s, w.tokens, k, c) && w.tokens.Keys == vals.Keys
    requires ev.Inject? && CopyStep(t, w.sys.rec, c, ev, rec', c') && DocStep(t, m, w, c, ev, w')
    requires w'.sys.rec == rec'
    ensures rec' == w.sys.rec && w'.vals == w.vals && w'.tokens.Keys == vals.Keys
    ensures forall d :: d in w.tokens ==> w.tokens[d] <= w'.tokens[d]
    ensures RunnerOk(t, m, vals, rec'.s, w'.tokens, k, c') && TokensKept(t, w')
  {
    hide Plan, AllCheck, ChecksTo;
  }

  lemma PullStep(t: Txn, m: Matches, vals: Vals, w: World, k: nat, c: Copy, ev: Event, rec': Rec, c': Copy, w': World)
    requires HasKeys(t, vals) && CopyOk(t, w.sys.rec, c) && RunnerOk(t, m, vals, w.sys.rec.s, w.tokens, k, c)
    requires ev.PullTokens? && CopyStep(t, w.sys.rec, c, ev, rec', c') && DocStep(t, m, w, c, ev, w')
    requires w'.sys.rec == rec'
    ensures rec' == w.sys.rec && w'.vals == w.vals && w'.tokens.Keys == w.tokens.Keys
    ensures RunnerOk(t, m, vals, rec'.s, w'.tokens, k, c') && TokensKept(t, w') && rec'.s != Preparing
  {
    hide Plan, AllCheck, ChecksTo, TokenTo;
  }

  /** What was applied is not applied again: the document has moved past the recorded revision. */
  lemma NotTwice(t: Txn, vals: Vals, i: nat, k: nat)
    requires HasKeys(t, vals) && i < k <= |t.ops| && t.ops[i].change.Update? && Plan(t, vals)[i] >= 0
    ensures After(vals, t.ops, k)[t.ops[i].key].revno != Plan(t, vals)[i]
  {
    hide After;
    KeysCover(t, vals);
    AssembledPredicts(t.ops, vals, i);
    RevnoMoved(vals, t.ops, i, k);
  }

  /** One update: it brings the documents one operation further, or finds them there. */
  lemma ApplyOne(t: Txn, m: Matches, vals: Vals, w: World, k: nat, i: nat, w': World) returns (k': nat)
    requires HasKeys(t, vals) && k <= |t.ops| && w.vals == After(vals, t.ops, k)
    requires TokenTo(t, w.tokens, w.sys.rec.n, |t.keys|) && i <= k && i < |t.ops|
    requires ApplyDoc(t.ops[i], Plan(t, vals)[i], w.sys.rec.n, w, w')
    ensures k' == (if i == k then k + 1 else k) && k' <= |t.ops|
    ensures w'.vals == After(vals, t.ops, k')
    ensures w'.tokens.Keys == w.tokens.Keys && TokenTo(t, w'.tokens, w.sys.rec.n, |t.keys|)
  {
    hide After, Plan, ApplyDoc, TokenTo;
    KeysCover(t, vals);
    ApplyTokens(t, w, i, Plan(t, vals)[i], w');
    if i < k {
      k' := k;
      ApplyAgain(t, vals, w, k, i, w');
    } else {
      k' := k + 1;
      ApplyDue(t, vals, w, k, w');
    }
  }

  /** No step of applying takes the token of the transaction out. */
  lemma ApplyTokens(t: Txn, w: World, i: nat, revno: int, w': World)
    requires UpdatesOnly(t) && i < |t.ops| && TokenTo(t, w.tokens, w.sys.rec.n, |t.keys|)
    requires ApplyDoc(t.ops[i], revno, w.sys.rec.n, w, w')
    ensures w'.tokens.Keys == w.tokens.Keys && TokenTo(t, w'.tokens, w.sys.rec.n, |t.keys|)
    ensures t.ops[i].key in w.tokens && w.sys.rec.n in w.tokens[t.ops[i].key]
  {
    var j :| 0 <= j < |t.keys| && t.keys[j] == t.ops[i].key;
  }

  lemma ApplyAgain(t: Txn, vals: Vals, w: World, k: nat, i: nat, w': World)
    requires HasKeys(t, vals) && i < k <= |t.ops| && w.vals == After(vals, t.ops, k)
    requires ApplyDoc(t.ops[i], Plan(t, vals)[i], w.sys.rec.n, w, w')
    ensures w'.vals == w.vals
  {
    hide After, Plan;
    if t.ops[i].change.Update? && Plan(t, vals)[i] >= 0 {
      NotTwice(t, vals, i, k);
    }
  }

  lemma ApplyDue(t: Txn, vals: Vals, w: World, k: nat, w': World)
    requires HasKeys(t, vals) && k < |t.ops| && w.vals == After(vals, t.ops, k)
    requires t.ops[k].key in w.tokens && w.sys.rec.n in w.tokens[t.ops[k].key]
    requires ApplyDoc(t.ops[k], Plan(t, vals)[k], w.sys.rec.n, w, w')
    ensures w'.vals == After(vals, t.ops, k + 1)
  {
    KeysCover(t, vals);
    var op := t.ops[k];
    AssembledPredicts(t.ops, vals, k);
    if !(op.change.Update? && Plan(t, vals)[k] >= 0) {
      assert Effect(op, w.vals[op.key]) == w.vals[op.key];
    }
  }

  lemma ApplyStep(t: Txn, m: Matches, vals: Vals, w: World, k: nat, c: Copy, ev: Event, rec': Rec, c': Copy, w': World)
      returns (k': nat)
    requires HasKeys(t, vals) && WorldInv(t, m, vals, w, k) && CopyOk(t, w.sys.rec, c)
    requires RunnerOk(t, m, vals, w.sys.rec.s, w.tokens, k, c)
    requires ev.ApplyOp? && CopyStep(t, w.sys.rec, c, ev, rec', c') && DocStep(t, m, w, c, ev, w')
    requires w'.sys.rec == rec'
    ensures rec' == w.sys.rec && k <= k' && Applied_(t, m, vals, w', k') && w'.tokens.Keys == vals.Keys
    ensures RunnerOk(t, m, vals, rec'.s, w'.tokens, k', c') && TokensKept(t, w') && rec'.s != Preparing
  {
    hide AllCheck, ChecksTo, ApplyDoc, TokenTo, After, Plan;
    k' := ApplyOne(t, m, vals, w, k, c.pc.i, w');
  }

  lemma WriteStep(t: Txn, m: Matches, vals: Vals, w: World, k: nat, c: Copy, ev: Event, rec': Rec, c': Copy, w': World)
    requires HasKeys(t, vals) && WorldInv(t, m, vals, w, k) && CopyOk(t, w.sys.rec, c)
    requires RunnerOk(t, m, vals, w.sys.rec.s, w.tokens, k, c)
    requires ev.Store? && CopyStep(t, w.sys.rec, c, ev, rec', c') && DocStep(t, m, w, c, ev, w')
    requires w'.sys.rec == rec'
    ensures Applied_(t, m, vals, w', k) && w'.vals == w.vals && w'.tokens == w.tokens
    ensures RunnerOk(t, m, vals, rec'.s, w'.tokens, k, c') && TokensKept(t, w')
  {
    hide AllCheck, ChecksTo, TokenTo, After, Plan;
  }

  lemma MoverStep(t: Txn, m: Matches, vals: Vals, w: World, k: nat, a: Agent, ev: Event, w': World) returns (k': nat)
    requires HasKeys(t, vals) && WorldInv(t, m, vals, w, k)
    requires Moves(t, w.sys, a, ev, w'.sys) && DocStep(t, m, w, w.sys.copies[a], ev, w')
    ensures k <= k' && Applied_(t, m, vals, w', k') && TokensKept(t, w') && w'.tokens.Keys == vals.Keys
    ensures RunnerOk(t, m, vals, w'.sys.rec.s, w'.tokens, k', w'.sys.copies[a])
    ensures w'.sys.rec.s == Preparing ==>
              forall d :: d in w.tokens ==> d in w'.tokens && w.tokens[d] <= w'.tokens[d]
  {
    hide RunnerOk, CopyStep, DocStep, Applied_, TokensKept, WorldInv;
    var c, c', rec' := w.sys.copies[a], w'.sys.copies[a], w'.sys.rec;
    WorldParts(t, m, vals, w, k, a);
    k' := k;
    if ev.Inject? {
      InjectStep(t, m, vals, w, k, c, ev, rec', c', w');
      SameApplied(t, m, vals, w, w', k);
    } else if ev.PullTokens? {
      PullStep(t, m, vals, w, k, c, ev, rec', c', w');
      SameApplied(t, m, vals, w, w', k);
    } else if ev.ApplyOp? {
      k' := ApplyStep(t, m, vals, w, k, c, ev, rec', c', w');
    } else if ev.Store? {
      WriteStep(t, m, vals, w, k, c, ev, rec', c', w');
    } else {
      QuietDocs(t, m, w, c, ev, w');
      QuietStep(t, m, vals, w, k, c, ev, rec', c');
      SameApplied(t, m, vals, w, w', k);
      SameTokens(t, w, w');
    }
  }

  lemma WorldParts(t: Txn, m: Matches, vals: Vals, w: World, k: nat, a: Agent)
    requires HasKeys(t, vals) && WorldInv(t, m, vals, w, k) && a in w.sys.copies
    ensures Inv(t, w.sys) && CopyOk(t, w.sys.rec, w.sys.copies[a]) && w.tokens.Keys == vals.Keys
    ensures Applied_(t, m, vals, w, k) && TokensKept(t, w)
    ensures RunnerOk(t, m, vals, w.sys.rec.s, w.tokens, k, w.sys.copies[a])
  {
    hide RunnerOk, Applied_, TokensKept, CopyOk;
  }

  lemma SameApplied(t: Txn, m: Matches, vals: Vals, w: World, w': World, k: nat)
    requires HasKeys(t, vals) && Applied_(t, m, vals, w, k) && w'.vals == w.vals && w'.sys.rec == w.sys.rec
    ensures Applied_(t, m, vals, w', k)
  {
    hide AllCheck, After, Plan;
  }

  lemma SameTokens(t: Txn, w: World, w': World)
    requires TokensKept(t, w) && w'.tokens == w.tokens && w'.sys.rec == w.sys.rec
    ensures TokensKept(t, w')
  {
  }

  lemma QuietDocs(t: Txn, m: Matches, w: World, c: Copy, ev: Event, w': World)
    requires Quiet(ev) && DocStep(t, m, w, c, ev, w')
    ensures w'.vals == w.vals && w'.tokens == w.tokens && DocStep(t, m, w, c, ev, w)
  {
  }

  lemma WorldKeeps(t: Txn, m: Matches, vals: Vals, w: World, k: nat, w': World) returns (k': nat)
    requires HasKeys(t, vals) && WorldInv(t, m, vals, w, k) && WorldNext(t, m, w, w')
    ensures WorldInv(t, m, vals, w', k')
  {
    hide RunnerOk, CopyStep, DocStep, Applied_, TokensKept, CopyOk, Inv, Joins;
    SysKeeps(t, m, w, w');
    if a, old_ :| Joins(w.sys, a, old_, w'.sys) && w'.vals == w.vals && w'.tokens == w.tokens {
      k' := k;
      assert RunnerOk(t, m, vals, w.sys.rec.s, w.tokens, k, Reloaded(old_, Top)) by {
        JoinsKnows(t, m, vals, w, k, a, old_, w'.sys);
      }
      JoinsCopies(w.sys, a, old_, w'.sys);
      JoinsRecord(w.sys, a, old_, w'.sys);
      SameApplied(t, m, vals, w, w', k);
      SameTokens(t, w, w');
    } else {
      var a, ev :| Moves(t, w.sys, a, ev, w'.sys) && DocStep(t, m, w, w.sys.copies[a], ev, w');
      k' := MoverStep(t, m, vals, w, k, a, ev, w');
      MovesCopies(t, w.sys, a, ev, w'.sys);
      forall b | b in w'.sys.copies ensures RunnerOk(t, m, vals, w'.sys.rec.s, w'.tokens, k', w'.sys.copies[b]) {
        if b != a {
          WorldParts(t, m, vals, w, k, b);
          AppliedBound(t, m, vals, w', k');
          OtherRunner(t, m, vals, w.sys.rec, w'.sys.rec, w.tokens, w'.tokens, k, k', w.sys.copies[b]);
        }
      }
    }
  }

  lemma SysKeeps(t: Txn, m: Matches, w: World, w': World)
    requires Inv(t, w.sys) && WorldNext(t, m, w, w')
    ensures Inv(t, w'.sys) && StateLeq(w.sys.rec.s, w'.sys.rec.s)
  {
    hide Inv, CopyStep, DocStep, Joins;
    assert Next(t, w.sys, w'.sys);
    NextKeeps(t, w.sys, w'.sys);
  }

  lemma JoinsKnows(t: Txn, m: Matches, vals: Vals, w: World, k: nat, a: Agent, old_: Rec, s': Sys)
    requires HasKeys(t, vals) && Inv(t, w.sys) && Applied_(t, m, vals, w, k) && Joins(w.sys, a, old_, s')
    ensures RunnerOk(t, m, vals, w.sys.rec.s, w.tokens, k, Reloaded(old_, Top))
  {
    hide AllCheck, ChecksTo, Plan, After;
    assert Leq(old_, w.sys.rec);
  }

  lemma JoinsRecord(s: Sys, a: Agent, old_: Rec, s': Sys)
    requires Joins(s, a, old_, s')
    ensures s'.rec == s.rec
  {
  }

  lemma MovesCopies(t: Txn, s: Sys, a: Agent, ev: Event, s': Sys)
    requires Moves(t, s, a, ev, s')
    ensures a in s.copies && a in s'.copies && s'.copies == s.copies[a := s'.copies[a]]
  {
    hide CopyStep;
  }

  lemma AppliedBound(t: Txn, m: Matches, vals: Vals, w: World, k: nat)
    requires HasKeys(t, vals) && Applied_(t, m, vals, w, k)
    ensures k <= |t.ops|
  {
  }

  lemma {:induction false} WorldRunInv(t: Txn, m: Matches, vals: Vals, run: seq<World>, i: nat) returns (k: nat)
    requires UpdatesOnly(t) && IsWorldRun(t, m, vals, run) && i < |run|
    ensures HasKeys(t, vals) && WorldInv(t, m, vals, run[i], k)
  {
    hide WorldNext, WorldInv;
    if i == 0 {
      k := 0;
      WorldInitInv(t, m, vals, run[0]);
    } else {
      var k0 := WorldRunInv(t, m, vals, run, i - 1);
      assert WorldNext(t, m, run[i - 1], run[i - 1 + 1]);
      k := WorldKeeps(t, m, vals, run[i - 1], k0, run[i]);
    }
  }

  lemma WorldInitInv(t: Txn, m: Matches, vals: Vals, w: World)
    requires UpdatesOnly(t) && WorldInit(t, vals, w)
    ensures HasKeys(t, vals) && WorldInv(t, m, vals, w, 0)
  {
    InitInv(t, w.sys);
    KeysCover(t, vals);
  }

  // --- What the assertions mean -------------------------------------------------------------

  /** What an assertion asks of the document as it was before the transaction. */
  ghost predicate Wanted(m: Matches, op: Op, v: Val) {
    match op.assertion
    case NoAssert => true
    case DocMissing => !v.Live()
    case DocExists => v.Live()
    case Query(q) => v.Live() && m(q, v.content)
  }

  ghost predicate AllWanted(t: Txn, m: Matches, vals: Vals)
    requires HasKeys(t, vals)
  {
    forall i :: 0 <= i < |t.ops| ==> Wanted(m, t.ops[i], vals[t.ops[i].key])
  }

  lemma {:induction false} Untouched(vals: Vals, ops: seq<Op>, k: nat, d: Key)
    requires k <= |ops| && Covers(vals, ops) && d in vals
    requires forall j :: 0 <= j < k ==> ops[j].key != d
    ensures After(vals, ops, k)[d] == vals[d]
  {
    if k > 0 { Untouched(vals, ops, k - 1, d); }
  }

  /** The updates of the first `k` operations to a document, in the order of the operations. */
  ghost function UpdatesTo(ops: seq<Op>, k: nat, d: Key): Content
    requires k <= |ops|
  {
    if k == 0 then []
    else UpdatesTo(ops, k - 1, d) +
         if ops[k - 1].key == d && ops[k - 1].change.Update? then [ops[k - 1].change.with] else []
  }

  /** A document that exists receives each of its updates once, in order; a missing one none. */
  lemma {:induction false} ContentAfter(t: Txn, vals: Vals, k: nat, d: Key)
    requires HasKeys(t, vals) && k <= |t.ops| && d in vals && Covers(vals, t.ops)
    ensures After(vals, t.ops, k)[d].Live() == vals[d].Live()
    ensures After(vals, t.ops, k)[d].content == vals[d].content + if vals[d].Live() then UpdatesTo(t.ops, k, d) else []
    ensures After(vals, t.ops, k)[d].revno == vals[d].revno + if vals[d].Live() then |UpdatesTo(t.ops, k, d)| else 0
    ensures !vals[d].Live() ==> After(vals, t.ops, k)[d] == vals[d]
  {
    if k > 0 { ContentAfter(t, vals, k - 1, d); }
  }

  lemma ChecksMeaning(t: Txn, m: Matches, vals: Vals, i: nat)
    requires HasKeys(t, vals) && i < |t.ops|
    ensures Checks(m, t.ops, i, Plan(t, vals), vals) <==> Wanted(m, t.ops[i], vals[t.ops[i].key])
  {
    hide After, Assembled;
    KeysCover(t, vals);
    var d := t.ops[i].key;
    var f := First(t.ops, i);
    AssembledPredicts(t.ops, vals, f);
    Untouched(vals, t.ops, f, d);
    AssembledPredicts(t.ops, vals, i);
    ContentAfter(t, vals, i, d);
  }

  lemma AllChecksMeaning(t: Txn, m: Matches, vals: Vals)
    requires HasKeys(t, vals)
    ensures AllCheck(t, m, vals) <==> AllWanted(t, m, vals)
  {
    hide Checks, Wanted, Plan;
    forall i | 0 <= i < |t.ops|
      ensures Checks(m, t.ops, i, Plan(t, vals), vals) <==> Wanted(m, t.ops[i], vals[t.ops[i].key])
    {
      ChecksMeaning(t, m, vals, i);
    }
  }

  // --- The theorems -------------------------------------------------------------------------

  /** All or nothing, at every moment of every run: as long as the record is not applying the
      documents are as they were; while it is, they are as after some number of the operations in
      order; once it is applied, as after all. It applies only if all assertions held of the
      documents as they were, and aborts only if one did not. */
  lemma AllOrNothing(t: Txn, m: Matches, vals: Vals, run: seq<World>, i: nat) returns (k: nat)
    requires UpdatesOnly(t) && IsWorldRun(t, m, vals, run) && i < |run|
    ensures HasKeys(t, vals) && k <= |t.ops| && Covers(vals, t.ops)
    ensures run[i].vals == After(vals, t.ops, k)
    ensures match run[i].sys.rec.s
            case Applying => AllWanted(t, m, vals)
            case Applied => k == |t.ops| && AllWanted(t, m, vals)
            case Aborting => k == 0 && !AllWanted(t, m, vals)
            case Aborted => k == 0 && !AllWanted(t, m, vals)
            case _ => k == 0
  {
    k := WorldRunInv(t, m, vals, run, i);
    hide AllWanted, AllCheck, RunnerOk, Inv;
    AllChecksMeaning(t, m, vals);
  }

  /** What a runner reports: applied only when every update was made, each once and in order, and
      aborted only when nothing was changed. */
  lemma ReportedOutcome(t: Txn, m: Matches, vals: Vals, run: seq<World>, i: nat, a: Agent, d: Key)
    requires UpdatesOnly(t) && IsWorldRun(t, m, vals, run) && i < |run|
    requires a in run[i].sys.copies && run[i].sys.copies[a].pc == Returned && d in vals
    ensures HasKeys(t, vals) && d in run[i].vals
    ensures run[i].sys.copies[a].s == (if AllWanted(t, m, vals) then Applied else Aborted)
    ensures AllWanted(t, m, vals) && vals[d].Live() ==>
              run[i].vals[d].content == vals[d].content + UpdatesTo(t.ops, |t.ops|, d)
    ensures !AllWanted(t, m, vals) || !vals[d].Live() ==> run[i].vals[d] == vals[d]
  {
    var k := WorldRunInv(t, m, vals, run, i);
    ReturnedKnows(t, m, vals, run[i], k, a);
    hide WorldInv, AllWanted;
    var k2 := AllOrNothing(t, m, vals, run, i);
    ContentAfter(t, vals, |t.ops|, d);
  }

  lemma ReturnedKnows(t: Txn, m: Matches, vals: Vals, w: World, k: nat, a: Agent)
    requires HasKeys(t, vals) && WorldInv(t, m, vals, w, k) && a in w.sys.copies && w.sys.copies[a].pc == Returned
    ensures w.sys.copies[a].s == Applied || w.sys.copies[a].s == Aborted
    ensures w.sys.copies[a].s == Applied ==>
              (w.sys.rec.s == Applying || w.sys.rec.s == Applied) && w.vals == After(vals, t.ops, |t.ops|)
    ensures w.sys.copies[a].s == Aborted ==> w.sys.rec.s == Aborted && w.vals == vals
  {
    hide AllCheck, Plan;
    assert CopyOk(t, w.sys.rec, w.sys.copies[a]);
    assert RunnerOk(t, m, vals, w.sys.rec.s, w.tokens, k, w.sys.copies[a]);
  }

  /** A runner found a document without the token, and cannot reload the transaction. */
  ghost predicate ReloadFails(t: Txn, w: World, a: Agent, w': World) {
    a in w.sys.copies && w.sys.copies[a].pc == RescanLost && Moves(t, w.sys, a, Fail, w'.sys)
  }

  /** The documents of a prepared transaction never lose its token. So a runner has panicked exactly
      when it found a document without the token and its reload then failed. By that time somebody
      else had already decided whether the transaction is applied. */
  lemma PanicsExactlyWhen(t: Txn, m: Matches, vals: Vals, run: seq<World>, i: nat, a: Agent)
    requires UpdatesOnly(t) && IsWorldRun(t, m, vals, run) && i < |run| && a in run[i].sys.copies
    ensures run[i].sys.copies[a].pc == Panic <==> exists j :: 0 <= j < i && ReloadFails(t, run[j], a, run[j + 1])
    ensures run[i].sys.copies[a].pc == Panic ==> !Early(run[i].sys.rec.s)
  {
    hide Moves, WorldNext, WorldInit, Next, Init, TxnProtocol.PanicStep, StateLeq;
    var systems := Systems(t, m, vals, run);
    TxnProtocol.PanicsExactlyWhen(t, systems, i, a);
    forall j | 0 <= j < i ensures TxnProtocol.PanicStep(t, systems[j], a, systems[j + 1]) <==> ReloadFails(t, run[j], a, run[j + 1]) {
      PanicIsFailedReload(t, m, vals, run, j, a);
    }
    if run[i].sys.copies[a].pc == Panic {
      var j :| 0 <= j < i && ReloadFails(t, run[j], a, run[j + 1]);
      DecidedBefore(t, m, vals, run, j, a);
      RecordLifecycle(t, systems, j, i);
      StaysDecided(run[j].sys.rec, run[i].sys.rec);
    }
  }

  lemma Systems(t: Txn, m: Matches, vals: Vals, run: seq<World>) returns (systems: seq<Sys>)
    requires IsWorldRun(t, m, vals, run)
    ensures |systems| == |run| && IsRun(t, systems)
    ensures forall j :: 0 <= j < |run| ==> systems[j] == run[j].sys
  {
    systems := seq(|run|, j requires 0 <= j < |run| => run[j].sys);
    forall j | 0 <= j < |systems| - 1 ensures Next(t, systems[j], systems[j + 1]) {
      assert WorldNext(t, m, run[j], run[j + 1]);
      WorldNextIsNext(t, m, run[j], run[j + 1]);
    }
  }

  lemma StaysDecided(rec: Rec, rec': Rec)
    requires Leq(rec, rec') && !Early(rec.s)
    ensures !Early(rec'.s)
  {
  }

  /** Who finds the token gone is late: the transaction is not prepared any more. */
  lemma DecidedBefore(t: Txn, m: Matches, vals: Vals, run: seq<World>, j: nat, a: Agent)
    requires UpdatesOnly(t) && IsWorldRun(t, m, vals, run) && j < |run|
    requires a in run[j].sys.copies && run[j].sys.copies[a].pc == RescanLost
    ensures !Early(run[j].sys.rec.s) && !LostToken(run[j].sys.rec, run[j].sys.copies[a])
  {
    var k := WorldRunInv(t, m, vals, run, j);
    assert RunnerOk(t, m, vals, run[j].sys.rec.s, run[j].tokens, k, run[j].sys.copies[a]);
    assert CopyOk(t, run[j].sys.rec, run[j].sys.copies[a]);
  }

  lemma PanicIsFailedReload(t: Txn, m: Matches, vals: Vals, run: seq<World>, j: nat, a: Agent)
    requires UpdatesOnly(t) && IsWorldRun(t, m, vals, run) && j < |run| - 1
    ensures TxnProtocol.PanicStep(t, run[j].sys, a, run[j + 1].sys) <==> ReloadFails(t, run[j], a, run[j + 1])
  {
    hide Moves, WorldNext, WorldInit;
    if a in run[j].sys.copies && run[j].sys.copies[a].pc == RescanLost {
      DecidedBefore(t, m, vals, run, j, a);
    }
  }

  lemma WorldNextIsNext(t: Txn, m: Matches, w: World, w': World)
    requires WorldNext(t, m, w, w')
    ensures Next(t, w.sys, w'.sys)
  {
    hide CopyStep, DocStep;
  }

  // --- A run into the panic -----------------------------------------------------------------

  /** Document 0 exists, and the only operation asserts that it does not. */
  const PANIC_TXN := Txn([Op(0, NoChange, DocMissing)], [0])
  const PANIC_VALS: Vals := map[0 := Val(0, [])]

  ghost predicate IsPanicRun(m: Matches, run: seq<World>) {
    IsWorldRun(PANIC_TXN, m, PANIC_VALS, run)
  }

  function Last(run: seq<World>): World
    requires run != []
  {
    run[|run| - 1]
  }

  /** The world after a step of runner `a` that leaves record `rec`, copy `c` and these tokens. */
  function Moved(w: World, a: Agent, rec: Rec, c: Copy, tokens: set<Nonce>): World {
    World(Sys(rec, w.sys.past + {rec}, w.sys.copies[a := c]), w.vals, map[0 := tokens])
  }

  /** The run goes on with a step of runner `a`, the answers being `ev`. */
  lemma GoesOn(m: Matches, run: seq<World>, a: Agent, ev: Event, rec: Rec, c: Copy, tokens: set<Nonce>) returns (run': seq<World>)
    requires IsPanicRun(m, run) && a in Last(run).sys.copies
    requires CopyStep(PANIC_TXN, Last(run).sys.rec, Last(run).sys.copies[a], ev, rec, c)
    requires DocStep(PANIC_TXN, m, Last(run), Last(run).sys.copies[a], ev, Moved(Last(run), a, rec, c, tokens))
    ensures IsPanicRun(m, run') && Last(run') == Moved(Last(run), a, rec, c, tokens)
  {
    hide CopyStep, DocStep, WorldInit;
    var w := Moved(Last(run), a, rec, c, tokens);
    run' := run + [w];
    assert Moves(PANIC_TXN, Last(run).sys, a, ev, w.sys);
    Longer(m, run, w);
  }

  lemma Longer(m: Matches, run: seq<World>, w: World)
    requires IsPanicRun(m, run) && WorldNext(PANIC_TXN, m, Last(run), w)
    ensures IsPanicRun(m, run + [w])
  {
    hide WorldInit, WorldNext;
    var run' := run + [w];
    forall i | 0 <= i < |run'| - 1 ensures WorldNext(PANIC_TXN, m, run'[i], run'[i + 1]) {
      if i < |run| - 1 { assert WorldNext(PANIC_TXN, m, run[i], run[i + 1]); }
    }
  }

  lemma Comes(m: Matches, run: seq<World>, a: Agent) returns (run': seq<World>)
    requires IsPanicRun(m, run) && a !in Last(run).sys.copies && Last(run).sys.rec in Last(run).sys.past
    ensures IsPanicRun(m, run')
    ensures var w := Last(run); Last(run') == w.(sys := w.sys.(copies := w.sys.copies[a := Reloaded(w.sys.rec, Top)]))
  {
    hide WorldInit;
    var w := Last(run);
    var w' := w.(sys := w.sys.(copies := w.sys.copies[a := Reloaded(w.sys.rec, Top)]));
    run' := run + [w'];
    assert Joins(w.sys, a, w.sys.rec, w'.sys);
    Longer(m, run, w');
  }

  const PREPARED := Rec(Prepared, "n", [])
  const ABORTING := Rec(Aborting, "n", [])

  /** Where the run stands: the record, the tokens of the document, and the copies. */
  ghost predicate StandsAt(m: Matches, run: seq<World>, rec: Rec, tokens: set<Nonce>, copies: map<Agent, Copy>) {
    && IsPanicRun(m, run) && Last(run).vals == PANIC_VALS && Last(run).tokens == map[0 := tokens]
    && Last(run).sys.rec == rec && rec in Last(run).sys.past && Last(run).sys.copies == copies
  }

  /** The first runner puts its token into the document. */
  lemma RunInjects(m: Matches) returns (run: seq<World>)
    ensures StandsAt(m, run, NEW_REC, {"n"}, map[0 := Reloaded(NEW_REC, Queue("n", 1, map[0 := 0]))])
  {
    run := [World(Sys(NEW_REC, {NEW_REC}, map[]), PANIC_VALS, map[0 := {}])];
    assert IsPanicRun(m, run);
    hide IsPanicRun;
    run := Comes(m, run, 0);
    run := GoesOn(m, run, 0, Switch("n"), NEW_REC, Reloaded(NEW_REC, Queue("n", 0, map[])), {});
    var none: set<Nonce> := {};
    assert none + {"n"} == {"n"};
    run := GoesOn(m, run, 0, Inject(0, 0), NEW_REC, Reloaded(NEW_REC, Queue("n", 1, map[0 := 0])), {"n"});
  }

  /** It prepares the transaction, and a second runner comes. */
  lemma RunPrepares(m: Matches) returns (run: seq<World>)
    ensures StandsAt(m, run, PREPARED, {"n"},
      map[0 := Reloaded(PREPARED, Decide(map[0 := 0])), 1 := Reloaded(PREPARED, Rescan(0, map[], {}))])
  {
    hide IsPanicRun;
    run := RunInjects(m);
    run := GoesOn(m, run, 0, Event.Found(false), NEW_REC, Reloaded(NEW_REC, SavePrepared("n", map[0 := 0])), {"n"});
    run := GoesOn(m, run, 0, Store(true), PREPARED, Reloaded(PREPARED, Decide(map[0 := 0])), {"n"});
    run := Comes(m, run, 1);
    run := GoesOn(m, run, 1, Switch("n"), PREPARED, Reloaded(PREPARED, Rescan(0, map[], {})), {"n"});
  }

  /** The first one finds that the assertion does not hold. */
  lemma RunAsserts(m: Matches) returns (run: seq<World>)
    ensures StandsAt(m, run, PREPARED, {"n"},
      map[0 := Reloaded(PREPARED, SaveAborting([0])), 1 := Reloaded(PREPARED, Rescan(0, map[], {}))])
  {
    hide IsPanicRun;
    run := RunPrepares(m);
    AssembledOne();
    run := GoesOn(m, run, 0, Event.Found(false), PREPARED, Reloaded(PREPARED, Assert(0, [0])), {"n"});
    run := GoesOn(m, run, 0, Check(false), PREPARED, Reloaded(PREPARED, SaveAborting([0])), {"n"});
  }

  /** It aborts the transaction. */
  lemma RunAborts(m: Matches) returns (run: seq<World>)
    ensures StandsAt(m, run, ABORTING, {},
      map[0 := Reloaded(ABORTING, Pull(1, [0])), 1 := Reloaded(PREPARED, Rescan(0, map[], {}))])
  {
    hide IsPanicRun;
    run := RunAsserts(m);
    run := GoesOn(m, run, 0, Store(true), ABORTING, Reloaded(ABORTING, Pull(0, [0])), {"n"});
    run := GoesOn(m, run, 0, PullTokens, ABORTING, Reloaded(ABORTING, Pull(1, [0])), {});
  }

  lemma AssembledOne()
    ensures Assembled(PANIC_TXN.ops, map[0 := 0]) == [0]
  {
    assert PANIC_TXN.ops[1..] == [];
  }

  /** The panic is real: a runner comes late to a transaction that is being aborted, finds the
      document without the token, and loses its connection. */
  lemma PanicHappens(m: Matches) returns (run: seq<World>)
    ensures UpdatesOnly(PANIC_TXN) && IsWorldRun(PANIC_TXN, m, PANIC_VALS, run)
    ensures 1 in Last(run).sys.copies && Last(run).sys.copies[1].pc == Panic
  {
    assert PANIC_TXN.ops[0].key in PANIC_TXN.keys;
    run := RunAborts(m);
    run := GoesOn(m, run, 1, ReadDoc(0, 0, false), ABORTING, Reloaded(PREPARED, RescanLost), {});
    run := GoesOn(m, run, 1, Fail, ABORTING, Reloaded(PREPARED, Panic), {});
  }
}
