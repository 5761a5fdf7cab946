/** The accounting of a cursor (Iter in mgo.v2/session.go): documents that arrive in the background,
    requests for more that are made ahead of time, and a limit. Any number of consumers may call
    Next and sleep until a reply comes; the iterator is unlocked while a request for more gets its
    socket. All requests go over one socket. */
module Cursor {

  type Document = nat

  datatype Error = None | NotFound | CursorLost | Broken

  /** A request for more: none, being made (the iterator is unlocked) by a consumer that is going to
      sleep or not, or sent for `count` documents, 0 for as many as the server likes and a negative
      number for so many and no more. */
  datatype Request = Idle | Making(sleeps: bool) | Sent(count: int)

  /** The source's Iter and op fields, the consumers that sleep in Wait, the reply being received, and
      the documents that calls of Next took. They return them, but for a call that hangs in getMore. */
  datatype Iter = Iter(
    limit: nat,                    // how many may still be taken, 0 for no limit
    batch: int,                    // op.limit
    buffer: seq<Document>,         // docData
    toReceive: int,                // docsToReceive
    beforeMore: int,               // docsBeforeMore
    cursor: bool,                  // op.cursorId is not 0
    err: Error,
    panicked: bool,
    request: Request,
    arriving: seq<Document>,       // the rest of the reply that is being received
    sent: nat,                     // how many of the results the server has sent
    taken: seq<Document>,
    asleep: nat,
    cutOff: bool,                  // the connection broke within a reply
    deadlocked: bool)              // the iterator is locked for ever

  /** A query: its limit, the size of a batch, and its results in the server's order. */
  datatype Query = Query(limit: nat, batch: int, results: seq<Document>)

  /** What can happen next. */
  datatype Event =
    | Reply(n: nat, alive: bool, ahead: int)   // a reply of n documents starts; `ahead` comes from the prefetch ratio
    | Lost                                     // a reply that says the cursor is gone
    | Failed                                   // an error instead of a reply
    | Arrive                                   // one more document of a reply
    | Cut                                      // an error within a reply
    | Next                                     // a consumer calls Next, or wakes up in it
    | MakeRequest                              // getMore goes on with its socket
    | NoSocket
    | NotSent                                  // the request was not written well, but an answer is expected
    | Dead                                     // the socket is dead already
    | NotClosed                                // an error when the limit is used up and the cursor is closed

  function Start(q: Query): Iter {
    Iter(q.limit, q.batch, [], 1, 0, false, None, false, Sent(q.batch), [], 0, [], 0, false, false)
  }

  /** A server that honours the requested counts: it sends the next results, never more than asked
      for, and lets the cursor die only when everything was sent. A negative count gives all it
      asks for and closes the cursor. */
  ghost predicate Honours(q: Query, s: Iter, n: nat, alive: bool) {
    && s.request.Sent? && s.sent + n <= |q.results|
    && (s.request.count > 0 ==> n <= s.request.count && (alive || s.sent + n == |q.results|))
    && (s.request.count == 0 ==> alive || s.sent + n == |q.results|)
    && (s.request.count < 0 ==> !alive && n == if |q.results| - s.sent < -s.request.count then |q.results| - s.sent else -s.request.count)
  }

  /** replyFunc for the first document of a reply, or for an empty one. */
  function Replied(q: Query, s: Iter, n: nat, alive: bool, ahead: int): Iter
    requires s.sent + n <= |q.results|
  {
    if n == 0 then
      var s1 := s.(toReceive := s.toReceive - 1, request := Idle, asleep := 0);
      if alive then s1.(cursor := true) else s1.(err := NotFound)
    else
      var process := |s.buffer| + n;
      s.(toReceive := s.toReceive - 1 + (n - 1),
         beforeMore := if s.limit == 0 || process < s.limit then process - ahead else -1,
         cursor := alive, request := Idle, asleep := 0,
         buffer := s.buffer + [q.results[s.sent]], arriving := q.results[s.sent + 1..s.sent + n], sent := s.sent + n)
  }

  /** getMore up to the point where it unlocks the iterator. */
  function StartMore(s: Iter, sleeps: bool): Iter {
    s.(toReceive := s.toReceive + 1, request := Making(sleeps))
  }

  /** How many documents are asked for: no more than what remains of the limit behind everything that
      is buffered or expected. */
  function MoreBatch(s: Iter): int {
    var room := s.limit - (s.toReceive - 1) - |s.buffer|;
    if s.limit > 0 && room < s.batch then room else s.batch
  }

  /** The rest of getMore. Whoever waits for the documents goes to sleep, unless there was an error. */
  function SendMore(s: Iter): Iter {
    s.(batch := MoreBatch(s), request := Sent(MoreBatch(s)),
       asleep := if s.request.Making? && s.request.sleeps && s.err == None then s.asleep + 1 else s.asleep)
  }

  /** Next takes a document, and counts the limit down. */
  function TakenOff(s: Iter): Iter
    requires s.buffer != []
  {
    if s.limit == 1 && |s.buffer| > 1 then s.(buffer := s.buffer[1..], limit := 0, panicked := true)
    else s.(buffer := s.buffer[1..], taken := s.taken + [s.buffer[0]],
            limit := if s.limit > 0 then s.limit - 1 else 0, err := if s.limit == 1 then NotFound else s.err)
  }

  /** More documents may be requested ahead of time. */
  function Prefetched(s: Iter): Iter {
    if s.cursor && s.err == None then
      var s1 := s.(beforeMore := s.beforeMore - 1);
      if s1.beforeMore == -1 then StartMore(s1, false) else s1
    else s
  }

  /** Next with a document at hand. When the limit is used up the cursor is closed. */
  function Popped(s: Iter): Iter
    requires s.buffer != []
  {
    if s.limit == 1 && |s.buffer| > 1 then TakenOff(s)
    else if s.limit == 1 then Prefetched(TakenOff(s)).(cursor := false)
    else Prefetched(TakenOff(s))
  }

  /** Next without a document: it asks for more, goes to sleep, or reports the end. */
  function Waited(s: Iter): Iter {
    if s.err == None && (s.toReceive > 0 || s.cursor) then
      if s.toReceive == 0 then StartMore(s, true) else s.(asleep := s.asleep + 1)
    else if s.err == None then s.(err := NotFound)
    else s
  }

  /** replyFunc for any further document of a reply. */
  function Arrived(s: Iter): Iter
    requires s.arriving != []
  {
    s.(toReceive := s.toReceive - 1, buffer := s.buffer + [s.arriving[0]], arriving := s.arriving[1..], asleep := 0)
  }

  function NoReply(s: Iter, err: Error): Iter {
    s.(toReceive := s.toReceive - 1, request := Idle, err := err, asleep := 0)
  }

  /** replyFunc when the connection breaks within a reply: the rest of it never comes. */
  function Broke(s: Iter): Iter
    requires s.sent >= |s.arriving|
  {
    s.(toReceive := s.toReceive - 1, err := Broken, arriving := [], sent := s.sent - |s.arriving|, asleep := 0, cutOff := true)
  }

  /** getMore when the request could not be written: its caller returns, and the socket still knows
      whom to tell about the answer, or about its own end. */
  function HalfSent(s: Iter): Iter {
    SendMore(s).(toReceive := s.toReceive - 1, err := Broken, asleep := s.asleep)
  }

  ghost predicate Enabled(q: Query, s: Iter, e: Event) {
    !s.panicked && !s.deadlocked &&
    match e
    case Reply(n, alive, _) => s.arriving == [] && !s.cutOff && Honours(q, s, n, alive)
    case Lost => s.arriving == [] && !s.cutOff && s.request.Sent?
    case Failed => s.request.Sent?
    case Arrive => s.arriving != []
    case Cut => s.arriving != [] && s.sent >= |s.arriving|
    case Next => true
    case MakeRequest => s.request.Making?
    case NoSocket => s.request.Making?
    case NotSent => s.request.Making?
    case Dead => s.request.Making?
    case NotClosed => q.limit > 0 && s.limit == 0 && s.err == NotFound
  }

  ghost function Step(q: Query, s: Iter, e: Event): Iter
    requires Enabled(q, s, e)
  {
    match e
    case Reply(n, alive, ahead) => Replied(q, s, n, alive, ahead)
    case Lost => NoReply(s, CursorLost)
    case Failed => NoReply(s, Broken)
    case Arrive => Arrived(s)
    case Cut => Broke(s)
    case Next => if s.buffer != [] then Popped(s) else Waited(s)
    case MakeRequest => SendMore(s)
    case NoSocket => s.(request := Idle, err := Broken)
    case NotSent => HalfSent(s)
    // The socket tells replyFunc, which wants the lock that getMore holds.
    case Dead => SendMore(s).(request := s.request, asleep := s.asleep, deadlocked := true)
    case NotClosed => s.(err := Broken)
  }

  ghost predicate IsRun(q: Query, run: seq<Iter>) {
    && run != [] && run[0] == Start(q)
    && forall i :: 0 <= i < |run| - 1 ==> Moves(q, run[i], run[i + 1])
  }

  ghost predicate Moves(q: Query, s: Iter, s': Iter) {
    exists e :: Enabled(q, s, e) && s' == Step(q, s, e)
  }

  // --- The invariant ------------------------------------------------------------------------

  function Abs(n: int): nat {
    if n < 0 then -n else n
  }

  /** The batches of a query with a limit are not larger than the limit. */
  predicate Fitting(q: Query) {
    q.limit > 0 ==> 0 < Abs(q.batch) <= q.limit
  }

  /** How many documents were asked for and have not started to arrive. */
  function Asked(s: Iter): nat {
    if s.request.Sent? then Abs(s.request.count) else 0
  }

  /** Everything the server has sent was taken, is buffered, or arrives, in its order, and the
      limit goes down with every document that is taken. */
  ghost predicate InOrder(q: Query, s: Iter) {
    && s.sent <= |q.results| && s.taken + s.buffer + s.arriving == q.results[..s.sent]
    && (if q.limit == 0 then s.limit == 0
        else if s.limit > 0 then |s.taken| + s.limit == q.limit
        else |s.taken| >= q.limit)
    && (s.err == None && q.limit > 0 ==> s.limit > 0)
  }

  /** The counters say what is outstanding. */
  ghost predicate Counted(s: Iter) {
    && (s.err == None ==> s.toReceive == |s.arriving| + if s.request.Idle? then 0 else 1)
    && (s.cutOff ==> s.err != None && s.arriving == [])
    && (s.deadlocked ==> s.request.Making?)
    && (!s.request.Idle? && s.err == None && s.beforeMore >= 0 ==> s.buffer == [] && s.arriving == [])
  }

  /** What is buffered, what arrives, and what was asked for is not more than the limit. */
  ghost predicate WithinLimit(q: Query, s: Iter) {
    && |s.taken| + s.limit == q.limit && |s.buffer| + |s.arriving| <= s.limit
    && (!s.cutOff && !s.deadlocked ==>
      && s.batch != 0 && (s.request.Sent? ==> s.request.count != 0)
      && |s.buffer| + |s.arriving| + Asked(s) <= s.limit
      && (s.request.Making? || (s.err == None && s.beforeMore >= 0) ==> |s.buffer| + |s.arriving| < s.limit))
  }

  /** The server has sent all it is going to send. */
  ghost predicate AllSent(q: Query, s: Iter) {
    s.sent == |q.results| || (q.batch < 0 && s.sent == -q.batch)
  }

  /** Why the cursor is gone, or the iteration over. */
  ghost predicate Ending(q: Query, s: Iter) {
    && (s.request.Making? ==> s.err == None || s.cutOff)
    && (!s.cutOff && !s.deadlocked ==>
      && (s.err == None && !s.cursor ==> !s.request.Making? && (AllSent(q, s) || s.request == Sent(q.batch)))
      && (s.request.Sent? && s.cursor && q.batch >= 0 ==> s.request.count >= 0)
      && (q.batch < 0 ==> !s.cursor && !s.request.Making? && (s.request.Sent? ==> s.request.count == q.batch))
      && (s.request.Sent? && s.request.count < 0 ==> s.sent == 0 && s.request.count == q.batch)
      && (s.batch < 0 ==> q.batch < 0))
    && (s.err == NotFound ==> s.arriving == [] && ((!s.cutOff && AllSent(q, s) && s.request.Idle?) || (q.limit > 0 && s.limit == 0)))
  }

  ghost predicate Inv(q: Query, s: Iter) {
    !s.panicked && InOrder(q, s) && Counted(s) && (q.limit > 0 ==> WithinLimit(q, s)) && Ending(q, s)
  }

  lemma Joined(a: seq<Document>, b: seq<Document>, p: seq<Document>, x: Document, r: seq<Document>)
    requires a + b + [] == p
    ensures a + (b + [x]) + r == p + ([x] + r)
  {
    assert a + b == p;
  }

  lemma ReplySplits(r: seq<Document>, sent: nat, n: nat)
    requires 0 < n && sent + n <= |r|
    ensures r[..sent + n] == r[..sent] + ([r[sent]] + r[sent + 1..sent + n])
  {
  }

  lemma ReplyInOrder(q: Query, s: Iter, n: nat, alive: bool, ahead: int)
    requires InOrder(q, s) && s.arriving == [] && s.sent + n <= |q.results|
    ensures InOrder(q, Replied(q, s, n, alive, ahead))
  {
    if n > 0 {
      ReplySplits(q.results, s.sent, n);
      Joined(s.taken, s.buffer, q.results[..s.sent], q.results[s.sent], q.results[s.sent + 1..s.sent + n]);
    }
  }

  lemma ReplyKeeps(q: Query, s: Iter, n: nat, alive: bool, ahead: int)
    requires Inv(q, s) && s.arriving == [] && !s.cutOff && !s.deadlocked && Honours(q, s, n, alive)
    ensures Inv(q, Replied(q, s, n, alive, ahead))
  {
    ReplyInOrder(q, s, n, alive, ahead);
    hide InOrder;
    assert s.request.Sent?;
    if n > 0 { assert |q.results[s.sent + 1..s.sent + n]| == n - 1; }
  }

  lemma ArriveKeeps(q: Query, s: Iter)
    requires Inv(q, s) && Enabled(q, s, Arrive)
    ensures Inv(q, Step(q, s, Arrive))
  {
    var s' := Step(q, s, Arrive);
    assert s'.taken + s'.buffer + s'.arriving == s.taken + s.buffer + s.arriving;
  }

  lemma CutKeeps(q: Query, s: Iter)
    requires Inv(q, s) && Enabled(q, s, Cut)
    ensures Inv(q, Step(q, s, Cut))
  {
    CutInOrder(q, s);
  }

  lemma CutInOrder(q: Query, s: Iter)
    requires InOrder(q, s) && s.sent >= |s.arriving|
    ensures InOrder(q, Broke(s))
  {
    var have := s.taken + s.buffer;
    assert have == (have + s.arriving)[..|have|] == q.results[..s.sent][..|have|];
    assert have + [] == have;
  }

  lemma PopInOrder(q: Query, s: Iter)
    requires InOrder(q, s) && s.buffer != []
    ensures Popped(s).panicked || InOrder(q, Popped(s))
  {
    assert s.taken + [s.buffer[0]] + s.buffer[1..] + s.arriving == s.taken + s.buffer + s.arriving;
  }

  lemma PopKeeps(q: Query, s: Iter)
    requires Inv(q, s) && s.buffer != [] && !s.deadlocked
    ensures Inv(q, Popped(s))
  {
    PopInOrder(q, s);
  }

  lemma OthersKeep(q: Query, s: Iter, e: Event)
    requires Inv(q, s) && Enabled(q, s, e) && !e.Reply? && !e.Arrive? && !e.Cut? && !(e.Next? && s.buffer != [])
    ensures Inv(q, Step(q, s, e))
  {
  }

  lemma StepKeeps(q: Query, s: Iter, e: Event)
    requires Inv(q, s) && Enabled(q, s, e)
    ensures Inv(q, Step(q, s, e))
  {
    hide Inv, Honours, Popped, Replied, Waited;
    match e {
      case Reply(n, alive, ahead) => ReplyKeeps(q, s, n, alive, ahead);
      case Arrive => ArriveKeeps(q, s);
      case Cut => CutKeeps(q, s);
      case Next => if s.buffer != [] { PopKeeps(q, s); } else { OthersKeep(q, s, e); }
      case _ => OthersKeep(q, s, e);
    }
  }

  lemma {:induction false} RunInv(q: Query, run: seq<Iter>, i: nat)
    requires Fitting(q) && IsRun(q, run) && i < |run|
    ensures Inv(q, run[i])
  {
    hide Step, Enabled;
    if i > 0 {
      RunInv(q, run, i - 1);
      assert Moves(q, run[i - 1], run[i - 1 + 1]);
      var e :| Enabled(q, run[i - 1], e) && run[i] == Step(q, run[i - 1], e);
      StepKeeps(q, run[i - 1], e);
    }
  }

  // --- Whole runs ---------------------------------------------------------------------------

  predicate Prefix(a: seq<Document>, b: seq<Document>) {
    |a| <= |b| && a == b[..|a|]
  }

  lemma ReturnedPrefix(q: Query, s: Iter)
    requires InOrder(q, s)
    ensures Prefix(s.taken, q.results)
  {
    assert (s.taken + s.buffer + s.arriving)[..|s.taken|] == s.taken;
  }

  /** In every interleaving of replies, prefetching and requests, with as many failures as there
      may be, Next returns documents in the server's order, and never more than the limit. Once it
      has reported the end of the results, it has taken exactly the first ones: as many as the
      limit allows. */
  lemma ReturnsFirst(q: Query, run: seq<Iter>, i: nat)
    requires Fitting(q) && (q.batch < 0 ==> -q.batch == q.limit) && IsRun(q, run) && i < |run|
    ensures Prefix(run[i].taken, q.results) && (q.limit > 0 ==> |run[i].taken| <= q.limit)
    ensures run[i].err == NotFound && run[i].buffer == [] ==>
      run[i].taken == q.results[..if 0 < q.limit < |q.results| then q.limit else |q.results|]
  {
    var s := run[i];
    RunInv(q, run, i);
    ReturnedPrefix(q, s);
    if s.err == NotFound && s.buffer == [] {
      assert s.taken + s.buffer + s.arriving == s.taken;
    }
  }

  /** Buffered and expected documents never exceed what remains of the limit, so no data remains
      when it is used up. */
  lemma StaysWithinLimit(q: Query, run: seq<Iter>, i: nat)
    requires Fitting(q) && IsRun(q, run) && i < |run|
    ensures !run[i].panicked
    ensures q.limit > 0 ==> |run[i].buffer| + |run[i].arriving| <= run[i].limit
    ensures q.limit > 0 && !run[i].cutOff ==>
      |run[i].buffer| + |run[i].arriving| + Asked(run[i]) <= run[i].limit
  {
    RunInv(q, run, i);
  }

  // --- When the panic can be reached --------------------------------------------------------

  lemma {:induction false} InOrderAlways(q: Query, run: seq<Iter>, i: nat)
    requires IsRun(q, run) && i < |run|
    ensures run[i].panicked || InOrder(q, run[i])
  {
    if i > 0 {
      InOrderAlways(q, run, i - 1);
      assert Moves(q, run[i - 1], run[i - 1 + 1]);
      var e :| Enabled(q, run[i - 1], e) && run[i] == Step(q, run[i - 1], e);
      OrderKeeps(q, run[i - 1], e);
    }
  }

  lemma OrderKeeps(q: Query, s: Iter, e: Event)
    requires InOrder(q, s) && Enabled(q, s, e)
    ensures Step(q, s, e).panicked || InOrder(q, Step(q, s, e))
  {
    match e {
      case Reply(n, alive, ahead) => ReplyInOrder(q, s, n, alive, ahead);
      case Cut => CutInOrder(q, s);
      case Arrive => assert s.taken + (s.buffer + [s.arriving[0]]) + s.arriving[1..] == s.taken + s.buffer + s.arriving;
      case Next =>
        if s.buffer != [] { PopInOrder(q, s); }
      case _ =>
    }
  }

  /** With no more results than the limit nothing can remain. */
  lemma FewResults(q: Query, run: seq<Iter>, i: nat)
    requires |q.results| <= q.limit && IsRun(q, run) && i < |run|
    ensures !run[i].panicked
    decreases i
  {
    hide Step, Enabled, InOrder;
    if i > 0 {
      FewResults(q, run, i - 1);
      InOrderAlways(q, run, i - 1);
      assert Moves(q, run[i - 1], run[i - 1 + 1]);
      var e :| Enabled(q, run[i - 1], e) && run[i] == Step(q, run[i - 1], e);
      FewStep(q, run[i - 1], e);
    }
  }

  lemma FewStep(q: Query, s: Iter, e: Event)
    requires |q.results| <= q.limit && InOrder(q, s) && Enabled(q, s, e)
    ensures !Step(q, s, e).panicked
  {
    assert |s.taken + s.buffer + s.arriving| == s.sent;
  }

  lemma Extend(q: Query, run: seq<Iter>, e: Event)
    requires IsRun(q, run) && Enabled(q, run[|run| - 1], e)
    ensures IsRun(q, run + [Step(q, run[|run| - 1], e)])
  {
    var next := Step(q, run[|run| - 1], e);
    assert Moves(q, run[|run| - 1], next);
    hide Step, Enabled, Moves;
    var longer := run + [next];
    forall i | 0 <= i < |longer| - 1 ensures Moves(q, longer[i], longer[i + 1]) {
      if i < |run| - 1 { assert Moves(q, run[i], run[i + 1]); }
    }
  }

  /** More is there than the limit allows, and no request is due: the panic comes. */
  lemma {:induction false} TooMuch(q: Query, run: seq<Iter>) returns (longer: seq<Iter>)
    requires run != [] && IsRun(q, run)
    requires var s := run[|run| - 1];
      !s.panicked && !s.deadlocked && s.limit > 0 && |s.buffer| + |s.arriving| > s.limit && s.beforeMore < 0 && s.request.Idle?
    ensures longer != [] && IsRun(q, longer) && longer[|longer| - 1].panicked
    decreases |run[|run| - 1].arriving|, run[|run| - 1].limit
  {
    hide IsRun, Fitting, Inv;
    var s := run[|run| - 1];
    var e := if s.arriving != [] then Arrive else Next;
    Extend(q, run, e);
    longer := run + [Step(q, s, e)];
    if e == Arrive || s.limit > 1 {
      longer := TooMuch(q, longer);
    }
  }

  /** Next can panic with "data remains" exactly when there are more results than the limit allows
      and the size of a batch is left to the server or is larger than the limit. */
  lemma PanicsExactlyWhen(q: Query)
    requires q.limit > 0
    ensures (exists run: seq<Iter> :: IsRun(q, run) && run[|run| - 1].panicked) <==>
            |q.results| > q.limit && (q.batch == 0 || Abs(q.batch) > q.limit)
  {
    if |q.results| > q.limit && (q.batch == 0 || Abs(q.batch) > q.limit) {
      var start := Start(q);
      var n := if q.batch >= 0 then q.limit + 1 else if |q.results| < -q.batch then |q.results| else -q.batch;
      var e := Reply(n, q.batch >= 0, 0);
      assert IsRun(q, [start]);
      assert Enabled(q, start, e);
      Extend(q, [start], e);
      var run := TooMuch(q, [start] + [Step(q, start, e)]);
    }
    forall run: seq<Iter> | IsRun(q, run) && run[|run| - 1].panicked
      ensures |q.results| > q.limit && (q.batch == 0 || Abs(q.batch) > q.limit)
    {
      if |q.results| <= q.limit { FewResults(q, run, |run| - 1); }
      if Fitting(q) { RunInv(q, run, |run| - 1); }
    }
  }

  /** What Limit makes of its argument: the limit, and the size of a batch. */
  function Limit(n: int): (nat, int) {
    if n == 1 then (1, -1)
    else if n == -0x8000_0000 then (0x7FFF_FFFF, -0x7FFF_FFFF)
    else if n < 0 then (-n, n)
    else (n, n)
  }

  /** A limit alone is always safe; asking for batches of at most the limit's size is, too. The limit
      is the argument without its sign, except for the one number whose negation does not fit. */
  lemma LimitFits(n: int, results: seq<Document>)
    requires -0x8000_0000 <= n < 0x8000_0000
    ensures Fitting(Query(Limit(n).0, Limit(n).1, results))
    ensures Abs(Limit(n).1) == Limit(n).0
    ensures Limit(n).0 == (if n == -0x8000_0000 then 0x7FFF_FFFF else Abs(n))
    ensures Limit(n).1 < 0 <==> n < 0 || n == 1
  {
  }

  /** With Limit alone, the end of the results means that the first of them were returned: as many as
      the argument says, or all when it is 0. */
  lemma LimitReturns(n: int, results: seq<Document>, run: seq<Iter>, i: nat)
    requires -0x8000_0000 < n < 0x8000_0000
    requires IsRun(Query(Limit(n).0, Limit(n).1, results), run) && i < |run|
    ensures n != 0 ==> |run[i].taken| <= Abs(n)
    ensures run[i].err == NotFound && run[i].buffer == [] ==>
      run[i].taken == if n == 0 || |results| <= Abs(n) then results else results[..Abs(n)]
  {
    var q := Query(Limit(n).0, Limit(n).1, results);
    LimitFits(n, results);
    ReturnsFirst(q, run, i);
    assert results[..|results|] == results;
  }
}
