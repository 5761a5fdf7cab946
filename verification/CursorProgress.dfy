/** Cursors get to the end of their results: whatever happened before, as long as no request failed,
    replies and calls of Next lead to it. */
module CursorProgress {
  import opened Cursor

  /** No error so far but the end of the results. */
  predicate Going(s: Iter) {
    (s.err == None || s.err == NotFound) && !s.panicked && !s.cutOff && !s.deadlocked
  }

  predicate Finished(s: Iter) {
    s.err == NotFound && s.buffer == []
  }

  /** How much of the results the server sends when it is asked for `count`. */
  function Share(q: Query, s: Iter): nat
    requires s.request.Sent? && s.sent <= |q.results|
  {
    var left := |q.results| - s.sent;
    if s.request.count != 0 && Abs(s.request.count) < left then Abs(s.request.count) else left
  }

  /** What comes next when everybody does what is due. */
  function Due(q: Query, s: Iter): Event
    requires s.sent <= |q.results|
  {
    if s.arriving != [] then Arrive
    else if s.buffer != [] || s.err != None then Next
    else if s.request.Making? then MakeRequest
    else if s.request.Sent? then Reply(Share(q, s), s.request.count > 0 && s.sent + Share(q, s) < |q.results|, 0)
    else Next
  }

  function Stage(s: Iter): nat {
    if s.err != None then 0
    else match s.request
      case Sent(_) => 1
      case Making(_) => 2
      case Idle => 3
  }

  /** Less is left to do. */
  predicate Closer(q: Query, s: Iter, s': Iter) {
    || s'.sent > s.sent
    || (s'.sent == s.sent && |s'.arriving| < |s.arriving|)
    || (s'.sent == s.sent && |s'.arriving| == |s.arriving| && |s'.buffer| < |s.buffer|)
    || (s'.sent == s.sent && |s'.arriving| == |s.arriving| && |s'.buffer| == |s.buffer| && Stage(s') < Stage(s))
  }

  lemma DueReply(q: Query, s: Iter)
    requires Inv(q, s) && Going(s) && s.arriving == [] && s.buffer == [] && s.err == None && s.request.Sent?
    ensures var e := Due(q, s); Enabled(q, s, e) && Going(Step(q, s, e)) && Closer(q, s, Step(q, s, e))
  {
  }

  lemma DueOther(q: Query, s: Iter)
    requires Inv(q, s) && Going(s) && !Finished(s) && !Due(q, s).Reply?
    ensures var e := Due(q, s); Enabled(q, s, e) && Going(Step(q, s, e)) && Closer(q, s, Step(q, s, e))
  {
    hide Replied;
  }

  /** Every run without a failure can be continued to the end of the results, where with a batch size
      that fits exactly the first results have been returned: as many as the limit allows. */
  lemma {:induction false} CanFinish(q: Query, run: seq<Iter>) returns (more: seq<Iter>)
    requires run != [] && Fitting(q) && (q.batch < 0 ==> -q.batch == q.limit) && IsRun(q, run) && Going(run[|run| - 1])
    ensures run <= more && IsRun(q, more) && Finished(more[|more| - 1])
    ensures more[|more| - 1].taken == q.results[..if 0 < q.limit < |q.results| then q.limit else |q.results|]
    decreases |q.results| - run[|run| - 1].sent, |run[|run| - 1].arriving|, |run[|run| - 1].buffer|, Stage(run[|run| - 1])
  {
    hide IsRun, Inv, Step, Enabled, Due;
    var s := run[|run| - 1];
    RunInv(q, run, |run| - 1);
    if Finished(s) {
      more := run;
      ReturnsFirst(q, run, |run| - 1);
    } else {
      NotBeyond(q, s);
      var e := Due(q, s);
      if e.Reply? { assert s.request.Sent?; DueReply(q, s); } else { DueOther(q, s); }
      Extend(q, run, e);
      StepKeeps(q, s, e);
      NotBeyond(q, Step(q, s, e));
      more := CanFinish(q, run + [Step(q, s, e)]);
    }
  }

  lemma NotBeyond(q: Query, s: Iter)
    requires Inv(q, s)
    ensures s.sent <= |q.results|
    ensures s.arriving == [] && s.buffer == [] && s.err == None && s.request.Sent? <==> Due(q, s).Reply?
  {
  }
}
