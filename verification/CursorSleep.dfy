/** The consumers that sleep in Next (Iter in mgo.v2/session.go): which of them can wake up again. */
module CursorSleep {
  import opened Cursor

  /** A reply is being received or expected, or a request is being made. */
  predicate Outstanding(s: Iter) {
    s.arriving != [] || !s.request.Idle?
  }

  /** Consumers sleep that nothing is going to wake. */
  predicate Abandoned(s: Iter) {
    s.asleep > 0 && (s.deadlocked || !Outstanding(s))
  }

  /** getMore gets no socket while others sleep and nothing arrives, or it meets a dead socket. */
  ghost predicate GivesUp(q: Query, s: Iter, s': Iter) {
    || (Enabled(q, s, NoSocket) && s.asleep > 0 && s.arriving == [] && s' == Step(q, s, NoSocket))
    || (Enabled(q, s, Dead) && s' == Step(q, s, Dead))
  }

  /** As long as there was no error, the counters are right and a sleeper has something to wait for. */
  ghost predicate Waiting(s: Iter) {
    Counted(s) && (s.err == None && s.asleep > 0 ==> Outstanding(s))
  }

  lemma WaitingKeeps(q: Query, s: Iter, e: Event)
    requires Waiting(s) && Enabled(q, s, e)
    ensures Step(q, s, e).panicked || Waiting(Step(q, s, e))
  {
    if e.Reply? && e.n > 0 { assert |q.results[s.sent + 1..s.sent + e.n]| == e.n - 1; }
  }

  lemma {:induction false} WaitingAlways(q: Query, run: seq<Iter>, i: nat)
    requires IsRun(q, run) && i < |run|
    ensures run[i].panicked || Waiting(run[i])
  {
    hide Step, Enabled, Waiting;
    if i == 0 {
      assert Waiting(Start(q)) by { StartWaits(q); }
    } else {
      WaitingAlways(q, run, i - 1);
      assert Moves(q, run[i - 1], run[i - 1 + 1]);
      var e :| Enabled(q, run[i - 1], e) && run[i] == Step(q, run[i - 1], e);
      NotPanicked(q, run[i - 1], e);
      WaitingKeeps(q, run[i - 1], e);
    }
  }

  lemma StartWaits(q: Query)
    ensures Waiting(Start(q))
  {
  }

  lemma NotPanicked(q: Query, s: Iter, e: Event)
    requires Enabled(q, s, e)
    ensures !s.panicked && !s.deadlocked
  {
  }

  /** A step leaves sleepers without anything to wait for only when getMore gives up; and they stay so. */
  lemma AbandonStep(q: Query, s: Iter, e: Event)
    requires Waiting(s) && Enabled(q, s, e)
    ensures var s' := Step(q, s, e);
      && (Abandoned(s') ==> s'.panicked || Abandoned(s) || GivesUp(q, s, s'))
      && (Abandoned(s) ==> Abandoned(s') && s.asleep <= s'.asleep)
      && (GivesUp(q, s, s') && s'.asleep > 0 ==> Abandoned(s'))
  {
  }

  /** Sleepers that are left with nothing to wake them sleep on, whatever happens. */
  lemma {:induction false} SleepOn(q: Query, run: seq<Iter>, i: nat, j: nat)
    requires IsRun(q, run) && i <= j < |run| && Abandoned(run[i])
    ensures Abandoned(run[j]) && run[i].asleep <= run[j].asleep
  {
    hide Step, Enabled, Waiting, Abandoned;
    if i < j {
      SleepOn(q, run, i, j - 1);
      WaitingAlways(q, run, j - 1);
      assert Moves(q, run[j - 1], run[j - 1 + 1]);
      var e :| Enabled(q, run[j - 1], e) && run[j] == Step(q, run[j - 1], e);
      NotPanicked(q, run[j - 1], e);
      AbandonStep(q, run[j - 1], e);
    }
  }

  /** All others can still be woken. */
  lemma CanWake(q: Query, run: seq<Iter>) returns (longer: seq<Iter>)
    requires IsRun(q, run) && run != [] && !run[|run| - 1].panicked && run[|run| - 1].asleep > 0 && !Abandoned(run[|run| - 1])
    ensures IsRun(q, longer) && run <= longer && longer != [] && longer[|longer| - 1].asleep == 0
  {
    hide IsRun, Waiting;
    var s := run[|run| - 1];
    longer := run;
    if s.request.Making? {
      Extend(q, longer, MakeRequest);
      longer := longer + [Step(q, s, MakeRequest)];
      s := Step(q, s, MakeRequest);
    }
    var e := if s.request.Sent? then Failed else Arrive;
    Extend(q, longer, e);
    longer := longer + [Step(q, s, e)];
  }

  /** Exactly when a sleeper can never wake up: when a getMore gave up before, that is, got no socket
      while somebody slept and nothing arrived, or met a dead socket. */
  lemma SleepersLeft(q: Query, run: seq<Iter>, i: nat)
    requires IsRun(q, run) && i < |run| && !run[i].panicked && run[i].asleep > 0
    ensures Abandoned(run[i]) <==> exists j :: 0 <= j < i && GivesUp(q, run[j], run[j + 1])
    ensures Abandoned(run[i]) <==> forall longer: seq<Iter> :: IsRun(q, longer) && run[..i + 1] <= longer ==> longer[|longer| - 1].asleep > 0
  {
    hide GivesUp, Abandoned, IsRun;
    if Abandoned(run[i]) {
      GaveUp(q, run, i);
      forall longer: seq<Iter> | IsRun(q, longer) && run[..i + 1] <= longer ensures longer[|longer| - 1].asleep > 0 {
        assert longer[i] == run[..i + 1][i];
        SleepOn(q, longer, i, |longer| - 1);
      }
    } else {
      Earlier(q, run, i);
      var longer := CanWake(q, run[..i + 1]);
      forall j | 0 <= j < i ensures !GivesUp(q, run[j], run[j + 1]) {
        if GivesUp(q, run[j], run[j + 1]) { LeftFrom(q, run, j, i); }
      }
    }
  }

  lemma Earlier(q: Query, run: seq<Iter>, i: nat)
    requires IsRun(q, run) && i < |run|
    ensures IsRun(q, run[..i + 1])
  {
    hide Moves;
    var start := run[..i + 1];
    forall j | 0 <= j < |start| - 1 ensures Moves(q, start[j], start[j + 1]) {
      assert Moves(q, run[j], run[j + 1]);
    }
  }

  lemma {:induction false} GaveUp(q: Query, run: seq<Iter>, i: nat)
    requires IsRun(q, run) && i < |run| && !run[i].panicked && Abandoned(run[i])
    ensures exists j :: 0 <= j < i && GivesUp(q, run[j], run[j + 1])
  {
    hide Step, Enabled, Waiting, GivesUp, Abandoned;
    if i == 0 {
      StartOutstanding(q);
      assert false;
    } else {
      WaitingAlways(q, run, i - 1);
      assert Moves(q, run[i - 1], run[i - 1 + 1]);
      var e :| Enabled(q, run[i - 1], e) && run[i] == Step(q, run[i - 1], e);
      NotPanicked(q, run[i - 1], e);
      AbandonStep(q, run[i - 1], e);
      if !GivesUp(q, run[i - 1], run[i]) {
        GaveUp(q, run, i - 1);
      } else {
        assert GivesUp(q, run[i - 1], run[i - 1 + 1]);
      }
    }
  }

  lemma StartOutstanding(q: Query)
    ensures !Abandoned(Start(q))
  {
  }

  lemma LeftFrom(q: Query, run: seq<Iter>, j: nat, i: nat)
    requires IsRun(q, run) && j < i < |run| && GivesUp(q, run[j], run[j + 1]) && run[i].asleep > 0
    ensures Abandoned(run[i])
  {
    hide Step, Enabled, Waiting, Abandoned;
    if run[j + 1].deadlocked {
      if i > j + 1 {
        assert Moves(q, run[j + 1], run[j + 1 + 1]);
        var e :| Enabled(q, run[j + 1], e);
        NotPanicked(q, run[j + 1], e);
      }
    }
    GivenUp(q, run[j], run[j + 1]);
    if Abandoned(run[j + 1]) { SleepOn(q, run, j + 1, i); }
  }

  lemma GivenUp(q: Query, s: Iter, s': Iter)
    requires GivesUp(q, s, s')
    ensures s'.deadlocked || s'.asleep > 0
    ensures s'.asleep > 0 ==> Abandoned(s')
  {
  }

  // --- Two runs that leave somebody asleep --------------------------------------------------

  /** A query with two results, that gets one document at a time. */
  function TwoResults(a: Document, b: Document): Query {
    Query(0, 1, [a, b])
  }

  /** One document came and was taken; one consumer asks for more, another one sleeps meanwhile. */
  lemma OneSleeps(a: Document, b: Document) returns (run: seq<Iter>)
    ensures run != [] && IsRun(TwoResults(a, b), run)
    ensures run[|run| - 1] == Iter(0, 1, [], 1, 0, true, None, false, Making(true), [], 1, [a], 1, false, false)
  {
    hide IsRun;
    var q := TwoResults(a, b);
    run := [Start(q)];
    assert IsRun(q, run) by { StartRun(q); }
    run := Continue(q, run, Reply(1, true, 0));
    assert q.results[1..1] == [] && q.results[0] == a;
    run := Continue(q, run, Next);
    run := Continue(q, run, Next);
    run := Continue(q, run, Next);
  }

  lemma StartRun(q: Query)
    ensures IsRun(q, [Start(q)])
  {
  }

  lemma Continue(q: Query, run: seq<Iter>, e: Event) returns (longer: seq<Iter>)
    requires run != [] && IsRun(q, run) && Enabled(q, run[|run| - 1], e)
    ensures longer != [] && IsRun(q, longer) && longer[|longer| - 1] == Step(q, run[|run| - 1], e)
  {
    hide IsRun;
    Extend(q, run, e);
    longer := run + [Step(q, run[|run| - 1], e)];
  }

  /** No socket: the one who asked gets the error, the other one sleeps for ever. */
  lemma SleeperForgotten(a: Document, b: Document) returns (run: seq<Iter>)
    ensures run != [] && IsRun(TwoResults(a, b), run)
    ensures Abandoned(run[|run| - 1]) && !run[|run| - 1].deadlocked && run[|run| - 1].err == Broken
  {
    hide IsRun;
    run := OneSleeps(a, b);
    run := Continue(TwoResults(a, b), run, NoSocket);
  }

  /** Nothing can happen any more. */
  ghost predicate Halted(q: Query, s: Iter) {
    forall e :: !Enabled(q, s, e)
  }

  /** A dead socket: the one who asked waits for itself, and the other one for it. */
  lemma DeadSocketLocks(a: Document, b: Document) returns (run: seq<Iter>)
    ensures run != [] && IsRun(TwoResults(a, b), run)
    ensures Abandoned(run[|run| - 1]) && Halted(TwoResults(a, b), run[|run| - 1])
  {
    hide IsRun;
    run := OneSleeps(a, b);
    run := Continue(TwoResults(a, b), run, Dead);
  }
}
