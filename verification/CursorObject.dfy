/** The iterator as it runs (Iter in mgo.v2/session.go), on the ring buffer: each method is one stretch
    of the source's code under the iterator's lock, and does what the step of `Cursor` says. */
module CursorObject {
  import opened Cursor
  import opened Queue

  /** What becomes of a request for more on a socket. */
  datatype Outcome = Written | NotWritten | AlreadyDead

  class IterObject {
    var limit: nat
    var opLimit: int
    var docData: RingQueue<Document>
    var docsToReceive: int
    var docsBeforeMore: int
    var cursorId: int
    var err: Error

    // Outside the iterator: the request and the reply under way, the documents
    // that were taken, and the consumers that sleep.
    ghost var panicked: bool
    ghost var request: Request
    ghost var arriving: seq<Document>
    ghost var sent: nat
    ghost var taken: seq<Document>
    ghost var asleep: nat
    ghost var cutOff: bool
    ghost var deadlocked: bool

    ghost function Value(): Iter
      reads this, docData
    {
      Iter(limit, opLimit, docData.contents, docsToReceive, docsBeforeMore, cursorId != 0, err, panicked,
           request, arriving, sent, taken, asleep, cutOff, deadlocked)
    }

    ghost predicate Valid()
      reads this, docData, docData.elems
    {
      docData.Valid()
    }

    /** The iterator of a query, which has been sent. */
    constructor (limit: nat, batch: int, ghost q: Query)
      requires q.limit == limit && q.batch == batch
      ensures Valid() && Value() == Start(q) && fresh(docData) && fresh(docData.elems)
    {
      this.limit, opLimit := limit, batch;
      docData := new RingQueue();
      docsToReceive, docsBeforeMore, cursorId, err := 1, 0, 0, None;
      panicked, request, arriving, sent, taken := false, Sent(batch), [], 0, [];
      asleep, cutOff, deadlocked := 0, false, false;
    }

    /** Wakes all consumers that sleep. */
    ghost method Broadcast()
      modifies this`asleep
      ensures asleep == 0
    {
      asleep := 0;
    }

    /** A document of a reply: the first one comes with the size of the reply and the cursor. */
    method ReceiveDocument(docNum: nat, rdocs: nat, doc: Document, cursorId: int, ahead: int, ghost q: Query)
      requires Valid()
      requires docNum == 0 ==> rdocs > 0 && sent + rdocs <= |q.results| && doc == q.results[sent]
      requires docNum > 0 ==> arriving != [] && doc == arriving[0]
      modifies this, docData, docData.elems
      ensures Valid() && docData == old(docData) && (docData.elems == old(docData.elems) || fresh(docData.elems))
      ensures docNum == 0 ==> Value() == Replied(q, old(Value()), rdocs, cursorId != 0, ahead)
      ensures docNum > 0 ==> Value() == Arrived(old(Value()))
    {
      hide RingQueue.Valid, Replied;
      docsToReceive := docsToReceive - 1;
      if docNum == 0 {
        StartReply(rdocs, cursorId, ahead, q);
      } else {
        arriving := arriving[1..];
      }
      docData.Push(doc);
      Broadcast();
      if docNum == 0 { RepliedIs(q, old(Value()), rdocs, cursorId != 0, ahead); }
    }

    /** What the first document of a reply brings with it, besides itself. */
    method StartReply(rdocs: nat, cursorId: int, ahead: int, ghost q: Query)
      requires Valid() && rdocs > 0 && sent + rdocs <= |q.results|
      modifies this`docsToReceive, this`docsBeforeMore, this`cursorId, this`request, this`arriving, this`sent
      ensures docsToReceive == old(docsToReceive) + (rdocs - 1) && this.cursorId == cursorId && request == Idle
      ensures docsBeforeMore == MoreAfter(limit, |docData.contents| + rdocs, ahead)
      ensures arriving == q.results[old(sent) + 1..old(sent) + rdocs] && sent == old(sent) + rdocs
    {
      hide RingQueue.Valid;
      docsToReceive := docsToReceive + (rdocs - 1);
      var docsToProcess := docData.Len();
      docsToProcess := docsToProcess + rdocs;
      if limit == 0 || docsToProcess < limit {
        docsBeforeMore := docsToProcess - ahead;
      } else {
        docsBeforeMore := -1;
      }
      this.cursorId := cursorId;
      request, arriving, sent := Idle, q.results[sent + 1..sent + rdocs], sent + rdocs;
    }

    /** A reply without documents, or an error, be it instead of a reply or within one. */
    method ReceiveNothing(failed: bool, ghost within: bool, cursorId: int, lost: bool, ghost q: Query)
      requires Valid() && sent <= |q.results| && (within ==> failed && arriving != [] && sent >= |arriving|)
      modifies this`docsToReceive, this`request, this`err, this`cursorId, this`sent, this`arriving, this`cutOff, this`asleep
      ensures Valid()
      ensures !failed && cursorId != 0 ==> Value() == Replied(q, old(Value()), 0, true, 0)
      ensures !failed && cursorId == 0 && !lost ==> Value() == Replied(q, old(Value()), 0, false, 0)
      ensures !failed && cursorId == 0 && lost ==> Value() == NoReply(old(Value()), CursorLost)
      ensures failed && !within ==> Value() == NoReply(old(Value()), Broken)
      ensures failed && within ==> Value() == Broke(old(Value()))
    {
      hide RingQueue.Valid;
      docsToReceive := docsToReceive - 1;
      if within {
        sent, arriving, cutOff := sent - |arriving|, [], true;
      } else {
        request := Idle;
      }
      if failed {
        err := Broken;
      } else if cursorId != 0 {
        // It's a tailable cursor.
        this.cursorId := cursorId;
      } else if lost {
        err := CursorLost;
      } else {
        err := NotFound;
      }
      Broadcast();
    }

    /** getMore up to the point where it unlocks the iterator. */
    method BeginMore(ghost sleeps: bool)
      requires Valid()
      modifies this`docsToReceive, this`request
      ensures Valid() && Value() == StartMore(old(Value()), sleeps)
    {
      hide RingQueue.Valid;
      docsToReceive := docsToReceive + 1;
      request := Making(sleeps);
    }

    /** Asks for no more than what remains of the limit. */
    method FitBatch()
      requires Valid()
      modifies this`opLimit
      ensures opLimit == old(MoreBatch(Value()))
    {
      if limit > 0 {
        var buffered := docData.Len();
        var room := limit - (docsToReceive - 1) - buffered;
        if room < opLimit {
          opLimit := room;
        }
      }
    }

    /** The rest of getMore, with the socket or the error that came instead, and what becomes of the
        request. The caller then waits, unless there was an error or it has its document already. */
    method EndMore(socket: bool, query: Outcome, ghost q: Query)
      requires Valid() && request.Making? && !panicked && !deadlocked
      modifies this`err, this`request, this`opLimit, this`docsToReceive, this`asleep, this`deadlocked
      ensures Valid()
      ensures Value() == Step(q, old(Value()),
        if !socket then NoSocket else if query == Written then MakeRequest else if query == NotWritten then NotSent else Dead)
    {
      hide RingQueue.Valid, MoreBatch;
      if !socket {
        err := Broken;
        request := Idle;
        return;
      }
      FitBatch();
      if query == AlreadyDead {
        // The socket calls replyFunc, which never gets the lock.
        deadlocked := true;
        return;
      }
      ghost var sleeps := request.sleeps && query == Written && err == None;
      request := Sent(opLimit);
      if query == NotWritten {
        docsToReceive := docsToReceive - 1;
        err := Broken;
      }
      if sleeps {
        asleep := asleep + 1;
      }
    }

    /** Next, as far as one stretch under the lock goes: it returns a document, the end or an error,
        or it has to wait. */
    method Next() returns (doc: Slot<Document>, waits: bool)
      requires Valid()
      modifies this, docData, docData.elems
      ensures Valid() && docData == old(docData) && docData.elems == old(docData.elems)
      ensures old(docData.contents) != [] ==>
        Value() == Popped(old(Value())) && !waits && doc == Elem(old(docData.contents)[0])
      ensures old(docData.contents) == [] ==> Value() == Waited(old(Value())) && doc == Nil && (waits <==> err == None)
    {
      hide Popped;
      ghost var before, contents := Value(), docData.contents;
      if err == None && docData.nelems == 0 && (docsToReceive > 0 || cursorId != 0) {
        if docsToReceive == 0 {
          BeginMore(true);
        } else {
          asleep := asleep + 1;
        }
        return Nil, true;
      }
      waits := false;
      // Exhaust available data before reporting any errors.
      doc := docData.Pop();
      if doc.Elem? {
        assert contents == [doc.value] + docData.contents;
        CountDown(doc.value);
      } else if err == None {
        err := NotFound;
      }
    }

    /** What Next does once it has taken a document. */
    method CountDown(doc: Document)
      requires Valid() && docData.nelems == |docData.contents|
      modifies this`limit, this`err, this`panicked, this`taken, this`docsBeforeMore, this`docsToReceive, this`request, this`cursorId
      ensures Valid() && Value() == Popped(old(Value().(buffer := [doc] + docData.contents)))
    {
      hide RingQueue.Valid, TakenOff, Prefetched;
      var close := limit == 1;
      var stop := TakeOff(doc);
      if stop {
        return;
      }
      if cursorId != 0 && err == None {
        Prefetch();
      } else {
        assert Prefetched(Value()) == Value() by { NoPrefetch(Value()); }
      }
      if close {
        // The limit is used up: the cursor is closed.
        cursorId := 0;
      }
    }

    method TakeOff(doc: Document) returns (stop: bool)
      requires Valid() && docData.nelems == |docData.contents|
      modifies this`limit, this`err, this`panicked, this`taken
      ensures Valid() && Value() == TakenOff(old(Value().(buffer := [doc] + docData.contents)))
      ensures stop <==> old(limit) == 1 && docData.contents != []
    {
      hide RingQueue.Valid;
      assert ([doc] + docData.contents)[1..] == docData.contents;
      if limit > 0 {
        limit := limit - 1;
        if limit == 0 {
          if docData.nelems > 0 {
            // data remains after limit exhausted
            panicked := true;
            return true;
          }
          err := NotFound;
        }
      }
      taken := taken + [doc];
      return false;
    }

    method Prefetch()
      requires Valid() && cursorId != 0 && err == None
      modifies this`docsBeforeMore, this`docsToReceive, this`request
      ensures Valid() && Value() == Prefetched(old(Value()))
    {
      hide RingQueue.Valid;
      docsBeforeMore := docsBeforeMore - 1;
      if docsBeforeMore == -1 {
        BeginMore(false);
      }
    }
  }

  lemma NoPrefetch(s: Iter)
    requires !s.cursor || s.err != None
    ensures Prefetched(s) == s
  {
  }

  /** After how many documents more are requested. */
  function MoreAfter(limit: nat, process: nat, ahead: int): int {
    if limit == 0 || process < limit then process - ahead else -1
  }

  lemma RepliedIs(q: Query, s: Iter, n: nat, alive: bool, ahead: int)
    requires n > 0 && s.sent + n <= |q.results|
    ensures Replied(q, s, n, alive, ahead) ==
      Iter(s.limit, s.batch, s.buffer + [q.results[s.sent]], s.toReceive - 1 + (n - 1), MoreAfter(s.limit, |s.buffer| + n, ahead),
           alive, s.err, s.panicked, Idle, q.results[s.sent + 1..s.sent + n], s.sent + n, s.taken, 0, s.cutOff, s.deadlocked)
  {
  }
}
