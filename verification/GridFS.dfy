/** Files in GridFS (mgo.v2/gridfs.go): a writer that cuts what it is given into chunks and inserts
    them in the background, and a reader with a partial buffer and a prefetched chunk. */
module GridFS {
  import opened Bytes
  import opened Chunks

  datatype Mode = Closed | Reading | Writing
  datatype Error = Ok | EOF | ErrSeekPastEnd | ErrInsert | ErrAborted | ErrFetch | RuntimePanic
  datatype Whence = FromStart | FromCurrent | FromEnd

  /** A chunk that was fetched ahead, unless the fetch failed. */
  datatype Cached = Cached(n: nat, data: Option<seq<byte>>)

  /** A document of the files collection. `sum` is what the checksum was computed of. */
  datatype FileDoc = FileDoc(length: nat, chunkSize: nat, sum: seq<byte>)

  /** An insert is made and answered, made with its answer lost, or not made. */
  datatype Outcome = Made | Lost | NotMade

  /** How the database deals with what it is asked for: the outcomes of inserting each chunk and the
      file document, the chunks that are still there after their removal, and whether a chunk that is
      there is found whenever it is looked for; if not, it may be found or not. */
  datatype Answers = Answers(chunk: nat -> Outcome, file: Outcome, survivors: set<nat>, reliable: bool)

  /** What the two collections hold for one file id. */
  class Store {
    const answers: Answers
    var chunks: map<nat, seq<byte>>
    var file: Option<FileDoc>

    constructor (answers: Answers)
      ensures chunks == map[] && file == None && this.answers == answers
    {
      this.answers := answers;
      chunks, file := map[], None;
    }

    /** The inserts of all chunks of a file are made and answered. */
    ghost predicate TakesAll(chunkSize: nat, data: seq<byte>) {
      forall n: nat :: n * chunkSize < |data| ==> answers.chunk(n) == Made
    }

    lemma TakesLess(chunkSize: nat, some: seq<byte>, all: seq<byte>)
      requires some <= all && TakesAll(chunkSize, all)
      ensures TakesAll(chunkSize, some)
    {
    }
  }

  class GridFile {
    const store: Store
    const chunkSize: nat
    var mode: Mode
    var err: Error
    var chunk: nat
    var offset: nat
    var length: nat

    // Writing
    var wpending: nat
    var wbuf: seq<byte>
    var wsum: seq<byte>                 // what was added to the checksum
    var inserts: map<nat, seq<byte>>    // the inserts that are under way
    ghost var missing: set<nat>         // the chunks that were not inserted

    // Reading
    var rbuf: seq<byte>
    var rcache: Option<Cached>
    ghost var skip: nat                 // how far the buffer is ahead of the cursor

    ghost var data: seq<byte>           // everything written to the file, or the file that is read

    // --- Writing ----------------------------------------------------------------------------

    ghost predicate ValidWriting()
      reads this`mode, this`wpending, this`inserts, this`missing, this`wbuf, this`wsum, this`err, this`length, this`data,
        this`chunk, store
    {
      ValidWritingBut([]) && |wbuf| <= chunkSize
    }

    /** Valid, except that `p` is still to be dealt with. */
    ghost predicate ValidWritingBut(p: seq<byte>)
      reads this`mode, this`wpending, this`inserts, this`missing, this`wbuf, this`wsum, this`err, this`length, this`data,
        this`chunk, store
    {
      && mode == Writing && chunkSize > 0 && store.file == None && Bounded() && OnTrack(chunk, wsum)
      && (err == Ok || err == ErrInsert || err == ErrAborted)
      && Full(chunkSize, chunk, wsum) && data == wsum + (wbuf + p) && length == |data|
    }

    constructor Create(store: Store, chunkSize: nat)
      requires chunkSize > 0 && store.file == None && store.chunks == map[]
      ensures ValidWriting() && this.store == store && this.chunkSize == chunkSize && data == [] && err == Ok
    {
      this.store, this.chunkSize := store, chunkSize;
      mode, err, chunk, offset, length := Writing, Ok, 0, 0, 0;
      wpending, wbuf, wsum, inserts, missing := 0, [], [], map[], {};
      rbuf, rcache, skip, data := [], None, 0, [];
    }

    /** How much is on its way. */
    ghost predicate Bounded()
      reads this`wpending, this`inserts, this`chunk
    {
      && wpending == |inserts| && Room(chunkSize, wpending)
      && (forall n :: n in inserts ==> n < chunk)
    }

    /** Of `count` chunks each is where it should be, and an error tells that an insert failed. */
    ghost predicate OnTrack(count: nat, sum: seq<byte>)
      reads this`err, this`inserts, this`missing, store`chunks
    {
      Tracked(store.chunks, inserts, missing, chunkSize, count, sum) && Heard(count)
    }

    ghost predicate Heard(count: nat)
      reads this`err, this`missing, store`chunks
    {
      HeardOf(err, store.chunks, missing, count)
    }

    ghost predicate HeardOf(err: Error, chunks: map<nat, seq<byte>>, missing: set<nat>, count: nat) {
      && (forall n :: n in chunks ==> store.answers.chunk(n) != NotMade)
      && (err == Ok ==> missing == {} && forall n :: n in chunks ==> store.answers.chunk(n) == Made)
      && (err == ErrInsert ==> exists n: nat :: n < count && store.answers.chunk(n) != Made)
    }

    /** An error comes only where there was none. */
    static predicate Fails(before: Error, after: Error) {
      after == before || (before == Ok && after == ErrInsert)
    }

    /** One of the inserts under way ends, well or badly. */
    method Complete(ghost count: nat, ghost sum: seq<byte>)
      requires wpending == |inserts| > 0 && OnTrack(count, sum)
      modifies this`wpending, this`inserts, this`missing, this`err, store`chunks
      ensures wpending == |inserts| == old(wpending) - 1 && inserts.Keys <= old(inserts.Keys)
      ensures Fails(old(err), err) && OnTrack(count, sum)
    {
      hide Tracked, HeardOf, ChunkAt;
      var n :| n in inserts;
      Arrives(store.chunks, inserts, missing, chunkSize, count, sum, n);
      OneLess(inserts, n);
      Heeds(err, store.chunks, missing, n, inserts[n], count);
      var d := inserts[n];
      inserts := inserts - {n};
      wpending := wpending - 1;
      var outcome := store.answers.chunk(n);
      if outcome == NotMade {
        missing := missing + {n};
      } else {
        store.chunks := store.chunks[n := d];
      }
      if outcome != Made && err == Ok {
        err := ErrInsert;
      }
    }

    /** What was heard stays heard when the insert of chunk `n` ends. */
    lemma Heeds(err: Error, chunks: map<nat, seq<byte>>, missing: set<nat>, n: nat, d: seq<byte>, count: nat)
      requires HeardOf(err, chunks, missing, count) && n < count
      ensures var e := if err == Ok && store.answers.chunk(n) != Made then ErrInsert else err;
        if store.answers.chunk(n) == NotMade then HeardOf(e, chunks, missing + {n}, count)
        else HeardOf(e, chunks[n := d], missing, count)
    {
    }

    /** Time goes by between two calls: any number of inserts end. */
    method Elapse()
      requires Bounded() && OnTrack(chunk, wsum)
      modifies this`wpending, this`inserts, this`missing, this`err, store`chunks
      ensures Bounded() && OnTrack(chunk, wsum) && Fails(old(err), err)
    {
      hide OnTrack, Room;
      ghost var was := wpending;
      var k: nat :| k <= wpending;
      WaitFor(k, chunk, wsum);
      FewerPending(chunkSize, wpending, was);
    }

    /** Waits until at least one insert has ended. */
    method Wait(ghost count: nat, ghost sum: seq<byte>)
      requires wpending == |inserts| > 0 && OnTrack(count, sum)
      modifies this`wpending, this`inserts, this`missing, this`err, store`chunks
      ensures wpending == |inserts| < old(wpending) && inserts.Keys <= old(inserts.Keys)
      ensures Fails(old(err), err) && OnTrack(count, sum)
    {
      hide Tracked, Heard;
      var k: nat :| 0 < k <= wpending;
      WaitFor(k, count, sum);
    }

    method WaitFor(k: nat, ghost count: nat, ghost sum: seq<byte>)
      requires wpending == |inserts| && k <= wpending && OnTrack(count, sum)
      modifies this`wpending, this`inserts, this`missing, this`err, store`chunks
      ensures wpending == |inserts| == old(wpending) - k && inserts.Keys <= old(inserts.Keys)
      ensures Fails(old(err), err) && OnTrack(count, sum)
    {
      hide Tracked, Heard;
      for i := 0 to k
        invariant wpending == |inserts| == old(wpending) - i && inserts.Keys <= old(inserts.Keys)
        invariant Fails(old(err), err) && OnTrack(count, sum)
      {
        Complete(count, sum);
      }
    }

    /** Sends a chunk on its way, once less than a megabyte is pending. */
    method InsertChunk(d: seq<byte>)
      requires chunkSize > 0 && 0 < |d| <= chunkSize && Bounded() && OnTrack(chunk, wsum)
      requires Full(chunkSize, chunk, wsum)
      modifies this`wpending, this`inserts, this`missing, this`err, this`chunk, this`wsum, store`chunks
      ensures Bounded() && OnTrack(chunk, wsum) && Fails(old(err), err)
      ensures chunk == old(chunk) + 1 && wsum == old(wsum) + d
      ensures AtMost(chunkSize, chunk, wsum) && (|d| == chunkSize ==> Full(chunkSize, chunk, wsum))
    {
      hide Tracked, ChunkAt, Room, Full, AtMost;
      OneChunk(chunkSize, chunk, wsum, d);
      var n := chunk;
      ghost var before := wsum;
      chunk := chunk + 1;
      wsum := wsum + d;
      var stop := Hold(n, before);
      TrackChunk(store.chunks, inserts, missing, chunkSize, n, before, d);
      if stop {
        missing := missing + {n};
        return;
      }
      Launch(n, d);
    }

    /** Starts the insert of chunk `n` in the background. */
    method Launch(n: nat, d: seq<byte>)
      requires wpending == |inserts| && n !in inserts && chunkSize * wpending < PENDING_LIMIT
      modifies this`wpending, this`inserts
      ensures wpending == |inserts| && Room(chunkSize, wpending) && inserts == old(inserts)[n := d]
    {
      hide Room;
      OneMore(chunkSize, wpending);
      assert inserts[n := d].Keys == inserts.Keys + {n};
      wpending := wpending + 1;
      inserts := inserts[n := d];
    }

    /** Waits while a megabyte or more is pending, unless something goes wrong. */
    method Hold(ghost count: nat, ghost sum: seq<byte>) returns (stop: bool)
      requires wpending == |inserts| && Room(chunkSize, wpending) && OnTrack(count, sum)
      modifies this`wpending, this`inserts, this`missing, this`err, store`chunks
      ensures wpending == |inserts| && Room(chunkSize, wpending) && inserts.Keys <= old(inserts.Keys)
      ensures if stop then err != Ok else chunkSize * wpending < PENDING_LIMIT
      ensures Fails(old(err), err) && OnTrack(count, sum)
    {
      hide Tracked, Room, Heard;
      while chunkSize * wpending >= PENDING_LIMIT
        invariant wpending == |inserts| && Room(chunkSize, wpending) && inserts.Keys <= old(inserts.Keys)
        invariant Fails(old(err), err) && OnTrack(count, sum)
        decreases wpending
      {
        // Hold on.. we got a MB pending.
        ghost var was := wpending;
        Wait(count, sum);
        FewerPending(chunkSize, wpending, was);
        if err != Ok {
          return true;
        }
      }
      return false;
    }

    /** Adds to the end of the file. Full chunks go out, the rest is kept for a later call. */
    method Write(p: seq<byte>) returns (n: nat, e: Error)
      requires ValidWriting()
      modifies this`wpending, this`inserts, this`missing, this`err, this`chunk, this`wsum, this`wbuf, this`length, this`data,
        store`chunks
      ensures ValidWriting() && e == err && Fails(old(err), err)
      ensures old(err) != Ok ==> n == 0 && data == old(data)
      ensures old(err) == Ok ==> (n == |p| && data == old(data) + p) || (n == 0 && e == ErrInsert && data == old(data))
    {
      hide Tracked, Heard, OnTrack, Full, Room, Bounded;
      Elapse();
      if err != Ok {
        return 0, err;
      }
      n := |p|;
      length := length + n;
      data := data + p;
      if |wbuf| + |p| < chunkSize {
        wbuf := wbuf + p;
        return n, err;
      }
      var rest := FlushBuffer(p);
      rest := FlushChunks(rest);
      // And append the rest for a future call.
      wbuf := wbuf + rest;
      return n, err;
    }

    /** Sends all full chunks but the last without copying. */
    method FlushChunks(p: seq<byte>) returns (rest: seq<byte>)
      requires chunkSize > 0 && Bounded() && OnTrack(chunk, wsum)
      requires Full(chunkSize, chunk, wsum) && data == wsum + p
      modifies this`wpending, this`inserts, this`missing, this`err, this`chunk, this`wsum, store`chunks
      ensures Bounded() && OnTrack(chunk, wsum) && Fails(old(err), err) && |rest| <= chunkSize
      ensures Full(chunkSize, chunk, wsum) && data == wsum + rest
    {
      hide Tracked, Bounded, OnTrack;
      rest := p;
      while |rest| > chunkSize
        invariant Bounded() && OnTrack(chunk, wsum) && Fails(old(err), err)
        invariant Full(chunkSize, chunk, wsum) && data == wsum + rest
        decreases |rest|
      {
        var size := chunkSize;
        if size > |rest| {
          size := |rest|;
        }
        Regroup(wsum, rest, size);
        InsertChunk(rest[..size]);
        rest := rest[size..];
      }
    }

    /** Completes the buffer to a full chunk and sends it. What was not needed is left. */
    method FlushBuffer(p: seq<byte>) returns (rest: seq<byte>)
      requires ValidWritingBut(p) && |wbuf| <= chunkSize <= |wbuf| + |p|
      modifies this`wpending, this`inserts, this`missing, this`err, this`chunk, this`wsum, this`wbuf, store`chunks
      ensures Bounded() && OnTrack(chunk, wsum) && Fails(old(err), err) && wbuf == []
      ensures Full(chunkSize, chunk, wsum) && data == wsum + rest
    {
      hide Tracked, Heard;
      rest := p;
      if |wbuf| > 0 {
        var missed := chunkSize - |wbuf|;
        if missed > |rest| {
          missed := |rest|;
        }
        ghost var all := wbuf + p;
        wbuf := wbuf + rest[..missed];
        rest := rest[missed..];
        assert all == wbuf + rest;
        assert wsum + (wbuf + rest) == wsum + wbuf + rest;
        InsertChunk(wbuf);
        wbuf := [];
      }
    }

    /** Gives the write up. */
    method Abort()
      requires ValidWriting()
      modifies this`err
      ensures ValidWriting() && err == ErrAborted
    {
      hide Tracked;
      err := ErrAborted;
    }

    /** All chunks can be stored, and nobody gave the write up. */
    ghost predicate Completes()
      reads this`err, this`data
    {
      err != ErrAborted && store.TakesAll(chunkSize, data)
    }

    ghost function Document(): FileDoc
      reads this`data
    {
      FileDoc(|data|, chunkSize, data)
    }

    /** Finishes the file. There is no error exactly when all inserts are made and answered; then the
        file is there with all its chunks. Otherwise the chunks that were stored are removed; the
        removal may leave some behind, and the file document is there if just its answer was lost. */
    method CloseWriting() returns (e: Error, ghost stored: map<nat, seq<byte>>)
      requires ValidWriting()
      modifies this`wpending, this`inserts, this`missing, this`err, this`chunk, this`wsum, this`wbuf, this`mode, store
      ensures mode == Closed && wpending == 0 && inserts == map[] && e == err
      ensures e == Ok <==> old(Completes()) && store.answers.file == Made
      ensures old(err) != Ok ==> e == old(err) && !old(Completes())
      ensures store.file == if old(Completes()) && store.answers.file != NotMade then Some(Document()) else None
      ensures Parts(stored, chunkSize, data) && forall n :: n in stored ==> store.answers.chunk(n) != NotMade
      ensures old(err) != Ok ==> Parts(stored, chunkSize, old(wsum))
      ensures old(Completes()) ==> Stored(stored, chunkSize, data)
      ensures store.chunks == if e == Ok then stored else Left(stored, store.answers.survivors)
      ensures e != Ok ==> (store.file == None && store.chunks == map[] <==>
                stored.Keys !! store.answers.survivors && !(old(Completes()) && store.answers.file == Lost))
    {
      hide Tracked, Stored, Room, Full, AtMost, Parts, Left, Heard, Store.TakesAll;
      assert wsum + (wbuf + []) == wsum + wbuf;
      Exactly(chunkSize, chunk, wsum);
      Elapse();
      if |wbuf| > 0 && err == Ok {
        InsertChunk(wbuf);
        wbuf := [];
      }
      stored := CompleteWrite();
      mode := Closed;
      e := err;
    }

    /** Waits for the chunks, then inserts the file document, or removes the chunks. */
    method CompleteWrite() returns (ghost stored: map<nat, seq<byte>>)
      requires store.file == None && Bounded() && OnTrack(chunk, wsum) && (err == Ok || err == ErrInsert || err == ErrAborted)
      requires chunkSize > 0 && length == |data| && wsum <= data && AtMost(chunkSize, chunk, wsum)
      requires wsum == data || (err != Ok && Full(chunkSize, chunk, wsum))
      modifies this`wpending, this`inserts, this`missing, this`err, store
      ensures wpending == 0 && inserts == map[]
      ensures err == Ok <==> old(Completes()) && store.answers.file == Made
      ensures old(err) != Ok ==> err == old(err) && !old(Completes())
      ensures store.file == if old(Completes()) && store.answers.file != NotMade then Some(Document()) else None
      ensures Parts(stored, chunkSize, data) && forall n :: n in stored ==> store.answers.chunk(n) != NotMade
      ensures Parts(stored, chunkSize, wsum)
      ensures old(Completes()) ==> Stored(stored, chunkSize, data)
      ensures store.chunks == if err == Ok then stored else Left(stored, store.answers.survivors)
      ensures err != Ok ==> (store.file == None && store.chunks == map[] <==>
                stored.Keys !! store.answers.survivors && !(old(Completes()) && store.answers.file == Lost))
    {
      hide Tracked, Stored, Room, Full, AtMost, Parts, Left, Heard, Store.TakesAll, Bounded, OnTrack;
      Drain();
      if wsum != data {
        PartsOfMore(store.chunks, chunkSize, chunk, wsum, data);
      }
      if store.TakesAll(chunkSize, data) {
        store.TakesLess(chunkSize, wsum, data);
      }
      stored := store.chunks;
      NothingLeft(stored, store.answers.survivors);
      if err == Ok {
        if store.answers.file != NotMade {
          store.file := Some(FileDoc(length, chunkSize, wsum));
        }
        if store.answers.file != Made {
          err := ErrInsert;
        }
      }
      if err != Ok {
        store.chunks := Left(store.chunks, store.answers.survivors);
      }
    }

    /** Waits for the end of all inserts. An error means that one of them failed. */
    method Drain()
      requires Bounded() && OnTrack(chunk, wsum) && (err == Ok || err == ErrInsert || err == ErrAborted)
      requires err == Ok ==> AtMost(chunkSize, chunk, wsum)
      modifies this`wpending, this`inserts, this`missing, this`err, store`chunks
      ensures wpending == 0 && inserts == map[] && Fails(old(err), err)
      ensures Parts(store.chunks, chunkSize, wsum)
      ensures forall n :: n in store.chunks ==> store.answers.chunk(n) != NotMade
      ensures err == Ok ==> Stored(store.chunks, chunkSize, wsum) && store.TakesAll(chunkSize, wsum)
      ensures err == ErrInsert ==> !store.TakesAll(chunkSize, wsum)
    {
      hide Tracked, Stored, Room, Full, AtMost, Parts, Heard;
      while wpending > 0
        invariant Bounded() && OnTrack(chunk, wsum) && Fails(old(err), err)
        decreases wpending
      {
        ghost var was := wpending;
        Wait(chunk, wsum);
        FewerPending(chunkSize, wpending, was);
      }
      assert inserts == map[];
      TrackedParts(store.chunks, inserts, missing, chunkSize, chunk, wsum);
      Known();
      if err == Ok {
        AllStored(store.chunks, chunkSize, chunk, wsum);
      }
    }

    /** At the end the error tells whether all chunks were inserted well. */
    lemma Known()
      requires OnTrack(chunk, wsum) && inserts == map[] && (err == Ok ==> AtMost(chunkSize, chunk, wsum))
      ensures forall n :: n in store.chunks ==> store.answers.chunk(n) != NotMade
      ensures err == Ok ==> missing == {} && store.TakesAll(chunkSize, wsum)
      ensures err == ErrInsert ==> !store.TakesAll(chunkSize, wsum)
    {
      if err == Ok {
        forall n: nat | n * chunkSize < |wsum| ensures store.answers.chunk(n) == Made {
          if n >= chunk { Grows(chunkSize, chunk, n); }
        }
      }
    }

    // --- Reading ----------------------------------------------------------------------------

    /** A file is opened for reading; some of its chunks may not be there. */
    constructor Open(store: Store, doc: FileDoc)
      requires store.file == Some(doc) && doc.chunkSize > 0 && doc.length == |doc.sum|
      requires Parts(store.chunks, doc.chunkSize, doc.sum)
      ensures ValidReading() && this.store == store && chunkSize == doc.chunkSize && data == doc.sum && offset == 0 && skip == 0
      ensures length == doc.length && chunk == 0 && rbuf == []
    {
      this.store, this.chunkSize := store, doc.chunkSize;
      mode, err, chunk, offset, length := Reading, Ok, 0, 0, doc.length;
      wpending, wbuf, wsum, inserts, missing := 0, [], [], map[], {};
      rbuf, rcache, skip, data := [], None, 0, doc.sum;
    }

    /** The next bytes to be returned are those of the file from `skip` bytes behind the cursor on. */
    ghost predicate ValidReading()
      reads this`mode, this`chunk, this`offset, this`length, this`rbuf, this`rcache, this`skip, this`data, store`chunks
    {
      Same() && offset <= length && (offset < length ==> InStep())
    }

    ghost predicate InStep()
      reads this`chunk, this`offset, this`rbuf, this`skip, this`data
    {
      offset + skip <= |data| && Buffered(chunkSize, data, chunk, offset + skip, rbuf)
    }

    /** Everything but the cursor and the buffer. */
    ghost predicate Same()
      reads this`mode, this`length, this`rcache, this`data, store`chunks
    {
      mode == Reading && chunkSize > 0 && Parts(store.chunks, chunkSize, data) && length == |data| && CacheOk()
    }

    /** The prefetched chunk is the chunk it says it is. */
    ghost predicate CacheOk()
      reads this`rcache, store`chunks
    {
      rcache.Some? ==> Answer(rcache.value.n, rcache.value.data)
    }

    /** What the database may answer when it is asked for chunk `n`. */
    ghost predicate Answer(n: nat, d: Option<seq<byte>>)
      reads store`chunks
    {
      && (d.Some? ==> n in store.chunks && d.value == store.chunks[n])
      && (store.answers.reliable && n in store.chunks ==> d.Some?)
    }

    /** All chunks from `c` on are there and will be found. */
    ghost predicate Supplied(c: nat)
      reads this`data, store`chunks
    {
      store.answers.reliable && forall k: nat :: c <= k && k * chunkSize < |data| ==> k in store.chunks
    }

    /** Asks the database for a chunk. */
    method Find(n: nat) returns (d: Option<seq<byte>>)
      ensures Answer(n, d)
    {
      var answered := *;
      d := if (answered || store.answers.reliable) && n in store.chunks then Some(store.chunks[n]) else None;
    }

    /** The next chunk, from the cache or the database. The one behind it is fetched ahead. Even if
        the chunk cannot be had, the one behind it will be next. */
    method GetChunk() returns (d: seq<byte>, e: Error)
      requires length == |data| && CacheOk()
      modifies this`rcache, this`chunk
      ensures chunk == old(chunk) + 1 && CacheOk() && (e == Ok || e == ErrFetch)
      ensures if e == Ok then old(chunk) in store.chunks && d == store.chunks[old(chunk)] else d == []
      ensures store.answers.reliable && old(chunk) in store.chunks ==> e == Ok
    {
      var cache := rcache;
      rcache := None;
      var found;
      if cache.Some? && cache.value.n == chunk {
        found := cache.value.data;
      } else {
        found := Find(chunk);
      }
      chunk := chunk + 1;
      if chunk * chunkSize < length {
        var ahead := Find(chunk);
        rcache := Some(Cached(chunk, ahead));
      }
      if found.Some? {
        return found.value, Ok;
      }
      return [], ErrFetch;
    }

    /** Sets the cursor. It cannot be set behind the end of the file. Moving on within the chunk of
        the buffer goes wrong when the buffer is ahead of the cursor; any other move sets that right,
        or fails to fetch the chunk. */
    method Seek(delta: int, whence: Whence) returns (pos: nat, e: Error)
      requires ValidReading() && Target(delta, whence) >= 0
      modifies this`offset, this`chunk, this`rbuf, this`rcache, this`skip
      ensures ValidReading() && pos == offset
      ensures var to := old(Target(delta, whence));
        if to > length then e == ErrSeekPastEnd && offset == old(offset) && skip == old(skip)
        else if to == length then e == Ok && offset == to
        else if old(Near(to)) then
          if to + old(skip) <= EndOf(chunkSize, length, Index(chunkSize, to)) then e == Ok && offset == to && skip == old(skip)
          else e == RuntimePanic && offset == old(offset) && skip == old(skip)
        else offset == to && (if e == Ok then skip == 0 else e == ErrFetch && offset + skip == EndOf(chunkSize, length, Index(chunkSize, to)))
      ensures old(skip) == 0 && e != ErrFetch ==> skip == 0 && e != RuntimePanic
      ensures e == Ok ==> pos == match whence case FromStart => delta case FromCurrent => old(offset) + delta case FromEnd => length + delta
      ensures delta == 0 && whence == FromEnd ==> e == Ok && pos == length
      ensures store.answers.reliable && old(Here(Target(delta, whence))) ==> e != ErrFetch
    {
      hide ChunkAt, Buffered, Index, Parts, EndOf;
      var to := Target(delta, whence);
      if to > length {
        return offset, ErrSeekPastEnd;
      }
      if to == length {
        // If we're seeking to the end of the file, no need to read anything.
        offset, skip := to, 0;
        return offset, Ok;
      }
      var c := Index(chunkSize, to);
      if c + 1 == chunk && to >= offset {
        Forward(chunkSize, data, chunk, offset, skip, rbuf, to);
        if to - offset > |rbuf| {
          // The buffer is sliced behind its end.
          return offset, RuntimePanic;
        }
        rbuf := rbuf[to - offset..];
        offset := to;
        return offset, Ok;
      }
      offset := to;
      e := Fetch(c);
      return offset, e;
    }

    /** The chunk that position `to` lies in is there. */
    ghost predicate Here(to: nat)
      requires chunkSize > 0
      reads this`length, store`chunks
    {
      to < length && Index(chunkSize, to) in store.chunks
    }

    /** The buffer is thought to hold what comes between the cursor and `to`. */
    predicate Near(to: nat)
      requires chunkSize > 0
      reads this`chunk, this`offset
    {
      Index(chunkSize, to) + 1 == chunk && to >= offset
    }

    /** Fills the buffer with what chunk `c` holds from the cursor on. */
    method Fetch(c: nat) returns (e: Error)
      requires Same() && offset < |data| && c == Index(chunkSize, offset)
      modifies this`chunk, this`rbuf, this`rcache, this`skip
      ensures Same() && InStep()
      ensures if e == Ok then skip == 0 else e == ErrFetch && skip > 0 && offset + skip == EndOf(chunkSize, length, c)
      ensures if c in store.chunks then store.answers.reliable ==> e == Ok else e != Ok
    {
      hide Buffered, Index, Parts, EndOf;
      Jump(chunkSize, data, c, offset);
      chunk := c;
      rbuf := [];
      rbuf, e := GetChunk();
      if e == Ok {
        assert rbuf == ChunkAt(chunkSize, data, c) by { Present(store.chunks, chunkSize, data, c); }
        rbuf := rbuf[offset - c * chunkSize..];
        skip := 0;
      } else {
        skip := EndOf(chunkSize, length, c) - offset;
      }
    }

    function Target(delta: int, whence: Whence): int
      reads this`offset, this`length
    {
      match whence
      case FromStart => delta
      case FromCurrent => delta + offset
      case FromEnd => delta + length
    }

    /** Copies what the buffer holds to `b`, behind the first `m` bytes, which are those of the file
        from `from` on. */
    method Give(b: array<byte>, m: nat, ghost from: nat) returns (n: nat)
      requires chunkSize > 0 && InStep() && m <= b.Length && offset < |data|
      requires from + m == offset + skip && b[..m] == data[from..from + m]
      modifies this`offset, this`rbuf, b
      ensures InStep() && (rbuf == [] || n == b.Length) && (old(rbuf) == [] ==> n == m && rbuf == [])
      ensures m <= n <= b.Length && n - m == offset - old(offset) && (old(rbuf) != [] && m < b.Length ==> n > m)
      ensures from + n == offset + skip && b[..n] == data[from..from + n]
      ensures forall i :: n <= i < b.Length ==> b[i] == old(b[i])
    {
      hide Buffered;
      var i := if |rbuf| < b.Length - m then |rbuf| else b.Length - m;
      Consume(chunkSize, data, chunk, offset + skip, rbuf, i);
      Extend(b, m, rbuf[..i]);
      n := m + i;
      Join(data, from, from + m, from + n);
      offset := offset + i;
      rbuf := rbuf[i..];
    }

    lemma SuppliedOn(c: nat)
      requires Supplied(c)
      ensures Supplied(c + 1)
    {
    }

    /** Refills the empty buffer, or leaves a chunk out. */
    method NextChunk() returns (e: Error)
      requires Same() && InStep() && rbuf == []
      modifies this`chunk, this`rbuf, this`rcache, this`skip
      ensures Same() && InStep() && chunk == old(chunk) + 1
      ensures if e == Ok then skip == old(skip) && rbuf != []
              else e == ErrFetch && skip == old(skip) + SizeOf(chunkSize, length, old(chunk)) && rbuf == []
      ensures old(chunk) !in store.chunks ==> e != Ok
      ensures Supplied(old(chunk)) && old(offset + skip) < length ==> e == Ok
    {
      hide ChunkAt, Buffered, Parts, SizeOf;
      Missed(chunkSize, data, chunk, offset + skip);
      NotLast(chunkSize, data, chunk, offset + skip);
      ghost var c := chunk;
      rbuf, e := GetChunk();
      if e == Ok {
        Present(store.chunks, chunkSize, data, c);
        Refill(chunkSize, data, c, offset + skip);
      } else {
        skip := skip + SizeOf(chunkSize, length, c);
      }
    }

    /** How much is to be read into `size` bytes. */
    function Wanted(size: nat): nat
      reads this`length, this`offset
      requires offset <= length
    {
      if size < length - offset then size else length - offset
    }

    /** Reads what there is from the cursor on, as much as fits into `b`, taken from `skip` bytes
        further on. When a chunk cannot be had it is skipped from then on. */
    method Read(b: array<byte>) returns (n: nat, e: Error)
      requires ValidReading()
      modifies this`offset, this`chunk, this`rbuf, this`rcache, this`skip, b
      ensures ValidReading() && offset == old(offset) + n && n <= b.Length
      ensures e == Ok || e == EOF || e == ErrFetch
      ensures e == EOF <==> old(offset) == length
      ensures e != ErrFetch <==> n == old(Wanted(b.Length))
      ensures e != EOF ==> old(offset + skip) + n <= length && b[..n] == data[old(offset + skip)..old(offset + skip) + n]
      ensures if e == ErrFetch then chunk > 0 && skip == old(skip) + SizeOf(chunkSize, length, chunk - 1) else skip == old(skip)
      ensures forall i :: n <= i < b.Length ==> b[i] == old(b[i])
      ensures old(rbuf == [] && chunk !in store.chunks && offset < length) && b.Length > 0 ==>
                e == ErrFetch && n == 0 && chunk == old(chunk) + 1 && rbuf == []
      ensures old(Supplied(chunk)) && old(offset + skip) + old(Wanted(b.Length)) <= length ==> e != ErrFetch
    {
      hide ChunkAt, Buffered, Parts, SizeOf, CacheOk, Supplied;
      n := 0;
      if offset == length {
        return 0, EOF;
      }
      e := Ok;
      ghost var from, c0, gone := offset + skip, chunk, rbuf == [] && chunk !in store.chunks && b.Length > 0;
      ghost var there := Supplied(chunk) && offset + skip + Wanted(b.Length) <= length;
      while e == Ok
        invariant Same() && InStep() && offset < length && n <= b.Length && offset == old(offset) + n
        invariant from + n <= |data| && b[..n] == data[from..from + n] && (e == Ok ==> from + n == offset + skip)
        invariant e == Ok || (e == ErrFetch && chunk > 0 && n < b.Length)
        invariant skip == if e == ErrFetch then old(skip) + SizeOf(chunkSize, length, chunk - 1) else old(skip)
        invariant forall i :: n <= i < b.Length ==> b[i] == old(b[i])
        invariant gone ==> n == 0 && rbuf == [] && chunk == c0 + if e == Ok then 0 else 1
        invariant there ==> Supplied(chunk) && e == Ok
        decreases e == Ok, length - offset, if rbuf == [] then 1 else 0
      {
        n := Give(b, n, from);
        if n == b.Length || offset == length {
          break;
        }
        ghost var c := chunk;
        e := NextChunk();
        if Supplied(c) { SuppliedOn(c); }
      }
      return n, e;
    }
  }

  lemma Present(chunks: map<nat, seq<byte>>, cs: nat, data: seq<byte>, n: nat)
    requires Parts(chunks, cs, data) && n in chunks
    ensures n * cs < |data| && chunks[n] == ChunkAt(cs, data, n)
  {
  }

  function Flat(pieces: seq<seq<byte>>): seq<byte> {
    if pieces == [] then [] else Flat(pieces[..|pieces| - 1]) + pieces[|pieces| - 1]
  }

  /** A file that is written in any pieces and closed. There is no error exactly when all inserts are
      made and answered; then the file can be opened again, and is the array of all bytes written with
      the cursor at its start. Otherwise there is nothing left of it exactly when none of the chunks
      that were stored survives the removal, and it is not the case that all chunks were stored and
      the answer to the insert of the file document was lost. */
  method WriteAndReopen(store: Store, chunkSize: nat, pieces: seq<seq<byte>>)
      returns (e: Error, f: GridFile?, ghost stored: map<nat, seq<byte>>)
    requires chunkSize > 0 && store.file == None && store.chunks == map[]
    modifies store
    ensures e == Ok <==> store.TakesAll(chunkSize, Flat(pieces)) && store.answers.file == Made
    ensures e == Ok ==> f != null && f.ValidReading() && f.data == Flat(pieces) && f.offset == 0 && f.skip == 0
    ensures e == Ok ==> Stored(store.chunks, chunkSize, Flat(pieces))
    ensures e != Ok ==> f == null && store.chunks == Left(stored, store.answers.survivors)
    ensures e != Ok ==> (store.file == None && store.chunks == map[] <==>
              stored.Keys !! store.answers.survivors && !(store.TakesAll(chunkSize, Flat(pieces)) && store.answers.file == Lost))
    ensures store.file == if store.TakesAll(chunkSize, Flat(pieces)) && store.answers.file != NotMade
                          then Some(FileDoc(|Flat(pieces)|, chunkSize, Flat(pieces))) else None
    ensures Parts(stored, chunkSize, Flat(pieces)) && forall n :: n in stored ==> store.answers.chunk(n) != NotMade
    ensures store.TakesAll(chunkSize, Flat(pieces)) ==> Stored(stored, chunkSize, Flat(pieces))
  {
    hide Stored, Tracked, Parts, Left;
    var w := new GridFile.Create(store, chunkSize);
    for i := 0 to |pieces|
      invariant w.ValidWriting() && w.store == store && w.chunkSize == chunkSize && fresh(w)
      invariant w.err == Ok ==> w.data == Flat(pieces[..i])
      invariant w.err != Ok ==> w.err == ErrInsert && w.data <= Flat(pieces[..i])
    {
      assert pieces[..i + 1][..i] == pieces[..i];
      var n, err := w.Write(pieces[i]);
    }
    assert pieces[..|pieces|] == pieces;
    ghost var all := Flat(pieces);
    ghost var sum, count := w.wsum, w.chunk;
    e, stored := w.CloseWriting();
    if w.data != all {
      PartsOfMore(stored, chunkSize, count, sum, all);
      if store.TakesAll(chunkSize, all) {
        store.TakesLess(chunkSize, w.data, all);
      }
    }
    NothingLeft(stored, store.answers.survivors);
    f := null;
    if e == Ok {
      StoredParts(store.chunks, chunkSize, all);
      f := new GridFile.Open(store, store.file.value);
    }
  }

  /** The file document cannot be inserted, nor the chunk be removed: the chunk stays behind. */
  method ChunkLeftBehind() returns (store: Store, e: Error)
    ensures e != Ok && store.file == None && store.chunks == map[0 := [7]]
  {
    store := new Store(Answers(n => Made, NotMade, {0}, true));
    e := WriteOneByte(store);
  }

  /** The answer to the insert of the file document is lost: the document stays without its chunk. */
  method DocumentLeftBehind() returns (store: Store, e: Error)
    ensures e != Ok && store.file == Some(FileDoc(1, 1, [7])) && store.chunks == map[]
  {
    store := new Store(Answers(n => Made, Lost, {}, true));
    e := WriteOneByte(store);
  }

  /** Two chunks of two bytes, the first of which is missing: reading fails, and reading again gives
      the bytes of the second one as if they were the first. */
  method ReadsShifted() returns (e1: Error, n: nat, b: array<byte>, e2: Error)
    ensures e1 == ErrFetch && e2 == Ok && n == b.Length == 2 && b[..] == [3, 4]
  {
    var f;
    f, b, e1 := FailedOnce();
    assert f.Supplied(1) && f.Wanted(2) == 2;
    hide GridFile.ValidReading, GridFile.Supplied;
    n, e2 := f.Read(b);
    assert b[..] == b[..2] == [1, 2, 3, 4][2..4];
  }

  /** After the same failure a move within the first chunk panics. */
  method SeekPanics() returns (e1: Error, pos: nat, e2: Error)
    ensures e1 == ErrFetch && e2 == RuntimePanic
  {
    var f, b;
    f, b, e1 := FailedOnce();
    assert f.Near(1) && EndOf(2, 4, Index(2, 1)) == 2;
    hide GridFile.ValidReading;
    pos, e2 := f.Seek(1, FromStart);
  }

  /** The first read of such a file. */
  method FailedOnce() returns (f: GridFile, b: array<byte>, e: Error)
    ensures fresh(f) && fresh(f.store) && fresh(b) && b.Length == 2
    ensures f.ValidReading() && f.chunkSize == 2 && f.data == [1, 2, 3, 4] && f.length == 4
    ensures e == ErrFetch && f.offset == 0 && f.skip == 2 && f.chunk == 1
    ensures f.store.answers.reliable && f.store.chunks == map[1 := [3, 4]]
  {
    f := FirstChunkMissing();
    hide GridFile.ValidReading;
    b := new byte[2];
    var n;
    n, e := f.Read(b);
  }

  /** A file whose first chunk is missing, opened for reading. */
  method FirstChunkMissing() returns (f: GridFile)
    ensures fresh(f) && fresh(f.store) && f.ValidReading() && f.chunkSize == 2 && f.data == [1, 2, 3, 4] && f.length == 4
    ensures f.offset == 0 && f.skip == 0 && f.chunk == 0 && f.rbuf == []
    ensures f.store.answers.reliable && f.store.chunks == map[1 := [3, 4]]
  {
    var store := new Store(Answers(n => Made, Lost, {1}, true));
    assert Flat([[1, 2, 3, 4]]) == [1, 2, 3, 4] by { assert Flat([]) == []; assert [[1, 2, 3, 4]][..0] == []; }
    var e, g;
    ghost var stored;
    e, g, stored := WriteAndReopen(store, 2, [[1, 2, 3, 4]]);
    assert ChunkAt(2, [1, 2, 3, 4], 1) == [3, 4];
    assert store.chunks == map[1 := [3, 4]] by { assert 1 in stored; }
    f := new GridFile.Open(store, store.file.value);
  }

  method WriteOneByte(store: Store) returns (e: Error)
    requires store.file == None && store.chunks == map[] && store.TakesAll(1, [7])
    modifies store
    ensures e == Ok <==> store.answers.file == Made
    ensures store.file == if store.answers.file != NotMade then Some(FileDoc(1, 1, [7])) else None
    ensures e != Ok ==> store.chunks == if 0 in store.answers.survivors then map[0 := [7]] else map[]
  {
    assert Flat([[7]]) == [7] by { assert Flat([]) == []; assert [[7]][..0] == []; }
    var f;
    ghost var stored;
    e, f, stored := WriteAndReopen(store, 1, [[7]]);
    assert ChunkAt(1, [7], 0) == [7];
    assert stored == map[0 := [7]] by { assert 0 in stored; }
  }

  method Extend(b: array<byte>, n: nat, s: seq<byte>)
    requires n + |s| <= b.Length
    modifies b
    ensures b[..n + |s|] == old(b[..n]) + s
    ensures forall i :: n + |s| <= i < b.Length ==> b[i] == old(b[i])
  {
    CopyInto(b, n, s);
    assert b[..n] == old(b[..n]);
    assert b[..n + |s|] == b[..n] + b[n..n + |s|];
  }
}
