# Verified models of the protocol code behind superfish

The chat server keeps its data in MongoDB and talks to browsers over WebSockets; the hard code is in
the libraries it vendors. This project models that code in Dafny and proves what it is for.

- **Transactions** (`txn` of mgo). `TxnOps` has the operations and their revision numbers,
  `TxnProtocol` the commit protocol on one transaction record for any number of runners that
  interleave and stop anywhere, `TxnAtomic` the same together with the documents of a transaction of
  updates and assertions, `TxnProgress` that a runner which meets no error finishes, `TxnApply` one
  runner that applies any mix of operations against collection and stash. `Tarjan` and `Graphs` have the sort into strongly connected components,
  `FlushOrder` the successor graph read off the token queues and the order of flushing.
- **WebSocket** (gorilla). `Frames` has the frames of RFC 6455 as bytes and the rules for streams of
  them, `WebSocket` the connection: in-place frame builder, fragmenting writer, incremental reader.
  `Streams` says what a receiver finds in a stream, `RoundTrip` joins two connections.
- **GridFS** (mgo). `Chunks` and `GridFS`: a writer with background inserts, a reader with a partial
  buffer and a prefetched chunk, both against a flat byte array.
- **BSON** (mgo). `Bson` has values, their encoding and their decoding as functions and the round
  trip, `BsonCodec` the encoder with back-patched lengths and the decoder with its index,
  `BsonVectors` the bytes that the tests of the package promise.
- **Cluster** (mgo). `Cluster` has the sorted server lists, `ClusterSync` the goroutines of one
  synchronisation.
- **Cursors** (mgo). `Queue` is the ring buffer, `Cursor` the accounting of the iterator as a state
  machine, `CursorProgress` that it gets to the end, `CursorSleep` who sleeps for ever, `CursorObject`
  the iterator on the ring buffer whose methods make its steps.
- **UTF-8 validator** (gorilla's autobahn example) in `Utf8`, and **Blowfish** in `Blowfish` and
  `BlowfishCipher`, with the published description in `BlowfishTextbook`. `Bytes` has bytes and big-endian numbers.

Code that updates objects is modelled by classes and methods, proved against functions on values.
What runs concurrently, the runners, the goroutines of a synchronisation and the consumers of a
cursor, is modelled as a state machine whose steps are the atomic steps of the source: one database
operation, or what is done under one lock. Runs are sequences of states; the main results hold for
all runs. Answers of databases, networks and clocks, random keys and the iteration order of Go maps
are arbitrary.

Some results differ from what comments or callers may expect:

- `Cursor.PanicsExactlyWhen`: `Next` does panic with "data remains after limit exhausted" when a
  batch may be larger than the limit, for instance with `Limit(2)` and then `Batch(5)`.
- `Bson.RoundTripExact`: times lose what is below a millisecond, and binaries of the obsolete kind 2
  come back as generic ones.
- `CursorSleep.SleepersLeft`: a consumer that sleeps in `Next` is never woken when another one's `getMore`
  gets no socket; and when `getMore` meets a dead socket, the iterator stays locked for ever.
- `Conn.ReadAll`: when the network ends within the payload of a frame, `Read` returns a plain EOF, so
  `ReadMessage` returns a truncated message without an error. Where it ends anywhere else before the
  end of the message, an error is returned.
- `TxnAtomic.PanicsExactlyWhen`: when `rescan` finds a document without the token and the reload of
  the transaction fails, the check for a lost token comes before the one for the error, and panics.
- `GridFile.CloseWriting`: the error of removing the chunks is ignored, so chunks can stay behind
  after a failed write; and when the answer to the insert of the file document is lost, the document
  stays while its chunks are removed.
- `GridFile.Read`: after a chunk could not be fetched, reading again returns the bytes of the chunk
  behind it at the old position. A `Seek` to another chunk sets this right; one within the chunk does
  not, or panics.
- `Bson.DocPanics`: `Unmarshal` panics on some bytes, such as a text or JavaScript whose length is
  zero.
- In `Conn`, the comment at `readFinal` says that it is true while a message has more frames; the
  code uses it the other way round, and so does the model.
- When a message is abandoned by `NextReader`, the rest of it counts towards the read limit of the
  next one (`Streams.Lead`).

## Model

| member | source | states |
|---|---|---|
| TxnOps.AssembledRevnos | Godeps/_workspace/src/gopkg.in/mgo.v2/txn/flusher.go:481-497 | the loop over a map of revisions returns the list that `Assembled` defines; what that list means is `AssembledPredicts` |
| TxnOps.AssembledPredicts | Godeps/_workspace/src/gopkg.in/mgo.v2/txn/flusher.go:481-497 | for any mix of insert, update, remove and assert on any repeated documents, the revision stored for an operation is the one its document has after the operations before it |
| TxnOps.RevnoGrows | Godeps/_workspace/src/gopkg.in/mgo.v2/txn/flusher.go:481-497 | an effective change raises the absolute revision by one and its sign says whether the document exists afterwards |
| TxnOps.AbsRevnoGrows | Godeps/_workspace/src/gopkg.in/mgo.v2/txn/flusher.go:693-744 | over any stretch of operations the absolute revision of a document never falls, and an equal revision means an unchanged document, so no revision repeats |
| TxnOps.RevnoMoved | Godeps/_workspace/src/gopkg.in/mgo.v2/txn/flusher.go:699-744 | after an update took effect its document never again has the revision the update was recorded with |
| TxnOps.WhatIsThere | Godeps/_workspace/src/gopkg.in/mgo.v2/txn/flusher.go:693-836 | for any mix of operations on any documents, said without the step function: a document exists as the last insert or remove of it says, and holds what the last insert that was made brought, or what was there, followed by the updates since |
| TxnProtocol.RecordLifecycle | Godeps/_workspace/src/gopkg.in/mgo.v2/txn/flusher.go:156-187 | in every interleaving of any number of runners, each stopping anywhere, the stored state moves only preparing, prepared, applying, applied or prepared, aborting, aborted, and nonce and revnos are stored once |
| TxnProtocol.AppliersAgree | Godeps/_workspace/src/gopkg.in/mgo.v2/txn/flusher.go:653-692 | every runner that is applying, or has applied, holds the nonce and the revnos that are stored |
| TxnProtocol.OutcomesAgree | Godeps/_workspace/src/gopkg.in/mgo.v2/txn/flusher.go:156-187 | any two runners that return without an error report the same outcome, applied or aborted, and the stored record agrees |
| TxnProtocol.LostRaceIsLater | Godeps/_workspace/src/gopkg.in/mgo.v2/txn/flusher.go:322-343 | a runner that lost a compare-and-set finds a strictly later state when it reloads |
| TxnProtocol.PanicsExactlyWhen | Godeps/_workspace/src/gopkg.in/mgo.v2/txn/flusher.go:322-692 | in every run a runner has panicked exactly when it found a document without the token of a transaction and then could not reload the transaction, or found it still prepared; none of the other panics of prepare, rescan, assert, abort and apply is ever reached |
| TxnProtocol.NextKeeps | Godeps/_workspace/src/gopkg.in/mgo.v2/txn/flusher.go:156-187 | one step of one runner, or a new runner starting from any earlier copy, keeps the invariant that ties every copy to the record |
| TxnAtomic.AllOrNothing | Godeps/_workspace/src/gopkg.in/mgo.v2/txn/flusher.go:680-744 | at every moment of every run of any number of runners the documents are as after some prefix of the updates in order: none before applying and when aborted, all once applied; it applies only if all assertions held, aborts only if one did not |
| TxnAtomic.ReportedOutcome | Godeps/_workspace/src/gopkg.in/mgo.v2/txn/flusher.go:680-744 | once any runner returns, applied means every update was made exactly once and in order on every existing document, aborted that nothing was changed |
| TxnAtomic.PanicsExactlyWhen | Godeps/_workspace/src/gopkg.in/mgo.v2/txn/flusher.go:375-479 | for such transactions a prepared one never loses its tokens, so a runner has panicked exactly when its reload failed after it found a token gone; by then somebody else had decided the outcome |
| TxnAtomic.DecidedBefore | Godeps/_workspace/src/gopkg.in/mgo.v2/txn/flusher.go:452-461 | a runner that finds a document without the token is late: the stored transaction is neither preparing nor prepared any more |
| TxnAtomic.PanicHappens | Godeps/_workspace/src/gopkg.in/mgo.v2/txn/flusher.go:453-461 | a complete run of two runners into that panic: one aborts a transaction whose assertion fails, the other finds the token gone and its reload fails |
| TxnAtomic.ContentAfter | Godeps/_workspace/src/gopkg.in/mgo.v2/txn/flusher.go:699-744 | after `k` operations an existing document has received exactly its updates among them, in order, and its revision grew by their number; a missing one is untouched |
| TxnAtomic.ChecksMeaning | Godeps/_workspace/src/gopkg.in/mgo.v2/txn/flusher.go:540-592 | the assertion queries, which compare with the revision of the first operation on the document, decide exactly what the assertion says about the document before the transaction |
| TxnAtomic.NotTwice | Godeps/_workspace/src/gopkg.in/mgo.v2/txn/flusher.go:699-744 | a runner that is late never finds the revision of an operation that was applied before |
| TxnAtomic.WorldKeeps | Godeps/_workspace/src/gopkg.in/mgo.v2/txn/flusher.go:221-360 | every step of any runner together with what the documents answer keeps the invariant over record, documents, tokens and all runners |
| TxnProgress.CanFinish | Godeps/_workspace/src/gopkg.in/mgo.v2/txn/flusher.go:156-187 | from the last state of any run, wherever the other runners stopped: a runner that has not panicked can go on alone, with every step answered and no error, and then it returns; it reports applied exactly if all assertions held of the documents as they were, and the record agrees |
| TxnProgress.StepOn | Godeps/_workspace/src/gopkg.in/mgo.v2/txn/flusher.go:156-187 | a runner that has not finished always has a step without an error that takes it nearer to its end |
| TxnProgress.RunsAlone | Godeps/_workspace/src/gopkg.in/mgo.v2/txn/flusher.go:156-187 | one runner from the start, without an error: the record ends applied with every update made if all assertions hold, and aborted with nothing changed if not |
| TxnApply.TokensToPull | Godeps/_workspace/src/gopkg.in/mgo.v2/txn/flusher.go:894-908 | exactly the tokens of the queue whose transaction may be pulled, but for the one that must stay |
| TxnApply.ApplyUpdate | Godeps/_workspace/src/gopkg.in/mgo.v2/txn/flusher.go:727-745 | an update finds its document at the recorded revision exactly if that is not negative, and leaves it as `Effect` says, all else untouched |
| TxnApply.ApplyRemove | Godeps/_workspace/src/gopkg.in/mgo.v2/txn/flusher.go:746-798 | a remove moves revision and queue to the stash, whatever the stash held, and leaves the document missing at the negated next revision |
| TxnApply.ApplyInsert | Godeps/_workspace/src/gopkg.in/mgo.v2/txn/flusher.go:799-836 | an insert brings its document into the collection, takes revision and queue over from the stash entry, and is refused exactly if the document exists |
| TxnApply.Apply | Godeps/_workspace/src/gopkg.in/mgo.v2/txn/flusher.go:680-892 | one uninterrupted runner finds every document or stash entry at the predicted revision, applies an operation exactly when the sign allows it, and logs the revision the document then has. Afterwards exactly the documents exist whose last insert or remove says so, each holds what was inserted last and updated since, and of the tokens in the queues exactly those are gone that an update was to pull |
| TxnApply.OthersKept | Godeps/_workspace/src/gopkg.in/mgo.v2/txn/flusher.go:693-836 | an operation leaves the values and the readiness of all other documents as they were |
| TxnApply.QueuesOn | Godeps/_workspace/src/gopkg.in/mgo.v2/txn/flusher.go:727-836 | one more operation pulls, if it is an update that takes effect, exactly the handled tokens in the queue that the runner read except its own; an insert or remove takes the queue along unchanged |
| Tarjan.TarjanSort | Godeps/_workspace/src/gopkg.in/mgo.v2/txn/tarjan.go:8-30 | the output is a partition of the nodes into maximal strongly connected sets, every edge between parts leads to a part output earlier, and each part is sorted; for every order in which the map is iterated |
| Tarjan.TarjanData.StrongConnect | Godeps/_workspace/src/gopkg.in/mgo.v2/txn/tarjan.go:52-94 | a call numbers what is reachable, keeps the stack and numbering invariants, returns the lowlink and pops its component if it is the root; the recursion ends with the ids not yet numbered |
| Tarjan.TarjanData.EmitComponent | Godeps/_workspace/src/gopkg.in/mgo.v2/txn/tarjan.go:74-91 | popping down to the root outputs exactly the ids numbered from the root on that are on the stack |
| Tarjan.FollowNew | Godeps/_workspace/src/gopkg.in/mgo.v2/txn/tarjan.go:59-65 | after the recursive call for a new successor the lowlink still bounds every edge followed and is still reached |
| Tarjan.FollowSeen | Godeps/_workspace/src/gopkg.in/mgo.v2/txn/tarjan.go:66-71 | the same after an edge to an id seen before |
| Tarjan.EndWithComponent | Godeps/_workspace/src/gopkg.in/mgo.v2/txn/tarjan.go:74-91 | with lowlink equal to its own number the id is the root of a maximal component, and removing it keeps the invariant |
| Tarjan.FinishedIsSccOrder | Godeps/_workspace/src/gopkg.in/mgo.v2/txn/tarjan.go:8-30 | when nothing is on the stack the components are the strongly connected components in reverse topological order |
| Tarjan.PathsLeadBack | Godeps/_workspace/src/gopkg.in/mgo.v2/txn/tarjan.go:8-30 | whatever a node reaches lies in its own part or in one output earlier |
| Tarjan.ComponentsUnique | Godeps/_workspace/src/gopkg.in/mgo.v2/txn/tarjan.go:8-30 | two outputs for graphs with the same nodes and edges hold the same sorted components, so the result does not depend on map iteration |
| Tarjan.SortAscending | Godeps/_workspace/src/gopkg.in/mgo.v2/txn/tarjan.go:23-28 | sorting a component keeps its members and puts them in ascending order |
| FlushOrder.BuildSuccessors | Godeps/_workspace/src/gopkg.in/mgo.v2/txn/flusher.go:50-94 | whatever order the documents are taken in, the edges are exactly the pairs of adjacent valid tokens of the queues, and the goal is ready exactly if no edge leads to it |
| FlushOrder.AddQueue | Godeps/_workspace/src/gopkg.in/mgo.v2/txn/flusher.go:54-94 | the two nested loops over one queue add exactly the adjacent pairs of its valid tokens |
| FlushOrder.PrecedesReach | Godeps/_workspace/src/gopkg.in/mgo.v2/txn/flusher.go:54-94 | a valid token before another in a queue makes a path between their transactions |
| FlushOrder.ReachIsLeads | Godeps/_workspace/src/gopkg.in/mgo.v2/txn/flusher.go:50-94 | the graph has paths exactly where the queues lead from one transaction to another, by tokens with stored nonces that stand before each other |
| FlushOrder.ReadyMeans | Godeps/_workspace/src/gopkg.in/mgo.v2/txn/flusher.go:79-92 | no edge leads to the goal exactly if no valid token stands before one of its own in any queue |
| FlushOrder.FlushedInQueueOrder | Godeps/_workspace/src/gopkg.in/mgo.v2/txn/flusher.go:106-127 | of two transactions with tokens that have their stored nonces in a common queue the first is flushed first, unless the queues lead back from it, each transaction before the next one in some queue; then the smaller id is |
| FlushOrder.FlushersAgree | Godeps/_workspace/src/gopkg.in/mgo.v2/txn/flusher.go:50-127 | two flushers with the same transactions and queues flush conflicting transactions in the same order, whatever the map iteration orders |
| FlushOrder.FlushedBefore | Godeps/_workspace/src/gopkg.in/mgo.v2/txn/flusher.go:106-127 | who is flushed first by position: the id of the later component, or the smaller id within one |
| FlushOrder.FlushAll | Godeps/_workspace/src/gopkg.in/mgo.v2/txn/flusher.go:106-127 | advance is called on the components from last to first and in id order, up to the first call that fails, so the calls are a prefix of that order and all of it if none fails; each call may pull exactly the tokens of the transactions that were finished before, and its own if it is alone |
| FlushOrder.FlushedAreQueued | Godeps/_workspace/src/gopkg.in/mgo.v2/txn/flusher.go:96-127 | exactly the transactions are flushed that were seen and have a token with their stored nonce in some queue |
| FlushOrder.Plan | Godeps/_workspace/src/gopkg.in/mgo.v2/txn/flusher.go:32-127 | without a token in front of one of its own only the goal is advanced; otherwise everything seen and queued is, up to the first call that fails, conflicting transactions in queue order unless the queues lead back |
| Bytes.XorTwice | Godeps/_workspace/src/github.com/gorilla/websocket/conn.go:124-130 | xor with the same byte undoes itself |
| Bytes.XorAt | Godeps/_workspace/src/github.com/gorilla/websocket/conn.go:124-130 | a bit of the result is set exactly if that bit of the two bytes differs |
| Bytes.XorNone | Godeps/_workspace/src/github.com/gorilla/websocket/conn.go:124-130 | xor with zero changes nothing |
| Bytes.BigEndianBack | Godeps/_workspace/src/github.com/gorilla/websocket/conn.go:352-369 | a number that fits reads back from its big-endian bytes |
| Bytes.BigEndianAt | Godeps/_workspace/src/github.com/gorilla/websocket/conn.go:352-369 | each byte is the number divided by the weight of the bytes behind it |
| Frames.OpcodesOnWire | Godeps/_workspace/src/github.com/gorilla/websocket/conn.go:335-350 | the first two bytes of unmasked frames of all six kinds are those of RFC 6455 |
| Frames.LengthsOnWire | Godeps/_workspace/src/github.com/gorilla/websocket/conn.go:352-369 | the headers of frames of 256 bytes and of 64 KiB are those of section 5.7 of RFC 6455 |
| Frames.ScanIsLawful | Godeps/_workspace/src/github.com/gorilla/websocket/conn.go:571-602 | following a stream frame by frame breaks off exactly where it breaks a rule of RFC 6455, stated for each frame by the frames in front of it: no reserved bits, nothing behind a close frame, control frames whole and short, data frames where no message is open and continuations where one is |
| Frames.MaskTwice | Godeps/_workspace/src/github.com/gorilla/websocket/conn.go:124-130 | masking again with the same key from the same position unmasks |
| Frames.MaskPieces | Godeps/_workspace/src/github.com/gorilla/websocket/conn.go:124-130 | masking piece by piece, each from the position the last one returned, masks the whole |
| WebSocket.MaskInPlace | Godeps/_workspace/src/github.com/gorilla/websocket/conn.go:124-130 | rewrites exactly its part of the buffer to the masked bytes and returns the position modulo 4 |
| WebSocket.Conn.BuildFrame | Godeps/_workspace/src/github.com/gorilla/websocket/conn.go:329-384 | what lies between the returned position and the write position, with the extra bytes, is the encoding of the frame (section 5.2 of RFC 6455) with its length in the shortest form, masked exactly by a client |
| WebSocket.Conn.Write | Godeps/_workspace/src/github.com/gorilla/websocket/conn.go:217-241 | nothing is written after a close frame |
| WebSocket.Conn.Send | Godeps/_workspace/src/github.com/gorilla/websocket/conn.go:217-241 | the bytes on the wire stay the encoding of a well-formed stream of frames |
| WebSocket.Conn.FlushFrame | Godeps/_workspace/src/github.com/gorilla/websocket/conn.go:329-394 | sends one frame with buffer and extra bytes as its payload; a control frame that is not final or too long is refused and abandoned; the final frame delivers the message whole |
| WebSocket.FlushedMessage | Godeps/_workspace/src/github.com/gorilla/websocket/conn.go:329-394 | sending the frame being filled moves its message on, or finishes it with its type and all its bytes |
| WebSocket.SentOneMore | Godeps/_workspace/src/github.com/gorilla/websocket/conn.go:217-241 | what one more frame does to the standing of the stream, the message types and the payload |
| WebSocket.ControlBetween | Godeps/_workspace/src/github.com/gorilla/websocket/conn.go:245-300 | a control frame between the frames of a message changes neither its type, its bytes nor its progress |
| WebSocket.Conn.NextWriter | Godeps/_workspace/src/github.com/gorilla/websocket/conn.go:310-327 | starts an empty message of the given type; a message still open is delivered first. Says exactly when it is refused: after an error, when the open message cannot be finished, or for another type |
| WebSocket.Conn.CopySome | Godeps/_workspace/src/github.com/gorilla/websocket/conn.go:412-424 | takes some of the bytes into the message, flushing a full buffer before, without losing any |
| WebSocket.Conn.WriteBytes | Godeps/_workspace/src/github.com/gorilla/websocket/conn.go:426-451 | appends exactly the given bytes to the message, through the buffer or, for a large part on a server, directly; a writer that was superseded is refused |
| WebSocket.Conn.CloseMessage | Godeps/_workspace/src/github.com/gorilla/websocket/conn.go:500-505 | the message is on the wire whole, as one frame with its type followed by continuation frames, the last one final |
| WebSocket.Conn.WriteMessage | Godeps/_workspace/src/github.com/gorilla/websocket/conn.go:509-524 | a message written at once is on the wire whole, whichever of the two paths sent it, behind the open one, which is finished. It succeeds exactly when nothing blocks it, no close frame comes before it, and a control frame is short and fits into the buffer or is sent directly |
| WebSocket.Conn.WriteControl | Godeps/_workspace/src/github.com/gorilla/websocket/conn.go:245-300 | sends one unfragmented control frame of at most 125 bytes, or says why not, and leaves the message being written as it is |
| WebSocket.Conn.ReadFull | Godeps/_workspace/src/github.com/gorilla/websocket/conn.go:538-551 | reads exactly the bytes asked for, over any short reads, or reports that the input ended unexpectedly |
| WebSocket.Conn.CheckStart | Godeps/_workspace/src/github.com/gorilla/websocket/conn.go:570-600 | a frame header is accepted exactly if the frame may follow what came before (reserved bits, opcode, fragmentation, control frames) |
| WebSocket.Conn.ReadLength | Godeps/_workspace/src/github.com/gorilla/websocket/conn.go:602-615 | the length is read back from each of its three forms and exactly its bytes are consumed |
| WebSocket.Conn.AdvanceFrame | Godeps/_workspace/src/github.com/gorilla/websocket/conn.go:553-685 | for any input: skips the rest of a frame and takes the next, or gives exactly the error that its bytes deserve in the order they are read (input that ends, a broken rule, a wrong mask flag, the read limit, a close frame); a ping is answered with its payload, violations with a close frame |
| WebSocket.Conn.HandleControl | Godeps/_workspace/src/github.com/gorilla/websocket/conn.go:657-682 | pings are answered by pongs with the same payload, a close frame by a close frame, pongs by nothing, and the handlers are given the payload |
| WebSocket.CloseBack | Godeps/_workspace/src/github.com/gorilla/websocket/conn.go:665-682 | a close frame is read as it was written: codes 1000 and 1001 as an ordinary end, all others with code and text, and one without a code as 1005 |
| WebSocket.CloseCodes | Godeps/_workspace/src/github.com/gorilla/websocket/conn.go:688-691 | violations and too large messages are answered with the codes 1002 and 1009 |
| WebSocket.Conn.NextReader | Godeps/_workspace/src/github.com/gorilla/websocket/conn.go:700-716 | finds the first frame of the next message, over control frames and what remains of an unfinished message, exactly when the input reaches behind its header; sends nothing but pongs |
| WebSocket.Conn.NextFrame | Godeps/_workspace/src/github.com/gorilla/websocket/conn.go:744-756 | going on within a message loses none of its bytes, and a text or binary frame cannot turn up there |
| WebSocket.Conn.ReadPart | Godeps/_workspace/src/github.com/gorilla/websocket/conn.go:731-742 | returns the next bytes of the frame, unmasked in place, over any short read |
| WebSocket.Conn.Read | Godeps/_workspace/src/github.com/gorilla/websocket/conn.go:723-763 | returns a non-empty next part of what the input gives of the message, over frame boundaries and control frames; EOF exactly at its end or where the input ends within a payload, another error where it ends elsewhere; a superseded reader gets EOF |
| WebSocket.Conn.ReadAll | Godeps/_workspace/src/github.com/gorilla/websocket/conn.go:767-775 | reading until EOF, in reads of any size, gives exactly the bytes the input has of the message, and without an error also where the input ends within a payload |
| WebSocket.Conn.ReadMessage | Godeps/_workspace/src/github.com/gorilla/websocket/conn.go:767-775 | returns type and bytes of the next message, with reads of any size; wherever the input ends, exactly what it has of the message, with an error unless it ends within a payload |
| Streams.WholeMessage | Godeps/_workspace/src/github.com/gorilla/websocket/conn.go:700-763 | in a well-formed stream that carries one message the reading side finds its type, its bytes and nothing but control frames behind it |
| Streams.AnyInput | Godeps/_workspace/src/github.com/gorilla/websocket/conn.go:553-628 | any input is frames and a beginning of one, unless a length with its top bit set comes, so the reader is modelled on all other inputs |
| Streams.AvailPrefix | Godeps/_workspace/src/github.com/gorilla/websocket/conn.go:723-763 | what a cut-off stream gives is a prefix of its message; cut within a payload it is a proper one |
| Streams.AvailWhole | Godeps/_workspace/src/github.com/gorilla/websocket/conn.go:723-763 | a stream that is all there gives the whole message |
| Streams.OpenMessage | Godeps/_workspace/src/github.com/gorilla/websocket/conn.go:723-763 | a stream of continuation and control frames that ends between messages completes the open message with all its payloads |
| Streams.QuietFirst | Godeps/_workspace/src/github.com/gorilla/websocket/conn.go:700-716 | control frames left over from before do not change what a stream carries |
| RoundTrip.Send | Godeps/_workspace/src/github.com/gorilla/websocket/conn.go:310-505 | any split of a message into writes, with any pings and pongs between them, delivers it whole |
| RoundTrip.SendAndReceive | Godeps/_workspace/src/github.com/gorilla/websocket/conn.go:310-775 | a peer of the opposite role reads back exactly the type and bytes written, for any split, buffer size, mask keys, interleaved pings and pongs, control frames still on their way before the message, and read sizes; both sides are ready for the next message, and the peer has sent nothing but pongs |
| RoundTrip.Converse | Godeps/_workspace/src/github.com/gorilla/websocket/conn.go:310-775 | any number of messages in both directions, in any order: each side reads back every message of the other one as it was written |
| RoundTrip.ReadsTruncated | Godeps/_workspace/src/github.com/gorilla/websocket/conn.go:723-775 | a client that gets four of the seven bytes of a text frame reads two of its five bytes as the message, without an error |
| RoundTrip.GreetingOnWire | Godeps/_workspace/src/github.com/gorilla/websocket/conn.go:335-400 | the masked text of section 5.7 of RFC 6455 is encoded as the eleven bytes given there |
| RoundTrip.ReadsGreeting | Godeps/_workspace/src/github.com/gorilla/websocket/conn.go:767-775 | a server that gets those eleven bytes reads the text |
| Chunks.StoredFile | Godeps/_workspace/src/gopkg.in/mgo.v2/gridfs.go:562-650 | stored chunks are numbered 0, 1, 2 and so on, all have the chunk size but a last one that is shorter and not empty, and together they are the file |
| Chunks.TrackChunk | Godeps/_workspace/src/gopkg.in/mgo.v2/gridfs.go:609-650 | one more chunk, sent on its way or given up, keeps every chunk stored, on its way or missing, exactly one of these |
| Chunks.AllStored | Godeps/_workspace/src/gopkg.in/mgo.v2/gridfs.go:519-526 | once no insert is on its way and none is missing all chunks of the data are stored and nothing else |
| Chunks.PartsOfMore | Godeps/_workspace/src/gopkg.in/mgo.v2/gridfs.go:501-537 | the full chunks stored before an error are chunks of all the data that was meant to be written |
| GridFS.GridFile.InsertChunk | Godeps/_workspace/src/gopkg.in/mgo.v2/gridfs.go:609-650 | the chunk is counted, added to the checksum and sent on its way; never more than a megabyte and one chunk is pending |
| GridFS.GridFile.Write | Godeps/_workspace/src/gopkg.in/mgo.v2/gridfs.go:562-607 | appends all the bytes, keeping what is cut, pending and buffered equal to the data written, even when an insert fails meanwhile; after an error, of an earlier call or of an insert that ended since, nothing is taken |
| GridFS.GridFile.CloseWriting | Godeps/_workspace/src/gopkg.in/mgo.v2/gridfs.go:501-537 | there is no error exactly when nobody aborted and the inserts of all chunks and of the file document are made and answered; then the document has the true length, its checksum was computed of the data and all chunks are stored. With an error exactly the stored chunks that survive the removal are left, and the file document if all chunks were stored and just its answer was lost; nothing is left exactly when neither is the case |
| GridFS.GridFile.GetChunk | Godeps/_workspace/src/gopkg.in/mgo.v2/gridfs.go:721-755 | returns the next chunk whether it was prefetched or not, or an error; the chunk number moves on in both cases |
| GridFS.GridFile.Seek | Godeps/_workspace/src/gopkg.in/mgo.v2/gridfs.go:652-689 | sets the cursor of the flat array, counted from the start, from the cursor or from the end, whatever was buffered and prefetched, or reports a position past the end and changes nothing. Says exactly when a cursor that earlier failed fetches put out of step stays so, is set right again, or panics |
| GridFS.GridFile.Read | Godeps/_workspace/src/gopkg.in/mgo.v2/gridfs.go:699-719 | fills the buffer with the bytes of the flat array at the cursor, as many as fit or are left, and reports EOF exactly at the end; it does not fail when the chunks are there and the database answers. A chunk that cannot be fetched ends the call with an error, and later calls return bytes from exactly that much further on than the cursor says |
| GridFS.WriteAndReopen | Godeps/_workspace/src/gopkg.in/mgo.v2/gridfs.go:501-719 | a file written in any pieces is closed without an error exactly when all inserts are made and answered, and then opens as the array of all bytes written; otherwise it says exactly what is left in both collections, and when nothing is |
| GridFS.ChunkLeftBehind | Godeps/_workspace/src/gopkg.in/mgo.v2/gridfs.go:528-536 | a concrete failure that leaves a chunk without a file document |
| GridFS.DocumentLeftBehind | Godeps/_workspace/src/gopkg.in/mgo.v2/gridfs.go:528-536 | a concrete failure that leaves a file document without its chunk |
| GridFS.ReadsShifted | Godeps/_workspace/src/gopkg.in/mgo.v2/gridfs.go:699-731 | a file of two chunks whose first one is missing: reading fails, and reading again returns the second chunk as the start of the file |
| GridFS.SeekPanics | Godeps/_workspace/src/gopkg.in/mgo.v2/gridfs.go:676-681 | after the same failure a move within the first chunk slices the buffer behind its end |
| Chunks.Jump | Godeps/_workspace/src/gopkg.in/mgo.v2/gridfs.go:676-688 | the chunk an offset lies in, without its first bytes, is what the buffer has to hold |
| Chunks.Refill | Godeps/_workspace/src/gopkg.in/mgo.v2/gridfs.go:707-717 | an empty buffer before the end of the file stands at a chunk boundary, and the next chunk is what it has to hold |
| Chunks.Missed | Godeps/_workspace/src/gopkg.in/mgo.v2/gridfs.go:707-731 | when that chunk cannot be had the empty buffer stands at the end of it |
| Chunks.Forward | Godeps/_workspace/src/gopkg.in/mgo.v2/gridfs.go:677-681 | moving on within the buffer's chunk stays inside the buffer exactly when the position does not lie too near the end of the chunk for what was skipped |
| Bson.SignedBack | Godeps/_workspace/src/gopkg.in/mgo.v2/bson/encode.go:476-485 | a signed number in range reads back from its little-endian two's complement bytes |
| Bson.LittleEndianAt | Godeps/_workspace/src/gopkg.in/mgo.v2/bson/encode.go:476-485 | each byte is the number, negative or not, divided by the weight of the bytes before it |
| Bson.ItoaNumbers | Godeps/_workspace/src/gopkg.in/mgo.v2/bson/encode.go:59-75 | the name of an array item has decimal digits only, no zero in front of others, and the item's number as its value |
| Bson.ItoaInjective | Godeps/_workspace/src/gopkg.in/mgo.v2/bson/encode.go:59-75 | no two items get the same name |
| Bson.DateBack | Godeps/_workspace/src/gopkg.in/mgo.v2/bson/encode.go:415-418 | a time before or after 1970 comes back with its milliseconds, though the decoder divides towards zero |
| Bson.SimpleBack | Godeps/_workspace/src/gopkg.in/mgo.v2/bson/decode.go:436-545 | every kind of value without sub-documents is decoded from its encoding and exactly its bytes are consumed |
| Bson.EndBack | Godeps/_workspace/src/gopkg.in/mgo.v2/bson/decode.go:401-406 | the length in front of a document says where its last byte is |
| Bson.ElemsBack | Godeps/_workspace/src/gopkg.in/mgo.v2/bson/decode.go:401-422 | the elements of a document are read back with their names, kinds and values, in order |
| Bson.ItemsBack | Godeps/_workspace/src/gopkg.in/mgo.v2/bson/decode.go:325-352 | the items of an array are read back though their names are skipped |
| Bson.RoundTrip | Godeps/_workspace/src/gopkg.in/mgo.v2/bson/decode.go:367-422 | for every nested ordered document with NUL-free names and size below 2^31, decoding its encoding, wherever it lies, gives it back up to `Norm` and consumes exactly its bytes |
| Bson.RoundTripExact | Godeps/_workspace/src/gopkg.in/mgo.v2/bson/decode.go:367-422 | the document comes back unchanged exactly when its dates are whole milliseconds and it holds no binary of the obsolete kind |
| Bson.ArrayIsDocument | Godeps/_workspace/src/gopkg.in/mgo.v2/bson/encode.go:228-233 | read as a document, an encoded array has the items under names that are their numbers 0, 1, 2 and so on in decimal |
| Bson.ScopedBack | Godeps/_workspace/src/gopkg.in/mgo.v2/bson/decode.go:520-524 | JavaScript with a scope comes back, source and scope, and its bytes are consumed |
| BsonVectors.NumberVectors | Godeps/_workspace/src/gopkg.in/mgo.v2/bson/bson_test.go:126-167 | a float, a date and the three kinds of integers are written as the bytes the tests promise |
| BsonVectors.PlainVectors | Godeps/_workspace/src/gopkg.in/mgo.v2/bson/bson_test.go:138-171 | so are undefined, nil, booleans and the two extreme keys |
| BsonVectors.TextVectors | Godeps/_workspace/src/gopkg.in/mgo.v2/bson/bson_test.go:128-157 | so are a text, a regular expression, JavaScript and a symbol |
| BsonVectors.BytesVectors | Godeps/_workspace/src/gopkg.in/mgo.v2/bson/bson_test.go:134-143 | so are three kinds of binaries, any object id and a database pointer |
| BsonVectors.DocVector | Godeps/_workspace/src/gopkg.in/mgo.v2/bson/bson_test.go:130-131 | so is a document in a document |
| BsonVectors.ArrayVector | Godeps/_workspace/src/gopkg.in/mgo.v2/bson/bson_test.go:132-133 | so is an array, with its names |
| BsonVectors.ScopedVector | Godeps/_workspace/src/gopkg.in/mgo.v2/bson/bson_test.go:158-160 | so is JavaScript with a scope |
| Bson.TruncatedRefused | Godeps/_workspace/src/gopkg.in/mgo.v2/bson/decode.go:401-406 | an encoding that was cut off anywhere is refused as corrupted |
| BsonCodec.Encoder.SetInt32 | Godeps/_workspace/src/gopkg.in/mgo.v2/bson/encode.go:469-474 | overwrites the four reserved bytes with the number and nothing else |
| BsonCodec.Encoder.AddDoc | Godeps/_workspace/src/gopkg.in/mgo.v2/bson/encode.go:84-125 | appends the encoding of the document, its length filled in when its end is known; fails exactly if some object id is not twelve bytes long |
| BsonCodec.Encoder.AddItems | Godeps/_workspace/src/gopkg.in/mgo.v2/bson/encode.go:230-233 | appends the items of an array, each under its number; that the names are those numbers in decimal is `Bson.ItoaNumbers` and `Bson.ArrayIsDocument` |
| BsonCodec.Encoder.AddScoped | Godeps/_workspace/src/gopkg.in/mgo.v2/bson/encode.go:407-412 | appends JavaScript with its scope, the length in front being the true one |
| BsonCodec.Encoder.AddValue | Godeps/_workspace/src/gopkg.in/mgo.v2/bson/encode.go:244-435 | appends exactly the encoding of the value, for each kind |
| BsonCodec.Encoder.AddBinary | Godeps/_workspace/src/gopkg.in/mgo.v2/bson/encode.go:440-451 | appends a binary, the obsolete kind with its second length |
| BsonCodec.Decoder.TakeCStr | Godeps/_workspace/src/gopkg.in/mgo.v2/bson/decode.go:757-771 | moves behind the next zero byte and returns what is before it, or reports that there is none |
| BsonCodec.Decoder.TakeStr | Godeps/_workspace/src/gopkg.in/mgo.v2/bson/decode.go:748-755 | agrees with `ReadStr` on value, position and fault for all inputs |
| BsonCodec.Decoder.TakeDoc | Godeps/_workspace/src/gopkg.in/mgo.v2/bson/decode.go:401-422 | the loop over elements agrees with the recursive definition on value, position and fault for all inputs, well-formed or not |
| BsonCodec.Decoder.TakeArray | Godeps/_workspace/src/gopkg.in/mgo.v2/bson/decode.go:325-352 | the same for arrays |
| BsonCodec.Decoder.TakeScoped | Godeps/_workspace/src/gopkg.in/mgo.v2/bson/decode.go:520-524 | agrees with the definition for JavaScript with a scope on value, position and fault |
| BsonCodec.Marshal | Godeps/_workspace/src/gopkg.in/mgo.v2/bson/bson.go:458-463 | returns the encoding of the document, or nothing if an object id has a wrong length |
| BsonCodec.Unmarshal | Godeps/_workspace/src/gopkg.in/mgo.v2/bson/bson.go:499-519 | returns what the bytes decode to, or the fault; panics exactly when decoding comes to the length of a text or binary that is too small |
| Bson.DocPanics | Godeps/_workspace/src/gopkg.in/mgo.v2/bson/decode.go:401-422 | for all bytes, well-formed or not: decoding panics exactly when it comes to a text whose length is zero or negative, but not the smallest number, or to a binary whose length is negative and whose kind is there |
| Bson.PanicHappens | Godeps/_workspace/src/gopkg.in/mgo.v2/bson/decode.go:748-755 | twelve bytes, a document with a text of length zero, make it panic |
| Bson.ScopedPanicHappens | Godeps/_workspace/src/gopkg.in/mgo.v2/bson/decode.go:520-524 | so do sixteen bytes with JavaScript of length zero and no scope, whatever the length says |
| BsonCodec.MarshalUnmarshal | Godeps/_workspace/src/gopkg.in/mgo.v2/bson/bson.go:458-519 | what goes through encoder and decoder comes back |
| Cluster.SearchSlice | Godeps/_workspace/src/gopkg.in/mgo.v2/server.go:350-356 | binary search returns the first place whose address is not smaller, and whether the address is there |
| Cluster.MongoServers.Add | Godeps/_workspace/src/gopkg.in/mgo.v2/server.go:369-372 | the list stays sorted without duplicates and has one more server |
| Cluster.MongoServers.Remove | Godeps/_workspace/src/gopkg.in/mgo.v2/server.go:374-383 | takes out exactly the server with the address, keeping the order |
| Cluster.MongoCluster.AddServer | Godeps/_workspace/src/gopkg.in/mgo.v2/cluster.go:253-288 | adds or updates a server so that the masters stay exactly the servers whose info says so, discards an unknown one in a partial synchronisation, and meets the panic exactly for another object with a known address |
| Cluster.MongoCluster.RemoveServer | Godeps/_workspace/src/gopkg.in/mgo.v2/cluster.go:117-127 | takes the address out of both lists, masters staying exactly the servers whose info says so |
| ClusterSync.StepKeeps | Godeps/_workspace/src/gopkg.in/mgo.v2/cluster.go:439-499 | every step of every goroutine keeps the invariant: each seen address is in exactly one place, and each name a server gave has its goroutine or still has one that owes it |
| ClusterSync.OnceEach | Godeps/_workspace/src/gopkg.in/mgo.v2/cluster.go:429-499 | in every interleaving each resolved address is contacted at most once and each server added at most once, and the panic about a duplicated server is unreachable, though others remove servers meanwhile |
| ClusterSync.NamedServersAdded | Godeps/_workspace/src/gopkg.in/mgo.v2/cluster.go:429-500 | when all goroutines have ended, every address a name resolved to was contacted; those that answered were added or are left over, the others are out of the cluster, all masters were added, no server found for a name from a master is left over if it answered, and nobody else left the cluster unless others took it out |
| ClusterSync.NamesFollowed | Godeps/_workspace/src/gopkg.in/mgo.v2/cluster.go:487-491 | when all goroutines have ended, one ran for every name that any server gave, master or not, with the flag of the server that gave it; none for those of servers in a direct synchronisation |
| ClusterSync.AddedExactly | Godeps/_workspace/src/gopkg.in/mgo.v2/cluster.go:474-486 | the servers added in the end are exactly those that answered and are masters, were named by one, or were asked directly; the synchronisation is complete exactly if there is one |
| ClusterSync.CanEnd | Godeps/_workspace/src/gopkg.in/mgo.v2/cluster.go:429-500 | every run can go on until all goroutines have ended, if need be by failures alone |
| ClusterSync.FinishingIsSafe | Godeps/_workspace/src/gopkg.in/mgo.v2/cluster.go:501-511 | dealing with the servers left over, one at a time while others remove servers, never panics and drops nobody that was added; after a complete synchronisation none of them stays, a partial one has added nobody and drops nobody |
| Queue.RingQueue.Push | Godeps/_workspace/src/gopkg.in/mgo.v2/queue.go:38-49 | appends to the sequence, growing the ring when it is full |
| Queue.RingQueue.Pop | Godeps/_workspace/src/gopkg.in/mgo.v2/queue.go:51-64 | takes the first element, or nil when empty |
| Queue.RingQueue.Expand | Godeps/_workspace/src/gopkg.in/mgo.v2/queue.go:66-91 | a full ring, wrapped or not, keeps contents and order under both growth rules and gets room |
| Cursor.ReturnsFirst | Godeps/_workspace/src/gopkg.in/mgo.v2/session.go:3107-3190 | in every interleaving of replies, prefetching, several consumers and failures, a connection that breaks within a reply included, documents are taken in the order of the server and never more than the limit; once the end is reported exactly the first min(limit, N) were taken |
| Cursor.StaysWithinLimit | Godeps/_workspace/src/gopkg.in/mgo.v2/session.go:3313-3338 | buffered and arriving documents never exceed what remains of the limit, so no data remains when it is used up; neither do they together with those requested, unless the connection broke within a reply |
| CursorSleep.SleepersLeft | Godeps/_workspace/src/gopkg.in/mgo.v2/session.go:3107-3130 | in every run a consumer that sleeps in Wait can never wake up, whatever comes, exactly when a getMore gave up before: it got no socket while somebody slept and nothing arrived, or it met a dead socket. All other sleepers can still be woken |
| CursorSleep.SleeperForgotten | Godeps/_workspace/src/gopkg.in/mgo.v2/session.go:3313-3323 | a run with two consumers: getMore gets no socket, its caller returns the error, the other one sleeps for ever |
| CursorSleep.DeadSocketLocks | Godeps/_workspace/src/gopkg.in/mgo.v2/session.go:3334-3337 | a run with two consumers: the dead socket calls replyFunc while getMore holds the lock that it needs, and nothing can happen any more |
| Cursor.PanicsExactlyWhen | Godeps/_workspace/src/gopkg.in/mgo.v2/session.go:3132-3144 | the panic can be reached exactly when there are more results than the limit and the batch size is left to the server or larger than the limit |
| Cursor.LimitFits | Godeps/_workspace/src/gopkg.in/mgo.v2/session.go:2449-2467 | the limit is the argument without its sign, except for the one number whose negation does not fit; the batch has the same size, in a single batch exactly for 1 and negative numbers |
| Cursor.LimitReturns | Godeps/_workspace/src/gopkg.in/mgo.v2/session.go:2446-2467 | with Limit alone at most that many documents are returned, and once the end is reported exactly the first of them, or all for 0 |
| CursorProgress.CanFinish | Godeps/_workspace/src/gopkg.in/mgo.v2/session.go:3107-3190 | every run without a failure so far can go on to the end of the results, where exactly the first of them, as many as the limit allows, were taken |
| Cursor.StepKeeps | Godeps/_workspace/src/gopkg.in/mgo.v2/session.go:3880-3917 | every reply, arrival, call of Next and request keeps the accounting |
| CursorObject.IterObject.ReceiveDocument | Godeps/_workspace/src/gopkg.in/mgo.v2/session.go:3880-3917 | receiving a document of a reply, first or later, does to all counters and the queue what the step of the model says |
| CursorObject.IterObject.ReceiveNothing | Godeps/_workspace/src/gopkg.in/mgo.v2/session.go:3882-3896 | an empty reply keeps a tailable cursor, ends the results, or reports a lost cursor or an error; an error within a reply drops the rest of it; all sleepers wake |
| CursorObject.IterObject.EndMore | Godeps/_workspace/src/gopkg.in/mgo.v2/session.go:3313-3338 | the request asks for no more than what remains of the limit behind everything buffered and expected; without a socket, with a request that could not be written and with a dead socket it does what the steps of the model say |
| CursorObject.IterObject.Next | Godeps/_workspace/src/gopkg.in/mgo.v2/session.go:3107-3190 | one stretch of Next under the lock is the step of the model: it returns the first buffered document, waits exactly when something can still come, or reports the end |
| Utf8.CharIsEncoding | Godeps/_workspace/src/github.com/gorilla/websocket/examples/autobahn/server.go:215-235 | the grammar of section 4 of RFC 3629 describes encodings of scalar values only |
| Utf8.EncodeIsChar | Godeps/_workspace/src/github.com/gorilla/websocket/examples/autobahn/server.go:215-235 | and all of them |
| Utf8.AcceptsWellFormed | Godeps/_workspace/src/github.com/gorilla/websocket/examples/autobahn/server.go:215-246 | the table-driven automaton accepts exactly the well-formed streams |
| Utf8.HoldsCodePoint | Godeps/_workspace/src/github.com/gorilla/websocket/examples/autobahn/server.go:237-246 | after well-formed text and the encoding of a code point it accepts and holds this code point |
| Utf8.RejectsHopeless | Godeps/_workspace/src/github.com/gorilla/websocket/examples/autobahn/server.go:237-246 | it rejects exactly when nothing that could follow makes the stream well-formed |
| Utf8.Validator.Read | Godeps/_workspace/src/github.com/gorilla/websocket/examples/autobahn/server.go:176-192 | hands the bytes on and reports invalid text exactly when the automaton rejects or the stream ends within a character |
| Utf8.Check | Godeps/_workspace/src/github.com/gorilla/websocket/examples/autobahn/server.go:176-192 | however the stream is cut into reads, no error is reported exactly when the whole stream is well-formed |
| Blowfish.RoundsBack | Godeps/_workspace/src/golang.org/x/crypto/blowfish/block.go:115-159 | rounds are undone by the same rounds with the subkeys reversed and the halves swapped, for any number of rounds |
| Blowfish.DecryptEncrypt | Godeps/_workspace/src/golang.org/x/crypto/blowfish/cipher.go:67-83 | decryption undoes encryption and encryption decryption, for every block and any contents of the tables |
| Blowfish.ZeroSalt | Godeps/_workspace/src/golang.org/x/crypto/blowfish/block.go:23-113 | the specialised key schedule ends in the same tables as the salted one with zeros of any length |
| BlowfishTextbook.EncryptsAsDescribed | Godeps/_workspace/src/golang.org/x/crypto/blowfish/block.go:115-136 | the network with its folded subkeys is the sixteen rounds of the published description, with exchanges of the halves and two last subkeys |
| BlowfishTextbook.CombineVectors | Godeps/_workspace/src/golang.org/x/crypto/blowfish/block.go:115-136 | two boxes are added, the third goes in by exclusive or and the fourth is added, modulo 2 to the 32 |
| BlowfishTextbook.WordVectors | Godeps/_workspace/src/golang.org/x/crypto/blowfish/cipher.go:67-73 | words are read and written with the highest byte first, which is the one that the first box is asked for |
| BlowfishTextbook.KeyFolded | Godeps/_workspace/src/golang.org/x/crypto/blowfish/block.go:29-36 | subkey `k` takes the four bytes of the repeated key from place `4k` on |
| BlowfishTextbook.ScheduleAsDescribed | Godeps/_workspace/src/golang.org/x/crypto/blowfish/block.go:71-113 | all 1042 words in one row are replaced two by two, each pair by the encryption of the pair before with the next eight bytes of the repeated salt, by the tables as they are by then |
| BlowfishCipher.GetNextWord | Godeps/_workspace/src/golang.org/x/crypto/blowfish/block.go:9-21 | reads the next big-endian word round and round |
| BlowfishCipher.Cipher.EncryptBlock | Godeps/_workspace/src/golang.org/x/crypto/blowfish/block.go:115-136 | the written-out rounds are the Feistel network over the subkeys |
| BlowfishCipher.Cipher.DecryptBlock | Godeps/_workspace/src/golang.org/x/crypto/blowfish/block.go:138-159 | and over the reversed subkeys |
| BlowfishCipher.Cipher.Encrypt | Godeps/_workspace/src/golang.org/x/crypto/blowfish/cipher.go:67-73 | encrypts the first eight bytes into a buffer, which may be the same one, and changes nothing else |
| BlowfishCipher.Cipher.Decrypt | Godeps/_workspace/src/golang.org/x/crypto/blowfish/cipher.go:77-83 | the same for decryption |
| BlowfishCipher.Cipher.ExpandKey | Godeps/_workspace/src/golang.org/x/crypto/blowfish/block.go:28-66 | rewrites the tables in place to what the key schedule defines |
| BlowfishCipher.Cipher.ExpandKeyWithSalt | Godeps/_workspace/src/golang.org/x/crypto/blowfish/block.go:71-113 | the same with a salt; with zeros it ends where `ExpandKey` does |
| BlowfishCipher.NewCipher | Godeps/_workspace/src/golang.org/x/crypto/blowfish/cipher.go:30-39 | a cipher exactly for keys of 1 to 56 bytes |
| BlowfishCipher.NewSaltedCipher | Godeps/_workspace/src/golang.org/x/crypto/blowfish/cipher.go:44-56 | a cipher for any non-empty key with a salt; without one it is `NewCipher` |
| BlowfishCipher.EncryptThenDecrypt | Godeps/_workspace/src/golang.org/x/crypto/blowfish/cipher.go:67-83 | encrypting and decrypting in place restores the buffer |

## Left out

- TxnAtomic.AllOrNothing: does not model other transactions that write the same documents at the same time; their order is what `FlushOrder` is about. Serialisability of flushers that saw different sets of transactions is not claimed.
- TxnAtomic.ReportedOutcome: covers updates and assertions. Concurrent inserts and removes are left out because the source names a race between delayed ones that cannot be avoided (flusher.go:817-821).
- TxnApply.Apply: one uninterrupted runner; the retries for a document another runner is moving between collection and stash do not occur in it.
- TxnProtocol.RecordLifecycle: in `prepare`, unstashing and completing other transactions found on the way (`unstashToken`, `loadAndApply`) are steps that do not touch this record. The chaos points of `chaos.go` are runners that stop anywhere.
- FlushOrder.FlushersAgree: takes the transactions seen and their queues as given; how `recurse` collects them is not modelled.
- The change log, `PurgeMissing`, `ResumeAll` and debug output of `txn`. Document ids are numbers of which only the order matters, queries and update documents are abstract.
- WebSocket.Conn.AdvanceFrame: lengths of eight bytes with the top bit set, which the source reads as negative numbers, are not modelled.
- WebSocket.Conn.HandleProtocolError: the close frame it sends carries the code without the explaining text.
- WebSocket.Conn.HandleControl: the handlers are the default ones, with a record of what they were given.
- WebSocket.Conn.WriteBytes: `WriteString` and `ReadFrom` fill the buffer in the same way and have no model of their own.
- Errors of the network other than its end, deadlines, and a read that returns data together with an error.
- The sum of frame lengths in one message (`readLength`) is unbounded here, and 64 bits wide in the source.
- GridFS.GridFile.Seek: targets before the start of the file are excluded.
- GridFS.GridFile.InsertChunk: the document of a chunk can be marshalled.
- GridFS.GridFile.Open: the chunks in the database, as far as they are there, are as a writer cut them.
- GridFS.GridFile.CloseWriting: the checksum is modelled by what it is computed of, and one goroutine at a time writes. File metadata and upload dates are left out.
- Bson.RoundTrip: reflection, struct tags, getters and setters, conversion to the caller's types, and maps are left out; a document is a list of named values, and so is the scope of JavaScript, which the source decodes to a map. A float is the number its 64 bits spell.
- BsonCodec.Decoder.TakeArray: covers `readSliceDoc`; decoding into fixed-size Go arrays is left out.
- ClusterSync.NamedServersAdded: names resolve to any address or fail, and servers answer anything; how `syncServer` asks is left out, as are replica set names, server tags and the choice of a server for a socket.
- Cursor.ReturnsFirst: all requests go over one socket, as with a session that keeps its socket; on several sockets replies could overtake each other. Documents decode without errors, the user does not close the iterator early, and counters do not overflow. The prefetch ratio enters as an arbitrary number of documents for each reply.
- Utf8.HoldsCodePoint: the code point register is unbounded here; the source lets it wrap after a rejection, when it is not used.
- BlowfishCipher.Cipher.ExpandKey: the initial tables, digits of pi, are a parameter.
- `chat.go`, SCRAM and SASL, bcrypt, routing, and dialling, pooling, timing and logging throughout.
