/** How GridFS cuts a file into chunks (mgo.v2/gridfs.go). */
module Chunks {
  import opened Bytes

  datatype Option<T> = None | Some(value: T)

  /** Bytes of chunk `n` end here. */
  function EndOf(cs: nat, length: nat, n: nat): nat {
    if (n + 1) * cs < length then (n + 1) * cs else length
  }

  /** Chunk `n` of a file. */
  function ChunkAt(cs: nat, data: seq<byte>, n: nat): (r: seq<byte>)
    requires n * cs <= |data|
  {
    Grows(cs, n, n + 1);
    data[n * cs..EndOf(cs, |data|, n)]
  }

  lemma {:induction false} Grows(cs: nat, m: nat, n: nat)
    requires m <= n
    ensures m * cs <= n * cs && (n + 1) * cs == n * cs + cs
    ensures m < n ==> m * cs + cs <= n * cs
  {
    if m < n {
      Grows(cs, m, n - 1);
    }
  }

  /** The chunks that are stored, together, for a file: numbered from 0 without a gap, the last one
      not empty. */
  ghost predicate Stored(chunks: map<nat, seq<byte>>, cs: nat, data: seq<byte>) {
    forall n: nat :: if n * cs < |data| then n in chunks && chunks[n] == ChunkAt(cs, data, n) else n !in chunks
  }

  /** The chunks that are there, at least, are chunks of the file. */
  ghost predicate Parts(chunks: map<nat, seq<byte>>, cs: nat, data: seq<byte>) {
    forall n: nat :: n in chunks ==> n * cs < |data| && chunks[n] == ChunkAt(cs, data, n)
  }

  lemma StoredParts(chunks: map<nat, seq<byte>>, cs: nat, data: seq<byte>)
    requires Stored(chunks, cs, data)
    ensures Parts(chunks, cs, data)
  {
  }

  const PENDING_LIMIT := 1024 * 1024

  /** Not more is on its way than a megabyte and one chunk. */
  predicate Room(cs: nat, pending: nat) {
    pending > 0 ==> cs * (pending - 1) < PENDING_LIMIT
  }

  lemma OneMore(cs: nat, pending: nat)
    requires cs * pending < PENDING_LIMIT
    ensures Room(cs, pending + 1)
  {
  }

  lemma FewerPending(cs: nat, fewer: nat, pending: nat)
    requires fewer <= pending && Room(cs, pending)
    ensures Room(cs, fewer)
  {
    if fewer > 0 { Grows(cs, fewer - 1, pending - 1); }
  }

  /** `count` full chunks. */
  ghost predicate Full(cs: nat, count: nat, sum: seq<byte>) {
    |sum| == count * cs
  }

  ghost predicate AtMost(cs: nat, count: nat, sum: seq<byte>) {
    |sum| <= count * cs
  }

  lemma OneChunk(cs: nat, count: nat, sum: seq<byte>, d: seq<byte>)
    requires Full(cs, count, sum)
    ensures AtMost(cs, count, sum) && (|d| <= cs ==> AtMost(cs, count + 1, sum + d))
    ensures |d| == cs ==> Full(cs, count + 1, sum + d)
  {
    Grows(cs, count, count + 1);
  }

  /** Chunks 0 to `count - 1` of `sum` are each stored, or on their way, or missing, and nothing else is. */
  ghost predicate Tracked(chunks: map<nat, seq<byte>>, inserts: map<nat, seq<byte>>, missing: set<nat>,
                          cs: nat, count: nat, sum: seq<byte>) {
    forall n: nat ::
      && !(n in chunks && n in inserts) && (n in missing ==> n !in chunks && n !in inserts)
      && (n < count <==> n in chunks || n in inserts || n in missing)
      && (n < count ==> n * cs < |sum|)
      && (n in chunks ==> n * cs < |sum| && chunks[n] == ChunkAt(cs, sum, n))
      && (n in inserts ==> n * cs < |sum| && inserts[n] == ChunkAt(cs, sum, n))
  }

  lemma Arrives(chunks: map<nat, seq<byte>>, inserts: map<nat, seq<byte>>, missing: set<nat>,
                cs: nat, count: nat, sum: seq<byte>, n: nat)
    requires Tracked(chunks, inserts, missing, cs, count, sum) && n in inserts
    ensures Tracked(chunks[n := inserts[n]], inserts - {n}, missing, cs, count, sum)
    ensures Tracked(chunks, inserts - {n}, missing + {n}, cs, count, sum)
    ensures n < count && n !in chunks
  {
  }

  lemma OneLess(inserts: map<nat, seq<byte>>, n: nat)
    requires n in inserts
    ensures |inserts - {n}| == |inserts| - 1 && (inserts - {n}).Keys <= inserts.Keys
  {
    assert inserts.Keys - {n} == (inserts - {n}).Keys;
  }

  lemma TrackChunk(chunks: map<nat, seq<byte>>, inserts: map<nat, seq<byte>>, missing: set<nat>,
                   cs: nat, count: nat, sum: seq<byte>, d: seq<byte>)
    requires Tracked(chunks, inserts, missing, cs, count, sum) && Full(cs, count, sum) && 0 < |d| <= cs
    ensures Tracked(chunks, inserts[count := d], missing, cs, count + 1, sum + d)
    ensures Tracked(chunks, inserts, missing + {count}, cs, count + 1, sum + d)
  {
    hide ChunkAt, Full;
    forall n: nat | n <= count
      ensures n * cs < |sum + d|
      ensures n < count ==> n * cs < |sum| && ChunkAt(cs, sum + d, n) == ChunkAt(cs, sum, n)
      ensures n == count ==> ChunkAt(cs, sum + d, n) == d
    {
      ChunkKept(cs, sum, d, count, n);
    }
  }

  lemma ChunkKept(cs: nat, sum: seq<byte>, d: seq<byte>, count: nat, n: nat)
    requires Full(cs, count, sum) && 0 < |d| <= cs && n <= count
    ensures n * cs < |sum + d|
    ensures n < count ==> n * cs < |sum| && ChunkAt(cs, sum + d, n) == ChunkAt(cs, sum, n)
    ensures n == count ==> ChunkAt(cs, sum + d, n) == d
  {
    AppendChunk(cs, sum, d, count, n);
    Grows(cs, n, count);
  }

  /** Once nothing is on its way any more and nothing is missing, everything is stored. */
  lemma AllStored(chunks: map<nat, seq<byte>>, cs: nat, count: nat, sum: seq<byte>)
    requires Tracked(chunks, map[], {}, cs, count, sum) && AtMost(cs, count, sum)
    ensures Stored(chunks, cs, sum)
  {
    forall n: nat ensures if n * cs < |sum| then n in chunks && chunks[n] == ChunkAt(cs, sum, n) else n !in chunks {
      if n >= count { Grows(cs, count, n); }
    }
  }

  lemma TrackedParts(chunks: map<nat, seq<byte>>, inserts: map<nat, seq<byte>>, missing: set<nat>,
                     cs: nat, count: nat, sum: seq<byte>)
    requires Tracked(chunks, inserts, missing, cs, count, sum)
    ensures Parts(chunks, cs, sum)
  {
    hide ChunkAt;
  }

  /** More data behind full chunks leaves those as they are. */
  lemma PartsOfMore(chunks: map<nat, seq<byte>>, cs: nat, count: nat, sum: seq<byte>, data: seq<byte>)
    requires cs > 0 && Parts(chunks, cs, sum) && Full(cs, count, sum) && sum <= data
    ensures Parts(chunks, cs, data)
  {
    forall n: nat | n in chunks ensures n * cs < |data| && chunks[n] == ChunkAt(cs, data, n) {
      Grows(cs, n, n + 1);
      if n < count { Grows(cs, n + 1, count); } else { Grows(cs, count, n); }
    }
  }

  /** What is left of some chunks. */
  function Left(chunks: map<nat, seq<byte>>, survivors: set<nat>): map<nat, seq<byte>> {
    map n | n in chunks && n in survivors :: chunks[n]
  }

  lemma NothingLeft(chunks: map<nat, seq<byte>>, survivors: set<nat>)
    ensures Left(chunks, survivors) == map[] <==> chunks.Keys !! survivors
  {
    if n :| n in chunks && n in survivors { assert n in Left(chunks, survivors); }
  }

  lemma Exactly(cs: nat, count: nat, sum: seq<byte>)
    requires Full(cs, count, sum)
    ensures AtMost(cs, count, sum)
  {
  }

  function Concat(chunks: map<nat, seq<byte>>, count: nat): seq<byte>
    requires forall n: nat :: n < count ==> n in chunks
  {
    if count == 0 then [] else Concat(chunks, count - 1) + chunks[count - 1]
  }

  lemma SplitAt(data: seq<byte>, i: nat, j: nat)
    requires i <= j <= |data|
    ensures data[..i] + data[i..j] == data[..j]
  {
  }

  /** A stored chunk has full size unless it is the last one, which is not empty. */
  lemma StoredSize(chunks: map<nat, seq<byte>>, cs: nat, data: seq<byte>, n: nat, count: nat)
    requires cs > 0 && Stored(chunks, cs, data) && n < count && (count - 1) * cs < |data|
    ensures n * cs < |data| && n in chunks && chunks[n] == ChunkAt(cs, data, n)
    ensures 0 < |chunks[n]| <= cs && (n + 1 < count ==> |chunks[n]| == cs)
  {
    Grows(cs, n, count - 1);
    Grows(cs, n, n + 1);
  }

  /** What is stored, read in order, is the file, and all chunks but the last one have full size. */
  lemma {:induction false} StoredConcat(chunks: map<nat, seq<byte>>, cs: nat, data: seq<byte>, count: nat)
    requires cs > 0 && Stored(chunks, cs, data)
    requires count > 0 ==> (count - 1) * cs < |data|
    ensures forall n: nat :: n < count ==> n in chunks
    ensures Concat(chunks, count) == data[..if count * cs < |data| then count * cs else |data|]
    ensures forall n: nat :: n < count ==> 0 < |chunks[n]| <= cs && (n + 1 < count ==> |chunks[n]| == cs)
  {
    hide Stored;
    forall n: nat | n < count
      ensures n in chunks && 0 < |chunks[n]| <= cs && (n + 1 < count ==> |chunks[n]| == cs)
    {
      StoredSize(chunks, cs, data, n, count);
    }
    if count > 0 {
      var k := count - 1;
      Grows(cs, k, count);
      if k > 0 { Grows(cs, k - 1, k); }
      StoredSize(chunks, cs, data, k, count);
      StoredConcat(chunks, cs, data, k);
      SplitAt(data, k * cs, EndOf(cs, |data|, k));
    }
  }

  /** Adding a chunk behind full chunks leaves those as they are. */
  lemma AppendChunk(cs: nat, data: seq<byte>, d: seq<byte>, count: nat, n: nat)
    requires |data| == count * cs && 0 < |d| <= cs && n <= count
    ensures n * cs < |data + d|
    ensures ChunkAt(cs, data + d, n) == if n == count then d else (Grows(cs, n, count); ChunkAt(cs, data, n))
  {
    Grows(cs, n, count);
    Grows(cs, n, n + 1);
    if n < count { Grows(cs, n + 1, count); }
  }

  /** Which chunk an offset lies in. */
  lemma ChunkOf(cs: nat, offset: nat)
    requires cs > 0
    ensures offset / cs * cs <= offset < (offset / cs + 1) * cs
  {
    assert offset == offset / cs * cs + offset % cs;
    Grows(cs, offset / cs, offset / cs + 1);
  }

  function Count(cs: nat, length: nat): nat
    requires cs > 0
  {
    (length + cs - 1) / cs
  }

  /** The chunks of a stored file are numbered 0, 1, 2 and so on; all have the chunk size except a
      last, shorter one that is not empty; together they are the file. */
  lemma StoredFile(chunks: map<nat, seq<byte>>, cs: nat, data: seq<byte>)
    requires cs > 0 && Stored(chunks, cs, data)
    ensures forall n: nat :: n in chunks <==> n < Count(cs, |data|)
    ensures forall n: nat :: n in chunks ==> 0 < |chunks[n]| <= cs && (n + 1 in chunks ==> |chunks[n]| == cs)
    ensures Concat(chunks, Count(cs, |data|)) == data
  {
    var count := Count(cs, |data|);
    ChunkOf(cs, |data| + cs - 1);
    Grows(cs, count, count);
    if count > 0 { Grows(cs, count - 1, count - 1); }
    StoredConcat(chunks, cs, data, count);
    forall n: nat ensures n in chunks <==> n < count {
      if n < count { Grows(cs, n, count - 1); } else { Grows(cs, count, n); }
    }
    assert data[..|data|] == data;
  }

  // --- The reader's buffer ------------------------------------------------------------------

  /** The buffer is what is left, from `offset` on, of the chunks before `chunk`. */
  predicate Buffered(cs: nat, data: seq<byte>, chunk: nat, offset: nat, rbuf: seq<byte>) {
    var end := if chunk * cs < |data| then chunk * cs else |data|;
    offset <= end && rbuf == data[offset..end]
  }

  lemma Consume(cs: nat, data: seq<byte>, chunk: nat, offset: nat, rbuf: seq<byte>, i: nat)
    requires Buffered(cs, data, chunk, offset, rbuf) && i <= |rbuf|
    ensures Buffered(cs, data, chunk, offset + i, rbuf[i..])
    ensures offset + i <= |data| && rbuf[..i] == data[offset..offset + i]
  {
    var end := if chunk * cs < |data| then chunk * cs else |data|;
    assert data[offset..end][..i] == data[offset..offset + i];
  }

  lemma Refill(cs: nat, data: seq<byte>, chunk: nat, offset: nat)
    requires cs > 0 && Buffered(cs, data, chunk, offset, []) && chunk * cs < |data|
    ensures offset == chunk * cs && Buffered(cs, data, chunk + 1, offset, ChunkAt(cs, data, chunk))
    ensures ChunkAt(cs, data, chunk) != []
  {
    Grows(cs, chunk, chunk + 1);
  }

  /** An empty buffer before the end of the file: there is a next chunk. */
  lemma NotLast(cs: nat, data: seq<byte>, chunk: nat, offset: nat)
    requires Buffered(cs, data, chunk, offset, [])
    ensures offset < |data| ==> chunk * cs < |data|
  {
  }

  /** How long chunk `n` of a file is; there is nothing behind the last one. */
  function SizeOf(cs: nat, length: nat, n: nat): nat {
    if n * cs < length then (Grows(cs, n, n + 1); EndOf(cs, length, n) - n * cs) else 0
  }

  /** Without chunk `chunk` the empty buffer stands at the end of it. */
  lemma Missed(cs: nat, data: seq<byte>, chunk: nat, offset: nat)
    requires cs > 0 && Buffered(cs, data, chunk, offset, [])
    ensures Buffered(cs, data, chunk + 1, offset + SizeOf(cs, |data|, chunk), [])
  {
    Grows(cs, chunk, chunk + 1);
  }

  function Index(cs: nat, offset: nat): nat
    requires cs > 0
  {
    offset / cs
  }

  lemma Jump(cs: nat, data: seq<byte>, c: nat, to: nat)
    requires cs > 0 && to < |data| && c == Index(cs, to)
    ensures c * cs <= to < EndOf(cs, |data|, c) && to - c * cs <= |ChunkAt(cs, data, c)|
    ensures Buffered(cs, data, c + 1, to, ChunkAt(cs, data, c)[to - c * cs..])
    ensures Buffered(cs, data, c + 1, EndOf(cs, |data|, c), [])
  {
    ChunkOf(cs, to);
    Grows(cs, c, c + 1);
  }

  /** Moving forward within the chunk of the buffer, which is `skip` bytes ahead of the cursor. */
  lemma Forward(cs: nat, data: seq<byte>, chunk: nat, offset: nat, skip: nat, rbuf: seq<byte>, to: nat)
    requires cs > 0 && offset + skip <= |data| && Buffered(cs, data, chunk, offset + skip, rbuf)
    requires offset <= to < |data| && Index(cs, to) + 1 == chunk
    ensures to - offset <= |rbuf| <==> to + skip <= EndOf(cs, |data|, chunk - 1)
    ensures to - offset <= |rbuf| ==> Buffered(cs, data, chunk, to + skip, rbuf[to - offset..])
    ensures to <= EndOf(cs, |data|, chunk - 1)
  {
    ChunkOf(cs, to);
  }
}
