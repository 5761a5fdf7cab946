/** A WebSocket connection (gorilla/websocket/conn.go): the frame builder and fragmenting message
    writer, and the incremental message reader. */
module WebSocket {
  import opened Bytes
  import opened Frames
  import opened Streams

  const MAX_HEADER := 14

  const DEFAULT_WRITE_BUFFER := 4096
  const CLOSE_NORMAL := 1000
  const CLOSE_GOING_AWAY := 1001
  const CLOSE_PROTOCOL_ERROR := 1002
  const CLOSE_NO_STATUS := 1005
  const CLOSE_TOO_BIG := 1009

  datatype Error =
    | Ok
    | ErrCloseSent | ErrWriteClosed | ErrBadWriteOpCode | ErrInvalidControlFrame
    | EOF | ErrUnexpectedEOF | ErrProtocol | ErrReadLimit | ErrInternal
    | CloseError(code: nat, text: seq<byte>)

  // --- In-place helpers ---------------------------------------------------------------------

  /** Masks part of a buffer where it lies. */
  method MaskInPlace(key: Key, pos0: nat, b: array<byte>, lo: nat, hi: nat) returns (pos: nat)
    requires lo <= hi <= b.Length && pos0 < 4
    modifies b
    ensures pos == (pos0 + (hi - lo)) % 4
    ensures b[lo..hi] == MaskBytes(key, pos0, old(b[lo..hi]))
    ensures forall i :: 0 <= i < b.Length && !(lo <= i < hi) ==> b[i] == old(b[i])
  {
    pos := pos0;
    for i := lo to hi
      invariant pos == pos0 + (i - lo)
      invariant forall j :: lo <= j < i ==> b[j] == Xor(old(b[j]), key[(pos0 + (j - lo)) % 4])
      invariant forall j :: 0 <= j < b.Length && !(lo <= j < i) ==> b[j] == old(b[j])
    {
      b[i] := Xor(b[i], key[pos % 4]);
      pos := pos + 1;
    }
    pos := pos % 4;
    assert forall j :: 0 <= j < hi - lo ==> b[lo..hi][j] == MaskBytes(key, pos0, old(b[lo..hi]))[j];
  }

  /** Four random bytes. */
  method NewMaskKey() returns (key: Key)
    ensures |key| == 4
  {
    var n: nat :| n < 0x1_0000_0000;
    key := [n % 256, n / 0x100 % 256, n / 0x1_0000 % 256, n / 0x100_0000 % 256];
  }

  /** The header of a frame up to the masking key. */
  ghost function Head(fin: bool, opcode: nat, length: nat, masked: bool): seq<byte>
    requires opcode < 16
  {
    [opcode + if fin then 128 else 0, Length7(ShortestForm(length), length) + if masked then 128 else 0]
    + LengthMore(ShortestForm(length), length)
  }

  lemma EncodeParts(f: Frame)
    requires Fits(f) && f.rsv == 0 && f.form == ShortestForm(|f.payload|)
    ensures Encode(f) == Head(f.fin, f.opcode, |f.payload|, f.mask.Masked?) + KeyBytes(f.mask) + Apply(f.mask, 0, f.payload)
  {
  }

  class Conn {
    const isServer: bool
    const writeBuf: array<byte>

    // Writing
    var writeErr: Error
    var writePos: nat
    var writeFrameType: int
    var writeSeq: nat
    var closeSent: bool
    var wire: seq<byte>          // everything written to the network

    // Reading
    var readErr: Error
    var input: seq<byte>         // what the network still has to give
    var readRemaining: nat
    var readFinal: bool
    var readSeq: nat
    var readLength: nat
    var readLimit: int
    var readMaskPos: nat
    var readMaskKey: Key
    var handled: seq<(int, seq<byte>)>  // what the ping and pong handlers were given

    // What remains of the frame being read, the frames behind it, and the bytes of them that never
    // come because the network ends.
    ghost var cur: seq<byte>
    ghost var ahead: seq<Frame>
    ghost var missing: seq<byte>

    // The frames on the wire, and where the message being written starts among them.
    ghost var sent: seq<Frame>
    ghost var start: nat
    ghost var messageType: int

    constructor (isServer: bool, writeBufferSize: nat)
      requires writeBufferSize + MAX_HEADER <= MAX_INT
      ensures ValidWrite() && Synced() && fresh(writeBuf) && this.isServer == isServer
      ensures writeErr == Ok && !closeSent && writeFrameType == NO_FRAME && wire == []
      ensures readErr == Ok && readFinal && input == [] && cur == [] && ahead == [] && missing == [] && readLimit == 0
    {
      var size := if writeBufferSize == 0 then DEFAULT_WRITE_BUFFER else writeBufferSize;
      this.isServer := isServer;
      writeBuf := new byte[size + MAX_HEADER];
      writeErr, writePos, writeFrameType, writeSeq, closeSent, wire := Ok, MAX_HEADER, NO_FRAME, 0, false, [];
      readErr, input, readRemaining, readFinal, readSeq, readLength, readLimit := Ok, [], 0, true, 0, 0, 0;
      readMaskPos, readMaskKey, handled := 0, [0, 0, 0, 0], [];
      sent, start, messageType, cur, ahead, missing := [], 0, TEXT, [], [], [];
    }

    ghost predicate FramesOk()
      reads this`sent, this`wire, this`closeSent
    {
      && AllFit(sent) && wire == EncodeAll(sent)
      && (forall i :: 0 <= i < |sent| ==> sent[i].mask.Masked? == !isServer && sent[i].form == ShortestForm(|sent[i].payload|))
      && ScanFrom(Between, sent) != Broken && (closeSent <==> ScanFrom(Between, sent) == Closed)
    }

    ghost predicate ValidWrite()
      reads this`sent, this`wire, this`closeSent, this`writePos, this`writeFrameType, this`writeErr, this`start, this`messageType
    {
      && MAX_HEADER < writeBuf.Length <= MAX_INT && MAX_HEADER <= writePos <= writeBuf.Length
      && FramesOk() && start <= |sent|
      && (writeFrameType == NO_FRAME || writeFrameType == CONTINUATION || IsData(writeFrameType) || IsControl(writeFrameType))
      && (writeFrameType == NO_FRAME ==> writePos == MAX_HEADER)
      && (writeErr == Ok && !closeSent ==> MessageOk())
    }

    /** What holds of the message being written as long as nothing went wrong. */
    ghost predicate MessageOk()
      reads this`sent, this`start, this`writeFrameType, this`messageType
      requires start <= |sent|
    {
      Progress(sent, start, writeFrameType, messageType)
    }

    /** The bytes of the message so far: on the wire, and waiting in the buffer. */
    ghost function Message(): seq<byte>
      reads this`sent, this`start, this`writePos, writeBuf
    {
      if start <= |sent| && MAX_HEADER <= writePos <= writeBuf.Length then
        Payload(sent[start..]) + writeBuf[MAX_HEADER..writePos]
      else []
    }

    /** A whole message of type `t` is on the wire: an unfragmented control frame, or frames that
        start and finish one data message. */
    ghost predicate Delivered(t: int, data: seq<byte>)
      reads this`sent, this`start
    {
      start <= |sent| && IsDelivered(sent, start, t, data)
    }

    // --- Writing frames ---------------------------------------------------------------------

    /** Writes the first two bytes and the length so that they end where the masking key or, on a
        server, the payload begins. */
    method PutHeader(b0: byte, maskBit: nat, length: nat) returns (framePos: nat)
      requires writeBuf.Length > MAX_HEADER && length <= MAX_INT
      requires maskBit == if isServer then 0 else 128
      modifies writeBuf
      ensures framePos + 2 + |LengthMore(ShortestForm(length), length)| == if isServer then MAX_HEADER else MAX_HEADER - 4
      ensures var form := ShortestForm(length);
        writeBuf[framePos..framePos + 2 + |LengthMore(form, length)|] == [b0, Length7(form, length) + maskBit] + LengthMore(form, length)
      ensures forall i :: MAX_HEADER <= i < writeBuf.Length ==> writeBuf[i] == old(writeBuf[i])
    {
      framePos := 0;
      if isServer {
        // Adjust up if mask not included in the header.
        framePos := 4;
      }
      if length >= 65536 {
        PutBytes(framePos, b0, maskBit + 127, BigEndian(length, 8));
      } else if length > 125 {
        framePos := framePos + 6;
        PutBytes(framePos, b0, maskBit + 126, BigEndian(length, 2));
      } else {
        framePos := framePos + 8;
        PutBytes(framePos, b0, maskBit + length, []);
      }
    }

    method PutBytes(framePos: nat, b0: byte, b1: byte, more: seq<byte>)
      requires framePos + 2 + |more| <= writeBuf.Length
      modifies writeBuf
      ensures writeBuf[framePos..framePos + 2 + |more|] == [b0, b1] + more
      ensures forall i :: framePos + 2 + |more| <= i < writeBuf.Length ==> writeBuf[i] == old(writeBuf[i])
    {
      writeBuf[framePos] := b0;
      writeBuf[framePos + 1] := b1;
      CopyInto(writeBuf, framePos + 2, more);
      assert writeBuf[framePos..framePos + 2 + |more|] ==
             [writeBuf[framePos], writeBuf[framePos + 1]] + writeBuf[framePos + 2..framePos + 2 + |more|];
    }

    /** Sends bytes to the network, unless a close frame was sent before. */
    method Write(frameType: int, bytes: seq<byte>) returns (err: Error)
      modifies this`closeSent, this`wire
      ensures old(closeSent) ==> err == ErrCloseSent && wire == old(wire) && closeSent
      ensures !old(closeSent) ==> err == Ok && wire == old(wire) + bytes && closeSent == (frameType == CLOSE)
    {
      if closeSent {
        return ErrCloseSent;
      } else if frameType == CLOSE {
        closeSent := true;
      }
      wire := wire + bytes;
      return Ok;
    }

    /** The frame that flushing the buffer and `extra` makes. */
    ghost function FlushedFrame(final: bool, extra: seq<byte>, mask: Mask): Frame
      reads this`writePos, this`writeFrameType, writeBuf
      requires MAX_HEADER <= writePos <= writeBuf.Length && writeFrameType >= 0
    {
      Built(final, writeFrameType, writeBuf[MAX_HEADER..writePos] + extra, mask)
    }

    /** Builds the frame around the payload that lies in the buffer, masking it where it lies. */
    method BuildFrame(final: bool, extra: seq<byte>) returns (framePos: nat, ghost mask: Mask)
      requires MAX_HEADER < writeBuf.Length && MAX_HEADER <= writePos <= writeBuf.Length
      requires 0 <= writeFrameType < 16 && writePos + |extra| <= MAX_INT && (extra != [] ==> isServer)
      modifies writeBuf
      ensures mask.Masked? == !isServer && framePos <= MAX_HEADER
      ensures writeBuf[framePos..writePos] + extra == Encode(old(FlushedFrame(final, extra, mask)))
    {
      hide Encode, Header, LengthMore, Length7, Xor;
      var length := writePos - MAX_HEADER + |extra|;
      ghost var payload := writeBuf[MAX_HEADER..writePos];
      var b0: byte := writeFrameType + if final then 128 else 0;
      framePos := PutHeader(b0, if isServer then 0 else 128, length);
      assert writeBuf[MAX_HEADER..writePos] == payload;
      ghost var head := Head(final, writeFrameType, length, !isServer);
      if isServer {
        mask := Unmasked;
        SplitBuffer(writeBuf[..], framePos, MAX_HEADER, MAX_HEADER, writePos);
        assert writeBuf[framePos..writePos] + extra == head + (payload + extra);
      } else {
        var key := NewMaskKey();
        mask := Masked(key);
        PutMasked(framePos, key, head, payload);
        assert payload + [] == payload;
      }
      EncodeParts(Built(final, writeFrameType, payload + extra, mask));
    }

    method PutMasked(framePos: nat, key: Key, ghost head: seq<byte>, ghost payload: seq<byte>)
      requires MAX_HEADER < writeBuf.Length && MAX_HEADER <= writePos <= writeBuf.Length && framePos <= MAX_HEADER - 4
      requires writeBuf[framePos..MAX_HEADER - 4] == head && writeBuf[MAX_HEADER..writePos] == payload
      modifies writeBuf
      ensures writeBuf[framePos..writePos] == head + key + MaskBytes(key, 0, payload)
    {
      CopyInto(writeBuf, MAX_HEADER - 4, key);
      assert writeBuf[framePos..MAX_HEADER - 4] == head;
      assert writeBuf[MAX_HEADER - 4..MAX_HEADER] == key;
      assert writeBuf[MAX_HEADER..writePos] == payload;
      ghost var before := writeBuf[..MAX_HEADER];
      var pos := MaskInPlace(key, 0, writeBuf, MAX_HEADER, writePos);
      assert writeBuf[..MAX_HEADER] == before;
      assert writeBuf[framePos..MAX_HEADER - 4] == before[framePos..MAX_HEADER - 4] == head;
      assert writeBuf[MAX_HEADER - 4..MAX_HEADER] == before[MAX_HEADER - 4..MAX_HEADER] == key;
      SplitBuffer(writeBuf[..], framePos, MAX_HEADER - 4, MAX_HEADER, writePos);
    }

    /** Whether flushing the current frame breaks the rules for control frames. */
    ghost predicate Rejected(final: bool, extra: seq<byte>)
      reads this`writePos, this`writeFrameType
      requires writePos >= MAX_HEADER
    {
      IsControl(writeFrameType) && (!final || writePos - MAX_HEADER + |extra| > MAX_CONTROL)
    }

    /** Sends the frame that lies in the buffer, followed by `extra`. */
    method FlushFrame(final: bool, extra: seq<byte>) returns (err: Error)
      requires ValidWrite() && writeFrameType != NO_FRAME && writeErr == Ok
      requires writePos + |extra| <= MAX_INT && (extra != [] ==> isServer)
      modifies this`closeSent, this`wire, this`sent, this`writeErr, this`writePos, this`writeFrameType, this`writeSeq, writeBuf
      ensures ValidWrite() && writePos == MAX_HEADER
      ensures writeFrameType == (if final || err == ErrInvalidControlFrame then NO_FRAME else CONTINUATION)
      ensures writeSeq == old(writeSeq) + if writeFrameType == NO_FRAME then 1 else 0
      ensures err == (if old(Rejected(final, extra)) then ErrInvalidControlFrame else if old(closeSent) then ErrCloseSent else Ok)
      ensures writeErr == if err == ErrCloseSent then err else Ok
      ensures err != Ok ==> sent == old(sent) && closeSent == old(closeSent)
      ensures err == Ok ==> exists mask :: sent == old(sent) + [old(FlushedFrame(final, extra, mask))]
      ensures err == Ok ==> closeSent == (old(writeFrameType) == CLOSE)
      ensures err == Ok && !IsControl(old(writeFrameType)) ==> Payload(sent[start..]) == old(Message()) + extra
      ensures err == Ok && final ==> Delivered(messageType, old(Message()) + extra)
    {
      hide Encode, EncodeAll, ScanFrom, Types, Payload, Step, Advanced, Progress, IsDelivered;
      if IsControl(writeFrameType) && (!final || writePos - MAX_HEADER + |extra| > MAX_CONTROL) {
        AbandonControl(sent, start, writeFrameType, messageType);
        writeSeq := writeSeq + 1;
        writeFrameType := NO_FRAME;
        writePos := MAX_HEADER;
        return ErrInvalidControlFrame;
      }
      ghost var mask;
      err, mask := SendBuffer(final, extra);
      writeErr := err;
      if err == Ok {
        assert old(Message()) + extra == Payload(old(sent)[start..]) + (old(writeBuf[MAX_HEADER..writePos]) + extra);
        FlushedMessage(old(sent), start, writeFrameType, messageType, old(FlushedFrame(final, extra, mask)));
      }
      // Setup for next frame.
      writePos := MAX_HEADER;
      writeFrameType := CONTINUATION;
      if final {
        writeSeq := writeSeq + 1;
        writeFrameType := NO_FRAME;
      }
    }

    /** Builds and sends the frame, whatever its kind. */
    method SendBuffer(final: bool, extra: seq<byte>) returns (err: Error, ghost mask: Mask)
      requires ValidWrite() && writeFrameType != NO_FRAME && writeErr == Ok && !Rejected(final, extra)
      requires writePos + |extra| <= MAX_INT && (extra != [] ==> isServer)
      modifies this`closeSent, this`wire, this`sent, writeBuf
      ensures FramesOk() && err == if old(closeSent) then ErrCloseSent else Ok
      ensures err != Ok ==> sent == old(sent) && closeSent == old(closeSent)
      ensures err == Ok ==> sent == old(sent) + [old(FlushedFrame(final, extra, mask))] && closeSent == (writeFrameType == CLOSE)
      ensures err == Ok ==> Advanced(old(sent), start, old(FlushedFrame(final, extra, mask)))
    {
      hide Encode, EncodeAll, ScanFrom, Types, Payload, Advanced;
      var framePos;
      framePos, mask := BuildFrame(final, extra);
      err := Send(old(FlushedFrame(final, extra, mask)), writeBuf[framePos..writePos] + extra);
    }

    /** Writes an encoded frame to the network. */
    method Send(ghost f: Frame, bytes: seq<byte>) returns (err: Error)
      requires FramesOk() && start <= |sent| && writeFrameType == f.opcode && Fits(f) && bytes == Encode(f)
      requires f.mask.Masked? == !isServer && f.form == ShortestForm(|f.payload|)
      requires !closeSent ==> Step(ScanFrom(Between, sent), f) != Broken
      modifies this`closeSent, this`wire, this`sent
      ensures FramesOk() && err == if old(closeSent) then ErrCloseSent else Ok
      ensures err != Ok ==> sent == old(sent) && closeSent == old(closeSent)
      ensures err == Ok ==> sent == old(sent) + [f] && closeSent == (f.opcode == CLOSE)
      ensures err == Ok ==> Advanced(old(sent), start, f)
    {
      hide Encode, EncodeAll, ScanFrom, Types, Payload;
      EncodeAllAppend(sent, f);
      SentOneMore(sent, start, f);
      err := Write(writeFrameType, bytes);
      if err == Ok {
        sent := sent + [f];
      }
    }

    // --- Message writers --------------------------------------------------------------------

    /** Nothing stands in the way of writing data. */
    predicate Clear()
      reads this`closeSent, this`writeFrameType
    {
      !closeSent && !IsControl(writeFrameType)
    }

    /** What stops a message from being started: an earlier error, or a message still open that cannot
        be finished, because it is too long a control frame or a close frame was sent. */
    ghost function Blocked(): Error
      reads this`writePos, this`writeFrameType, this`writeErr, this`closeSent
      requires writePos >= MAX_HEADER
    {
      if writeErr != Ok then writeErr
      else if writeFrameType == NO_FRAME then Ok
      else if Rejected(true, []) then ErrInvalidControlFrame
      else if closeSent then ErrCloseSent
      else Ok
    }

    /** Starts a message. The returned number identifies its writer. An open message is finished
        first. */
    method NextWriter(messageType: int) returns (err: Error, seq_: nat)
      requires ValidWrite()
      modifies this`closeSent, this`wire, this`sent, this`writeErr, this`writePos, this`writeFrameType, this`writeSeq, this`start,
               this`messageType, writeBuf
      ensures ValidWrite() && seq_ == writeSeq
      ensures err == if old(Blocked()) != Ok then old(Blocked())
                     else if IsControl(messageType) || IsData(messageType) then Ok else ErrBadWriteOpCode
      ensures err == Ok ==> writeErr == Ok && writeFrameType == messageType && writePos == MAX_HEADER
      ensures err == Ok ==> Message() == [] && start == |sent| && this.messageType == messageType
      ensures old(sent) <= sent && (old(Blocked() != Ok || writeFrameType == NO_FRAME) ==> sent == old(sent))
      ensures old(Blocked() == Ok && writeFrameType != NO_FRAME) ==>
                IsDelivered(sent, old(start), old(this.messageType), old(Message()))
      ensures closeSent == (old(closeSent) || old(Blocked() == Ok && writeFrameType == CLOSE))
      ensures writeSeq == old(writeSeq) + if old(writeErr) == Ok && old(writeFrameType) != NO_FRAME then 1 else 0
    {
      hide FramesOk, Progress, IsDelivered, Payload, Advanced;
      if writeErr != Ok {
        return writeErr, writeSeq;
      }
      if writeFrameType != NO_FRAME {
        err := FlushFrame(true, []);
        if err != Ok {
          return err, writeSeq;
        }
        assert old(Message()) + [] == old(Message());
      }
      if !IsControl(messageType) && !IsData(messageType) {
        return ErrBadWriteOpCode, writeSeq;
      }
      StartMessage(sent, start, this.messageType, messageType);
      writeFrameType := messageType;
      this.messageType := messageType;
      start := |sent|;
      return Ok, writeSeq;
    }

    /** The error of the writer with number `w`. */
    function WriterErr(w: nat): Error
      reads this`writeSeq, this`writeErr
    {
      if writeSeq != w then ErrWriteClosed else writeErr
    }

    /** Room for at most `max` bytes in the buffer, after flushing it when it is full. */
    method Ncopy(max: nat) returns (n: nat, err: Error)
      requires ValidWrite() && writeFrameType != NO_FRAME && writeErr == Ok && max > 0
      modifies this`closeSent, this`wire, this`sent, this`writeErr, this`writePos, this`writeFrameType, this`writeSeq, writeBuf
      ensures ValidWrite()
      ensures writeSeq == old(writeSeq) + if writeFrameType == NO_FRAME then 1 else 0
      ensures err == Ok ==> writeFrameType != NO_FRAME && writeErr == Ok
      ensures err == Ok ==> (IsControl(writeFrameType) <==> IsControl(old(writeFrameType)))
      ensures err == Ok ==> 0 < n <= max && writePos + n <= writeBuf.Length
      ensures old(sent) <= sent && (old(Clear()) ==> err == Ok && Clear())
      ensures old(closeSent) ==> closeSent
      ensures IsControl(old(writeFrameType)) ==> (err == Ok <==> old(writePos) < writeBuf.Length)
      ensures IsControl(old(writeFrameType)) && err == Ok ==>
                writePos == old(writePos) && closeSent == old(closeSent) && n == if max < writeBuf.Length - writePos then max else writeBuf.Length - writePos
      ensures err == Ok ==> Message() == old(Message())
    {
      hide FramesOk, MessageOk, Payload;
      n := writeBuf.Length - writePos;
      if n <= 0 {
        err := FlushFrame(false, []);
        if err != Ok {
          return 0, err;
        }
        n := writeBuf.Length - writePos;
      }
      if n > max {
        n := max;
      }
      err := Ok;
    }

    /** Copies as much as fits of what is left to write into the buffer. */
    method CopySome(p: seq<byte>) returns (k: nat, err: Error)
      requires ValidWrite() && writeFrameType != NO_FRAME && writeErr == Ok && p != []
      modifies this`closeSent, this`wire, this`sent, this`writeErr, this`writePos, this`writeFrameType, this`writeSeq, writeBuf
      ensures ValidWrite()
      ensures writeSeq == old(writeSeq) + if writeFrameType == NO_FRAME then 1 else 0
      ensures err == Ok ==> writeFrameType != NO_FRAME && writeErr == Ok && 0 < k <= |p|
      ensures err == Ok ==> (IsControl(writeFrameType) <==> IsControl(old(writeFrameType)))
      ensures err == Ok ==> Message() == old(Message()) + p[..k]
      ensures old(sent) <= sent && (old(Clear()) ==> err == Ok && Clear())
      ensures old(closeSent) ==> closeSent
      ensures IsControl(old(writeFrameType)) ==> (err == Ok <==> old(writePos) < writeBuf.Length)
      ensures IsControl(old(writeFrameType)) && err == Ok ==> writePos == old(writePos) + k && closeSent == old(closeSent)
    {
      hide ValidWrite, Message, Payload;
      k, err := Ncopy(|p|);
      if err != Ok {
        return;
      }
      Buffer(p[..k]);
    }

    /** Copies bytes into the free part of the buffer. */
    method Buffer(p: seq<byte>)
      requires ValidWrite() && writeFrameType != NO_FRAME && writePos + |p| <= writeBuf.Length
      modifies this`writePos, writeBuf
      ensures ValidWrite() && Message() == old(Message()) + p && writePos == old(writePos) + |p|
    {
      hide FramesOk, MessageOk, Payload;
      ghost var before, onWire := writeBuf[MAX_HEADER..writePos], Payload(sent[start..]);
      CopyInto(writeBuf, writePos, p);
      assert writeBuf[MAX_HEADER..writePos] == before;
      assert writeBuf[MAX_HEADER..writePos + |p|] == writeBuf[MAX_HEADER..writePos] + writeBuf[writePos..writePos + |p|];
      writePos := writePos + |p|;
      assert onWire + (before + p) == onWire + before + p;
    }

    /** A server sends a large part of a message directly from the caller's bytes. */
    predicate Direct(n: nat) {
      n > 2 * writeBuf.Length && isServer
    }

    /** `n` more bytes of a control frame can be written: they are sent at once, or fit. */
    predicate TakesControl(final: bool, n: nat)
      reads this`writePos, this`closeSent
    {
      if Direct(n) then final && writePos + n <= MAX_HEADER + MAX_CONTROL && !closeSent else writePos + n <= writeBuf.Length
    }

    /** Writes part of a message. */
    method WriteBytes(w: nat, final: bool, p0: seq<byte>) returns (n: nat, err: Error)
      requires ValidWrite() && writeBuf.Length + |p0| <= MAX_INT && w <= writeSeq
      requires WriterErr(w) == Ok ==> writeFrameType != NO_FRAME
      modifies this`closeSent, this`wire, this`sent, this`writeErr, this`writePos, this`writeFrameType, this`writeSeq, writeBuf
      ensures ValidWrite() && w <= writeSeq && (WriterErr(w) == Ok ==> writeFrameType != NO_FRAME)
      ensures err == Ok ==> old(WriterErr(w)) == Ok && n == |p0| && writeErr == Ok
      ensures err == Ok && writeSeq == w ==> Message() == old(Message()) + p0
      ensures err == Ok && writeSeq != w ==> final && writeFrameType == NO_FRAME && writeSeq == w + 1
      ensures err == Ok && writeSeq != w ==> Delivered(messageType, old(Message()) + p0)
      ensures old(sent) <= sent && (old(closeSent) ==> closeSent)
      ensures old(WriterErr(w) == Ok && Clear()) ==> err == Ok && (writeSeq == w ==> Clear())
      ensures err == Ok && writeSeq != w ==> !old(closeSent)
      ensures old(WriterErr(w)) != Ok ==> err == old(WriterErr(w))
      ensures old(WriterErr(w) == Ok && IsControl(writeFrameType)) ==> (err == Ok <==> old(TakesControl(final, |p0|)))
      ensures old(WriterErr(w) == Ok && IsControl(writeFrameType)) && err == Ok ==>
                if Direct(|p0|) then writeSeq != w
                else writeSeq == w && writePos == old(writePos) + |p0| && closeSent == old(closeSent) && IsControl(writeFrameType)
    {
      hide FramesOk, MessageOk, Payload, Types;
      if WriterErr(w) != Ok {
        return 0, WriterErr(w);
      }
      if |p0| > 2 * writeBuf.Length && isServer {
        // Don't buffer large messages.
        err := FlushFrame(final, p0);
        if err != Ok {
          return 0, err;
        }
        return |p0|, Ok;
      }
      ghost var message := Message() + p0;
      var p := p0;
      while |p| > 0
        invariant ValidWrite() && writeSeq == w && writeErr == Ok && writeFrameType != NO_FRAME
        invariant IsControl(writeFrameType) <==> IsControl(old(writeFrameType))
        invariant Message() + p == message && old(sent) <= sent && (old(Clear()) ==> Clear()) && (old(closeSent) ==> closeSent)
        invariant IsControl(writeFrameType) ==> writePos + |p| == old(writePos) + |p0| && closeSent == old(closeSent)
        decreases |p|
      {
        var k;
        ghost var sofar := Message();
        k, err := CopySome(p);
        if err != Ok {
          return 0, err;
        }
        Regroup(sofar, p, k);
        p := p[k..];
      }
      return |p0|, Ok;
    }

    /** Finishes a message. */
    method CloseMessage(w: nat) returns (err: Error)
      requires ValidWrite() && w <= writeSeq && (WriterErr(w) == Ok ==> writeFrameType != NO_FRAME)
      modifies this`closeSent, this`wire, this`sent, this`writeErr, this`writePos, this`writeFrameType, this`writeSeq, writeBuf
      ensures ValidWrite()
      ensures err == Ok ==> writeErr == Ok && writeFrameType == NO_FRAME && writeSeq == w + 1
      ensures err == Ok ==> Delivered(messageType, old(Message()))
      ensures old(sent) <= sent && (old(WriterErr(w) == Ok && Clear()) ==> err == Ok && !closeSent)
    {
      if WriterErr(w) != Ok {
        return WriterErr(w);
      }
      err := FlushFrame(true, []);
      assert old(Message()) + [] == old(Message());
    }

    /** A message of `n` bytes can be written: nothing blocks it, no close frame was or is sent before
        it, and a control frame is short and fits into the buffer, or is sent directly. */
    ghost predicate CanWrite(messageType: int, n: nat)
      reads this`writePos, this`writeFrameType, this`writeErr, this`closeSent
      requires writePos >= MAX_HEADER
    {
      && Blocked() == Ok && !closeSent && writeFrameType != CLOSE
      && (IsData(messageType) || (IsControl(messageType) && n <= MAX_CONTROL && (Direct(n) || MAX_HEADER + n <= writeBuf.Length)))
    }

    /** Writes a whole message at once. */
    method WriteMessage(messageType: int, data: seq<byte>) returns (err: Error)
      requires ValidWrite() && writeBuf.Length + |data| <= MAX_INT
      modifies this`closeSent, this`wire, this`sent, this`writeErr, this`writePos, this`writeFrameType, this`writeSeq, this`start,
               this`messageType, writeBuf
      ensures ValidWrite() && old(sent) <= sent && old(writeSeq) <= writeSeq
      ensures err == Ok <==> old(CanWrite(messageType, |data|))
      ensures err == Ok ==> writeErr == Ok && writeFrameType == NO_FRAME && Delivered(messageType, data)
      ensures err == Ok ==> |old(sent)| <= start && (old(writeFrameType) == NO_FRAME ==> start == |old(sent)|)
      ensures err == Ok && old(writeFrameType) != NO_FRAME ==>
                old(start) <= start && IsDelivered(sent[..start], old(start), old(this.messageType), old(Message()))
    {
      hide FramesOk, MessageOk, Delivered, IsDelivered, Payload, Types;
      var w, n;
      err, w := NextWriter(messageType);
      if err != Ok {
        return err;
      }
      ghost var sent0 := sent;
      assert sent[..start] == sent0;
      assert Message() + data == data;
      n, err := WriteBytes(w, true, data);
      assert sent[..start] == sent0;
      if err != Ok {
        return err;
      }
      if writeSeq == w {
        err := FlushFrame(true, []);
        assert data + [] == data;
        assert sent[..start] == sent0;
      }
    }

    /** Sends a control frame between the frames of whatever is being written. */
    method WriteControl(messageType: int, data: seq<byte>) returns (err: Error)
      requires ValidWrite()
      modifies this`closeSent, this`wire, this`sent
      ensures ValidWrite() && Message() == old(Message())
      ensures Types(sent[start..]) == old(Types(sent[start..]))
      ensures err == (if !IsControl(messageType) then ErrBadWriteOpCode
                      else if |data| > MAX_CONTROL then ErrInvalidControlFrame
                      else if old(closeSent) then ErrCloseSent else Ok)
      ensures err != Ok ==> sent == old(sent) && closeSent == old(closeSent)
      ensures err == Ok ==> exists mask :: sent == old(sent) + [Built(true, messageType, data, mask)]
      ensures err == Ok ==> closeSent == (messageType == CLOSE)
    {
      hide Encode, EncodeAll, ScanFrom, Types, Payload, Advanced, Progress;
      if !IsControl(messageType) {
        return ErrBadWriteOpCode;
      }
      if |data| > MAX_CONTROL {
        return ErrInvalidControlFrame;
      }
      var buf, mask := ControlFrame(messageType, data);
      ghost var f := Built(true, messageType, data, mask);
      EncodeAllAppend(sent, f);
      SentOneMore(sent, start, f);
      ControlBetween(sent, start, writeFrameType, this.messageType, f);
      err := Write(messageType, buf);
      if err == Ok {
        sent := sent + [f];
      }
    }

    /** Builds a control frame. */
    method ControlFrame(messageType: int, data: seq<byte>) returns (buf: seq<byte>, ghost mask: Mask)
      requires IsControl(messageType) && |data| <= MAX_CONTROL
      ensures buf == Encode(Built(true, messageType, data, mask)) && mask.Masked? == !isServer
    {
      hide Encode;
      buf := [messageType + 128, |data| + if isServer then 0 else 128];
      if isServer {
        mask := Unmasked;
        buf := buf + data;
      } else {
        var key := NewMaskKey();
        mask := Masked(key);
        buf := buf + key + MaskBytes(key, 0, data);
      }
      EncodeParts(Built(true, messageType, data, mask));
    }

    // --- Reading frames ---------------------------------------------------------------------

    function CurrentMask(): Mask
      reads this`readMaskKey
    {
      if isServer then Masked(readMaskKey) else Unmasked
    }

    /** The unread input is the rest of the current frame and then frames, as far as it goes. Any
        input is: what is missing can be anything. */
    ghost predicate Synced()
      reads this`input, this`missing, this`cur, this`ahead, this`readRemaining, this`readMaskPos, this`readMaskKey
    {
      && AllFit(ahead) && |cur| == readRemaining && readMaskPos < 4
      && input + missing == Apply(CurrentMask(), readMaskPos, cur) + EncodeAll(ahead)
    }

    /** Where the reader stands, in terms of the frames it has seen. */
    function Standing(): Scan
      reads this`readFinal
    {
      if readFinal then Between else Inside
    }

    /** One read from the network: some of the bytes that are there. */
    method NetRead(max: nat) returns (s: seq<byte>, eof: bool)
      modifies this`input
      ensures s + input == old(input) && |s| <= max
      ensures eof == (max > 0 && old(input) == [])
      ensures max > 0 && !eof ==> |s| > 0
    {
      if max == 0 {
        return [], false;
      }
      if input == [] {
        return [], true;
      }
      var n: nat :| 0 < n <= max && n <= |input|;
      s, eof := input[..n], false;
      input := input[n..];
    }

    /** Reads exactly `n` bytes, if there are so many. */
    method ReadFull(n: nat) returns (p: seq<byte>, err: Error)
      modifies this`input
      ensures |old(input)| >= n ==> err == Ok && p == old(input)[..n] && input == old(input)[n..]
      ensures |old(input)| < n ==> err == ErrUnexpectedEOF && input == []
    {
      p, err := [], Ok;
      while |p| < n && err == Ok
        invariant p + input == old(input) && |p| <= n
        invariant err == Ok || (err == EOF && |p| < n && input == [])
        decreases n - |p|, if err == Ok then 1 else 0
      {
        var s, eof := NetRead(n - |p|);
        assert (p + s) + input == old(input);
        p := p + s;
        if eof {
          err := EOF;
        }
      }
      assert p == old(input)[..|p|] && input == old(input)[|p|..];
      if |p| == n {
        err := Ok;
      } else if err == EOF {
        err := ErrUnexpectedEOF;
      }
    }

    /** Reads the bytes `a` that come next, if they all come. */
    method Expect(n: nat, ghost a: seq<byte>, ghost tail: seq<byte>) returns (p: seq<byte>, err: Error)
      requires n == |a| && input + missing == a + tail
      modifies this`input
      ensures err == if |old(input)| < n then ErrUnexpectedEOF else Ok
      ensures err == Ok ==> p == a && input + missing == tail && |input| == |old(input)| - n
    {
      ghost var whole := a + tail;
      ghost var before := input;
      p, err := ReadFull(n);
      if err == Ok {
        assert whole[..n] == a && whole[n..] == tail;
        assert (before + missing)[..n] == before[..n] && (before + missing)[n..] == before[n..] + missing;
      }
    }

    /** The parts that the first two bytes of a frame encode. */
    method ReadStart(ghost fs: seq<Frame>) returns (fin: bool, rsv: nat, opcode: nat, masked: bool, len7: nat, err: Error)
      requires AllFit(fs) && input + missing == EncodeAll(fs)
      modifies this`input
      ensures err == if |old(input)| < 2 then ErrUnexpectedEOF else Ok
      ensures err == Ok ==> fs != [] && |input| == |old(input)| - 2
      ensures err == Ok ==> var f := fs[0];
        && fin == f.fin && rsv == f.rsv && opcode == f.opcode && masked == f.mask.Masked? && len7 == Length7(f.form, |f.payload|)
        && input + missing ==
             LengthMore(f.form, |f.payload|) + (KeyBytes(f.mask) + (Apply(f.mask, 0, f.payload) + EncodeAll(fs[1..])))
    {
      hide Apply, Length7, LengthMore, KeyBytes;
      ghost var start, tail := [], [];
      if fs != [] {
        var f := fs[0];
        start := [Encode(f)[0], Encode(f)[1]];
        tail := LengthMore(f.form, |f.payload|) + (KeyBytes(f.mask) + (Apply(f.mask, 0, f.payload) + EncodeAll(fs[1..])));
        assert EncodeAll(fs) == start + tail;
      }
      var b;
      if fs == [] {
        assert input == [] && missing == [];
      }
      b, err := ReadFull(2);
      if err != Ok {
        return false, 0, 0, false, 0, err;
      }
      StartRead(old(input), missing, start, tail);
      fin, rsv, opcode := b[0] >= 128, b[0] / 16 % 8, b[0] % 16;
      masked, len7 := b[1] >= 128, b[1] % 128;
    }

    method ReadLength(len7: nat, ghost form: Form, ghost n: nat, ghost tail: seq<byte>) returns (length: nat, err: Error)
      requires FormFits(form, n) && n <= MAX_INT && len7 == Length7(form, n)
      requires input + missing == LengthMore(form, n) + tail
      modifies this`input
      ensures err == if |old(input)| < |LengthMore(form, n)| then ErrUnexpectedEOF else Ok
      ensures err == Ok ==> length == n && input + missing == tail && |input| == |old(input)| - |LengthMore(form, n)|
    {
      length, err := len7, Ok;
      if len7 == 126 {
        var b;
        b, err := Expect(2, BigEndian(n, 2), tail);
        if err == Ok {
          Below16(n);
          BigEndianBack(n, 2);
          length := FromBigEndian(b);
        }
      } else if len7 == 127 {
        var b;
        b, err := Expect(8, BigEndian(n, 8), tail);
        if err == Ok {
          Below64(n);
          BigEndianBack(n, 8);
          length := FromBigEndian(b);
        }
      }
    }

    method ReadKey(masked: bool, ghost mask: Mask, ghost body: seq<byte>, ghost tail: seq<byte>) returns (err: Error)
      requires masked == mask.Masked? == isServer && input + missing == KeyBytes(mask) + tail && readMaskPos < 4
      modifies this`input, this`readMaskPos, this`readMaskKey
      ensures err == if |old(input)| < |KeyBytes(mask)| then ErrUnexpectedEOF else Ok
      ensures err == Ok ==> input + missing == tail && |input| == |old(input)| - |KeyBytes(mask)|
      ensures err == Ok ==> CurrentMask() == mask && readMaskPos < 4 && Apply(mask, readMaskPos, body) == Apply(mask, 0, body)
    {
      err := Ok;
      if masked {
        readMaskPos := 0;
        var b;
        b, err := Expect(4, mask.key, tail);
        if err == Ok {
          readMaskKey := b;
        }
      }
    }

    method ReadControl(length: nat, ghost mask: Mask, ghost body: seq<byte>, ghost tail: seq<byte>)
        returns (payload: seq<byte>, err: Error)
      requires length == |body| && CurrentMask() == mask && input + missing == Apply(mask, 0, body) + tail
      modifies this`input
      ensures err == if |old(input)| < length then ErrUnexpectedEOF else Ok
      ensures err == Ok ==> payload == body && input + missing == tail
    {
      payload, err := [], Ok;
      if length > 0 {
        payload, err := Expect(length, Apply(mask, 0, body), tail);
        if err == Ok {
          ApplyTwice(mask, 0, body);
          if isServer {
            payload := MaskBytes(readMaskKey, 0, payload);
          }
        }
      }
    }

    /** One control frame was sent, unless a close frame was sent `before`. */
    ghost predicate Answered(before: seq<Frame>, closed: bool, opcode: nat, data: seq<byte>)
      reads this`sent
    {
      if closed then sent == before
      else |sent| == |before| + 1 && sent == before + [Built(true, opcode, data, sent[|before|].mask)]
    }

    /** How the reader answers frame `f`: a violation, a close frame and too large a message are
        answered with a close frame, a ping with a pong of the same payload. */
    ghost predicate Reacted(before: seq<Frame>, closed: bool, f: Frame, err: Error)
      reads this`sent
    {
      if err == ErrUnexpectedEOF then sent == before
      else if err == ErrProtocol then Answered(before, closed, CLOSE, BigEndian(CLOSE_PROTOCOL_ERROR, 2))
      else if f.opcode == CLOSE then Answered(before, closed, CLOSE, [])
      else if f.opcode == PING then Answered(before, closed, PONG, f.payload)
      else if err == ErrReadLimit then Answered(before, closed, CLOSE, BigEndian(CLOSE_TOO_BIG, 2))
      else sent == before
    }

    /** Reports a violation of the protocol to the peer. */
    method HandleProtocolError() returns (err: Error)
      requires ValidWrite()
      modifies this`closeSent, this`wire, this`sent
      ensures ValidWrite() && Message() == old(Message()) && err == ErrProtocol
      ensures Answered(old(sent), old(closeSent), CLOSE, BigEndian(CLOSE_PROTOCOL_ERROR, 2))
    {
      var e := WriteControl(CLOSE, BigEndian(CLOSE_PROTOCOL_ERROR, 2));
      return ErrProtocol;
    }

    /** Whether the frame header is one that may come now. Keeps track of message boundaries. */
    method CheckStart(fin: bool, rsv: nat, opcode: nat, len7: nat, ghost f: Frame) returns (ok: bool)
      requires Fits(f) && fin == f.fin && rsv == f.rsv && opcode == f.opcode && len7 == Length7(f.form, |f.payload|)
      modifies this`readFinal
      ensures ok == (Step(old(Standing()), f) != Broken)
      ensures ok ==> readFinal == if IsControl(opcode) then old(readFinal) else fin
      ensures ok ==> IsControl(opcode) || IsData(opcode) || opcode == CONTINUATION
      ensures ok && IsControl(opcode) ==> |f.payload| <= MAX_CONTROL
    {
      if rsv != 0 {
        return false;
      }
      if opcode == CLOSE || opcode == PING || opcode == PONG {
        return len7 <= MAX_CONTROL && fin;
      } else if opcode == TEXT || opcode == BINARY {
        if !readFinal {
          return false;
        }
        readFinal := fin;
      } else if opcode == CONTINUATION {
        if readFinal {
          return false;
        }
        readFinal := fin;
      } else {
        return false;
      }
      return true;
    }

    ghost predicate OverLimit(length: nat)
      reads this`readLimit
    {
      readLimit > 0 && length > readLimit
    }

    /** Deals with a control frame. */
    method HandleControl(opcode: nat, payload: seq<byte>) returns (err: Error)
      requires ValidWrite() && IsControl(opcode) && |payload| <= MAX_CONTROL
      modifies this`closeSent, this`wire, this`sent, this`handled
      ensures ValidWrite() && Message() == old(Message())
      ensures err == Ok ==> Pongs(old(sent), sent) && closeSent == old(closeSent)
      ensures if opcode == PONG then sent == old(sent)
        else if opcode == PING then Answered(old(sent), old(closeSent), PONG, payload)
        else Answered(old(sent), old(closeSent), CLOSE, [])
      ensures err == if opcode == CLOSE then CloseResult(payload) else Ok
      ensures handled == old(handled) + if opcode == CLOSE then [] else [(opcode, payload)]
    {
      if opcode == PONG {
        handled := handled + [(PONG, payload)];
      } else if opcode == PING {
        handled := handled + [(PING, payload)];
        var e := WriteControl(PONG, payload);
      } else {
        var e := WriteControl(CLOSE, []);
        return CloseResult(payload);
      }
      return Ok;
    }

    /** What comes of frame `f` when `avail` bytes are there from its first byte on: the parts of its
        header are judged as they are read. */
    ghost function Verdict(standing: Scan, f: Frame, avail: nat, length: nat): Error
      reads this`readLimit
      requires Fits(f)
    {
      if avail < 2 then ErrUnexpectedEOF
      else if Step(standing, f) == Broken then ErrProtocol
      else LaterVerdict(f, avail - 2, length)
    }

    /** The same behind the first two bytes. */
    ghost function LaterVerdict(f: Frame, avail: nat, length: nat): Error
      reads this`readLimit
      requires Fits(f)
    {
      var more, key := |LengthMore(f.form, |f.payload|)|, |KeyBytes(f.mask)|;
      if avail < more then ErrUnexpectedEOF
      else if f.mask.Masked? != isServer then ErrProtocol
      else if avail < more + key then ErrUnexpectedEOF
      else if IsControl(f.opcode) then
        if avail < more + key + |f.payload| then ErrUnexpectedEOF
        else if f.opcode == CLOSE then CloseResult(f.payload) else Ok
      else if OverLimit(length + |f.payload|) then ErrReadLimit
      else Ok
    }

    /** What reading frame `f` leaves when nothing is wrong with it: `rest` is ahead, and the
        other arguments say how things were before. */
    ghost predicate Took(f: Frame, rest: seq<Frame>, final: bool, length: nat, before: seq<(int, seq<byte>)>)
      reads this`input, this`missing, this`cur, this`ahead, this`readRemaining, this`readMaskPos, this`readMaskKey, this`readFinal,
            this`readLength, this`handled
    {
      && Synced() && ahead == rest
      && cur == (if IsControl(f.opcode) then [] else f.payload)
      && readFinal == (if IsControl(f.opcode) then final else f.fin)
      && readLength == length + (if IsControl(f.opcode) then 0 else |f.payload|)
      && handled == before + (if IsControl(f.opcode) then [(f.opcode as int, f.payload)] else [])
    }

    /** The end of reading a text, binary or continuation frame: its payload is left for later. */
    method BeginData(ghost f: Frame, ghost rest: seq<Frame>) returns (err: Error)
      requires ValidWrite() && AllFit(rest) && !IsControl(f.opcode) && readMaskPos < 4
      requires readRemaining == |f.payload| && readFinal == f.fin
      requires input + missing == Apply(CurrentMask(), readMaskPos, f.payload) + EncodeAll(rest)
      modifies this`readLength, this`cur, this`ahead, this`closeSent, this`wire, this`sent
      ensures ValidWrite() && Message() == old(Message())
      ensures err == Ok ==> Pongs(old(sent), sent) && closeSent == old(closeSent)
      ensures if OverLimit(old(readLength) + |f.payload|) then err == ErrReadLimit
        else err == Ok && Took(f, rest, readFinal, old(readLength), handled)
      ensures Reacted(old(sent), old(closeSent), f, err)
    {
      hide EncodeAll, Apply, ValidWrite, Message;
      readLength := readLength + readRemaining;
      if readLimit > 0 && readLength > readLimit {
        var e := WriteControl(CLOSE, BigEndian(CLOSE_TOO_BIG, 2));
        return ErrReadLimit;
      }
      cur, ahead := f.payload, rest;
      return Ok;
    }

    /** The end of reading a control frame. */
    method TakeControl(opcode: nat, ghost f: Frame, ghost rest: seq<Frame>) returns (err: Error)
      requires ValidWrite() && AllFit(rest) && IsControl(opcode) && opcode == f.opcode && readMaskPos < 4
      requires |f.payload| <= MAX_CONTROL
      requires readRemaining == |f.payload| && input + missing == Apply(CurrentMask(), 0, f.payload) + EncodeAll(rest)
      modifies this`input, this`readRemaining, this`handled, this`cur, this`ahead, this`closeSent, this`wire, this`sent
      ensures ValidWrite() && Message() == old(Message())
      ensures err == Ok ==> Pongs(old(sent), sent) && closeSent == old(closeSent)
      ensures if |old(input)| < |f.payload| then err == ErrUnexpectedEOF
        else if opcode == CLOSE then err == CloseResult(f.payload)
        else err == Ok && Took(f, rest, readFinal, readLength, old(handled)) && |input| == |old(input)| - |f.payload|
      ensures Reacted(old(sent), old(closeSent), f, err)
    {
      hide EncodeAll, Apply, ValidWrite, Message, Pongs;
      var payload;
      payload, err := ReadControl(readRemaining, CurrentMask(), f.payload, EncodeAll(rest));
      readRemaining := 0;
      if err != Ok {
        return;
      }
      cur, ahead := [], rest;
      assert Synced() by { assert Apply(CurrentMask(), readMaskPos, []) == []; assert [] + EncodeAll(rest) == EncodeAll(rest); }
      assert |input + missing| == |EncodeAll(rest)|;
      err := HandleControl(opcode, payload);
    }

    /** Reads what follows the first two bytes of a frame whose start is in order. */
    method TakeFrame(opcode: nat, masked: bool, len7: nat, ghost f: Frame, ghost rest: seq<Frame>) returns (err: Error)
      requires ValidWrite() && AllFit(rest) && Fits(f) && readMaskPos < 4
      requires opcode == f.opcode && masked == f.mask.Masked? && len7 == Length7(f.form, |f.payload|)
      requires IsControl(opcode) ==> |f.payload| <= MAX_CONTROL
      requires IsControl(opcode) || ((IsData(opcode) || opcode == CONTINUATION) && readFinal == f.fin)
      requires input + missing ==
        LengthMore(f.form, |f.payload|) + (KeyBytes(f.mask) + (Apply(f.mask, 0, f.payload) + EncodeAll(rest)))
      modifies this`input, this`readRemaining, this`readMaskPos, this`readMaskKey, this`readLength,
               this`handled, this`cur, this`ahead, this`closeSent, this`wire, this`sent
      ensures ValidWrite() && Message() == old(Message())
      ensures err == Ok ==> Pongs(old(sent), sent) && closeSent == old(closeSent)
      ensures err == LaterVerdict(f, |old(input)|, old(readLength))
      ensures err == Ok ==> Took(f, rest, readFinal, old(readLength), old(handled))
      ensures err == Ok ==> |input| == |old(input)| - (FrameBytes(f) - 2)
      ensures Reacted(old(sent), old(closeSent), f, err)
    {
      hide Encode, Apply, Length7, LengthMore, KeyBytes, ValidWrite, Message, EncodeAll, AllFit, CloseResult, Took, Answered, Pongs;
      ghost var body := Apply(f.mask, 0, f.payload);
      // 3. Read and parse frame length.
      readRemaining, err := ReadLength(len7, f.form, |f.payload|, KeyBytes(f.mask) + (body + EncodeAll(rest)));
      if err != Ok {
        return;
      }
      // 4. Handle frame masking.
      if masked != isServer {
        err := HandleProtocolError();
        return err;
      }
      err := ReadKey(masked, f.mask, f.payload, body + EncodeAll(rest));
      if err != Ok {
        return;
      }
      if opcode == CONTINUATION || opcode == TEXT || opcode == BINARY {
        // 5. For text and binary messages, enforce read limit and return.
        err := BeginData(f, rest);
      } else {
        // 6. and 7. Read and process control frame payload.
        err := TakeControl(opcode, f, rest);
      }
    }

    /** Skips what remains of the current frame and reads the next one: a control frame entirely,
        only the header of a data frame. */
    method AdvanceFrame() returns (frameType: int, err: Error)
      requires ValidWrite() && Synced()
      modifies this`input, this`readRemaining, this`readFinal, this`readMaskPos, this`readMaskKey, this`readLength,
               this`handled, this`cur, this`ahead, this`closeSent, this`wire, this`sent
      ensures ValidWrite() && Message() == old(Message())
      ensures err == Ok ==> Pongs(old(sent), sent) && closeSent == old(closeSent)
      ensures old(|input| < |cur|) ==> err == EOF && sent == old(sent)
      ensures old(|input| >= |cur| && ahead == []) ==> err == ErrUnexpectedEOF && sent == old(sent)
      ensures old(|input| >= |cur| && ahead != []) ==> var f := old(ahead)[0];
        && err == Verdict(old(Standing()), f, old(|input| - |cur|), old(readLength))
        && Reacted(old(sent), old(closeSent), f, err)
        && (err == Ok ==> frameType == f.opcode && Took(f, old(ahead)[1..], old(readFinal), old(readLength), old(handled)))
        && (err == Ok ==> |input| == old(|input| - |cur|) - FrameBytes(f))
    {
      hide Encode, Apply, Length7, LengthMore, KeyBytes, ValidWrite, Message, EncodeAll, Step, CloseResult, Answered,
           LaterVerdict, FrameBytes, Took, Pongs;
      // 1. Skip remainder of previous frame.
      var e := SkipFrame();
      if e != Ok {
        return NO_FRAME, e;
      }
      // 2. Read and parse first two bytes of frame header.
      var fin, rsv, opcode, masked, len7;
      fin, rsv, opcode, masked, len7, e := ReadStart(ahead);
      if e != Ok {
        return NO_FRAME, e;
      }
      ghost var f := ahead[0];
      var ok := CheckStart(fin, rsv, opcode, len7, f);
      if !ok {
        err := HandleProtocolError();
        return NO_FRAME, err;
      }
      ghost var rest := ahead[1..];
      err := TakeFrame(opcode, masked, len7, f, rest);
      if err == Ok {
        TookAnyway(f, rest, readFinal, old(readFinal), old(readLength), old(handled));
      }
      frameType := if err == Ok then opcode else NO_FRAME;
    }

    /** For a data frame it does not matter what the final bit was before. */
    lemma TookAnyway(f: Frame, rest: seq<Frame>, a: bool, b: bool, length: nat, before: seq<(int, seq<byte>)>)
      requires Took(f, rest, a, length, before) && (IsControl(f.opcode) ==> a == b)
      ensures Took(f, rest, b, length, before)
    {
    }

    method SkipFrame() returns (err: Error)
      requires Synced()
      modifies this`input
      ensures err == if |old(input)| < |cur| then EOF else Ok
      ensures err == Ok ==> input + missing == EncodeAll(ahead) && |input| == |old(input)| - |cur|
    {
      hide Apply, EncodeAll;
      err := Ok;
      if readRemaining > 0 {
        var skipped;
        skipped, err := Expect(readRemaining, Apply(CurrentMask(), readMaskPos, cur), EncodeAll(ahead));
        // Copying to nowhere reports the end of the input as such.
        if err != Ok {
          err := EOF;
        }
      } else {
        assert Apply(CurrentMask(), readMaskPos, cur) == [];
        assert [] + EncodeAll(ahead) == EncodeAll(ahead);
      }
    }

    // --- Message readers --------------------------------------------------------------------

    ghost predicate ValidRead()
      reads this`input, this`missing, this`cur, this`ahead, this`readRemaining, this`readMaskPos, this`readMaskKey, this`readErr
    {
      readErr == Ok ==> Synced()
    }

    /** What the input still gives of the open message. */
    ghost function Given_(): Given
      reads this`input, this`cur, this`ahead, this`readFinal
      requires AllFit(ahead)
    {
      Avail(|input|, cur, readFinal, ahead)
    }

    /** The stream will finish the message that is open, within the read limit. */
    ghost predicate Readable()
      reads this`ahead, this`readFinal, this`readLength, this`readLimit, this`readErr
    {
      readErr == Ok && (readFinal || (Completes(isServer, ahead) && !OverLimit(readLength + |Rest(ahead)|)))
    }

    /** The bytes of the open message that are still to be read, and the frames behind it. */
    ghost function Pending(): seq<byte>
      reads this`cur, this`ahead, this`readFinal
    {
      cur + if readFinal then [] else Rest(ahead)
    }

    ghost function Behind(): seq<Frame>
      reads this`ahead, this`readFinal
    {
      if readFinal then ahead else After(ahead)
    }

    /** A next message is coming, within the read limit. */
    ghost predicate Coming()
      reads this`ahead, this`readFinal, this`readLength, this`readLimit, this`readErr
    {
      readErr == Ok && Starts(isServer, Standing(), ahead) && !OverLimit(readLength + Lead(ahead))
    }

    /** The first frame of the next message of `fs` is the current one. */
    ghost predicate Reached(fs: seq<Frame>)
      reads this`cur, this`ahead, this`readFinal
    {
      && NextMessage(fs) != [] && cur == NextMessage(fs)[0].payload && readFinal == NextMessage(fs)[0].fin
      && ahead == NextMessage(fs)[1..]
    }

    /** How many bytes the input holds behind what is read to get at the next message; negative when
        it ends before. */
    ghost function Spare(): int
      reads this`input, this`cur, this`ahead
      requires AllFit(ahead)
    {
      |input| - |cur| - ToNext(ahead)
    }

    /** Goes on to the next frame while looking for the next message. */
    method SeekFrame() returns (frameType: int)
      requires ValidWrite() && ValidRead() && readErr == Ok
      modifies this`input, this`readRemaining, this`readFinal, this`readMaskPos, this`readMaskKey, this`readLength,
               this`handled, this`cur, this`ahead, this`readErr, this`closeSent, this`wire, this`sent
      ensures ValidWrite() && Message() == old(Message()) && ValidRead()
      ensures readErr == Ok ==> Pongs(old(sent), sent) && closeSent == old(closeSent)
      ensures if readErr == Ok then |ahead| < |old(ahead)| && AllFit(ahead) else frameType == NO_FRAME
      ensures old(Coming() && Spare() >= 0) ==> readErr == Ok
      ensures old(Coming()) && readErr == Ok && IsData(frameType) ==>
        && |input| == old(Spare()) && Reached(old(ahead))
        && frameType == NextMessage(old(ahead))[0].opcode && readLength == old(readLength + Lead(ahead))
      ensures old(Coming()) && readErr == Ok && !IsData(frameType) ==>
        && Coming() && Spare() == old(Spare())
        && NextMessage(ahead) == NextMessage(old(ahead)) && readLength + Lead(ahead) == old(readLength + Lead(ahead))
    {
      hide ValidWrite, Message, LengthMore, KeyBytes, Apply, EncodeAll, Pongs;
      var e;
      frameType, e := AdvanceFrame();
      if e != Ok {
        readErr := e;
        frameType := NO_FRAME;
      }
    }

    /** If nothing is missing the next frame is there. */
    lemma NothingMissing()
      requires Synced()
      ensures missing == [] ==> |input| == |cur| + |EncodeAll(ahead)|
      ensures missing == [] && ahead != [] ==> |input| >= |cur| + FrameBytes(ahead[0]) >= |cur| + 2
    {
    }

    lemma SpareIfWhole()
      requires Synced()
      ensures AllFit(ahead) && (missing == [] ==> Spare() >= 0)
    {
      NothingMissing();
      ToNextWithin(ahead);
    }

    /** Waits for the next message, discarding what remains of the current one. */
    method NextReader() returns (messageType: int, seq_: nat, err: Error)
      requires ValidWrite() && ValidRead()
      modifies this`input, this`readRemaining, this`readFinal, this`readMaskPos, this`readMaskKey, this`readLength,
               this`handled, this`cur, this`ahead, this`readSeq, this`readErr, this`closeSent, this`wire, this`sent
      ensures ValidWrite() && Message() == old(Message()) && ValidRead() && seq_ == readSeq == old(readSeq) + 1
      ensures readErr == Ok ==> Pongs(old(sent), sent) && closeSent == old(closeSent)
      ensures err == readErr && (err != Ok ==> messageType == NO_FRAME)
      ensures old(readErr == Ok && Starts(isServer, Standing(), ahead) && !OverLimit(Lead(ahead))) ==>
                && (err == Ok <==> old(Spare()) >= 0)
                && (missing == [] ==> err == Ok)
                && (err == Ok ==> && |input| == old(Spare()) && Reached(old(ahead)) && messageType == NextMessage(old(ahead))[0].opcode
                                  && readLength == Lead(old(ahead)))
    {
      hide ValidWrite, Message, Synced, Starts, NextMessage, Lead, ToNext, Pongs, AllFit;
      if readErr == Ok { SpareIfWhole(); }
      PongsNone(sent);
      readSeq := readSeq + 1;
      readLength := 0;
      ghost var good := Coming();
      while readErr == Ok
        invariant ValidWrite() && Message() == old(Message()) && ValidRead() && readSeq == old(readSeq) + 1
        invariant readErr == Ok ==> Pongs(old(sent), sent) && closeSent == old(closeSent)
        invariant good && old(Spare()) >= 0 ==> readErr == Ok
        invariant good && readErr == Ok ==>
          && Coming() && AllFit(ahead) && Spare() == old(Spare())
          && NextMessage(ahead) == NextMessage(old(ahead)) && readLength + Lead(ahead) == Lead(old(ahead))
        decreases readErr == Ok, |ahead|
      {
        ghost var sent0 := sent;
        var frameType := SeekFrame();
        if readErr == Ok { PongsTwice(old(sent), sent0, sent); }
        if frameType == TEXT || frameType == BINARY {
          return frameType, readSeq, Ok;
        }
      }
      return NO_FRAME, readSeq, readErr;
    }

    /** Reads into `b` from the message with number `w`. For an open message that its stream will
        finish: the next bytes that the input gives of it; EOF at its end, but also where the input
        ends within the payload of a frame; another error where it ends elsewhere. */
    method Read(w: nat, b: array<byte>) returns (n: nat, err: Error)
      requires ValidWrite() && ValidRead() && b != writeBuf
      modifies this`input, this`readRemaining, this`readFinal, this`readMaskPos, this`readMaskKey, this`readLength,
               this`handled, this`cur, this`ahead, this`readSeq, this`readErr, this`closeSent, this`wire, this`sent, b
      ensures ValidWrite() && Message() == old(Message()) && ValidRead() && n <= b.Length
      ensures readErr == Ok ==> Pongs(old(sent), sent) && closeSent == old(closeSent)
      ensures err == Ok && b.Length > 0 ==> |ahead| < |old(ahead)| || (ahead == old(ahead) && |cur| < |old(cur)|)
      ensures old(readErr) != Ok ==> readErr != Ok
      ensures w != old(readSeq) ==> n == 0 && err == EOF && readSeq == old(readSeq)
      ensures w == old(readSeq) && old(Readable()) && b.Length > 0 ==>
                if old(Given_()).data != [] then
                  && err == Ok && n > 0 && Readable() && readSeq == w
                  && AllFit(ahead) && old(Given_()) == Prepend(b[..n], Given_()) && Behind() == old(Behind())
                else match old(Given_()).end
                  case AtEnd => err == EOF && n == 0 && readErr == Ok && readFinal && readSeq == w + 1 && Behind() == old(Behind())
                  case InPayload => err == EOF && n == 0 && readErr == EOF
                  case Elsewhere => err == ErrUnexpectedEOF && n == 0 && readErr != Ok
    {
      hide ValidWrite, Message, Apply, EncodeAll, Avail, Completes, Rest, After, Pongs, OverLimit, AllFit, Given_;
      PongsNone(sent);
      if w != readSeq {
        return 0, EOF;
      }
      ghost var good := Readable();
      while readErr == Ok
        invariant ValidWrite() && Message() == old(Message()) && ValidRead() && readSeq == w
        invariant readErr == Ok ==> Pongs(old(sent), sent) && closeSent == old(closeSent)
        invariant readErr == Ok ==> |ahead| < |old(ahead)| || (ahead == old(ahead) && cur == old(cur))
        invariant good && readErr == Ok ==> Readable() && AllFit(ahead) && Given_() == old(Given_()) && Behind() == old(Behind())
        invariant good && readErr != Ok ==> readErr == ErrUnexpectedEOF && old(Given_()) == Given([], Elsewhere)
        decreases readErr == Ok, |ahead|
      {
        if readRemaining > 0 {
          n, err := ReadHere(b);
          return n, err;
        }
        GivenHere();
        if readFinal {
          readSeq := readSeq + 1;
          return 0, EOF;
        }
        ghost var sent0 := sent;
        NextFrame();
        if readErr == Ok { PongsTwice(old(sent), sent0, sent); }
      }
      return 0, if readErr == EOF && w == readSeq then ErrUnexpectedEOF else readErr;
    }

    /** Reads from the current frame, of which there is something left. */
    method ReadHere(b: array<byte>) returns (n: nat, err: Error)
      requires Synced() && readRemaining > 0 && b != writeBuf && readErr == Ok
      modifies this`input, this`readRemaining, this`readMaskPos, this`cur, this`readErr, b
      ensures n <= b.Length && err == readErr && ValidRead()
      ensures err == Ok ==> AllFit(ahead) && old(Given_()) == Prepend(b[..n], Given_()) && (b.Length > 0 ==> n > 0 && |cur| < |old(cur)|)
      ensures b.Length > 0 ==> if old(Given_()).data != [] then err == Ok else err == EOF && n == 0 && old(Given_()).end == InPayload
    {
      hide Apply, EncodeAll, Avail, AllFit;
      GivenHere();
      ghost var k, was := |input|, cur;
      n, err := ReadPart(b);
      if err == Ok {
        assert was[..n] == b[..n] && was[n..] == cur;
        AvailStep(k, was, readFinal, ahead, n);
      }
    }

    /** What the input gives of the current frame. */
    lemma GivenHere()
      requires AllFit(ahead)
      ensures cur != [] && input == [] ==> Given_() == Given([], InPayload)
      ensures cur != [] && input != [] ==> Given_().data != []
      ensures cur == [] && readFinal ==> Given_() == Given([], AtEnd)
    {
    }

    /** Goes on to the next frame while a message is open. */
    method NextFrame()
      requires ValidWrite() && ValidRead() && readErr == Ok && !readFinal && readRemaining == 0
      modifies this`input, this`readRemaining, this`readFinal, this`readMaskPos, this`readMaskKey, this`readLength,
               this`handled, this`cur, this`ahead, this`readErr, this`closeSent, this`wire, this`sent
      ensures ValidWrite() && Message() == old(Message()) && ValidRead()
      ensures readErr == Ok ==> Pongs(old(sent), sent) && closeSent == old(closeSent)
      ensures old(Readable()) && readErr == Ok ==>
        Readable() && AllFit(ahead) && Given_() == old(Given_()) && Behind() == old(Behind())
      ensures old(Readable()) && readErr != Ok ==> readErr == ErrUnexpectedEOF && old(Given_()) == Given([], Elsewhere)
      ensures readErr != ErrInternal && (readErr == Ok ==> |ahead| < |old(ahead)|)
    {
      hide ValidWrite, Message, AllFit, EncodeAll, Apply;
      var frameType, e := AdvanceFrame();
      if e != Ok {
        readErr := e;
      } else if frameType == TEXT || frameType == BINARY {
        assert false;
      }
    }

    /** Reads part of the current frame into `b`, unmasking it there. */
    method ReadPart(b: array<byte>) returns (n: nat, err: Error)
      requires Synced() && readRemaining > 0 && b != writeBuf && readErr == Ok
      modifies this`input, this`readRemaining, this`readMaskPos, this`cur, this`readErr, b
      ensures err == readErr == if b.Length > 0 && old(input) == [] then EOF else Ok
      ensures n <= b.Length && (err == Ok ==> Synced() && (n > 0 || b.Length == 0)) && (err != Ok ==> n == 0)
      ensures err == Ok ==> old(cur) == b[..n] + cur && |input| == |old(input)| - n
    {
      hide Apply, EncodeAll;
      var s, eof := Take(if b.Length > readRemaining then readRemaining else b.Length);
      readErr := if eof then EOF else Ok;
      n := |s|;
      CopyInto(b, 0, s);
      ApplyTwice(CurrentMask(), readMaskPos, cur[..n]);
      UnmaskedAnywhere(CurrentMask(), readMaskPos, (readMaskPos + n) % 4, cur[n..]);
      Unmask(b, n);
      readRemaining := readRemaining - n;
      cur := cur[n..];
      return n, readErr;
    }

    /** Reads some bytes of the current frame as they are on the wire. */
    method Take(max: nat) returns (s: seq<byte>, eof: bool)
      requires Synced() && 0 < readRemaining && max <= readRemaining
      modifies this`input
      ensures eof == (max > 0 && old(input) == []) && (eof ==> s == []) && |input| == |old(input)| - |s|
      ensures |s| <= max && (|s| > 0 || max == 0 || eof) && s == Apply(CurrentMask(), readMaskPos, cur[..|s|])
      ensures input + missing == Apply(CurrentMask(), (readMaskPos + |s|) % 4, cur[|s|..]) + EncodeAll(ahead)
    {
      hide Apply, EncodeAll;
      ghost var here := Apply(CurrentMask(), readMaskPos, cur);
      s, eof := NetRead(max);
      ghost var n, stream := |s|, s + input + missing;
      assert stream == here + EncodeAll(ahead);
      assert s == stream[..n] == here[..n] && input + missing == stream[n..] == here[n..] + EncodeAll(ahead);
      assert cur == cur[..n] + cur[n..];
      ApplyPieces(CurrentMask(), readMaskPos, cur[..n], cur[n..]);
    }

    /** Unmasks the first `n` bytes of `b` where they lie, if frames come masked. */
    method Unmask(b: array<byte>, n: nat)
      requires n <= b.Length && readMaskPos < 4
      modifies b, this`readMaskPos
      ensures b[..n] == Apply(CurrentMask(), old(readMaskPos), old(b[..n])) && readMaskPos < 4
      ensures readMaskPos == if isServer then (old(readMaskPos) + n) % 4 else old(readMaskPos)
    {
      assert b[0..n] == b[..n];
      if isServer {
        readMaskPos := MaskInPlace(readMaskKey, readMaskPos, b, 0, n);
        assert b[0..n] == b[..n];
      }
    }

    /** One read of any size. */
    method ReadSome(w: nat) returns (s: seq<byte>, err: Error)
      requires ValidWrite() && ValidRead()
      modifies this`input, this`readRemaining, this`readFinal, this`readMaskPos, this`readMaskKey, this`readLength,
               this`handled, this`cur, this`ahead, this`readSeq, this`readErr, this`closeSent, this`wire, this`sent
      ensures ValidWrite() && Message() == old(Message()) && ValidRead()
      ensures readErr == Ok ==> old(readErr) == Ok && Pongs(old(sent), sent) && closeSent == old(closeSent)
      ensures err == Ok ==> |ahead| < |old(ahead)| || (ahead == old(ahead) && |cur| < |old(cur)|)
      ensures w == old(readSeq) && old(Readable()) ==>
                if old(Given_()).data != [] then
                  err == Ok && Readable() && readSeq == w && AllFit(ahead) && old(Given_()) == Prepend(s, Given_()) && Behind() == old(Behind())
                else match old(Given_()).end
                  case AtEnd => err == EOF && s == [] && readErr == Ok && readFinal && Behind() == old(Behind())
                  case InPayload => err == EOF && s == []
                  case Elsewhere => err == ErrUnexpectedEOF && s == []
    {
      hide ValidWrite, Message, Given_, Readable, Behind, Pongs, AllFit, ValidRead;
      var size: nat :| size > 0;
      var b := new byte[size];
      var n;
      n, err := Read(w, b);
      s := b[..n];
    }

    lemma GivenPrefix()
      requires ValidRead() && Readable()
      ensures AllFit(ahead)
      ensures var g := Given_(); g.data <= Pending() && (g.end == AtEnd ==> g.data == Pending()) && (g.end == InPayload ==> |g.data| < |Pending()|)
    {
      AvailPrefix(isServer, |input|, cur, readFinal, ahead);
    }

    /** Reads the message with number `w` until EOF, with reads of any size. What comes of it depends
        on where the input ends: only a cut outside the payloads is noticed. */
    method ReadAll(w: nat) returns (p: seq<byte>, err: Error)
      requires ValidWrite() && ValidRead()
      modifies this`input, this`readRemaining, this`readFinal, this`readMaskPos, this`readMaskKey, this`readLength,
               this`handled, this`cur, this`ahead, this`readSeq, this`readErr, this`closeSent, this`wire, this`sent
      ensures ValidWrite() && Message() == old(Message()) && ValidRead()
      ensures readErr == Ok ==> Pongs(old(sent), sent) && closeSent == old(closeSent)
      ensures old(Readable() && readSeq == w) ==>
        && p == old(Given_()).data && err == (if old(Given_()).end == Elsewhere then ErrUnexpectedEOF else Ok)
        && (old(Given_()).end == AtEnd ==> p == old(Pending()) && readErr == Ok && readFinal && ahead == old(Behind()))
        && (old(Given_()).end == InPayload ==> p < old(Pending()) && err == Ok)
    {
      hide ValidWrite, Message, Synced, Given_, Pending, Readable, Pongs, AllFit, After, ValidRead;
      p, err := [], Ok;
      ghost var good := Readable() && readSeq == w;
      if good { GivenPrefix(); }
      PongsNone(sent);
      while err == Ok
        invariant ValidWrite() && Message() == old(Message()) && ValidRead()
        invariant readErr == Ok ==> Pongs(old(sent), sent) && closeSent == old(closeSent)
        invariant good && err == Ok ==> Readable() && readSeq == w && AllFit(ahead) && Behind() == old(Behind())
        invariant good && err == Ok ==> old(Given_()) == Prepend(p, Given_())
        invariant good && err != Ok ==> p == old(Given_()).data && err == if old(Given_()).end == Elsewhere then ErrUnexpectedEOF else EOF
        invariant good && err != Ok && old(Given_()).end == AtEnd ==> readErr == Ok && readFinal && ahead == old(Behind())
        decreases err == Ok, |ahead|, |cur|
      {
        ghost var sent0 := sent;
        var s;
        s, err := ReadSome(w);
        if readErr == Ok { PongsTwice(old(sent), sent0, sent); }
        if good && err == Ok {
          assert p + (s + Given_().data) == p + s + Given_().data;
        }
        p := p + s;
      }
      if err == EOF {
        err := Ok;
      }
    }

    /** Reads the next message, which its stream will finish: all of it, if all of it is there. If the
        input ends within the payload of a frame, what there is of the message is returned without an
        error; if it ends elsewhere, an error is. */
    method ReadMessage() returns (messageType: int, p: seq<byte>, err: Error)
      requires ValidWrite() && ValidRead()
      modifies this`input, this`readRemaining, this`readFinal, this`readMaskPos, this`readMaskKey, this`readLength,
               this`handled, this`cur, this`ahead, this`readSeq, this`readErr, this`closeSent, this`wire, this`sent
      ensures ValidWrite() && Message() == old(Message()) && ValidRead()
      ensures readErr == Ok ==> Pongs(old(sent), sent) && closeSent == old(closeSent)
      ensures old(readErr == Ok && Starts(isServer, Standing(), ahead)) && Whole(old(ahead)) && missing == [] ==>
                && err == Ok && readErr == Ok && messageType == NextMessage(old(ahead))[0].opcode
                && p == Content(NextMessage(old(ahead)))
                && readFinal && ahead == Remainder(NextMessage(old(ahead)))
      ensures old(readErr == Ok && Starts(isServer, Standing(), ahead)) && Whole(old(ahead)) ==>
                if old(Spare()) < 0 then err != Ok && p == [] && messageType == NO_FRAME
                else
                  && messageType == NextMessage(old(ahead))[0].opcode
                  && p == old(Offered(Spare())).data
                  && err == if old(Offered(Spare())).end == Elsewhere then ErrUnexpectedEOF else Ok
    {
      hide ValidWrite, Message, Starts, NextMessage, Completes, Rest, After, Lead, Avail, Apply, ToNext, Pongs, EncodeAll;
      p := [];
      var w;
      if readErr == Ok && NextMessage(ahead) != [] { NextFits(ahead); }
      messageType, w, err := NextReader();
      if err != Ok {
        return;
      }
      ghost var sent0 := sent;
      if missing == [] {
        NothingMissing();
        if Readable() { AvailWhole(isServer, |input|, cur, readFinal, ahead); }
      }
      p, err := ReadAll(w);
      if readErr == Ok { PongsTwice(old(sent), sent0, sent); }
    }

    /** What `k` bytes of input behind the header of its first frame give of the next message. */
    ghost function Offered(k: nat): Given
      reads this`ahead
      requires AllFit(ahead) && NextMessage(ahead) != []
    {
      NextFits(ahead);
      var m := NextMessage(ahead);
      Avail(k, m[0].payload, m[0].fin, m[1..])
    }

    /** The next message of `fs` is complete and within the read limit. */
    ghost predicate Whole(fs: seq<Frame>)
      reads this`readLimit
    {
      var m := NextMessage(fs);
      && m != [] && (m[0].fin || Completes(isServer, m[1..]))
      && !OverLimit(Lead(fs) + if m[0].fin then 0 else |Rest(m[1..])|)
    }
  }

  /** Nothing but pongs was sent behind `before`. */
  ghost predicate Pongs(before: seq<Frame>, after: seq<Frame>) {
    before <= after && forall i :: |before| <= i < |after| ==> IsPong(after[i])
  }

  lemma PongsNone(sent: seq<Frame>)
    ensures Pongs(sent, sent)
  {
  }

  lemma PongsTwice(a: seq<Frame>, b: seq<Frame>, c: seq<Frame>)
    requires Pongs(a, b) && Pongs(b, c)
    ensures Pongs(a, c)
  {
  }

  predicate IsPong(f: Frame) {
    f == Built(true, PONG, f.payload, f.mask) && |f.payload| <= MAX_CONTROL
  }

  /** How the message whose first frame is `sent[start]` is getting on: `frameType` is the type of
      the frame being filled, continuation once the first one is sent. */
  ghost predicate Progress(sent: seq<Frame>, start: nat, frameType: int, messageType: int)
    requires start <= |sent|
  {
    && ScanFrom(Between, sent[start..]) == ScanFrom(Between, sent)
    && (if frameType == CONTINUATION then
          ScanFrom(Between, sent) == Inside && IsData(messageType) && Types(sent[start..]) == [messageType]
        else
          ScanFrom(Between, sent) == Between)
    && (frameType != CONTINUATION && frameType != NO_FRAME ==>
          frameType == messageType && Types(sent[start..]) == [] && Payload(sent[start..]) == [])
  }

  ghost predicate IsDelivered(sent: seq<Frame>, start: nat, t: int, data: seq<byte>)
    requires start <= |sent|
  {
    if IsControl(t) then
      |sent| > 0 && sent[|sent| - 1] == Built(true, t, data, sent[|sent| - 1].mask)
    else
      && t >= 0 && ScanFrom(Between, sent[start..]) == Between
      && Types(sent[start..]) == [t] && Payload(sent[start..]) == data
  }

  /** A control frame in between changes nothing for the message that is being written. */
  lemma ControlBetween(sent: seq<Frame>, start: nat, frameType: int, messageType: int, f: Frame)
    requires start <= |sent| && Advanced(sent, start, f)
    requires IsControl(f.opcode) && f.fin && f.rsv == 0 && |f.payload| <= MAX_CONTROL && f.form == ShortestForm(|f.payload|)
    ensures Types((sent + [f])[start..]) == Types(sent[start..])
    ensures Payload((sent + [f])[start..]) == Payload(sent[start..])
    ensures Progress(sent, start, frameType, messageType) && f.opcode != CLOSE ==>
      Progress(sent + [f], start, frameType, messageType)
    ensures ScanFrom(Between, sent) != Broken && ScanFrom(Between, sent) != Closed ==>
      ScanFrom(Between, sent + [f]) == if f.opcode == CLOSE then Closed else ScanFrom(Between, sent)
  {
    hide ScanFrom, Types, Payload;
  }

  /** Behind a finished message a new one can start. */
  lemma StartMessage(sent: seq<Frame>, start: nat, messageType: int, newType: int)
    requires start <= |sent| && (IsControl(newType) || IsData(newType))
    ensures Progress(sent, start, NO_FRAME, messageType) ==> Progress(sent, |sent|, newType, newType)
    ensures Payload(sent[|sent|..]) == []
  {
    assert sent[|sent|..] == [];
  }

  lemma AbandonControl(sent: seq<Frame>, start: nat, frameType: int, messageType: int)
    requires start <= |sent| && IsControl(frameType)
    ensures Progress(sent, start, frameType, messageType) ==> Progress(sent, start, NO_FRAME, messageType)
  {
  }

  /** Sending the frame that was being filled moves its message on, or finishes it. */
  lemma FlushedMessage(sent: seq<Frame>, start: nat, frameType: int, messageType: int, f: Frame)
    requires start <= |sent| && Progress(sent, start, frameType, messageType) && Advanced(sent, start, f)
    requires f.opcode == frameType && f.rsv == 0 && (IsControl(frameType) || IsData(frameType) || frameType == CONTINUATION)
    requires IsControl(frameType) ==> f.fin && |f.payload| <= MAX_CONTROL
    requires f.form == ShortestForm(|f.payload|)
    ensures frameType != CLOSE ==> Progress(sent + [f], start, if f.fin then NO_FRAME else CONTINUATION, messageType)
    ensures !IsControl(frameType) ==> Payload((sent + [f])[start..]) == Payload(sent[start..]) + f.payload
    ensures f.fin ==> IsDelivered(sent + [f], start, messageType, Payload(sent[start..]) + f.payload)
  {
    hide ScanFrom, Types, Payload;
  }

  /** What one more frame does to everything that is said about the frames. */
  ghost predicate Advanced(sent: seq<Frame>, start: nat, f: Frame)
    requires start <= |sent|
  {
    && ScanFrom(Between, sent + [f]) == Step(ScanFrom(Between, sent), f)
    && ScanFrom(Between, (sent + [f])[start..]) == Step(ScanFrom(Between, sent[start..]), f)
    && Types((sent + [f])[start..]) == Types(sent[start..]) + (if IsData(f.opcode) then [f.opcode] else [])
    && Payload((sent + [f])[start..]) == Payload(sent[start..]) + (if IsControl(f.opcode) then [] else f.payload)
  }

  lemma SentOneMore(sent: seq<Frame>, start: nat, f: Frame)
    requires start <= |sent|
    ensures Advanced(sent, start, f)
  {
    hide ScanFrom, Step, Types, Payload;
    var message := sent[start..];
    ScanAppend(Between, sent, f);
    ScanAppend(Between, message, f);
    TypesAppend(message, f);
    PayloadAppend(message, f);
    assert (sent + [f])[start..] == message + [f];
  }

  /** The error a close frame ends reading with. */
  function CloseResult(payload: seq<byte>): (err: Error)
    ensures err.EOF? || err.CloseError?
  {
    var code := if |payload| >= 2 then FromBigEndian(payload[..2]) else CLOSE_NO_STATUS;
    if code == CLOSE_NORMAL || code == CLOSE_GOING_AWAY then EOF
    else CloseError(code, if |payload| >= 2 then payload[2..] else [])
  }

  /** What a writer of close frames puts in: a code and a text. */
  function FormatCloseMessage(code: nat, text: seq<byte>): seq<byte> {
    BigEndian(code, 2) + text
  }

  /** A close frame is read as it was written: 1000 and 1001 are an ordinary end, all other codes come
      back with their text, and a frame without a code, or with half of one, counts as 1005. */
  lemma CloseBack(code: nat, text: seq<byte>, payload: seq<byte>)
    requires code < 65536
    ensures CloseResult(FormatCloseMessage(code, text)) == if code == 1000 || code == 1001 then EOF else CloseError(code, text)
    ensures |payload| < 2 ==> CloseResult(payload) == CloseError(1005, [])
  {
    assert FormatCloseMessage(code, text)[..2] == BigEndian(code, 2) && FormatCloseMessage(code, text)[2..] == text;
    Below16(code);
    BigEndianBack(code, 2);
  }

  /** The close frames that answer violations and too large messages, as bytes. */
  lemma CloseCodes()
    ensures BigEndian(CLOSE_PROTOCOL_ERROR, 2) == [0x03, 0xEA] && BigEndian(CLOSE_TOO_BIG, 2) == [0x03, 0xF1]
  {
    assert BigEndian(3, 1) == [3];
  }

  lemma StartRead(input: seq<byte>, missing: seq<byte>, start: seq<byte>, tail: seq<byte>)
    requires |input| >= 2 == |start| && input + missing == start + tail
    ensures input[..2] == start && input[2..] + missing == tail
  {
    assert (input + missing)[..2] == input[..2] && (start + tail)[..2] == start;
    assert (input + missing)[2..] == input[2..] + missing && (start + tail)[2..] == tail;
  }

  lemma Below16(n: nat)
    requires n < 65536
    ensures n < Pow256(2)
  {
    assert Pow256(1) == 256 && Pow256(2) == 65536;
  }

  lemma Below64(n: nat)
    requires n <= MAX_INT
    ensures n < Pow256(8)
  {
    assert Pow256(2) == 65536 && Pow256(4) == 0x1_0000_0000 && Pow256(6) == 0x1_0000_0000_0000;
  }

  /** The bytes of the message that starts `m`, and the frames behind it. */
  ghost function Content(m: seq<Frame>): seq<byte> {
    if m == [] then [] else m[0].payload + if m[0].fin then [] else Rest(m[1..])
  }

  ghost function Remainder(m: seq<Frame>): seq<Frame> {
    if m == [] then [] else if m[0].fin then m[1..] else After(m[1..])
  }

  lemma UnmaskedAnywhere(mask: Mask, p: nat, q: nat, b: seq<byte>)
    ensures mask.Unmasked? ==> Apply(mask, p, b) == Apply(mask, q, b)
  {
  }

  lemma SplitBuffer(b: seq<byte>, i: nat, j: nat, k: nat, l: nat)
    requires i <= j <= k <= l <= |b|
    ensures b[i..l] == b[i..j] + b[j..k] + b[k..l]
  {
  }
}
