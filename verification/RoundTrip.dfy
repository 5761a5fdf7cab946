/** A WebSocket message written by one connection and read by its peer. */
module RoundTrip {
  import opened Bytes
  import opened Frames
  import opened Streams
  import opened WebSocket

  /** What the application does while a message is open. */
  datatype Action = Part(data: seq<byte>) | Ping(data: seq<byte>) | Pong(data: seq<byte>)

  function Data(actions: seq<Action>): seq<byte> {
    if actions == [] then []
    else (if actions[0].Part? then actions[0].data else []) + Data(actions[1..])
  }

  lemma NoData()
    ensures Data([]) == []
  {
  }

  lemma {:induction false} DataNext(actions: seq<Action>, i: nat)
    requires i < |actions|
    ensures Data(actions[..i + 1]) == Data(actions[..i]) + if actions[i].Part? then actions[i].data else []
  {
    if i > 0 {
      DataNext(actions[1..], i - 1);
      assert actions[..i + 1][1..] == actions[1..][..i] && actions[..i][1..] == actions[1..][..i - 1];
      var head := if actions[0].Part? then actions[0].data else [];
      var last := if actions[i].Part? then actions[i].data else [];
      assert head + (Data(actions[1..][..i - 1]) + last) == head + Data(actions[1..][..i - 1]) + last;
    } else {
      assert actions[..1][1..] == [] && actions[..0] == [] && Data(actions[..1][1..]) == [];
    }
  }

  /** A connection with no message open for writing. */
  ghost predicate CanSend(w: Conn)
    reads w`sent, w`wire, w`closeSent, w`writePos, w`writeFrameType, w`writeErr, w`start, w`messageType
  {
    w.ValidWrite() && w.writeErr == Ok && !w.closeSent && w.writeFrameType == NO_FRAME
  }

  /** A connection that has read every message that was sent to it: only control frames are left. */
  ghost predicate CaughtUp(r: Conn)
    reads r`input, r`missing, r`cur, r`ahead, r`readRemaining, r`readMaskPos, r`readMaskKey, r`readErr, r`readFinal
  {
    r.ValidRead() && r.readErr == Ok && r.missing == [] && r.readFinal && Quiet(r.isServer, r.ahead)
  }

  /** One action while message `id` is open. */
  method Act(w: Conn, id: nat, action: Action)
    requires w.ValidWrite() && w.WriterErr(id) == Ok && w.Clear() && w.writeFrameType != NO_FRAME
    requires w.writeBuf.Length + |action.data| <= MAX_INT
    modifies w`closeSent, w`wire, w`sent, w`writeErr, w`writePos, w`writeFrameType, w`writeSeq, w.writeBuf
    ensures w.ValidWrite() && w.WriterErr(id) == Ok && w.Clear() && w.writeFrameType != NO_FRAME && old(w.sent) <= w.sent
    ensures w.Message() == old(w.Message()) + if action.Part? then action.data else []
  {
    hide Conn.FramesOk, Conn.MessageOk, Types, Payload;
    var err;
    match action {
      case Part(data) =>
        var n;
        n, err := w.WriteBytes(id, false, data);
      case Ping(data) =>
        err := w.WriteControl(PING, data);
      case Pong(data) =>
        err := w.WriteControl(PONG, data);
    }
  }

  /** Writes a message in any number of parts, with pings and pongs between them. */
  method Send(w: Conn, t: nat, actions: seq<Action>)
    requires CanSend(w) && IsData(t)
    requires forall a :: a in actions ==> w.writeBuf.Length + |a.data| <= MAX_INT
    modifies w`closeSent, w`wire, w`sent, w`writeErr, w`writePos, w`writeFrameType, w`writeSeq, w`start, w`messageType, w.writeBuf
    ensures CanSend(w) && old(w.sent) <= w.sent && w.start == |old(w.sent)| && w.Delivered(t, Data(actions))
  {
    hide Conn.FramesOk, Conn.MessageOk, Conn.Delivered, Types, Payload, Data, IsDelivered, Conn.Message;
    var err, id := w.NextWriter(t);
    assert Data(actions[..0]) == [] by { NoData(); }
    for i := 0 to |actions|
      invariant w.ValidWrite() && w.WriterErr(id) == Ok && w.writeSeq == id && w.Clear() && w.writeFrameType != NO_FRAME
      invariant w.messageType == t && w.start == |old(w.sent)| && old(w.sent) <= w.sent
      invariant w.Message() == Data(actions[..i])
    {
      DataNext(actions, i);
      Act(w, id, actions[i]);
    }
    assert actions[..|actions|] == actions;
    err := w.CloseMessage(id);
  }

  lemma SplitFrames(sent: seq<Frame>, before: seq<Frame>)
    requires before <= sent && AllFit(sent)
    ensures AllFit(before) && AllFit(sent[|before|..])
    ensures EncodeAll(sent) == EncodeAll(before) + EncodeAll(sent[|before|..])
  {
    EncodeTwo(before, sent[|before|..]);
    assert before + sent[|before|..] == sent;
  }

  lemma FramesBehind(ahead: seq<Frame>, more: seq<Frame>, current: seq<byte>)
    requires AllFit(ahead) && AllFit(more)
    ensures AllFit(ahead + more)
    ensures current + EncodeAll(ahead) + EncodeAll(more) == current + EncodeAll(ahead + more)
  {
    EncodeTwo(ahead, more);
    assert current + EncodeAll(ahead) + EncodeAll(more) == current + (EncodeAll(ahead) + EncodeAll(more));
  }

  /** The network hands over everything from byte `from` on, that is, what follows the frames
      `before`. */
  method Deliver(w: Conn, r: Conn, from: nat, ghost before: seq<Frame>)
    requires w != r && w.FramesOk() && before <= w.sent && AllFit(before) && from == |EncodeAll(before)|
    requires r.Synced() && r.missing == []
    modifies r`input, r`ahead
    ensures r.Synced() && r.ahead == old(r.ahead) + w.sent[|before|..]
  {
    hide Apply, EncodeAll, AllFit;
    ghost var more := w.sent[|before|..];
    SplitFrames(w.sent, before);
    FramesBehind(r.ahead, more, Apply(r.CurrentMask(), r.readMaskPos, r.cur));
    assert w.wire[from..] == EncodeAll(more);
    assert r.input + r.missing == r.input && (r.input + w.wire[from..]) + r.missing == r.input + w.wire[from..];
    r.input := r.input + w.wire[from..];
    r.ahead := r.ahead + more;
  }

  lemma QuietTwice(server: bool, q: seq<Frame>, more: seq<Frame>, fs: seq<Frame>, t: nat, data: seq<byte>)
    requires Quiet(server, q) && Quiet(server, more) && Carries(server, fs, t, data)
    ensures Carries(server, q + (more + fs), t, data)
  {
    QuietFirst(server, more, fs, t, data);
    QuietFirst(server, q, more + fs, t, data);
  }

  /** The frames behind the first `from` bytes that `w` wrote are on their way to `r`; there is no
      data among them. */
  ghost predicate OnTheWay(w: Conn, r: Conn, from: nat, before: seq<Frame>)
    reads w`sent
  {
    before <= w.sent && AllFit(before) && from == |EncodeAll(before)| && Quiet(r.isServer, w.sent[|before|..])
  }

  /** Sends a message, and the network hands over all that was written. */
  method SendAcross(w: Conn, r: Conn, from: nat, ghost before: seq<Frame>, t: nat, actions: seq<Action>)
    requires w != r && w.writeBuf != r.writeBuf && w.isServer != r.isServer
    requires CanSend(w) && CaughtUp(r) && IsData(t) && OnTheWay(w, r, from, before)
    requires forall a :: a in actions ==> w.writeBuf.Length + |a.data| <= MAX_INT
    modifies w`closeSent, w`wire, w`sent, w`writeErr, w`writePos, w`writeFrameType, w`writeSeq, w`start, w`messageType, w.writeBuf
    modifies r`input, r`ahead
    ensures CanSend(w) && r.Synced() && Carries(r.isServer, r.ahead, t, Data(actions))
  {
    hide Conn.MessageOk, ScanFrom, Types, Payload, Data, EncodeAll, Apply;
    ghost var sent := w.sent;
    Send(w, t, actions);
    ghost var leftover, waiting, frames := r.ahead, sent[|before|..], w.sent[|sent|..];
    assert Carries(r.isServer, frames, t, Data(actions));
    Deliver(w, r, from, before);
    assert w.sent[|before|..] == waiting + frames;
    QuietTwice(r.isServer, leftover, waiting, frames, t, Data(actions));
  }

  /** The peer reads back exactly the type and the bytes of the message, and both sides are ready
      for the next one. What was written before the message and not handed over yet, control frames
      such as pongs behind the first `from` bytes, arrives in front of it. Meanwhile the peer sends
      nothing but pongs. */
  method SendAndReceive(w: Conn, r: Conn, from: nat, ghost before: seq<Frame>, t: nat, actions: seq<Action>)
      returns (messageType: int, p: seq<byte>, err: Error)
    requires w != r && w.writeBuf != r.writeBuf && w.isServer != r.isServer
    requires CanSend(w) && CaughtUp(r) && r.ValidWrite() && IsData(t) && OnTheWay(w, r, from, before)
    requires forall a :: a in actions ==> w.writeBuf.Length + |a.data| <= MAX_INT
    requires !r.OverLimit(|Data(actions)|)
    modifies w`closeSent, w`wire, w`sent, w`writeErr, w`writePos, w`writeFrameType, w`writeSeq, w`start, w`messageType, w.writeBuf
    modifies r`input, r`readRemaining, r`readFinal, r`readMaskPos, r`readMaskKey, r`readLength, r`handled, r`cur, r`ahead,
             r`readSeq, r`readErr, r`closeSent, r`wire, r`sent
    ensures err == Ok && messageType == t && p == Data(actions)
    ensures CanSend(w) && CaughtUp(r) && r.ValidWrite() && Pongs(old(r.sent), r.sent) && r.closeSent == old(r.closeSent)
  {
    hide Conn.MessageOk, ScanFrom, Types, Payload, Data, EncodeAll, Apply, Starts, NextMessage, Rest, After, Completes, Lead,
         Pongs, Carries, OnTheWay, Conn.ValidWrite, Conn.Synced;
    SendAcross(w, r, from, before, t, actions);
    WholeMessage(r.isServer, r.ahead, t, Data(actions));
    messageType, p, err := r.ReadMessage();
  }

  lemma {:induction false} PongsAreQuiet(server: bool, before: seq<Frame>, after: seq<Frame>)
    requires Pongs(before, after) && Masks(server, after)
    ensures before <= after && Quiet(server, after[|before|..])
    decreases |after| - |before|
  {
    var fs := after[|before|..];
    if fs != [] {
      assert IsPong(after[|before|]);
      PongsAreQuiet(server, after[..|before| + 1], after);
      assert fs[1..] == after[|before| + 1..];
    }
  }

  lemma QuietMore(server: bool, sent: seq<Frame>, from: nat, sent': seq<Frame>)
    requires from <= |sent| && Quiet(server, sent[from..]) && Pongs(sent, sent') && Masks(server, sent')
    ensures sent <= sent' && Quiet(server, sent'[from..])
  {
    PongsAreQuiet(server, sent, sent');
    var a, b := sent[from..], sent'[|sent|..];
    assert sent'[from..] == a + b;
    ScanTwo(Between, a, b);
    TypesTwo(a, b);
  }

  lemma NothingQuiet(server: bool, sent: seq<Frame>)
    ensures Quiet(server, sent[|sent|..])
  {
  }

  // --- Conversations ------------------------------------------------------------------------

  /** A connection that may send and has read everything. */
  ghost predicate Ready(c: Conn)
    reads c
  {
    CanSend(c) && CaughtUp(c)
  }

  /** A message that is sent by the first or the second side. */
  datatype Turn = Turn(first: bool, t: nat, actions: seq<Action>)

  datatype Message = Message(t: int, data: seq<byte>)

  ghost predicate Fitting(w: Conn, r: Conn, turn: Turn)
    reads r`readLimit
  {
    IsData(turn.t) && (forall x :: x in turn.actions ==> w.writeBuf.Length + |x.data| <= MAX_INT) && !r.OverLimit(|Data(turn.actions)|)
  }

  /** One message. What the reader of it has on the way to the writer is control frames still. */
  method TakeTurn(w: Conn, r: Conn, from: nat, ghost before: seq<Frame>, back: nat, ghost behind: seq<Frame>, turn: Turn)
      returns (m: Message)
    requires w != r && w.writeBuf != r.writeBuf && w.isServer != r.isServer && Fitting(w, r, turn)
    requires Ready(w) && Ready(r) && OnTheWay(w, r, from, before) && OnTheWay(r, w, back, behind)
    modifies w, w.writeBuf, r
    ensures m == Message(turn.t, Data(turn.actions)) && w.readLimit == old(w.readLimit) && r.readLimit == old(r.readLimit)
    ensures Ready(w) && Ready(r) && OnTheWay(w, r, |w.wire|, w.sent) && OnTheWay(r, w, back, behind)
  {
    hide Conn.MessageOk, ScanFrom, Types, Data, EncodeAll, Quiet, Pongs;
    ghost var sent := r.sent;
    var messageType, p, err := SendAndReceive(w, r, from, before, turn.t, turn.actions);
    QuietMore(w.isServer, sent, |behind|, r.sent);
    NothingQuiet(r.isServer, w.sent);
    return Message(messageType, p);
  }

  /** Any number of messages in both directions, in any order, each in any parts and with any pings
      and pongs between them: every one is read back as it was written. */
  method Converse(a: Conn, b: Conn, turns: seq<Turn>) returns (got: seq<Message>)
    requires a != b && a.writeBuf != b.writeBuf && a.isServer != b.isServer && Ready(a) && Ready(b)
    requires forall i :: 0 <= i < |turns| ==> if turns[i].first then Fitting(a, b, turns[i]) else Fitting(b, a, turns[i])
    modifies a, a.writeBuf, b, b.writeBuf
    ensures Ready(a) && Ready(b) && |got| == |turns|
    ensures forall i :: 0 <= i < |turns| ==> got[i] == Message(turns[i].t, Data(turns[i].actions))
  {
    hide Conn.MessageOk, ScanFrom, Types, Data, EncodeAll, Quiet, Ready;
    NothingQuiet(b.isServer, a.sent);
    NothingQuiet(a.isServer, b.sent);
    assert OnTheWay(a, b, |a.wire|, a.sent) && OnTheWay(b, a, |b.wire|, b.sent) by { ReadyFrames(a); ReadyFrames(b); }
    var fromA: nat, fromB: nat := |a.wire|, |b.wire|;
    ghost var beforeA, beforeB := a.sent, b.sent;
    got := [];
    for i := 0 to |turns|
      invariant Ready(a) && Ready(b) && a.readLimit == old(a.readLimit) && b.readLimit == old(b.readLimit)
      invariant OnTheWay(a, b, fromA, beforeA) && OnTheWay(b, a, fromB, beforeB)
      invariant |got| == i && forall j :: 0 <= j < i ==> got[j] == Message(turns[j].t, Data(turns[j].actions))
    {
      var m;
      if turns[i].first {
        m := TakeTurn(a, b, fromA, beforeA, fromB, beforeB, turns[i]);
        fromA, beforeA := |a.wire|, a.sent;
      } else {
        m := TakeTurn(b, a, fromB, beforeB, fromA, beforeA, turns[i]);
        fromB, beforeB := |b.wire|, b.sent;
      }
      got := got + [m];
    }
  }

  lemma ReadyFrames(c: Conn)
    requires Ready(c)
    ensures AllFit(c.sent) && |c.wire| == |EncodeAll(c.sent)|
  {
  }

  // --- A message that is cut off ------------------------------------------------------------

  /** A server sends a text of five bytes, and the network ends after two of them. */
  const HELLO := Built(true, TEXT, [104, 101, 108, 108, 111], Unmasked)

  method HalfHello() returns (r: Conn)
    ensures fresh(r) && fresh(r.writeBuf) && r.ValidWrite() && r.Synced() && r.readErr == Ok && r.readFinal && !r.isServer
    ensures r.input == [129, 5, 104, 101] && r.cur == [] && r.ahead == [HELLO] && r.readLimit == 0
  {
    hide Conn.ValidWrite, Conn.FramesOk, Encode;
    r := new Conn(false, 0);
    HelloAhead();
    assert EncodeAll([]) == [] && Apply(r.CurrentMask(), r.readMaskPos, r.cur) == [];
    hide EncodeAll, Apply;
    r.input := [129, 5, 104, 101];
    r.ahead, r.missing := [HELLO], [108, 108, 111];
    assert [] + EncodeAll([HELLO]) == EncodeAll([HELLO]);
    assert r.input + r.missing == [129, 5, 104, 101, 108, 108, 111];
  }

  /** The client takes the two bytes for the message: there is no error. */
  method ReadsTruncated() returns (messageType: int, p: seq<byte>, err: Error)
    ensures messageType == TEXT && p == [104, 101] && err == Ok
  {
    hide Conn.ValidWrite, Conn.FramesOk, Conn.Synced, EncodeAll, Apply, Avail, Starts, NextMessage, Lead, ToNext, AllFit;
    var r := HalfHello();
    HelloAhead();
    HelloOffered();
    messageType, p, err := r.ReadMessage();
  }

  lemma HelloAhead()
    ensures AllFit([HELLO]) && EncodeAll([HELLO]) == [129, 5, 104, 101, 108, 108, 111]
    ensures NextMessage([HELLO]) == [HELLO] && Lead([HELLO]) == 5 && Starts(false, Between, [HELLO])
  {
    assert [HELLO][1..] == [];
  }

  lemma HelloOffered()
    ensures AllFit([HELLO]) && ToNext([HELLO]) == 2 && [HELLO][1..] == []
    ensures Avail(2, HELLO.payload, true, []) == Given([104, 101], InPayload)
  {
    assert [HELLO][1..] == [];
  }

  // --- The text of the RFC ------------------------------------------------------------------

  /** The masked text "Hello" of section 5.7 of RFC 6455. */
  const GREETING := Built(true, TEXT, [72, 101, 108, 108, 111], Masked([0x37, 0xFA, 0x21, 0x3D]))

  lemma GreetingMasked()
    ensures Xor(72, 0x37) == 0x7F && Xor(101, 0xFA) == 0x9F && Xor(108, 0x21) == 0x4D
    ensures Xor(108, 0x3D) == 0x51 && Xor(111, 0x37) == 0x58
  {
  }

  lemma GreetingOnWire()
    ensures Fits(GREETING) && Encode(GREETING) == [0x81, 0x85, 0x37, 0xFA, 0x21, 0x3D, 0x7F, 0x9F, 0x4D, 0x51, 0x58]
  {
    hide Xor;
    GreetingMasked();
    assert Header(GREETING) == [0x81, 0x85, 0x37, 0xFA, 0x21, 0x3D];
    assert Apply(GREETING.mask, 0, GREETING.payload) == [0x7F, 0x9F, 0x4D, 0x51, 0x58];
  }

  lemma GreetingAhead()
    ensures AllFit([GREETING]) && EncodeAll([GREETING]) == Encode(GREETING)
    ensures NextMessage([GREETING]) == [GREETING] && Starts(true, Between, [GREETING])
    ensures Content([GREETING]) == [72, 101, 108, 108, 111]
  {
    assert [GREETING][1..] == [] && Encode(GREETING) + [] == Encode(GREETING);
  }

  /** A server that gets the eleven bytes reads the text. */
  method ReadsGreeting() returns (messageType: int, p: seq<byte>, err: Error)
    ensures messageType == TEXT && p == [72, 101, 108, 108, 111] && err == Ok
  {
    hide Conn.ValidWrite, Conn.FramesOk, Conn.Synced, Encode, EncodeAll, Apply, Avail, Starts, NextMessage, Lead, ToNext, AllFit, Content;
    var r := Greeted();
    GreetingAhead();
    messageType, p, err := r.ReadMessage();
  }

  method Greeted() returns (r: Conn)
    ensures fresh(r) && fresh(r.writeBuf) && r.ValidWrite() && r.Synced() && r.readErr == Ok && r.readFinal && r.isServer
    ensures r.input == [0x81, 0x85, 0x37, 0xFA, 0x21, 0x3D, 0x7F, 0x9F, 0x4D, 0x51, 0x58] && r.missing == []
    ensures r.cur == [] && r.ahead == [GREETING] && r.readLimit == 0
  {
    hide Conn.ValidWrite, Conn.FramesOk, Encode;
    r := new Conn(true, 0);
    GreetingAhead();
    GreetingOnWire();
    assert EncodeAll([]) == [] && Apply(r.CurrentMask(), r.readMaskPos, r.cur) == [];
    hide EncodeAll, Apply;
    r.input := [0x81, 0x85, 0x37, 0xFA, 0x21, 0x3D, 0x7F, 0x9F, 0x4D, 0x51, 0x58];
    r.ahead := [GREETING];
    assert [] + EncodeAll([GREETING]) == EncodeAll([GREETING]);
  }
}
