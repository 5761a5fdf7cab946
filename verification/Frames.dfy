/** Frames of the WebSocket protocol (sections 5.2 to 5.5 of RFC 6455), as the connection writes
    and reads them (gorilla/websocket/conn.go). */
module Frames {
  import opened Bytes

  const CONTINUATION := 0
  const TEXT := 1
  const BINARY := 2
  const CLOSE := 8
  const PING := 9
  const PONG := 10
  const NO_FRAME := -1
  const MAX_CONTROL := 125
  const MAX_INT := 0x7FFF_FFFF_FFFF_FFFF

  type Key = k: seq<byte> | |k| == 4 witness [0, 0, 0, 0]

  datatype Mask = Unmasked | Masked(key: Key)

  /** How a length is written: in seven bits, or in two or eight more bytes. */
  datatype Form = Short | Medium | Long

  datatype Frame = Frame(fin: bool, rsv: nat, opcode: nat, form: Form, payload: seq<byte>, mask: Mask)

  predicate IsControl(opcode: int) {
    opcode == CLOSE || opcode == PING || opcode == PONG
  }

  predicate IsData(opcode: int) {
    opcode == TEXT || opcode == BINARY
  }

  // --- Masking ------------------------------------------------------------------------------

  function MaskBytes(key: Key, pos: nat, b: seq<byte>): (r: seq<byte>)
    ensures |r| == |b|
  {
    seq(|b|, i requires 0 <= i < |b| => Xor(b[i], key[(pos + i) % 4]))
  }

  /** Masking again with the same key unmasks. */
  lemma MaskTwice(key: Key, pos: nat, b: seq<byte>)
    ensures MaskBytes(key, pos, MaskBytes(key, pos, b)) == b
  {
    forall i | 0 <= i < |b| ensures MaskBytes(key, pos, MaskBytes(key, pos, b))[i] == b[i] {
      XorTwice(b[i], key[(pos + i) % 4]);
    }
  }

  /** Masking piece by piece, each piece from the position reached before. */
  lemma MaskPieces(key: Key, pos: nat, a: seq<byte>, b: seq<byte>)
    ensures MaskBytes(key, pos, a + b) == MaskBytes(key, pos, a) + MaskBytes(key, (pos + |a|) % 4, b)
  {
    var l, r := MaskBytes(key, pos, a + b), MaskBytes(key, pos, a) + MaskBytes(key, (pos + |a|) % 4, b);
    forall i | 0 <= i < |l| ensures l[i] == r[i] {
      if i >= |a| {
        assert ((pos + |a|) % 4 + (i - |a|)) % 4 == (pos + i) % 4;
      }
    }
  }

  function Apply(mask: Mask, pos: nat, b: seq<byte>): (r: seq<byte>)
    ensures |r| == |b|
  {
    match mask
    case Unmasked => b
    case Masked(key) => MaskBytes(key, pos, b)
  }

  lemma ApplyTwice(mask: Mask, pos: nat, b: seq<byte>)
    ensures Apply(mask, pos, Apply(mask, pos, b)) == b
  {
    if mask.Masked? { MaskTwice(mask.key, pos, b); }
  }

  lemma ApplyPieces(mask: Mask, pos: nat, a: seq<byte>, b: seq<byte>)
    ensures Apply(mask, pos, a + b) == Apply(mask, pos, a) + Apply(mask, (pos + |a|) % 4, b)
  {
    if mask.Masked? { MaskPieces(mask.key, pos, a, b); }
  }

  // --- The bytes of a frame -----------------------------------------------------------------

  /** The shortest form of a length. */
  function ShortestForm(n: nat): Form {
    if n >= 65536 then Long else if n > MAX_CONTROL then Medium else Short
  }

  predicate FormFits(form: Form, n: nat) {
    match form
    case Short => n <= MAX_CONTROL
    case Medium => n < 65536
    case Long => n <= MAX_INT
  }

  /** A length: the seven bits of the second byte, and what follows it. */
  function Length7(form: Form, n: nat): (r: nat)
    requires form == Short ==> n <= MAX_CONTROL
    ensures r < 128
  {
    match form
    case Short => n
    case Medium => 126
    case Long => 127
  }

  function LengthMore(form: Form, n: nat): seq<byte> {
    match form
    case Short => []
    case Medium => BigEndian(n, 2)
    case Long => BigEndian(n, 8)
  }

  /** The frame a writer makes: no reserved bits, and the length in its shortest form. */
  function Built(fin: bool, opcode: nat, payload: seq<byte>, mask: Mask): Frame {
    Frame(fin, 0, opcode, ShortestForm(|payload|), payload, mask)
  }

  function KeyBytes(mask: Mask): seq<byte> {
    match mask
    case Unmasked => []
    case Masked(key) => key
  }

  /** The fields of a frame fit where the wire puts them. A length is a signed 64 bit number. */
  predicate Fits(f: Frame) {
    f.rsv < 8 && f.opcode < 16 && FormFits(f.form, |f.payload|) && |f.payload| <= MAX_INT
  }

  /** Everything before the payload. */
  function Header(f: Frame): seq<byte>
    requires Fits(f)
  {
    [f.opcode + 16 * f.rsv + if f.fin then 128 else 0, Length7(f.form, |f.payload|) + if f.mask.Masked? then 128 else 0]
    + LengthMore(f.form, |f.payload|) + KeyBytes(f.mask)
  }

  function Encode(f: Frame): seq<byte>
    requires Fits(f)
  {
    Header(f) + Apply(f.mask, 0, f.payload)
  }

  /** The opcodes of section 5.2 of RFC 6455, as the first byte of a frame has them. */
  lemma OpcodesOnWire(b: seq<byte>)
    requires |b| <= MAX_CONTROL
    ensures Header(Built(true, CLOSE, b, Unmasked)) == [0x88, |b|]
    ensures Header(Built(true, PING, b, Unmasked)) == [0x89, |b|]
    ensures Header(Built(true, PONG, b, Unmasked)) == [0x8A, |b|]
    ensures Header(Built(false, TEXT, b, Unmasked)) == [0x01, |b|]
    ensures Header(Built(false, BINARY, b, Unmasked)) == [0x02, |b|]
    ensures Header(Built(true, CONTINUATION, b, Unmasked)) == [0x80, |b|]
  {
  }

  /** The headers of section 5.7 of RFC 6455: unmasked binary frames of 256 bytes and of 64 KiB. */
  lemma LengthsOnWire(b: seq<byte>)
    ensures |b| == 256 ==> Header(Built(true, BINARY, b, Unmasked)) == [0x82, 0x7E, 1, 0]
    ensures |b| == 65536 ==> Header(Built(true, BINARY, b, Unmasked)) == [0x82, 0x7F, 0, 0, 0, 0, 0, 1, 0, 0]
  {
    assert BigEndian(256, 2) == [1, 0];
    assert BigEndian(65536, 4) == [0, 1, 0, 0] && BigEndian(65536, 8) == [0, 0, 0, 0, 0, 1, 0, 0] by { Large(); }
  }

  lemma Large()
    ensures BigEndian(65536, 4) == [0, 1, 0, 0] && BigEndian(65536, 8) == [0, 0, 0, 0, 0, 1, 0, 0]
  {
    assert BigEndian(0, 5) == [0, 0, 0, 0, 0] by { assert BigEndian(0, 3) == [0, 0, 0]; }
    assert BigEndian(1, 6) == [0, 0, 0, 0, 0, 1];
    assert BigEndian(256, 7) == [0, 0, 0, 0, 0, 1, 0];
  }

  ghost predicate AllFit(fs: seq<Frame>) {
    forall i :: 0 <= i < |fs| ==> Fits(fs[i])
  }

  ghost function EncodeAll(fs: seq<Frame>): seq<byte>
    requires AllFit(fs)
  {
    if fs == [] then [] else Encode(fs[0]) + EncodeAll(fs[1..])
  }

  lemma {:induction false} EncodeAllAppend(fs: seq<Frame>, f: Frame)
    requires AllFit(fs) && Fits(f)
    ensures AllFit(fs + [f]) && EncodeAll(fs + [f]) == EncodeAll(fs) + Encode(f)
  {
    if fs != [] {
      EncodeAllAppend(fs[1..], f);
      assert (fs + [f])[1..] == fs[1..] + [f];
    } else {
      assert fs + [f] == [f];
    }
  }

  // --- Well-formed streams ------------------------------------------------------------------

  /** Where a stream of frames stands: between messages, inside one, after a close frame, or it
      broke a rule. */
  datatype Scan = Between | Inside | Closed | Broken

  function Step(s: Scan, f: Frame): Scan {
    if s == Broken || s == Closed || f.rsv != 0 then Broken
    else if IsControl(f.opcode) then
      if !f.fin || f.form != Short || |f.payload| > MAX_CONTROL then Broken else if f.opcode == CLOSE then Closed else s
    else if IsData(f.opcode) then
      if s == Inside then Broken else if f.fin then Between else Inside
    else if f.opcode == CONTINUATION then
      if s == Between then Broken else if f.fin then Between else Inside
    else Broken
  }

  function ScanFrom(s: Scan, fs: seq<Frame>): Scan
    decreases |fs|
  {
    if fs == [] then s else ScanFrom(Step(s, fs[0]), fs[1..])
  }

  lemma {:induction false} ScanAppend(s: Scan, fs: seq<Frame>, f: Frame)
    ensures ScanFrom(s, fs + [f]) == Step(ScanFrom(s, fs), f)
    decreases |fs|
  {
    if fs != [] {
      ScanAppend(Step(s, fs[0]), fs[1..], f);
      assert (fs + [f])[1..] == fs[1..] + [f];
    } else {
      assert (fs + [f])[1..] == [];
    }
  }

  /** A data message is open in front of frame `i`: the last frame that is no control frame is not a
      final one. */
  ghost predicate OpenAt(fs: seq<Frame>, i: nat)
    requires i <= |fs|
  {
    exists j :: 0 <= j < i && !IsControl(fs[j].opcode) && !fs[j].fin && forall k :: j < k < i ==> IsControl(fs[k].opcode)
  }

  ghost predicate ClosedAt(fs: seq<Frame>, i: nat)
    requires i <= |fs|
  {
    exists j :: 0 <= j < i && fs[j].opcode == CLOSE
  }

  /** What RFC 6455 asks of frame `i` of a stream: no reserved bits and nothing behind a close frame
      (sections 5.2 and 5.5.1); control frames whole, short, and at any place (sections 5.4 and 5.5); a
      text or binary frame only where no message is open, and a continuation only where one is
      (section 5.4). */
  ghost predicate Lawful(fs: seq<Frame>, i: nat)
    requires i < |fs|
  {
    var f := fs[i];
    && f.rsv == 0 && !ClosedAt(fs, i)
    && (IsControl(f.opcode) || IsData(f.opcode) || f.opcode == CONTINUATION)
    && (IsControl(f.opcode) ==> f.fin && f.form == Short && |f.payload| <= MAX_CONTROL)
    && (IsData(f.opcode) ==> !OpenAt(fs, i))
    && (f.opcode == CONTINUATION ==> OpenAt(fs, i))
  }

  ghost predicate AllLawful(fs: seq<Frame>) {
    forall i :: 0 <= i < |fs| ==> Lawful(fs, i)
  }

  /** Following a stream frame by frame breaks off exactly where it breaks a rule, and tells whether it
      is closed or inside a message. */
  lemma {:induction false} ScanIsLawful(fs: seq<Frame>)
    ensures ScanFrom(Between, fs) != Broken <==> AllLawful(fs)
    ensures AllLawful(fs) ==>
      && (ScanFrom(Between, fs) == Closed <==> ClosedAt(fs, |fs|))
      && (ScanFrom(Between, fs) == Inside <==> OpenAt(fs, |fs|) && !ClosedAt(fs, |fs|))
  {
    if fs != [] {
      var n := |fs| - 1;
      var front := fs[..n];
      ScanIsLawful(front);
      assert fs == front + [fs[n]];
      ScanAppend(Between, front, fs[n]);
      hide ScanFrom;
      forall i | 0 <= i <= n
        ensures OpenAt(fs, i) <==> OpenAt(front, i)
        ensures ClosedAt(fs, i) <==> ClosedAt(front, i)
        ensures i < n ==> (Lawful(fs, i) <==> Lawful(front, i))
      {
        FrontSame(fs, n, i);
      }
      LastFrame(fs);
      hide Lawful, OpenAt, ClosedAt;
      assert AllLawful(fs) <==> AllLawful(front) && Lawful(fs, n);
    }
  }

  lemma FrontSame(fs: seq<Frame>, n: nat, i: nat)
    requires i <= n <= |fs|
    ensures OpenAt(fs, i) <==> OpenAt(fs[..n], i)
    ensures ClosedAt(fs, i) <==> ClosedAt(fs[..n], i)
    ensures i < n ==> (Lawful(fs, i) <==> Lawful(fs[..n], i))
  {
  }

  /** What the last frame does. */
  lemma LastFrame(fs: seq<Frame>)
    requires fs != []
    ensures var n := |fs| - 1;
      && (OpenAt(fs, |fs|) <==> if IsControl(fs[n].opcode) then OpenAt(fs, n) else !fs[n].fin)
      && (ClosedAt(fs, |fs|) <==> ClosedAt(fs, n) || fs[n].opcode == CLOSE)
  {
    var n := |fs| - 1;
    if IsControl(fs[n].opcode) && OpenAt(fs, n) {
      var j :| 0 <= j < n && !IsControl(fs[j].opcode) && !fs[j].fin && forall k :: j < k < n ==> IsControl(fs[k].opcode);
      assert forall k :: j < k < |fs| ==> IsControl(fs[k].opcode);
    }
  }

  /** What the frames carry of the message they belong to: everything but the control frames. */
  ghost function Payload(fs: seq<Frame>): seq<byte> {
    if fs == [] then [] else (if IsControl(fs[0].opcode) then [] else fs[0].payload) + Payload(fs[1..])
  }

  lemma {:induction false} PayloadAppend(fs: seq<Frame>, f: Frame)
    ensures Payload(fs + [f]) == Payload(fs) + if IsControl(f.opcode) then [] else f.payload
  {
    if fs != [] {
      PayloadAppend(fs[1..], f);
      assert (fs + [f])[1..] == fs[1..] + [f];
    } else {
      assert (fs + [f])[1..] == [] && Payload([]) == [];
    }
  }

  /** The opcodes of the frames that start a message. */
  ghost function Types(fs: seq<Frame>): seq<nat> {
    if fs == [] then [] else (if IsData(fs[0].opcode) then [fs[0].opcode] else []) + Types(fs[1..])
  }

  lemma {:induction false} TypesAppend(fs: seq<Frame>, f: Frame)
    ensures Types(fs + [f]) == Types(fs) + if IsData(f.opcode) then [f.opcode] else []
  {
    if fs != [] {
      TypesAppend(fs[1..], f);
      assert (fs + [f])[1..] == fs[1..] + [f];
    } else {
      assert (fs + [f])[1..] == [] && Types([]) == [];
    }
  }
}
