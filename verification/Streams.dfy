/** How the receiving side takes messages out of a stream of frames. */
module Streams {
  import opened Bytes
  import opened Frames

  /** A receiver (`server` or client) takes frame `f` when it stands at `s`: the peer has to mask
      exactly when it is a client. */
  predicate Accepts(server: bool, s: Scan, f: Frame) {
    f.mask.Masked? == server && Step(s, f) != Broken
  }

  ghost predicate Masks(server: bool, fs: seq<Frame>) {
    forall i :: 0 <= i < |fs| ==> fs[i].mask.Masked? == server
  }

  /** The stream leads to a next message: control frames, and what remains of an unfinished
      message, come first. */
  ghost predicate Starts(server: bool, s: Scan, fs: seq<Frame>)
    decreases |fs|
  {
    && fs != [] && Accepts(server, s, fs[0]) && fs[0].opcode != CLOSE
    && (IsData(fs[0].opcode) || Starts(server, Step(s, fs[0]), fs[1..]))
  }

  /** The frames from the first frame of the next message on. */
  ghost function NextMessage(fs: seq<Frame>): seq<Frame> {
    if fs == [] || IsData(fs[0].opcode) then fs else NextMessage(fs[1..])
  }

  lemma {:induction false} NextFits(fs: seq<Frame>)
    requires AllFit(fs)
    ensures AllFit(NextMessage(fs))
  {
    if fs != [] && !IsData(fs[0].opcode) { NextFits(fs[1..]); }
  }

  /** The payload bytes counted against the read limit up to the first frame of the next message. */
  ghost function Lead(fs: seq<Frame>): nat {
    if fs == [] then 0
    else if IsData(fs[0].opcode) then |fs[0].payload|
    else (if IsControl(fs[0].opcode) then 0 else |fs[0].payload|) + Lead(fs[1..])
  }

  /** The stream finishes the message that is open. */
  ghost predicate Completes(server: bool, fs: seq<Frame>) {
    && fs != [] && Accepts(server, Inside, fs[0]) && fs[0].opcode != CLOSE
    && (Step(Inside, fs[0]) == Between || Completes(server, fs[1..]))
  }

  /** What the stream adds to the open message. */
  ghost function Rest(fs: seq<Frame>): seq<byte> {
    if fs == [] then []
    else if IsControl(fs[0].opcode) then Rest(fs[1..])
    else fs[0].payload + if fs[0].fin then [] else Rest(fs[1..])
  }

  /** The frames behind the open message. */
  ghost function After(fs: seq<Frame>): seq<Frame> {
    if fs == [] then []
    else if !IsControl(fs[0].opcode) && fs[0].fin then fs[1..]
    else After(fs[1..])
  }

  // --- Any input is frames ------------------------------------------------------------------

  function Zeros(n: nat): (r: seq<byte>)
    ensures |r| == n
  {
    seq(n, i => 0)
  }

  /** The header that bytes spell, with zeros for what is not there. */
  datatype HeaderOf = HeaderOf(fin: bool, rsv: nat, opcode: nat, form: Form, n: nat, mask: Mask, size: nat)

  function FormOf(b: byte): Form {
    if b % 128 == 126 then Medium else if b % 128 == 127 then Long else Short
  }

  function ReadHeader(s: seq<byte>): (h: HeaderOf)
    requires |s| >= 14
    ensures h.size <= 14
  {
    var form := FormOf(s[1]);
    var at := KeyAt(form);
    var n := if form == Short then s[1] % 128 else FromBigEndian(s[2..at]);
    var mask := if s[1] >= 128 then Masked(s[at..at + 4]) else Unmasked;
    HeaderOf(s[0] >= 128, s[0] / 16 % 8, s[0] % 16, form, n, mask, at + if s[1] >= 128 then 4 else 0)
  }

  /** A length of eight bytes with its top bit set. */
  predicate Huge(s: seq<byte>) {
    |s| >= 3 && s[1] % 128 == 127 && s[2] >= 128
  }

  /** Where the mask key begins. */
  function KeyAt(form: Form): nat {
    match form
    case Short => 2
    case Medium => 4
    case Long => 10
  }

  lemma LengthSpelt(s: seq<byte>)
    requires |s| >= 14 && !Huge(s)
    ensures var h := ReadHeader(s);
      h.n <= MAX_INT && FormFits(h.form, h.n) && LengthMore(h.form, h.n) == s[2..KeyAt(h.form)]
  {
    var h := ReadHeader(s);
    var more := s[2..KeyAt(h.form)];
    if h.form != Short {
      FromBigEndianBack(more);
      if h.form == Medium {
        assert Pow256(1) == 256 && Pow256(2) == 65536;
      } else {
        TopBitClear(more);
        assert Pow256(3) == 0x100_0000 && Pow256(5) == 0x100_0000_0000 && Pow256(7) == 0x100_0000_0000_0000;
      }
    }
  }

  /** Bytes that are no huge length spell the header of a frame that fits. */
  lemma HeaderSpelt(s: seq<byte>, payload: seq<byte>)
    requires |s| >= 14 && !Huge(s) && |payload| == ReadHeader(s).n
    ensures var h := ReadHeader(s);
      var f := Frame(h.fin, h.rsv, h.opcode, h.form, payload, h.mask);
      Fits(f) && Header(f) == s[..h.size]
  {
    hide FromBigEndian, LengthMore;
    LengthSpelt(s);
    var h := ReadHeader(s);
    var at := KeyAt(h.form);
    assert KeyBytes(h.mask) == s[at..h.size];
    assert s[..2] == [s[0], s[1]];
    Split(s, 2, at);
    Split(s, at, h.size);
  }

  /** The first frame of an input that is no huge length; zeros stand for what is missing. */
  function FirstFrame(s: seq<byte>): Frame {
    var padded := s + Zeros(14);
    var h := ReadHeader(padded);
    var wire := (padded + Zeros(h.n))[h.size..h.size + h.n];
    Frame(h.fin, h.rsv, h.opcode, h.form, Apply(h.mask, 0, wire), h.mask)
  }

  lemma FirstFrameSpelt(s: seq<byte>)
    requires s != [] && !Huge(s)
    ensures var f := FirstFrame(s);
      && Fits(f) && Encode(f) != []
      && if |s| <= |Encode(f)| then s <= Encode(f) else Encode(f) <= s
  {
    hide ReadHeader, Apply, Header, Fits;
    var padded := s + Zeros(14);
    var h := ReadHeader(padded);
    var f := FirstFrame(s);
    var all := padded + Zeros(h.n);
    HeaderSpelt(padded, f.payload);
    ApplyTwice(h.mask, 0, all[h.size..h.size + h.n]);
    Split(all, h.size, h.size + h.n);
    assert all[..h.size] == padded[..h.size];
    assert Encode(f) == all[..h.size + h.n];
    HeaderThere(f);
  }

  lemma HeaderThere(f: Frame)
    requires Fits(f)
    ensures Header(f) != []
  {
  }

  /** Any input is frames that fit, followed by what is missing of the last one, unless a huge length
      comes behind some of them. */
  lemma {:induction false} AnyInput(s: seq<byte>) returns (fs: seq<Frame>, missing: seq<byte>)
    ensures AllFit(fs)
    ensures s + missing == EncodeAll(fs) || (EncodeAll(fs) <= s && Huge(s[|EncodeAll(fs)|..]))
    decreases |s|
  {
    hide Encode, FirstFrame, Huge, Fits;
    fs, missing := [], [];
    if s == [] || Huge(s) {
      return;
    }
    var f := FirstFrame(s);
    FirstFrameSpelt(s);
    OneFrame(f);
    if |s| <= |Encode(f)| {
      fs, missing := [f], Encode(f)[|s|..];
    } else {
      var rest;
      rest, missing := AnyInput(s[|Encode(f)|..]);
      fs := [f] + rest;
      MoreFrames(s, f, rest, missing);
    }
  }

  lemma OneFrame(f: Frame)
    requires Fits(f)
    ensures EncodeAll([f]) == Encode(f)
  {
    assert [f][1..] == [];
  }

  lemma MoreFrames(s: seq<byte>, f: Frame, rest: seq<Frame>, missing: seq<byte>)
    requires Fits(f) && AllFit(rest) && |Encode(f)| <= |s| && Encode(f) == s[..|Encode(f)|]
    requires var tail := s[|Encode(f)|..];
      tail + missing == EncodeAll(rest) || (EncodeAll(rest) <= tail && Huge(tail[|EncodeAll(rest)|..]))
    ensures s + missing == EncodeAll([f] + rest) || (EncodeAll([f] + rest) <= s && Huge(s[|EncodeAll([f] + rest)|..]))
  {
    hide Encode;
    var tail := s[|Encode(f)|..];
    assert s == Encode(f) + tail && ([f] + rest)[1..] == rest;
    if tail + missing != EncodeAll(rest) {
      assert s[|Encode(f)| + |EncodeAll(rest)|..] == tail[|EncodeAll(rest)|..];
    }
  }

  // --- Streams that are cut off -------------------------------------------------------------

  /** Where the input ends, seen from a reader of a message: behind the message, within the payload
      of one of its frames, or anywhere else before its end. */
  datatype End = AtEnd | InPayload | Elsewhere

  datatype Given = Given(data: seq<byte>, end: End)

  ghost function Prepend(s: seq<byte>, g: Given): Given {
    Given(s + g.data, g.end)
  }

  /** What `k` bytes of input give of a message that continues with the rest `cur` of a frame,
      final or not, and the frames `fs`. */
  ghost function Avail(k: nat, cur: seq<byte>, final: bool, fs: seq<Frame>): Given
    requires AllFit(fs)
    decreases |fs|
  {
    if k < |cur| then Given(cur[..k], InPayload)
    else if final then Given(cur, AtEnd)
    else if fs == [] then Given(cur, Elsewhere)
    else
      var f, r := fs[0], k - |cur|;
      if r < FrameBytes(f) then Given(cur, Elsewhere)
      else if IsControl(f.opcode) then Prepend(cur, Avail(r - FrameBytes(f), [], false, fs[1..]))
      else Prepend(cur, Avail(r - FrameBytes(f), f.payload, f.fin, fs[1..]))
  }

  /** What of a frame is read before it is left: all of a control frame, the header of a data
      frame. */
  ghost function FrameBytes(f: Frame): nat
    requires Fits(f)
  {
    2 + |LengthMore(f.form, |f.payload|)| + |KeyBytes(f.mask)| + if IsControl(f.opcode) then |f.payload| else 0
  }

  /** How many bytes of the frames `fs` are read to get at the next message: everything before its
      first frame, and the header of that. */
  ghost function ToNext(fs: seq<Frame>): nat
    requires AllFit(fs)
  {
    if fs == [] then 0
    else if IsData(fs[0].opcode) then FrameBytes(fs[0])
    else FrameBytes(fs[0]) + (if IsControl(fs[0].opcode) then 0 else |fs[0].payload|) + ToNext(fs[1..])
  }

  lemma {:induction false} ToNextWithin(fs: seq<Frame>)
    requires AllFit(fs)
    ensures ToNext(fs) <= |EncodeAll(fs)|
  {
    hide FrameBytes, Encode;
    if fs != [] {
      EncodeSize(fs[0]);
      ToNextWithin(fs[1..]);
    }
  }

  /** With all the bytes there, everything is given. */
  lemma {:induction false} AvailWhole(server: bool, k: nat, cur: seq<byte>, final: bool, fs: seq<Frame>)
    requires AllFit(fs) && k == |cur| + |EncodeAll(fs)| && (final || Completes(server, fs))
    ensures Avail(k, cur, final, fs) == Given(cur + if final then [] else Rest(fs), AtEnd)
    decreases |fs|
  {
    hide LengthMore, KeyBytes;
    if !final {
      var f, rest := fs[0], fs[1..];
      EncodeSize(f);
      assert |EncodeAll(fs)| == |Encode(f)| + |EncodeAll(rest)|;
      if IsControl(f.opcode) {
        AvailWhole(server, k - |cur| - FrameBytes(f), [], false, rest);
      } else {
        AvailWhole(server, k - |cur| - FrameBytes(f), f.payload, f.fin, rest);
      }
    }
  }

  lemma EncodeSize(f: Frame)
    requires Fits(f)
    ensures |Encode(f)| == FrameBytes(f) + if IsControl(f.opcode) then 0 else |f.payload|
  {
  }

  /** Reading `n` bytes of the current frame takes them off the front. */
  lemma AvailStep(k: nat, cur: seq<byte>, final: bool, fs: seq<Frame>, n: nat)
    requires AllFit(fs) && n <= k && n <= |cur|
    ensures Avail(k, cur, final, fs) == Prepend(cur[..n], Avail(k - n, cur[n..], final, fs))
  {
    hide FrameBytes;
    if k < |cur| {
      Split(cur, n, k);
    } else {
      assert cur == cur[..n] + cur[n..];
      if !final && fs != [] && k - |cur| >= FrameBytes(fs[0]) {
        var f, r := fs[0], k - |cur| - FrameBytes(fs[0]);
        var g := if IsControl(f.opcode) then Avail(r, [], false, fs[1..]) else Avail(r, f.payload, f.fin, fs[1..]);
        assert cur[..n] + (cur[n..] + g.data) == cur[..n] + cur[n..] + g.data;
      }
    }
  }

  /** What is given is a prefix of the message, and ends with it only at its end; where the input
      ends within a payload, some of the message is missing. */
  lemma {:induction false} AvailPrefix(server: bool, k: nat, cur: seq<byte>, final: bool, fs: seq<Frame>)
    requires AllFit(fs) && (final || Completes(server, fs))
    ensures var g, all := Avail(k, cur, final, fs), cur + if final then [] else Rest(fs);
      && g.data <= all && (g.end == AtEnd ==> g.data == all) && (g.end == InPayload ==> |g.data| < |all|)
    decreases |fs|
  {
    if k >= |cur| && !final && k - |cur| >= FrameBytes(fs[0]) {
      var f := fs[0];
      var r := k - |cur| - FrameBytes(f);
      if IsControl(f.opcode) {
        AvailPrefix(server, r, [], false, fs[1..]);
      } else {
        AvailPrefix(server, r, f.payload, f.fin, fs[1..]);
      }
    }
  }

  /** Only control frames, and no close frame. */
  ghost predicate Quiet(server: bool, fs: seq<Frame>) {
    Masks(server, fs) && ScanFrom(Between, fs) == Between && Types(fs) == []
  }

  /** A stream that carries exactly one message, of type `t`. */
  ghost predicate Carries(server: bool, fs: seq<Frame>, t: nat, data: seq<byte>) {
    Masks(server, fs) && ScanFrom(Between, fs) == Between && Types(fs) == [t] && Payload(fs) == data
  }

  lemma {:induction false} BrokenStays(fs: seq<Frame>)
    ensures ScanFrom(Broken, fs) == Broken
    decreases |fs|
  {
    if fs != [] { BrokenStays(fs[1..]); }
  }

  lemma {:induction false} ClosedStays(fs: seq<Frame>)
    ensures ScanFrom(Closed, fs) == Broken || ScanFrom(Closed, fs) == Closed
  {
    if fs != [] { BrokenStays(fs[1..]); }
  }

  /** A stream of well-formed frames that ends between messages finishes the open message. */
  lemma {:induction false} OpenMessage(server: bool, fs: seq<Frame>)
    requires Masks(server, fs) && ScanFrom(Inside, fs) == Between && Types(fs) == []
    ensures Completes(server, fs) && Rest(fs) == Payload(fs) && Quiet(server, After(fs))
  {
    BrokenStays(fs[1..]);
    ClosedStays(fs[1..]);
    if IsControl(fs[0].opcode) || !fs[0].fin {
      OpenMessage(server, fs[1..]);
    } else {
      QuietPayload(server, fs[1..]);
    }
  }

  lemma {:induction false} QuietPayload(server: bool, fs: seq<Frame>)
    requires Quiet(server, fs)
    ensures Payload(fs) == []
  {
    if fs != [] {
      BrokenStays(fs[1..]);
      ClosedStays(fs[1..]);
      QuietPayload(server, fs[1..]);
    }
  }

  /** The receiver finds the message that a stream carries: its type, its bytes, and nothing but
      control frames behind it. */
  lemma {:induction false} WholeMessage(server: bool, fs: seq<Frame>, t: nat, data: seq<byte>)
    requires Carries(server, fs, t, data)
    ensures Starts(server, Between, fs)
    ensures var m := NextMessage(fs);
      && m != [] && m[0].opcode == t
      && (m[0].fin || Completes(server, m[1..]))
      && m[0].payload + (if m[0].fin then [] else Rest(m[1..])) == data
      && Lead(fs) == |m[0].payload|
      && Quiet(server, if m[0].fin then m[1..] else After(m[1..]))
  {
    BrokenStays(fs[1..]);
    ClosedStays(fs[1..]);
    if IsControl(fs[0].opcode) {
      WholeMessage(server, fs[1..], t, data);
    } else {
      assert IsData(fs[0].opcode) && NextMessage(fs) == fs;
      assert Types(fs) == [fs[0].opcode] + Types(fs[1..]);
      assert fs[0].opcode == Types(fs)[0] == t;
      assert Types(fs[1..]) == Types(fs)[1..] == [];
      if fs[0].fin {
        QuietPayload(server, fs[1..]);
      } else {
        OpenMessage(server, fs[1..]);
      }
    }
  }

  lemma {:induction false} ScanTwo(s: Scan, a: seq<Frame>, b: seq<Frame>)
    ensures ScanFrom(s, a + b) == ScanFrom(ScanFrom(s, a), b)
    decreases |a|
  {
    if a == [] {
      assert a + b == b;
    } else {
      ScanTwo(Step(s, a[0]), a[1..], b);
      assert (a + b)[1..] == a[1..] + b;
    }
  }

  lemma {:induction false} TypesTwo(a: seq<Frame>, b: seq<Frame>)
    ensures Types(a + b) == Types(a) + Types(b)
  {
    if a == [] {
      assert a + b == b;
    } else {
      TypesTwo(a[1..], b);
      assert (a + b)[1..] == a[1..] + b;
    }
  }

  lemma {:induction false} PayloadTwo(a: seq<Frame>, b: seq<Frame>)
    ensures Payload(a + b) == Payload(a) + Payload(b)
  {
    if a == [] {
      assert a + b == b;
    } else {
      PayloadTwo(a[1..], b);
      var head := if IsControl(a[0].opcode) then [] else a[0].payload;
      assert (a + b)[1..] == a[1..] + b;
      assert head + (Payload(a[1..]) + Payload(b)) == (head + Payload(a[1..])) + Payload(b);
    }
  }

  lemma {:induction false} EncodeTwo(a: seq<Frame>, b: seq<Frame>)
    requires AllFit(a) && AllFit(b)
    ensures AllFit(a + b) && EncodeAll(a + b) == EncodeAll(a) + EncodeAll(b)
  {
    hide Encode, Fits;
    if a == [] {
      assert a + b == b;
    } else {
      EncodeTwo(a[1..], b);
      assert (a + b)[1..] == a[1..] + b;
      assert Encode(a[0]) + (EncodeAll(a[1..]) + EncodeAll(b)) == (Encode(a[0]) + EncodeAll(a[1..])) + EncodeAll(b);
    }
  }

  /** Leftover control frames in front of a message do not matter. */
  lemma QuietFirst(server: bool, q: seq<Frame>, fs: seq<Frame>, t: nat, data: seq<byte>)
    requires Quiet(server, q) && Carries(server, fs, t, data)
    ensures Carries(server, q + fs, t, data)
  {
    ScanTwo(Between, q, fs);
    TypesTwo(q, fs);
    PayloadTwo(q, fs);
    QuietPayload(server, q);
  }
}
