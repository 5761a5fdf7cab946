/** The UTF-8 validator of the autobahn example (gorilla/websocket/examples/autobahn/server.go): a
    table-driven automaton, against the syntax of section 4 and the encoding of section 3 of
    RFC 3629. */
module Utf8 {
  import opened Bytes

  const ACCEPT := 0
  const REJECT := 1

  // --- What UTF-8 is ------------------------------------------------------------------------

  /** A Unicode scalar value: a code point that is not a surrogate. */
  predicate Scalar(c: int) {
    0 <= c <= 0x10FFFF && !(0xD800 <= c <= 0xDFFF)
  }

  /** The encoding of a code point. */
  function Encode(c: nat): seq<byte>
    requires Scalar(c)
  {
    if c < 0x80 then [c]
    else if c < 0x800 then [0xC0 + c / 64, 0x80 + c % 64]
    else if c < 0x10000 then [0xE0 + c / 4096, 0x80 + c / 64 % 64, 0x80 + c % 64]
    else [0xF0 + c / 262144, 0x80 + c / 4096 % 64, 0x80 + c / 64 % 64, 0x80 + c % 64]
  }

  predicate Tail(b: byte) {
    0x80 <= b <= 0xBF
  }

  /** UTF8-char of the grammar. */
  predicate IsChar(s: seq<byte>) {
    || (|s| == 1 && s[0] <= 0x7F)
    || (|s| == 2 && 0xC2 <= s[0] <= 0xDF && Tail(s[1]))
    || (|s| == 3 && Tail(s[2])
        && ((s[0] == 0xE0 && 0xA0 <= s[1] <= 0xBF) || (0xE1 <= s[0] <= 0xEC && Tail(s[1]))
            || (s[0] == 0xED && 0x80 <= s[1] <= 0x9F) || (0xEE <= s[0] <= 0xEF && Tail(s[1]))))
    || (|s| == 4 && Tail(s[2]) && Tail(s[3])
        && ((s[0] == 0xF0 && 0x90 <= s[1] <= 0xBF) || (0xF1 <= s[0] <= 0xF3 && Tail(s[1]))
            || (s[0] == 0xF4 && 0x80 <= s[1] <= 0x8F)))
  }

  /** UTF8-octets: any number of characters. */
  ghost predicate WellFormed(s: seq<byte>) {
    s == [] || exists n :: 0 < n <= |s| && IsChar(s[..n]) && WellFormed(s[n..])
  }

  function CodePoint(s: seq<byte>): nat
    requires IsChar(s)
  {
    var a: int := s[0];
    if |s| == 1 then a
    else
      var b: int := s[1] - 0x80;
      if |s| == 2 then (a - 0xC0) * 64 + b
      else
        var c: int := s[2] - 0x80;
        if |s| == 3 then ((a - 0xE0) * 64 + b) * 64 + c
        else (((a - 0xF0) * 64 + b) * 64 + c) * 64 + (s[3] - 0x80)
  }

  lemma Digits(a: nat, b: nat)
    requires b < 64
    ensures (a * 64 + b) / 64 == a && (a * 64 + b) % 64 == b
  {
  }

  lemma HigherDigits(n: nat)
    ensures n / 4096 == n / 64 / 64 && n / 262144 == n / 64 / 64 / 64
  {
  }

  /** The grammar describes the encodings of the scalar values and nothing else: an encoding is a
      character with its code point, and a character is the encoding of its code point. */
  lemma EncodeIsChar(c: nat)
    requires Scalar(c)
    ensures IsChar(Encode(c)) && CodePoint(Encode(c)) == c
  {
    HigherDigits(c);
    var d, e := c / 64, c / 64 / 64;
    assert c == d * 64 + c % 64 && d == e * 64 + d % 64 && e == e / 64 * 64 + e % 64;
  }

  lemma CharIsEncoding(s: seq<byte>)
    requires IsChar(s)
    ensures Scalar(CodePoint(s)) && Encode(CodePoint(s)) == s
  {
    hide IsChar, Encode, CodePoint;
    if |s| == 4 { LongBack(s); } else { ShortBack(s); }
  }

  lemma ShortBack(s: seq<byte>)
    requires IsChar(s) && |s| != 4
    ensures Scalar(CodePoint(s)) && Encode(CodePoint(s)) == s
  {
    if |s| == 2 {
      Digits(s[0] - 0xC0, s[1] - 0x80);
    } else if |s| == 3 {
      SixBits(0, s[0] - 0xE0, s[1] - 0x80, s[2] - 0x80);
    }
  }

  lemma LongBack(s: seq<byte>)
    requires IsChar(s) && |s| == 4
    ensures Scalar(CodePoint(s)) && Encode(CodePoint(s)) == s
  {
    SixBits(s[0] - 0xF0, s[1] - 0x80, s[2] - 0x80, s[3] - 0x80);
  }

  lemma SixBits(a: nat, b: nat, c: nat, d: nat)
    requires b < 64 && c < 64 && d < 64
    ensures var n := ((a * 64 + b) * 64 + c) * 64 + d;
      n / 262144 == a && n / 4096 == a * 64 + b && n / 4096 % 64 == b && n / 64 % 64 == c && n % 64 == d
  {
    var h, m := a * 64 + b, (a * 64 + b) * 64 + c;
    HigherDigits(m * 64 + d);
    Digits(a, b);
    Digits(h, c);
    Digits(m, d);
  }

  // --- The automaton ------------------------------------------------------------------------

  /** The first 256 entries of the table: the class of a byte. */
  function Class(b: byte): (t: nat)
    ensures t < 16
  {
    if b < 0x80 then 0
    else if b < 0x90 then 1
    else if b < 0xA0 then 9
    else if b < 0xC0 then 7
    else if b < 0xC2 then 8
    else if b < 0xE0 then 2
    else if b == 0xE0 then 10
    else if b < 0xED then 3
    else if b == 0xED then 4
    else if b < 0xF0 then 3
    else if b == 0xF0 then 11
    else if b < 0xF4 then 6
    else if b == 0xF4 then 5
    else 8
  }

  /** The other entries: the next state for each state and class. */
  function Next(state: nat, t: nat): (r: nat)
    requires state < 9 && t < 16
    ensures r < 9
  {
    match state
    case 0 =>
      if t == 0 then 0 else if t == 2 then 2 else if t == 3 then 3 else if t == 4 then 5 else if t == 5 then 8
      else if t == 6 then 7 else if t == 10 then 4 else if t == 11 then 6 else 1
    case 1 => 1
    case 2 => if t == 1 || t == 7 || t == 9 then 0 else 1
    case 3 => if t == 1 || t == 7 || t == 9 then 2 else 1
    case 4 => if t == 7 then 2 else 1
    case 5 => if t == 1 || t == 9 then 2 else 1
    case 6 => if t == 7 || t == 9 then 3 else 1
    case 7 => if t == 1 || t == 7 || t == 9 then 3 else 1
    case _ => if t == 1 then 3 else 1
  }

  /** The low bits of a first byte that its class leaves. */
  function LowBits(b: byte, t: nat): nat {
    if t <= 8 then b % Pow2(8 - t) else 0
  }

  datatype Result = Result(state: nat, x: nat)

  function Decode(s: Result, b: byte): (r: Result)
    requires s.state < 9
    ensures r.state < 9
  {
    var t := Class(b);
    Result(Next(s.state, t), if s.state != ACCEPT then b % 64 + s.x * 64 else LowBits(b, t))
  }

  function Run(s: Result, b: seq<byte>): (r: Result)
    requires s.state < 9
    ensures r.state < 9
    decreases |b|
  {
    if b == [] then s else Run(Decode(s, b[0]), b[1..])
  }

  lemma {:induction false} RunTwo(s: Result, a: seq<byte>, b: seq<byte>)
    requires s.state < 9
    ensures Run(s, a + b) == Run(Run(s, a), b)
    decreases |a|
  {
    if a == [] {
      assert a + b == b;
    } else {
      RunTwo(Decode(s, a[0]), a[1..], b);
      assert (a + b)[1..] == a[1..] + b;
    }
  }

  lemma {:induction false} RejectStays(s: Result, b: seq<byte>)
    requires s.state == REJECT
    ensures Run(s, b).state == REJECT
    decreases |b|
  {
    if b != [] { RejectStays(Decode(s, b[0]), b[1..]); }
  }

  lemma Powers()
    ensures Pow2(8) == 256 && Pow2(6) == 64 && Pow2(5) == 32 && Pow2(4) == 16 && Pow2(3) == 8 && Pow2(2) == 4
  {
    assert Pow2(3) == 8 && Pow2(5) == 32;
  }

  /** One character takes the automaton from accepting to accepting, holding its code point. */
  lemma RunChar(x: nat, s: seq<byte>)
    requires IsChar(s)
    ensures Run(Result(ACCEPT, x), s) == Result(ACCEPT, CodePoint(s))
  {
    hide CodePoint;
    FirstByte(x, s);
    var r0 := Decode(Result(ACCEPT, x), s[0]);
    assert |s| == 1 ==> s[1..] == [];
    if |s| >= 2 {
      var r1 := Decode(r0, s[1]);
      assert Run(Result(ACCEPT, x), s) == Run(r0, s[1..]) == Run(r1, s[2..]);
      if |s| >= 3 {
        var r2 := Decode(r1, s[2]);
        assert Run(r1, s[2..]) == Run(r2, s[3..]);
        if |s| == 4 {
          assert Run(r2, s[3..]) == Run(Decode(r2, s[3]), s[4..]);
        }
      }
    }
    TailBits(s);
  }

  /** What the first byte of a character leaves. */
  lemma FirstByte(x: nat, s: seq<byte>)
    requires IsChar(s)
    ensures Decode(Result(ACCEPT, x), s[0]).x == s[0] - (if |s| == 1 then 0 else if |s| == 2 then 0xC0 else if |s| == 3 then 0xE0 else 0xF0)
  {
    Powers();
  }

  lemma TailBits(s: seq<byte>)
    requires IsChar(s)
    ensures |s| == 1 ==> CodePoint(s) == s[0]
    ensures |s| == 2 ==> CodePoint(s) == s[1] % 64 + (s[0] - 0xC0) as int * 64
    ensures |s| == 3 ==> CodePoint(s) == s[2] % 64 + (s[1] % 64 + (s[0] - 0xE0) as int * 64) * 64
    ensures |s| == 4 ==> CodePoint(s) == s[3] % 64 + (s[2] % 64 + (s[1] % 64 + (s[0] - 0xF0) as int * 64) * 64) * 64
  {
  }

  /** From accepting to accepting over a whole stream there is a first character. */
  lemma FirstChar(x: nat, s: seq<byte>) returns (n: nat)
    requires s != [] && Run(Result(ACCEPT, x), s).state == ACCEPT
    ensures 0 < n <= |s| && IsChar(s[..n])
  {
    n := 1;
    var r := Unroll(Result(ACCEPT, x), s);
    if r.state != ACCEPT {
      n := 2;
      r := Unroll(r, s[1..]);
      if r.state != ACCEPT {
        n := 3;
        assert s[1..][1..] == s[2..];
        r := Unroll(r, s[2..]);
        if r.state != ACCEPT {
          n := 4;
          assert s[2..][1..] == s[3..];
          r := Unroll(r, s[3..]);
        }
      }
    }
  }

  /** A stream that is accepted in the end takes no step to rejection. */
  lemma Unroll(r: Result, s: seq<byte>) returns (next: Result)
    requires r.state < 9 && Run(r, s).state == ACCEPT && (s == [] ==> r.state != ACCEPT)
    ensures s != [] && next == Decode(r, s[0]) && next.state != REJECT && Run(next, s[1..]).state == ACCEPT
  {
    next := Decode(r, s[0]);
    if next.state == REJECT { RejectStays(next, s[1..]); }
  }

  /** The automaton accepts exactly the well-formed streams. */
  lemma {:induction false} AcceptsWellFormed(x: nat, s: seq<byte>)
    ensures Run(Result(ACCEPT, x), s).state == ACCEPT <==> WellFormed(s)
    decreases |s|
  {
    hide IsChar, CodePoint, Decode;
    if s != [] {
      if WellFormed(s) {
        var n :| 0 < n <= |s| && IsChar(s[..n]) && WellFormed(s[n..]);
        RunChar(x, s[..n]);
        RunTwo(Result(ACCEPT, x), s[..n], s[n..]);
        assert s == s[..n] + s[n..];
        AcceptsWellFormed(CodePoint(s[..n]), s[n..]);
      }
      if Run(Result(ACCEPT, x), s).state == ACCEPT {
        var n := FirstChar(x, s);
        RunChar(x, s[..n]);
        RunTwo(Result(ACCEPT, x), s[..n], s[n..]);
        assert s == s[..n] + s[n..];
        AcceptsWellFormed(CodePoint(s[..n]), s[n..]);
      }
    }
  }

  /** After text and one more code point, the automaton accepts and holds this code point. */
  lemma HoldsCodePoint(s: seq<byte>, c: nat)
    requires WellFormed(s) && Scalar(c)
    ensures Run(Result(ACCEPT, 0), s + Encode(c)) == Result(ACCEPT, c)
  {
    AcceptsWellFormed(0, s);
    RunTwo(Result(ACCEPT, 0), s, Encode(c));
    EncodeIsChar(c);
    RunChar(Run(Result(ACCEPT, 0), s).x, Encode(c));
  }

  /** What completes a character that was begun. */
  function Completion(state: nat): seq<byte> {
    match state
    case 2 => [0x80]
    case 3 => [0x80, 0x80]
    case 4 => [0xA0, 0x80]
    case 5 => [0x80, 0x80]
    case 6 => [0x90, 0x80, 0x80]
    case 7 => [0x80, 0x80, 0x80]
    case 8 => [0x80, 0x80, 0x80]
    case _ => []
  }

  lemma Completes(s: Result)
    requires s.state < 9 && s.state != REJECT
    ensures Run(s, Completion(s.state)).state == ACCEPT
  {
    var b := Completion(s.state);
    if |b| > 0 {
      var r := Decode(s, b[0]);
      assert Run(s, b) == Run(r, b[1..]);
      if |b| > 1 {
        var r1 := Decode(r, b[1]);
        assert Run(r, b[1..]) == Run(r1, b[2..]);
        if |b| > 2 {
          assert Run(r1, b[2..]) == Run(Decode(r1, b[2]), b[3..]);
        }
      }
    }
  }

  /** The automaton rejects exactly when nothing could follow that makes the stream well-formed. */
  lemma RejectsHopeless(s: seq<byte>)
    ensures Run(Result(ACCEPT, 0), s).state == REJECT <==> forall more :: !WellFormed(s + more)
  {
    var r := Run(Result(ACCEPT, 0), s);
    if r.state == REJECT {
      forall more ensures !WellFormed(s + more) {
        RunTwo(Result(ACCEPT, 0), s, more);
        RejectStays(r, more);
        AcceptsWellFormed(0, s + more);
      }
    } else {
      var more := Completion(r.state);
      Completes(r);
      RunTwo(Result(ACCEPT, 0), s, more);
      AcceptsWellFormed(0, s + more);
      assert WellFormed(s + more);
    }
  }

  // --- The reader ---------------------------------------------------------------------------

  datatype Error = Ok | EOF | ErrInvalidUTF8

  class Validator {
    var state: nat
    var x: nat
    var input: seq<byte>         // what the reader below still has to give
    ghost var seen: seq<byte>    // what it has given

    ghost predicate Valid()
      reads this
    {
      && state < 9 && state == Run(Result(ACCEPT, 0), seen).state
      && (state != REJECT ==> x == Run(Result(ACCEPT, 0), seen).x)
    }

    constructor (input: seq<byte>)
      ensures Valid() && this.input == input && seen == []
    {
      state, x, this.input, seen := ACCEPT, 0, input, [];
    }

    /** One read from the reader below: any part of what is left, and the end with its last part or
        after it. */
    method ReadBelow(max: nat) returns (p: seq<byte>, eof: bool)
      requires max > 0
      modifies this`input
      ensures p + input == old(input) && |p| <= max
      ensures old(input) != [] ==> p != []
      ensures (eof ==> input == []) && (old(input) == [] ==> eof)
    {
      if input == [] {
        return [], true;
      }
      var n: nat :| 0 < n <= max && n <= |input|;
      p := input[..n];
      input := input[n..];
      eof := *;
      eof := eof && input == [];
    }

    /** Reads and checks. It reports invalid text as soon as nothing could make it valid any more,
        or when the stream ends within a character. */
    method Read(max: nat) returns (p: seq<byte>, err: Error)
      requires Valid() && max > 0
      modifies this
      ensures Valid() && seen == old(seen) + p && p + input == old(input) && (old(input) != [] ==> p != [])
      ensures err == ErrInvalidUTF8 <==> state == REJECT || (err != Ok && state != ACCEPT)
      ensures err == Ok ==> old(input) != []
      ensures err == EOF ==> input == []
      ensures err == ErrInvalidUTF8 && state != REJECT ==> input == []
    {
      var eof;
      p, eof := ReadBelow(max);
      ghost var before := seen;
      var at, cp := Feed(before, p);
      state, x := at, cp;
      seen := seen + p;
      if state == REJECT || (eof && state != ACCEPT) {
        return p, ErrInvalidUTF8;
      }
      return p, if eof then EOF else Ok;
    }

    /** Runs the automaton over `p`, up to the first byte it rejects. */
    method Feed(ghost before: seq<byte>, p: seq<byte>) returns (at: nat, cp: nat)
      requires Valid() && before == seen
      ensures at < 9 && at == Run(Result(ACCEPT, 0), before + p).state
      ensures at != REJECT ==> cp == Run(Result(ACCEPT, 0), before + p).x
    {
      at, cp := state, x;
      RunTwo(Result(ACCEPT, 0), before, p);
      assert before + p[..0] == before;
      if at == REJECT { RejectStays(Run(Result(ACCEPT, 0), before), p); }
      var i := 0;
      while i < |p|
        invariant i <= |p| && at < 9 && at == Run(Result(ACCEPT, 0), before + p[..i]).state
        invariant at != REJECT ==> cp == Run(Result(ACCEPT, 0), before + p[..i]).x
        invariant at == REJECT ==> Run(Result(ACCEPT, 0), before + p).state == REJECT
      {
        FeedOne(before, p, i);
        var r := Decode(Result(at, cp), p[i]);
        at, cp := r.state, r.x;
        i := i + 1;
        if at == REJECT {
          break;
        }
      }
      assert p[..|p|] == p;
    }
  }

  lemma FeedOne(before: seq<byte>, p: seq<byte>, i: nat)
    requires i < |p|
    ensures var r, s := Run(Result(ACCEPT, 0), before + p[..i]), Run(Result(ACCEPT, 0), before + p[..i + 1]);
      && s == Decode(r, p[i]) && (s.state == REJECT ==> Run(Result(ACCEPT, 0), before + p).state == REJECT)
  {
    var m := before + p[..i + 1];
    RunTwo(Result(ACCEPT, 0), before + p[..i], [p[i]]);
    assert m == before + p[..i] + [p[i]];
    RunTwo(Result(ACCEPT, 0), m, p[i + 1..]);
    assert before + p == m + p[i + 1..];
    if Run(Result(ACCEPT, 0), m).state == REJECT { RejectStays(Run(Result(ACCEPT, 0), m), p[i + 1..]); }
  }

  /** However the stream is cut into reads, no error is reported exactly when the whole stream is
      well-formed. */
  method Check(stream: seq<byte>) returns (err: Error)
    ensures err == EOF || err == ErrInvalidUTF8
    ensures err == EOF <==> WellFormed(stream)
  {
    var v := new Validator(stream);
    err := Ok;
    while err == Ok
      invariant v.Valid() && fresh(v) && v.seen + v.input == stream
      invariant err == EOF ==> v.input == [] && v.state == ACCEPT
      invariant err == ErrInvalidUTF8 ==> v.state == REJECT || (v.input == [] && v.state != ACCEPT)
      decreases err == Ok, |v.input|
    {
      var max: nat :| max > 0;
      ghost var seen, input := v.seen, v.input;
      var p;
      p, err := v.Read(max);
      assert seen + p + v.input == seen + (p + v.input);
    }
    AcceptsWellFormed(0, stream);
    if v.state == REJECT {
      RunTwo(Result(ACCEPT, 0), v.seen, v.input);
      RejectStays(Run(Result(ACCEPT, 0), v.seen), v.input);
    } else {
      assert v.seen == stream;
    }
  }
}
