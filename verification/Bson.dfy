/** BSON documents: what the encoder writes (mgo.v2/bson/encode.go), what the decoder makes of bytes
    (mgo.v2/bson/decode.go), and that the one undoes the other. */
module Bson {
  import opened Bytes

  const MAX_SIZE := 0x8000_0000
  const TWO32 := 0x1_0000_0000
  const TWO64 := 0x1_0000_0000_0000_0000
  const NANOS_PER_MILLI := 1_000_000

  /** The values an element can hold. A date is a number of seconds since 1970 and of nanoseconds
      behind it. The scope of JavaScript is given by the elements that are put into it. */
  datatype Value =
    | Double(bits: int)
    | Str(s: seq<byte>)
    | Doc(elems: seq<Elem>)
    | Array(items: seq<Value>)
    | Binary(subtype: byte, data: seq<byte>)
    | Undefined
    | ObjectId(id: seq<byte>)
    | Bool(b: bool)
    | Date(seconds: int, nanos: nat)
    | Nil
    | RegEx(pattern: seq<byte>, options: seq<byte>)
    | DBPointer(namespace: seq<byte>, ref: seq<byte>)
    | JavaScript(code: seq<byte>)
    | Symbol(symbol: seq<byte>)
    | Scoped(source: seq<byte>, scope: seq<Elem>)
    | Int32(i32: int)
    | Timestamp(stamp: int)
    | Int64(i64: int)
    | MinKey
    | MaxKey

  datatype Elem = Elem(name: seq<byte>, value: Value)

  // --- Numbers ------------------------------------------------------------------------------

  /** The low `w` bytes of a number, least significant first. */
  function LittleEndian(n: int, w: nat): (r: seq<byte>)
    ensures |r| == w
    decreases w
  {
    if w == 0 then [] else [n % 256] + LittleEndian(n / 256, w - 1)
  }

  /** Bytes as a signed number in two's complement. */
  function Unsigned(b: seq<byte>): nat {
    if b == [] then 0 else b[0] + 256 * Unsigned(b[1..])
  }

  function Signed(b: seq<byte>): int {
    var u := Unsigned(b);
    if u < Pow256(|b|) / 2 then u else u - Pow256(|b|)
  }

  lemma {:induction false} UnsignedBack(n: int, w: nat)
    requires 0 <= n < Pow256(w)
    ensures Unsigned(LittleEndian(n, w)) == n
  {
    if w > 0 {
      UnsignedBack(n / 256, w - 1);
      assert LittleEndian(n, w)[1..] == LittleEndian(n / 256, w - 1);
    }
  }

  /** Only the remainder modulo the size matters for the bytes. */
  lemma {:induction false} Wraps(n: int, w: nat)
    ensures LittleEndian(n + Pow256(w), w) == LittleEndian(n, w)
    decreases w
  {
    if w > 0 {
      var m := n + Pow256(w);
      assert Pow256(w) == 256 * Pow256(w - 1);
      assert m % 256 == n % 256 && m / 256 == n / 256 + Pow256(w - 1);
      Wraps(n / 256, w - 1);
    }
  }

  /** The byte at `i` counts 256 to the power of the bytes before it, for negative numbers too. */
  lemma {:induction false} LittleEndianAt(n: int, w: nat, i: nat)
    requires i < w
    ensures Pow256(i) > 0 && LittleEndian(n, w)[i] == n / Pow256(i) % 256
    decreases w
  {
    if i > 0 {
      LittleEndianAt(n / 256, w - 1, i - 1);
      Divided(n, 256, Pow256(i - 1));
    }
  }

  lemma SignedBack(n: int, w: nat)
    requires -(Pow256(w) as int) <= 2 * n < Pow256(w) && Pow256(w) % 2 == 0
    ensures Signed(LittleEndian(n, w)) == n
  {
    if n < 0 {
      Wraps(n, w);
      UnsignedBack(n + Pow256(w), w);
    } else {
      UnsignedBack(n, w);
    }
  }

  lemma Sizes()
    ensures Pow256(4) == TWO32 && Pow256(8) == TWO64
  {
    assert Pow256(2) == 65536 && Pow256(4) == TWO32 && Pow256(6) == 0x1_0000_0000_0000;
  }

  predicate Fits32(n: int) {
    -0x8000_0000 <= n < 0x8000_0000
  }

  predicate Fits64(n: int) {
    -0x8000_0000_0000_0000 <= n < 0x8000_0000_0000_0000
  }

  /** The decimal digits of an array index. */
  function Itoa(n: nat): (r: seq<byte>)
    ensures 0 !in r
  {
    if n < 10 then [48 + n] else Itoa(n / 10) + [48 + n % 10]
  }

  /** The number that a text of decimal digits stands for. */
  function Decimal(s: seq<byte>): int {
    if s == [] then 0 else 10 * Decimal(s[..|s| - 1]) + s[|s| - 1] - 48
  }

  /** The text is the number `n` in decimal: digits only, and no zero in front of others. */
  ghost predicate Numbers(s: seq<byte>, n: nat) {
    s != [] && (forall x :: x in s ==> 48 <= x <= 57) && (s[0] == 48 ==> |s| == 1) && Decimal(s) == n
  }

  lemma {:induction false} ItoaNumbers(n: nat)
    ensures Numbers(Itoa(n), n) && (n > 0 ==> Itoa(n)[0] != 48)
  {
    var s := Itoa(n);
    assert s[..|s| - 1] == if n < 10 then [] else Itoa(n / 10);
    if n >= 10 { ItoaNumbers(n / 10); }
  }

  lemma ItoaInjective(m: nat, n: nat)
    requires Itoa(m) == Itoa(n)
    ensures m == n
  {
    ItoaNumbers(m);
    ItoaNumbers(n);
  }

  // --- Dates --------------------------------------------------------------------------------

  function Millis(seconds: int, nanos: nat): int {
    seconds * 1000 + nanos / NANOS_PER_MILLI
  }

  /** Go divides towards zero, and the remainder has the sign of the dividend. */
  function Quotient(a: int, b: int): int
    requires b > 0
  {
    if a >= 0 then a / b else -(-a / b)
  }

  function Remainder(a: int, b: int): int
    requires b > 0
  {
    a - b * Quotient(a, b)
  }

  /** A time from seconds and any number of nanoseconds. */
  function UnixTime(seconds: int, nanos: int): Value {
    Date(seconds + nanos / 1_000_000_000, nanos % 1_000_000_000)
  }

  function DateOf(ms: int): Value {
    if ms == -62135596800000 then Date(-62135596800, 0)
    else UnixTime(Quotient(ms, 1000), Remainder(ms, 1000) * NANOS_PER_MILLI)
  }

  /** A date comes back with its milliseconds. */
  lemma DateBack(seconds: int, nanos: nat)
    requires nanos < 1_000_000_000
    ensures DateOf(Millis(seconds, nanos)) == Date(seconds, nanos - nanos % NANOS_PER_MILLI)
  {
    var m := nanos / NANOS_PER_MILLI;
    var ms := seconds * 1000 + m;
    assert 0 <= m < 1000;
    var q, r := Quotient(ms, 1000), Remainder(ms, 1000);
    assert ms == 1000 * q + r && -1000 < r < 1000;
    assert if r >= 0 then q == seconds && r == m else q == seconds + 1 && r == m - 1000;
  }

  // --- The encoding -------------------------------------------------------------------------

  function Kind(v: Value): byte {
    match v
    case Double(_) => 0x01
    case Str(_) => 0x02
    case Doc(_) => 0x03
    case Array(_) => 0x04
    case Binary(_, _) => 0x05
    case Undefined => 0x06
    case ObjectId(_) => 0x07
    case Bool(_) => 0x08
    case Date(_, _) => 0x09
    case Nil => 0x0A
    case RegEx(_, _) => 0x0B
    case DBPointer(_, _) => 0x0C
    case JavaScript(_) => 0x0D
    case Symbol(_) => 0x0E
    case Scoped(_, _) => 0x0F
    case Int32(_) => 0x10
    case Timestamp(_) => 0x11
    case Int64(_) => 0x12
    case MaxKey => 0x7F
    case MinKey => 0xFF
  }

  function EncStr(s: seq<byte>): seq<byte> {
    LittleEndian(|s| + 1, 4) + s + [0]
  }

  function EncBinary(subtype: byte, data: seq<byte>): seq<byte> {
    if subtype == 2 then LittleEndian(|data| + 4, 4) + [subtype] + LittleEndian(|data|, 4) + data
    else LittleEndian(|data|, 4) + [subtype] + data
  }

  /** A document around its elements: its whole length first, a zero byte last. */
  function Wrapped(body: seq<byte>): seq<byte> {
    LittleEndian(|body| + 5, 4) + body + [0]
  }

  /** JavaScript with its scope: the length of it all comes first. */
  function WithLength(body: seq<byte>): seq<byte> {
    LittleEndian(|body| + 4, 4) + body
  }

  function EncValue(v: Value): seq<byte>
    decreases v, 0
  {
    match v
    case Double(bits) => LittleEndian(bits, 8)
    case Str(s) => EncStr(s)
    case Doc(elems) => Wrapped(EncElems(elems))
    case Array(items) => Wrapped(EncItems(items, 0))
    case Binary(subtype, data) => EncBinary(subtype, data)
    case Undefined => []
    case ObjectId(id) => id
    case Bool(b) => [if b then 1 else 0]
    case Date(seconds, nanos) => LittleEndian(Millis(seconds, nanos), 8)
    case Nil => []
    case RegEx(pattern, options) => pattern + [0] + options + [0]
    case DBPointer(namespace, ref) => EncStr(namespace) + ref
    case JavaScript(code) => EncStr(code)
    case Symbol(symbol) => EncStr(symbol)
    case Scoped(source, scope) => WithLength(EncStr(source) + Wrapped(EncElems(scope)))
    case Int32(i) => LittleEndian(i, 4)
    case Timestamp(i) => LittleEndian(i, 8)
    case Int64(i) => LittleEndian(i, 8)
    case MinKey => []
    case MaxKey => []
  }

  function EncElem(name: seq<byte>, v: Value): seq<byte>
    decreases v, 1
  {
    [Kind(v)] + name + [0] + EncValue(v)
  }

  function EncElems(elems: seq<Elem>): seq<byte>
    decreases elems, 0
  {
    if elems == [] then [] else EncElem(elems[0].name, elems[0].value) + EncElems(elems[1..])
  }

  /** The elements of an array are named by their numbers. */
  function EncItems(items: seq<Value>, k: nat): seq<byte>
    decreases items, 0
  {
    if items == [] then [] else EncElem(Itoa(k), items[0]) + EncItems(items[1..], k + 1)
  }

  function EncDoc(elems: seq<Elem>): seq<byte> {
    Wrapped(EncElems(elems))
  }

  // --- The decoding -------------------------------------------------------------------------

  datatype Fault = Corrupted | UnknownKind | RuntimePanic
  datatype Parse<T> = Done(value: T, next: nat) | Fail(fault: Fault)

  function ReadByte(b: seq<byte>, i: nat): Parse<byte> {
    if i < |b| then Done(b[i], i + 1) else Fail(Corrupted)
  }

  function ReadBytes(b: seq<byte>, i: nat, n: int): (r: Parse<seq<byte>>)
    requires i <= |b|
    ensures r.Done? ==> n >= 0 && r.next == i + n <= |b| && |r.value| == n
  {
    if i + n > |b| then Fail(Corrupted)
    else if n < 0 then Fail(RuntimePanic)
    else Done(b[i..i + n], i + n)
  }

  function ReadInt(b: seq<byte>, i: nat, w: nat): (r: Parse<int>)
    requires i <= |b|
    ensures r.Done? ==> r.next == i + w <= |b|
  {
    var p := ReadBytes(b, i, w);
    if p.Fail? then Fail(p.fault) else Done(Signed(p.value), p.next)
  }

  /** Where the first zero byte is, from `i` on. */
  function FindNul(b: seq<byte>, i: nat): (r: nat)
    requires i <= |b|
    ensures i <= r <= |b| && (r < |b| ==> b[r] == 0)
    decreases |b| - i
  {
    if i == |b| || b[i] == 0 then i else FindNul(b, i + 1)
  }

  function ReadCStr(b: seq<byte>, i: nat): (r: Parse<seq<byte>>)
    requires i <= |b|
    ensures r.Done? ==> i < r.next <= |b|
  {
    var end := FindNul(b, i);
    if end + 1 > |b| then Fail(Corrupted) else Done(b[i..end], end + 1)
  }

  function ReadStr(b: seq<byte>, i: nat): (r: Parse<seq<byte>>)
    requires i <= |b|
    ensures r.Done? ==> i < r.next <= |b|
  {
    var l := ReadInt(b, i, 4);
    if l.Fail? then Fail(l.fault) else
    var s := ReadBytes(b, l.next, if l.value == -0x8000_0000 then 0x7FFF_FFFF else l.value - 1);
    if s.Fail? then Fail(s.fault) else
    var z := ReadByte(b, s.next);
    if z.Fail? then Fail(z.fault) else if z.value != 0 then Fail(Corrupted) else Done(s.value, z.next)
  }

  function ReadBinary(b: seq<byte>, i: nat): (r: Parse<Value>)
    requires i <= |b|
    ensures r.Done? ==> i < r.next <= |b|
  {
    var l := ReadInt(b, i, 4);
    if l.Fail? then Fail(l.fault) else
    var k := ReadByte(b, l.next);
    if k.Fail? then Fail(k.fault) else
    var d := ReadBytes(b, k.next, l.value);
    if d.Fail? then Fail(d.fault) else
    // Binaries of the generic and of the obsolete kind both become plain byte slices.
    var data := if k.value == 2 && |d.value| >= 4 then d.value[4..] else d.value;
    Done(Binary(if k.value == 2 then 0 else k.value, data), d.next)
  }

  function ReadRegEx(b: seq<byte>, i: nat): (r: Parse<Value>)
    requires i <= |b|
    ensures r.Done? ==> i < r.next <= |b|
  {
    var p := ReadCStr(b, i);
    if p.Fail? then Fail(p.fault) else
    var o := ReadCStr(b, p.next);
    if o.Fail? then Fail(o.fault) else Done(RegEx(p.value, o.value), o.next)
  }

  function ReadDBPointer(b: seq<byte>, i: nat): (r: Parse<Value>)
    requires i <= |b|
    ensures r.Done? ==> i < r.next <= |b|
  {
    var n := ReadStr(b, i);
    if n.Fail? then Fail(n.fault) else
    var ref := ReadBytes(b, n.next, 12);
    if ref.Fail? then Fail(ref.fault) else Done(DBPointer(n.value, ref.value), ref.next)
  }

  function MapParse<S, T>(p: Parse<S>, f: S -> T): (r: Parse<T>)
    ensures r.Done? == p.Done? && (r.Done? ==> r.next == p.next && r.value == f(p.value))
    ensures p.Fail? ==> r == Fail(p.fault)
  {
    if p.Fail? then Fail(p.fault) else Done(f(p.value), p.next)
  }

  /** A value without parts that are documents. */
  function ReadSimple(b: seq<byte>, i: nat, kind: byte): (r: Parse<Value>)
    requires i <= |b|
    ensures r.Done? ==> i <= r.next <= |b|
  {
    if kind == 0x01 then MapParse(ReadInt(b, i, 8), n => Double(n))
    else if kind == 0x02 then MapParse(ReadStr(b, i), s => Str(s))
    else if kind == 0x05 then ReadBinary(b, i)
    else if kind == 0x06 then Done(Undefined, i)
    else if kind == 0x07 then MapParse(ReadBytes(b, i, 12), id => ObjectId(id))
    else if kind == 0x08 then MapParse(ReadByte(b, i), x => Bool(x == 1))
    else if kind == 0x09 then MapParse(ReadInt(b, i, 8), n => DateOf(n))
    else if kind == 0x0A then Done(Nil, i)
    else if kind == 0x0B then ReadRegEx(b, i)
    else if kind == 0x0C then ReadDBPointer(b, i)
    else if kind == 0x0D then MapParse(ReadStr(b, i), s => JavaScript(s))
    else if kind == 0x0E then MapParse(ReadStr(b, i), s => Symbol(s))
    else if kind == 0x10 then MapParse(ReadInt(b, i, 4), n => Int32(n))
    else if kind == 0x11 then MapParse(ReadInt(b, i, 8), n => Timestamp(n))
    else if kind == 0x12 then MapParse(ReadInt(b, i, 8), n => Int64(n))
    else if kind == 0x7F then Done(MaxKey, i)
    else if kind == 0xFF then Done(MinKey, i)
    else Fail(UnknownKind)
  }

  /** The end that the length of a document at `i` announces. */
  function ReadEnd(b: seq<byte>, i: nat): (r: Parse<nat>)
    requires i <= |b|
    ensures r.Done? ==> r.next == i + 4 < r.value <= |b|
  {
    var l := ReadInt(b, i, 4);
    if l.Fail? then Fail(l.fault) else
    var end := l.value + i;
    if end <= l.next || end > |b| || b[end - 1] != 0 then Fail(Corrupted) else Done(end, l.next)
  }

  function ReadValue(b: seq<byte>, i: nat, kind: byte): (r: Parse<Value>)
    requires i <= |b|
    ensures r.Done? ==> i <= r.next <= |b|
    decreases |b| - i, 3
  {
    if kind == 0x03 then
      var p := ReadDoc(b, i);
      if p.Fail? then Fail(p.fault) else Done(Doc(p.value), p.next)
    else if kind == 0x04 then
      var p := ReadArray(b, i);
      if p.Fail? then Fail(p.fault) else Done(Array(p.value), p.next)
    else if kind == 0x0F then ReadScoped(b, i)
    else ReadSimple(b, i, kind)
  }

  /** JavaScript with its scope. The length in front is skipped. */
  function ReadScoped(b: seq<byte>, i: nat): (r: Parse<Value>)
    requires i <= |b|
    ensures r.Done? ==> i <= r.next <= |b|
    decreases |b| - i, 2
  {
    if i + 4 > |b| then Fail(Corrupted) else
    var s := ReadStr(b, i + 4);
    if s.Fail? then Fail(s.fault) else
    var p := ReadDoc(b, s.next);
    if p.Fail? then Fail(p.fault) else Done(Scoped(s.value, p.value), p.next)
  }

  function ReadDoc(b: seq<byte>, i: nat): (r: Parse<seq<Elem>>)
    requires i <= |b|
    ensures r.Done? ==> i + 4 < r.next <= |b|
    decreases |b| - i, 2
  {
    var e := ReadEnd(b, i);
    if e.Fail? then Fail(e.fault) else
    var p := ReadElems(b, e.next, e.value);
    if p.Fail? then Fail(p.fault) else
    if p.next + 1 != e.value then Fail(Corrupted) else Done(p.value, p.next + 1)
  }

  function ReadArray(b: seq<byte>, i: nat): (r: Parse<seq<Value>>)
    requires i <= |b|
    ensures r.Done? ==> i + 4 < r.next <= |b|
    decreases |b| - i, 2
  {
    var e := ReadEnd(b, i);
    if e.Fail? then Fail(e.fault) else
    var p := ReadItems(b, e.next, e.value);
    if p.Fail? then Fail(p.fault) else
    if p.next + 1 != e.value then Fail(Corrupted) else Done(p.value, p.next + 1)
  }

  /** The elements up to a zero byte where a kind could be. */
  function ReadElems(b: seq<byte>, i: nat, end: nat): (r: Parse<seq<Elem>>)
    requires i < end <= |b|
    ensures r.Done? ==> i <= r.next < end
    decreases |b| - i, 1
  {
    if b[i] == 0 then Done([], i) else
    var n := ReadCStr(b, i + 1);
    if n.Fail? then Fail(n.fault) else if n.next >= end then Fail(Corrupted) else
    var v := ReadValue(b, n.next, b[i]);
    if v.Fail? then Fail(v.fault) else if v.next >= end then Fail(Corrupted) else
    var rest := ReadElems(b, v.next, end);
    if rest.Fail? then Fail(rest.fault) else Done([Elem(n.value, v.value)] + rest.value, rest.next)
  }

  /** The items of an array; their names are skipped. */
  function ReadItems(b: seq<byte>, i: nat, end: nat): (r: Parse<seq<Value>>)
    requires i < end <= |b|
    ensures r.Done? ==> i <= r.next < end
    decreases |b| - i, 1
  {
    if b[i] == 0 then Done([], i) else
    var n := FindNul(b, i + 1);
    if n >= end then Fail(Corrupted) else
    var v := ReadValue(b, n + 1, b[i]);
    if v.Fail? then Fail(v.fault) else if v.next >= end then Fail(Corrupted) else
    var rest := ReadItems(b, v.next, end);
    if rest.Fail? then Fail(rest.fault) else Done([v.value] + rest.value, rest.next)
  }

  // --- The round trip -----------------------------------------------------------------------

  /** What a value can be and come back: numbers in range, no zero byte where one ends the text. */
  ghost predicate ValidValue(v: Value)
    decreases v, 0
  {
    match v
    case Double(bits) => Fits64(bits)
    case Doc(elems) => ValidElems(elems)
    case Array(items) => ValidItems(items)
    case Scoped(_, scope) => ValidElems(scope)
    case ObjectId(id) => |id| == 12
    case Date(seconds, nanos) => nanos < 1_000_000_000 && Fits64(Millis(seconds, nanos))
    case RegEx(pattern, options) => 0 !in pattern && 0 !in options
    case DBPointer(_, ref) => |ref| == 12
    case Int32(i) => Fits32(i)
    case Timestamp(i) => Fits64(i)
    case Int64(i) => Fits64(i)
    case _ => true
  }

  ghost predicate ValidElems(elems: seq<Elem>)
    decreases elems, 0
  {
    elems == [] || (0 !in elems[0].name && ValidValue(elems[0].value) && ValidElems(elems[1..]))
  }

  ghost predicate ValidItems(items: seq<Value>)
    decreases items, 0
  {
    items == [] || (ValidValue(items[0]) && ValidItems(items[1..]))
  }

  /** What a value comes back as: dates keep whole milliseconds, and binaries of the obsolete kind
      become generic ones. */
  ghost function Norm(v: Value): Value
    decreases v, 0
  {
    match v
    case Doc(elems) => Doc(NormElems(elems))
    case Array(items) => Array(NormItems(items))
    case Scoped(source, scope) => Scoped(source, NormElems(scope))
    case Binary(subtype, data) => Binary(if subtype == 2 then 0 else subtype, data)
    case Date(seconds, nanos) => Date(seconds, nanos - nanos % NANOS_PER_MILLI)
    case _ => v
  }

  ghost function NormElems(elems: seq<Elem>): seq<Elem>
    decreases elems, 0
  {
    if elems == [] then [] else [Elem(elems[0].name, Norm(elems[0].value))] + NormElems(elems[1..])
  }

  ghost function NormItems(items: seq<Value>): seq<Value>
    decreases items, 0
  {
    if items == [] then [] else [Norm(items[0])] + NormItems(items[1..])
  }

  /** The bytes `s` are at position `i`. */
  ghost predicate At(b: seq<byte>, i: nat, s: seq<byte>) {
    i + |s| <= |b| && b[i..i + |s|] == s
  }

  lemma AtParts(b: seq<byte>, i: nat, s: seq<byte>, t: seq<byte>)
    requires At(b, i, s + t)
    ensures At(b, i, s) && At(b, i + |s|, t)
  {
    assert b[i..i + |s + t|][..|s|] == b[i..i + |s|];
    assert b[i..i + |s + t|][|s|..] == b[i + |s|..i + |s| + |t|];
  }

  lemma AtByte(b: seq<byte>, i: nat, x: byte, s: seq<byte>)
    requires At(b, i, [x] + s)
    ensures i < |b| && b[i] == x && At(b, i + 1, s)
  {
    AtParts(b, i, [x], s);
    assert b[i] == b[i..i + 1][0];
  }

  lemma IntBack(b: seq<byte>, i: nat, n: int, w: nat)
    requires At(b, i, LittleEndian(n, w)) && ((w == 4 && Fits32(n)) || (w == 8 && Fits64(n)))
    ensures ReadInt(b, i, w) == Done(n, i + w)
  {
    Sizes();
    SignedBack(n, w);
  }

  lemma {:induction false} NulBack(b: seq<byte>, i: nat, s: seq<byte>)
    requires At(b, i, s + [0]) && 0 !in s
    ensures FindNul(b, i) == i + |s|
    decreases |s|
  {
    AtParts(b, i, s, [0]);
    assert s == [] ==> b[i..i + 1] == [0] && b[i] == b[i..i + 1][0];
    if s != [] {
      assert b[i] == b[i..i + |s|][0] == s[0];
      assert s + [0] == [s[0]] + (s[1..] + [0]);
      AtParts(b, i, [s[0]], s[1..] + [0]);
      NulBack(b, i + 1, s[1..]);
    }
  }

  lemma CStrBack(b: seq<byte>, i: nat, s: seq<byte>)
    requires At(b, i, s + [0]) && 0 !in s
    ensures ReadCStr(b, i) == Done(s, i + |s| + 1)
  {
    NulBack(b, i, s);
    AtParts(b, i, s, [0]);
  }

  lemma StrBack(b: seq<byte>, i: nat, s: seq<byte>)
    requires At(b, i, EncStr(s)) && |s| + 1 < MAX_SIZE
    ensures ReadStr(b, i) == Done(s, i + |EncStr(s)|)
  {
    assert EncStr(s) == LittleEndian(|s| + 1, 4) + (s + [0]);
    AtParts(b, i, LittleEndian(|s| + 1, 4), s + [0]);
    IntBack(b, i, |s| + 1, 4);
    AtParts(b, i + 4, s, [0]);
    assert b[i + 4 + |s|] == b[i + 4 + |s|..i + 4 + |s| + 1][0];
  }

  lemma BinaryParts(b: seq<byte>, i: nat, subtype: byte, more: seq<byte>)
    requires At(b, i, LittleEndian(|more|, 4) + ([subtype] + more)) && |more| < MAX_SIZE
    ensures ReadInt(b, i, 4) == Done(|more|, i + 4)
    ensures i + 5 + |more| <= |b| && b[i + 4] == subtype && b[i + 5..i + 5 + |more|] == more
  {
    hide ReadInt, LittleEndian, At;
    AtParts(b, i, LittleEndian(|more|, 4), [subtype] + more);
    IntBack(b, i, |more|, 4);
    AtByte(b, i + 4, subtype, more);
    AtIs(b, i + 5, more);
  }

  lemma ReadBinaryIs(b: seq<byte>, i: nat, subtype: byte, more: seq<byte>)
    requires i + 5 + |more| <= |b| && ReadInt(b, i, 4) == Done(|more|, i + 4)
    requires b[i + 4] == subtype && b[i + 5..i + 5 + |more|] == more
    ensures ReadBinary(b, i) == Done(Binary(if subtype == 2 then 0 else subtype, if subtype == 2 && |more| >= 4 then more[4..] else more),
                                     i + 5 + |more|)
  {
    hide ReadInt;
  }

  lemma BinaryBack(b: seq<byte>, i: nat, subtype: byte, data: seq<byte>)
    requires At(b, i, EncBinary(subtype, data)) && |data| + 4 < MAX_SIZE
    ensures ReadBinary(b, i) == Done(Norm(Binary(subtype, data)), i + |EncBinary(subtype, data)|)
  {
    hide ReadInt, ReadBinary, LittleEndian, At;
    var more := if subtype == 2 then LittleEndian(|data|, 4) + data else data;
    assert EncBinary(subtype, data) == LittleEndian(|more|, 4) + ([subtype] + more);
    BinaryParts(b, i, subtype, more);
    ReadBinaryIs(b, i, subtype, more);
    assert subtype == 2 ==> more[4..] == data;
  }

  lemma SimpleBack(b: seq<byte>, i: nat, v: Value)
    requires !v.Doc? && !v.Array? && !v.Scoped? && ValidValue(v) && At(b, i, EncValue(v)) && |EncValue(v)| + 5 < MAX_SIZE
    ensures ReadSimple(b, i, Kind(v)) == Done(Norm(v), i + |EncValue(v)|)
  {
    hide ReadSimple, EncValue, ValidValue, Norm, Kind, At;
    if v.Double? || v.Date? || v.Int32? || v.Timestamp? || v.Int64? {
      NumberBack(b, i, v);
    } else {
      OtherBack(b, i, v);
    }
  }

  lemma NumberBack(b: seq<byte>, i: nat, v: Value)
    requires v.Double? || v.Date? || v.Int32? || v.Timestamp? || v.Int64?
    requires ValidValue(v) && At(b, i, EncValue(v))
    ensures ReadSimple(b, i, Kind(v)) == Done(Norm(v), i + |EncValue(v)|)
  {
    hide ReadInt, ReadStr, ReadBinary, ReadCStr, ReadRegEx, ReadDBPointer, LittleEndian, DateOf, Millis, At;
    match v {
      case Double(bits) => IntBack(b, i, bits, 8);
      case Date(seconds, nanos) => IntBack(b, i, Millis(seconds, nanos), 8); DateBack(seconds, nanos);
      case Int32(n) => IntBack(b, i, n, 4);
      case Timestamp(n) => IntBack(b, i, n, 8);
      case Int64(n) => IntBack(b, i, n, 8);
      case _ =>
    }
  }

  lemma OtherBack(b: seq<byte>, i: nat, v: Value)
    requires !v.Doc? && !v.Array? && !v.Scoped? && !(v.Double? || v.Date? || v.Int32? || v.Timestamp? || v.Int64?)
    requires ValidValue(v) && At(b, i, EncValue(v)) && |EncValue(v)| + 5 < MAX_SIZE
    ensures ReadSimple(b, i, Kind(v)) == Done(Norm(v), i + |EncValue(v)|)
  {
    hide ReadInt, ReadStr, ReadBinary, ReadCStr, LittleEndian, EncStr, EncBinary, DateOf, Millis;
    match v {
      case Str(s) => EncStrSize(s); StrBack(b, i, s);
      case Binary(subtype, data) => EncBinarySize(subtype, data); BinaryBack(b, i, subtype, data);
      case Bool(x) => assert b[i] == b[i..i + 1][0];
      case RegEx(pattern, options) =>
        assert pattern + [0] + options + [0] == (pattern + [0]) + (options + [0]);
        AtParts(b, i, pattern + [0], options + [0]);
        CStrBack(b, i, pattern);
        CStrBack(b, i + |pattern| + 1, options);
      case DBPointer(namespace, ref) =>
        EncStrSize(namespace);
        AtParts(b, i, EncStr(namespace), ref);
        StrBack(b, i, namespace);
      case JavaScript(s) => EncStrSize(s); StrBack(b, i, s);
      case Symbol(s) => EncStrSize(s); StrBack(b, i, s);
      case _ =>
    }
  }

  lemma EncStrSize(s: seq<byte>)
    ensures |EncStr(s)| == |s| + 5
  {
  }

  lemma EncBinarySize(subtype: byte, data: seq<byte>)
    ensures |EncBinary(subtype, data)| == |data| + if subtype == 2 then 9 else 5
  {
  }

  /** The length in front of a document says where its last byte is. */
  lemma EndBack(b: seq<byte>, i: nat, body: seq<byte>)
    requires At(b, i, Wrapped(body)) && |Wrapped(body)| < MAX_SIZE
    ensures ReadEnd(b, i) == Done(i + |Wrapped(body)|, i + 4)
    ensures At(b, i + 4, body + [0]) && |Wrapped(body)| == |body| + 5
  {
    assert Wrapped(body) == LittleEndian(|body| + 5, 4) + (body + [0]);
    AtParts(b, i, LittleEndian(|body| + 5, 4), body + [0]);
    IntBack(b, i, |body| + 5, 4);
    AtParts(b, i + 4, body, [0]);
    assert b[i + 4 + |body|] == b[i + 4 + |body|..i + 5 + |body|][0];
  }

  lemma {:induction false} ValueBack(b: seq<byte>, i: nat, v: Value)
    requires ValidValue(v) && At(b, i, EncValue(v)) && |EncValue(v)| + 5 < MAX_SIZE
    ensures ReadValue(b, i, Kind(v)) == Done(Norm(v), i + |EncValue(v)|)
    decreases v, 0
  {
    hide ReadEnd, ReadSimple, ReadItems, EncItems, Wrapped, At;
    match v {
      case Doc(elems) => DocBack(b, i, elems);
      case Array(items) =>
        var body := EncItems(items, 0);
        EndBack(b, i, body);
        ItemsBack(b, i + 4, items, 0, i + |Wrapped(body)|);
      case Scoped(source, scope) => ScopedBack(b, i, source, scope);
      case _ => SimpleBack(b, i, v);
    }
  }

  lemma {:induction false} ScopedBack(b: seq<byte>, i: nat, source: seq<byte>, scope: seq<Elem>)
    requires ValidElems(scope) && At(b, i, WithLength(EncStr(source) + EncDoc(scope)))
    requires |EncStr(source) + EncDoc(scope)| + 9 < MAX_SIZE
    ensures ReadScoped(b, i) == Done(Scoped(source, NormElems(scope)), i + 4 + |EncStr(source)| + |EncDoc(scope)|)
    decreases scope, 2
  {
    hide ReadStr, ReadDoc, EncStr, EncDoc, NormElems, WithLength, At, ValidElems;
    ScopedParts(b, i, source, EncDoc(scope));
    DocBack(b, i + 4 + |EncStr(source)|, scope);
  }

  lemma ScopedParts(b: seq<byte>, i: nat, source: seq<byte>, doc: seq<byte>)
    requires At(b, i, WithLength(EncStr(source) + doc)) && |EncStr(source)| < MAX_SIZE
    ensures i + 4 <= |b| && ReadStr(b, i + 4) == Done(source, i + 4 + |EncStr(source)|)
    ensures At(b, i + 4 + |EncStr(source)|, doc)
  {
    hide ReadStr, EncStr, LittleEndian, At;
    AtParts(b, i, LittleEndian(|EncStr(source) + doc| + 4, 4), EncStr(source) + doc);
    AtParts(b, i + 4, EncStr(source), doc);
    EncStrSize(source);
    AtIs(b, i, LittleEndian(|EncStr(source) + doc| + 4, 4));
    StrBack(b, i + 4, source);
  }

  lemma AtIs(b: seq<byte>, i: nat, s: seq<byte>)
    requires At(b, i, s)
    ensures i + |s| <= |b| && b[i..i + |s|] == s
  {
  }

  lemma {:induction false} DocBack(b: seq<byte>, i: nat, elems: seq<Elem>)
    requires ValidElems(elems) && At(b, i, EncDoc(elems)) && |EncDoc(elems)| < MAX_SIZE
    ensures ReadDoc(b, i) == Done(NormElems(elems), i + |EncDoc(elems)|)
    decreases elems, 1
  {
    hide ReadEnd, ReadElems, EncElems, NormElems, Wrapped, At;
    var body := EncElems(elems);
    EndBack(b, i, body);
    ElemsBack(b, i + 4, elems, i + |Wrapped(body)|);
  }

  lemma Regroup4(kind: seq<byte>, name: seq<byte>, value: seq<byte>, rest: seq<byte>)
    ensures kind + name + [0] + value + rest == kind + ((name + [0]) + (value + rest))
  {
  }

  /** Reading one element that is there: its kind, its name and its value. */
  lemma ElemParts(b: seq<byte>, i: nat, name: seq<byte>, v: Value, rest: seq<byte>)
    requires At(b, i, EncElem(name, v) + rest)
    ensures b[i] == Kind(v) != 0 && At(b, i + 1, name + [0]) && At(b, i + |name| + 2, EncValue(v))
    ensures At(b, i + |EncElem(name, v)|, rest) && |EncElem(name, v)| == |name| + 2 + |EncValue(v)|
  {
    var value := EncValue(v);
    hide EncValue, At;
    Regroup4([Kind(v)], name, value, rest);
    AtByte(b, i, Kind(v), (name + [0]) + (value + rest));
    AtParts(b, i + 1, name + [0], value + rest);
    AtParts(b, i + |name| + 2, value, rest);
  }

  lemma {:induction false} ElemsBack(b: seq<byte>, i: nat, elems: seq<Elem>, end: nat)
    requires ValidElems(elems) && At(b, i, EncElems(elems) + [0]) && |EncElems(elems)| + 5 < MAX_SIZE
    requires i + |EncElems(elems)| < end <= |b|
    ensures ReadElems(b, i, end) == Done(NormElems(elems), i + |EncElems(elems)|)
    decreases elems, 0
  {
    hide ReadValue, ReadCStr, EncElem, EncValue, At, Kind, ValidValue, Norm;
    if elems == [] {
      assert EncElems(elems) + [0] == [0] + [];
      AtByte(b, i, 0, []);
    } else {
      var name, v, rest := elems[0].name, elems[0].value, elems[1..];
      assert EncElems(elems) + [0] == EncElem(name, v) + (EncElems(rest) + [0]);
      ElemParts(b, i, name, v, EncElems(rest) + [0]);
      CStrBack(b, i + 1, name);
      ValueBack(b, i + |name| + 2, v);
      ElemsBack(b, i + |EncElem(name, v)|, rest, end);
    }
  }

  lemma ReadItemsStep(b: seq<byte>, i: nat, end: nat, n: nat, v: Value, m: nat, rest: seq<Value>, q: nat)
    requires i < end <= |b| && b[i] != 0 && FindNul(b, i + 1) == n < end
    requires ReadValue(b, n + 1, b[i]) == Done(v, m) && m < end && ReadItems(b, m, end) == Done(rest, q)
    ensures ReadItems(b, i, end) == Done([v] + rest, q)
  {
    hide ReadValue, FindNul;
  }

  lemma {:induction false} ItemsBack(b: seq<byte>, i: nat, items: seq<Value>, k: nat, end: nat)
    requires ValidItems(items) && At(b, i, EncItems(items, k) + [0]) && |EncItems(items, k)| + 5 < MAX_SIZE
    requires i + |EncItems(items, k)| < end <= |b|
    ensures ReadItems(b, i, end) == Done(NormItems(items), i + |EncItems(items, k)|)
    decreases items, 0
  {
    hide ReadValue, EncElem, EncValue, Itoa, At, Kind, FindNul, ValidValue, Norm;
    if items == [] {
      assert EncItems(items, k) + [0] == [0] + [];
      AtByte(b, i, 0, []);
    } else {
      var name, v, rest := Itoa(k), items[0], items[1..];
      ItemParts(b, i, items, k);
      ValueBack(b, i + |name| + 2, v);
      var next, last := i + |EncElem(name, v)|, i + |EncItems(items, k)|;
      ItemsBack(b, next, rest, k + 1, end);
      ReadItemsStep(b, i, end, i + 1 + |name|, Norm(v), next, NormItems(rest), last);
    }
  }

  lemma ItemParts(b: seq<byte>, i: nat, items: seq<Value>, k: nat)
    requires items != [] && At(b, i, EncItems(items, k) + [0])
    ensures var name, v, tail := Itoa(k), items[0], EncItems(items[1..], k + 1);
      && |EncElem(name, v)| == |name| + 2 + |EncValue(v)| && |EncItems(items, k)| == |EncElem(name, v)| + |tail|
      && i + |EncItems(items, k)| < |b| && b[i] == Kind(v) != 0 && FindNul(b, i + 1) == i + 1 + |name|
      && At(b, i + |name| + 2, EncValue(v)) && At(b, i + |EncElem(name, v)|, tail + [0])
  {
    hide FindNul, EncElem, EncValue, Itoa, Kind;
    var name, v, tail := Itoa(k), items[0], EncItems(items[1..], k + 1);
    assert EncItems(items, k) + [0] == EncElem(name, v) + (tail + [0]);
    ElemParts(b, i, name, v, tail + [0]);
    NulBack(b, i + 1, name);
  }

  /** Decoding what the encoder wrote, wherever it lies, gives the document back and consumes
      exactly its bytes. */
  lemma RoundTrip(before: seq<byte>, elems: seq<Elem>, behind: seq<byte>)
    requires ValidElems(elems) && |EncDoc(elems)| < MAX_SIZE
    ensures ReadDoc(before + EncDoc(elems) + behind, |before|) == Done(NormElems(elems), |before| + |EncDoc(elems)|)
  {
    var b := before + EncDoc(elems) + behind;
    assert b[|before|..|before| + |EncDoc(elems)|] == EncDoc(elems);
    DocBack(b, |before|, elems);
  }

  /** The items of an array with the names they get, from number `k` on. */
  ghost function Named(items: seq<Value>, k: nat): (r: seq<Elem>)
    ensures |r| == |items|
    decreases items
  {
    if items == [] then [] else [Elem(Itoa(k), items[0])] + Named(items[1..], k + 1)
  }

  lemma {:induction false} NamedAre(items: seq<Value>, k: nat)
    requires ValidItems(items)
    ensures ValidElems(Named(items, k)) && EncItems(items, k) == EncElems(Named(items, k))
    decreases items
  {
    if items != [] {
      NamedAre(items[1..], k + 1);
      assert Named(items, k)[1..] == Named(items[1..], k + 1);
    }
  }

  lemma {:induction false} NamedAt(items: seq<Value>, k: nat, i: nat)
    requires i < |items|
    ensures var r := NormElems(Named(items, k)); |r| == |items| && r[i] == Elem(Itoa(k + i), Norm(items[i]))
    decreases items
  {
    assert Named(items, k)[1..] == Named(items[1..], k + 1);
    if |items| > 1 {
      NamedAt(items[1..], k + 1, if i > 0 then i - 1 else 0);
    } else {
      assert NormElems(Named(items, k)[1..]) == [];
    }
  }

  /** An array is a document whose names are the numbers of the items, in decimal and in order. */
  lemma ArrayIsDocument(before: seq<byte>, items: seq<Value>, behind: seq<byte>)
    requires ValidItems(items) && |EncValue(Array(items))| < MAX_SIZE
    ensures var p := ReadDoc(before + EncValue(Array(items)) + behind, |before|);
      && p.Done? && p.next == |before| + |EncValue(Array(items))| && |p.value| == |items|
      && forall i :: 0 <= i < |items| ==> Numbers(p.value[i].name, i) && p.value[i].value == Norm(items[i])
  {
    hide ReadDoc, NormElems, ValidElems, ValidItems, Numbers, Norm, EncElems, EncItems, Itoa, Named;
    var elems := Named(items, 0);
    NamedAre(items, 0);
    assert EncValue(Array(items)) == EncDoc(elems);
    RoundTrip(before, elems, behind);
    if items == [] { NoElems(elems); }
    forall i | 0 <= i < |items|
      ensures |NormElems(elems)| == |items| && Numbers(NormElems(elems)[i].name, i) && NormElems(elems)[i].value == Norm(items[i])
    {
      NamedAt(items, 0, i);
      ItoaNumbers(i);
    }
    assert items != [] ==> |NormElems(elems)| == |items| by { if items != [] { NamedAt(items, 0, 0); } }
  }

  lemma NoElems(elems: seq<Elem>)
    ensures elems == [] ==> NormElems(elems) == []
  {
  }

  /** The values that come back as they were. */
  ghost predicate Exact(v: Value)
    decreases v, 0
  {
    match v
    case Doc(elems) => ExactElems(elems)
    case Array(items) => ExactItems(items)
    case Scoped(_, scope) => ExactElems(scope)
    case Binary(subtype, _) => subtype != 2
    case Date(_, nanos) => nanos % NANOS_PER_MILLI == 0
    case _ => true
  }

  ghost predicate ExactElems(elems: seq<Elem>)
    decreases elems, 0
  {
    elems == [] || (Exact(elems[0].value) && ExactElems(elems[1..]))
  }

  ghost predicate ExactItems(items: seq<Value>)
    decreases items, 0
  {
    items == [] || (Exact(items[0]) && ExactItems(items[1..]))
  }

  lemma {:induction false} NormExact(v: Value)
    ensures Norm(v) == v <==> Exact(v)
    decreases v, 0
  {
    match v {
      case Doc(elems) => NormElemsExact(elems);
      case Array(items) => NormItemsExact(items);
      case Scoped(_, scope) => NormElemsExact(scope);
      case _ =>
    }
  }

  lemma {:induction false} NormElemsExact(elems: seq<Elem>)
    ensures NormElems(elems) == elems <==> ExactElems(elems)
    decreases elems, 0
  {
    if elems != [] {
      NormExact(elems[0].value);
      NormElemsExact(elems[1..]);
      var r := NormElems(elems);
      assert r[0] == Elem(elems[0].name, Norm(elems[0].value)) && r[1..] == NormElems(elems[1..]);
      assert elems == [elems[0]] + elems[1..];
    }
  }

  lemma {:induction false} NormItemsExact(items: seq<Value>)
    ensures NormItems(items) == items <==> ExactItems(items)
    decreases items, 0
  {
    if items != [] {
      NormExact(items[0]);
      NormItemsExact(items[1..]);
      var r := NormItems(items);
      assert r[0] == Norm(items[0]) && r[1..] == NormItems(items[1..]);
      assert items == [items[0]] + items[1..];
    }
  }

  /** A document comes back unchanged exactly when its dates are whole milliseconds and it holds no
      binary of the obsolete kind. */
  lemma RoundTripExact(elems: seq<Elem>)
    requires ValidElems(elems) && |EncDoc(elems)| < MAX_SIZE
    ensures ReadDoc(EncDoc(elems), 0) == Done(elems, |EncDoc(elems)|) <==> ExactElems(elems)
  {
    hide EncDoc, ReadDoc, NormElems, ExactElems, ValidElems;
    RoundTrip([], elems, []);
    assert [] + EncDoc(elems) + [] == EncDoc(elems);
    NormElemsExact(elems);
  }

  /** A document that was cut off anywhere is refused: its length says that more should come. */
  lemma TruncatedRefused(elems: seq<Elem>, n: nat)
    requires |EncDoc(elems)| < MAX_SIZE && n < |EncDoc(elems)|
    ensures ReadDoc(EncDoc(elems)[..n], 0) == Fail(Corrupted)
  {
    var b, body := EncDoc(elems)[..n], EncElems(elems);
    if n >= 4 {
      assert b[..4] == LittleEndian(|body| + 5, 4);
      IntBack(b, 0, |body| + 5, 4);
    }
  }

  // --- Lengths that make the decoder panic --------------------------------------------------

  /** The length in front of a text or of a binary. */
  datatype Field = Field(at: nat, text: bool)

  /** The length is there and is too small: the slice it bounds would end before it begins. The
      length of a text counts the zero byte at its end, and wraps around below the smallest number. */
  predicate Bad(b: seq<byte>, f: Field) {
    && f.at + 4 <= |b|
    && var l := Signed(b[f.at..f.at + 4]);
      if f.text then -0x8000_0000 < l <= 0 else l < 0 && f.at + 4 < |b|
  }

  /** The lengths that the decoder comes to in a value, in a document, and in lists of elements. */
  function FieldsOf(b: seq<byte>, i: nat, kind: byte): set<Field>
    requires i <= |b|
    decreases |b| - i, 3
  {
    if kind == 0x03 then DocFields(b, i)
    else if kind == 0x04 then ArrayFields(b, i)
    else if kind in {0x02, 0x0C, 0x0D, 0x0E} then {Field(i, true)}
    else if kind == 0x05 then {Field(i, false)}
    else if kind == 0x0F then ScopedFields(b, i)
    else {}
  }

  function ScopedFields(b: seq<byte>, i: nat): set<Field>
    requires i <= |b|
    decreases |b| - i, 2
  {
    if i + 4 > |b| then {} else
    var s := ReadStr(b, i + 4);
    {Field(i + 4, true)} + if s.Fail? then {} else DocFields(b, s.next)
  }

  function DocFields(b: seq<byte>, i: nat): set<Field>
    requires i <= |b|
    decreases |b| - i, 2
  {
    var e := ReadEnd(b, i);
    if e.Fail? then {} else ElemFields(b, e.next, e.value)
  }

  function ArrayFields(b: seq<byte>, i: nat): set<Field>
    requires i <= |b|
    decreases |b| - i, 2
  {
    var e := ReadEnd(b, i);
    if e.Fail? then {} else ItemFields(b, e.next, e.value)
  }

  function ElemFields(b: seq<byte>, i: nat, end: nat): set<Field>
    requires i < end <= |b|
    decreases |b| - i, 1
  {
    if b[i] == 0 then {} else
    var n := ReadCStr(b, i + 1);
    if n.Fail? || n.next >= end then {} else
    var v := ReadValue(b, n.next, b[i]);
    FieldsOf(b, n.next, b[i]) + if v.Fail? || v.next >= end then {} else ElemFields(b, v.next, end)
  }

  function ItemFields(b: seq<byte>, i: nat, end: nat): set<Field>
    requires i < end <= |b|
    decreases |b| - i, 1
  {
    if b[i] == 0 then {} else
    var n := FindNul(b, i + 1);
    if n >= end then {} else
    var v := ReadValue(b, n + 1, b[i]);
    FieldsOf(b, n + 1, b[i]) + if v.Fail? || v.next >= end then {} else ItemFields(b, v.next, end)
  }

  ghost predicate AnyBad(b: seq<byte>, fields: set<Field>) {
    exists f :: f in fields && Bad(b, f)
  }

  lemma AnyBadIn(b: seq<byte>, some: set<Field>, more: set<Field>)
    ensures AnyBad(b, some + more) <==> AnyBad(b, some) || AnyBad(b, more)
  {
    if AnyBad(b, some) {
      var f :| f in some && Bad(b, f);
      assert f in some + more;
    } else if AnyBad(b, more) {
      var f :| f in more && Bad(b, f);
      assert f in some + more;
    }
  }

  lemma OneBad(b: seq<byte>, f: Field)
    ensures AnyBad(b, {f}) <==> Bad(b, f)
    ensures !AnyBad(b, {})
  {
    assert f in {f};
  }

  lemma StrPanics(b: seq<byte>, i: nat)
    requires i <= |b|
    ensures ReadStr(b, i) == Fail(RuntimePanic) <==> Bad(b, Field(i, true))
  {
    Sizes();
  }

  lemma BinaryPanics(b: seq<byte>, i: nat)
    requires i <= |b|
    ensures ReadBinary(b, i) == Fail(RuntimePanic) <==> Bad(b, Field(i, false))
  {
    hide Signed;
  }

  lemma {:induction false} ValuePanics(b: seq<byte>, i: nat, kind: byte)
    requires i <= |b|
    ensures ReadValue(b, i, kind) == Fail(RuntimePanic) <==> AnyBad(b, FieldsOf(b, i, kind))
    decreases |b| - i, 3
  {
    hide ReadStr, ReadBinary, Bad, AnyBad, ReadDoc, ReadArray, ReadScoped, DocFields, ArrayFields, ScopedFields, Signed;
    if kind == 0x03 {
      DocPanics(b, i);
    } else if kind == 0x04 {
      ArrayPanics(b, i);
    } else if kind == 0x0F {
      ScopedPanics(b, i);
    } else {
      StrPanics(b, i);
      BinaryPanics(b, i);
      OneBad(b, Field(i, true));
      OneBad(b, Field(i, false));
    }
  }

  lemma {:induction false} ScopedPanics(b: seq<byte>, i: nat)
    requires i <= |b|
    ensures ReadScoped(b, i) == Fail(RuntimePanic) <==> AnyBad(b, ScopedFields(b, i))
    decreases |b| - i, 2
  {
    hide ReadStr, AnyBad, Bad, ReadDoc, DocFields;
    OneBad(b, Field(i + 4, true));
    if i + 4 <= |b| {
      StrPanics(b, i + 4);
      var s := ReadStr(b, i + 4);
      if s.Done? { DocPanics(b, s.next); }
      AnyBadIn(b, {Field(i + 4, true)}, if s.Fail? then {} else DocFields(b, s.next));
    }
  }

  /** Decoding a document panics exactly when it comes to a length that is too small. */
  lemma {:induction false} DocPanics(b: seq<byte>, i: nat)
    requires i <= |b|
    ensures ReadDoc(b, i) == Fail(RuntimePanic) <==> AnyBad(b, DocFields(b, i))
    decreases |b| - i, 2
  {
    hide AnyBad, ReadElems, ElemFields, Signed;
    OneBad(b, Field(i, true));
    var e := ReadEnd(b, i);
    if e.Done? { ElemsPanic(b, e.next, e.value); }
  }

  lemma {:induction false} ArrayPanics(b: seq<byte>, i: nat)
    requires i <= |b|
    ensures ReadArray(b, i) == Fail(RuntimePanic) <==> AnyBad(b, ArrayFields(b, i))
    decreases |b| - i, 2
  {
    hide AnyBad, ReadItems, ItemFields, Signed;
    OneBad(b, Field(i, true));
    var e := ReadEnd(b, i);
    if e.Done? { ItemsPanic(b, e.next, e.value); }
  }

  lemma {:induction false} ElemsPanic(b: seq<byte>, i: nat, end: nat)
    requires i < end <= |b|
    ensures ReadElems(b, i, end) == Fail(RuntimePanic) <==> AnyBad(b, ElemFields(b, i, end))
    decreases |b| - i, 1
  {
    hide AnyBad, ReadValue, FieldsOf, FindNul;
    OneBad(b, Field(i, true));
    if b[i] != 0 {
      var n := ReadCStr(b, i + 1);
      if n.Done? && n.next < end {
        var v := ReadValue(b, n.next, b[i]);
        ValuePanics(b, n.next, b[i]);
        var rest := if v.Fail? || v.next >= end then {} else ElemFields(b, v.next, end);
        if v.Done? && v.next < end { ElemsPanic(b, v.next, end); }
        AnyBadIn(b, FieldsOf(b, n.next, b[i]), rest);
      }
    }
  }

  lemma {:induction false} ItemsPanic(b: seq<byte>, i: nat, end: nat)
    requires i < end <= |b|
    ensures ReadItems(b, i, end) == Fail(RuntimePanic) <==> AnyBad(b, ItemFields(b, i, end))
    decreases |b| - i, 1
  {
    hide AnyBad, ReadValue, FieldsOf, FindNul;
    OneBad(b, Field(i, true));
    if b[i] != 0 {
      var n := FindNul(b, i + 1);
      if n < end {
        var v := ReadValue(b, n + 1, b[i]);
        ValuePanics(b, n + 1, b[i]);
        var rest := if v.Fail? || v.next >= end then {} else ItemFields(b, v.next, end);
        if v.Done? && v.next < end { ItemsPanic(b, v.next, end); }
        AnyBadIn(b, FieldsOf(b, n + 1, b[i]), rest);
      }
    }
  }

  /** A document with a text of length zero. */
  const PANIC_DOC: seq<byte> := [12, 0, 0, 0, 0x02, 97, 0, 0, 0, 0, 0, 0]

  lemma PanicHappens()
    ensures ReadDoc(PANIC_DOC, 0) == Fail(RuntimePanic)
  {
    var b := PANIC_DOC;
    ZeroBytes();
    assert b[0..4] == [12, 0, 0, 0] && b[7..11] == [0, 0, 0, 0];
    assert ReadCStr(b, 5) == Done([97], 7) by { assert FindNul(b, 6) == 6; assert b[5..6] == [97]; }
    ZeroText(b, 7);
    FirstPanics(b, 12, [97], 7);
  }

  /** JavaScript whose source has length zero, behind any four bytes, with a scope or without. */
  lemma ScopedPanicHappens(b: seq<byte>)
    requires |b| == 16 && b[0..4] == [16, 0, 0, 0] && b[4] == 0x0F && b[5] == 97 && b[6] == 0
    requires b[11..15] == [0, 0, 0, 0] && b[15] == 0
    ensures ReadDoc(b, 0) == Fail(RuntimePanic)
  {
    hide ReadElems, ReadValue, ReadStr;
    ZeroBytes();
    assert ReadCStr(b, 5) == Done([97], 7) by { assert FindNul(b, 6) == 6; assert b[5..6] == [97]; }
    ZeroText(b, 11);
    ZeroSource(b, 7);
    FirstPanics(b, 16, [97], 7);
  }

  lemma ZeroText(b: seq<byte>, i: nat)
    requires i + 4 <= |b| && b[i..i + 4] == [0, 0, 0, 0]
    ensures ReadStr(b, i) == Fail(RuntimePanic)
  {
    ZeroBytes();
  }

  lemma ZeroSource(b: seq<byte>, i: nat)
    requires i + 4 <= |b| && ReadStr(b, i + 4) == Fail(RuntimePanic)
    ensures ReadValue(b, i, 0x0F) == Fail(RuntimePanic)
  {
  }

  lemma FirstPanics(b: seq<byte>, end: nat, name: seq<byte>, n: nat)
    requires ReadEnd(b, 0) == Done(end, 4) && b[4] != 0 && ReadCStr(b, 5) == Done(name, n) && n < end
    requires ReadValue(b, n, b[4]) == Fail(RuntimePanic)
    ensures ReadDoc(b, 0) == Fail(RuntimePanic)
  {
  }

  lemma ZeroBytes()
    ensures Signed([0, 0, 0, 0]) == 0 && Signed([12, 0, 0, 0]) == 12 && Signed([16, 0, 0, 0]) == 16
  {
    Sizes();
    assert [0, 0, 0, 0][1..] == [0, 0, 0] && [12, 0, 0, 0][1..] == [0, 0, 0] && [16, 0, 0, 0][1..] == [0, 0, 0];
    assert [0, 0, 0][1..] == [0, 0] && [0, 0][1..] == [0] && [0][1..] == [];
  }
}
