/** The encoder and decoder of BSON documents as they run: the encoder appends to its output and
    fills the length of a document in when the document is finished (mgo.v2/bson/encode.go), the
    decoder moves an index over its input (mgo.v2/bson/decode.go). */
module BsonCodec {
  import opened Bytes
  import opened Bson

  datatype Option<T> = None | Some(value: T)

  /** Whether every object id is twelve bytes long: the encoder panics otherwise. */
  ghost predicate IdsOk(v: Value)
    decreases v, 0
  {
    match v
    case Doc(elems) => ElemIdsOk(elems)
    case Array(items) => ItemIdsOk(items)
    case Scoped(_, scope) => ElemIdsOk(scope)
    case ObjectId(id) => |id| == 12
    case DBPointer(_, ref) => |ref| == 12
    case _ => true
  }

  ghost predicate ElemIdsOk(elems: seq<Elem>)
    decreases elems, 0
  {
    elems == [] || (IdsOk(elems[0].value) && ElemIdsOk(elems[1..]))
  }

  ghost predicate ItemIdsOk(items: seq<Value>)
    decreases items, 0
  {
    items == [] || (IdsOk(items[0]) && ItemIdsOk(items[1..]))
  }

  lemma {:induction false} ElemsNext(elems: seq<Elem>, i: nat)
    requires i < |elems|
    ensures EncElems(elems[..i + 1]) == EncElems(elems[..i]) + EncElem(elems[i].name, elems[i].value)
    ensures ElemIdsOk(elems[..i + 1]) <==> ElemIdsOk(elems[..i]) && IdsOk(elems[i].value)
  {
    hide EncElem, IdsOk;
    var m, n := elems[..i + 1], elems[..i];
    if i > 0 {
      ElemsNext(elems[1..], i - 1);
      assert m[1..] == elems[1..][..i] && n[1..] == elems[1..][..i - 1];
      var a, b, c := EncElem(elems[0].name, elems[0].value), EncElems(n[1..]), EncElem(elems[i].name, elems[i].value);
      assert a + (b + c) == (a + b) + c;
    } else {
      assert n == [] && m[1..] == [] && EncElems(m[1..]) == [];
      assert EncElem(elems[0].name, elems[0].value) + [] == [] + EncElem(elems[0].name, elems[0].value);
    }
  }

  lemma {:induction false} ItemsNext(items: seq<Value>, i: nat, k: nat)
    requires i < |items|
    ensures EncItems(items[..i + 1], k) == EncItems(items[..i], k) + EncElem(Itoa(k + i), items[i])
    ensures ItemIdsOk(items[..i + 1]) <==> ItemIdsOk(items[..i]) && IdsOk(items[i])
  {
    hide EncElem, IdsOk, Itoa;
    var m, n := items[..i + 1], items[..i];
    if i > 0 {
      ItemsNext(items[1..], i - 1, k + 1);
      assert m[1..] == items[1..][..i] && n[1..] == items[1..][..i - 1];
      var a, b, c := EncElem(Itoa(k), items[0]), EncItems(n[1..], k + 1), EncElem(Itoa(k + i), items[i]);
      assert a + (b + c) == (a + b) + c;
    } else {
      assert n == [] && m[1..] == [] && EncItems(m[1..], k + 1) == [];
      assert EncElem(Itoa(k), items[0]) + [] == [] + EncElem(Itoa(k), items[0]);
    }
  }

  class Encoder {
    var out: seq<byte>

    constructor ()
      ensures out == []
    {
      out := [];
    }

    method AddBytes(s: seq<byte>)
      modifies this
      ensures out == old(out) + s
    {
      out := out + s;
    }

    method ReserveInt32() returns (pos: nat)
      modifies this
      ensures pos == |old(out)| && out == old(out) + [0, 0, 0, 0]
    {
      pos := |out|;
      AddBytes([0, 0, 0, 0]);
    }

    method SetInt32(pos: nat, v: int)
      requires pos + 4 <= |out|
      modifies this
      ensures out == old(out)[..pos] + LittleEndian(v, 4) + old(out)[pos + 4..]
    {
      FourBytes(v);
      out := out[pos := v % 256];
      out := out[pos + 1 := v / 256 % 256];
      out := out[pos + 2 := v / 256 / 256 % 256];
      out := out[pos + 3 := v / 256 / 256 / 256 % 256];
    }

    method AddStr(s: seq<byte>)
      modifies this
      ensures out == old(out) + EncStr(s)
    {
      AddBytes(LittleEndian(|s| + 1, 4));
      AddBytes(s);
      AddBytes([0]);
      assert old(out) + LittleEndian(|s| + 1, 4) + s + [0] == old(out) + (LittleEndian(|s| + 1, 4) + s + [0]);
    }

    method AddBinary(subtype: byte, data: seq<byte>)
      modifies this
      ensures out == old(out) + EncBinary(subtype, data)
    {
      hide LittleEndian;
      if subtype == 2 {
        AddBytes(LittleEndian(|data| + 4, 4));
        AddBytes([subtype]);
        AddBytes(LittleEndian(|data|, 4));
        Grouped(old(out), LittleEndian(|data| + 4, 4), [subtype], LittleEndian(|data|, 4), data);
      } else {
        AddBytes(LittleEndian(|data|, 4));
        AddBytes([subtype]);
        Grouped(old(out), LittleEndian(|data|, 4), [subtype], [], data);
        assert LittleEndian(|data|, 4) + [subtype] + [] == LittleEndian(|data|, 4) + [subtype];
      }
      AddBytes(data);
    }

    /** Puts a document around what `body` adds: the length is filled in when its end is known. */
    method AddDoc(elems: seq<Elem>) returns (ok: bool)
      modifies this
      ensures ok == ElemIdsOk(elems)
      ensures ok ==> out == old(out) + EncDoc(elems)
      decreases elems, 1
    {
      var start := ReserveInt32();
      ok := AddElems(elems);
      if !ok {
        return false;
      }
      AddBytes([0]);
      assert out == old(out) + [0, 0, 0, 0] + EncElems(elems) + [0];
      Finish(start, old(out), EncElems(elems));
    }

    /** JavaScript with its scope, behind the length of both. */
    method AddScoped(source: seq<byte>, scope: seq<Elem>) returns (ok: bool)
      modifies this
      ensures ok == ElemIdsOk(scope)
      ensures ok ==> out == old(out) + WithLength(EncStr(source) + EncDoc(scope))
      decreases scope, 2
    {
      hide EncStr, EncDoc, LittleEndian;
      var start := ReserveInt32();
      AddStr(source);
      ok := AddDoc(scope);
      if !ok {
        return false;
      }
      ghost var body := EncStr(source) + EncDoc(scope);
      assert out == old(out) + [0, 0, 0, 0] + body;
      ghost var before := out;
      SetInt32(start, |out| - start);
      assert before[..start] == old(out) && before[start + 4..] == body;
      assert old(out) + LittleEndian(|body| + 4, 4) + body == old(out) + (LittleEndian(|body| + 4, 4) + body);
    }

    method AddArray(items: seq<Value>) returns (ok: bool)
      modifies this
      ensures ok == ItemIdsOk(items)
      ensures ok ==> out == old(out) + Wrapped(EncItems(items, 0))
      decreases items, 1
    {
      var start := ReserveInt32();
      ok := AddItems(items);
      if !ok {
        return false;
      }
      AddBytes([0]);
      Finish(start, old(out), EncItems(items, 0));
    }

    /** Fills in the length of a document that starts at `start`. */
    method Finish(start: nat, ghost before: seq<byte>, ghost body: seq<byte>)
      requires start == |before| && out == before + [0, 0, 0, 0] + body + [0]
      modifies this
      ensures out == before + Wrapped(body)
    {
      SetInt32(start, |out| - start);
      assert old(out)[..start] == before && old(out)[start + 4..] == body + [0];
      assert before + LittleEndian(|body| + 5, 4) + (body + [0]) == before + (LittleEndian(|body| + 5, 4) + body + [0]);
    }

    method AddElems(elems: seq<Elem>) returns (ok: bool)
      modifies this
      ensures ok == ElemIdsOk(elems)
      ensures ok ==> out == old(out) + EncElems(elems)
      decreases elems, 0
    {
      hide EncElem;
      for i := 0 to |elems|
        invariant ElemIdsOk(elems[..i])
        invariant out == old(out) + EncElems(elems[..i])
      {
        ElemsNext(elems, i);
        ok := AddElem(elems[i].name, elems[i].value);
        if !ok {
          if ElemIdsOk(elems) { IdsPrefix(elems, i + 1); }
          return false;
        }
      }
      assert elems[..|elems|] == elems;
      return true;
    }

    method AddItems(items: seq<Value>) returns (ok: bool)
      modifies this
      ensures ok == ItemIdsOk(items)
      ensures ok ==> out == old(out) + EncItems(items, 0)
      decreases items, 0
    {
      hide EncElem;
      for i := 0 to |items|
        invariant ItemIdsOk(items[..i])
        invariant out == old(out) + EncItems(items[..i], 0)
      {
        ItemsNext(items, i, 0);
        ok := AddElem(Itoa(i), items[i]);
        if !ok {
          if ItemIdsOk(items) { ItemIdsPrefix(items, i + 1); }
          return false;
        }
      }
      assert items[..|items|] == items;
      return true;
    }

    method AddElemName(kind: byte, name: seq<byte>)
      modifies this
      ensures out == old(out) + ([kind] + name + [0])
    {
      AddBytes([kind]);
      AddBytes(name);
      AddBytes([0]);
    }

    method AddElem(name: seq<byte>, v: Value) returns (ok: bool)
      modifies this
      ensures ok == IdsOk(v)
      ensures ok ==> out == old(out) + EncElem(name, v)
      decreases v, 2
    {
      hide EncStr, EncBinary, EncDoc, EncItems, LittleEndian;
      if (v.ObjectId? && |v.id| != 12) || (v.DBPointer? && |v.ref| != 12) {
        return false;
      }
      AddElemName(Kind(v), name);
      ok := AddValue(v);
      assert ok ==> old(out) + ([Kind(v)] + name + [0]) + EncValue(v) == old(out) + EncElem(name, v);
    }

    method AddValue(v: Value) returns (ok: bool)
      requires (v.ObjectId? ==> |v.id| == 12) && (v.DBPointer? ==> |v.ref| == 12)
      modifies this
      ensures ok == IdsOk(v)
      ensures ok ==> out == old(out) + EncValue(v)
      decreases v, 1
    {
      hide EncStr, EncBinary, Wrapped, WithLength, EncItems, EncElems, LittleEndian, Millis;
      ok := true;
      match v {
        case Double(bits) => AddBytes(LittleEndian(bits, 8));
        case Str(s) => AddStr(s);
        case Doc(elems) => ok := AddDoc(elems);
        case Array(items) => ok := AddArray(items);
        case Binary(subtype, data) => AddBinary(subtype, data);
        case ObjectId(id) => AddBytes(id);
        case Bool(b) => AddBytes([if b then 1 else 0]);
        case Date(seconds, nanos) => AddBytes(LittleEndian(Millis(seconds, nanos), 8));
        case RegEx(pattern, options) =>
          AddBytes(pattern);
          AddBytes([0]);
          AddBytes(options);
          AddBytes([0]);
          assert old(out) + pattern + [0] + options + [0] == old(out) + (pattern + [0] + options + [0]);
        case DBPointer(namespace, ref) =>
          AddStr(namespace);
          AddBytes(ref);
        case JavaScript(s) => AddStr(s);
        case Symbol(s) => AddStr(s);
        case Scoped(source, scope) => ok := AddScoped(source, scope);
        case Int32(n) => AddBytes(LittleEndian(n, 4));
        case Timestamp(n) => AddBytes(LittleEndian(n, 8));
        case Int64(n) => AddBytes(LittleEndian(n, 8));
        case _ => assert out + [] == out;
      }
    }
  }

  method Marshal(elems: seq<Elem>) returns (ok: bool, out: seq<byte>)
    ensures ok == ElemIdsOk(elems)
    ensures out == if ok then EncDoc(elems) else []
  {
    var e := new Encoder();
    ok := e.AddDoc(elems);
    assert [] + EncDoc(elems) == EncDoc(elems);
    out := if ok then e.out else [];
  }

  /** Decodes a document. `RuntimePanic` is no error that is returned: the panic of the slice goes on
      through the caller. */
  method Unmarshal(b: seq<byte>) returns (fault: Option<Fault>, elems: seq<Elem>)
    ensures fault == Some(RuntimePanic) <==> AnyBad(b, DocFields(b, 0))
    ensures match ReadDoc(b, 0)
      case Done(value, _) => fault == None && elems == value
      case Fail(f) => fault == Some(f)
  {
    hide AnyBad, DocFields, ReadDoc;
    DocPanics(b, 0);
    var d := new Decoder(b);
    fault, elems := d.TakeDoc();
  }

  lemma {:induction false} ValidIds(v: Value)
    requires ValidValue(v)
    ensures IdsOk(v)
    decreases v, 0
  {
    match v {
      case Doc(elems) => ValidElemIds(elems);
      case Array(items) => ValidItemIds(items);
      case Scoped(_, scope) => ValidElemIds(scope);
      case _ =>
    }
  }

  lemma {:induction false} ValidElemIds(elems: seq<Elem>)
    requires ValidElems(elems)
    ensures ElemIdsOk(elems)
    decreases elems, 0
  {
    if elems != [] {
      ValidIds(elems[0].value);
      ValidElemIds(elems[1..]);
    }
  }

  lemma {:induction false} ValidItemIds(items: seq<Value>)
    requires ValidItems(items)
    ensures ItemIdsOk(items)
    decreases items, 0
  {
    if items != [] {
      ValidIds(items[0]);
      ValidItemIds(items[1..]);
    }
  }

  /** What goes through the encoder and then the decoder comes back: exactly, if its dates are whole
      milliseconds and it holds no binary of the obsolete kind. */
  method MarshalUnmarshal(elems: seq<Elem>) returns (ok: bool, fault: Option<Fault>, copy: seq<Elem>)
    requires ValidElems(elems) && |EncDoc(elems)| < MAX_SIZE
    ensures ok && fault == None && copy == NormElems(elems) && (ExactElems(elems) ==> copy == elems)
  {
    hide EncDoc, ReadDoc, NormElems, ValidElems, ElemIdsOk, ExactElems;
    ValidElemIds(elems);
    RoundTrip([], elems, []);
    NormElemsExact(elems);
    var out;
    ok, out := Marshal(elems);
    assert [] + EncDoc(elems) + [] == out;
    fault, copy := Unmarshal(out);
  }

  lemma Grouped(o: seq<byte>, a: seq<byte>, b: seq<byte>, c: seq<byte>, d: seq<byte>)
    ensures o + a + b + c + d == o + (a + b + c + d)
    ensures o + a + b + [] == o + a + b
  {
  }

  lemma FourBytes(v: int)
    ensures LittleEndian(v, 4) == [v % 256, v / 256 % 256, v / 256 / 256 % 256, v / 256 / 256 / 256 % 256]
  {
    assert LittleEndian(v / 256 / 256, 2) == [v / 256 / 256 % 256] + LittleEndian(v / 256 / 256 / 256, 1);
  }

  lemma {:induction false} IdsPrefix(elems: seq<Elem>, n: nat)
    requires n <= |elems| && ElemIdsOk(elems)
    ensures ElemIdsOk(elems[..n])
  {
    if n > 0 {
      IdsPrefix(elems[1..], n - 1);
      assert elems[..n][1..] == elems[1..][..n - 1];
    }
  }

  lemma {:induction false} ItemIdsPrefix(items: seq<Value>, n: nat)
    requires n <= |items| && ItemIdsOk(items)
    ensures ItemIdsOk(items[..n])
  {
    if n > 0 {
      ItemIdsPrefix(items[1..], n - 1);
      assert items[..n][1..] == items[1..][..n - 1];
    }
  }

  class Decoder {
    const b: seq<byte>
    var i: nat

    constructor (b: seq<byte>)
      ensures this.b == b && i == 0
    {
      this.b, i := b, 0;
    }

    /** The outcome of a step agrees with what `p` says about it. */
    ghost predicate Agrees<T>(p: Parse<T>, fault: Option<Fault>, v: T)
      reads this
    {
      match p
      case Done(value, next) => fault == None && v == value && i == next
      case Fail(f) => fault == Some(f)
    }

    method TakeByte() returns (fault: Option<Fault>, x: byte)
      modifies this
      ensures Agrees(ReadByte(b, old(i)), fault, x)
    {
      x := 0;
      var at := i;
      i := i + 1;
      if i > |b| {
        return Some(Corrupted), x;
      }
      return None, b[at];
    }

    method TakeBytes(length: int) returns (fault: Option<Fault>, s: seq<byte>)
      requires i <= |b|
      modifies this
      ensures Agrees(ReadBytes(b, old(i), length), fault, s)
    {
      s := [];
      var start := i;
      if start + length > |b| {
        return Some(Corrupted), s;
      }
      if length < 0 {
        // The bounds of the slice are the wrong way round.
        return Some(RuntimePanic), s;
      }
      i := start + length;
      return None, b[start..i];
    }

    method TakeInt(w: nat) returns (fault: Option<Fault>, n: int)
      requires i <= |b|
      modifies this
      ensures Agrees(ReadInt(b, old(i), w), fault, n)
    {
      n := 0;
      var s;
      fault, s := TakeBytes(w);
      if fault == None {
        n := Signed(s);
      }
    }

    method TakeCStr() returns (fault: Option<Fault>, s: seq<byte>)
      requires i <= |b|
      modifies this
      ensures Agrees(ReadCStr(b, old(i)), fault, s)
    {
      var start, end := i, i;
      while end != |b|
        invariant start <= end <= |b| && FindNul(b, start) == FindNul(b, end)
        decreases |b| - end
      {
        if b[end] == 0 {
          break;
        }
        end := end + 1;
      }
      i := end + 1;
      if i > |b| {
        return Some(Corrupted), [];
      }
      return None, b[start..end];
    }

    method TakeStr() returns (fault: Option<Fault>, s: seq<byte>)
      requires i <= |b|
      modifies this
      ensures Agrees(ReadStr(b, old(i)), fault, s)
    {
      s := [];
      var l, z;
      fault, l := TakeInt(4);
      if fault != None {
        return;
      }
      fault, s := TakeBytes(if l == -0x8000_0000 then 0x7FFF_FFFF else l - 1);
      if fault != None {
        return;
      }
      fault, z := TakeByte();
      if fault == None && z != 0 {
        fault := Some(Corrupted);
      }
    }

    method TakeBinary() returns (fault: Option<Fault>, v: Value)
      requires i <= |b|
      modifies this
      ensures Agrees(ReadBinary(b, old(i)), fault, v)
    {
      hide ReadInt;
      v := Nil;
      var l, kind, data;
      fault, l := TakeInt(4);
      if fault != None {
        return;
      }
      fault, kind := TakeByte();
      if fault != None {
        return;
      }
      fault, data := TakeBytes(l);
      if fault != None {
        return;
      }
      if kind == 2 && |data| >= 4 {
        // Weird obsolete format with redundant length.
        data := data[4..];
      }
      v := Binary(if kind == 0 || kind == 2 then 0 else kind, data);
    }

    method TakeRegEx() returns (fault: Option<Fault>, v: Value)
      requires i <= |b|
      modifies this
      ensures Agrees(ReadRegEx(b, old(i)), fault, v)
    {
      v := Nil;
      var pattern, options;
      fault, pattern := TakeCStr();
      if fault != None {
        return;
      }
      fault, options := TakeCStr();
      v := RegEx(pattern, options);
    }

    method TakeDBPointer() returns (fault: Option<Fault>, v: Value)
      requires i <= |b|
      modifies this
      ensures Agrees(ReadDBPointer(b, old(i)), fault, v)
    {
      v := Nil;
      var namespace, ref;
      fault, namespace := TakeStr();
      if fault != None {
        return;
      }
      fault, ref := TakeBytes(12);
      v := DBPointer(namespace, ref);
    }

    method TakeSimple(kind: byte) returns (fault: Option<Fault>, v: Value)
      requires i <= |b|
      modifies this
      ensures Agrees(ReadSimple(b, old(i), kind), fault, v)
    {
      hide ReadInt, ReadStr, ReadBytes, ReadByte, ReadBinary, ReadRegEx, ReadDBPointer, DateOf;
      fault, v := None, Nil;
      var s, n;
      match kind {
        case 0x01 => fault, n := TakeInt(8); v := Double(n);
        case 0x02 => fault, s := TakeStr(); v := Str(s);
        case 0x05 => fault, v := TakeBinary();
        case 0x06 => v := Undefined;
        case 0x07 => fault, s := TakeBytes(12); v := ObjectId(s);
        case 0x08 => fault, n := TakeByte(); v := Bool(n == 1);
        case 0x09 => fault, n := TakeInt(8); v := DateOf(n);
        case 0x0A => v := Nil;
        case 0x0B => fault, v := TakeRegEx();
        case 0x0C => fault, v := TakeDBPointer();
        case 0x0D => fault, s := TakeStr(); v := JavaScript(s);
        case 0x0E => fault, s := TakeStr(); v := Symbol(s);
        case 0x10 => fault, n := TakeInt(4); v := Int32(n);
        case 0x11 => fault, n := TakeInt(8); v := Timestamp(n);
        case 0x12 => fault, n := TakeInt(8); v := Int64(n);
        case 0x7F => v := MaxKey;
        case 0xFF => v := MinKey;
        case _ => fault := Some(UnknownKind);
      }
    }

    method TakeEnd() returns (fault: Option<Fault>, end: nat)
      requires i <= |b|
      modifies this
      ensures Agrees(ReadEnd(b, old(i)), fault, end)
    {
      hide ReadInt;
      end := 0;
      var l;
      fault, l := TakeInt(4);
      if fault != None {
        return;
      }
      var e := l + i - 4;
      if e <= i || e > |b| || b[e - 1] != 0 {
        return Some(Corrupted), 0;
      }
      end := e;
    }

    method TakeValue(kind: byte) returns (fault: Option<Fault>, v: Value)
      requires i <= |b|
      modifies this
      ensures Agrees(ReadValue(b, old(i), kind), fault, v)
      decreases |b| - i, 1
    {
      hide ReadSimple, ReadDoc, ReadArray, ReadScoped;
      v := Nil;
      if kind == 0x03 {
        var elems;
        fault, elems := TakeDoc();
        v := Doc(elems);
      } else if kind == 0x04 {
        var items;
        fault, items := TakeArray();
        v := Array(items);
      } else if kind == 0x0F {
        fault, v := TakeScoped();
      } else {
        fault, v := TakeSimple(kind);
      }
    }

    method TakeScoped() returns (fault: Option<Fault>, v: Value)
      requires i <= |b|
      modifies this
      ensures Agrees(ReadScoped(b, old(i)), fault, v)
      decreases |b| - i, 0
    {
      hide ReadStr, ReadDoc;
      v := Nil;
      // Skip length
      i := i + 4;
      if i > |b| {
        // Reading the next four bytes finds that out.
        return Some(Corrupted), v;
      }
      var source, scope;
      fault, source := TakeStr();
      if fault != None {
        return;
      }
      fault, scope := TakeDoc();
      v := Scoped(source, scope);
    }

    /** A document, element by element. */
    method TakeDoc() returns (fault: Option<Fault>, elems: seq<Elem>)
      requires i <= |b|
      modifies this
      ensures Agrees(ReadDoc(b, old(i)), fault, elems)
      decreases |b| - i, 0
    {
      hide ReadEnd, ReadCStr, ReadValue;
      elems := [];
      var end;
      fault, end := TakeEnd();
      if fault != None {
        return;
      }
      ghost var all := ReadElems(b, i, end);
      assert all.Done? ==> [] + all.value == all.value;
      while b[i] != 0
        invariant i < end <= |b| && i > old(i) && fault == None
        invariant ReadDoc(b, old(i)) == Closed(all, end)
        invariant all == Prefixed(elems, ReadElems(b, i, end))
        decreases |b| - i
      {
        var kind, name, v;
        fault, kind := TakeByte();
        fault, name := TakeCStr();
        if fault != None {
          return;
        }
        if i >= end {
          return Some(Corrupted), elems;
        }
        fault, v := TakeValue(kind);
        if fault != None {
          return;
        }
        if i >= end {
          return Some(Corrupted), elems;
        }
        PrefixedNext(elems, Elem(name, v), ReadElems(b, i, end));
        elems := elems + [Elem(name, v)];
      }
      assert elems + [] == elems;
      i := i + 1;
      if i != end {
        fault := Some(Corrupted);
      }
    }

    /** Moves to the end of the name, or of the document. */
    method SkipName(end: nat)
      requires i <= end <= |b|
      modifies this
      ensures i == if FindNul(b, old(i)) < end then FindNul(b, old(i)) else end
    {
      while i < end && b[i] != 0
        invariant i <= end && FindNul(b, old(i)) == FindNul(b, i)
      {
        i := i + 1;
      }
    }

    method TakeArray() returns (fault: Option<Fault>, items: seq<Value>)
      requires i <= |b|
      modifies this
      ensures Agrees(ReadArray(b, old(i)), fault, items)
      decreases |b| - i, 0
    {
      hide ReadEnd, ReadValue, FindNul;
      items := [];
      var end;
      fault, end := TakeEnd();
      if fault != None {
        return;
      }
      ghost var all := ReadItems(b, i, end);
      assert all.Done? ==> [] + all.value == all.value;
      while b[i] != 0
        invariant i < end <= |b| && i > old(i) && fault == None
        invariant ReadArray(b, old(i)) == Closed(all, end)
        invariant all == Prefixed(items, ReadItems(b, i, end))
        decreases |b| - i
      {
        var kind, v;
        fault, kind := TakeByte();
        SkipName(end);
        if i >= end {
          return Some(Corrupted), items;
        }
        i := i + 1;
        fault, v := TakeValue(kind);
        if fault != None {
          return;
        }
        if i >= end {
          return Some(Corrupted), items;
        }
        PrefixedNext(items, v, ReadItems(b, i, end));
        items := items + [v];
      }
      assert items + [] == items;
      i := i + 1;
      if i != end {
        fault := Some(Corrupted);
      }
    }
  }

  /** A document whose elements end at `p`. */
  ghost function Closed<T>(p: Parse<seq<T>>, end: nat): Parse<seq<T>> {
    if p.Fail? then p else if p.next + 1 != end then Fail(Corrupted) else Done(p.value, p.next + 1)
  }

  ghost function Prefixed<T>(s: seq<T>, p: Parse<seq<T>>): Parse<seq<T>> {
    if p.Fail? then p else Done(s + p.value, p.next)
  }

  lemma PrefixedNext<T>(s: seq<T>, x: T, p: Parse<seq<T>>)
    ensures Prefixed(s + [x], p) == Prefixed(s, Prefixed([x], p))
  {
    if p.Done? { assert s + [x] + p.value == s + ([x] + p.value); }
  }
}
