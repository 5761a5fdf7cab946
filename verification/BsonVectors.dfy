/** The bytes that the tests of the BSON package promise for one value of each kind
    (mgo.v2/bson/bson_test.go). With the round trip they fix what the decoder makes of each kind. */
module BsonVectors {
  import opened Bytes
  import opened Bson

  /** The value, under the name "_", is written with this kind and these bytes. */
  ghost predicate OnWire(v: Value, kind: byte, bytes: seq<byte>) {
    EncElem([0x5F], v) == [kind, 0x5F, 0] + bytes
  }

  lemma Written(v: Value, kind: byte, bytes: seq<byte>)
    requires Kind(v) == kind && EncValue(v) == bytes
    ensures OnWire(v, kind, bytes)
  {
    assert [Kind(v)] + [0x5F] + [0] == [Kind(v), 0x5F, 0];
  }

  lemma Small4(n: nat)
    requires n < 65536
    ensures LittleEndian(n, 4) == [n % 256, n / 256, 0, 0]
  {
    assert LittleEndian(0, 2) == [0, 0];
  }

  lemma Small8(n: nat)
    requires n < 65536
    ensures LittleEndian(n, 8) == [n % 256, n / 256, 0, 0, 0, 0, 0, 0]
  {
    assert LittleEndian(0, 3) == [0, 0, 0];
    assert LittleEndian(0, 6) == [0, 0, 0, 0, 0, 0];
    assert LittleEndian(n / 256, 7) == [n / 256, 0, 0, 0, 0, 0, 0];
  }

  lemma High8()
    ensures LittleEndian(258 * TWO32, 8) == [0, 0, 0, 0, 2, 1, 0, 0]
  {
    Small4(258);
    assert LittleEndian(258 * 65536, 6) == [0, 0, 2, 1, 0, 0];
  }

  lemma Double8()
    ensures LittleEndian(0x4014_3333_3333_3333, 8) == [0x33, 0x33, 0x33, 0x33, 0x33, 0x33, 0x14, 0x40]
  {
    assert LittleEndian(0x4014_3333, 4) == [0x33, 0x33, 0x14, 0x40];
    assert LittleEndian(0x4014_3333_3333, 6) == [0x33, 0x33, 0x33, 0x33, 0x14, 0x40];
  }

  /** Numbers: 5.05, 258 milliseconds after 1970, and 258 in three kinds. */
  lemma NumberVectors()
    ensures OnWire(Double(0x4014_3333_3333_3333), 0x01, [0x33, 0x33, 0x33, 0x33, 0x33, 0x33, 0x14, 0x40])
    ensures OnWire(Date(0, 258_000_000), 0x09, [2, 1, 0, 0, 0, 0, 0, 0])
    ensures OnWire(Int32(258), 0x10, [2, 1, 0, 0]) && OnWire(Timestamp(258), 0x11, [2, 1, 0, 0, 0, 0, 0, 0])
    ensures OnWire(Int64(258), 0x12, [2, 1, 0, 0, 0, 0, 0, 0]) && OnWire(Int64(258 * TWO32), 0x12, [0, 0, 0, 0, 2, 1, 0, 0])
  {
    hide LittleEndian, OnWire;
    Small4(258);
    Small8(258);
    High8();
    Double8();
    Written(Double(0x4014_3333_3333_3333), 0x01, [0x33, 0x33, 0x33, 0x33, 0x33, 0x33, 0x14, 0x40]);
    Written(Date(0, 258_000_000), 0x09, [2, 1, 0, 0, 0, 0, 0, 0]);
    Written(Int32(258), 0x10, [2, 1, 0, 0]);
    Written(Timestamp(258), 0x11, [2, 1, 0, 0, 0, 0, 0, 0]);
    Written(Int64(258), 0x12, [2, 1, 0, 0, 0, 0, 0, 0]);
    Written(Int64(258 * TWO32), 0x12, [0, 0, 0, 0, 2, 1, 0, 0]);
  }

  lemma PlainVectors()
    ensures OnWire(Undefined, 0x06, []) && OnWire(Nil, 0x0A, []) && OnWire(MaxKey, 0x7F, []) && OnWire(MinKey, 0xFF, [])
    ensures OnWire(Bool(false), 0x08, [0]) && OnWire(Bool(true), 0x08, [1])
  {
    hide OnWire;
    Written(Undefined, 0x06, []);
    Written(Nil, 0x0A, []);
    Written(MaxKey, 0x7F, []);
    Written(MinKey, 0xFF, []);
    Written(Bool(false), 0x08, [0]);
    Written(Bool(true), 0x08, [1]);
  }

  /** Texts: "yo", JavaScript "code", the symbol "sym" and the expression "ab" with options "cd". */
  lemma TextVectors()
    ensures OnWire(Str([0x79, 0x6F]), 0x02, [3, 0, 0, 0, 0x79, 0x6F, 0])
    ensures OnWire(JavaScript([0x63, 0x6F, 0x64, 0x65]), 0x0D, [5, 0, 0, 0, 0x63, 0x6F, 0x64, 0x65, 0])
    ensures OnWire(Symbol([0x73, 0x79, 0x6D]), 0x0E, [4, 0, 0, 0, 0x73, 0x79, 0x6D, 0])
    ensures OnWire(RegEx([0x61, 0x62], [0x63, 0x64]), 0x0B, [0x61, 0x62, 0, 0x63, 0x64, 0])
  {
    hide LittleEndian, OnWire;
    Small4(3);
    Small4(4);
    Small4(5);
    Written(Str([0x79, 0x6F]), 0x02, [3, 0, 0, 0, 0x79, 0x6F, 0]);
    Written(JavaScript([0x63, 0x6F, 0x64, 0x65]), 0x0D, [5, 0, 0, 0, 0x63, 0x6F, 0x64, 0x65, 0]);
    Written(Symbol([0x73, 0x79, 0x6D]), 0x0E, [4, 0, 0, 0, 0x73, 0x79, 0x6D, 0]);
    Written(RegEx([0x61, 0x62], [0x63, 0x64]), 0x0B, [0x61, 0x62, 0, 0x63, 0x64, 0]);
  }

  /** Bytes: "yo" as plain bytes, "udef" as a binary of the kind 0x80 and "old" as one of the obsolete
      kind, an object id, and a pointer into "ns". */
  lemma BytesVectors(id: seq<byte>)
    requires |id| == 12
    ensures OnWire(Binary(0, [0x79, 0x6F]), 0x05, [2, 0, 0, 0, 0, 0x79, 0x6F])
    ensures OnWire(Binary(0x80, [0x75, 0x64, 0x65, 0x66]), 0x05, [4, 0, 0, 0, 0x80, 0x75, 0x64, 0x65, 0x66])
    ensures OnWire(Binary(2, [0x6F, 0x6C, 0x64]), 0x05, [7, 0, 0, 0, 2, 3, 0, 0, 0, 0x6F, 0x6C, 0x64])
    ensures OnWire(ObjectId(id), 0x07, id)
    ensures OnWire(DBPointer([0x6E, 0x73], id), 0x0C, [3, 0, 0, 0, 0x6E, 0x73, 0] + id)
  {
    hide LittleEndian, OnWire;
    Small4(2);
    Small4(3);
    Small4(4);
    Small4(7);
    Written(Binary(0, [0x79, 0x6F]), 0x05, [2, 0, 0, 0, 0, 0x79, 0x6F]);
    Written(Binary(0x80, [0x75, 0x64, 0x65, 0x66]), 0x05, [4, 0, 0, 0, 0x80, 0x75, 0x64, 0x65, 0x66]);
    Written(Binary(2, [0x6F, 0x6C, 0x64]), 0x05, [7, 0, 0, 0, 2, 3, 0, 0, 0, 0x6F, 0x6C, 0x64]);
    Written(ObjectId(id), 0x07, id);
    Written(DBPointer([0x6E, 0x73], id), 0x0C, [3, 0, 0, 0, 0x6E, 0x73, 0] + id);
    assert EncStr([0x6E, 0x73]) == [3, 0, 0, 0, 0x6E, 0x73, 0];
  }

  /** A document in a document. */
  lemma DocVector()
    ensures OnWire(Doc([Elem([0x61], Bool(true))]), 0x03, [9, 0, 0, 0, 0x08, 0x61, 0, 1, 0])
  {
    hide LittleEndian, OnWire;
    Small4(9);
    var elems := [Elem([0x61], Bool(true))];
    assert elems[1..] == [] && EncElems(elems[1..]) == [];
    assert EncElem([0x61], Bool(true)) == [0x08, 0x61, 0, 1];
    assert EncElems(elems) == [0x08, 0x61, 0, 1];
    Written(Doc(elems), 0x03, [9, 0, 0, 0, 0x08, 0x61, 0, 1, 0]);
  }

  /** An array of two items, named "0" and "1". */
  lemma ArrayVector()
    ensures OnWire(Array([Bool(true), Bool(false)]), 0x04, [13, 0, 0, 0, 0x08, 0x30, 0, 1, 0x08, 0x31, 0, 0, 0])
  {
    hide LittleEndian, OnWire;
    Small4(13);
    var items := [Bool(true), Bool(false)];
    assert items[1..] == [Bool(false)] && [Bool(false)][1..] == [];
    assert EncItems([], 2) == [];
    assert EncElem(Itoa(1), Bool(false)) == [0x08, 0x31, 0, 0];
    assert EncItems(items[1..], 1) == [0x08, 0x31, 0, 0];
    assert EncElem(Itoa(0), Bool(true)) == [0x08, 0x30, 0, 1];
    assert EncItems(items, 0) == [0x08, 0x30, 0, 1, 0x08, 0x31, 0, 0];
    Written(Array(items), 0x04, [13, 0, 0, 0, 0x08, 0x30, 0, 1, 0x08, 0x31, 0, 0, 0]);
  }

  /** JavaScript with a scope that holds one nil under the empty name. */
  lemma ScopedVector()
    ensures OnWire(Scoped([0x63, 0x6F, 0x64, 0x65], [Elem([], Nil)]), 0x0F,
                   [0x14, 0, 0, 0] + [5, 0, 0, 0, 0x63, 0x6F, 0x64, 0x65, 0] + [7, 0, 0, 0, 0x0A, 0, 0])
  {
    hide LittleEndian, OnWire;
    Small4(5);
    Small4(7);
    Small4(0x14);
    var code: seq<byte>, scope := [0x63, 0x6F, 0x64, 0x65], [Elem([], Nil)];
    assert scope[1..] == [] && EncElems(scope[1..]) == [];
    assert EncElem([], Nil) == [0x0A, 0];
    assert Wrapped(EncElems(scope)) == [7, 0, 0, 0, 0x0A, 0, 0];
    assert EncStr(code) == [5, 0, 0, 0, 0x63, 0x6F, 0x64, 0x65, 0];
    Written(Scoped(code, scope), 0x0F, [0x14, 0, 0, 0] + [5, 0, 0, 0, 0x63, 0x6F, 0x64, 0x65, 0] + [7, 0, 0, 0, 0x0A, 0, 0]);
  }
}
