/** The Blowfish cipher as it runs (golang.org/x/crypto/blowfish): tables that are rewritten in
    place, and blocks that are encrypted word by word. */
module BlowfishCipher {
  import opened Blowfish

  /** The next word of a text that is read round and round, and the place behind it. */
  method GetNextWord(b: seq<Byte>, pos: nat) returns (w: Word, j: nat)
    requires pos < |b|
    ensures w == NextWord(b, pos) && j == After(|b|, pos)
  {
    w, j := 0, pos;
    ghost var n := |b|;
    for i := 0 to 4
      invariant j < n
      invariant i == 0 ==> w == 0 && j == pos
      invariant i == 1 ==> w == Push(0, b[pos]) && j == Around(pos, n)
      invariant i == 2 ==> w == Push(Push(0, b[pos]), b[Around(pos, n)]) && j == Around(Around(pos, n), n)
      invariant i == 3 ==> w == Push(Push(Push(0, b[pos]), b[Around(pos, n)]), b[Around(Around(pos, n), n)]) && j == Around(Around(Around(pos, n), n), n)
      invariant i == 4 ==> w == NextWord(b, pos) && j == After(n, pos)
    {
      w := Push(w, b[j]);
      j := j + 1;
      if j >= |b| {
        j := 0;
      }
    }
  }

  class Cipher {
    const p: array<Word>
    const s0: array<Word>
    const s1: array<Word>
    const s2: array<Word>
    const s3: array<Word>

    ghost predicate Valid() {
      && p.Length == SUBKEYS && s0.Length == BOX && s1.Length == BOX && s2.Length == BOX && s3.Length == BOX
      && p != s0 && p != s1 && p != s2 && p != s3 && s0 != s1 && s0 != s2 && s0 != s3 && s1 != s2 && s1 != s3 && s2 != s3
    }

    function Value(): (t: Tables)
      reads p, s0, s1, s2, s3
      ensures Valid() ==> Sized(t)
    {
      Tables(p[..], s0[..], s1[..], s2[..], s3[..])
    }

    /** A cipher with copies of the initial tables. */
    constructor (init: Tables)
      requires Sized(init)
      ensures Valid() && Value() == init && fresh(p) && fresh(s0) && fresh(s1) && fresh(s2) && fresh(s3)
    {
      p := new Word[SUBKEYS](i requires 0 <= i < SUBKEYS => init.p[i]);
      s0 := new Word[BOX](i requires 0 <= i < BOX => init.s0[i]);
      s1 := new Word[BOX](i requires 0 <= i < BOX => init.s1[i]);
      s2 := new Word[BOX](i requires 0 <= i < BOX => init.s2[i]);
      s3 := new Word[BOX](i requires 0 <= i < BOX => init.s3[i]);
      new;
      assert p[..] == init.p && s0[..] == init.s0 && s1[..] == init.s1 && s2[..] == init.s2 && s3[..] == init.s3;
    }

    function Mix(x: Word): Word
      requires Valid()
      reads p, s0, s1, s2, s3
    {
      Combine(s0[Index(ByteAt(x, 3))], s1[Index(ByteAt(x, 2))], s2[Index(ByteAt(x, 1))], s3[Index(ByteAt(x, 0))])
    }

    lemma MixIsF(x: Word)
      requires Valid()
      ensures Mix(x) == F(Value(), x)
    {
      hide Combine, ByteAt, Index;
    }

    /** Two rounds, first of the right half, then of the left one. */
    method TwoRounds(xl0: Word, xr0: Word, k1: Word, k2: Word, ghost q: seq<Word>, ghost k: nat) returns (xl: Word, xr: Word)
      requires Valid() && |q| == SUBKEYS && k + 1 < 17 && q[k] == k1 && q[k + 1] == k2
      ensures Rounds(Value(), q, xl0, xr0, k, 17) == Rounds(Value(), q, xl, xr, k + 2, 17)
    {
      hide F, Mix, Xor;
      MixIsF(xl0);
      xr := Xor(xr0, Xor(Mix(xl0), k1));
      MixIsF(xr);
      xl := Xor(xl0, Xor(Mix(xr), k2));
    }

    method EncryptBlock(l: Word, r: Word) returns (x: Word, y: Word)
      requires Valid()
      ensures (x, y) == EncryptWords(Value(), l, r)
    {
      hide Rounds, Xor;
      ghost var q := p[..];
      var xl, xr := l, r;
      xl := Xor(xl, p[0]);
      xl, xr := TwoRounds(xl, xr, p[1], p[2], q, 1);
      xl, xr := TwoRounds(xl, xr, p[3], p[4], q, 3);
      xl, xr := TwoRounds(xl, xr, p[5], p[6], q, 5);
      xl, xr := TwoRounds(xl, xr, p[7], p[8], q, 7);
      xl, xr := TwoRounds(xl, xr, p[9], p[10], q, 9);
      xl, xr := TwoRounds(xl, xr, p[11], p[12], q, 11);
      xl, xr := TwoRounds(xl, xr, p[13], p[14], q, 13);
      xl, xr := TwoRounds(xl, xr, p[15], p[16], q, 15);
      RoundsEnd(Value(), q, xl, xr);
      xr := Xor(xr, p[17]);
      return xr, xl;
    }

    method DecryptBlock(l: Word, r: Word) returns (x: Word, y: Word)
      requires Valid()
      ensures (x, y) == DecryptWords(Value(), l, r)
    {
      hide Rounds, Xor, Reverse;
      ghost var q := Reverse(p[..]);
      ReversedSubkeys(p[..]);
      var xl, xr := l, r;
      xl := Xor(xl, p[17]);
      xl, xr := TwoRounds(xl, xr, p[16], p[15], q, 1);
      xl, xr := TwoRounds(xl, xr, p[14], p[13], q, 3);
      xl, xr := TwoRounds(xl, xr, p[12], p[11], q, 5);
      xl, xr := TwoRounds(xl, xr, p[10], p[9], q, 7);
      xl, xr := TwoRounds(xl, xr, p[8], p[7], q, 9);
      xl, xr := TwoRounds(xl, xr, p[6], p[5], q, 11);
      xl, xr := TwoRounds(xl, xr, p[4], p[3], q, 13);
      xl, xr := TwoRounds(xl, xr, p[2], p[1], q, 15);
      RoundsEnd(Value(), q, xl, xr);
      xr := Xor(xr, p[0]);
      return xr, xl;
    }

    /** Encrypts the first eight bytes of `src` into `dst`, which may be the same buffer. */
    method Encrypt(dst: array<Byte>, src: array<Byte>)
      requires Valid() && dst.Length >= BLOCK && src.Length >= BLOCK
      modifies dst
      ensures dst[..BLOCK] == old(EncryptBytes(Value(), src[..BLOCK]))
      ensures forall i :: BLOCK <= i < dst.Length ==> dst[i] == old(dst[i])
    {
      hide WordOf, ByteAt, EncryptWords;
      var l := WordOf(src[0], src[1], src[2], src[3]);
      var r := WordOf(src[4], src[5], src[6], src[7]);
      l, r := EncryptBlock(l, r);
      PutBlock(dst, l, r);
    }

    method Decrypt(dst: array<Byte>, src: array<Byte>)
      requires Valid() && dst.Length >= BLOCK && src.Length >= BLOCK
      modifies dst
      ensures dst[..BLOCK] == old(DecryptBytes(Value(), src[..BLOCK]))
      ensures forall i :: BLOCK <= i < dst.Length ==> dst[i] == old(dst[i])
    {
      hide WordOf, ByteAt, DecryptWords;
      var l := WordOf(src[0], src[1], src[2], src[3]);
      var r := WordOf(src[4], src[5], src[6], src[7]);
      l, r := DecryptBlock(l, r);
      PutBlock(dst, l, r);
    }

    /** Folds the key into the subkeys. */
    method FoldIn(key: seq<Byte>)
      requires Valid() && key != []
      modifies p
      ensures Value() == old(Value()).(p := FoldKey(old(p[..]), key, 0, 0))
    {
      hide NextWord, After, Xor;
      var j: nat := 0;
      for i := 0 to SUBKEYS
        invariant j < |key|
        invariant FoldKey(p[..], key, i, j) == FoldKey(old(p[..]), key, 0, 0)
      {
        var d, next := GetNextWord(key, j);
        ghost var was := p[..];
        p[i] := Xor(p[i], d);
        assert p[..] == was[i := Xor(was[i], d)];
        j := next;
      }
    }

    /** Replaces a table by encrypting over and over. */
    method FillTable(which: nat, table: array<Word>, l0: Word, r0: Word, ghost j: nat) returns (l: Word, r: Word)
      requires Valid() && which < 5 && table == Table(which)
      modifies table
      ensures Progress(Value(), l, r, j) == Fill(Progress(old(Value()), l0, r0, j), which, 0)
    {
      hide EncryptWords, Put;
      l, r := l0, r0;
      for m := 0 to table.Length / 2
        invariant Fill(Progress(Value(), l, r, j), which, m) == Fill(Progress(old(Value()), l0, r0, j), which, 0)
      {
        l, r := EncryptBlock(l, r);
        SetTwo(which, table, m, l, r);
      }
    }

    /** The same with a salt, read round and round from place `j0` on. */
    method FillTableSalted(which: nat, table: array<Word>, l0: Word, r0: Word, salt: seq<Byte>, j0: nat)
        returns (l: Word, r: Word, j: nat)
      requires Valid() && which < 5 && table == Table(which) && j0 < |salt|
      modifies table
      ensures j < |salt|
      ensures Progress(Value(), l, r, j) == FillSalted(Progress(old(Value()), l0, r0, j0), salt, which, 0)
    {
      hide EncryptWords, Put, NextWord, After, Xor;
      l, r, j := l0, r0, j0;
      for m := 0 to table.Length / 2
        invariant j < |salt|
        invariant FillSalted(Progress(Value(), l, r, j), salt, which, m) == FillSalted(Progress(old(Value()), l0, r0, j0), salt, which, 0)
      {
        var w;
        w, j := GetNextWord(salt, j);
        l := Xor(l, w);
        w, j := GetNextWord(salt, j);
        r := Xor(r, w);
        l, r := EncryptBlock(l, r);
        SetTwo(which, table, m, l, r);
      }
    }

    function Table(which: nat): array<Word>
      requires which < 5
    {
      if which == 0 then p else if which == 1 then s0 else if which == 2 then s1 else if which == 3 then s2 else s3
    }

    method SetTwo(which: nat, table: array<Word>, m: nat, l: Word, r: Word)
      requires Valid() && which < 5 && table == Table(which) && m < Pairs(which)
      modifies table
      ensures Value() == Put(old(Value()), which, m, l, r)
    {
      table[2 * m], table[2 * m + 1] := l, r;
      assert table[..] == SetPair(old(table[..]), m, l, r);
      assert table != p ==> p[..] == old(p[..]);
      assert table != s0 ==> s0[..] == old(s0[..]);
      assert table != s1 ==> s1[..] == old(s1[..]);
      assert table != s2 ==> s2[..] == old(s2[..]);
      assert table != s3 ==> s3[..] == old(s3[..]);
    }

    method ExpandKey(key: seq<Byte>)
      requires Valid() && key != []
      modifies p, s0, s1, s2, s3
      ensures Value() == Expanded(old(Value()), key)
    {
      hide Fill, FoldKey;
      FoldIn(key);
      var l, r := FillTable(0, p, 0, 0, 0);
      l, r := FillTable(1, s0, l, r, 0);
      l, r := FillTable(2, s1, l, r, 0);
      l, r := FillTable(3, s2, l, r, 0);
      l, r := FillTable(4, s3, l, r, 0);
    }

    method ExpandKeyWithSalt(key: seq<Byte>, salt: seq<Byte>)
      requires Valid() && key != [] && salt != []
      modifies p, s0, s1, s2, s3
      ensures Value() == ExpandedSalted(old(Value()), key, salt)
      ensures (forall k :: 0 <= k < |salt| ==> salt[k] == 0) ==> Value() == Expanded(old(Value()), key)
    {
      hide FillSalted, FoldKey, Expanded;
      FoldIn(key);
      var l, r, j := FillTableSalted(0, p, 0, 0, salt, 0);
      l, r, j := FillTableSalted(1, s0, l, r, salt, j);
      l, r, j := FillTableSalted(2, s1, l, r, salt, j);
      l, r, j := FillTableSalted(3, s2, l, r, salt, j);
      l, r, j := FillTableSalted(4, s3, l, r, salt, j);
      if forall k :: 0 <= k < |salt| ==> salt[k] == 0 { ZeroSalt(old(Value()), key, salt); }
    }
  }

  lemma ReversedSubkeys(p: seq<Word>)
    requires |p| == SUBKEYS
    ensures var q := Reverse(p);
      && q[0] == p[17] && q[1] == p[16] && q[2] == p[15] && q[3] == p[14] && q[4] == p[13] && q[5] == p[12]
      && q[6] == p[11] && q[7] == p[10] && q[8] == p[9] && q[9] == p[8] && q[10] == p[7] && q[11] == p[6]
      && q[12] == p[5] && q[13] == p[4] && q[14] == p[3] && q[15] == p[2] && q[16] == p[1] && q[17] == p[0]
  {
    forall i | 0 <= i < SUBKEYS ensures Reverse(p)[i] == p[17 - i] { ReverseAt(p, i); }
  }

  lemma RoundsEnd(t: Tables, q: seq<Word>, a: Word, b: Word)
    requires Sized(t) && |q| == SUBKEYS
    ensures Rounds(t, q, a, b, 17, 17) == (a, b)
  {
  }

  method PutBlock(dst: array<Byte>, l: Word, r: Word)
    requires dst.Length >= BLOCK
    modifies dst
    ensures dst[..BLOCK] == Block(l, r)
    ensures forall i :: BLOCK <= i < dst.Length ==> dst[i] == old(dst[i])
  {
    hide ByteAt;
    PutWord(dst, 0, l);
    PutWord(dst, 4, r);
  }

  method PutWord(dst: array<Byte>, at: nat, w: Word)
    requires at + 4 <= dst.Length
    modifies dst
    ensures dst[at] == ByteAt(w, 3) && dst[at + 1] == ByteAt(w, 2) && dst[at + 2] == ByteAt(w, 1) && dst[at + 3] == ByteAt(w, 0)
    ensures forall i :: 0 <= i < dst.Length && !(at <= i < at + 4) ==> dst[i] == old(dst[i])
  {
    hide ByteAt;
    dst[at], dst[at + 1], dst[at + 2], dst[at + 3] := ByteAt(w, 3), ByteAt(w, 2), ByteAt(w, 1), ByteAt(w, 0);
  }

  /** A cipher for a key of 1 to 56 bytes; other sizes are an error. */
  method NewCipher(key: seq<Byte>, init: Tables) returns (c: Cipher?)
    requires Sized(init)
    ensures c != null <==> 1 <= |key| <= 56
    ensures c != null ==> fresh(c) && c.Valid() && c.Value() == Expanded(init, key)
  {
    if |key| < 1 || |key| > 56 {
      return null;
    }
    var result := new Cipher(init);
    result.ExpandKey(key);
    return result;
  }

  /** With a salt the key may be longer; without one this is NewCipher. */
  method NewSaltedCipher(key: seq<Byte>, salt: seq<Byte>, init: Tables) returns (c: Cipher?)
    requires Sized(init)
    ensures c != null <==> 1 <= |key| && (salt == [] ==> |key| <= 56)
    ensures c != null ==> c.Valid() && c.Value() == if salt == [] then Expanded(init, key) else ExpandedSalted(init, key, salt)
  {
    if |salt| == 0 {
      c := NewCipher(key, init);
      return c;
    }
    if |key| < 1 {
      return null;
    }
    var result := new Cipher(init);
    result.ExpandKeyWithSalt(key, salt);
    return result;
  }

  /** Decrypting in place what was encrypted in place restores the buffer, for any tables. */
  method EncryptThenDecrypt(c: Cipher, b: array<Byte>)
    requires c.Valid() && b.Length >= BLOCK
    modifies b
    ensures b[..] == old(b[..])
  {
    hide EncryptBytes, DecryptBytes;
    ghost var before := b[..];
    DecryptEncrypt(c.Value(), b[..BLOCK]);
    c.Encrypt(b, b);
    c.Decrypt(b, b);
    assert b[..BLOCK] == before[..BLOCK];
    forall i | 0 <= i < b.Length ensures b[i] == before[i] {
      if i < BLOCK { assert b[i] == b[..BLOCK][i] == before[..BLOCK][i]; }
    }
  }
}
