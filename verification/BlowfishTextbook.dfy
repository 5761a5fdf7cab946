/** Blowfish as its author describes it (B. Schneier, "Description of a New Variable-Length Key, 64-Bit
    Block Cipher (Blowfish)", 1993), and that the cipher of golang.org/x/crypto/blowfish is that one. */
module BlowfishTextbook {
  import Bytes
  import opened Blowfish

  // --- One block ----------------------------------------------------------------------------

  /** One round of the description: a subkey goes into the left half, what the round function makes
      of it into the right half, and the halves change places. */
  function Round(t: Tables, l: Word, r: Word, k: nat): (Word, Word)
    requires Sized(t) && k < SUBKEYS
  {
    var x := Xor(l, t.p[k]);
    (Xor(r, F(t, x)), x)
  }

  function Sixteen(t: Tables, l: Word, r: Word, k: nat): (Word, Word)
    requires Sized(t) && k <= 16
    decreases 16 - k
  {
    if k == 16 then (l, r) else
      var (x, y) := Round(t, l, r, k);
      Sixteen(t, x, y, k + 1)
  }

  /** Sixteen rounds, without the last exchange, and the last two subkeys. */
  function Encrypted(t: Tables, l: Word, r: Word): (Word, Word)
    requires Sized(t)
  {
    var (x, y) := Sixteen(t, l, r, 0);
    (Xor(y, t.p[17]), Xor(x, t.p[16]))
  }

  lemma XorShifts(a: Word, b: Word, c: Word)
    ensures Xor(a, Xor(b, c)) == Xor(Xor(a, b), c)
  {
  }

  lemma {:induction false} SixteenAreRounds(t: Tables, l: Word, r: Word, k: nat)
    requires Sized(t) && k <= 16
    ensures var (x, y) := Sixteen(t, l, r, k); Rounds(t, t.p, Xor(l, t.p[k]), r, k + 1, 17) == (Xor(x, t.p[16]), y)
    decreases 16 - k
  {
    hide F, Xor;
    if k < 16 {
      var x := Xor(l, t.p[k]);
      XorShifts(r, F(t, x), t.p[k + 1]);
      SixteenAreRounds(t, Xor(r, F(t, x)), x, k + 1);
    }
  }

  /** The cipher folds each subkey into the round before, and never exchanges the halves. */
  lemma EncryptsAsDescribed(t: Tables, l: Word, r: Word)
    requires Sized(t)
    ensures EncryptWords(t, l, r) == Encrypted(t, l, r)
  {
    hide F, Xor, Rounds, Sixteen;
    SixteenAreRounds(t, l, r, 0);
  }

  /** Words are big-endian: the first box is looked up with the highest byte. */
  lemma WordVectors()
    ensures WordOf(0x12, 0x34, 0x56, 0x78) == 0x12345678
    ensures ByteAt(0x12345678, 3) == 0x12 && ByteAt(0x12345678, 2) == 0x34
    ensures ByteAt(0x12345678, 1) == 0x56 && ByteAt(0x12345678, 0) == 0x78
  {
  }

  /** The first two boxes are added, the third goes in by exclusive or, the fourth is added; carries
      out of 32 bits are lost. */
  lemma CombineVectors(x: Word)
    ensures Combine(x, 1, 0, 0) == x + 1 && Combine(1, 0, 0, x) == x + 1
    ensures Combine(0, 0, x, 0) == x && Combine(x, 0, x, 0) == 0
    ensures Combine(3, 5, 6, 7) == 21 && Combine(1, 1, 1, 1) == 4
    ensures Combine(0xFFFF_FFFF, 1, 0xF0F0_F0F0, 0x1000_0000) == 0x00F0_F0F0
  {
  }

  // --- The key schedules --------------------------------------------------------------------

  /** Four bytes of a text that is read round and round, from byte `k` on. */
  function Cycled(b: seq<Byte>, k: nat): Word
    requires b != []
  {
    var n := |b|;
    WordOf(b[k % n], b[(k + 1) % n], b[(k + 2) % n], b[(k + 3) % n])
  }

  lemma Turns(k: nat, n: nat)
    requires n > 0
    ensures Around(k % n, n) == (k + 1) % n
  {
    var q, r := k / n, k % n;
    assert k == q * n + r;
    if r + 1 >= n {
      assert k + 1 == (q + 1) * n;
      Bytes.Quotient(k + 1, q + 1, n, 0);
    } else {
      Bytes.Quotient(k + 1, q, n, r + 1);
    }
  }

  lemma PushedAre(a: Byte, b: Byte, c: Byte, d: Byte)
    ensures Push(Push(Push(Push(0, a), b), c), d) == WordOf(a, b, c, d)
  {
  }

  lemma NextIsCycled(b: seq<Byte>, k: nat)
    requires b != []
    ensures NextWord(b, k % |b|) == Cycled(b, k) && After(|b|, k % |b|) == (k + 4) % |b|
  {
    hide Around, Push, WordOf;
    var n := |b|;
    Turns(k, n);
    Turns(k + 1, n);
    Turns(k + 2, n);
    Turns(k + 3, n);
    PushedAre(b[k % n], b[(k + 1) % n], b[(k + 2) % n], b[(k + 3) % n]);
  }

  /** The first subkey takes the first four bytes of the key, and so on, as often as is needed. */
  lemma {:induction false} KeyFolded(p: seq<Word>, key: seq<Byte>, i: nat, j: nat, k: nat)
    requires key != [] && i <= |p| && j == (4 * i) % |key| && k < |p|
    ensures FoldKey(p, key, i, j)[k] == if k < i then p[k] else Xor(p[k], Cycled(key, 4 * k))
    decreases |p| - i
  {
    hide NextWord, After, Xor, Cycled;
    if i < |p| {
      NextIsCycled(key, 4 * i);
      KeyFolded(p[i := Xor(p[i], NextWord(key, j))], key, i + 1, After(|key|, j), k);
    }
  }

  /** All words of the tables in one row: the subkeys, and the boxes behind them. */
  function Row(t: Tables): (s: seq<Word>)
    requires Sized(t)
    ensures |s| == 1042
  {
    t.p + t.s0 + t.s1 + t.s2 + t.s3
  }

  function Cut(s: seq<Word>): (t: Tables)
    requires |s| == 1042
    ensures Sized(t)
  {
    Tables(s[..18], s[18..274], s[274..530], s[530..786], s[786..])
  }

  /** The words are replaced in pairs, from pair `i` on: each pair is the encryption of the pair before,
      with eight bytes of the salt mixed in, by the tables as they are by then. */
  function Replaced(s: seq<Word>, salt: seq<Byte>, l: Word, r: Word, i: nat): seq<Word>
    requires |s| == 1042 && salt != [] && i <= 521
    decreases 521 - i
  {
    if i == 521 then s else
      var (x, y) := Encrypted(Cut(s), Xor(l, Cycled(salt, 8 * i)), Xor(r, Cycled(salt, 8 * i + 4)));
      Replaced(s[2 * i := x][2 * i + 1 := y], salt, x, y, i + 1)
  }

  /** The first pair of a table. */
  function First(which: nat): nat
    requires which <= 5
  {
    if which == 0 then 0 else 9 + 128 * (which - 1)
  }

  lemma CutRow(t: Tables)
    requires Sized(t)
    ensures Cut(Row(t)) == t
  {
  }

  lemma PairInside(a: seq<Word>, s: seq<Word>, b: seq<Word>, m: nat, l: Word, r: Word)
    requires 2 * m + 1 < |s|
    ensures a + SetPair(s, m, l, r) + b == (a + s + b)[|a| + 2 * m := l][|a| + 2 * m + 1 := r]
  {
  }

  lemma Grouped(t: Tables)
    requires Sized(t)
    ensures Row(t) == [] + t.p + (t.s0 + t.s1 + t.s2 + t.s3)
    ensures Row(t) == t.p + t.s0 + (t.s1 + t.s2 + t.s3)
    ensures Row(t) == (t.p + t.s0) + t.s1 + (t.s2 + t.s3)
    ensures Row(t) == (t.p + t.s0 + t.s1) + t.s2 + t.s3
    ensures Row(t) == (t.p + t.s0 + t.s1 + t.s2) + t.s3 + []
  {
  }

  lemma PutInRow(t: Tables, which: nat, m: nat, l: Word, r: Word)
    requires Sized(t) && which < 5 && m < Pairs(which)
    ensures var i := First(which) + m; i < 521 && Row(Put(t, which, m, l, r)) == Row(t)[2 * i := l][2 * i + 1 := r]
  {
    hide Row, SetPair;
    Grouped(t);
    Grouped(Put(t, which, m, l, r));
    if which == 0 { PairInside([], t.p, t.s0 + t.s1 + t.s2 + t.s3, m, l, r); }
    if which == 1 { PairInside(t.p, t.s0, t.s1 + t.s2 + t.s3, m, l, r); }
    if which == 2 { PairInside(t.p + t.s0, t.s1, t.s2 + t.s3, m, l, r); }
    if which == 3 { PairInside(t.p + t.s0 + t.s1, t.s2, t.s3, m, l, r); }
    if which == 4 { PairInside(t.p + t.s0 + t.s1 + t.s2, t.s3, [], m, l, r); }
  }

  /** One pair of the salted schedule. */
  function Filled(g: Progress, salt: seq<Byte>, which: nat, m: nat): (x: Progress)
    requires Sized(g.t) && which < 5 && m < Pairs(which) && g.j < |salt|
    ensures Sized(x.t) && x.j < |salt|
  {
    var (l, r) := EncryptWords(g.t, Xor(g.l, NextWord(salt, g.j)), Xor(g.r, NextWord(salt, After(|salt|, g.j))));
    Progress(Put(g.t, which, m, l, r), l, r, After(|salt|, After(|salt|, g.j)))
  }

  lemma PairReplaced(g: Progress, salt: seq<Byte>, which: nat, m: nat)
    requires Sized(g.t) && salt != [] && which < 5 && m < Pairs(which) && g.j == (8 * (First(which) + m)) % |salt|
    ensures var x, i := Filled(g, salt, which, m), First(which) + m;
      && x.j == (8 * (i + 1)) % |salt| && i < 521
      && Replaced(Row(g.t), salt, g.l, g.r, i) == Replaced(Row(x.t), salt, x.l, x.r, i + 1)
  {
    hide EncryptWords, Encrypted, Put, NextWord, After, Xor, Cycled, Cut, Row;
    var i := First(which) + m;
    NextIsCycled(salt, 8 * i);
    NextIsCycled(salt, 8 * i + 4);
    var l0, r0 := Xor(g.l, NextWord(salt, g.j)), Xor(g.r, NextWord(salt, After(|salt|, g.j)));
    var (l, r) := EncryptWords(g.t, l0, r0);
    EncryptsAsDescribed(g.t, l0, r0);
    CutRow(g.t);
    PutInRow(g.t, which, m, l, r);
  }

  lemma {:induction false} FillReplaces(g: Progress, salt: seq<Byte>, which: nat, m: nat)
    requires Sized(g.t) && salt != [] && which < 5 && m <= Pairs(which) && g.j == (8 * (First(which) + m)) % |salt|
    ensures var x := FillSalted(g, salt, which, m);
      && x.j == (8 * First(which + 1)) % |salt|
      && Replaced(Row(g.t), salt, g.l, g.r, First(which) + m) == Replaced(Row(x.t), salt, x.l, x.r, First(which + 1))
    decreases Pairs(which) - m
  {
    hide Replaced, EncryptWords, Put, NextWord, After, Xor, Row;
    if m < Pairs(which) {
      PairReplaced(g, salt, which, m);
      FillReplaces(Filled(g, salt, which, m), salt, which, m + 1);
    }
  }

  /** The schedule: the key goes into the subkeys, and then every word is replaced. */
  lemma ScheduleAsDescribed(t: Tables, key: seq<Byte>, salt: seq<Byte>)
    requires Sized(t) && key != [] && salt != []
    ensures var folded := t.(p := seq(SUBKEYS, k requires 0 <= k < SUBKEYS => Xor(t.p[k], Cycled(key, 4 * k))));
      Row(ExpandedSalted(t, key, salt)) == Replaced(Row(folded), salt, 0, 0, 0)
  {
    hide Replaced, FillSalted, FoldKey, Row, Cycled, Xor;
    var p := seq(SUBKEYS, k requires 0 <= k < SUBKEYS => Xor(t.p[k], Cycled(key, 4 * k)));
    forall k | 0 <= k < SUBKEYS ensures FoldKey(t.p, key, 0, 0)[k] == p[k] { KeyFolded(t.p, key, 0, 0, k); }
    assert FoldKey(t.p, key, 0, 0) == p;
    var g := Progress(t.(p := p), 0, 0, 0);
    FillReplaces(g, salt, 0, 0);
    var g0 := FillSalted(g, salt, 0, 0);
    FillReplaces(g0, salt, 1, 0);
    var g1 := FillSalted(g0, salt, 1, 0);
    FillReplaces(g1, salt, 2, 0);
    var g2 := FillSalted(g1, salt, 2, 0);
    FillReplaces(g2, salt, 3, 0);
    var g3 := FillSalted(g2, salt, 3, 0);
    FillReplaces(g3, salt, 4, 0);
    AllReplaced(Row(FillSalted(g3, salt, 4, 0).t), salt, FillSalted(g3, salt, 4, 0).l, FillSalted(g3, salt, 4, 0).r);
  }

  lemma AllReplaced(s: seq<Word>, salt: seq<Byte>, l: Word, r: Word)
    requires |s| == 1042 && salt != []
    ensures Replaced(s, salt, l, r, 521) == s
  {
  }
}
