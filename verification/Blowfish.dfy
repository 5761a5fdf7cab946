/** The Blowfish cipher (golang.org/x/crypto/blowfish): block encryption and decryption, and the two
    key schedules. */
module Blowfish {

  type Word = bv32
  type Byte = bv8

  const SUBKEYS := 18
  const BOX := 256
  const BLOCK := 8

  /** The contents of a cipher: the subkeys and the four substitution boxes. */
  datatype Tables = Tables(p: seq<Word>, s0: seq<Word>, s1: seq<Word>, s2: seq<Word>, s3: seq<Word>)

  predicate Sized(t: Tables) {
    |t.p| == SUBKEYS && |t.s0| == BOX && |t.s1| == BOX && |t.s2| == BOX && |t.s3| == BOX
  }

  function Xor(x: Word, y: Word): Word {
    x ^ y
  }

  lemma XorBack(x: Word, y: Word)
    ensures Xor(Xor(x, y), y) == x
  {
  }

  lemma XorZero(x: Word)
    ensures Xor(x, 0) == x
  {
  }

  // --- One block ----------------------------------------------------------------------------

  function Index(b: Byte): (i: nat)
    ensures i < BOX
  {
    b as nat
  }

  /** Byte `k` of a word, the lowest is byte 0. */
  function ByteAt(w: Word, k: nat): Byte
    requires k < 4
  {
    if k == 0 then (w & 0xFF) as Byte
    else if k == 1 then ((w >> 8) & 0xFF) as Byte
    else if k == 2 then ((w >> 16) & 0xFF) as Byte
    else ((w >> 24) & 0xFF) as Byte
  }

  /** What the boxes give, put together. Additions wrap around. */
  function Combine(a: Word, b: Word, c: Word, d: Word): Word {
    ((a + b) ^ c) + d
  }

  /** The round function. */
  function F(t: Tables, x: Word): Word
    requires Sized(t)
  {
    Combine(t.s0[Index(ByteAt(x, 3))], t.s1[Index(ByteAt(x, 2))], t.s2[Index(ByteAt(x, 1))], t.s3[Index(ByteAt(x, 0))])
  }

  /** Rounds `k` to `n - 1` with subkeys `q`: `a` is the half that was changed last. */
  function Rounds(t: Tables, q: seq<Word>, a: Word, b: Word, k: nat, n: nat): (Word, Word)
    requires Sized(t) && k <= n <= |q|
    decreases n - k
  {
    if k == n then (a, b) else Rounds(t, q, Xor(b, Xor(F(t, a), q[k])), a, k + 1, n)
  }

  /** A Feistel network over subkeys `q`. */
  function Feistel(t: Tables, q: seq<Word>, l: Word, r: Word): (Word, Word)
    requires Sized(t) && |q| == SUBKEYS
  {
    var (a, b) := Rounds(t, q, Xor(l, q[0]), r, 1, 17);
    (Xor(b, q[17]), a)
  }

  function Reverse(q: seq<Word>): (r: seq<Word>)
    ensures |r| == |q|
  {
    if q == [] then [] else Reverse(q[1..]) + [q[0]]
  }

  lemma {:induction false} ReverseAt(q: seq<Word>, i: nat)
    requires i < |q|
    ensures Reverse(q)[i] == q[|q| - 1 - i]
  {
    if i < |q| - 1 {
      ReverseAt(q[1..], i);
    }
  }

  /** Rounds are undone by the same rounds with the subkeys in reverse order and the halves
      swapped. */
  lemma {:induction false} RoundsBack(t: Tables, q: seq<Word>, q': seq<Word>, a: Word, b: Word, k: nat, n: nat, k': nat)
    requires Sized(t) && k <= n <= |q| && k' + (n - k) <= |q'|
    requires forall i :: k <= i < n ==> q'[k' + (n - 1 - i)] == q[i]
    ensures var (x, y) := Rounds(t, q, a, b, k, n); Rounds(t, q', y, x, k', k' + (n - k)) == (b, a)
    decreases n - k
  {
    hide F, Xor;
    if k < n {
      var c := Xor(b, Xor(F(t, a), q[k]));
      var (x, y) := Rounds(t, q, c, a, k + 1, n);
      RoundsBack(t, q, q', c, a, k + 1, n, k');
      RoundsSplit(t, q', y, x, k', k' + (n - k - 1), k' + (n - k));
      XorBack(b, Xor(F(t, a), q[k]));
    }
  }

  lemma {:induction false} RoundsSplit(t: Tables, q: seq<Word>, a: Word, b: Word, k: nat, m: nat, n: nat)
    requires Sized(t) && k <= m <= n <= |q|
    ensures var (x, y) := Rounds(t, q, a, b, k, m); Rounds(t, q, a, b, k, n) == Rounds(t, q, x, y, m, n)
    decreases m - k
  {
    hide F, Xor;
    if k < m {
      RoundsSplit(t, q, Xor(b, Xor(F(t, a), q[k])), a, k + 1, m, n);
    }
  }

  /** The network over reversed subkeys undoes the network. */
  lemma FeistelBack(t: Tables, q: seq<Word>, l: Word, r: Word)
    requires Sized(t) && |q| == SUBKEYS
    ensures var (x, y) := Feistel(t, q, l, r); Feistel(t, Reverse(q), x, y) == (l, r)
  {
    hide F, Rounds, Xor;
    var (a, b) := Rounds(t, q, Xor(l, q[0]), r, 1, 17);
    forall i | 0 <= i < SUBKEYS ensures Reverse(q)[17 - i] == q[i] { ReverseAt(q, 17 - i); }
    RoundsBack(t, q, Reverse(q), Xor(l, q[0]), r, 1, 17, 1);
    XorBack(b, q[17]);
    XorBack(l, q[0]);
  }

  lemma ReverseTwice(q: seq<Word>)
    ensures Reverse(Reverse(q)) == q
  {
    forall i | 0 <= i < |q| ensures Reverse(Reverse(q))[i] == q[i] {
      ReverseAt(Reverse(q), i);
      ReverseAt(q, |q| - 1 - i);
    }
  }

  function EncryptWords(t: Tables, l: Word, r: Word): (Word, Word)
    requires Sized(t)
  {
    Feistel(t, t.p, l, r)
  }

  function DecryptWords(t: Tables, l: Word, r: Word): (Word, Word)
    requires Sized(t)
  {
    Feistel(t, Reverse(t.p), l, r)
  }

  // --- Bytes --------------------------------------------------------------------------------

  function WordOf(a: Byte, b: Byte, c: Byte, d: Byte): Word {
    ((((a as Word) << 24) | ((b as Word) << 16)) | ((c as Word) << 8)) | (d as Word)
  }

  lemma BytesBack(a: Byte, b: Byte, c: Byte, d: Byte)
    ensures var w := WordOf(a, b, c, d);
      ByteAt(w, 3) == a && ByteAt(w, 2) == b && ByteAt(w, 1) == c && ByteAt(w, 0) == d
  {
  }

  lemma WordBack(w: Word)
    ensures WordOf(ByteAt(w, 3), ByteAt(w, 2), ByteAt(w, 1), ByteAt(w, 0)) == w
  {
  }

  /** A block as two words, and back. */
  function Words(s: seq<Byte>): (Word, Word)
    requires |s| == BLOCK
  {
    (WordOf(s[0], s[1], s[2], s[3]), WordOf(s[4], s[5], s[6], s[7]))
  }

  function Block(l: Word, r: Word): (s: seq<Byte>)
    ensures |s| == BLOCK
  {
    [ByteAt(l, 3), ByteAt(l, 2), ByteAt(l, 1), ByteAt(l, 0), ByteAt(r, 3), ByteAt(r, 2), ByteAt(r, 1), ByteAt(r, 0)]
  }

  lemma BlockBack(l: Word, r: Word)
    ensures Words(Block(l, r)) == (l, r)
  {
    hide WordOf, ByteAt;
    WordBack(l);
    WordBack(r);
  }

  lemma WordsBack(s: seq<Byte>)
    requires |s| == BLOCK
    ensures var (l, r) := Words(s); Block(l, r) == s
  {
    hide WordOf, ByteAt;
    BytesBack(s[0], s[1], s[2], s[3]);
    BytesBack(s[4], s[5], s[6], s[7]);
  }

  function EncryptBytes(t: Tables, s: seq<Byte>): (r: seq<Byte>)
    requires Sized(t) && |s| == BLOCK
    ensures |r| == BLOCK
  {
    var (l, r) := Words(s);
    var (x, y) := EncryptWords(t, l, r);
    Block(x, y)
  }

  function DecryptBytes(t: Tables, s: seq<Byte>): (r: seq<Byte>)
    requires Sized(t) && |s| == BLOCK
    ensures |r| == BLOCK
  {
    var (l, r) := Words(s);
    var (x, y) := DecryptWords(t, l, r);
    Block(x, y)
  }

  /** Decryption undoes encryption, and encryption decryption, whatever the tables hold. */
  lemma DecryptEncrypt(t: Tables, s: seq<Byte>)
    requires Sized(t) && |s| == BLOCK
    ensures DecryptBytes(t, EncryptBytes(t, s)) == s
    ensures EncryptBytes(t, DecryptBytes(t, s)) == s
  {
    hide Feistel, WordOf, ByteAt, Words, Block;
    var (l, r) := Words(s);
    WordsBack(s);
    FeistelBack(t, t.p, l, r);
    FeistelBack(t, Reverse(t.p), l, r);
    ReverseTwice(t.p);
    var (x, y) := Feistel(t, t.p, l, r);
    var (v, w) := Feistel(t, Reverse(t.p), l, r);
    BlockBack(x, y);
    BlockBack(v, w);
  }

  // --- The key schedules --------------------------------------------------------------------

  /** The next byte of a text that is read round and round. */
  function Around(j: nat, n: nat): nat {
    if j + 1 >= n then 0 else j + 1
  }

  /** The next big-endian word of such a text. */
  function NextWord(b: seq<Byte>, j: nat): Word
    requires j < |b|
  {
    var n := |b|;
    var j1 := Around(j, n);
    var j2 := Around(j1, n);
    var j3 := Around(j2, n);
    Push(Push(Push(Push(0, b[j]), b[j1]), b[j2]), b[j3])
  }

  function After(n: nat, j: nat): (r: nat)
    requires j < n
    ensures r < n
  {
    Around(Around(Around(Around(j, n), n), n), n)
  }

  function Push(w: Word, b: Byte): Word {
    (w << 8) | (b as Word)
  }

  lemma ZeroWord(b: seq<Byte>, j: nat)
    requires j < |b| && forall i :: 0 <= i < |b| ==> b[i] == 0
    ensures NextWord(b, j) == 0
  {
    assert Push(0, 0) == 0;
  }

  /** The subkeys from `i` on, with the key folded in. */
  function FoldKey(p: seq<Word>, key: seq<Byte>, i: nat, j: nat): (r: seq<Word>)
    requires i <= |p| && j < |key|
    ensures |r| == |p|
    decreases |p| - i
  {
    if i == |p| then p else FoldKey(p[i := Xor(p[i], NextWord(key, j))], key, i + 1, After(|key|, j))
  }

  /** Puts two words in place of pair `m` of table `which`: the subkeys, or one of the boxes. */
  function Put(t: Tables, which: nat, m: nat, l: Word, r: Word): (u: Tables)
    requires Sized(t) && which < 5 && m < Pairs(which)
    ensures Sized(u)
  {
    if which == 0 then t.(p := SetPair(t.p, m, l, r))
    else if which == 1 then t.(s0 := SetPair(t.s0, m, l, r))
    else if which == 2 then t.(s1 := SetPair(t.s1, m, l, r))
    else if which == 3 then t.(s2 := SetPair(t.s2, m, l, r))
    else t.(s3 := SetPair(t.s3, m, l, r))
  }

  function SetPair(s: seq<Word>, m: nat, l: Word, r: Word): (u: seq<Word>)
    requires 2 * m + 1 < |s|
    ensures |u| == |s|
  {
    s[2 * m := l][2 * m + 1 := r]
  }

  function Pairs(which: nat): nat {
    if which == 0 then SUBKEYS / 2 else BOX / 2
  }

  /** How far a key schedule has come: the tables, the last block, and the place in the salt. */
  datatype Progress = Progress(t: Tables, l: Word, r: Word, j: nat)

  /** Replaces table `which` from pair `i` on by encrypting over and over. */
  function Fill(g: Progress, which: nat, i: nat): (r: Progress)
    requires Sized(g.t) && which < 5 && i <= Pairs(which)
    ensures Sized(r.t) && r.j == g.j
    decreases Pairs(which) - i
  {
    if i == Pairs(which) then g
    else
      var (l, r) := EncryptWords(g.t, g.l, g.r);
      Fill(Progress(Put(g.t, which, i, l, r), l, r, g.j), which, i + 1)
  }

  /** The same with a salt that is mixed in. */
  function FillSalted(g: Progress, salt: seq<Byte>, which: nat, i: nat): (r: Progress)
    requires Sized(g.t) && which < 5 && i <= Pairs(which) && g.j < |salt|
    ensures Sized(r.t) && r.j < |salt|
    decreases Pairs(which) - i
  {
    if i == Pairs(which) then g
    else
      var l0, r0 := Xor(g.l, NextWord(salt, g.j)), Xor(g.r, NextWord(salt, After(|salt|, g.j)));
      var (l, r) := EncryptWords(g.t, l0, r0);
      FillSalted(Progress(Put(g.t, which, i, l, r), l, r, After(|salt|, After(|salt|, g.j))), salt, which, i + 1)
  }

  /** The four boxes in turn. */
  function Boxes(g: Progress): (r: Progress)
    requires Sized(g.t)
    ensures Sized(r.t)
  {
    var g1 := Fill(g, 1, 0);
    var g2 := Fill(g1, 2, 0);
    var g3 := Fill(g2, 3, 0);
    Fill(g3, 4, 0)
  }

  function BoxesSalted(g: Progress, salt: seq<Byte>): (r: Progress)
    requires Sized(g.t) && g.j < |salt|
    ensures Sized(r.t)
  {
    var g1 := FillSalted(g, salt, 1, 0);
    var g2 := FillSalted(g1, salt, 2, 0);
    var g3 := FillSalted(g2, salt, 3, 0);
    FillSalted(g3, salt, 4, 0)
  }

  function Expanded(t: Tables, key: seq<Byte>): (r: Tables)
    requires Sized(t) && key != []
    ensures Sized(r)
  {
    var g0 := Fill(Progress(t.(p := FoldKey(t.p, key, 0, 0)), 0, 0, 0), 0, 0);
    Boxes(g0).t
  }

  function ExpandedSalted(t: Tables, key: seq<Byte>, salt: seq<Byte>): (r: Tables)
    requires Sized(t) && key != [] && salt != []
    ensures Sized(r)
  {
    var g0 := FillSalted(Progress(t.(p := FoldKey(t.p, key, 0, 0)), 0, 0, 0), salt, 0, 0);
    BoxesSalted(g0, salt).t
  }

  lemma {:induction false} ZeroSaltFills(g: Progress, g': Progress, salt: seq<Byte>, which: nat, i: nat)
    requires Sized(g.t) && which < 5 && i <= Pairs(which) && g'.j < |salt|
    requires forall k :: 0 <= k < |salt| ==> salt[k] == 0
    requires g'.t == g.t && g'.l == g.l && g'.r == g.r
    ensures var x, y := Fill(g, which, i), FillSalted(g', salt, which, i); x.t == y.t && x.l == y.l && x.r == y.r
    decreases Pairs(which) - i
  {
    hide EncryptWords, Put, NextWord, After, Xor;
    if i < Pairs(which) {
      ZeroWord(salt, g'.j);
      ZeroWord(salt, After(|salt|, g'.j));
      XorZero(g.l);
      XorZero(g.r);
      var (l, r) := EncryptWords(g.t, g.l, g.r);
      var next := Put(g.t, which, i, l, r);
      ZeroSaltFills(Progress(next, l, r, g.j), Progress(next, l, r, After(|salt|, After(|salt|, g'.j))), salt, which, i + 1);
    }
  }

  /** The specialised key schedule is the one with a salt of zeros, of any length. */
  lemma ZeroSalt(t: Tables, key: seq<Byte>, salt: seq<Byte>)
    requires Sized(t) && key != [] && salt != [] && forall k :: 0 <= k < |salt| ==> salt[k] == 0
    ensures Expanded(t, key) == ExpandedSalted(t, key, salt)
  {
    hide Fill, FillSalted, FoldKey;
    var g := Progress(t.(p := FoldKey(t.p, key, 0, 0)), 0, 0, 0);
    ZeroSaltFills(g, g, salt, 0, 0);
    var g0, h0 := Fill(g, 0, 0), FillSalted(g, salt, 0, 0);
    ZeroSaltFills(g0, h0, salt, 1, 0);
    var g1, h1 := Fill(g0, 1, 0), FillSalted(h0, salt, 1, 0);
    ZeroSaltFills(g1, h1, salt, 2, 0);
    var g2, h2 := Fill(g1, 2, 0), FillSalted(h1, salt, 2, 0);
    ZeroSaltFills(g2, h2, salt, 3, 0);
    ZeroSaltFills(Fill(g2, 3, 0), FillSalted(h2, salt, 3, 0), salt, 4, 0);
  }
}
