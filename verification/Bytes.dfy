/** Bytes, and integers written as bytes. */
module Bytes {

  type byte = x: int | 0 <= x < 256

  function Pow2(n: nat): (r: nat)
    ensures r > 0
  {
    if n == 0 then 1 else 2 * Pow2(n - 1)
  }

  /** Bitwise exclusive or of the last `n` bits. */
  function XorBits(a: nat, b: nat, n: nat): (r: nat)
    ensures r < Pow2(n)
  {
    if n == 0 then 0 else 2 * XorBits(a / 2, b / 2, n - 1) + if a % 2 == b % 2 then 0 else 1
  }

  lemma {:induction false} XorBitsTwice(a: nat, b: nat, n: nat)
    requires a < Pow2(n)
    ensures XorBits(XorBits(a, b, n), b, n) == a
  {
    if n > 0 {
      var high, low := XorBits(a / 2, b / 2, n - 1), if a % 2 == b % 2 then 0 else 1;
      assert (2 * high + low) / 2 == high && (2 * high + low) % 2 == low;
      XorBitsTwice(a / 2, b / 2, n - 1);
      assert XorBits(2 * high + low, b, n) == 2 * XorBits(high, b / 2, n - 1) + if low == b % 2 then 0 else 1;
    }
  }

  lemma ByteBits()
    ensures Pow2(8) == 256
  {
    assert Pow2(2) == 4 && Pow2(4) == 16 && Pow2(6) == 64;
  }

  function Xor(a: byte, b: byte): byte {
    ByteBits();
    XorBits(a, b, 8)
  }

  lemma XorTwice(a: byte, b: byte)
    ensures Xor(Xor(a, b), b) == a
  {
    ByteBits();
    XorBitsTwice(a, b, 8);
  }

  /** The bit of a number with weight two to the power of `i`. */
  function Bit(n: nat, i: nat): nat {
    n / Pow2(i) % 2
  }

  /** Dividing by a product is dividing by one factor and then by the other. */
  lemma Divided(n: int, k: nat, m: nat)
    requires k > 0 && m > 0
    ensures n / (k * m) == n / k / m
  {
    var q, r := n / k / m, n / k % m;
    assert n == k * (n / k) + n % k && n / k == q * m + r;
    assert k * (q * m + r) == q * (k * m) + k * r;
    Above(r, m, k);
    assert k * m > 0;
    Quotient(n, q, k * m, k * r + n % k);
  }

  lemma Quotient(n: int, q: int, d: nat, r: nat)
    requires n == q * d + r && r < d
    ensures n / d == q
  {
    var p := n / d;
    assert n == p * d + n % d;
    if p < q { Above(p, q, d); }
    if p > q { Above(q, p, d); }
  }

  lemma {:induction false} Above(p: int, q: int, d: nat)
    requires p < q
    ensures p * d + d <= q * d
    decreases q - p
  {
    assert q * d == (q - 1) * d + d;
    if p < q - 1 { Above(p, q - 1, d); }
  }

  lemma BitAbove(n: nat, i: nat)
    ensures Bit(n, 0) == n % 2 && Bit(n, i + 1) == Bit(n / 2, i)
  {
    Divided(n, 2, Pow2(i));
  }

  lemma {:induction false} XorBitsAt(a: nat, b: nat, n: nat, i: nat)
    requires i < n
    ensures Bit(XorBits(a, b, n), i) == 1 <==> Bit(a, i) != Bit(b, i)
  {
    hide Bit;
    var x := XorBits(a, b, n);
    assert x / 2 == XorBits(a / 2, b / 2, n - 1);
    var k := if i > 0 then i - 1 else 0;
    BitAbove(a, k);
    BitAbove(b, k);
    BitAbove(x, k);
    if i > 0 { XorBitsAt(a / 2, b / 2, n - 1, i - 1); }
  }

  /** A bit of the result is set where the two bytes differ. */
  lemma XorAt(a: byte, b: byte, i: nat)
    requires i < 8
    ensures Bit(Xor(a, b), i) == 1 <==> Bit(a, i) != Bit(b, i)
  {
    XorBitsAt(a, b, 8, i);
  }

  lemma {:induction false} XorBitsNone(a: nat, n: nat)
    requires a < Pow2(n)
    ensures XorBits(a, 0, n) == a
  {
    if n > 0 { XorBitsNone(a / 2, n - 1); }
  }

  lemma XorNone(a: byte)
    ensures Xor(a, 0) == a
  {
    ByteBits();
    XorBitsNone(a, 8);
  }

  /** The last `w` bytes of a number, most significant first. */
  function BigEndian(n: nat, w: nat): (r: seq<byte>)
    ensures |r| == w
  {
    if w == 0 then [] else BigEndian(n / 256, w - 1) + [n % 256]
  }

  function FromBigEndian(s: seq<byte>): nat {
    if s == [] then 0 else 256 * FromBigEndian(s[..|s| - 1]) + s[|s| - 1]
  }

  function Pow256(w: nat): nat {
    if w == 0 then 1 else 256 * Pow256(w - 1)
  }

  lemma {:induction false} FromBigEndianBack(s: seq<byte>)
    ensures BigEndian(FromBigEndian(s), |s|) == s && FromBigEndian(s) < Pow256(|s|)
  {
    if s != [] {
      var front, last := s[..|s| - 1], s[|s| - 1];
      FromBigEndianBack(front);
      var n := FromBigEndian(s);
      assert n / 256 == FromBigEndian(front) && n % 256 == last;
      assert s == front + [last];
    }
  }

  lemma {:induction false} TopBitClear(s: seq<byte>)
    requires s != [] && s[0] < 128
    ensures FromBigEndian(s) < 128 * Pow256(|s| - 1)
  {
    if |s| > 1 {
      TopBitClear(s[..|s| - 1]);
    } else {
      assert FromBigEndian(s[..0]) == 0;
    }
  }

  lemma {:induction false} BigEndianBack(n: nat, w: nat)
    requires n < Pow256(w)
    ensures FromBigEndian(BigEndian(n, w)) == n
  {
    if w > 0 {
      BigEndianBack(n / 256, w - 1);
      assert BigEndian(n, w)[..w - 1] == BigEndian(n / 256, w - 1);
    }
  }

  lemma Pow256Positive(w: nat)
    ensures Pow256(w) > 0
  {
  }

  /** The byte at `i` counts 256 to the power of the bytes behind it. */
  lemma {:induction false} BigEndianAt(n: nat, w: nat, i: nat)
    requires i < w
    ensures Pow256(w - 1 - i) > 0 && BigEndian(n, w)[i] == n / Pow256(w - 1 - i) % 256
  {
    Pow256Positive(w - 1 - i);
    if i < w - 1 {
      var m := Pow256(w - 2 - i);
      BigEndianAt(n / 256, w - 1, i);
      Divided(n, 256, m);
    }
  }

  /** Copies bytes into a buffer. */
  method CopyInto(b: array<byte>, at: nat, s: seq<byte>)
    requires at + |s| <= b.Length
    modifies b
    ensures b[at..at + |s|] == s
    ensures forall i :: 0 <= i < b.Length && !(at <= i < at + |s|) ==> b[i] == old(b[i])
  {
    forall i | 0 <= i < |s| { b[at + i] := s[i]; }
  }

  lemma Regroup(a: seq<byte>, p: seq<byte>, k: nat)
    requires k <= |p|
    ensures (a + p[..k]) + p[k..] == a + p
  {
  }

  lemma Split(s: seq<byte>, n: nat, k: nat)
    requires n <= k <= |s|
    ensures s[..k] == s[..n] + s[n..k] && s[n..][..k - n] == s[n..k]
  {
  }

  lemma Join(s: seq<byte>, i: nat, j: nat, k: nat)
    requires i <= j <= k <= |s|
    ensures s[i..k] == s[i..j] + s[j..k]
  {
  }
}
