/** What the pieces of the two hash functions stand for: rotations, words of a block, padding and digests as numbers. */
module HashLaws {
  import opened Arith
  import opened Octets
  import opened Word32
  import opened BlockHash
  import H = Sha256
  import S = Sha256Stream
  import B = Md5Block
  import M = Md5Stream

  // ---- shifts and rotations ------------------------------------------------

  lemma {:induction false} ShrValue(x: Word, n: nat)
    ensures Shr(x, n) == x / Pow2(n)
    decreases n
  {
    if n > 0 {
      ShrValue(x / 2, n - 1);
      HalfDivides(x, Pow2(n - 1));
    }
  }

  lemma HalfDivides(x: nat, p: nat)
    requires p > 0
    ensures x / 2 / p == x / (2 * p)
  {
    var q, r := x / 2 / p, x / 2 % p;
    assert x / 2 == q * p + r;
    assert q * (2 * p) == 2 * (q * p);
    assert x == q * (2 * p) + (2 * r + x % 2);
    DivUnique(x, 2 * p, q, 2 * r + x % 2);
  }

  lemma DivUnique(x: int, d: int, q: int, r: int)
    requires d > 0 && x == q * d + r && 0 <= r < d
    ensures x / d == q && x % d == r
  {
    var k := x / d - q;
    assert (x / d) * d == (q + k) * d == q * d + k * d;
    assert k * d == r - x % d;
    if k >= 1 {
      MulMono(d, 1, k);
      assert false;
    } else if k <= -1 {
      MulMono(d, k, -1);
      assert false;
    }
  }

  lemma {:induction false} ShlValue(x: Word, n: nat)
    ensures Shl(x, n) == x * Pow2(n) % 0x1_0000_0000
    decreases n
  {
    if n > 0 {
      var y := 2 * x % 0x1_0000_0000;
      ShlValue(y, n - 1);
      ReducedFirst(2 * x, Pow2(n - 1));
      assert 2 * x * Pow2(n - 1) == x * (2 * Pow2(n - 1)) by {
        Doubled(x, Pow2(n - 1));
      }
    }
  }

  lemma Doubled(x: int, p: int)
    ensures 2 * x * p == x * (2 * p)
  {
  }

  /** Reducing a factor first makes no difference. */
  lemma ReducedFirst(z: int, p: int)
    ensures z % 0x1_0000_0000 * p % 0x1_0000_0000 == z * p % 0x1_0000_0000
  {
    var y, k := z % 0x1_0000_0000, z / 0x1_0000_0000;
    Spread(0x1_0000_0000, k, y, p);
    assert k * (0x1_0000_0000 * p) == k * p * 0x1_0000_0000;
    ModMultiple(y * p, k * p);
  }

  lemma ModMultiple(a: int, k: int)
    ensures (a + k * 0x1_0000_0000) % 0x1_0000_0000 == a % 0x1_0000_0000
  {
  }

  /** Or and exclusive or of numbers that share no bit are their sum. */
  lemma {:induction false} Disjoint(op: BitOp, x: nat, y: nat, k: nat, n: nat)
    requires op != AndOp && k <= n && x < Pow2(k) && y % Pow2(k) == 0 && y < Pow2(n)
    ensures Bitwise(op, x, y, n) == Bitwise(op, y, x, n) == x + y
    decreases n
  {
    if n > 0 {
      if k == 0 {
        assert x == 0;
        Disjoint(op, 0, y / 2, 0, n - 1);
      } else {
        LowerHalf(y, Pow2(k - 1));
        Disjoint(op, x / 2, y / 2, k - 1, n - 1);
      }
    }
  }

  lemma LowerHalf(y: nat, p: nat)
    requires p > 0 && y % (2 * p) == 0
    ensures y % 2 == 0 && y / 2 % p == 0
  {
    var q := y / (2 * p);
    assert y == q * (2 * p) == 2 * (q * p);
    assert y / 2 == q * p;
    DivUnique(y / 2, p, q, 0);
  }

  /** The n low bits go to the top, the others move down. */
  lemma RotrValue(x: Word, n: nat)
    requires 0 < n <= 32
    ensures H.Rotr(x, n) == x / Pow2(n) + x % Pow2(n) * Pow2(32 - n)
  {
    var p, t := Pow2(n), Pow2(32 - n);
    Pow2Word();
    Pow2Add(n, 32 - n);
    ShrValue(x, n);
    ShlValue(x, 32 - n);
    RotatedParts(x, p, t);
    Disjoint(OrOp, x / p, x % p * t, 32 - n, 32);
  }

  /** Shifting x up by as many bits as leave room for those shifted out at the bottom. */
  lemma RotatedParts(x: Word, p: nat, t: nat)
    requires p > 0 && t > 0 && p * t == 0x1_0000_0000
    ensures x * t % 0x1_0000_0000 == x % p * t < 0x1_0000_0000 && x / p < t && x % p * t % t == 0
  {
    var q, r := x / p, x % p;
    assert x == p * q + r;
    Spread(p, q, r, t);
    MulMono(t, r + 1, p);
    assert t * (r + 1) == r * t + t && t * p == p * t;
    ModMultiple(r * t, q);
    MultipleMod(r, t);
    if q >= t {
      MulMono(p, t, q);
      assert false;
    }
  }

  lemma Spread(p: int, q: int, r: int, t: int)
    ensures (p * q + r) * t == r * t + q * (p * t)
  {
    assert (p * q + r) * t == p * q * t + r * t;
    assert p * q * t == q * (p * t) by {
      assert p * q == q * p;
      MulAssoc(q, p, t);
    }
  }

  /** The n top bits go to the bottom. */
  lemma RotlValue(x: Word, n: nat)
    requires 0 < n < 32
    ensures B.Rotl(x, n) == x % Pow2(32 - n) * Pow2(n) + x / Pow2(32 - n)
  {
    var p, t := Pow2(32 - n), Pow2(n);
    Pow2Word();
    Pow2Add(32 - n, n);
    ShrValue(x, 32 - n);
    ShlValue(x, n);
    RotatedParts(x, p, t);
    Disjoint(OrOp, x / p, x % p * t, n, 32);
  }

  // ---- SHA-256 -------------------------------------------------------------

  lemma PowersOfTwo()
    ensures Pow2(6) == 0x40 && Pow2(9) == 0x200 && Pow2(12) == 0x1000 && Pow2(13) == 0x2000 && Pow2(14) == 0x4000
    ensures Pow2(18) == 0x4_0000 && Pow2(20) == 0x10_0000 && Pow2(21) == 0x20_0000 && Pow2(24) == 0x100_0000
    ensures Pow2(25) == 0x200_0000 && Pow2(28) == 0x1000_0000 && Pow2(29) == 0x2000_0000 && Pow2(31) == 0x8000_0000
  {
    assert Pow2(6) == 64;
    Pow2Add(6, 3);
    Pow2Add(6, 6);
    Pow2Add(12, 6);
    Pow2Add(18, 6);
    Pow2Add(24, 4);
  }

  /** The top bit moves down by n. */
  lemma TopBit(n: nat)
    requires 0 < n < 32
    ensures H.Rotr(0x8000_0000, n) == Shr(0x8000_0000, n) == Pow2(31 - n)
  {
    PowersOfTwo();
    Pow2Add(31 - n, n);
    RotrValue(0x8000_0000, n);
    ShrValue(0x8000_0000, n);
    DivUnique(0x8000_0000, Pow2(n), Pow2(31 - n), 0);
  }

  lemma XorApart(x: Word, y: Word, k: nat)
    requires k <= 32 && x < Pow2(k) && y % Pow2(k) == 0
    ensures Xor(x, y) == Xor(y, x) == x + y
  {
    Pow2Word();
    Disjoint(XorOp, x, y, k, 32);
  }

  /** Where the four functions of section 4.1.2 of FIPS 180-4 that mix one word send its top bit, which fixes by how much they rotate
      and shift. */
  lemma SigmasOfTopBit()
    ensures H.BigSigma0(0x8000_0000) == Pow2(29) + Pow2(18) + Pow2(9)
    ensures H.BigSigma1(0x8000_0000) == Pow2(25) + Pow2(20) + Pow2(6)
    ensures H.SmallSigma0(0x8000_0000) == Pow2(24) + Pow2(13) + Pow2(28)
    ensures H.SmallSigma1(0x8000_0000) == Pow2(14) + Pow2(12) + Pow2(21)
  {
    BigSigmasOfTopBit();
    SmallSigmasOfTopBit();
  }

  lemma BigSigmasOfTopBit()
    ensures H.BigSigma0(0x8000_0000) == Pow2(29) + Pow2(18) + Pow2(9)
    ensures H.BigSigma1(0x8000_0000) == Pow2(25) + Pow2(20) + Pow2(6)
  {
    PowersOfTwo();
    TopBit(2);
    TopBit(13);
    TopBit(22);
    XorApart(0x4_0000, 0x2000_0000, 29);
    XorApart(0x200, 0x2004_0000, 18);
    TopBit(6);
    TopBit(11);
    TopBit(25);
    XorApart(0x10_0000, 0x200_0000, 25);
    XorApart(0x40, 0x210_0000, 20);
  }

  lemma SmallSigmasOfTopBit()
    ensures H.SmallSigma0(0x8000_0000) == Pow2(24) + Pow2(13) + Pow2(28)
    ensures H.SmallSigma1(0x8000_0000) == Pow2(14) + Pow2(12) + Pow2(21)
  {
    PowersOfTwo();
    TopBit(7);
    TopBit(18);
    TopBit(3);
    XorApart(0x2000, 0x100_0000, 24);
    XorApart(0x100_2000, 0x1000_0000, 28);
    TopBit(17);
    TopBit(19);
    TopBit(10);
    XorApart(0x1000, 0x4000, 14);
    XorApart(0x5000, 0x20_0000, 21);
  }

  /** Word t of a block is the number of its four bytes, high-order byte first. */
  lemma ShaWord(b: seq<Byte>, t: nat)
    requires |b| == 64 && t < 16
    ensures S.Words(b)[t] == BeValue(b[4 * t..4 * t + 4])
  {
    FourBe(b[4 * t..4 * t + 4]);
  }

  /** Decoding a word undoes encoding it. */
  lemma ShaWordInverts(u: Word)
    ensures S.BeWord(Be32(u), 0) == u
  {
    WordBytes(u);
  }

  lemma Be64Value(u: int)
    requires 0 <= u < 0x1_0000_0000_0000_0000
    ensures BeValue(S.Be64(u)) == u
  {
    Be32Value(u / 0x1_0000_0000);
    Be32Value(u % 0x1_0000_0000);
    BeConcat(Be32(u / 0x1_0000_0000), Be32(u % 0x1_0000_0000));
  }

  /** Bytes 4i to 4i + 3 of the digest are word i, high-order byte first. */
  lemma {:induction false} DigestWord(h: seq<Word>, i: nat)
    requires i < |h|
    ensures |S.BeBytes(h)| == 4 * |h| && S.BeBytes(h)[4 * i..4 * i + 4] == Be32(h[i])
    decreases |h|
  {
    var n := |h| - 1;
    DigestLength(h[..n]);
    if i < n {
      DigestWord(h[..n], i);
    }
  }

  lemma {:induction false} DigestLength(h: seq<Word>)
    ensures |S.BeBytes(h)| == 4 * |h|
    decreases |h|
  {
    if h != [] {
      DigestLength(h[..|h| - 1]);
    }
  }

  /** A message, a byte 0x80, zeros, and eight bytes more, which complete a block. */
  ghost predicate PaddedWith(p: seq<Byte>, m: seq<Byte>, length: seq<Byte>) {
    && |p| % 64 == 0 && |m| + 9 <= |p| < |m| + 73 && p[..|m|] == m && p[|m|] == 0x80
    && (forall k :: |m| < k < |p| - 8 ==> p[k] == 0) && p[|p| - 8..] == length
  }

  lemma PaddedForm(m: seq<Byte>, length: seq<Byte>)
    requires |length| == 8
    ensures PaddedWith(m + PadFirst(|m|) + length, m, length)
  {
    var z := PadZeros(|m|);
    var p := m + PadFirst(|m|) + length;
    assert |p| == |m| + 1 + z + 8 && (|m| + 1 + z) % 64 == 56;
  }

  /** Section 5.1.1 of FIPS 180-4: the eight bytes are the number of bits of the message. */
  lemma ShaPadded(m: seq<Byte>) returns (length: seq<Byte>)
    ensures PaddedWith(m + S.Padding(|m|), m, length) && BeValue(length) == 8 * |m| % 0x1_0000_0000_0000_0000
  {
    length := S.Be64(S.BitCount(|m|));
    Be64Value(S.BitCount(|m|));
    PaddedForm(m, length);
    Appended(m, PadFirst(|m|), length);
  }

  // ---- MD5 -----------------------------------------------------------------

  /** Word k of a block is the number of its four bytes, low-order byte first. */
  lemma Md5Word(b: seq<Byte>, k: nat)
    requires |b| == 64 && k < 16
    ensures B.Words(b)[k] == LeValue(b[4 * k..4 * k + 4])
  {
    FourLe(b[4 * k..4 * k + 4]);
  }

  /** Section 3.2 of RFC 1321: the eight bytes are the number of bits of the message, low-order byte first. */
  lemma Md5Padded(m: seq<Byte>) returns (length: seq<Byte>)
    ensures PaddedWith(M.Padded(m), m, length) && LeValue(length) == 8 * |m| % 0x1_0000_0000_0000_0000
  {
    length := M.LengthField(|m|);
    var bits := 8 * (|m| % 0x2000_0000_0000_0000);
    PaddedForm(m, length);
    Le32Value(bits % 0x1_0000_0000);
    Le32Value(bits / 0x1_0000_0000);
    LeConcat(Le32(bits % 0x1_0000_0000), Le32(bits / 0x1_0000_0000));
    BitsModulo(|m|);
  }

  lemma BitsModulo(len: nat)
    ensures 8 * (len % 0x2000_0000_0000_0000) == 8 * len % 0x1_0000_0000_0000_0000
  {
    var q, r := len / 0x2000_0000_0000_0000, len % 0x2000_0000_0000_0000;
    assert 8 * len == q * 0x1_0000_0000_0000_0000 + 8 * r;
    DivUnique(8 * len, 0x1_0000_0000_0000_0000, q, 8 * r);
  }

  /** The digest is the registers A, B, C, D, each low-order byte first. */
  lemma Md5DigestWords(r: B.Regs)
    ensures var d := M.Bytes(r);
            && |d| == 16 && LeValue(d[..4]) == r.a && LeValue(d[4..8]) == r.b
            && LeValue(d[8..12]) == r.c && LeValue(d[12..]) == r.d
  {
    var d := M.Bytes(r);
    assert d[..4] == Le32(r.a) && d[4..8] == Le32(r.b) && d[8..12] == Le32(r.c) && d[12..] == Le32(r.d);
    Le32Value(r.a);
    Le32Value(r.b);
    Le32Value(r.c);
    Le32Value(r.d);
  }
}
