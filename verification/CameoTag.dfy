/** The uImage header that carries two checksums at once: a CRC-32 over the whole header
    (section 8 of RFC 1952) and a byte sum over its first 56 bytes. */
module CameoTag {
  import opened Arith
  import opened Octets
  import opened Word32

  const POLYNOMIAL: Word := 0xedb8_8320

  /** One step of the division by the polynomial. */
  function Halved(p: Word, c: Word): Word {
    if c % 2 == 1 then Xor(p, c / 2) else c / 2
  }

  /** crc_table[n], shifting bit by bit. */
  function TableEntry(c: Word, k: nat): Word
    decreases k
  {
    if k == 0 then c else TableEntry(Halved(POLYNOMIAL, c), k - 1)
  }

  /** The register after one more byte. */
  function UpdateByte(c: Word, b: Byte): Word {
    Xor(TableEntry(And(Xor(c, b), 0xff), 8), Shr(c, 8))
  }

  /** A register updated byte by byte. */
  function Register(update: (Word, Byte) -> Word, c: Word, data: seq<Byte>): Word
    decreases |data|
  {
    if data == [] then c else update(Register(update, c, data[..|data| - 1]), data[|data| - 1])
  }

  function Crc32(data: seq<Byte>): Word {
    Xor(Register(UpdateByte, 0xffff_ffff, data), 0xffff_ffff)
  }

  function Sum(s: seq<Byte>): nat {
    if s == [] then 0 else Sum(s[..|s| - 1]) + s[|s| - 1] as int
  }

  lemma {:induction false} SumRange(s: seq<Byte>)
    ensures 0 <= Sum(s) <= 255 * |s|
  {
    if s != [] {
      SumRange(s[..|s| - 1]);
    }
  }

  // Bit facts the checksum trick rests on.

  /** The k lowest bits agree. */
  predicate SameLow(x: nat, y: nat, k: nat) {
    k == 0 || (x % 2 == y % 2 && SameLow(x / 2, y / 2, k - 1))
  }

  function Ones(k: nat): nat {
    if k == 0 then 0 else 2 * Ones(k - 1) + 1
  }

  lemma {:induction false} MaskedXor(x: nat, y: nat, k: nat, n: nat)
    requires SameLow(x, y, k)
    ensures Bitwise(AndOp, Bitwise(XorOp, x, y, n), Ones(k), n) == 0
  {
    if n > 0 {
      BitwiseStep(XorOp, x, y, n);
      if k > 0 {
        DoublePlus(Ones(k - 1), true);
        MaskedXor(x / 2, y / 2, k - 1, n - 1);
      } else {
        MaskedXor(x / 2, y / 2, 0, n - 1);
      }
    }
  }

  lemma {:induction false} SameLowMod(c: nat, k: nat)
    ensures SameLow(c, c % Pow2(k), k)
  {
    if k > 0 {
      HalfMod(c, Pow2(k - 1));
      SameLowMod(c / 2, k - 1);
    }
  }

  lemma HalfMod(c: nat, m: nat)
    requires m > 0
    ensures c % (2 * m) % 2 == c % 2 && c % (2 * m) / 2 == c / 2 % m
  {
    var q, r := c / (2 * m), c % (2 * m);
    assert c == 2 * (m * q + r / 2) + r % 2;
    assert c / 2 == m * q + r / 2 && c % 2 == r % 2;
    DivModUnique(c / 2, m, q, r / 2);
  }

  lemma LowByteOnes()
    ensures Ones(8) == 0xff && Pow2(8) == 256
  {
    assert Ones(4) == 15;
    assert Ones(8) == 16 * Ones(4) + 15;
  }

  lemma {:induction false} XorZeroBits(x: nat, n: nat)
    requires x < Pow2(n)
    ensures Bitwise(XorOp, 0, x, n) == x
  {
    if n > 0 {
      XorZeroBits(x / 2, n - 1);
    }
  }

  lemma XorZero(x: Word)
    ensures Xor(0, x) == x
  {
    Pow2Word();
    XorZeroBits(x, 32);
  }

  lemma {:induction false} XorTwiceBits(x: nat, y: nat, n: nat)
    requires x < Pow2(n)
    ensures Bitwise(XorOp, Bitwise(XorOp, x, y, n), y, n) == x
  {
    if n > 0 {
      BitwiseStep(XorOp, x, y, n);
      XorTwiceBits(x / 2, y / 2, n - 1);
    }
  }

  lemma XorTwice(x: Word, y: Word)
    ensures Xor(Xor(x, y), y) == x
  {
    Pow2Word();
    XorTwiceBits(x, y, 32);
  }

  lemma ShrByte(c: Word)
    ensures Shr(c, 8) == c / 256
  {
    var c2, c4 := c / 2 / 2, c / 2 / 2 / 2 / 2;
    assert c2 == c / 4 && c4 == c2 / 4;
    assert Shr(c, 8) == Shr(c / 2, 7) == Shr(c2, 6);
    assert Shr(c2, 6) == Shr(c2 / 2, 5) == Shr(c4, 4);
    assert Shr(c4, 4) == Shr(c4 / 2, 3) == Shr(c4 / 2 / 2, 2);
    assert Shr(c4 / 2 / 2, 2) == Shr(c4 / 2 / 2 / 2, 1) == c4 / 2 / 2 / 2 / 2;
    assert c4 / 2 / 2 == c4 / 4 && c4 / 4 / 2 / 2 == c4 / 16 && c4 == c / 16;
  }

  lemma TableZero()
    ensures TableEntry(0, 8) == 0
  {
    assert TableEntry(0, 4) == 0;
    assert TableEntry(0, 8) == TableEntry(0, 4);
  }

  /** The table entry of a single top bit is the polynomial of section 8 of RFC 1952. */
  lemma PolynomialEntry()
    ensures TableEntry(0x80, 8) == 0xedb8_8320
  {
    BytePowers(7);
    assert Pow2(4) == 16;
    Pow2Add(4, 3);
    SingleBit(7);
  }

  lemma BytePowers(k: nat)
    requires k < 8
    ensures Pow2(k) < 256
  {
    assert Pow2(4) == 16;
    Pow2Add(4, 3);
    Pow2Add(k, 7 - k);
    MulMono(Pow2(k), 1, Pow2(7 - k));
  }

  lemma {:induction false} SingleBit(k: nat)
    requires k < 8 && Pow2(k) < 256
    ensures TableEntry(Pow2(k), k + 1) == POLYNOMIAL
  {
    if k == 0 {
      LastBit(POLYNOMIAL);
    } else {
      SingleBit(k - 1);
      Even(POLYNOMIAL, Pow2(k - 1));
    }
  }

  lemma LastBit(p: Word)
    ensures Halved(p, 1) == p
  {
    XorZero(p);
    XorSwap(p, 0);
  }

  lemma Even(p: Word, c: Word)
    requires c < 256
    ensures Halved(p, 2 * c) == c
  {
  }

  lemma {:induction false} XorSwapBits(x: nat, y: nat, n: nat)
    ensures Bitwise(XorOp, x, y, n) == Bitwise(XorOp, y, x, n)
    decreases n
  {
    if n > 0 {
      XorSwapBits(x / 2, y / 2, n - 1);
    }
  }

  lemma XorSwap(x: Word, y: Word)
    ensures Xor(x, y) == Xor(y, x)
  {
    XorSwapBits(x, y, 32);
  }

  lemma {:induction false} XorRoom(x: nat, y: nat, n: nat)
    requires x < Pow2(n) && y < Pow2(n)
    ensures Bitwise(XorOp, x, y, n + 1) == Bitwise(XorOp, x, y, n)
    decreases n
  {
    if n > 0 {
      XorRoom(x / 2, y / 2, n - 1);
    } else {
      assert x == 0 && y == 0;
      assert Bitwise(XorOp, x / 2, y / 2, 0) == 0;
    }
  }

  lemma XorHalf(a: Word, b: Word)
    ensures Xor(a, b) / 2 == Xor(a / 2, b / 2) && (Xor(a, b) % 2 == 1 <==> a % 2 != b % 2)
  {
    Pow2Word();
    assert Pow2(32) == 2 * Pow2(31);
    BitwiseStep(XorOp, a, b, 32);
    XorRoom(a / 2, b / 2, 31);
  }

  /** Table entries are linear: together with those of the single bits, this determines all of them. */
  lemma {:induction false} TableLinear(a: Word, b: Word, k: nat)
    ensures TableEntry(Xor(a, b), k) == Xor(TableEntry(a, k), TableEntry(b, k))
    decreases k
  {
    if k > 0 {
      HalvedLinear(POLYNOMIAL, a, b);
      TableLinear(Halved(POLYNOMIAL, a), Halved(POLYNOMIAL, b), k - 1);
    }
  }

  lemma HalvedLinear(p: Word, a: Word, b: Word)
    ensures Halved(p, Xor(a, b)) == Xor(Halved(p, a), Halved(p, b))
  {
    var x, y := a / 2, b / 2;
    XorHalf(a, b);
    XorAssoc(p, x, y);
    XorAssoc(x, p, y);
    XorSwap(x, p);
    XorAssoc(p, x, Xor(p, y));
    XorAssoc(x, p, Xor(p, y));
    XorAssoc(p, p, y);
    XorTwice(0, p);
    XorZero(p);
    XorZero(y);
    XorSwap(p, Xor(x, Xor(p, y)));
    XorTwice(Xor(x, y), p);
    XorAssoc(x, y, p);
    XorSwap(y, p);
  }

  /** Feeding the register its own low byte shifts it out. */
  lemma OwnByte(c: Word)
    ensures UpdateByte(c, c % 256) == c / 256
  {
    LowByteOnes();
    SameLowMod(c, 8);
    MaskedXor(c, c % 256, 8, 32);
    TableZero();
    ShrByte(c);
    XorZero(c / 256);
  }

  function LeBytes(u: Word, k: nat): seq<Byte>
    decreases k
  {
    if k == 0 then [] else [u % 256] + LeBytes(u / 256, k - 1)
  }

  function Drop(u: Word, k: nat): Word
    decreases k
  {
    if k == 0 then u else Drop(u / 256, k - 1)
  }

  /** A register that shifts out its own low byte is emptied by its own bytes. */
  lemma {:induction false} Drain(update: (Word, Byte) -> Word, c: Word, data: seq<Byte>, k: nat)
    requires forall x: Word :: update(x, x % 256) == x / 256
    ensures var r := Register(update, c, data); Register(update, c, data + LeBytes(r, k)) == Drop(r, k)
    decreases k
  {
    var r := Register(update, c, data);
    if k == 0 {
      assert data + LeBytes(r, 0) == data;
    } else {
      var more := data + [r % 256];
      assert more[..|data|] == data;
      Drain(update, c, more, k - 1);
      assert data + LeBytes(r, k) == more + LeBytes(r / 256, k - 1);
    }
  }

  lemma FourBytes(u: Word)
    ensures LeBytes(u, 4) == Le32(u) && Drop(u, 4) == 0
  {
    var a, b, c := u / 256, u / 256 / 256, u / 256 / 256 / 256;
    assert b == u / 0x1_0000 && c == u / 0x100_0000 && c / 256 == 0;
    assert LeBytes(c, 1) == [c % 256] + LeBytes(c / 256, 0);
    assert LeBytes(b, 2) == [b % 256] + LeBytes(c, 1);
    assert LeBytes(a, 3) == [a % 256] + LeBytes(b, 2);
    assert Drop(u, 4) == Drop(a, 3) == Drop(b, 2) == Drop(c, 1) == Drop(c / 256, 0);
  }

  /** Appending the CRC register in little-endian order empties it. */
  lemma OwnRegister(data: seq<Byte>)
    ensures var r := Register(UpdateByte, 0xffff_ffff, data); Register(UpdateByte, 0xffff_ffff, data + Le32(r)) == 0
  {
    forall x: Word ensures UpdateByte(x, x % 256) == x / 256 {
      OwnByte(x);
    }
    Drain(UpdateByte, 0xffff_ffff, data, 4);
    FourBytes(Register(UpdateByte, 0xffff_ffff, data));
  }

  /** invertcrc. */
  function InvertCrc(data: seq<Byte>): seq<Byte> {
    Le32(Xor(Crc32(data), 0xffff_ffff))
  }

  /** The fact the header relies on: data followed by its inverted CRC has CRC 0xffffffff. */
  lemma InvertedCrcFixed(data: seq<Byte>)
    ensures Crc32(data + InvertCrc(data)) == 0xffff_ffff
  {
    XorTwice(Register(UpdateByte, 0xffff_ffff, data), 0xffff_ffff);
    OwnRegister(data);
    XorZero(0xffff_ffff);
  }

  const CAMEO_TAG: seq<Byte> := [0x43, 0x41, 0x4d, 0x45, 0x4f, 0x54, 0x41, 0x47, 0x00, 0x00, 0x00, 0x01]
  const IMAGE_NAME: seq<Byte> := [0x4f, 0x70, 0x65, 0x6e, 0x57, 0x72, 0x74, 0x00, 0x00, 0x00, 0x00, 0x00]
  const CRC_00: seq<Byte> := [0x00, 0x00, 0x00, 0x00]
  const CRC_FF: seq<Byte> := [0xff, 0xff, 0xff, 0xff]

  /** cameosum. */
  function CameoSum(data: seq<Byte>): seq<Byte> {
    Be32(Sum(data) % 0x1_0000_0000)
  }

  /** buf[off:off + |src|] = src. */
  method Assign(buf: array<Byte>, off: nat, src: seq<Byte>)
    requires off + |src| <= buf.Length
    modifies buf
    ensures forall j :: 0 <= j < |src| ==> buf[off + j] == src[j]
    ensures forall j :: 0 <= j < buf.Length && !(off <= j < off + |src|) ==> buf[j] == old(buf[j])
  {
    for i := 0 to |src|
      invariant forall j :: 0 <= j < i ==> buf[off + j] == src[j]
      invariant forall j :: 0 <= j < buf.Length && !(off <= j < off + i) ==> buf[j] == old(buf[j])
    {
      buf[off + i] := src[i];
    }
  }

  /** The header as the CRC sees it. */
  function WithCrc(h: seq<Byte>, crc: seq<Byte>): seq<Byte>
    requires |h| == 64 && |crc| == 4
  {
    h[..4] + crc + h[8..]
  }

  /** The first three assignments of checksum_header. */
  method FillSum(buf: array<Byte>, name: seq<Byte>, sumOf: seq<Byte> -> seq<Byte>)
    requires buf.Length == 64 && |name| == 24 && forall x :: |sumOf(x)| == 4
    modifies buf
    ensures var first := old(buf[..4]) + CRC_FF + old(buf[8..32]) + name; buf[..60] == first + sumOf(first)
  {
    ghost var first := buf[..4] + CRC_FF + buf[8..32] + name;
    Assign(buf, 32, name);
    Assign(buf, 4, CRC_FF);
    assert buf[..56] == first;
    var sum := sumOf(buf[..56]);
    Assign(buf, 56, sum);
    assert buf[..60] == first + sum;
  }

  /** The last three. */
  method FillInverse(buf: array<Byte>, invOf: seq<Byte> -> seq<Byte>)
    requires buf.Length == 64 && forall x :: |invOf(x)| == 4
    modifies buf
    ensures buf[..] == old(buf[..4]) + CRC_FF + (old(buf[8..60]) + invOf(old(buf[..4]) + CRC_00 + old(buf[8..60])))
  {
    ghost var p, r := buf[..4], buf[8..60];
    Assign(buf, 4, CRC_00);
    assert buf[..60] == p + CRC_00 + r;
    var inv := invOf(buf[..60]);
    Assign(buf, 60, inv);
    Assign(buf, 4, CRC_FF);
    assert buf[..] == p + CRC_FF + (r + inv);
  }

  /** The assignments of checksum_header, for any two four-byte checksums. */
  method FillHeader(buf: array<Byte>, name: seq<Byte>, sumOf: seq<Byte> -> seq<Byte>, invOf: seq<Byte> -> seq<Byte>)
    requires buf.Length == 64 && |name| == 24
    requires forall x :: |sumOf(x)| == 4 && |invOf(x)| == 4
    modifies buf
    ensures buf[..] == Header(old(buf[..4]), old(buf[8..32]), name, sumOf, invOf)
  {
    ghost var p, q := buf[..4], buf[8..32];
    FillSum(buf, name, sumOf);
    ghost var sum := sumOf(p + CRC_FF + q + name);
    assert buf[..4] == buf[..60][..4] == p && buf[8..60] == buf[..60][8..] == q + name + sum;
    FillInverse(buf, invOf);
    assert p + CRC_00 + (q + name + sum) == p + CRC_00 + q + name + sum;
  }

  /** The sum is taken over the final bytes before it, the inverted CRC over a zero CRC field. */
  function Header(p: seq<Byte>, q: seq<Byte>, name: seq<Byte>,
                  sumOf: seq<Byte> -> seq<Byte>, invOf: seq<Byte> -> seq<Byte>): seq<Byte> {
    var sum := sumOf(p + CRC_FF + q + name);
    p + CRC_FF + (q + name + sum + invOf(p + CRC_00 + q + name + sum))
  }

  lemma HeaderParts(p: seq<Byte>, q: seq<Byte>, name: seq<Byte>,
                    sumOf: seq<Byte> -> seq<Byte>, invOf: seq<Byte> -> seq<Byte>)
    requires |p| == 4 && |q| == 24 && |name| == 24
    requires forall x :: |sumOf(x)| == 4 && |invOf(x)| == 4
    ensures var h := Header(p, q, name, sumOf, invOf);
            && |h| == 64 && h[..4] == p && h[4..8] == CRC_FF && h[8..32] == q && h[32..56] == name
            && h[56..60] == sumOf(h[..56])
            && WithCrc(h, CRC_00) == WithCrc(h, CRC_00)[..60] + invOf(WithCrc(h, CRC_00)[..60])
  {
    var h := Header(p, q, name, sumOf, invOf);
    var first := p + CRC_FF + q + name;
    var sum := sumOf(first);
    var zeroed := p + CRC_00 + q + name + sum;
    assert h[..56] == first && h[56..60] == sum;
    assert WithCrc(h, CRC_00) == zeroed + invOf(zeroed);
    assert WithCrc(h, CRC_00)[..60] == zeroed;
  }

  lemma {:induction false} SumStored(data: seq<Byte>)
    requires |data| == 56
    ensures BeValue(CameoSum(data)) == Sum(data)
  {
    SumRange(data);
    var sum: Word := Sum(data);
    assert CameoSum(data) == Be32(sum);
    Be32Value(sum);
  }

  lemma CrcStored(h: seq<Byte>)
    requires |h| == 64 && h[4..8] == CRC_FF
    requires var z := WithCrc(h, CRC_00); z == z[..60] + InvertCrc(z[..60])
    ensures BeValue(h[4..8]) == 0xffff_ffff == Crc32(WithCrc(h, CRC_00))
  {
    InvertedCrcFixed(WithCrc(h, CRC_00)[..60]);
    assert CRC_FF == Be32(0xffff_ffff);
    Be32Value(0xffff_ffff);
  }

  /** checksum_header: both checksums hold of the header it leaves, and nothing else changes. */
  method ChecksumHeader(buf: array<Byte>)
    requires buf.Length == 64
    modifies buf
    ensures var h := buf[..]; BeValue(h[4..8]) == 0xffff_ffff == Crc32(WithCrc(h, CRC_00))
    ensures var h := buf[..]; BeValue(h[56..60]) == Sum(h[..56])
    ensures var h := buf[..]; h[..4] == old(buf[..4]) && h[8..32] == old(buf[8..32])
    ensures var h := buf[..]; h[32..56] == IMAGE_NAME + CAMEO_TAG
  {
    ghost var p, q := buf[..4], buf[8..32];
    FillHeader(buf, IMAGE_NAME + CAMEO_TAG, CameoSum, InvertCrc);
    HeaderParts(p, q, IMAGE_NAME + CAMEO_TAG, CameoSum, InvertCrc);
    CrcStored(buf[..]);
    SumStored(buf[..][..56]);
  }
}
