/** Public exponentiation and PKCS#1 v1.5 signature checking on big-endian byte
    blocks (sections 4.1, 4.2, 5.2.2 and 9.2 of RFC 8017). */
module RsaVerify {
  import opened Arith
  import opened Montgomery
  import opened Octets

  /** OS2IP: the number a big-endian octet string stands for. */
  function Os2ip(s: seq<Byte>): int
  {
    if s == [] then 0 else Os2ip(s[..|s| - 1]) * 256 + s[|s| - 1]
  }

  /** I2OSP: the octet string of a given length for a number. */
  function I2osp(x: nat, len: nat): (s: seq<Byte>)
    ensures |s| == len
  {
    if len == 0 then [] else I2osp(x / 256, len - 1) + [x % 256]
  }

  lemma {:induction false} Os2ipRange(s: seq<Byte>)
    ensures 0 <= Os2ip(s) < Pow(256, |s|)
  {
    if s != [] {
      Os2ipRange(s[..|s| - 1]);
    }
  }

  /** An octet string is determined by its length and its number. */
  lemma {:induction false} I2ospInverts(s: seq<Byte>)
    ensures Os2ip(s) >= 0 && I2osp(Os2ip(s), |s|) == s
  {
    Os2ipRange(s);
    if s != [] {
      var hi := s[..|s| - 1];
      Os2ipRange(hi);
      I2ospInverts(hi);
      assert Os2ip(s) / 256 == Os2ip(hi) && Os2ip(s) % 256 == s[|s| - 1];
      assert s == hi + [s[|s| - 1]];
    }
  }

  lemma {:induction false} Os2ipConcat(s: seq<Byte>, t: seq<Byte>)
    ensures Os2ip(s + t) == Os2ip(s) * Pow(256, |t|) + Os2ip(t)
  {
    if t == [] {
      assert s + t == s;
    } else {
      var m := |t| - 1;
      Os2ipConcat(s, t[..m]);
      assert (s + t)[..|s| + m] == s + t[..m];
      assert (Os2ip(s) * Pow(256, m) + Os2ip(t[..m])) * 256 == Os2ip(s) * (256 * Pow(256, m)) + Os2ip(t[..m]) * 256;
    }
  }

  /** (b0 << 24) | (b1 << 16) | (b2 << 8) | b3: the octets occupy disjoint bits. */
  function Join(b0: int, b1: int, b2: int, b3: int): int {
    b0 * 0x100_0000 + b1 * 0x1_0000 + b2 * 0x100 + b3
  }

  /** Four octets are one word. */
  lemma Os2ipWord(s: seq<Byte>)
    requires |s| == 4
    ensures Os2ip(s) == Join(s[0], s[1], s[2], s[3])
  {
    assert s[..3][..2] == s[..2] && s[..2][..1] == s[..1] && s[..1][..0] == [];
    assert Os2ip(s[..1]) == Os2ip(s[..0]) * 256 + s[0];
    assert Os2ip(s[..2]) == Os2ip(s[..1]) * 256 + s[1];
    assert Os2ip(s[..3]) == Os2ip(s[..2]) * 256 + s[2];
  }

  lemma SplitJoin(x: Word)
    ensures x == Join(x / 0x100_0000 % 256, x / 0x1_0000 % 256, x / 0x100 % 256, x % 256)
  {
    var a, b, c := x / 0x100, x / 0x1_0000, x / 0x100_0000;
    assert a / 256 == b && b / 256 == c;
    assert x == 256 * a + x % 256 && a == 256 * b + a % 256 && b == 256 * c + b % 256 && c == c % 256;
  }

  lemma {:induction false} PowWord(i: nat)
    ensures Pow(256, 4 * i) == Pow(BASE, i)
  {
    if i > 0 {
      PowWord(i - 1);
      assert 4 * i == 4 + 4 * (i - 1);
      PowAdd(256, 4, 4 * (i - 1));
      assert Pow(256, 4) == 256 * (256 * (256 * (256 * Pow(256, 0)))) == BASE;
    }
  }

  lemma LoadStep(four: seq<Byte>, rest: seq<Byte>, words: seq<Word>)
    requires |four| == 4 && |rest| == 4 * |words| && Num(words) == Os2ip(rest)
    ensures 0 <= Os2ip(four) < BASE && Num(words + [Os2ip(four)]) == Os2ip(four + rest)
  {
    Os2ipWord(four);
    Os2ipConcat(four, rest);
    PowWord(|words|);
    assert (words + [Os2ip(four)])[..|words|] == words;
  }

  method LoadWord(inout: array<Byte>, k: nat) returns (tmp: Word)
    requires k + 4 <= inout.Length
    ensures tmp == Os2ip(inout[k..k + 4])
  {
    Os2ipWord(inout[k..k + 4]);
    tmp := Join(inout[k], inout[k + 1], inout[k + 2], inout[k + 3]);
  }

  lemma SliceSplit(s: seq<Byte>, k: nat)
    requires k + 4 <= |s|
    ensures s[k..] == s[k..k + 4] + s[k + 4..]
  {
  }

  /** Big-endian octets into little-endian words. */
  method LoadWords(inout: array<Byte>, a: array<Word>)
    requires inout.Length == 4 * a.Length
    modifies a
    ensures Num(a[..]) == Os2ip(inout[..])
  {
    var N := a.Length;
    ghost var bytes := inout[..];
    assert bytes[4 * N..] == [];
    for i := 0 to N
      invariant Num(a[..i]) == Os2ip(bytes[4 * (N - i)..])
    {
      var k := (N - 1 - i) * 4;
      var tmp := LoadWord(inout, k);
      LoadStep(bytes[k..k + 4], bytes[k + 4..], a[..i]);
      SliceSplit(bytes, k);
      Store(a, i, tmp);
    }
    assert a[..N] == a[..] && bytes[0..] == bytes;
  }

  method Store(a: array<Word>, i: nat, w: Word)
    requires i < a.Length
    modifies a
    ensures a[..i + 1] == old(a[..i]) + [w]
  {
    a[i] := w;
  }

  lemma Distribute(v: int, b: int, w: int, p: int)
    ensures (v * b + w) * p == v * (b * p) + w * p
  {
  }

  /** Writing the next word keeps octets written plus words left equal to the whole. */
  lemma StoreStep(before: seq<Byte>, four: seq<Byte>, aaa: seq<Word>, i: nat)
    requires i < |aaa| && |four| == 4 && Os2ip(four) == aaa[i]
    ensures Os2ip(before + four) * Pow(BASE, i) + Num(aaa[..i])
         == Os2ip(before) * Pow(BASE, i + 1) + Num(aaa[..i + 1])
  {
    Os2ipConcat(before, four);
    PowWord(1);
    ValPrefix(BASE, aaa, i);
    Distribute(Os2ip(before), BASE, aaa[i], Pow(BASE, i));
  }

  /** One word as four octets. */
  method StoreWord(inout: array<Byte>, k: nat, tmp: Word) returns (ghost four: seq<Byte>)
    requires k + 4 <= inout.Length
    modifies inout
    ensures |four| == 4 && Os2ip(four) == tmp && inout[..k + 4] == old(inout[..k]) + four
  {
    inout[k] := tmp / 0x100_0000 % 256;
    inout[k + 1] := tmp / 0x1_0000 % 256;
    inout[k + 2] := tmp / 0x100 % 256;
    inout[k + 3] := tmp % 256;
    four := inout[k..k + 4];
    Os2ipWord(four);
    SplitJoin(tmp);
  }

  /** Little-endian words back into big-endian octets, most significant first. */
  method StoreWords(aaa: array<Word>, inout: array<Byte>)
    requires inout.Length == 4 * aaa.Length
    modifies inout
    ensures Num(aaa[..]) >= 0 && inout[..] == I2osp(Num(aaa[..]), inout.Length)
  {
    var N := aaa.Length;
    ghost var words := aaa[..];
    var i, k := N - 1, 0;
    assert words[..N] == words && inout[..0] == [];
    while i >= 0
      invariant -1 <= i < N && k == 4 * (N - 1 - i)
      invariant Os2ip(inout[..k]) * Pow(BASE, i + 1) + Num(words[..i + 1]) == Num(words)
    {
      ghost var before := inout[..k];
      ghost var four := StoreWord(inout, k, aaa[i]);
      StoreStep(before, four, words, i);
      i, k := i - 1, k + 4;
    }
    assert inout[..k] == inout[..];
    I2ospInverts(inout[..]);
  }

  /** 2^32 is invertible modulo n: its inverse is (n0inv * n + 1) / 2^32. */
  lemma BaseInverse(key: PublicKey) returns (inv: int)
    requires key.Valid()
    ensures Cong(BASE * inv, 1, key.Modulus())
  {
    var n := key.n;
    var hi := Num(n[1..]);
    assert n == [n[0]] + n[1..];
    ValCons(BASE, n[0], n[1..]);
    var k := (key.n0inv * n[0] + 1) / BASE;
    inv := k + key.n0inv * hi;
    assert BASE * inv == 1 + key.n0inv * key.Modulus() by {
      assert key.n0inv * (n[0] + BASE * hi) == key.n0inv * n[0] + BASE * (key.n0inv * hi);
    }
    CongIntro(BASE * inv, 1, key.n0inv, key.Modulus());
  }

  /** Hence R is invertible, and a factor R can be cancelled. */
  lemma {:induction false} PowInverse(b: int, inv: int, e: nat, n: int)
    requires n > 0 && Cong(b * inv, 1, n)
    ensures Cong(Pow(b, e) * Pow(inv, e), 1, n)
  {
    if e == 0 {
      CongIntro(1, 1, 0, n);
    } else {
      PowInverse(b, inv, e - 1, n);
      CongMul(b * inv, 1, Pow(b, e - 1) * Pow(inv, e - 1), 1, n);
      calc {
        b * inv * (Pow(b, e - 1) * Pow(inv, e - 1));
        b * Pow(b, e - 1) * (inv * Pow(inv, e - 1));
      }
    }
  }

  lemma CancelR(key: PublicKey, a: int, b: int)
    requires key.Valid() && Cong(a * key.R(), b * key.R(), key.Modulus())
    ensures Cong(a, b, key.Modulus())
  {
    var inv := BaseInverse(key);
    PowInverse(BASE, inv, |key.n|, key.Modulus());
    CongCancel(a, b, key.R(), Pow(inv, |key.n|), key.Modulus());
  }

  /** x is the Montgomery form of v: x = v * R modulo n. */
  ghost predicate InForm(key: PublicKey, x: int, v: int)
    requires key.Valid()
  {
    Cong(x, v * key.R(), key.Modulus())
  }

  /** A Montgomery product of two forms is the form of the product. */
  lemma FormProduct(key: PublicKey, z: int, x: int, y: int, v: int, w: int)
    requires key.Valid() && InForm(key, x, v) && InForm(key, y, w)
    requires Cong(z * key.R(), x * y, key.Modulus())
    ensures InForm(key, z, v * w)
  {
    var r, n := key.R(), key.Modulus();
    CongMul(x, v * r, y, w * r, n);
    assert (v * r) * (w * r) == (v * w * r) * r;
    CongTrans(z * r, x * y, (v * w * r) * r, n);
    CancelR(key, z, v * w * r);
  }

  /** A Montgomery product of a form with a plain number is a plain product. */
  lemma FormLeaves(key: PublicKey, z: int, x: int, v: int, y: int)
    requires key.Valid() && InForm(key, x, v) && Cong(z * key.R(), x * y, key.Modulus())
    ensures Cong(z, v * y, key.Modulus())
  {
    var r, n := key.R(), key.Modulus();
    CongIntro(y, y, 0, n);
    CongMul(x, v * r, y, y, n);
    assert (v * r) * y == (v * y) * r;
    CongTrans(z * r, x * y, (v * y) * r, n);
    CancelR(key, z, v * y);
  }

  /** Multiplying by R^2 enters the form. */
  lemma FormEnters(key: PublicKey, z: int, x: int)
    requires key.Valid() && Cong(z * key.R(), x * Num(key.rr), key.Modulus())
    ensures InForm(key, z, x)
  {
    var r, n := key.R(), key.Modulus();
    CongIntro(x, x, 0, n);
    CongMul(x, x, Num(key.rr), r * r, n);
    assert x * (r * r) == (x * r) * r;
    CongTrans(z * r, x * Num(key.rr), (x * r) * r, n);
    CancelR(key, z, x * r);
  }

  /** Final reduction and output, shared by both exponents. */
  method ReduceAndStore(key: PublicKey, aaa: array<Word>, inout: array<Byte>, ghost v: int)
    requires key.Valid() && aaa.Length == |key.n| && inout.Length == 4 * |key.n|
    requires Cong(Num(aaa[..]), v, key.Modulus())
    modifies aaa, inout
    ensures Cong(Os2ip(inout[..]), v, key.Modulus())
    ensures key.FullLength() ==> inout[..] == I2osp(v % key.Modulus(), inout.Length)
  {
    ghost var x := Num(aaa[..]);
    NumBound(aaa[..]);
    var ge := GeMod(key, aaa);
    if ge {
      SubMod(key, aaa);
      CongSub(x, v, key.Modulus());
    }
    StoreWords(aaa, inout);
    ghost var y := Num(aaa[..]);
    assert key.FullLength() ==> 0 <= y < key.Modulus();
    if key.FullLength() {
      CongReduced(y, v, key.Modulus());
    }
    I2ospInverts(inout[..]);
    NumBound(aaa[..]);
    PowWord(|key.n|);
    Os2ipOfI2osp(y, inout.Length);
  }

  lemma CongSub(x: int, v: int, n: int)
    requires n > 0 && Cong(x, v, n)
    ensures Cong(x - n, v, n)
  {
    var k := CongElim(x, v, n);
    CongIntro(x - n, v, k - 1, n);
  }

  lemma {:induction false} Os2ipOfI2osp(x: nat, len: nat)
    requires x < Pow(256, len)
    ensures Os2ip(I2osp(x, len)) == x
  {
    if len > 0 {
      Os2ipOfI2osp(x / 256, len - 1);
      assert I2osp(x, len)[..len - 1] == I2osp(x / 256, len - 1);
    }
  }

  /** In-place x := x^65537 mod n on a big-endian block. The result is always
      congruent; with a full-length modulus it is also fully reduced. */
  method ModPow(key: PublicKey, inout: array<Byte>, a: array<Word>, aR: array<Word>, aaR: array<Word>)
    requires key.Valid() && a.Length == aR.Length == aaR.Length == |key.n|
    requires inout.Length == 4 * |key.n| && a != aR && a != aaR && aR != aaR
    modifies inout, a, aR, aaR
    ensures Cong(Os2ip(inout[..]), Pow(old(Os2ip(inout[..])), 65537), key.Modulus())
    ensures key.FullLength() ==>
              inout[..] == I2osp(Pow(old(Os2ip(inout[..])), 65537) % key.Modulus(), inout.Length)
  {
    ghost var x := Os2ip(inout[..]);
    var aaa := aaR;
    LoadWords(inout, a);
    MontMul(key, aR, a[..], key.rr);
    FormEnters(key, Num(aR[..]), x);
    assert Pow(x, 1) == x * Pow(x, 0);
    ghost var e: nat := 1;
    for i := 0 to 8
      invariant e == Pow(4, i)
      invariant Num(a[..]) == x && InForm(key, Num(aR[..]), Pow(x, e))
    {
      ghost var s := Num(aR[..]);
      MontMul(key, aaR, aR[..], aR[..]);
      FormPower(key, Num(aaR[..]), s, s, x, e, e);
      s := Num(aaR[..]);
      MontMul(key, aR, aaR[..], aaR[..]);
      FormPower(key, Num(aR[..]), s, s, x, 2 * e, 2 * e);
      e := 4 * e;
    }
    assert e == 65536 by { FourToTheEighth(); }
    MontMul(key, aaa, aR[..], a[..]);
    FormLast(key, Num(aaa[..]), Num(aR[..]), x, e);
    ReduceAndStore(key, aaa, inout, Pow(x, 65537));
  }

  lemma FormPower(key: PublicKey, z: int, s: int, t: int, x: int, d: nat, e: nat)
    requires key.Valid() && InForm(key, s, Pow(x, d)) && InForm(key, t, Pow(x, e))
    requires Cong(z * key.R(), s * t, key.Modulus())
    ensures InForm(key, z, Pow(x, d + e))
  {
    FormProduct(key, z, s, t, Pow(x, d), Pow(x, e));
    PowAdd(x, d, e);
  }

  lemma FormLast(key: PublicKey, z: int, s: int, x: int, e: nat)
    requires key.Valid() && InForm(key, s, Pow(x, e)) && Cong(z * key.R(), s * x, key.Modulus())
    ensures Cong(z, Pow(x, e + 1), key.Modulus())
  {
    FormLeaves(key, z, s, Pow(x, e), x);
  }

  lemma FourToTheEighth()
    ensures Pow(4, 8) == 65536
  {
    PowAdd(4, 4, 4);
    assert Pow(4, 4) == 4 * (4 * (4 * (4 * Pow(4, 0))));
  }

  /** The CONFIG_RSA_EXPONENT_3 variant of the same routine. */
  method ModPow3(key: PublicKey, inout: array<Byte>, a: array<Word>, aR: array<Word>, aaR: array<Word>)
    requires key.Valid() && a.Length == aR.Length == aaR.Length == |key.n|
    requires inout.Length == 4 * |key.n| && a != aR && a != aaR && aR != aaR
    modifies inout, a, aR, aaR
    ensures Cong(Os2ip(inout[..]), Pow(old(Os2ip(inout[..])), 3), key.Modulus())
    ensures key.FullLength() ==>
              inout[..] == I2osp(Pow(old(Os2ip(inout[..])), 3) % key.Modulus(), inout.Length)
  {
    ghost var x := Os2ip(inout[..]);
    var aaa := aaR;
    LoadWords(inout, a);
    MontMul(key, aR, a[..], key.rr);
    FormEnters(key, Num(aR[..]), x);
    assert Pow(x, 1) == x * Pow(x, 0);
    ghost var s1 := Num(aR[..]);
    MontMul(key, aaR, aR[..], aR[..]);
    ghost var s2 := Num(aaR[..]);
    FormPower(key, s2, s1, s1, x, 1, 1);
    MontMul(key, a, aaR[..], aR[..]);
    ghost var s3 := Num(a[..]);
    FormPower(key, s3, s2, s1, x, 2, 1);
    MontMul1(key, aaa, a[..]);
    FormLeaves(key, Num(aaa[..]), s3, Pow(x, 3), 1);
    ReduceAndStore(key, aaa, inout, Pow(x, 3));
  }

  /** 0x00 followed by the DER prefix of a SHA-256 DigestInfo. */
  const SHA256_TAIL: seq<Byte> := [
    0x00, 0x30, 0x31, 0x30, 0x0d, 0x06, 0x09, 0x60,
    0x86, 0x48, 0x01, 0x65, 0x03, 0x04, 0x02, 0x01,
    0x05, 0x00, 0x04, 0x20]
  const DIGEST_SIZE: nat := 32

  /** EMSA-PKCS1-v1_5 encoding of a digest (section 9.2 of RFC 8017): 00 01 FF..FF 00 || DigestInfo. */
  function EmsaPkcs1(digest: seq<Byte>, emLen: nat): (em: seq<Byte>)
    requires |digest| == DIGEST_SIZE && emLen >= DIGEST_SIZE + |SHA256_TAIL| + 2
    ensures |em| == emLen
  {
    [0, 1] + seq(emLen - DIGEST_SIZE - |SHA256_TAIL| - 2, _ => 0xff) + SHA256_TAIL + digest
  }

  /** x | y on non-negative integers. */
  function BitOr(x: nat, y: nat): (r: nat)
    ensures r == 0 <==> x == 0 && y == 0
  {
    if x == 0 then y else if y == 0 then x
    else 2 * BitOr(x / 2, y / 2) + (if x % 2 == 1 || y % 2 == 1 then 1 else 0)
  }

  /** x ^ y on non-negative integers. */
  function BitXor(x: nat, y: nat): (r: nat)
    ensures r == 0 <==> x == y
    decreases x + y
  {
    if x == 0 then y else if y == 0 then x
    else 2 * BitXor(x / 2, y / 2) + (if x % 2 != y % 2 then 1 else 0)
  }

  /** memcmp: zero exactly when the first n octets agree. */
  method Memcmp(p: seq<Byte>, q: seq<Byte>, n: nat) returns (r: int)
    requires n <= |p| && n <= |q|
    ensures r == 0 <==> p[..n] == q[..n]
  {
    for i := 0 to n
      invariant p[..i] == q[..i]
    {
      if p[i] != q[i] {
        assert p[..n][i] != q[..n][i];
        var d: int := p[i];
        return d - q[i];
      }
      assert p[..i + 1] == p[..i] + [p[i]] && q[..i + 1] == q[..i] + [q[i]];
    }
    return 0;
  }

  /** Non-zero when the block is not padded as EMSA-PKCS1-v1_5 asks, whatever its digest. */
  method CheckPadding(sig: seq<Byte>) returns (bad: bool)
    requires |sig| >= DIGEST_SIZE + |SHA256_TAIL| + 2
    ensures !bad <==> sig == EmsaPkcs1(sig[|sig| - DIGEST_SIZE..], |sig|)
  {
    var padSize := |sig| - DIGEST_SIZE;
    var result := 0;
    var ptr := 0;
    result := BitOr(result, BitXor(sig[ptr], 0x00));
    ptr := ptr + 1;
    result := BitOr(result, BitXor(sig[ptr], 0x01));
    ptr := ptr + 1;
    for i := 0 to padSize - |SHA256_TAIL| - 2
      invariant ptr == 2 + i && result >= 0
      invariant result == 0 <==> sig[0] == 0 && sig[1] == 1 && forall j :: 2 <= j < ptr ==> sig[j] == 0xff
    {
      result := BitOr(result, BitXor(sig[ptr], 0xff));
      ptr := ptr + 1;
    }
    var cmp := Memcmp(sig[ptr..], SHA256_TAIL, |SHA256_TAIL|);
    bad := result != 0 || cmp != 0;
    PaddingShape(sig, ptr);
  }

  lemma PaddingShape(sig: seq<Byte>, ptr: nat)
    requires ptr == |sig| - DIGEST_SIZE - |SHA256_TAIL| >= 2
    ensures sig == EmsaPkcs1(sig[|sig| - DIGEST_SIZE..], |sig|)
       <==> && sig[0] == 0 && sig[1] == 1
            && (forall j :: 2 <= j < ptr ==> sig[j] == 0xff)
            && sig[ptr..][..|SHA256_TAIL|] == SHA256_TAIL[..|SHA256_TAIL|]
  {
    var em := EmsaPkcs1(sig[|sig| - DIGEST_SIZE..], |sig|);
    var ff: seq<Byte> := seq(ptr - 2, _ => 0xff);
    assert em[..ptr] == [0, 1] + ff;
    assert em[ptr..ptr + |SHA256_TAIL|] == SHA256_TAIL;
    assert em[ptr + |SHA256_TAIL|..] == sig[ptr + |SHA256_TAIL|..];
    assert sig == sig[..ptr] + sig[ptr..ptr + |SHA256_TAIL|] + sig[ptr + |SHA256_TAIL|..];
    assert em == em[..ptr] + em[ptr..ptr + |SHA256_TAIL|] + em[ptr + |SHA256_TAIL|..];
    assert sig[ptr..][..|SHA256_TAIL|] == sig[ptr..ptr + |SHA256_TAIL|];
    if sig == em {
      forall j | 2 <= j < ptr ensures sig[j] == 0xff {
        assert em[j] == em[..ptr][j] == ff[j - 2];
      }
      assert em[0] == em[..ptr][0] && em[1] == em[..ptr][1];
    } else if sig[0] == 0 && sig[1] == 1 && forall j :: 2 <= j < ptr ==> sig[j] == 0xff {
      assert sig[..ptr] == [0, 1] + ff;
    }
  }

  /** Accepts exactly when signature^65537 mod n is the encoding of the digest. Blocks
      that stand for a number >= n are reduced like any other; nothing rejects them. */
  method Verify(key: PublicKey, signature: seq<Byte>, sha: seq<Byte>,
                a: array<Word>, aR: array<Word>, aaR: array<Word>) returns (ok: bool)
    requires key.Valid() && key.FullLength()
    requires a.Length == aR.Length == aaR.Length == |key.n| && a != aR && a != aaR && aR != aaR
    requires |signature| == 4 * |key.n| >= DIGEST_SIZE + |SHA256_TAIL| + 2 && |sha| == DIGEST_SIZE
    modifies a, aR, aaR
    ensures ok <==> I2osp(Pow(Os2ip(signature), 65537) % key.Modulus(), |signature|)
                    == EmsaPkcs1(sha, |signature|)
  {
    var buf := new Byte[|signature|](i requires 0 <= i < |signature| => signature[i]);
    assert buf[..] == signature;
    ModPow(key, buf, a, aR, aaR);
    var em := buf[..];
    var padSize := |signature| - DIGEST_SIZE;
    SameDigest(em, sha);
    var bad := CheckPadding(em);
    if bad {
      return false;
    }
    var cmp := Memcmp(em[padSize..], sha, DIGEST_SIZE);
    assert em[padSize..][..DIGEST_SIZE] == em[padSize..] && sha[..DIGEST_SIZE] == sha;
    if cmp != 0 {
      return false;
    }
    return true;
  }

  lemma SameDigest(em: seq<Byte>, sha: seq<Byte>)
    requires |sha| == DIGEST_SIZE && |em| >= DIGEST_SIZE + |SHA256_TAIL| + 2
    ensures em == EmsaPkcs1(sha, |em|) ==> em[|em| - DIGEST_SIZE..] == sha
  {
    assert EmsaPkcs1(sha, |em|)[|em| - DIGEST_SIZE..] == sha;
  }
}
