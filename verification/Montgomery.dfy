/** Word-by-word Montgomery arithmetic over 32-bit words with 64-bit
    accumulators. Every intermediate held in a `U64` or `I64` is proved to fit,
    so the C accumulators never wrap. */
module Montgomery {
  import opened Arith
  import opened Octets

  const BASE: int := 0x1_0000_0000

  type U64 = x: int | 0 <= x < 0x1_0000_0000_0000_0000
  type I64 = x: int | -0x8000_0000_0000_0000 <= x < 0x8000_0000_0000_0000

  /** n, R^2 and -1/n[0], all little-endian words. */
  datatype PublicKey = PublicKey(n0inv: Word, n: seq<Word>, rr: seq<Word>) {

    function Modulus(): int {
      Val(BASE, n)
    }

    function R(): int {
      Pow(BASE, |n|)
    }

    /** What the pre-processing of the key promises. An n[0] with an inverse is odd. */
    ghost predicate Valid() {
      && |n| > 0 && |rr| == |n|
      && Lo(n0inv * n[0] + 1) == 0
      && Modulus() > 0
      && Cong(Val(BASE, rr), R() * R(), Modulus())
    }

    /** The modulus uses all its words: its top bit is set. */
    ghost predicate FullLength() {
      R() <= 2 * Modulus()
    }
  }

  /** (uint32_t)x, also for a negative two's complement x. */
  function Lo(x: int): (r: Word)
    ensures x == Hi(x) * BASE + r
  {
    x % 0x1_0000_0000
  }

  /** x >> 32, an arithmetic shift for a negative x. */
  function Hi(x: int): int {
    x / 0x1_0000_0000
  }

  function Num(s: seq<Word>): int {
    Val(BASE, s)
  }

  lemma NumBound(s: seq<Word>)
    ensures 0 <= Num(s) < Pow(BASE, |s|)
  {
    ValBound(BASE, s);
  }

  /** a[] -= n, modulo R; the borrow left over at the end is dropped. */
  method SubMod(key: PublicKey, a: array<Word>)
    requires a.Length == |key.n|
    modifies a
    ensures Num(a[..]) == if old(Num(a[..])) >= key.Modulus()
                          then old(Num(a[..])) - key.Modulus()
                          else old(Num(a[..])) - key.Modulus() + key.R()
  {
    var A: I64 := 0;
    ghost var a0 := a[..];
    for i := 0 to a.Length
      invariant -1 <= A <= 0
      invariant a[i..] == a0[i..]
      invariant Num(a[..i]) == Num(a0[..i]) - Num(key.n[..i]) - A * Pow(BASE, i)
    {
      ghost var before := a[..i];
      assert a[i] == a[i..][0] == a0[i];
      ghost var A0 := A;
      A := A + a[i] - key.n[i];
      ghost var sum := A;
      a[i] := Lo(A);
      A := Hi(A);
      assert a[..i] == before;
      assert a[i + 1..] == a0[i + 1..] by {
        assert a0[i + 1..] == a0[i..][1..];
      }
      ValPrefix(BASE, a[..], i);
      ValPrefix(BASE, a0, i);
      ValPrefix(BASE, key.n, i);
      assert a[..][..i] == a[..i] && a[..][..i + 1] == a[..i + 1];
      SubStep(Num(before), Num(a0[..i]), Num(key.n[..i]), A0, a0[i], key.n[i], Pow(BASE, i));
      assert sum == A0 + a0[i] - key.n[i];
    }
    assert a[..a.Length] == a[..] && a0[..a.Length] == a0 && key.n[..a.Length] == key.n;
    NumBound(a[..]);
    NumBound(a0);
    NumBound(key.n);
  }

  lemma SubStep(v: int, va: int, vn: int, A: int, ai: int, ni: int, p: int)
    requires v == va - vn - A * p
    ensures var sum := A + ai - ni;
            v + Lo(sum) * p == (va + ai * p) - (vn + ni * p) - Hi(sum) * (BASE * p)
  {
    var sum := A + ai - ni;
    assert sum == Hi(sum) * BASE + Lo(sum);
    assert sum * p == A * p + ai * p - ni * p;
    assert sum * p == Hi(sum) * (BASE * p) + Lo(sum) * p by {
      MulAssoc(Hi(sum), BASE, p);
      assert (Hi(sum) * BASE + Lo(sum)) * p == Hi(sum) * BASE * p + Lo(sum) * p;
    }
  }

  /** a >= n, decided from the most significant word down. */
  method GeMod(key: PublicKey, a: array<Word>) returns (ge: bool)
    requires a.Length == |key.n|
    ensures ge <==> Num(a[..]) >= key.Modulus()
  {
    var i := a.Length;
    while i > 0
      invariant 0 <= i <= a.Length
      invariant a[i..] == key.n[i..]
    {
      i := i - 1;
      assert a[i + 1..] == key.n[i + 1..];
      if a[i] < key.n[i] {
        assert a[..][i + 1..] == a[i + 1..];
        ValOrder(BASE, a[..], key.n, i);
        return false;
      }
      if a[i] > key.n[i] {
        assert a[..][i + 1..] == a[i + 1..];
        ValOrder(BASE, key.n, a[..], i);
        return true;
      }
      assert a[i..] == [a[i]] + a[i + 1..] && key.n[i..] == [key.n[i]] + key.n[i + 1..];
    }
    assert a[..] == a[0..] == key.n[0..] == key.n;
    return true;
  }

  /** The factor d0 clears the low word: d0 * n[0] + A is a multiple of 2^32. */
  lemma LowWordClears(key: PublicKey, low: Word)
    requires |key.n| > 0 && Lo(key.n0inv * key.n[0] + 1) == 0
    ensures Lo(Lo(low * key.n0inv) * key.n[0] + low) == 0
  {
    var d0, q := Lo(low * key.n0inv), Hi(low * key.n0inv);
    var k := Hi(key.n0inv * key.n[0] + 1);
    calc {
      d0 * key.n[0] + low;
      (low * key.n0inv - q * BASE) * key.n[0] + low;
      low * key.n0inv * key.n[0] - q * BASE * key.n[0] + low;
      { assert low * key.n0inv * key.n[0] == low * (key.n0inv * key.n[0]); }
      low * (key.n0inv * key.n[0] + 1) - q * BASE * key.n[0];
      { assert key.n0inv * key.n[0] + 1 == k * BASE;
        assert low * (k * BASE) == (low * k) * BASE;
        assert q * BASE * key.n[0] == (q * key.n[0]) * BASE; }
      (low * k - q * key.n[0]) * BASE;
    }
    MultipleMod(low * k - q * key.n[0], BASE);
  }

  /** One column: the two accumulators together carry exactly what the column adds. */
  lemma ColumnStep(s: int, v: int, ah: int, bh: int, p: int, q: int, x: int, y: int, A: int, B: int)
    requires s == BASE * v + (ah + bh) * p && p == BASE * q
    requires A == ah + x && B == bh + y + Lo(A)
    ensures s + (x + y) * p == BASE * (v + Lo(B) * q) + (Hi(A) + Hi(B)) * (BASE * p)
  {
    var ca, cb := Hi(A), Hi(B);
    assert ah + bh + x + y == BASE * (ca + cb) + Lo(B);
    assert (ah + bh) * p + (x + y) * p == (ah + bh + x + y) * p;
    assert (BASE * (ca + cb) + Lo(B)) * p == (ca + cb) * (BASE * p) + Lo(B) * p;
    assert Lo(B) * p == BASE * (Lo(B) * q);
  }

  /** The accumulated total is small enough for one subtraction of n to absorb the carry. */
  lemma TotalBound(t: int, c: int, a: int, b: int, d: int, n: int, r: int)
    requires BASE * t == c + a * b + d * n
    requires 0 <= a < BASE && 0 <= d < BASE && 0 <= c < r && 0 <= b < r && 0 < n < r
    ensures 0 <= t < r + n
  {
    MulMono(b, 0, a);
    MulMono(b, a, BASE - 1);
    MulMono(n, d, BASE - 1);
    MulMono(n, 0, d);
    assert BASE * t < r + (BASE - 1) * r + (BASE - 1) * n;
    assert BASE * t < BASE * (r + n);
  }

  /** After i columns: out holds the words written, hi what both accumulators carry on. */
  ghost predicate Columns(c: seq<Word>, a: int, b: seq<Word>, d: int, n: seq<Word>, i: nat, out: seq<Word>, hi: int)
    requires 1 <= i <= |c| == |b| == |n|
  {
    && |out| == i - 1
    && Num(c[..i]) + a * Num(b[..i]) + d * Num(n[..i]) == BASE * Num(out) + hi * Pow(BASE, i)
  }

  lemma NextColumn(c: seq<Word>, a: int, b: seq<Word>, d: int, n: seq<Word>, i: nat, out: seq<Word>,
                   ah: int, bh: int, A: int, B: int)
    requires 1 <= i < |c| == |b| == |n| && Columns(c, a, b, d, n, i, out, ah + bh)
    requires A == ah + a * b[i] + c[i] && B == bh + d * n[i] + Lo(A)
    ensures Columns(c, a, b, d, n, i + 1, out + [Lo(B)], Hi(A) + Hi(B))
  {
    ValPrefix(BASE, c, i);
    ValPrefix(BASE, b, i);
    ValPrefix(BASE, n, i);
    var out' := out + [Lo(B)];
    assert out'[..i - 1] == out;
    ColumnStep(Num(c[..i]) + a * Num(b[..i]) + d * Num(n[..i]), Num(out), ah, bh,
               Pow(BASE, i), Pow(BASE, i - 1), a * b[i] + c[i], d * n[i], A, B);
    ColumnSum(Num(c[..i]), Num(b[..i]), Num(n[..i]), c[i], b[i], n[i], a, d, Pow(BASE, i));
  }

  /** All columns done: the last word and the carry above it complete (c + a*b + d*n) / 2^32. */
  lemma LastColumn(c: seq<Word>, a: int, b: seq<Word>, d: int, n: seq<Word>, out: seq<Word>, A: int)
    requires 1 <= |c| == |b| == |n| && Columns(c, a, b, d, n, |c|, out, A)
    ensures BASE * (Num(out + [Lo(A)]) + Hi(A) * Pow(BASE, |c|)) == Num(c) + a * Num(b) + d * Num(n)
  {
    var i := |c|;
    assert c[..i] == c && b[..i] == b && n[..i] == n;
    assert (out + [Lo(A)])[..i - 1] == out;
    FinalCarry(Num(out), A, Pow(BASE, i - 1));
  }

  /** c[] := (c[] + a * b[]) / 2^32 mod n, kept below R but not fully reduced. */
  method MontMulAdd(key: PublicKey, c: array<Word>, a: Word, b: seq<Word>)
    requires key.Valid() && c.Length == |key.n| && |b| == |key.n|
    modifies c
    ensures Cong(Num(c[..]) * BASE, old(Num(c[..])) + a * Num(b), key.Modulus())
  {
    ghost var c0 := c[..];
    WordProduct(a, b[0]);
    var A: U64 := a * b[0] + c[0];
    var d0: Word := Lo(Lo(A) * key.n0inv);
    WordProduct(d0, key.n[0]);
    var B: U64 := d0 * key.n[0] + Lo(A);
    LowWordClears(key, Lo(A));
    FirstColumn(c0, a, b, d0, key.n, A, B);

    var i := 1;
    while i < |key.n|
      invariant 1 <= i <= |key.n|
      invariant c[i - 1..] == c0[i - 1..]
      invariant Columns(c0, a, b, d0, key.n, i, c[..i - 1], Hi(A) + Hi(B))
    {
      ghost var before, ah, bh := c[..i - 1], Hi(A), Hi(B);
      assert c[i] == c[i - 1..][1] == c0[i];
      WordProduct(a, b[i]);
      WordProduct(d0, key.n[i]);
      A := Hi(A) + a * b[i] + c[i];
      B := Hi(B) + d0 * key.n[i] + Lo(A);
      c[i - 1] := Lo(B);
      NextColumn(c0, a, b, d0, key.n, i, before, ah, bh, A, B);
      assert c[..i] == before + [c[i - 1]];
      assert c[i..] == c0[i - 1..][1..] == c0[i..];
      i := i + 1;
    }
    A := Hi(A) + Hi(B);
    LastColumn(c0, a, b, d0, key.n, c[..i - 1], A);
    ghost var before := c[..i - 1];
    c[i - 1] := Lo(A);
    assert c[..] == before + [c[i - 1]];
    AbsorbCarry(key, c0, a, b, d0, c[..], Hi(A));
    if Hi(A) != 0 {
      SubMod(key, c);
    }
  }

  /** The carry is 0 or 1, and with carry 1 subtracting n once (dropping the borrow) gives the result. */
  lemma AbsorbCarry(key: PublicKey, c: seq<Word>, a: Word, b: seq<Word>, d: Word, out: seq<Word>, carry: nat)
    requires key.Valid() && |c| == |b| == |out| == |key.n|
    requires BASE * (Num(out) + carry * key.R()) == Num(c) + a * Num(b) + d * key.Modulus()
    ensures carry <= 1
    ensures carry == 0 ==> Cong(Num(out) * BASE, Num(c) + a * Num(b), key.Modulus())
    ensures carry == 1 ==> Num(out) < key.Modulus()
    ensures carry == 1 ==>
              Cong((Num(out) - key.Modulus() + key.R()) * BASE, Num(c) + a * Num(b), key.Modulus())
  {
    var n, t, x := key.Modulus(), Num(out) + carry * key.R(), Num(c) + a * Num(b);
    NumBound(c); NumBound(b); NumBound(key.n); NumBound(out);
    TotalBound(t, Num(c), a, Num(b), d, n, key.R());
    Reduction(t, x, d, n);
    if carry > 0 {
      CarryIsOne(carry, Num(out), key.R(), n);
      Reduction(t - n, x, d - BASE, n);
    }
  }

  lemma CarryIsOne(carry: int, v: int, r: int, n: int)
    requires carry > 0 && 0 <= v && 0 < n < r && v + carry * r < r + n
    ensures carry == 1 && v < n
  {
    if carry >= 2 {
      MulMono(r, 2, carry);
    }
  }

  lemma Reduction(t: int, x: int, d: int, n: int)
    requires n > 0 && BASE * t == x + d * n
    ensures Cong(t * BASE, x, n)
  {
    CongIntro(t * BASE, x, d, n);
  }

  lemma WordProduct(x: Word, y: Word)
    ensures 0 <= x * y <= (BASE - 1) * (BASE - 1)
  {
    MulMono(x, 0, y);
    MulMono(x, y, BASE - 1);
    MulMono(BASE - 1, x, BASE - 1);
  }

  lemma FirstColumn(c0: seq<Word>, a: Word, b: seq<Word>, d0: Word, n: seq<Word>, A: int, B: int)
    requires |c0| == |b| == |n| > 0
    requires A == a * b[0] + c0[0] && B == d0 * n[0] + Lo(A) && Lo(B) == 0
    ensures Columns(c0, a, b, d0, n, 1, c0[..0], Hi(A) + Hi(B))
  {
    ValPrefix(BASE, c0, 0);
    ValPrefix(BASE, b, 0);
    ValPrefix(BASE, n, 0);
    assert Pow(BASE, 1) == BASE * Pow(BASE, 0);
  }

  lemma ColumnSum(vc: int, vb: int, vn: int, ci: int, bi: int, ni: int, a: int, d: int, p: int)
    ensures (vc + ci * p) + a * (vb + bi * p) + d * (vn + ni * p)
         == vc + a * vb + d * vn + ((a * bi + ci) + d * ni) * p
  {
    assert a * (vb + bi * p) == a * vb + (a * bi) * p;
    assert d * (vn + ni * p) == d * vn + (d * ni) * p;
  }

  lemma FinalCarry(v: int, A: int, q: int)
    ensures BASE * v + A * (BASE * q) == BASE * (v + Lo(A) * q + Hi(A) * (BASE * q))
  {
    assert A == Hi(A) * BASE + Lo(A);
    assert A * (BASE * q) == (Hi(A) * BASE) * (BASE * q) + Lo(A) * (BASE * q);
    assert Lo(A) * (BASE * q) == BASE * (Lo(A) * q);
    assert (Hi(A) * BASE) * (BASE * q) == BASE * (Hi(A) * (BASE * q));
  }

  /** c[] := a[] * b[] / R mod n, for any words in c. */
  method MontMul(key: PublicKey, c: array<Word>, a: seq<Word>, b: seq<Word>)
    requires key.Valid() && c.Length == |a| == |b| == |key.n|
    modifies c
    ensures Cong(Num(c[..]) * key.R(), Num(a) * Num(b), key.Modulus())
  {
    Zero(c);
    CongIntro(0, 0, 0, key.Modulus());
    assert a[..0] == [];
    for i := 0 to c.Length
      invariant Cong(Num(c[..]) * Pow(BASE, i), Num(a[..i]) * Num(b), key.Modulus())
    {
      ghost var v := Num(c[..]);
      MontMulAdd(key, c, a[i], b);
      ValPrefix(BASE, a, i);
      MulStep(v, Num(c[..]), Num(a[..i]), a[i], Num(b), Pow(BASE, i), key.Modulus());
    }
    assert a[..c.Length] == a;
  }

  method Zero(c: array<Word>)
    modifies c
    ensures Num(c[..]) == 0
  {
    for i := 0 to c.Length
      invariant Num(c[..i]) == 0
    {
      ghost var before := c[..i];
      c[i] := 0;
      ValPrefix(BASE, c[..], i);
      assert c[..][..i] == before && c[..][..i + 1] == c[..i + 1];
    }
    assert c[..c.Length] == c[..];
  }

  lemma MulStep(v: int, v': int, va: int, ai: int, b: int, p: int, n: int)
    requires n > 0 && Cong(v * p, va * b, n) && Cong(v' * BASE, v + ai * b, n)
    ensures Cong(v' * (BASE * p), (va + ai * p) * b, n)
  {
    var k := CongElim(v * p, va * b, n);
    var l := CongElim(v' * BASE, v + ai * b, n);
    calc {
      v' * (BASE * p);
      { MulAssoc(v', BASE, p); }
      (v + ai * b + l * n) * p;
      v * p + (ai * p) * b + (l * p) * n;
      (va + ai * p) * b + (k + l * p) * n;
    }
    CongIntro(v' * (BASE * p), (va + ai * p) * b, k + l * p, n);
  }

  /** The same invariant when nothing is multiplied in. */
  ghost predicate Columns0(c: seq<Word>, d: int, n: seq<Word>, i: nat, out: seq<Word>, hi: int)
    requires 1 <= i <= |c| == |n|
  {
    Columns(c, 0, n, d, n, i, out, hi)
  }

  lemma FirstColumn0(c: seq<Word>, d: Word, n: seq<Word>, B: int)
    requires |c| == |n| > 0 && B == d * n[0] + c[0] && Lo(B) == 0
    ensures Columns0(c, d, n, 1, c[..0], Hi(B))
  {
    FirstColumn(c, 0, n, d, n, c[0], B);
  }

  lemma NextColumn0(c: seq<Word>, d: int, n: seq<Word>, i: nat, out: seq<Word>, bh: int, B: int)
    requires 1 <= i < |c| == |n| && Columns0(c, d, n, i, out, bh) && B == bh + d * n[i] + c[i]
    ensures Columns0(c, d, n, i + 1, out + [Lo(B)], Hi(B))
  {
    NextColumn(c, 0, n, d, n, i, out, 0, bh, c[i], B);
  }

  /** c[] := c[] / 2^32 mod n: the column loop of MontMulAdd with a = 0. */
  method MontMulAdd0(key: PublicKey, c: array<Word>)
    requires key.Valid() && c.Length == |key.n|
    modifies c
    ensures Cong(Num(c[..]) * BASE, old(Num(c[..])), key.Modulus())
  {
    ghost var c0 := c[..];
    var d0: Word := Lo(c[0] * key.n0inv);
    WordProduct(d0, key.n[0]);
    var B: U64 := d0 * key.n[0] + c[0];
    LowWordClears(key, c[0]);
    FirstColumn0(c0, d0, key.n, B);

    var i := 1;
    while i < |key.n|
      invariant 1 <= i <= |key.n|
      invariant c[i - 1..] == c0[i - 1..]
      invariant Columns0(c0, d0, key.n, i, c[..i - 1], Hi(B))
    {
      ghost var before, bh := c[..i - 1], Hi(B);
      assert c[i] == c[i - 1..][1] == c0[i];
      WordProduct(d0, key.n[i]);
      B := Hi(B) + d0 * key.n[i] + c[i];
      c[i - 1] := Lo(B);
      NextColumn0(c0, d0, key.n, i, before, bh, B);
      assert c[..i] == before + [c[i - 1]];
      assert c[i..] == c0[i - 1..][1..] == c0[i..];
      i := i + 1;
    }
    ghost var out := c[..i - 1];
    c[i - 1] := Hi(B);
    assert c[..] == out + [Hi(B)];
    NoCarry(key, c0, d0, out, Hi(B));
  }

  /** With a = 0 the last carry is a single word. */
  lemma NoCarry(key: PublicKey, c: seq<Word>, d: Word, out: seq<Word>, hi: Word)
    requires key.Valid() && |c| == |key.n| && Columns0(c, d, key.n, |c|, out, hi)
    ensures Cong(Num(out + [hi]) * BASE, Num(c), key.Modulus())
  {
    LastColumn(c, 0, key.n, d, key.n, out, hi);
    assert Lo(hi) == hi && Hi(hi) == 0;
    Reduction(Num(out + [hi]), Num(c), d, key.Modulus());
  }

  /** c[] := a[] / R mod n. */
  method MontMul1(key: PublicKey, c: array<Word>, a: seq<Word>)
    requires key.Valid() && c.Length == |a| == |key.n|
    modifies c
    ensures Cong(Num(c[..]) * key.R(), Num(a), key.Modulus())
  {
    Zero(c);
    MontMulAdd(key, c, 1, a);
    assert Pow(BASE, 1) == BASE * Pow(BASE, 0);
    for i := 1 to c.Length
      invariant Cong(Num(c[..]) * Pow(BASE, i), Num(a), key.Modulus())
    {
      ghost var v := Num(c[..]);
      MontMulAdd0(key, c);
      MulStep(v, Num(c[..]), Num(a), 0, 1, Pow(BASE, i), key.Modulus());
    }
  }
}
