/** Powers, congruence and little-endian digit strings: the arithmetic the
    word-by-word code is specified against. */
module Arith {

  function Pow(b: int, e: nat): int
  {
    if e == 0 then 1 else b * Pow(b, e - 1)
  }

  lemma PowPositive(b: int, e: nat)
    requires b > 0
    ensures Pow(b, e) > 0
  {
  }

  lemma {:induction false} PowAdd(b: int, d: nat, e: nat)
    ensures Pow(b, d + e) == Pow(b, d) * Pow(b, e)
  {
    if d > 0 {
      PowAdd(b, d - 1, e);
      MulAssoc(b, Pow(b, d - 1), Pow(b, e));
    }
  }

  lemma MulAssoc(x: int, y: int, z: int)
    ensures x * y * z == x * (y * z)
  {
  }

  /** Congruence modulo n. */
  predicate Cong(a: int, b: int, n: int)
    requires n > 0
  {
    (a - b) % n == 0
  }

  lemma MultipleMod(k: int, n: int)
    requires n > 0
    ensures (k * n) % n == 0
  {
    var q, r := k * n / n, k * n % n;
    assert (k - q) * n == r;
    if k - q >= 1 {
      MulMono(n, 1, k - q);
    } else if k - q <= -1 {
      MulMono(n, k - q, -1);
    }
  }

  lemma MulMono(a: int, x: int, y: int)
    requires a >= 0 && x <= y
    ensures a * x <= a * y
  {
  }

  lemma CongIntro(a: int, b: int, k: int, n: int)
    requires n > 0 && a == b + k * n
    ensures Cong(a, b, n)
  {
    MultipleMod(k, n);
  }

  lemma CongElim(a: int, b: int, n: int) returns (k: int)
    requires n > 0 && Cong(a, b, n)
    ensures a == b + k * n
  {
    k := (a - b) / n;
  }

  lemma CongTrans(a: int, b: int, c: int, n: int)
    requires n > 0 && Cong(a, b, n) && Cong(b, c, n)
    ensures Cong(a, c, n)
  {
    var k := CongElim(a, b, n);
    var l := CongElim(b, c, n);
    assert a == c + (k + l) * n;
    CongIntro(a, c, k + l, n);
  }

  lemma CongSym(a: int, b: int, n: int)
    requires n > 0 && Cong(a, b, n)
    ensures Cong(b, a, n)
  {
    var k := CongElim(a, b, n);
    assert b == a + (-k) * n;
    CongIntro(b, a, -k, n);
  }

  lemma CongMul(a: int, b: int, c: int, d: int, n: int)
    requires n > 0 && Cong(a, b, n) && Cong(c, d, n)
    ensures Cong(a * c, b * d, n)
  {
    var k := CongElim(a, b, n);
    var l := CongElim(c, d, n);
    calc {
      a * c;
      (b + k * n) * (d + l * n);
      b * d + b * (l * n) + (k * n) * d + (k * n) * (l * n);
      { assert b * (l * n) == (b * l) * n; assert (k * n) * d == (k * d) * n; assert (k * n) * (l * n) == (k * (l * n)) * n; }
      b * d + (b * l + k * d + k * (l * n)) * n;
    }
    CongIntro(a * c, b * d, b * l + k * d + k * (l * n), n);
  }

  /** A factor with an inverse can be cancelled. */
  lemma CongCancel(a: int, b: int, r: int, inv: int, n: int)
    requires n > 0 && Cong(a * r, b * r, n) && Cong(r * inv, 1, n)
    ensures Cong(a, b, n)
  {
    CongMul(a * r, b * r, inv, inv, n);
    CongMul(a, a, r * inv, 1, n);
    CongMul(b, b, r * inv, 1, n);
    assert a * (r * inv) == a * r * inv && b * (r * inv) == b * r * inv;
    CongSym(a * (r * inv), a, n);
    CongTrans(a, a * r * inv, b * r * inv, n);
    CongTrans(a, b * r * inv, b, n);
  }

  /** The reduced representative is unique. */
  lemma CongReduced(a: int, b: int, n: int)
    requires n > 0 && Cong(a, b, n) && 0 <= a < n
    ensures a == b % n
  {
    var k := CongElim(a, b, n);
    var q := b / n;
    assert a - b % n == (k + q) * n;
    if k + q >= 1 {
      MulMono(n, 1, k + q);
    } else if k + q <= -1 {
      MulMono(n, k + q, -1);
    }
  }

  lemma DivModUnique(x: int, d: int, q: int, r: int)
    requires d > 0 && x == d * q + r && 0 <= r < d
    ensures x / d == q && x % d == r
  {
    var q', r' := x / d, x % d;
    assert d * (q - q') == r' - r;
    if q - q' >= 1 {
      MulMono(d, 1, q - q');
    } else if q - q' <= -1 {
      MulMono(d, q - q', -1);
    }
  }

  /** Value of a little-endian digit string. */
  function Val(base: int, s: seq<int>): int
  {
    if s == [] then 0
    else Val(base, s[..|s| - 1]) + s[|s| - 1] * Pow(base, |s| - 1)
  }

  ghost predicate Digits(base: int, s: seq<int>)
  {
    forall i :: 0 <= i < |s| ==> 0 <= s[i] < base
  }

  lemma ValPrefix(base: int, s: seq<int>, i: nat)
    requires i < |s|
    ensures Val(base, s[..i + 1]) == Val(base, s[..i]) + s[i] * Pow(base, i)
  {
    assert s[..i + 1][..i] == s[..i];
  }

  lemma {:induction false} ValBound(base: int, s: seq<int>)
    requires base > 1 && Digits(base, s)
    ensures 0 <= Val(base, s) < Pow(base, |s|)
  {
    if s != [] {
      var k := |s| - 1;
      ValBound(base, s[..k]);
      PowPositive(base, k);
      MulMono(Pow(base, k), 0, s[k]);
      MulMono(Pow(base, k), s[k], base - 1);
    }
  }

  lemma TopDigit(v: int, d: int, w: int, e: int, p: int)
    requires v < p && 0 <= w && d < e && 0 < p
    ensures v + d * p < w + e * p
  {
    MulMono(p, d + 1, e);
  }

  /** Two digit strings differing first (from the top) at digit k are ordered by that digit. */
  lemma {:induction false} ValOrder(base: int, s: seq<int>, t: seq<int>, k: nat)
    requires base > 1 && Digits(base, s) && Digits(base, t)
    requires k < |s| == |t| && s[k] < t[k] && s[k + 1..] == t[k + 1..]
    ensures Val(base, s) < Val(base, t)
  {
    var m := |s| - 1;
    if k == m {
      ValBound(base, s[..m]);
      ValBound(base, t[..m]);
      TopDigit(Val(base, s[..m]), s[m], Val(base, t[..m]), t[m], Pow(base, m));
    } else {
      assert s[m] == s[k + 1..][m - k - 1] == t[k + 1..][m - k - 1] == t[m];
      assert s[..m][k + 1..] == s[k + 1..][..m - k - 1];
      assert t[..m][k + 1..] == t[k + 1..][..m - k - 1];
      ValOrder(base, s[..m], t[..m], k);
    }
  }

  /** Splitting off the least significant digit. */
  lemma {:induction false} ValCons(base: int, d: int, s: seq<int>)
    ensures Val(base, [d] + s) == d + base * Val(base, s)
  {
    var t := [d] + s;
    if s == [] {
      assert t[..0] == [];
      assert Val(base, t) == Val(base, []) + d * Pow(base, 0);
    } else {
      var m := |s| - 1;
      ValCons(base, d, s[..m]);
      assert t[..m + 1] == [d] + s[..m];
      assert Pow(base, m + 1) == base * Pow(base, m);
      assert s[m] * (base * Pow(base, m)) == base * (s[m] * Pow(base, m));
    }
  }
}
