/** Padding an image so that an end-of-filesystem marker starts at the first boundary
    of every requested erase block size. */
module PadJffs2 {
  import opened Arith
  import opened Octets
  import opened Word32

  const BUF_SIZE: nat := 0x1_0000

  /** p is the first multiple of m at or after x. */
  predicate First(p: int, x: int, m: int)
    requires m > 0
  {
    p % m == 0 && x <= p < x + m
  }

  lemma FirstUnique(p: int, q: int, x: int, m: int)
    requires m > 0 && First(p, x, m) && First(q, x, m)
    ensures p == q
  {
    var a, b := p / m, q / m;
    assert p == m * a && q == m * b;
    assert p - q == m * (a - b);
    if a - b >= 1 {
      MulMono(m, 1, a - b);
    } else if a - b <= -1 {
      MulMono(m, a - b, -1);
    }
  }

  /** ALIGN(x, m) with a 32-bit m: the complement of m - 1 has no bits above bit 31. */
  function Align(x: nat, m: nat): nat
    requires m > 0
  {
    (x + (m - 1)) / m * m % 0x1_0000_0000
  }

  lemma AlignFirst(x: nat, m: nat, p: nat)
    requires m > 0 && First(p, x, m) && p < 0x1_0000_0000
    ensures Align(x, m) == p
  {
    var q := (x + (m - 1)) / m;
    MultipleMod(q, m);
    assert q * m == (x + (m - 1)) - (x + (m - 1)) % m;
    FirstUnique(q * m, p, x, m);
  }

  function FirstMultiple(x: nat, m: nat): (p: nat)
    requires m > 0
    ensures First(p, x, m)
  {
    MultipleMod((x + (m - 1)) / m, m);
    (x + (m - 1)) / m * m
  }

  lemma MultipleOfProduct(p: int, m: int, k: int)
    requires m > 0 && k > 0 && m * k > 0 && p % (m * k) == 0
    ensures p % m == 0
  {
    var q := p / (m * k);
    assert p == q * (m * k);
    assert q * (m * k) == (q * k) * m;
    MultipleMod(q * k, m);
  }

  /** A multiple of a larger power of two is a multiple of a smaller one. */
  lemma MultipleDown(p: int, b: nat, c: nat)
    requires b <= c && p % Pow2(c) == 0
    ensures p % Pow2(b) == 0
  {
    Pow2Add(b, c - b);
    MultipleOfProduct(p, Pow2(b), Pow2(c - b));
  }

  /** Going to a boundary of a smaller size on the way does not skip a boundary of a larger one. */
  lemma FirstVia(x: nat, p: nat, b: nat, c: nat)
    requires b <= c && First(p, x, Pow2(b))
    ensures FirstMultiple(p, Pow2(c)) == FirstMultiple(x, Pow2(c)) >= p
  {
    var q := FirstMultiple(x, Pow2(c));
    MultipleDown(q, b, c);
    if q < p {
      assert First(q, x, Pow2(b));
      FirstUnique(p, q, x, Pow2(b));
    }
    assert First(q, p, Pow2(c));
    FirstUnique(q, FirstMultiple(p, Pow2(c)), p, Pow2(c));
  }

  /** The lowest requested size. */
  method LowestBit(mask: set<nat>) returns (i: nat)
    requires mask != {} && forall b :: b in mask ==> 10 <= b < 32
    ensures i in mask && forall b :: b in mask ==> i <= b
  {
    ghost var some :| some in mask;
    i := 10;
    while i !in mask
      invariant 10 <= i <= some && forall b :: b in mask ==> i <= b
      decreases 32 - i
    {
      i := i + 1;
    }
  }

  /** Drops every size inLen is aligned to. */
  method ClearAligned(mask: set<nat>, inLen: nat) returns (rest: set<nat>)
    requires forall b :: b in mask ==> 10 <= b < 32
    ensures rest == set b | b in mask && inLen % Pow2(b) != 0
  {
    rest := mask;
    for i := 10 to 32
      invariant rest == set b | b in mask && (b >= i || inLen % Pow2(b) != 0)
    {
      if inLen % Pow2(i) == 0 {
        rest := rest - {i};
      }
    }
  }

  /** Writes 0xff up to a length, at most BUF_SIZE bytes at a time. */
  method Fill(out: seq<Byte>, n: nat) returns (r: seq<Byte>)
    requires |out| <= n
    ensures r == out + Blank(n - |out|)
  {
    r := out;
    while |r| < n
      invariant |out| <= |r| <= n && r == out + Blank(|r| - |out|)
    {
      var len := n - |r|;
      if len > BUF_SIZE {
        len := BUF_SIZE;
      }
      r := r + Blank(len);
    }
  }

  /** Markers start at or after the image and do not overlap. */
  predicate Apart(start: nat, at: seq<nat>, gap: nat) {
    at == [] || (var n := |at| - 1; start <= at[n] && Apart(start, at[..n], gap) && (n > 0 ==> at[n - 1] + gap <= at[n]))
  }

  lemma {:induction false} ApartPair(start: nat, at: seq<nat>, gap: nat, k: nat, l: nat)
    requires Apart(start, at, gap) && k < l < |at|
    ensures start <= at[k] && at[k] + gap <= at[l]
  {
    var n := |at| - 1;
    if l < n {
      ApartPair(start, at[..n], gap, k, l);
    } else if k < n - 1 {
      ApartPair(start, at[..n], gap, k, n - 1);
    }
  }

  /** What follows an image that ends at offset start: 0xff up to each marker. */
  function Image(start: nat, at: seq<nat>, pad: seq<Byte>): seq<Byte> {
    if at == [] then []
    else
      var before, p := Image(start, at[..|at| - 1], pad), at[|at| - 1];
      before + Blank(p - start - |before|) + pad
  }

  function Blank(n: int): (s: seq<Byte>)
    ensures n >= 0 ==> |s| == n
  {
    if n <= 0 then [] else seq(n, _ => 0xff)
  }

  lemma {:induction false} ImageLength(start: nat, at: seq<nat>, pad: seq<Byte>)
    requires Apart(start, at, |pad|)
    ensures |Image(start, at, pad)| == if at == [] then 0 else at[|at| - 1] + |pad| - start
  {
    if at != [] {
      ImageLength(start, at[..|at| - 1], pad);
    }
  }

  /** A marker begins exactly at each listed offset. */
  lemma {:induction false} ImageMarker(start: nat, at: seq<nat>, pad: seq<Byte>, k: nat, j: nat)
    requires Apart(start, at, |pad|) && k < |at| && j < |pad|
    ensures 0 <= at[k] - start + j < |Image(start, at, pad)|
    ensures Image(start, at, pad)[at[k] - start + j] == pad[j]
  {
    var n := |at| - 1;
    ImageLength(start, at[..n], pad);
    if k < n {
      ImageMarker(start, at[..n], pad, k, j);
    }
  }

  /** There is nothing but 0xff outside the markers. */
  lemma {:induction false} ImageBlank(start: nat, at: seq<nat>, pad: seq<Byte>, j: nat)
    requires Apart(start, at, |pad|) && j < |Image(start, at, pad)|
    requires forall k :: 0 <= k < |at| ==> !(at[k] <= start + j < at[k] + |pad|)
    ensures Image(start, at, pad)[j] == 0xff
  {
    if at != [] {
      var n := |at| - 1;
      var before := Image(start, at[..n], pad);
      ImageLength(start, at[..n], pad);
      ImageLength(start, at, pad);
      assert start + j < at[n];
      if j < |before| {
        assert forall k :: 0 <= k < n ==> at[..n][k] == at[k];
        ImageBlank(start, at[..n], pad, j);
      }
    }
  }

  /** Where the loop stands: sizes still in mask have their first boundary ahead, the others have a marker. */
  ghost predicate Progress(start: nat, mask0: set<nat>, mask: set<nat>, inLen: nat, at: seq<nat>) {
    && mask <= mask0 && start <= inLen
    && (at != [] ==> inLen == at[|at| - 1] && inLen % Pow2(10) == 0 && forall b :: b in mask ==> inLen % Pow2(b) != 0)
    && (forall b :: b in mask ==> FirstMultiple(inLen, Pow2(b)) == FirstMultiple(start, Pow2(b)))
    && (forall b :: b in mask0 && b !in mask ==> FirstMultiple(start, Pow2(b)) in at)
    && (forall p :: p in at ==> exists b :: b in mask0 && p == FirstMultiple(start, Pow2(b)))
  }

  lemma ProgressStep(start: nat, mask0: set<nat>, mask: set<nat>, inLen: nat, at: seq<nat>, i: nat, rest: set<nat>)
    requires Progress(start, mask0, mask, inLen, at)
    requires forall b :: b in mask0 ==> 10 <= b < 32 && FirstMultiple(start, Pow2(b)) < 0x1_0000_0000
    requires i in mask && forall b :: b in mask ==> i <= b
    requires rest == set b | b in mask && Align(inLen, Pow2(i)) % Pow2(b) != 0
    ensures var p := Align(inLen, Pow2(i));
            && p >= inLen && (at != [] ==> inLen + 1024 <= p)
            && rest < mask && Progress(start, mask0, rest, p, at + [p])
  {
    Boundary(start, mask, inLen, at, i);
    var p := Align(inLen, Pow2(i));
    Covered(start, mask, p, i);
    assert i !in rest;
    forall b | b in mask0 && b !in rest ensures FirstMultiple(start, Pow2(b)) in at + [p] {
      if b !in mask {
        assert FirstMultiple(start, Pow2(b)) in at;
      } else {
        assert p == (at + [p])[|at|];
      }
    }
  }

  /** The loop of pad_image for an image (plus offset) of inLen0 bytes: what it appends and where
      it reports padding to. */
  method PadImage(inLen0: nat, mask0: set<nat>, pad: seq<Byte>) returns (out: seq<Byte>, at: seq<nat>)
    requires forall b :: b in mask0 ==> 10 <= b < 32
    requires |pad| <= 1024
    requires forall b :: b in mask0 ==> FirstMultiple(inLen0, Pow2(b)) < 0x1_0000_0000
    ensures out == Image(inLen0, at, pad) && Apart(inLen0, at, |pad|)
    ensures forall b :: b in mask0 ==> FirstMultiple(inLen0, Pow2(b)) in at
    ensures forall p :: p in at ==> exists b :: b in mask0 && p == FirstMultiple(inLen0, Pow2(b))
  {
    var mask := mask0;
    var inLen: nat := inLen0;
    out, at := [], [];
    while mask != {}
      invariant Progress(inLen0, mask0, mask, inLen, at)
      invariant out == Image(inLen0, at, pad) && Apart(inLen0, at, |pad|)
      decreases mask
    {
      var i := LowestBit(mask);
      ghost var before := inLen;
      inLen := Align(inLen, Pow2(i));
      var rest := ClearAligned(mask, inLen);
      ProgressStep(inLen0, mask0, mask, before, at, i, rest);
      ImageLength(inLen0, at, pad);
      out := Fill(out, inLen - inLen0);
      out := out + pad;
      ImageSnoc(inLen0, at, pad, inLen);
      mask, at := rest, at + [inLen];
    }
  }

  /** Markers come after the image, in order, and none overlaps another. */
  lemma MarkersApart(start: nat, at: seq<nat>, gap: nat)
    requires Apart(start, at, gap)
    ensures forall k :: 0 <= k < |at| ==> start <= at[k]
    ensures forall k, l :: 0 <= k < l < |at| ==> at[k] + gap <= at[l]
  {
    forall k, l | 0 <= k < l < |at| ensures start <= at[k] && at[k] + gap <= at[l] {
      ApartPair(start, at, gap, k, l);
    }
  }

  lemma {:induction false} ImageSnoc(start: nat, at: seq<nat>, pad: seq<Byte>, p: nat)
    requires Apart(start, at, |pad|) && start <= p && (at != [] ==> at[|at| - 1] + |pad| <= p)
    ensures Apart(start, at + [p], |pad|)
    ensures var out := Image(start, at, pad); Image(start, at + [p], pad) == out + Blank(p - start - |out|) + pad
  {
    assert (at + [p])[..|at|] == at;
  }

  /** The next boundary is the first one of its size after the image, and lies past the last marker. */
  lemma Boundary(start: nat, mask: set<nat>, inLen: nat, at: seq<nat>, i: nat)
    requires i in mask && i >= 10 && FirstMultiple(start, Pow2(i)) < 0x1_0000_0000
    requires FirstMultiple(inLen, Pow2(i)) == FirstMultiple(start, Pow2(i))
    requires at != [] ==> inLen % Pow2(10) == 0 && inLen % Pow2(i) != 0
    ensures Align(inLen, Pow2(i)) == FirstMultiple(start, Pow2(i)) >= inLen
    ensures Align(inLen, Pow2(i)) % Pow2(10) == 0
    ensures at != [] ==> inLen + 1024 <= Align(inLen, Pow2(i))
  {
    var p := FirstMultiple(start, Pow2(i));
    AlignFirst(inLen, Pow2(i), p);
    MultipleDown(p, 10, i);
    if at != [] {
      NextApart(inLen, p, i);
    }
  }

  /** Every remaining size still has its first boundary ahead, or exactly here. */
  lemma Covered(start: nat, mask: set<nat>, p: nat, i: nat)
    requires i in mask && (forall b :: b in mask ==> i <= b) && p == FirstMultiple(start, Pow2(i))
    ensures forall b :: b in mask ==> FirstMultiple(p, Pow2(b)) == FirstMultiple(start, Pow2(b))
    ensures forall b :: b in mask && p % Pow2(b) == 0 ==> FirstMultiple(start, Pow2(b)) == p
  {
    forall b | b in mask
      ensures FirstMultiple(p, Pow2(b)) == FirstMultiple(start, Pow2(b))
      ensures p % Pow2(b) == 0 ==> FirstMultiple(start, Pow2(b)) == p
    {
      FirstVia(start, p, i, b);
      if p % Pow2(b) == 0 {
        assert First(p, p, Pow2(b));
        FirstUnique(p, FirstMultiple(p, Pow2(b)), p, Pow2(b));
      }
    }
  }

  /** Two different boundaries of at least 1 KiB are at least 1 KiB apart. */
  lemma NextApart(x: nat, p: nat, i: nat)
    requires i >= 10 && x % Pow2(10) == 0 && p == FirstMultiple(x, Pow2(i)) && x % Pow2(i) != 0
    ensures x + 1024 <= p
  {
    MultipleDown(p, 10, i);
    assert Pow2(5) == 32;
    Pow2Add(5, 5);
    assert p != x;
    assert p % 1024 == 0 && x % 1024 == 0 && p > x;
  }
}
