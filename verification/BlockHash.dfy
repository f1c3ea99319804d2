/** Feeding a message to a 64-byte block function, at once or in pieces. */
module BlockHash {
  import opened Octets

  /** The block function f folded over the complete blocks of data; a partial block at the end is left out. */
  function Fold<S>(f: (S, seq<Byte>) -> S, s: S, data: seq<Byte>): S
    decreases |data|
  {
    if |data| < 64 then s else Fold(f, f(s, data[..64]), data[64..])
  }

  /** The bytes after the last complete block. */
  function Tail(data: seq<Byte>): (r: seq<Byte>)
    decreases |data|
  {
    if |data| < 64 then data else Tail(data[64..])
  }

  lemma {:induction false} TailLength(data: seq<Byte>)
    ensures |Tail(data)| == |data| % 64 && Tail(data) == data[|data| - |data| % 64..]
    decreases |data|
  {
    if |data| >= 64 {
      TailLength(data[64..]);
      assert |data[64..]| % 64 == |data| % 64;
      assert data[64..][|data| - 64 - |data| % 64..] == data[|data| - |data| % 64..];
    }
  }

  /** More data continues where the partial block stopped. */
  lemma {:induction false} FoldAppend<S>(f: (S, seq<Byte>) -> S, s: S, x: seq<Byte>, y: seq<Byte>)
    ensures Fold(f, s, x + y) == Fold(f, Fold(f, s, x), Tail(x) + y)
    ensures Tail(x + y) == Tail(Tail(x) + y)
    decreases |x|
  {
    if |x| >= 64 {
      assert (x + y)[..64] == x[..64] && (x + y)[64..] == x[64..] + y;
      FoldAppend(f, f(s, x[..64]), x[64..], y);
    }
  }

  lemma FoldBlock<S>(f: (S, seq<Byte>) -> S, s: S, b: seq<Byte>)
    requires |b| == 64
    ensures Fold(f, s, b) == f(s, b) && Tail(b) == []
  {
    assert b[..64] == b && b[64..] == [];
  }

  function Concat(chunks: seq<seq<Byte>>): seq<Byte> {
    if chunks == [] then [] else Concat(chunks[..|chunks| - 1]) + chunks[|chunks| - 1]
  }

  /** memcpy(&dst[off], src, |src|). */
  method Copy(dst: array<Byte>, off: nat, src: seq<Byte>)
    requires off + |src| <= dst.Length
    modifies dst
    ensures dst[..off + |src|] == old(dst[..off]) + src
    ensures dst[off + |src|..] == old(dst[off + |src|..])
    ensures off + |src| == dst.Length ==> dst[..] == old(dst[..off]) + src
  {
    ghost var before := dst[..];
    for i := 0 to |src|
      invariant forall j :: 0 <= j < i ==> dst[off + j] == src[j]
      invariant forall j :: 0 <= j < off || off + i <= j < dst.Length ==> dst[j] == before[j]
    {
      dst[off + i] := src[i];
    }
    assert dst[..off + |src|] == before[..off] + src;
    assert dst[off + |src|..] == before[off + |src|..];
    assert dst[..dst.Length] == dst[..];
  }

  /** What is buffered after more data: appended if it stays short of a block. */
  lemma ShortUpdate<S>(f: (S, seq<Byte>) -> S, s: S, m: seq<Byte>, data: seq<Byte>)
    requires |Tail(m)| + |data| < 64
    ensures Fold(f, s, m + data) == Fold(f, s, m) && Tail(m + data) == Tail(m) + data
  {
    FoldAppend(f, s, m, data);
  }

  /** On a block boundary the left over is simply what is buffered. */
  lemma LeftOver<S>(f: (S, seq<Byte>) -> S, s: S, m: seq<Byte>, left: seq<Byte>)
    requires Tail(m) == [] && |left| < 64
    ensures Fold(f, s, m + left) == Fold(f, s, m) && Tail(m + left) == left
  {
    ShortUpdate(f, s, m, left);
  }

  /** The first part of the data completes a block. */
  lemma FillBlock<S>(f: (S, seq<Byte>) -> S, s: S, m: seq<Byte>, fill: seq<Byte>)
    requires |Tail(m)| + |fill| == 64
    ensures Fold(f, s, m + fill) == f(Fold(f, s, m), Tail(m) + fill) && Tail(m + fill) == []
  {
    FoldAppend(f, s, m, fill);
    FoldBlock(f, Fold(f, s, m), Tail(m) + fill);
  }

  /** One more block on a block boundary. */
  lemma NextBlock<S>(f: (S, seq<Byte>) -> S, s: S, m: seq<Byte>, b: seq<Byte>)
    requires Tail(m) == [] && |b| == 64
    ensures Fold(f, s, m + b) == f(Fold(f, s, m), b) && Tail(m + b) == []
  {
    assert [] + b == b;
    FillBlock(f, s, m, b);
  }

  function Zeros(n: nat): (s: seq<Byte>)
    ensures |s| == n
  {
    seq(n, _ => 0)
  }

  /** The number of zero bytes that takes the message and its 0x80 to 56 bytes modulo 64. */
  function PadZeros(len: nat): (z: nat)
    ensures z < 64 && (len + 1 + z) % 64 == 56
  {
    var r := len % 64;
    if r < 56 then 55 - r else 119 - r
  }

  /** The padding up to the length field: a 1 bit and zeros up to 448 bits modulo 512. */
  function PadFirst(len: nat): seq<Byte> {
    [0x80] + Zeros(PadZeros(len))
  }

  /** Either the padding fits in the last block, or it fills that and 56 bytes of another. */
  lemma PadFirstForm(m: seq<Byte>)
    ensures var r := |Tail(m)|;
            && r < 64
            && (r < 56 ==> PadFirst(|m|) == [0x80] + Zeros(55 - r))
            && (r >= 56 ==> PadFirst(|m|) == [0x80] + Zeros(63 - r) + Zeros(56))
  {
    TailLength(m);
  }

  /** Bookkeeping: moving a piece from what is left to what has been seen. */
  lemma MovePiece(seen: seq<Byte>, piece: seq<Byte>, left: seq<Byte>, rest: seq<Byte>, all: seq<Byte>)
    requires left == piece + rest && seen + left == all
    ensures (seen + piece) + rest == all
  {
  }

  lemma Appended(a: seq<Byte>, b: seq<Byte>, c: seq<Byte>)
    ensures a + (b + c) == a + b + c
  {
  }
}
