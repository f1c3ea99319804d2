/** MD5 over a message arriving in pieces, with a byte counter split 29:32
    (sections 3.1 to 3.5 of RFC 1321). */
module Md5Stream {
  import opened BlockHash
  import opened Md5Block
  import opened Octets

  /** Section 3.2: the low-order 64 bits of the length in bits, low-order word first. */
  function LengthField(len: nat): (s: seq<Byte>)
    ensures |s| == 8
  {
    var bits := 8 * (len % 0x2000_0000_0000_0000);
    Le32(bits % 0x1_0000_0000) + Le32(bits / 0x1_0000_0000)
  }

  function Padded(m: seq<Byte>): seq<Byte> {
    m + PadFirst(|m|) + LengthField(|m|)
  }

  /** hi * 2^29 + lo counts the bytes, modulo 2^61. */
  ghost predicate Counts(lo: int, hi: int, len: nat) {
    0 <= lo < 0x2000_0000 && 0 <= hi < 0x1_0000_0000 && hi * 0x2000_0000 + lo == len % 0x2000_0000_0000_0000
  }

  /** The carry out of lo shows as a sum smaller than one of its terms. */
  lemma LoCarry(lo: int, size: nat) returns (carry: int)
    requires 0 <= lo < 0x2000_0000
    ensures var lo' := (lo + size) % 0x2000_0000;
            carry == (if lo' < lo then 1 else 0) && lo + size == lo' + 0x2000_0000 * (size / 0x2000_0000 + carry)
  {
    var a, b := size / 0x2000_0000, size % 0x2000_0000;
    carry := if lo + b >= 0x2000_0000 then 1 else 0;
    ModUnique(lo + size, 0x2000_0000, lo + b - carry * 0x2000_0000, a + carry);
  }

  lemma CountStep(lo: int, hi: int, len: nat, size: nat)
    requires Counts(lo, hi, len)
    ensures var lo' := (lo + size) % 0x2000_0000;
            Counts(lo', ((if lo' < lo then (hi + 1) % 0x1_0000_0000 else hi) + size / 0x2000_0000) % 0x1_0000_0000, len + size)
  {
    var lo' := (lo + size) % 0x2000_0000;
    var carry := LoCarry(lo, size);
    var hi1 := (hi + carry) % 0x1_0000_0000;
    HiStep(hi, carry, hi1, size / 0x2000_0000, lo, lo', len, size);
  }

  lemma HiStep(hi: int, carry: int, hi1: int, a: int, lo: int, lo': int, len: nat, size: nat)
    requires Counts(lo, hi, len) && 0 <= lo' < 0x2000_0000 && 0 <= carry <= 1 && a >= 0
    requires hi1 == (hi + carry) % 0x1_0000_0000 && lo + size == lo' + 0x2000_0000 * (a + carry)
    ensures Counts(lo', (hi1 + a) % 0x1_0000_0000, len + size)
  {
    var hi' := (hi1 + a) % 0x1_0000_0000;
    var q1, q2, q := (hi + carry) / 0x1_0000_0000, (hi1 + a) / 0x1_0000_0000, len / 0x2000_0000_0000_0000;
    assert hi + carry + a == hi' + 0x1_0000_0000 * (q1 + q2);
    ModUnique(len + size, 0x2000_0000_0000_0000, hi' * 0x2000_0000 + lo', q + q1 + q2);
  }

  lemma ModUnique(x: int, d: int, r: int, q: int)
    requires d == 0x2000_0000 || d == 0x2000_0000_0000_0000 || d == 64
    requires x == r + d * q && 0 <= r < d
    ensures x % d == r
  {
  }

  /** lo & 0x3f is the number of buffered bytes. */
  lemma BufferedBytes(lo: int, hi: int, m: seq<Byte>)
    requires Counts(lo, hi, |m|)
    ensures lo % 64 == |Tail(m)| < 64
  {
    var q := |m| / 0x2000_0000_0000_0000;
    assert |m| == lo % 64 + 64 * (lo / 64 + hi * 0x80_0000 + q * 0x80_0000_0000_0000);
    ModUnique(|m|, 64, lo % 64, lo / 64 + hi * 0x80_0000 + q * 0x80_0000_0000_0000);
    TailLength(m);
  }

  /** lo << 3 and hi are the two halves of the bit count. */
  lemma LengthHalves(lo: int, hi: int, len: nat)
    requires Counts(lo, hi, len)
    ensures 0 <= lo * 8 % 0x1_0000_0000 == lo * 8 && LengthField(len) == Le32(lo * 8 % 0x1_0000_0000) + Le32(hi)
  {
    var bits := 8 * (len % 0x2000_0000_0000_0000);
    assert bits == hi * 0x1_0000_0000 + lo * 8;
    assert bits % 0x1_0000_0000 == lo * 8 && bits / 0x1_0000_0000 == hi;
  }

  /** size & ~0x3f. */
  function WholeBlocks(size: nat): (w: nat)
    ensures w == 64 * (size / 64) && w <= size < w + 64
  {
    size - size % 64
  }

  /** Whole blocks on a block boundary. */
  lemma {:induction false} FoldWhole<S>(f: (S, seq<Byte>) -> S, s: S, m: seq<Byte>, whole: seq<Byte>, n: nat)
    requires Tail(m) == [] && |whole| == 64 * n
    ensures Fold(f, s, m + whole) == Fold(f, Fold(f, s, m), whole) && Tail(m + whole) == []
  {
    FoldAppend(f, s, m, whole);
    assert [] + whole == whole;
    TailLength(whole);
  }

  const INIT: Regs := Regs(0x67452301, 0xefcdab89, 0x98badcfe, 0x10325476)

  function Bytes(r: Regs): seq<Byte> {
    Le32(r.a) + Le32(r.b) + Le32(r.c) + Le32(r.d)
  }

  class Context {
    /** The registers a, b, c, d. */
    var state: Regs
    var lo: int
    var hi: int
    const buf: array<Byte>
    ghost var msg: seq<Byte>

    ghost predicate Valid()
      reads this, buf
    {
      && buf.Length == 64 && Counts(lo, hi, |msg|)
      && state == Fold(Compress, INIT, msg)
      && |Tail(msg)| < 64 && buf[..|Tail(msg)|] == Tail(msg)
    }

    /** MD5_begin. */
    constructor ()
      ensures Valid() && msg == [] && fresh(buf)
    {
      hide Compress;
      state, lo, hi, msg := INIT, 0, 0, [];
      buf := new Byte[64];
    }

    /** MD5_body: folds the n > 0 blocks of data. */
    method Body(data: seq<Byte>, ghost n: nat)
      requires |data| == 64 * n > 0
      modifies this`state
      ensures state == Fold(Compress, old(state), data)
    {
      hide Compress;
      var ptr := data;
      ghost var s, k := state, n;
      while true
        invariant |ptr| == 64 * k > 0 && Fold(Compress, s, data) == Fold(Compress, state, ptr)
        decreases |ptr|
      {
        state := Block(state, ptr[..64]);
        ptr, k := ptr[64..], k - 1;
        if |ptr| == 0 {
          break;
        }
      }
    }

    /** MD5_body on the buffer. */
    method BodyBuffer()
      requires buf.Length == 64
      modifies this`state
      ensures state == Compress(old(state), buf[..])
    {
      hide Compress;
      FoldBlock(Compress, state, buf[..]);
      Body(buf[..], 1);
    }

    /** The counter update at the start of MD5_hash. */
    method Count(size: nat) returns (savedLo: int)
      requires Counts(lo, hi, |msg|)
      modifies this`lo, this`hi
      ensures savedLo == old(lo) && Counts(lo, hi, |msg| + size)
    {
      CountStep(lo, hi, |msg|, size);
      savedLo := lo;
      lo := (savedLo + size) % 0x2000_0000;
      if lo < savedLo {
        hi := (hi + 1) % 0x1_0000_0000;
      }
      hi := (hi + size / 0x2000_0000) % 0x1_0000_0000;
    }

    /** MD5_hash. */
    method Update(data: seq<Byte>)
      requires Valid()
      modifies this, buf
      ensures Valid() && msg == old(msg) + data
    {
      hide Compress;
      var size := |data|;
      BufferedBytes(lo, hi, msg);
      var savedLo := Count(size);
      var used := savedLo % 64;
      if used != 0 {
        var available := 64 - used;
        if size < available {
          Copy(buf, used, data);
          ShortUpdate(Compress, INIT, msg, data);
          assert buf[..used + size] == Tail(msg) + data;
          msg := msg + data;
          return;
        }
        var fill := data[..available];
        Copy(buf, used, fill);
        FillBlock(Compress, INIT, msg, fill);
        BodyBuffer();
        MovePiece(msg, fill, data, data[available..], msg + data);
        Rest(data[available..], msg + fill, msg + data);
      } else {
        Rest(data, msg, msg + data);
      }
    }

    /** The part of MD5_hash after the buffer: complete blocks, then the left over. */
    method Rest(data: seq<Byte>, ghost before: seq<Byte>, ghost all: seq<Byte>)
      requires buf.Length == 64 && before + data == all && Counts(lo, hi, |all|)
      requires state == Fold(Compress, INIT, before) && Tail(before) == []
      modifies this, buf
      ensures Valid() && msg == all
    {
      hide Compress;
      var src := data;
      ghost var seen := before;
      if |data| >= 64 {
        var size := WholeBlocks(|data|);
        var whole := data[..size];
        FoldWhole(Compress, INIT, before, whole, |data| / 64);
        Body(whole, |data| / 64);
        src, seen := data[size..], before + whole;
        MovePiece(before, whole, data, src, all);
      }
      Copy(buf, 0, src);
      LeftOver(Compress, INIT, seen, src);
      msg := all;
    }

    /** MD5_end up to the length field: the buffer holds 56 bytes of the last block. */
    method PadToLength()
      requires Valid()
      modifies this`state, buf
      ensures var padded := msg + PadFirst(|msg|);
              state == Fold(Compress, INIT, padded) && |Tail(padded)| == 56 && buf[..56] == Tail(padded)
    {
      hide Compress;
      BufferedBytes(lo, hi, msg);
      PadFirstForm(msg);
      ghost var first := PadFirst(|msg|);
      var used := lo % 64;
      buf[used] := 0x80;
      used := used + 1;
      assert buf[..used] == Tail(msg) + [0x80];
      var available := 64 - used;
      if available < 8 {
        Appended(msg, [0x80] + Zeros(available), Zeros(56));
        PadWrap(used);
      } else {
        Copy(buf, used, Zeros(available - 8));
        ShortUpdate(Compress, INIT, msg, first);
        assert buf[..56] == Tail(msg) + first;
      }
    }

    /** No room for the length: the block is filled up with zeros, and another one is begun. */
    method PadWrap(used: nat)
      requires buf.Length == 64 && 56 < used <= 64 && |Tail(msg)| == used - 1 && state == Fold(Compress, INIT, msg)
      requires buf[..used] == Tail(msg) + [0x80]
      modifies this`state, buf
      ensures var padded := msg + ([0x80] + Zeros(64 - used)) + Zeros(56);
              state == Fold(Compress, INIT, padded) && |Tail(padded)| == 56 && buf[..56] == Tail(padded)
    {
      hide Compress;
      Copy(buf, used, Zeros(64 - used));
      ghost var fill := [0x80] + Zeros(64 - used);
      assert buf[..] == Tail(msg) + fill;
      FillBlock(Compress, INIT, msg, fill);
      BodyBuffer();
      Copy(buf, 0, Zeros(56));
      ShortUpdate(Compress, INIT, msg + fill, Zeros(56));
      assert buf[..56] == Zeros(56);
    }

    /** MD5_end: the registers hold the fold of the whole padded message. */
    method End()
      requires Valid()
      modifies this`state, this`lo, buf
      ensures state == Fold(Compress, INIT, Padded(msg))
    {
      hide Compress;
      PadToLength();
      LengthHalves(lo, hi, |msg|);
      lo := lo * 8 % 0x1_0000_0000;
      var length := Le32(lo) + Le32(hi);
      Copy(buf, 56, length);
      FillBlock(Compress, INIT, msg + PadFirst(|msg|), length);
      BodyBuffer();
    }
  }

  /** The digest of a whole message, sections 3.1 to 3.5. */
  function Digest(m: seq<Byte>): seq<Byte> {
    Bytes(Fold(Compress, INIT, Padded(m)))
  }

  /** MD5_begin, one MD5_hash per chunk, MD5_end: every way of splitting a message gives its digest. */
  method Md5(chunks: seq<seq<Byte>>) returns (digest: seq<Byte>)
    ensures digest == Digest(Concat(chunks))
  {
    hide Compress;
    var ctx := new Context();
    for i := 0 to |chunks|
      invariant ctx.Valid() && fresh(ctx) && fresh(ctx.buf)
      invariant ctx.msg == Concat(chunks[..i])
    {
      ctx.Update(chunks[i]);
      assert chunks[..i + 1][..i] == chunks[..i];
    }
    assert chunks[..|chunks|] == chunks;
    ctx.End();
    digest := Bytes(ctx.state);
  }
}
