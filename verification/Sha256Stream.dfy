/** SHA-256 over a message arriving in pieces: sections 5.1.1, 5.2.1 and 6.2 of FIPS 180-4. */
module Sha256Stream {
  import opened Octets
  import opened Word32
  import opened Sha256
  import opened BlockHash

  /** Section 5.3.3. */
  const INIT: Eight := [
    0x6A09E667, 0xBB67AE85, 0x3C6EF372, 0xA54FF53A, 0x510E527F, 0x9B05688C, 0x1F83D9AB, 0x5BE0CD19]

  function BeWord(b: seq<Byte>, i: nat): Word
    requires i + 4 <= |b|
  {
    b[i] as int * 0x100_0000 + b[i + 1] as int * 0x1_0000 + b[i + 2] as int * 0x100 + b[i + 3] as int
  }

  /** The block as sixteen big-endian words. */
  function Words(b: seq<Byte>): Block
    requires |b| == 64
  {
    seq(16, i requires 0 <= i < 16 => BeWord(b, 4 * i))
  }

  /** One block of bytes into the chaining value; blocks always have 64 bytes. */
  function Step(h: Eight, b: seq<Byte>): Eight {
    if |b| == 64 then Compress(h, Words(b)) else h
  }

  function Be64(u: int): (s: seq<Byte>)
    requires 0 <= u < 0x1_0000_0000_0000_0000
    ensures |s| == 8
  {
    Be32(u / 0x1_0000_0000) + Be32(u % 0x1_0000_0000)
  }

  /** Section 5.1.1, for messages of fewer than 2^64 bits: ... and the length in bits. */
  function Padding(len: nat): seq<Byte> {
    PadFirst(len) + Be64(BitCount(len))
  }

  function BeBytes(h: seq<Word>): seq<Byte> {
    if h == [] then [] else BeBytes(h[..|h| - 1]) + Be32(h[|h| - 1])
  }

  /** The bit counter after len bytes. */
  function BitCount(len: nat): (c: int)
    ensures 0 <= c < 0x1_0000_0000_0000_0000
  {
    8 * len % 0x1_0000_0000_0000_0000
  }

  /** (count >> 3) & 0x3f is the number of buffered bytes even after the counter has wrapped. */
  function Buffered(count: int): int {
    count / 8 % 64
  }

  lemma BufferedBytes(m: seq<Byte>)
    ensures Buffered(BitCount(|m|)) == |Tail(m)| < 64
  {
    var len, q := |m|, 8 * |m| / 0x1_0000_0000_0000_0000;
    assert 8 * len == 0x1_0000_0000_0000_0000 * q + BitCount(len);
    var x := len - 0x2000_0000_0000_0000 * q;
    assert BitCount(len) == 8 * x;
    ModShift(x, 0x80_0000_0000_0000 * q);
    TailLength(m);
  }

  lemma ModShift(x: int, k: int)
    ensures (x + 64 * k) % 64 == x % 64
  {
  }

  lemma CountStep(len: nat, more: nat)
    ensures (BitCount(len) + 8 * more) % 0x1_0000_0000_0000_0000 == BitCount(len + more)
  {
    var q := 8 * len / 0x1_0000_0000_0000_0000;
    assert 8 * (len + more) == BitCount(len) + 8 * more + 0x1_0000_0000_0000_0000 * q;
    ModAdd(BitCount(len) + 8 * more, q);
  }

  lemma ModAdd(x: int, q: int)
    ensures (x + 0x1_0000_0000_0000_0000 * q) % 0x1_0000_0000_0000_0000 == x % 0x1_0000_0000_0000_0000
  {
  }

  /** The hashing context. */
  class Context {
    const state: array<Word>
    /** Message length in bits, modulo 2^64. */
    var count: int
    const buf: array<Byte>
    ghost var msg: seq<Byte>

    ghost predicate Valid()
      reads this, state, buf
    {
      && buf.Length == 64 && state.Length == 8
      && count == BitCount(|msg|)
      && state[..] == Fold(Step, INIT, msg)
      && |Tail(msg)| < 64 && buf[..|Tail(msg)|] == Tail(msg)
    }

    /** SHA256_Init. */
    constructor ()
      ensures Valid() && msg == [] && fresh(buf) && fresh(state)
    {
      hide Step;
      count, msg := 0, [];
      buf := new Byte[64];
      state := new Word[8](i requires 0 <= i < 8 => INIT[i]);
      new;
      assert state[..] == INIT;
    }

    /** The number of buffered bytes, from the bit counter. */
    method Held() returns (r: nat)
      requires Valid()
      ensures r == |Tail(msg)| < 64
    {
      BufferedBytes(msg);
      r := Buffered(count);
    }

    method Advance(size: nat)
      requires Valid()
      modifies this`count
      ensures count == BitCount(|msg| + size)
    {
      CountStep(|msg|, size);
      count := (count + 8 * size) % 0x1_0000_0000_0000_0000;
    }

    /** SHA256_Update. */
    method Update(data: seq<Byte>)
      requires Valid()
      modifies this, state, buf
      ensures Valid() && msg == old(msg) + data
    {
      hide Step;
      var r := Held();
      Advance(|data|);
      if |data| < 64 - r {
        Keep(data, r);
        return;
      }
      ghost var before, all := msg, msg + data;
      Fill(data[..64 - r], r);
      MovePiece(before, data[..64 - r], data, data[64 - r..], all);
      Rest(data[64 - r..], before + data[..64 - r], all);
    }

    /** Buffers data that does not complete a block. */
    method Keep(data: seq<Byte>, r: nat)
      requires buf.Length == 64 && state.Length == 8 && r + |data| < 64 && |Tail(msg)| == r && buf[..r] == Tail(msg)
      requires state[..] == Fold(Step, INIT, msg) && count == BitCount(|msg| + |data|)
      modifies this`msg, buf
      ensures Valid() && msg == old(msg) + data
    {
      hide Step;
      Copy(buf, r, data);
      ShortUpdate(Step, INIT, msg, data);
      msg := msg + data;
    }

    /** Completes the buffered block and digests it. */
    method Fill(fill: seq<Byte>, r: nat)
      requires buf.Length == 64 && state.Length == 8 && r + |fill| == 64 && |Tail(msg)| == r && buf[..r] == Tail(msg)
      requires state[..] == Fold(Step, INIT, msg)
      modifies state, buf
      ensures state[..] == Fold(Step, INIT, msg + fill) && Tail(msg + fill) == []
    {
      hide Step;
      Copy(buf, r, fill);
      FillBlock(Step, INIT, msg, fill);
      TransformBytes(state, buf[..]);
    }

    /** The part of SHA256_Update after the buffer has been flushed: complete blocks straight
        from the input, the left over into the buffer. */
    method Rest(data: seq<Byte>, ghost before: seq<Byte>, ghost all: seq<Byte>)
      requires buf.Length == 64 && state.Length == 8 && before + data == all && count == BitCount(|all|)
      requires state[..] == Fold(Step, INIT, before) && Tail(before) == []
      modifies this, state, buf
      ensures Valid() && msg == all
    {
      hide Step;
      var src := data;
      ghost var seen := before;
      while |src| >= 64
        invariant seen + src == all && count == BitCount(|all|)
        invariant state[..] == Fold(Step, INIT, seen) && Tail(seen) == []
      {
        var b, rest := src[..64], src[64..];
        NextBlock(Step, INIT, seen, b);
        MovePiece(seen, b, src, rest, all);
        TransformBytes(state, b);
        src, seen := rest, seen + b;
      }
      Copy(buf, 0, src);
      LeftOver(Step, INIT, seen, src);
      msg := all;
    }

    /** The first part of SHA256_Pad: the buffer holds 56 bytes of the last block. */
    method PadToLength()
      requires Valid()
      modifies state, buf
      ensures var padded := msg + PadFirst(|msg|);
              state[..] == Fold(Step, INIT, padded) && |Tail(padded)| == 56 && buf[..56] == Tail(padded)
    {
      hide Step;
      var r := Held();
      ghost var first := PadFirst(|msg|);
      PadFirstForm(msg);
      if r < 56 {
        PadPrefix(56 - r);
        Copy(buf, r, PAD[..56 - r]);
        ShortUpdate(Step, INIT, msg, first);
        assert buf[..56] == Tail(msg) + first;
      } else {
        PadPrefix(64 - r);
        Appended(msg, PAD[..64 - r], Zeros(56));
        PadWrap(r);
      }
    }

    /** No room for the length: the block is filled up, and another one is begun. */
    method PadWrap(r: nat)
      requires buf.Length == 64 && state.Length == 8 && 56 <= r < 64 && |Tail(msg)| == r && state[..] == Fold(Step, INIT, msg) && buf[..r] == Tail(msg)
      modifies state, buf
      ensures var padded := msg + PAD[..64 - r] + Zeros(56);
              state[..] == Fold(Step, INIT, padded) && |Tail(padded)| == 56 && buf[..56] == Tail(padded)
    {
      hide Step;
      var fill := PAD[..64 - r];
      Copy(buf, r, fill);
      assert buf[..] == Tail(msg) + fill;
      FillBlock(Step, INIT, msg, fill);
      TransformBytes(state, buf[..]);
      Copy(buf, 0, Zeros(56));
      ShortUpdate(Step, INIT, msg + fill, Zeros(56));
      assert buf[..56] == Zeros(56);
    }

    /** SHA256_Pad: afterwards the whole padded message has been folded in. */
    method Pad()
      requires Valid()
      modifies state, buf
      ensures state[..] == Fold(Step, INIT, msg + Padding(|msg|))
    {
      hide Step;
      PadToLength();
      var length := Be64(count);
      ghost var first := PadFirst(|msg|);
      Copy(buf, 56, length);
      assert buf[..] == Tail(msg + first) + length;
      FillBlock(Step, INIT, msg + first, length);
      Appended(msg, first, length);
      TransformBytes(state, buf[..]);
    }
  }

  const PAD: seq<Byte> := [0x80] + Zeros(63)

  lemma PadPrefix(n: nat)
    requires 1 <= n <= 64
    ensures PAD[..n] == [0x80] + Zeros(n - 1)
  {
  }

  /** The digest of a whole message, section 6.2. */
  function Digest(m: seq<Byte>): seq<Byte> {
    BeBytes(Fold(Step, INIT, m + Padding(|m|)))
  }

  /** SHA256_Init, one SHA256_Update per chunk, SHA256_Final: every way of splitting a message
      gives the digest of the whole. */
  method Hash(chunks: seq<seq<Byte>>) returns (digest: seq<Byte>)
    ensures digest == Digest(Concat(chunks))
  {
    hide Step;
    var ctx := new Context();
    for i := 0 to |chunks|
      invariant ctx.Valid() && fresh(ctx) && fresh(ctx.state) && fresh(ctx.buf)
      invariant ctx.msg == Concat(chunks[..i])
    {
      ctx.Update(chunks[i]);
      assert chunks[..i + 1][..i] == chunks[..i];
    }
    assert chunks[..|chunks|] == chunks;
    ctx.Pad();
    digest := BeBytes(ctx.state[..]);
  }

  /** One block in place: the unrolled transform is the step of the digest. */
  method TransformBytes(state: array<Word>, b: seq<Byte>)
    requires state.Length == 8 && |b| == 64
    modifies state
    ensures state[..] == Step(old(state[..]), b)
  {
    Transform(state, Words(b));
  }
}
