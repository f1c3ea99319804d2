/** The MD5 block function: section 3.4 of RFC 1321, and the implementation that renames registers
    instead of moving them. */
module Md5Block {
  import opened Octets
  import opened Word32

  /** The registers A, B, C, D. */
  datatype Regs = Regs(a: Word, b: Word, c: Word, d: Word)

  function F(x: Word, y: Word, z: Word): Word { Or(And(x, y), And(Not(x), z)) }
  function G(x: Word, y: Word, z: Word): Word { Or(And(x, z), And(y, Not(z))) }
  function H(x: Word, y: Word, z: Word): Word { Xor(Xor(x, y), z) }
  function I(x: Word, y: Word, z: Word): Word { Xor(y, Or(x, Not(z))) }

  function Rotl(x: Word, s: nat): Word {
    if s <= 32 then Or(Shl(x, s), Shr(x, 32 - s)) else x
  }

  /** Which function an operation uses; the implementation has two forms of H. */
  datatype Kind = KF | KG | KH | KI | KH2

  function KindOf(i: nat): Kind {
    if i < 16 then KF else if i < 32 then KG else if i < 48 then KH else KI
  }

  /** The word of the block that operation i uses. */
  function Index(i: nat): (k: nat)
    ensures k < 16
  {
    if i < 16 then i else if i < 32 then (5 * i + 1) % 16 else if i < 48 then (3 * i + 5) % 16 else 7 * i % 16
  }

  function Among(j: nat, s0: nat, s1: nat, s2: nat, s3: nat): nat {
    if j == 0 then s0 else if j == 1 then s1 else if j == 2 then s2 else s3
  }

  /** How far operation i rotates. */
  function Shift(i: nat): nat {
    match KindOf(i)
    case KF => Among(i % 4, 7, 12, 17, 22)
    case KG => Among(i % 4, 5, 9, 14, 20)
    case KI => Among(i % 4, 6, 10, 15, 21)
    case _ => Among(i % 4, 4, 11, 16, 23)
  }

  /** T[i + 1] is the integer part of 2^32 times the absolute value of the sine of i + 1 radians. */
  const T: seq<Word> := [
    0xd76aa478, 0xe8c7b756, 0x242070db, 0xc1bdceee, 0xf57c0faf, 0x4787c62a, 0xa8304613, 0xfd469501,
    0x698098d8, 0x8b44f7af, 0xffff5bb1, 0x895cd7be, 0x6b901122, 0xfd987193, 0xa679438e, 0x49b40821,
    0xf61e2562, 0xc040b340, 0x265e5a51, 0xe9b6c7aa, 0xd62f105d, 0x02441453, 0xd8a1e681, 0xe7d3fbc8,
    0x21e1cde6, 0xc33707d6, 0xf4d50d87, 0x455a14ed, 0xa9e3e905, 0xfcefa3f8, 0x676f02d9, 0x8d2a4c8a,
    0xfffa3942, 0x8771f681, 0x6d9d6122, 0xfde5380c, 0xa4beea44, 0x4bdecfa9, 0xf6bb4b60, 0xbebfbc70,
    0x289b7ec6, 0xeaa127fa, 0xd4ef3085, 0x04881d05, 0xd9d4d039, 0xe6db99e5, 0x1fa27cf8, 0xc4ac5665,
    0xf4292244, 0x432aff97, 0xab9423a7, 0xfc93a039, 0x655b59c3, 0x8f0ccc92, 0xffeff47d, 0x85845dd1,
    0x6fa87e4f, 0xfe2ce6e0, 0xa3014314, 0x4e0811a1, 0xf7537e82, 0xbd3af235, 0x2ad7d2bb, 0xeb86d391]

  /** An operation: the new value of a, from the four registers, a word of the block, a table entry and a shift. */
  type Op = (Kind, Word, Word, Word, Word, Word, Word, nat) -> Word

  /** Operation i with the registers moving on by one place. */
  function Rotating(op: Op, x: seq<Word>, t: seq<Word>): (Regs, nat) -> Regs {
    (r: Regs, i: nat) =>
      if |x| == 16 && i < |t| then Regs(r.d, op(KindOf(i), r.a, r.b, r.c, r.d, x[Index(i)], t[i], Shift(i)), r.b, r.c) else r
  }

  /** Four operations from number i on. */
  function Four<S>(step: (S, nat) -> S, s: S, i: nat): S {
    step(step(step(step(s, i), i + 1), i + 2), i + 3)
  }

  /** The sixteen operations of a round. */
  function Round<S>(step: (S, nat) -> S, s: S, i: nat): S {
    Four(step, Four(step, Four(step, Four(step, s, i), i + 4), i + 8), i + 12)
  }

  function AllRounds<S>(step: (S, nat) -> S, s: S): S {
    Round(step, Round(step, Round(step, Round(step, s, 0), 16), 32), 48)
  }

  function Auxiliary(k: Kind, x: Word, y: Word, z: Word): Word {
    match k
    case KF => F(x, y, z)
    case KG => G(x, y, z)
    case KI => I(x, y, z)
    case _ => H(x, y, z)
  }

  /** a = b + ((a + f(b, c, d) + X[k] + T[i]) <<< s). */
  function Operation(k: Kind, a: Word, b: Word, c: Word, d: Word, x: Word, t: Word, s: nat): Word {
    Add(b, Rotl(Add(Add(Add(a, Auxiliary(k, b, c, d)), x), t), s))
  }

  function LowFirst(b0: int, b1: int, b2: int, b3: int): int {
    b0 + 0x100 * b1 + 0x1_0000 * b2 + 0x100_0000 * b3
  }

  function WordAt(b: seq<Byte>, k: nat): Word
    requires |b| == 64 && k < 16
  {
    LowFirst(b[4 * k], b[4 * k + 1], b[4 * k + 2], b[4 * k + 3])
  }

  /** The block as words, low-order byte first. */
  function Words(b: seq<Byte>): (x: seq<Word>)
    requires |b| == 64
    ensures |x| == 16
  {
    seq(16, k requires 0 <= k < 16 => WordAt(b, k))
  }

  function Compress(r: Regs, b: seq<Byte>): Regs {
    if |b| != 64 then r else Added(AllRounds(Rotating(Operation, Words(b), T), r), r)
  }

  function Added(r: Regs, saved: Regs): Regs {
    Regs(Add(r.a, saved.a), Add(r.b, saved.b), Add(r.c, saved.c), Add(r.d, saved.d))
  }

  // The implementation.

  function FastF(x: Word, y: Word, z: Word): Word { Xor(z, And(x, Xor(y, z))) }
  function FastG(x: Word, y: Word, z: Word): Word { Xor(y, And(z, Xor(x, y))) }
  function FastH(x: Word, y: Word, z: Word): Word { Xor(x, Xor(y, z)) }

  function FastAuxiliary(k: Kind, x: Word, y: Word, z: Word): Word {
    match k
    case KF => FastF(x, y, z)
    case KG => FastG(x, y, z)
    case KH => H(x, y, z)
    case KH2 => FastH(x, y, z)
    case KI => I(x, y, z)
  }

  lemma FastFunctions(k: Kind, x: Word, y: Word, z: Word)
    ensures FastAuxiliary(k, x, y, z) == Auxiliary(k, x, y, z)
  {
    match k
    case KF => Mux(x, y, z);
    case KG =>
      Mux(z, x, y);
      AndComm(z, x);
      AndComm(Not(z), y);
    case KH2 => XorAssoc(x, y, z);
    case _ =>
  }

  /** The STEP macro. */
  function Step(k: Kind, a: Word, b: Word, c: Word, d: Word, x: Word, t: Word, s: nat): Word {
    Add(Rotl(Add(a, Add(Add(FastAuxiliary(k, b, c, d), x), t)), s), b)
  }

  lemma StepIsOperation(k: Kind, a: Word, b: Word, c: Word, d: Word, x: Word, t: Word, s: nat)
    ensures Step(k, a, b, c, d, x, t, s) == Operation(k, a, b, c, d, x, t, s)
  {
    FastFunctions(k, b, c, d);
    Reordered(Auxiliary(k, b, c, d), a, b, x, t, s);
  }

  lemma Reordered(f: Word, a: Word, b: Word, x: Word, t: Word, s: nat)
    ensures Add(Rotl(Add(a, Add(Add(f, x), t)), s), b) == Add(b, Rotl(Add(Add(Add(a, f), x), t), s))
  {
    AddAssoc(a, f, x);
    AddAssoc(a, Add(f, x), t);
    AddComm(Rotl(Add(Add(Add(a, f), x), t), s), b);
  }

  lemma FourSame<S(!new)>(step1: (S, nat) -> S, step2: (S, nat) -> S, s: S, i: nat)
    requires forall r: S, j: nat :: step1(r, j) == step2(r, j)
    ensures Four(step1, s, i) == Four(step2, s, i)
  {
  }

  lemma RoundSame<S(!new)>(step1: (S, nat) -> S, step2: (S, nat) -> S, s: S, i: nat)
    requires forall r: S, j: nat :: step1(r, j) == step2(r, j)
    ensures Round(step1, s, i) == Round(step2, s, i)
  {
    var s1 := Four(step1, s, i);
    var s2 := Four(step1, s1, i + 4);
    FourSame(step1, step2, s, i);
    FourSame(step1, step2, s1, i + 4);
    FourSame(step1, step2, s2, i + 8);
    FourSame(step1, step2, Four(step1, s2, i + 8), i + 12);
  }

  lemma RoundsSame<S(!new)>(step1: (S, nat) -> S, step2: (S, nat) -> S, s: S)
    requires forall r: S, j: nat :: step1(r, j) == step2(r, j)
    ensures AllRounds(step1, s) == AllRounds(step2, s)
  {
    var s1 := Round(step1, s, 0);
    var s2 := Round(step1, s1, 16);
    RoundSame(step1, step2, s, 0);
    RoundSame(step1, step2, s1, 16);
    RoundSame(step1, step2, s2, 32);
    RoundSame(step1, step2, Round(step1, s2, 32), 48);
  }

  /** Both forms of H are the same. */
  ghost predicate SameH(op: Op) {
    forall a: Word, b: Word, c: Word, d: Word, x: Word, t: Word, s: nat {:trigger op(KH2, a, b, c, d, x, t, s)} ::
      op(KH2, a, b, c, d, x, t, s) == op(KH, a, b, c, d, x, t, s)
  }

  /** Four steps in place: with a, d, c and b written in turn, every register is back in its place. */
  method Quad(op: Op, x: seq<Word>, t: seq<Word>, i: nat, even: Kind, odd: Kind, k0: nat, k1: nat, k2: nat, k3: nat,
              s0: nat, s1: nat, s2: nat, s3: nat, r0: Regs) returns (r: Regs)
    requires |x| == 16 && i + 4 <= |t| && SameH(op)
    requires even == KindOf(i) == KindOf(i + 1) == KindOf(i + 2) == KindOf(i + 3) && (odd == even || (odd == KH2 && even == KH))
    requires k0 == Index(i) && k1 == Index(i + 1) && k2 == Index(i + 2) && k3 == Index(i + 3)
    requires s0 == Shift(i) && s1 == Shift(i + 1) && s2 == Shift(i + 2) && s3 == Shift(i + 3)
    ensures r == Four(Rotating(op, x, t), r0, i)
  {
    var a, b, c, d := r0.a, r0.b, r0.c, r0.d;
    a := op(even, a, b, c, d, x[k0], t[i], s0);
    d := op(odd, d, a, b, c, x[k1], t[i + 1], s1);
    c := op(even, c, d, a, b, x[k2], t[i + 2], s2);
    b := op(odd, b, c, d, a, x[k3], t[i + 3], s3);
    r := Regs(a, b, c, d);
  }

  /** Round 1. */
  method FirstRound(op: Op, x: seq<Word>, t: seq<Word>, r0: Regs) returns (r: Regs)
    requires |x| == 16 && |t| == 64 && SameH(op)
    ensures r == Round(Rotating(op, x, t), r0, 0)
  {
    r := Quad(op, x, t, 0, KF, KF, 0, 1, 2, 3, 7, 12, 17, 22, r0);
    r := Quad(op, x, t, 4, KF, KF, 4, 5, 6, 7, 7, 12, 17, 22, r);
    r := Quad(op, x, t, 8, KF, KF, 8, 9, 10, 11, 7, 12, 17, 22, r);
    r := Quad(op, x, t, 12, KF, KF, 12, 13, 14, 15, 7, 12, 17, 22, r);
  }

  /** Round 2. */
  method SecondRound(op: Op, x: seq<Word>, t: seq<Word>, r0: Regs) returns (r: Regs)
    requires |x| == 16 && |t| == 64 && SameH(op)
    ensures r == Round(Rotating(op, x, t), r0, 16)
  {
    r := Quad(op, x, t, 16, KG, KG, 1, 6, 11, 0, 5, 9, 14, 20, r0);
    r := Quad(op, x, t, 20, KG, KG, 5, 10, 15, 4, 5, 9, 14, 20, r);
    r := Quad(op, x, t, 24, KG, KG, 9, 14, 3, 8, 5, 9, 14, 20, r);
    r := Quad(op, x, t, 28, KG, KG, 13, 2, 7, 12, 5, 9, 14, 20, r);
  }

  /** Round 3. */
  method ThirdRound(op: Op, x: seq<Word>, t: seq<Word>, r0: Regs) returns (r: Regs)
    requires |x| == 16 && |t| == 64 && SameH(op)
    ensures r == Round(Rotating(op, x, t), r0, 32)
  {
    r := Quad(op, x, t, 32, KH, KH2, 5, 8, 11, 14, 4, 11, 16, 23, r0);
    r := Quad(op, x, t, 36, KH, KH2, 1, 4, 7, 10, 4, 11, 16, 23, r);
    r := Quad(op, x, t, 40, KH, KH2, 13, 0, 3, 6, 4, 11, 16, 23, r);
    r := Quad(op, x, t, 44, KH, KH2, 9, 12, 15, 2, 4, 11, 16, 23, r);
  }

  /** Round 4. */
  method FourthRound(op: Op, x: seq<Word>, t: seq<Word>, r0: Regs) returns (r: Regs)
    requires |x| == 16 && |t| == 64 && SameH(op)
    ensures r == Round(Rotating(op, x, t), r0, 48)
  {
    r := Quad(op, x, t, 48, KI, KI, 0, 7, 14, 5, 6, 10, 15, 21, r0);
    r := Quad(op, x, t, 52, KI, KI, 12, 3, 10, 1, 6, 10, 15, 21, r);
    r := Quad(op, x, t, 56, KI, KI, 8, 15, 6, 13, 6, 10, 15, 21, r);
    r := Quad(op, x, t, 60, KI, KI, 4, 11, 2, 9, 6, 10, 15, 21, r);
  }

  method Rounds(op: Op, x: seq<Word>, t: seq<Word>, r0: Regs) returns (r: Regs)
    requires |x| == 16 && |t| == 64 && SameH(op)
    ensures r == AllRounds(Rotating(op, x, t), r0)
  {
    r := FirstRound(op, x, t, r0);
    r := SecondRound(op, x, t, r);
    r := ThirdRound(op, x, t, r);
    r := FourthRound(op, x, t, r);
  }

  lemma StepSameH()
    ensures SameH(Step)
  {
    forall a: Word, b: Word, c: Word, d: Word, x: Word, t: Word, s: nat
      ensures Step(KH2, a, b, c, d, x, t, s) == Step(KH, a, b, c, d, x, t, s)
    {
      FastFunctions(KH2, b, c, d);
    }
  }

  lemma StepsAgree(x: seq<Word>, t: seq<Word>)
    ensures forall r: Regs, j: nat :: Rotating(Step, x, t)(r, j) == Rotating(Operation, x, t)(r, j)
  {
    forall r: Regs, j: nat ensures Rotating(Step, x, t)(r, j) == Rotating(Operation, x, t)(r, j) {
      if |x| == 16 && j < |t| {
        StepIsOperation(KindOf(j), r.a, r.b, r.c, r.d, x[Index(j)], t[j], Shift(j));
      }
    }
  }

  /** One pass of the loop in MD5_body. */
  method Block(r0: Regs, b: seq<Byte>) returns (r: Regs)
    requires |b| == 64
    ensures r == Compress(r0, b)
  {
    var x := Words(b);
    StepSameH();
    r := Rounds(Step, x, T, r0);
    FastRounds(x, T, r0);
    r := Added(r, r0);
  }

  lemma FastRounds(x: seq<Word>, t: seq<Word>, r0: Regs)
    ensures AllRounds(Rotating(Step, x, t), r0) == AllRounds(Rotating(Operation, x, t), r0)
  {
    StepsAgree(x, t);
    RoundsSame(Rotating(Step, x, t), Rotating(Operation, x, t), r0);
  }
}
