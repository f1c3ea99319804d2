/** 32-bit words as integers: wrapping addition, shifts and bitwise operations. */
module Word32 {
  import opened Octets

  datatype BitOp = AndOp | OrOp | XorOp

  function BitValue(op: BitOp, a: bool, b: bool): bool {
    match op
    case AndOp => a && b
    case OrOp => a || b
    case XorOp => a != b
  }

  function Bit(b: bool): int {
    if b then 1 else 0
  }

  /** Bit by bit on the n lowest bits. */
  function Bitwise(op: BitOp, x: nat, y: nat, n: nat): (r: nat)
  {
    if n == 0 then 0 else 2 * Bitwise(op, x / 2, y / 2, n - 1) + Bit(BitValue(op, x % 2 == 1, y % 2 == 1))
  }

  /** The lowest bit of a result, and the others. */
  lemma BitwiseStep(op: BitOp, x: nat, y: nat, n: nat)
    requires n > 0
    ensures Bitwise(op, x, y, n) % 2 == Bit(BitValue(op, x % 2 == 1, y % 2 == 1))
    ensures Bitwise(op, x, y, n) / 2 == Bitwise(op, x / 2, y / 2, n - 1)
  {
    DoublePlus(Bitwise(op, x / 2, y / 2, n - 1), BitValue(op, x % 2 == 1, y % 2 == 1));
  }

  lemma DoublePlus(q: int, b: bool)
    ensures (2 * q + Bit(b)) % 2 == Bit(b) && (2 * q + Bit(b)) / 2 == q
  {
  }

  function Pow2(n: nat): (r: nat)
    ensures r > 0
  {
    if n == 0 then 1 else 2 * Pow2(n - 1)
  }

  lemma {:induction false} Pow2Add(b: nat, k: nat)
    ensures Pow2(b + k) == Pow2(b) * Pow2(k)
  {
    if k > 0 {
      Pow2Add(b, k - 1);
      assert Pow2(b + k) == 2 * Pow2(b + (k - 1));
    }
  }

  lemma {:induction false} BitwiseRange(op: BitOp, x: nat, y: nat, n: nat)
    ensures Bitwise(op, x, y, n) < Pow2(n)
  {
    if n > 0 {
      BitwiseRange(op, x / 2, y / 2, n - 1);
      assert Pow2(n) == 2 * Pow2(n - 1);
    }
  }

  lemma Pow2Word()
    ensures Pow2(32) == 0x1_0000_0000
  {
    assert Pow2(8) == 256 && Pow2(16) == 256 * Pow2(8) && Pow2(24) == 256 * Pow2(16) && Pow2(32) == 256 * Pow2(24);
  }

  function BitWord(op: BitOp, x: Word, y: Word): Word {
    BitwiseRange(op, x, y, 32);
    Pow2Word();
    Bitwise(op, x, y, 32)
  }

  function And(x: Word, y: Word): Word { BitWord(AndOp, x, y) }
  function Or(x: Word, y: Word): Word { BitWord(OrOp, x, y) }
  function Xor(x: Word, y: Word): Word { BitWord(XorOp, x, y) }
  function Not(x: Word): Word { 0xffff_ffff - x }

  function Add(x: int, y: int): Word {
    (x + y) % 0x1_0000_0000
  }

  /** x << n and x >> n, one bit at a time. */
  function Shl(x: Word, n: nat): Word
    decreases n
  {
    if n == 0 then x else Shl((2 * x) % 0x1_0000_0000, n - 1)
  }

  function Shr(x: Word, n: nat): Word {
    if n == 0 then x else Shr(x / 2, n - 1)
  }

  lemma AddAssoc(x: int, y: int, z: int)
    ensures Add(Add(x, y), z) == Add(x, Add(y, z))
  {
  }

  lemma AddComm(x: int, y: int)
    ensures Add(x, y) == Add(y, x)
  {
  }

  /** The n lowest bits of the complement. */
  function Complement(x: nat, n: nat): nat
  {
    if n == 0 then 0 else 2 * Complement(x / 2, n - 1) + (1 - x % 2)
  }

  lemma {:induction false} ComplementValue(x: nat, n: nat)
    requires x < Pow2(n)
    ensures Complement(x, n) == Pow2(n) - 1 - x
  {
    if n > 0 {
      ComplementValue(x / 2, n - 1);
    }
  }

  lemma NotComplement(x: Word)
    ensures Not(x) == Complement(x, 32)
  {
    Pow2Word();
    ComplementValue(x, 32);
  }

  lemma {:induction false} ChooseBits(x: nat, y: nat, z: nat, n: nat)
    requires z < Pow2(n)
    ensures Bitwise(XorOp, Bitwise(AndOp, x, Bitwise(XorOp, y, z, n), n), z, n)
         == Bitwise(XorOp, Bitwise(AndOp, x, y, n), Bitwise(AndOp, Complement(x, n), z, n), n)
  {
    if n > 0 {
      ChooseBits(x / 2, y / 2, z / 2, n - 1);
      DoublePlus(Complement(x / 2, n - 1), x % 2 == 0);
      BitwiseStep(XorOp, y, z, n);
      BitwiseStep(AndOp, x, Bitwise(XorOp, y, z, n), n);
      BitwiseStep(AndOp, x, y, n);
      BitwiseStep(AndOp, Complement(x, n), z, n);
    }
  }

  lemma {:induction false} MajorityBits(x: nat, y: nat, z: nat, n: nat)
    ensures Bitwise(OrOp, Bitwise(AndOp, x, Bitwise(OrOp, y, z, n), n), Bitwise(AndOp, y, z, n), n)
         == Bitwise(XorOp, Bitwise(XorOp, Bitwise(AndOp, x, y, n), Bitwise(AndOp, x, z, n), n), Bitwise(AndOp, y, z, n), n)
  {
    if n > 0 {
      MajorityBits(x / 2, y / 2, z / 2, n - 1);
      BitwiseStep(OrOp, y, z, n);
      BitwiseStep(AndOp, x, Bitwise(OrOp, y, z, n), n);
      BitwiseStep(AndOp, x, y, n);
      BitwiseStep(AndOp, x, z, n);
      BitwiseStep(AndOp, y, z, n);
      BitwiseStep(XorOp, Bitwise(AndOp, x, y, n), Bitwise(AndOp, x, z, n), n);
    }
  }

  /** Selecting without a complement. */
  lemma Choose(x: Word, y: Word, z: Word)
    ensures Xor(And(x, Xor(y, z)), z) == Xor(And(x, y), And(Not(x), z))
  {
    Pow2Word();
    NotComplement(x);
    ChooseBits(x, y, z, 32);
  }

  lemma Majority(x: Word, y: Word, z: Word)
    ensures Or(And(x, Or(y, z)), And(y, z)) == Xor(Xor(And(x, y), And(x, z)), And(y, z))
  {
    MajorityBits(x, y, z, 32);
  }

  lemma {:induction false} MuxBits(x: nat, y: nat, z: nat, n: nat)
    requires z < Pow2(n)
    ensures Bitwise(XorOp, z, Bitwise(AndOp, x, Bitwise(XorOp, y, z, n), n), n)
         == Bitwise(OrOp, Bitwise(AndOp, x, y, n), Bitwise(AndOp, Complement(x, n), z, n), n)
  {
    if n > 0 {
      MuxBits(x / 2, y / 2, z / 2, n - 1);
      DoublePlus(Complement(x / 2, n - 1), x % 2 == 0);
      BitwiseStep(XorOp, y, z, n);
      BitwiseStep(AndOp, x, Bitwise(XorOp, y, z, n), n);
      BitwiseStep(AndOp, x, y, n);
      BitwiseStep(AndOp, Complement(x, n), z, n);
    }
  }

  lemma {:induction false} AndCommBits(x: nat, y: nat, n: nat)
    ensures Bitwise(AndOp, x, y, n) == Bitwise(AndOp, y, x, n)
  {
    if n > 0 {
      AndCommBits(x / 2, y / 2, n - 1);
    }
  }

  lemma {:induction false} XorAssocBits(x: nat, y: nat, z: nat, n: nat)
    ensures Bitwise(XorOp, Bitwise(XorOp, x, y, n), z, n) == Bitwise(XorOp, x, Bitwise(XorOp, y, z, n), n)
  {
    if n > 0 {
      XorAssocBits(x / 2, y / 2, z / 2, n - 1);
      BitwiseStep(XorOp, x, y, n);
      BitwiseStep(XorOp, y, z, n);
    }
  }

  /** Selecting without an and-not. */
  lemma Mux(x: Word, y: Word, z: Word)
    ensures Xor(z, And(x, Xor(y, z))) == Or(And(x, y), And(Not(x), z))
  {
    Pow2Word();
    NotComplement(x);
    MuxBits(x, y, z, 32);
  }

  lemma AndComm(x: Word, y: Word)
    ensures And(x, y) == And(y, x)
  {
    AndCommBits(x, y, 32);
  }

  lemma XorAssoc(x: Word, y: Word, z: Word)
    ensures Xor(Xor(x, y), z) == Xor(x, Xor(y, z))
  {
    XorAssocBits(x, y, z, 32);
  }
}
