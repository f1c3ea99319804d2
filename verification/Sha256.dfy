/** The SHA-256 compression function: section 6.2.2 of FIPS 180-4, and the unrolled
    implementation that rotates register names instead of values. */
module Sha256 {
  import opened Octets
  import opened Word32

  /** Eight words; as a chaining value H0..H7, as working variables a..h. */
  type Eight = s: seq<Word> | |s| == 8 witness [0, 0, 0, 0, 0, 0, 0, 0]

  /** A message block M0..M15. */
  type Block = s: seq<Word> | |s| == 16 witness seq(16, _ => 0)

  // Section 4.1.2.

  function Rotr(x: Word, n: nat): Word
    requires n <= 32
  {
    Or(Shr(x, n), Shl(x, 32 - n))
  }

  function BigSigma0(x: Word): Word { Xor(Xor(Rotr(x, 2), Rotr(x, 13)), Rotr(x, 22)) }
  function BigSigma1(x: Word): Word { Xor(Xor(Rotr(x, 6), Rotr(x, 11)), Rotr(x, 25)) }
  function SmallSigma0(x: Word): Word { Xor(Xor(Rotr(x, 7), Rotr(x, 18)), Shr(x, 3)) }
  function SmallSigma1(x: Word): Word { Xor(Xor(Rotr(x, 17), Rotr(x, 19)), Shr(x, 10)) }
  function Ch(x: Word, y: Word, z: Word): Word { Xor(And(x, y), And(Not(x), z)) }
  function Maj(x: Word, y: Word, z: Word): Word { Xor(Xor(And(x, y), And(x, z)), And(y, z)) }

  // Section 4.2.2.

  const K: seq<Word> := [
    0x428a2f98, 0x71374491, 0xb5c0fbcf, 0xe9b5dba5, 0x3956c25b, 0x59f111f1, 0x923f82a4, 0xab1c5ed5,
    0xd807aa98, 0x12835b01, 0x243185be, 0x550c7dc3, 0x72be5d74, 0x80deb1fe, 0x9bdc06a7, 0xc19bf174,
    0xe49b69c1, 0xefbe4786, 0x0fc19dc6, 0x240ca1cc, 0x2de92c6f, 0x4a7484aa, 0x5cb0a9dc, 0x76f988da,
    0x983e5152, 0xa831c66d, 0xb00327c8, 0xbf597fc7, 0xc6e00bf3, 0xd5a79147, 0x06ca6351, 0x14292967,
    0x27b70a85, 0x2e1b2138, 0x4d2c6dfc, 0x53380d13, 0x650a7354, 0x766a0abb, 0x81c2c92e, 0x92722c85,
    0xa2bfe8a1, 0xa81a664b, 0xc24b8b70, 0xc76c51a3, 0xd192e819, 0xd6990624, 0xf40e3585, 0x106aa070,
    0x19a4c116, 0x1e376c08, 0x2748774c, 0x34b0bcb5, 0x391c0cb3, 0x4ed8aa4a, 0x5b9cca4f, 0x682e6ff3,
    0x748f82ee, 0x78a5636f, 0x84c87814, 0x8cc70208, 0x90befffa, 0xa4506ceb, 0xbef9a3f7, 0xc67178f2]

  // Section 6.2.2.

  /** The message schedule W_t. */
  function Schedule(m: Block, t: nat): Word {
    if t < 16 then m[t]
    else
      Add(Add(Add(SmallSigma1(Schedule(m, t - 2)), Schedule(m, t - 7)), SmallSigma0(Schedule(m, t - 15))),
          Schedule(m, t - 16))
  }

  function T1(e: Word, f: Word, g: Word, h: Word, k: Word, w: Word): Word {
    Add(Add(Add(Add(h, BigSigma1(e)), Ch(e, f, g)), k), w)
  }

  function T2(a: Word, b: Word, c: Word): Word {
    Add(BigSigma0(a), Maj(a, b, c))
  }

  /** One round: all eight working variables move on by one. */
  function Round(s: Eight, k: Word, w: Word): Eight {
    var t1, t2 := T1(s[4], s[5], s[6], s[7], k, w), T2(s[0], s[1], s[2]);
    [Add(t1, t2), s[0], s[1], s[2], Add(s[3], t1), s[4], s[5], s[6]]
  }

  /** Working variables after t rounds. */
  function Rounds(h: Eight, m: Block, t: nat): Eight
    requires t <= |K|
  {
    if t == 0 then h else Round(Rounds(h, m, t - 1), K[t - 1], Schedule(m, t - 1))
  }

  /** The next chaining value. */
  function Compress(h: Eight, m: Block): Eight {
    AddEight(h, Rounds(h, m, |K|))
  }

  function AddEight(h: Eight, s: Eight): Eight {
    [Add(h[0], s[0]), Add(h[1], s[1]), Add(h[2], s[2]), Add(h[3], s[3]),
     Add(h[4], s[4]), Add(h[5], s[5]), Add(h[6], s[6]), Add(h[7], s[7])]
  }

  // The implementation.

  function ChFast(x: Word, y: Word, z: Word): Word { Xor(And(x, Xor(y, z)), z) }
  function MajFast(x: Word, y: Word, z: Word): Word { Or(And(x, Or(y, z)), And(y, z)) }

  /** h += S1(e) + Ch(e, f, g) + k. */
  lemma FastT1(e: Word, f: Word, g: Word, h: Word, k: Word, w: Word)
    ensures Add(h, Add(Add(BigSigma1(e), ChFast(e, f, g)), Add(w, k))) == T1(e, f, g, h, k, w)
  {
    Choose(e, f, g);
    Regroup(h, BigSigma1(e), Ch(e, f, g), k, w);
  }

  lemma Regroup(h: Word, s: Word, c: Word, k: Word, w: Word)
    ensures Add(h, Add(Add(s, c), Add(w, k))) == Add(Add(Add(Add(h, s), c), k), w)
  {
    AddAssoc(h, Add(s, c), Add(w, k));
    AddAssoc(h, s, c);
    AddComm(w, k);
    AddAssoc(Add(Add(h, s), c), k, w);
  }

  lemma FastT2(a: Word, b: Word, c: Word)
    ensures Add(BigSigma0(a), MajFast(a, b, c)) == T2(a, b, c)
  {
    Majority(a, b, c);
  }

  /** The register that plays working variable j in the i-th round of an unrolled stretch. */
  function Reg(i: nat, j: nat): (r: nat)
    requires i <= 64
    ensures r < 8
  {
    (64 - i + j) % 8
  }

  /** S holds the working variables v under the names of round i. */
  ghost predicate Renamed<T>(S: seq<T>, v: seq<T>, i: nat)
    requires i <= 64 && |v| == 8
  {
    |S| == 8 && forall j :: 0 <= j < 8 ==> S[Reg(i, j)] == v[j]
  }

  lemma RegShift(i: nat, j: nat)
    requires i < 64 && j < 8
    ensures Reg(i + 1, 0) == Reg(i, 7) && (j < 7 ==> Reg(i + 1, j + 1) == Reg(i, j))
  {
  }

  lemma RegDistinct(i: nat, j: nat, k: nat)
    requires i <= 64 && j < 8 && k < 8 && j != k
    ensures Reg(i, j) != Reg(i, k)
  {
  }

  /** Overwriting only the registers of h and d, under the next round's names, moves all variables on. */
  lemma RenamedRound<T>(S: seq<T>, v: seq<T>, i: nat, x: T, y: T)
    requires i < 64 && |v| == 8 && Renamed(S, v, i)
    ensures Renamed(S[Reg(i, 7) := x][Reg(i, 3) := y], [x, v[0], v[1], v[2], y, v[4], v[5], v[6]], i + 1)
  {
    var S' := S[Reg(i, 7) := x][Reg(i, 3) := y];
    var v' := [x, v[0], v[1], v[2], y, v[4], v[5], v[6]];
    RegDistinct(i, 7, 3);
    forall j | 0 <= j < 8 ensures S'[Reg(i + 1, j)] == v'[j] {
      RegShift(i, if j == 0 then 0 else j - 1);
      if j != 0 && j != 4 {
        RegDistinct(i, j - 1, 7);
        RegDistinct(i, j - 1, 3);
      }
    }
  }

  /** The RND macro on the registers of round i. */
  method Rnd(S: array<Word>, i: nat, k: Word, w: Word, ghost v: Eight)
    requires i < 64 && S.Length == 8 && Renamed(S[..], v, i)
    modifies S
    ensures Renamed(S[..], Round(v, k, w), i + 1)
  {
    ghost var S0 := S[..];
    RegDistinct(i, 7, 3); RegDistinct(i, 7, 0); RegDistinct(i, 7, 1); RegDistinct(i, 7, 2);
    RegDistinct(i, 3, 0); RegDistinct(i, 3, 1); RegDistinct(i, 3, 2);
    assert forall j :: 0 <= j < 8 ==> S0[Reg(i, j)] == v[j];
    FastT1(v[4], v[5], v[6], v[7], k, w);
    FastT2(v[0], v[1], v[2]);
    var h, d := Reg(i, 7), Reg(i, 3);
    S[h] := Add(S[h], Add(Add(BigSigma1(S[Reg(i, 4)]), ChFast(S[Reg(i, 4)], S[Reg(i, 5)], S[Reg(i, 6)])), Add(w, k)));
    ghost var t1 := S[h];
    assert t1 == T1(v[4], v[5], v[6], v[7], k, w);
    S[d] := Add(S[d], S[h]);
    S[h] := Add(S[h], Add(BigSigma0(S[Reg(i, 0)]), MajFast(S[Reg(i, 0)], S[Reg(i, 1)], S[Reg(i, 2)])));
    assert S[..] == S0[h := Add(t1, T2(v[0], v[1], v[2]))][d := Add(v[3], t1)];
    RenamedRound(S0, v, i, Add(t1, T2(v[0], v[1], v[2])), Add(v[3], t1));
  }

  ghost predicate Scheduled(W: array<Word>, m: Block, n: nat)
    reads W
  {
    n <= W.Length && forall t :: 0 <= t < n ==> W[t] == Schedule(m, t)
  }

  /** RNDr(S, W, 0, i) to RNDr(S, W, 15, i). */
  method SixteenRounds(S: array<Word>, W: array<Word>, i: nat, ghost h: Eight, ghost m: Block)
    requires i <= 48 && S.Length == 8 && W.Length == 64 && S != W
    requires Scheduled(W, m, i + 16) && Renamed(S[..], Rounds(h, m, i), 0)
    modifies S
    ensures Renamed(S[..], Rounds(h, m, i + 16), 0)
  {
    for j := 0 to 16
      invariant Renamed(S[..], Rounds(h, m, i + j), j)
    {
      Rnd(S, j, K[i + j], W[i + j], Rounds(h, m, i + j));
      assert W[i + j] == Schedule(m, i + j);
    }
    RenamedAround(S[..], Rounds(h, m, i + 16));
  }

  /** MSCH(W, 0, i) to MSCH(W, 15, i). */
  method SixteenWords(W: array<Word>, i: nat, ghost m: Block)
    requires i <= 32 && W.Length == 64 && Scheduled(W, m, i + 16)
    modifies W
    ensures Scheduled(W, m, i + 32)
  {
    for j := 0 to 16
      invariant Scheduled(W, m, i + 16 + j)
    {
      W[i + j + 16] := Add(Add(Add(SmallSigma1(W[i + j + 14]), W[i + j + 9]), SmallSigma0(W[i + j + 1])), W[i + j]);
    }
  }

  method FirstWords(m: Block) returns (W: array<Word>)
    ensures fresh(W) && W.Length == 64 && Scheduled(W, m, 16)
  {
    W := new Word[64];
    for i := 0 to 16
      invariant Scheduled(W, m, i)
    {
      W[i] := m[i];
    }
  }

  method CopyOf(state: array<Word>) returns (S: array<Word>)
    ensures fresh(S) && S.Length == state.Length && S[..] == state[..]
  {
    S := new Word[state.Length];
    for i := 0 to state.Length
      invariant forall j :: 0 <= j < i ==> S[j] == state[j]
    {
      S[i] := state[i];
    }
  }

  /** The mixing loop: four stretches of sixteen rounds, with new schedule words in between. */
  method Mix(S: array<Word>, W: array<Word>, ghost h: Eight, ghost m: Block)
    requires S.Length == 8 && W.Length == 64 && S != W && S[..] == h && Scheduled(W, m, 16)
    modifies S, W
    ensures S[..] == Rounds(h, m, |K|)
  {
    assert forall j :: 0 <= j < 8 ==> Reg(0, j) == j;
    var i := 0;
    for quarter := 0 to 4
      invariant i == 16 * quarter && Renamed(S[..], Rounds(h, m, i), 0)
      invariant quarter < 4 ==> Scheduled(W, m, i + 16)
    {
      SixteenRounds(S, W, i, h, m);
      if quarter < 3 {
        SixteenWords(W, i, m);
      }
      i := i + 16;
    }
    RenamedPlain(S[..], Rounds(h, m, |K|));
  }

  /** SHA256_Transform. */
  method Transform(state: array<Word>, m: Block)
    requires state.Length == 8
    modifies state
    ensures state[..] == Compress(old(state[..]), m)
  {
    var W := FirstWords(m);
    var S := CopyOf(state);
    Mix(S, W, state[..], m);
    AddInto(state, S);
  }

  /** state[i] += S[i]. */
  method AddInto(state: array<Word>, S: array<Word>)
    requires state.Length == S.Length == 8 && state != S
    modifies state
    ensures state[..] == AddEight(old(state[..]), S[..])
  {
    ghost var h, v := state[..], S[..];
    for k := 0 to 8
      invariant forall j :: 0 <= j < k ==> state[j] == Add(h[j], v[j])
      invariant forall j :: k <= j < 8 ==> state[j] == h[j]
    {
      state[k] := Add(state[k], S[k]);
    }
  }

  lemma RenamedPlain(S: seq<Word>, v: Eight)
    requires Renamed(S, v, 0)
    ensures S == v
  {
    assert forall j :: 0 <= j < 8 ==> Reg(0, j) == j && S[Reg(0, j)] == v[j];
  }

  /** After sixteen rounds the names are back where they started. */
  lemma RenamedAround(S: seq<Word>, v: Eight)
    requires Renamed(S, v, 16)
    ensures Renamed(S, v, 0)
  {
    assert forall j :: 0 <= j < 8 ==> Reg(16, j) == Reg(0, j);
  }
}
