/** Bytes and 32-bit words, and words as bytes. */
module Octets {

  type Byte = x: int | 0 <= x < 256

  type Word = x: int | 0 <= x < 0x1_0000_0000

  function Le32(u: Word): (s: seq<Byte>)
    ensures |s| == 4
  {
    [u % 256, u / 0x100 % 256, u / 0x1_0000 % 256, u / 0x100_0000 % 256]
  }

  function Be32(u: Word): (s: seq<Byte>)
    ensures |s| == 4
  {
    [u / 0x100_0000 % 256, u / 0x1_0000 % 256, u / 0x100 % 256, u % 256]
  }

  /** The number bytes stand for, high-order byte first. */
  function BeValue(s: seq<Byte>): int {
    if s == [] then 0 else BeValue(s[..|s| - 1]) * 256 + s[|s| - 1]
  }

  /** ... and low-order byte first. */
  function LeValue(s: seq<Byte>): int {
    if s == [] then 0 else s[0] + 256 * LeValue(s[1..])
  }

  lemma FourBe(s: seq<Byte>)
    requires |s| == 4
    ensures BeValue(s) == s[0] as int * 0x100_0000 + s[1] as int * 0x1_0000 + s[2] as int * 0x100 + s[3] as int
  {
    assert s[..3][..2] == s[..2] && s[..2][..1] == s[..1] && s[..1][..0] == [];
    assert BeValue(s[..1]) == BeValue(s[..0]) * 256 + s[0];
    assert BeValue(s[..2]) == BeValue(s[..1]) * 256 + s[1];
    assert BeValue(s[..3]) == BeValue(s[..2]) * 256 + s[2];
  }

  lemma FourLe(s: seq<Byte>)
    requires |s| == 4
    ensures LeValue(s) == s[0] as int + 0x100 * s[1] as int + 0x1_0000 * s[2] as int + 0x100_0000 * s[3] as int
  {
    assert s[1..][1..] == s[2..] && s[2..][1..] == s[3..] && s[3..][1..] == [];
    assert LeValue(s[3..]) == s[3] + 256 * LeValue([]);
    assert LeValue(s[2..]) == s[2] + 256 * LeValue(s[3..]);
    assert LeValue(s[1..]) == s[1] + 256 * LeValue(s[2..]);
  }

  /** A word is the sum of its bytes, each in its place. */
  lemma WordBytes(u: Word)
    ensures u == u / 0x100_0000 % 256 * 0x100_0000 + u / 0x1_0000 % 256 * 0x1_0000 + u / 0x100 % 256 * 0x100 + u % 256
  {
    var a, b, c := u / 0x100, u / 0x1_0000, u / 0x100_0000;
    assert a / 256 == b && b / 256 == c;
    assert u == 256 * a + u % 256 && a == 256 * b + a % 256 && b == 256 * c + b % 256 && c == c % 256;
  }

  lemma Be32Value(u: Word)
    ensures BeValue(Be32(u)) == u
  {
    FourBe(Be32(u));
    WordBytes(u);
  }

  lemma Le32Value(u: Word)
    ensures LeValue(Le32(u)) == u
  {
    FourLe(Le32(u));
    WordBytes(u);
  }

  lemma {:induction false} LeConcat(s: seq<Byte>, t: seq<Byte>)
    requires |s| == 4
    ensures LeValue(s + t) == LeValue(s) + 0x1_0000_0000 * LeValue(t)
  {
    var u := s + t;
    assert u[1..][1..] == u[2..] && u[2..][1..] == u[3..] && u[3..][1..] == t;
    assert LeValue(u[3..]) == s[3] + 256 * LeValue(t);
    assert LeValue(u[2..]) == s[2] + 256 * LeValue(u[3..]);
    assert LeValue(u[1..]) == s[1] + 256 * LeValue(u[2..]);
    FourLe(s);
  }

  lemma {:induction false} BeConcat(s: seq<Byte>, t: seq<Byte>)
    requires |t| == 4
    ensures BeValue(s + t) == BeValue(s) * 0x1_0000_0000 + BeValue(t)
  {
    var u, n := s + t, |s|;
    assert u[..n + 3][..n + 2] == u[..n + 2] && u[..n + 2][..n + 1] == u[..n + 1] && u[..n + 1][..n] == u[..n] == s;
    assert BeValue(u[..n + 1]) == BeValue(s) * 256 + t[0];
    assert BeValue(u[..n + 2]) == BeValue(u[..n + 1]) * 256 + t[1];
    assert BeValue(u[..n + 3]) == BeValue(u[..n + 2]) * 256 + t[2];
    FourBe(t);
  }
}
