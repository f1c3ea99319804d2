/** Strings held in character buffers and ended by a NUL. */
module CStrings {

  /** Buffer b holds the string s at offset i. */
  ghost predicate CString(b: seq<char>, i: nat, s: string) {
    i + |s| < |b| && b[i..i + |s|] == s && b[i + |s|] == '\0' && '\0' !in s
  }

  /** The index of the first c, or the length if there is none. */
  function Find(s: string, c: char): (k: nat)
    ensures k <= |s| && c !in s[..k] && (k < |s| ==> s[k] == c)
  {
    if s == "" || s[0] == c then 0 else 1 + Find(s[1..], c)
  }

  lemma {:induction false} FindAt(s: string, c: char, k: nat)
    requires k <= |s| && c !in s[..k] && (k < |s| ==> s[k] == c)
    ensures Find(s, c) == k
  {
    if k > 0 {
      assert s[0] in s[..k];
      assert s[1..][..k - 1] == s[..k][1..];
      FindAt(s[1..], c, k - 1);
    }
  }

  lemma FindAfter(a: string, c: char, b: string)
    requires c !in a
    ensures Find(a + [c] + b, c) == |a|
    ensures (a + [c] + b)[..|a|] == a && (a + [c] + b)[|a| + 1..] == b
  {
    var s := a + [c] + b;
    assert s[..|a|] == a;
    FindAt(s, c, |a|);
  }

  lemma Dropped(a: string, b: string)
    ensures a <= a + b && (a + b)[|a|..] == b
  {
  }

  lemma CStringSuffix(b: seq<char>, i: nat, s: string, k: nat)
    requires CString(b, i, s) && k <= |s|
    ensures CString(b, i + k, s[k..])
  {
    assert b[i + k..i + |s|] == b[i..i + |s|][k..];
  }

  /** The buffer begins with s. */
  ghost predicate Starts(b: seq<char>, s: string) {
    |s| <= |b| && b[..|s|] == s
  }

  /** strcat of t onto the n characters already in buf. */
  method Append(buf: array<char>, n: nat, t: string, ghost done: string)
    requires n == |done| && n + |t| < buf.Length && Starts(buf[..], done)
    modifies buf
    ensures Starts(buf[..], done + t) && buf[n + |t|] == '\0'
  {
    forall k | 0 <= k < |t| {
      buf[n + k] := t[k];
    }
    buf[n + |t|] := '\0';
    assert buf[..n] == old(buf[..])[..n];
  }

  lemma CStringWhole(b: seq<char>, s: string)
    requires Starts(b, s) && '\0' !in s && |b| == |s| + 1 && b[|s|] == '\0'
    ensures CString(b, 0, s)
  {
  }

  /** strlen. */
  method Strlen(buf: array<char>, i: nat, ghost s: string) returns (n: nat)
    requires CString(buf[..], i, s)
    ensures n == |s|
  {
    n := 0;
    while buf[i + n] != '\0'
      invariant n <= |s|
      decreases |s| - n
    {
      CharAt(buf[..], i, s, n);
      n := n + 1;
    }
    CharAt(buf[..], i, s, n);
  }

  /** strchr, as an offset into the buffer; the terminator's if there is no c. */
  method Strchr(buf: array<char>, i: nat, c: char, ghost s: string) returns (k: nat)
    requires CString(buf[..], i, s)
    ensures k == i + Find(s, c)
  {
    k := i;
    while buf[k] != '\0' && buf[k] != c
      invariant i <= k <= i + |s| && c !in s[..k - i]
      decreases i + |s| - k
    {
      CharAt(buf[..], i, s, k - i);
      assert s[..k + 1 - i] == s[..k - i] + [s[k - i]];
      k := k + 1;
    }
    CharAt(buf[..], i, s, k - i);
    FindAt(s, c, k - i);
  }

  /** strdup: the string as a value of its own. */
  method Strdup(buf: array<char>, i: nat, ghost s: string) returns (r: string)
    requires CString(buf[..], i, s)
    ensures r == s
  {
    var n := Strlen(buf, i, s);
    r := buf[i..i + n];
  }

  lemma CharAt(b: seq<char>, i: nat, s: string, k: nat)
    requires CString(b, i, s) && k <= |s|
    ensures if k < |s| then b[i + k] == s[k] && s[k] != '\0' else b[i + k] == '\0'
  {
    assert k < |s| ==> b[i..i + |s|][k] == b[i + k];
  }

  /** memmove of the rest of the string, terminator included, one place down: character m disappears. */
  method DeleteChar(buf: array<char>, i: nat, m: nat, ghost s: string)
    requires CString(buf[..], i, s) && m < |s|
    modifies buf
    ensures CString(buf[..], i, s[..m] + s[m + 1..]) && buf[i + |s|] == '\0' && buf[..i] == old(buf[..i])
  {
    ghost var before := buf[..];
    var n := Strlen(buf, i + m, s[m..]) by {
      CStringSuffix(buf[..], i, s, m);
    }
    forall k | i + m <= k < i + m + n {
      buf[k] := buf[k + 1];
    }
    Shifted(before, buf[..], i, m, s);
  }

  lemma Shifted(b: seq<char>, b': seq<char>, i: nat, m: nat, s: string)
    requires CString(b, i, s) && m < |s| && |b'| == |b|
    requires b' == b[..i + m] + b[i + m + 1..i + |s| + 1] + b[i + |s|..]
    ensures CString(b', i, s[..m] + s[m + 1..]) && b'[i + |s|] == '\0' && b'[..i] == b[..i]
  {
    var t := s[..m] + s[m + 1..];
    forall k | 0 <= k < |t| ensures b'[i + k] == t[k] {
      CharAt(b, i, s, if k < m then k else k + 1);
    }
    assert b'[i..i + |t|] == t;
    CharAt(b, i, s, |s|);
  }

  /** Writes a NUL over the character at offset m of the string, making two strings of it. */
  method Cut(buf: array<char>, i: nat, m: nat, ghost s: string)
    requires CString(buf[..], i, s) && m < |s|
    modifies buf
    ensures CString(buf[..], i, s[..m]) && CString(buf[..], i + m + 1, s[m + 1..]) && buf[..i] == old(buf[..i])
  {
    CStringSuffix(buf[..], i, s, m + 1);
    ghost var before := buf[..];
    buf[i + m] := '\0';
    assert buf[..][i..i + m] == before[i..i + |s|][..m];
    assert buf[..][i + m + 1..] == before[i + m + 1..];
    assert buf[..][i + m + 1..i + |s|] == before[i + m + 1..i + |s|];
  }

  /** memcmp with a text that has no NUL, so that it stops at the terminator at the latest. */
  method Begins(buf: array<char>, i: nat, t: string, ghost s: string) returns (r: bool)
    requires CString(buf[..], i, s) && '\0' !in t
    ensures r <==> t <= s
  {
    var k := 0;
    while k < |t|
      invariant 0 <= k <= |t| && k <= |s| && t[..k] == s[..k]
    {
      CharAt(buf[..], i, s, k);
      if buf[i + k] != t[k] {
        assert k < |s| ==> t[k] != s[k];
        return false;
      }
      assert s[..k + 1] == s[..k] + [s[k]] && t[..k + 1] == t[..k] + [t[k]];
      k := k + 1;
    }
    return true;
  }

  /** Finds the first c and cuts the string there; k is its offset, the terminator's if there is none. */
  method CutAt(buf: array<char>, i: nat, c: char, ghost s: string) returns (found: bool, k: nat)
    requires CString(buf[..], i, s) && c != '\0'
    modifies buf
    ensures (found <==> Find(s, c) < |s|) && k == i + Find(s, c) && buf[..i] == old(buf[..i])
    ensures found ==> CString(buf[..], i, s[..Find(s, c)]) && CString(buf[..], k + 1, s[Find(s, c) + 1..])
    ensures found ==> buf[k] == '\0'
    ensures !found ==> CString(buf[..], i, s)
  {
    k := Strchr(buf, i, c, s);
    CharAt(buf[..], i, s, k - i);
    found := buf[k] != '\0';
    if found {
      Cut(buf, i, k - i, s);
      CharAt(buf[..], i, s[..k - i], k - i);
    }
  }
}
