/** String values in .config: quoting on the way out, unquoting in place on the way in. */
module ConfQuote {
  import opened KconfigExpr
  import opened CStrings

  predicate Special(c: char) {
    c == '"' || c == '\\'
  }

  /** Every quote and backslash preceded by a backslash. */
  function Escaped(s: string): string {
    if s == "" then "" else (if Special(s[0]) then ['\\', s[0]] else [s[0]]) + Escaped(s[1..])
  }

  function Quoted(s: string): string {
    "\"" + Escaped(s) + "\""
  }

  lemma {:induction false} EscapedRun(s: string, p: nat, q: nat)
    requires p <= q <= |s| && forall k :: p <= k < q ==> !Special(s[k])
    ensures Escaped(s[p..]) == s[p..q] + Escaped(s[q..])
    decreases q - p
  {
    if p < q {
      EscapedRun(s, p + 1, q);
      assert s[p..][1..] == s[p + 1..];
      assert s[p..q] == [s[p]] + s[p + 1..q];
    }
  }

  lemma EscapedSpecial(s: string, p: nat)
    requires p < |s| && Special(s[p])
    ensures Escaped(s[p..]) == "\\" + [s[p]] + Escaped(s[p + 1..])
  {
    assert s[p..][1..] == s[p + 1..];
  }

  /** Escaping introduces no character but the backslash. */
  lemma {:induction false} EscapedKeeps(s: string, c: char)
    requires c !in s && c != '\\'
    ensures c !in Escaped(s)
  {
    if s != "" {
      EscapedKeeps(s[1..], c);
    }
  }

  method Strcspn(s: string, p: nat) returns (q: nat)
    requires p <= |s|
    ensures p <= q <= |s| && (forall k :: p <= k < q ==> !Special(s[k])) && (q < |s| ==> Special(s[q]))
  {
    q := p;
    while q < |s| && !Special(s[q])
      invariant p <= q <= |s| && forall k :: p <= k < q ==> !Special(s[k])
    {
      q := q + 1;
    }
  }

  /** First pass of the escaper: the size of the buffer it needs. */
  method EscapedSize(s: string) returns (size: nat)
    ensures size == |Quoted(s)| + 1
  {
    size := |s| + 3;
    var p := 0;
    while true
      invariant 0 <= p <= |s| && size + |Escaped(s[p..])| - (|s| - p) == |Escaped(s)| + 3
      decreases |s| - p
    {
      var q := Strcspn(s, p);
      EscapedRun(s, p, q);
      p := q;
      if p == |s| {
        break;
      }
      EscapedSpecial(s, p);
      size := size + 1;
      p := p + 1;
    }
  }

  /** Where the second pass stands: done is written, s[p..] is left, and both fit. */
  ghost predicate Filling(size: nat, s: string, p: nat, done: string) {
    && p <= |s| && |done| + |Escaped(s[p..])| + 2 == size
    && done + Escaped(s[p..]) == "\"" + Escaped(s)
  }

  lemma FillRun(size: nat, s: string, p: nat, q: nat, done: string)
    requires Filling(size, s, p, done) && p <= q <= |s| && forall k :: p <= k < q ==> !Special(s[k])
    ensures Filling(size, s, q, done + s[p..q]) && |done + s[p..q]| + 2 <= size
  {
    EscapedRun(s, p, q);
    assert done + (s[p..q] + Escaped(s[q..])) == (done + s[p..q]) + Escaped(s[q..]);
  }

  lemma FillSpecial(size: nat, s: string, p: nat, done: string)
    requires Filling(size, s, p, done) && p < |s| && Special(s[p])
    ensures Filling(size, s, p + 1, done + "\\" + [s[p]]) && |done + "\\" + [s[p]]| + 2 <= size
  {
    EscapedSpecial(s, p);
    assert done + ("\\" + [s[p]] + Escaped(s[p + 1..])) == (done + "\\" + [s[p]]) + Escaped(s[p + 1..]);
  }

  lemma FillEnd(size: nat, s: string, done: string)
    requires Filling(size, s, |s|, done) && '\0' !in s
    ensures done + "\"" == Quoted(s) && |done| + 2 == size && '\0' !in Quoted(s)
  {
    EscapedKeeps(s, '\0');
  }

  method AppendEscaped(buf: array<char>, n: nat, c: char, ghost done: string)
    requires n == |done| && n + 2 < buf.Length && Starts(buf[..], done)
    modifies buf
    ensures Starts(buf[..], done + "\\" + [c])
  {
    Append(buf, n, "\\", done);
    Append(buf, n + 1, [c], done + "\\");
  }

  /** The escaper fills the buffer it computed the size of, exactly. */
  method Escape(s: string) returns (res: array<char>)
    requires '\0' !in s
    ensures CString(res[..], 0, Quoted(s)) && res.Length == |Quoted(s)| + 1
  {
    var size := EscapedSize(s);
    res := new char[size];
    res[0] := '\0';
    Append(res, 0, "\"", "");
    var n, p := 1, 0;
    ghost var done := "\"";
    assert s[0..] == s;
    while true
      invariant 0 <= p <= |s| && n == |done| && Filling(res.Length, s, p, done) && Starts(res[..], done)
      decreases |s| - p
    {
      var q := Strcspn(s, p);
      FillRun(res.Length, s, p, q, done);
      Append(res, n, s[p..q], done);
      n, p, done := n + (q - p), q, done + s[p..q];
      if p == |s| {
        break;
      }
      FillSpecial(res.Length, s, p, done);
      AppendEscaped(res, n, s[p], done);
      n, p, done := n + 2, p + 1, done + "\\" + [s[p]];
    }
    FillEnd(res.Length, s, done);
    Append(res, n, "\"", done);
    CStringWhole(res[..], Quoted(s));
  }

  function Consed(c: char, t: Option<string>): Option<string> {
    if t.None? then None else Some([c] + t.value)
  }

  /** The text between the opening quote, already consumed, and the first quote that is not escaped. */
  function Unquote(s: string): Option<string> {
    if s == "" then None
    else if s[0] == '"' then Some("")
    else if s[0] != '\\' then Consed(s[0], Unquote(s[1..]))
    else if |s| == 1 then None
    else Consed(s[1], Unquote(s[2..]))
  }

  /** Unquoting undoes quoting, whatever follows the closing quote. */
  lemma {:induction false} UnquoteEscaped(s: string, t: string)
    ensures Unquote(Escaped(s) + "\"" + t) == Some(s)
  {
    var e := Escaped(s) + "\"" + t;
    if s != "" {
      UnquoteEscaped(s[1..], t);
      var rest := Escaped(s[1..]) + "\"" + t;
      if Special(s[0]) {
        assert e == ['\\', s[0]] + rest;
        assert e[2..] == rest;
      } else {
        assert e == [s[0]] + rest;
        assert e[1..] == rest;
      }
      assert s == [s[0]] + s[1..];
    }
  }

  function After(done: string, t: Option<string>): Option<string> {
    if t.None? then None else Some(done + t.value)
  }

  lemma {:induction false} UnquoteRun(s: string, n: nat)
    requires n <= |s| && forall k :: 0 <= k < n ==> !Special(s[k])
    ensures Unquote(s) == After(s[..n], Unquote(s[n..]))
  {
    if n > 0 {
      UnquoteRun(s[1..], n - 1);
      assert s[1..][n - 1..] == s[n..];
      var t := Unquote(s[n..]);
      if t.Some? {
        assert [s[0]] + (s[1..][..n - 1] + t.value) == s[..n] + t.value;
      }
    } else {
      assert s[0..] == s;
      var t := Unquote(s);
      assert t.Some? ==> s[..0] + t.value == t.value;
    }
  }

  /** strpbrk(buf + i, "\"\\"), the terminator's offset if there is none. */
  method Strpbrk(buf: array<char>, i: nat, ghost s: string) returns (q: nat)
    requires CString(buf[..], i, s)
    ensures i <= q <= i + |s| && (forall k :: 0 <= k < q - i ==> !Special(s[k])) && (q < i + |s| ==> Special(s[q - i]))
  {
    q := i;
    while buf[q] != '\0' && !Special(buf[q])
      invariant i <= q <= i + |s| && forall k :: 0 <= k < q - i ==> !Special(s[k])
      decreases i + |s| - q
    {
      CharAt(buf[..], i, s, q - i);
      q := q + 1;
    }
    CharAt(buf[..], i, s, q - i);
  }

  /** Where the in-place loop stands: done is final and s[k..] is left to scan. */
  ghost predicate Scanning(s: string, k: nat, done: string) {
    k <= |s| && Unquote(s) == After(done, Unquote(s[k..]))
  }

  lemma ScanRun(s: string, k: nat, done: string, n: nat)
    requires Scanning(s, k, done) && k + n <= |s| && forall j :: 0 <= j < n ==> !Special(s[k..][j])
    ensures Scanning(s, k + n, done + s[k..k + n])
  {
    assert s[k..][n..] == s[k + n..] && s[k..][..n] == s[k..k + n];
    UnquoteRun(s[k..], n);
    var t := Unquote(s[k + n..]);
    if t.Some? {
      assert done + (s[k..k + n] + t.value) == (done + s[k..k + n]) + t.value;
    }
  }

  lemma ScanEscape(s: string, k: nat, done: string)
    requires Scanning(s, k, done) && k + 1 < |s| && s[k] == '\\'
    ensures Scanning(s, k + 2, done + [s[k + 1]])
  {
    assert s[k..][2..] == s[k + 2..];
    var t := Unquote(s[k + 2..]);
    if t.Some? {
      assert done + ([s[k + 1]] + t.value) == (done + [s[k + 1]]) + t.value;
    }
  }

  lemma ScanEnd(s: string, k: nat, done: string)
    requires Scanning(s, k, done)
    ensures k == |s| || (k + 1 == |s| && s[k] == '\\') ==> Unquote(s) == None
    ensures k < |s| && s[k] == '"' ==> Unquote(s) == Some(done)
  {
    assert k < |s| ==> s[k..][0] == s[k];
    assert done + "" == done;
  }

  /** The loop's state; k is one past the end after a lone final backslash, when the old terminator is still there. */
  ghost predicate State(b: seq<char>, p: nat, p2: nat, s: string, k: nat, done: string) {
    if k <= |s| then p2 == p + |done| && Scanning(s, k, done) && CString(b, p, done + s[k..])
    else p2 < |b| && b[p2] == '\0' && Unquote(s) == None
  }

  lemma StateRest(b: seq<char>, p: nat, p2: nat, s: string, k: nat, done: string)
    requires State(b, p, p2, s, k, done)
    ensures CString(b, p2, if k <= |s| then s[k..] else "")
  {
    if k <= |s| {
      CStringSuffix(b, p, done + s[k..], |done|);
      assert (done + s[k..])[|done|..] == s[k..];
    }
  }

  lemma StateRun(b: seq<char>, p: nat, p2: nat, s: string, k: nat, done: string, n: nat)
    requires State(b, p, p2, s, k, done) && k + n <= |s| && forall j :: 0 <= j < n ==> !Special(s[k..][j])
    ensures State(b, p, p2 + n, s, k + n, done + s[k..k + n])
  {
    ScanRun(s, k, done, n);
    assert done + s[k..] == (done + s[k..k + n]) + s[k + n..];
  }

  /** Taking out the backslash at p2. */
  method DropBackslash(buf: array<char>, p: nat, p2: nat, ghost s: string, ghost k: nat, ghost done: string)
    requires State(buf[..], p, p2, s, k, done) && k < |s| && s[k] == '\\'
    modifies buf
    ensures State(buf[..], p, p2 + 1, s, k + 2, if k + 1 < |s| then done + [s[k + 1]] else done)
    ensures buf[..p] == old(buf[..p])
  {
    ghost var whole := done + s[k..];
    DeleteChar(buf, p, p2 - p, whole);
    ScanEnd(s, k, done);
    if k + 1 < |s| {
      ScanEscape(s, k, done);
      assert whole[..|done|] + whole[|done| + 1..] == (done + [s[k + 1]]) + s[k + 2..];
    }
  }

  lemma Begin(b: seq<char>, p: nat, s: string)
    requires CString(b, p, s)
    ensures State(b, p, p, s, 0, "")
  {
    var t := Unquote(s);
    assert s[0..] == s && "" + s == s;
    assert t.Some? ==> "" + t.value == t.value;
  }

  /** What is found at the next quote, backslash or terminator. */
  ghost predicate Found(b: seq<char>, p: nat, q: nat, s: string, k: nat, done: string) {
    && q < |b|
    && (b[q] == '\0' ==> Unquote(s) == None)
    && (b[q] == '"' ==> Unquote(s) == Some(done) && Ready(b, p, q, done))
    && (b[q] != '\0' && b[q] != '"' ==> State(b, p, q, s, k, done) && k < |s| && s[k] == '\\')
  }

  ghost predicate Ready(b: seq<char>, p: nat, q: nat, done: string) {
    p + |done| == q < |b| && b[p..q] == done && '\0' !in done
  }

  lemma FoundAt(b: seq<char>, p: nat, q: nat, s: string, k: nat, done: string)
    requires State(b, p, q, s, k, done) && (k < |s| ==> Special(s[k]))
    ensures Found(b, p, q, s, k, done)
  {
    if k <= |s| {
      var whole := done + s[k..];
      CharAt(b, p, whole, |done|);
      ScanEnd(s, k, done);
      assert whole[..|done|] == done;
      assert b[p..q] == b[p..p + |whole|][..|done|];
      assert forall c :: c in done ==> c in whole;
    }
  }

  method NextSpecial(buf: array<char>, p: nat, p2: nat, ghost s: string, ghost k: nat, ghost done: string)
    returns (q: nat, ghost k': nat, ghost done': string)
    requires State(buf[..], p, p2, s, k, done)
    ensures k <= k' && Found(buf[..], p, q, s, k', done')
  {
    StateRest(buf[..], p, p2, s, k, done);
    k', done' := k, done;
    q := Strpbrk(buf, p2, if k <= |s| then s[k..] else "");
    if k <= |s| {
      StateRun(buf[..], p, p2, s, k, done, q - p2);
      k', done' := k + (q - p2), done + s[k..k + (q - p2)];
    }
    FoundAt(buf[..], p, q, s, k', done');
  }

  method Terminate(buf: array<char>, p: nat, q: nat, ghost done: string)
    requires Ready(buf[..], p, q, done)
    modifies buf
    ensures CString(buf[..], p, done) && buf[..p] == old(buf[..p])
  {
    buf[q] := '\0';
    assert buf[p..q] == old(buf[p..q]);
  }

  datatype Status = Closed | Unclosed | More

  /** One iteration of the unquoting loop. */
  method Advance(buf: array<char>, p: nat, p2: nat, ghost s: string, ghost k: nat, ghost done: string)
    returns (status: Status, q: nat, ghost k': nat, ghost done': string)
    requires p <= buf.Length && State(buf[..], p, p2, s, k, done)
    modifies buf
    ensures buf[..p] == old(buf[..p])
    ensures status.Unclosed? ==> Unquote(s).None?
    ensures status.Closed? ==> Unquote(s).Some? && CString(buf[..], p, Unquote(s).value)
    ensures status.More? ==> k < k' <= |s| + 1 && State(buf[..], p, q, s, k', done')
  {
    q, k', done' := NextSpecial(buf, p, p2, s, k, done);
    if buf[q] == '\0' {
      status := Unclosed;
    } else if buf[q] == '"' {
      Terminate(buf, p, q, done');
      status := Closed;
    } else {
      DropBackslash(buf, p, q, s, k', done');
      status, k', done' := More, k' + 2, if k' + 1 < |s| then done' + [s[k' + 1]] else done';
      q := q + 1;
    }
  }

  /** The unquoting loop: it cuts the string at its closing quote and closes the gap each
      backslash leaves, so what remains in the buffer is the unquoted string. */
  method UnquoteInPlace(buf: array<char>, p: nat, ghost s: string) returns (ok: bool)
    requires CString(buf[..], p, s)
    modifies buf
    ensures ok <==> Unquote(s).Some?
    ensures ok ==> CString(buf[..], p, Unquote(s).value)
    ensures buf[..p] == old(buf[..p])
  {
    ghost var k: nat, done: string := 0, "";
    var p2: nat, status := p, More;
    Begin(buf[..], p, s);
    while status == More
      invariant buf[..p] == old(buf[..p])
      invariant status.Unclosed? ==> Unquote(s).None?
      invariant status.Closed? ==> Unquote(s).Some? && CString(buf[..], p, Unquote(s).value)
      invariant status.More? ==> k <= |s| + 1 && State(buf[..], p, p2, s, k, done)
      decreases status == More, |s| + 1 - k
    {
      status, p2, k, done := Advance(buf, p, p2, s, k, done);
    }
    ok := status == Closed;
  }
}
