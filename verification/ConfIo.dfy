/** The loops that read and write a .config file, proved against ConfFile. */
module ConfIo {
  import opened KconfigExpr
  import opened CStrings
  import opened ConfQuote
  import opened ConfFile

  /** Drops a final carriage return. The byte before the string is a NUL. */
  method DropReturn(buf: array<char>, p: nat, ghost v: string, n: nat)
    requires 0 < p && CString(buf[..], p, v) && buf[p - 1] == '\0' && n == p + |v|
    modifies buf
    ensures CString(buf[..], p, NoReturn(v)) && buf[..p] == old(buf[..p])
  {
    if n > p {
      CharAt(buf[..], p, v, |v| - 1);
    }
    if buf[n - 1] == '\r' {
      Cut(buf, p, n - 1 - p, v);
    }
  }

  /** Cuts a line's value at its newline and drops a carriage return before it. The byte before the value is the NUL
      that replaced the equals sign. */
  method ChompInPlace(buf: array<char>, p: nat, ghost v: string)
    requires 0 < p && CString(buf[..], p, v) && buf[p - 1] == '\0'
    modifies buf
    ensures CString(buf[..], p, Chomp(v)) && buf[..p] == old(buf[..p])
  {
    var found, n := CutAt(buf, p, '\n', v);
    if found {
      assert buf[..p][p - 1] == old(buf[..p])[p - 1];
      DropReturn(buf, p, v[..n - p], n);
    }
  }

  /** Splits an assignment at its equals sign, in place. */
  method SplitAssignment(line: array<char>, i: nat, ghost rest: string) returns (found: bool, name: string, p: nat)
    requires CString(line[..], i, rest)
    modifies line
    ensures found <==> Find(rest, '=') < |rest|
    ensures found ==> 0 < p <= line.Length && line[p - 1] == '\0' && name == rest[..Find(rest, '=')]
                      && CString(line[..], p, rest[Find(rest, '=') + 1..])
  {
    found, p := CutAt(line, i, '=', rest);
    name := "";
    if found {
      name := Strdup(line, i, rest[..p - i]);
    }
    p := p + 1;
  }

  /** Splits a comment at its first space, in place, and looks for the mark of an unset symbol. */
  method SplitComment(line: array<char>, i: nat, ghost rest: string) returns (unset: bool, name: string)
    requires CString(line[..], i, rest)
    modifies line
    ensures ParseComment(rest) == if unset then Unset(name) else Ignored
  {
    var p;
    unset, p := CutAt(line, i, ' ', rest);
    name := "";
    if unset {
      assert '\0' !in NOT_SET;
      unset := Begins(line, p + 1, NOT_SET, rest[p - i + 1..]);
      name := Strdup(line, i, rest[..p - i]);
    }
  }

  /** compat_getline: the characters up to and including the next newline, then a NUL. */
  method GetLine(file: string, i: nat) returns (line: array<char>, next: nat)
    requires i < |file|
    ensures fresh(line) && i < next <= |file| && CString(line[..], 0, Until(file[i..next]))
    ensures next == i + LineLength(file[i..])
  {
    next := i;
    while next < |file| && file[next] != '\n'
      invariant i <= next <= |file| && '\n' !in file[i..next]
    {
      assert file[i..next + 1] == file[i..next] + [file[next]];
      next := next + 1;
    }
    assert file[i..][..next - i] == file[i..next];
    FindAt(file[i..], '\n', next - i);
    if next < |file| {
      next := next + 1;
    }
    line := new char[next - i + 1];
    forall k | 0 <= k < next - i {
      line[k] := file[i + k];
    }
    line[next - i] := '\0';
    UntilHeld(line[..], file[i..next]);
  }

  lemma UntilHeld(b: seq<char>, s: string)
    requires b == s + ['\0']
    ensures CString(b, 0, Until(s))
  {
  }

  lemma LinesNext(file: string, i: nat, next: nat)
    requires i < |file| && next == i + LineLength(file[i..])
    ensures Lines(file[i..]) == [file[i..next]] + Lines(file[next..])
  {
    var s, n := file[i..], next - i;
    assert s[..n] == file[i..next] && s[n..] == file[next..];
  }

  class Reader {
    const prefix: string
    const types: map<string, SymType>
    var user: map<string, Val>

    constructor (prefix: string, types: map<string, SymType>)
      ensures this.prefix == prefix && this.types == types && user == map[]
    {
      this.prefix, this.types, user := prefix, types, map[];
    }

    /** A comment line; rest is what follows the prefix. */
    method ReadComment(line: array<char>, i: nat, ghost rest: string)
      requires CString(line[..], i, rest)
      modifies line, `user
      ensures user == ApplyLine(types, old(user), ParseComment(rest))
    {
      var unset, name := SplitComment(line, i, rest);
      if unset && Known(types, name) && (types[name].Boolean? || types[name].Tristate?) {
        user := user[name := TriVal(0)];
      }
    }

    /** An assignment; rest is what follows the prefix. */
    method ReadAssignment(line: array<char>, i: nat, ghost rest: string)
      requires CString(line[..], i, rest)
      modifies line, `user
      ensures user == ApplyLine(types, old(user), ParseAssignment(rest))
    {
      var found, name, p := SplitAssignment(line, i, rest);
      if !found {
        return;
      }
      ghost var value := rest[Find(rest, '=') + 1..];
      ChompInPlace(line, p, value);
      if Known(types, name) {
        var r := SetValue(types[name], line, p, Chomp(value));
        if r.Stored? {
          user := user[name := r.val];
        }
      }
    }

    /** One round of the read loop. */
    method ReadLine(line: array<char>, ghost s: string)
      requires CString(line[..], 0, s) && '\0' !in prefix
      modifies line, `user
      ensures user == ApplyLine(types, old(user), Parse(prefix, s))
    {
      CharAt(line[..], 0, s, 0);
      if line[0] == '#' {
        CharAt(line[..], 0, s, 1);
        if line[1] == '\0' {
          return;
        }
        CStringSuffix(line[..], 0, s, 2);
        var ours := Begins(line, 2, prefix, s[2..]);
        if ours {
          CStringSuffix(line[..], 0, s, 2 + |prefix|);
          ReadComment(line, 2 + |prefix|, s[2 + |prefix|..]);
        }
      } else {
        var ours := Begins(line, 0, prefix, s);
        if ours {
          CStringSuffix(line[..], 0, s, |prefix|);
          ReadAssignment(line, |prefix|, s[|prefix|..]);
        }
      }
    }

    /** conf_read_simple on the text of a file. */
    method ReadFile(file: string)
      requires '\0' !in prefix
      modifies this
      ensures user == ReadLines(prefix, types, map[], Lines(file))
    {
      user := map[];
      var i := 0;
      assert file[0..] == file;
      while i < |file|
        invariant 0 <= i <= |file|
        invariant ReadLines(prefix, types, user, Lines(file[i..])) == ReadLines(prefix, types, map[], Lines(file))
      {
        var line, next := GetLine(file, i);
        LinesNext(file, i, next);
        ReadLine(line, Until(file[i..next]));
        i := next;
      }
      assert file[i..] == "";
    }
  }

  /** kconfig_print_symbol, given the text of the value val: what it prints reads back as val, unless it leaves out an n. */
  method PrintSymbol(prefix: string, name: string, typ: SymType, value: string, skipUnset: bool, ghost val: Val) returns (r: string)
    requires Fits(typ, val) && value == ValueText(typ, val)
    ensures r == if skipUnset && val == TriVal(0) then "" else LineOf(prefix, name, typ, val)
    ensures var types := map[name := typ];
            r != "" && Writable(prefix, types, Entry(name, val)) ==>
              ApplyLine(types, map[], Parse(prefix, r)) == map[name := val]
  {
    ghost var types := map[name := typ];
    if Writable(prefix, types, Entry(name, val)) {
      ItemRead(prefix, types, map[], Entry(name, val));
    }
    if (typ.Boolean? || typ.Tristate?) && value[0] == 'n' {
      return if skipUnset then "" else "# " + (prefix + (name + " " + (NOT_SET + "\n")));
    }
    return prefix + (name + "=" + (value + "\n"));
  }

  /** conf_write_symbol for a symbol that reports the value val. */
  method WriteSymbol(prefix: string, name: string, typ: SymType, val: Val) returns (r: string)
    requires Fits(typ, val)
    ensures r == LineOf(prefix, name, typ, val)
  {
    if val.TextVal? && typ.Str? {
      var res := Escape(val.text);
      var value := Strdup(res, 0, Quoted(val.text));
      r := PrintSymbol(prefix, name, typ, value, false, val);
    } else {
      r := PrintSymbol(prefix, name, typ, ValueText(typ, val), false, val);
    }
  }

  method WriteItem(prefix: string, types: map<string, SymType>, item: Item) returns (r: string)
    requires item.Entry? ==> item.name in types && Fits(types[item.name], item.val)
    ensures r == ItemText(prefix, types, item)
  {
    match item
    case Entry(name, val) => r := WriteSymbol(prefix, name, types[name], val);
    case Comment(text) => r := "# " + (text + "\n");
    case Hash => r := "#\n";
    case Blank => r := "\n";
  }

  lemma TextNext(prefix: string, types: map<string, SymType>, items: seq<Item>, k: nat)
    requires k < |items| && forall j :: 0 <= j < |items| ==> Writable(prefix, types, items[j])
    ensures items[k].Entry? ==> items[k].name in types && Fits(types[items[k].name], items[k].val)
    ensures FileText(prefix, types, items[k..]) == ItemText(prefix, types, items[k]) + FileText(prefix, types, items[k + 1..])
  {
    assert Writable(prefix, types, items[k]);
    assert items[k..][1..] == items[k + 1..];
  }

  /** The write loop. */
  method WriteFile(prefix: string, types: map<string, SymType>, items: seq<Item>) returns (file: string)
    requires forall k :: 0 <= k < |items| ==> Writable(prefix, types, items[k])
    ensures file == FileText(prefix, types, items)
  {
    file := "";
    assert items[0..] == items;
    for k := 0 to |items|
      invariant file + FileText(prefix, types, items[k..]) == FileText(prefix, types, items)
    {
      TextNext(prefix, types, items, k);
      var text := WriteItem(prefix, types, items[k]);
      Regrouped(file, text, FileText(prefix, types, items[k + 1..]));
      file := file + text;
    }
    assert items[|items|..] == [];
  }

  lemma Regrouped(a: string, b: string, c: string)
    ensures a + (b + c) == (a + b) + c
  {
  }

  /** Saving and loading: whatever the prefix, the symbols and the values, what is read is what was written. */
  method SaveAndLoad(prefix: string, types: map<string, SymType>, items: seq<Item>) returns (user: map<string, Val>)
    requires '\0' !in prefix && forall k :: 0 <= k < |items| ==> Writable(prefix, types, items[k])
    ensures user == Values(map[], items)
  {
    var file := WriteFile(prefix, types, items);
    var reader := new Reader(prefix, types);
    reader.ReadFile(file);
    FileRoundTrip(prefix, types, map[], items);
    user := reader.user;
  }
}
