/** The .config file: lines written for symbol values, and the reader that restores them. */
module ConfFile {
  import opened KconfigExpr
  import opened CStrings
  import opened ConfQuote

  /** A user value: a tristate, or the text of an int, hex or string symbol. */
  datatype Val = TriVal(tri: Tri) | TextVal(text: string)

  // ---- numbers -------------------------------------------------------------

  predicate Digit(c: char) {
    '0' <= c <= '9'
  }

  predicate HexDigit(c: char) {
    Digit(c) || 'a' <= c <= 'f' || 'A' <= c <= 'F'
  }

  function Unsigned(s: string): string {
    if s != "" && s[0] == '-' then s[1..] else s
  }

  /** An optional minus sign, then digits without a leading zero. */
  ghost predicate IsInt(s: string) {
    var t := Unsigned(s);
    t != "" && (forall k :: 0 <= k < |t| ==> Digit(t[k])) && (t[0] == '0' ==> |t| == 1)
  }

  function Unprefixed(s: string): string {
    if |s| >= 2 && s[0] == '0' && (s[1] == 'x' || s[1] == 'X') then s[2..] else s
  }

  /** An optional 0x or 0X, then hexadecimal digits. */
  ghost predicate IsHex(s: string) {
    var t := Unprefixed(s);
    t != "" && forall k :: 0 <= k < |t| ==> HexDigit(t[k])
  }

  /** sym_string_valid for int, reading characters up to the terminator. */
  method IntValid(s: string) returns (ok: bool)
    ensures ok <==> IsInt(s)
  {
    var i := 0;
    if i < |s| && s[i] == '-' {
      i := 1;
    }
    ghost var t := Unsigned(s);
    assert t == s[i..];
    if i == |s| || !Digit(s[i]) {
      return false;
    }
    if s[i] == '0' && i + 1 < |s| {
      return false;
    }
    ghost var first := i;
    while i < |s|
      invariant first <= i <= |s| && forall k :: 0 <= k < i - first ==> Digit(t[k])
    {
      if !Digit(s[i]) {
        assert !Digit(t[i - first]);
        return false;
      }
      i := i + 1;
    }
    return true;
  }

  method HexValid(s: string) returns (ok: bool)
    ensures ok <==> IsHex(s)
  {
    var i := 0;
    if |s| >= 2 && s[0] == '0' && (s[1] == 'x' || s[1] == 'X') {
      i := 2;
    }
    ghost var first, t := i, Unprefixed(s);
    assert t == s[i..];
    if i == |s| {
      return false;
    }
    while i < |s|
      invariant first <= i <= |s| && forall k :: 0 <= k < i - first ==> HexDigit(t[k])
    {
      if !HexDigit(s[i]) {
        assert !HexDigit(t[i - first]);
        return false;
      }
      i := i + 1;
    }
    return true;
  }

  // ---- assigning a text to a symbol ----------------------------------------

  /** What assigning a text to a symbol does: sets the value, leaves it alone, or is refused with a warning. */
  datatype Outcome = Stored(val: Val) | Untouched | Refused

  predicate HasFirst(s: string, c: char) {
    s != "" && s[0] == c
  }

  ghost function Assigned(typ: SymType, s: string): Outcome {
    match typ
    case Unknown => Untouched
    case Boolean | Tristate =>
      if typ.Tristate? && HasFirst(s, 'm') then Stored(TriVal(1))
      else if HasFirst(s, 'y') then Stored(TriVal(2))
      else if HasFirst(s, 'n') then Stored(TriVal(0))
      else Refused
    case Str =>
      if !HasFirst(s, '"') then Untouched
      else if Unquote(s[1..]).None? then Refused
      else Stored(TextVal(Unquote(s[1..]).value))
    case Int => if IsInt(s) then Stored(TextVal(s)) else Refused
    case Hex => if IsHex(s) then Stored(TextVal(s)) else Refused
  }

  /** conf_set_sym_val on the text at offset p of the line buffer. */
  method SetValue(typ: SymType, buf: array<char>, p: nat, ghost s: string) returns (r: Outcome)
    requires CString(buf[..], p, s)
    modifies buf
    ensures r == Assigned(typ, s)
  {
    CharAt(buf[..], p, s, 0);
    if typ.Tristate? && buf[p] == 'm' {
      r := Stored(TriVal(1));
    } else if typ.Tristate? || typ.Boolean? {
      r := if buf[p] == 'y' then Stored(TriVal(2)) else if buf[p] == 'n' then Stored(TriVal(0)) else Refused;
    } else if typ.Str? {
      if buf[p] != '"' {
        return Untouched;
      }
      CStringSuffix(buf[..], p, s, 1);
      var ok := UnquoteInPlace(buf, p + 1, s[1..]);
      if !ok {
        return Refused;
      }
      var text := Strdup(buf, p + 1, Unquote(s[1..]).value);
      r := Stored(TextVal(text));
    } else if typ.Unknown? {
      r := Untouched;
    } else {
      var text := Strdup(buf, p, s);
      var ok;
      if typ.Int? {
        ok := IntValid(text);
      } else {
        ok := HexValid(text);
      }
      r := if ok then Stored(TextVal(text)) else Refused;
    }
  }

  // ---- lines ---------------------------------------------------------------

  datatype Line = Ignored | Unset(name: string) | Assign(name: string, value: string)

  const NOT_SET := "is not set"

  function NoReturn(v: string): string {
    if v != "" && v[|v| - 1] == '\r' then v[..|v| - 1] else v
  }

  /** Cuts a value at the end of its line, dropping a carriage return before the newline. */
  function Chomp(v: string): string {
    var n := Find(v, '\n');
    if n < |v| then NoReturn(v[..n]) else v
  }

  /** A comment line after its prefix. */
  function ParseComment(rest: string): Line {
    var k := Find(rest, ' ');
    if k < |rest| && NOT_SET <= rest[k + 1..] then Unset(rest[..k]) else Ignored
  }

  /** An assignment after its prefix. */
  function ParseAssignment(rest: string): Line {
    var k := Find(rest, '=');
    if k < |rest| then Assign(rest[..k], Chomp(rest[k + 1..])) else Ignored
  }

  function Parse(prefix: string, s: string): Line {
    if HasFirst(s, '#') then
      if |s| >= 2 && prefix <= s[2..] then ParseComment(s[2 + |prefix|..]) else Ignored
    else if prefix <= s then ParseAssignment(s[|prefix|..])
    else Ignored
  }

  /** The names y, m and n denote the constants, which have no type to store a value under. */
  predicate Known(types: map<string, SymType>, name: string) {
    name in types && name != "y" && name != "m" && name != "n"
  }

  ghost function ApplyLine(types: map<string, SymType>, user: map<string, Val>, l: Line): map<string, Val> {
    match l
    case Ignored => user
    case Unset(name) =>
      if Known(types, name) && (types[name].Boolean? || types[name].Tristate?) then user[name := TriVal(0)] else user
    case Assign(name, value) =>
      if Known(types, name) && Assigned(types[name], value).Stored?
      then user[name := Assigned(types[name], value).val] else user
  }

  // ---- printing ------------------------------------------------------------

  function Letter(x: Tri): string {
    if x == 0 then "n" else if x == 1 then "m" else "y"
  }

  function ValueText(typ: SymType, val: Val): string {
    match val
    case TriVal(x) => Letter(x)
    case TextVal(t) => if typ.Str? then Quoted(t) else t
  }

  function LineOf(prefix: string, name: string, typ: SymType, val: Val): string {
    if val == TriVal(0) then "# " + (prefix + (name + " " + (NOT_SET + "\n")))
    else prefix + (name + "=" + (ValueText(typ, val) + "\n"))
  }

  /** A value a symbol of the type can have; texts are C strings without a newline. */
  predicate Fits(typ: SymType, val: Val) {
    match typ
    case Unknown => false
    case Boolean => val.TriVal? && val.tri != 1
    case Tristate => val.TriVal?
    case Int | Hex | Str => val.TextVal? && '\n' !in val.text && '\0' !in val.text
  }

  predicate PlainName(prefix: string, name: string) {
    && '\n' !in name && '\0' !in name && ' ' !in name && '=' !in name
    && name != "y" && name != "m" && name != "n"
    && '\n' !in prefix && '\0' !in prefix && !HasFirst(prefix + name, '#')
  }

  // ---- reading back one line -----------------------------------------------

  lemma UnsetLine(prefix: string, name: string, t: string)
    requires PlainName(prefix, name) && NOT_SET <= t
    ensures Parse(prefix, "# " + (prefix + (name + " " + t))) == Unset(name)
  {
    var rest := name + " " + t;
    var s := "# " + (prefix + rest);
    Dropped("# ", prefix + rest);
    Dropped(prefix, rest);
    assert s[2 + |prefix|..] == s[2..][|prefix|..];
    FindAfter(name, ' ', t);
  }

  lemma AssignLine(prefix: string, name: string, t: string)
    requires PlainName(prefix, name)
    ensures Parse(prefix, prefix + (name + "=" + t)) == Assign(name, Chomp(t))
  {
    var rest := name + "=" + t;
    Dropped(prefix, rest);
    FindAfter(name, '=', t);
    assert !HasFirst(prefix + rest, '#') by {
      assert prefix + rest == (prefix + name) + ("=" + t);
    }
  }

  lemma ChompLine(v: string)
    requires '\n' !in v
    ensures Chomp(v + "\n") == NoReturn(v)
  {
    var s := v + "\n";
    assert s[..|v|] == v;
    FindAt(s, '\n', |v|);
  }

  /** The number formats: the only texts that are refused on the way back. */
  ghost predicate Readable(typ: SymType, val: Val) {
    val.TextVal? ==> (typ.Int? ==> IsInt(val.text)) && (typ.Hex? ==> IsHex(val.text))
  }

  lemma AssignedBack(typ: SymType, val: Val)
    requires Fits(typ, val) && val != TriVal(0) && Readable(typ, val)
    ensures Assigned(typ, Chomp(ValueText(typ, val) + "\n")) == Stored(val)
  {
    var v := ValueText(typ, val);
    if val.TextVal? && typ.Str? {
      EscapedKeeps(val.text, '\n');
      UnquoteEscaped(val.text, "");
      assert Quoted(val.text)[1..] == Escaped(val.text) + "\"" + "";
    } else if val.TextVal? {
      NumberEnd(typ, val.text);
    }
    ChompLine(v);
  }

  lemma NumberEnd(typ: SymType, s: string)
    requires if typ.Int? then IsInt(s) else IsHex(s)
    ensures s != "" && s[|s| - 1] != '\r'
  {
    var t := if typ.Int? then Unsigned(s) else Unprefixed(s);
    assert t[|t| - 1] == s[|s| - 1];
  }

  /** What the reader makes of a printed line. */
  function Reparsed(name: string, typ: SymType, val: Val): Line {
    if val == TriVal(0) then Unset(name) else Assign(name, Chomp(ValueText(typ, val) + "\n"))
  }

  lemma LineParsed(prefix: string, name: string, typ: SymType, val: Val)
    requires PlainName(prefix, name)
    ensures Parse(prefix, LineOf(prefix, name, typ, val)) == Reparsed(name, typ, val)
  {
    if val == TriVal(0) {
      UnsetLine(prefix, name, NOT_SET + "\n");
    } else {
      AssignLine(prefix, name, ValueText(typ, val) + "\n");
    }
  }

  lemma ReparsedRestores(types: map<string, SymType>, user: map<string, Val>, name: string, val: Val)
    requires Known(types, name) && Fits(types[name], val) && Readable(types[name], val)
    ensures ApplyLine(types, user, Reparsed(name, types[name], val)) == user[name := val]
  {
    if val != TriVal(0) {
      AssignedBack(types[name], val);
    }
  }

  /** Reading a printed line restores the value. */
  lemma LineRestores(prefix: string, types: map<string, SymType>, user: map<string, Val>, name: string, val: Val)
    requires PlainName(prefix, name) && name in types && Fits(types[name], val) && Readable(types[name], val)
    ensures ApplyLine(types, user, Parse(prefix, LineOf(prefix, name, types[name], val))) == user[name := val]
  {
    LineParsed(prefix, name, types[name], val);
    ReparsedRestores(types, user, name, val);
  }

  lemma ReparsedLost(types: map<string, SymType>, user: map<string, Val>, name: string, val: Val)
    requires name in types && Fits(types[name], val) && !Readable(types[name], val) && name !in user
    ensures var after := ApplyLine(types, user, Reparsed(name, types[name], val)); name in after ==> after[name] != val
  {
  }

  /** The condition is exact: a text that is not a number never comes back. */
  lemma LineLost(prefix: string, types: map<string, SymType>, user: map<string, Val>, name: string, val: Val)
    requires PlainName(prefix, name) && name in types && Fits(types[name], val) && !Readable(types[name], val)
    requires name !in user
    ensures var after := ApplyLine(types, user, Parse(prefix, LineOf(prefix, name, types[name], val)));
            name in after ==> after[name] != val
  {
    LineParsed(prefix, name, types[name], val);
    ReparsedLost(types, user, name, val);
  }

  /** An int whose text is empty: its line is read as no value at all. */
  lemma EmptyNumberLost(prefix: string, name: string)
    requires PlainName(prefix, name)
    ensures var types := map[name := Int];
            Fits(Int, TextVal("")) && ApplyLine(types, map[], Parse(prefix, LineOf(prefix, name, Int, TextVal("")))) == map[]
  {
    LineParsed(prefix, name, Int, TextVal(""));
    assert ValueText(Int, TextVal("")) + "\n" == "\n";
    assert Chomp("\n") == "" && !IsInt("");
  }

  lemma NoIsUnset(types: map<string, SymType>, user: map<string, Val>, name: string)
    requires Known(types, name) && (types[name].Boolean? || types[name].Tristate?)
    ensures ApplyLine(types, user, Assign(name, "n")) == ApplyLine(types, user, Unset(name)) == user[name := TriVal(0)]
  {
  }

  /** An assignment of n, which is never written, has the effect of the comment that is. */
  lemma AssignedNo(prefix: string, types: map<string, SymType>, user: map<string, Val>, name: string)
    requires PlainName(prefix, name) && name in types && (types[name].Boolean? || types[name].Tristate?)
    ensures ApplyLine(types, user, Parse(prefix, prefix + (name + "=" + ("n" + "\n"))))
         == ApplyLine(types, user, Parse(prefix, LineOf(prefix, name, types[name], TriVal(0))))
         == user[name := TriVal(0)]
  {
    hide Parse, ApplyLine, Chomp, LineOf;
    AssignLine(prefix, name, "n" + "\n");
    LineParsed(prefix, name, types[name], TriVal(0));
    ChompN();
    NoIsUnset(types, user, name);
  }

  lemma ChompN()
    ensures Chomp("n" + "\n") == "n"
  {
    ChompLine("n");
  }

  // ---- the whole file ------------------------------------------------------

  /** What conf_write emits: a symbol, a comment line, or an empty line. */
  datatype Item = Entry(name: string, val: Val) | Comment(text: string) | Hash | Blank

  /** The length of the first line, its newline included. */
  function LineLength(s: string): (n: nat)
    requires s != ""
    ensures 0 < n <= |s|
  {
    var k := Find(s, '\n');
    if k < |s| then k + 1 else k
  }

  /** Lines with their newlines, as the line reader delivers them. */
  function Lines(file: string): seq<string> {
    if file == "" then [] else [file[..LineLength(file)]] + Lines(file[LineLength(file)..])
  }

  ghost function ReadLines(prefix: string, types: map<string, SymType>, user: map<string, Val>, lines: seq<string>)
    : map<string, Val>
    decreases |lines|
  {
    if lines == [] then user
    else ReadLines(prefix, types, ApplyLine(types, user, Parse(prefix, Until(lines[0]))), lines[1..])
  }

  /** The part of a line before an embedded NUL. */
  function Until(s: string): (t: string)
    ensures '\0' !in t && ('\0' !in s ==> t == s)
  {
    s[..Find(s, '\0')]
  }

  function ItemText(prefix: string, types: map<string, SymType>, item: Item): string
    requires item.Entry? ==> item.name in types
  {
    match item
    case Entry(name, val) => LineOf(prefix, name, types[name], val)
    case Comment(text) => "# " + (text + "\n")
    case Hash => "#\n"
    case Blank => "\n"
  }

  /** Names and comments the format can carry. */
  ghost predicate Writable(prefix: string, types: map<string, SymType>, item: Item) {
    match item
    case Entry(name, val) => PlainName(prefix, name) && name in types && Fits(types[name], val) && Readable(types[name], val)
    case Comment(text) => '\n' !in text && '\0' !in text && !(prefix <= text + "\n")
    case _ => true
  }

  ghost function FileText(prefix: string, types: map<string, SymType>, items: seq<Item>): string
    requires forall k :: 0 <= k < |items| ==> Writable(prefix, types, items[k])
  {
    if items == [] then ""
    else assert Writable(prefix, types, items[0]); ItemText(prefix, types, items[0]) + FileText(prefix, types, items[1..])
  }

  /** The values an item list assigns, later entries overriding earlier ones. */
  function Values(user: map<string, Val>, items: seq<Item>): map<string, Val>
    decreases |items|
  {
    if items == [] then user
    else Values(if items[0].Entry? then user[items[0].name := items[0].val] else user, items[1..])
  }

  ghost predicate OneLine(s: string) {
    s != "" && s[|s| - 1] == '\n' && '\n' !in s[..|s| - 1] && '\0' !in s
  }

  lemma LinesCons(s: string, rest: string)
    requires OneLine(s)
    ensures Lines(s + rest) == [s] + Lines(rest)
  {
    var n := |s| - 1;
    FindAfter(s[..n], '\n', rest);
    assert s + rest == s[..n] + ['\n'] + rest;
    assert (s + rest)[..n + 1] == s;
  }

  lemma Ended(a: string)
    requires '\n' !in a && '\0' !in a
    ensures OneLine(a + "\n")
  {
    assert (a + "\n")[..|a|] == a;
  }

  predicate Clean(s: string) {
    '\n' !in s && '\0' !in s
  }

  lemma Prefixed(a: string, b: string)
    requires Clean(a) && OneLine(b)
    ensures OneLine(a + b)
  {
    assert (a + b)[..|a + b| - 1] == a + b[..|b| - 1];
  }

  lemma EntryOneLine(prefix: string, name: string, typ: SymType, val: Val)
    requires PlainName(prefix, name) && Fits(typ, val)
    ensures OneLine(LineOf(prefix, name, typ, val))
  {
    if val == TriVal(0) {
      assert Clean(NOT_SET) && Clean(name + " ") && Clean("# ");
      Ended(NOT_SET);
      Prefixed(name + " ", NOT_SET + "\n");
      Prefixed(prefix, name + " " + (NOT_SET + "\n"));
      Prefixed("# ", prefix + (name + " " + (NOT_SET + "\n")));
    } else {
      TextClean(typ, val);
      var v := ValueText(typ, val);
      assert Clean(name + "=");
      Ended(v);
      Prefixed(name + "=", v + "\n");
      Prefixed(prefix, name + "=" + (v + "\n"));
    }
  }

  lemma TextClean(typ: SymType, val: Val)
    requires Fits(typ, val)
    ensures Clean(ValueText(typ, val))
  {
    if val.TextVal? && typ.Str? {
      EscapedKeeps(val.text, '\n');
      EscapedKeeps(val.text, '\0');
    }
  }

  lemma ItemOneLine(prefix: string, types: map<string, SymType>, item: Item)
    requires Writable(prefix, types, item)
    ensures OneLine(ItemText(prefix, types, item))
  {
    match item
    case Entry(name, val) => EntryOneLine(prefix, name, types[name], val);
    case Comment(text) =>
      Ended("# " + text);
      assert "# " + text + "\n" == "# " + (text + "\n");
    case _ =>
  }

  lemma ItemRead(prefix: string, types: map<string, SymType>, user: map<string, Val>, item: Item)
    requires Writable(prefix, types, item)
    ensures ApplyLine(types, user, Parse(prefix, ItemText(prefix, types, item)))
            == if item.Entry? then user[item.name := item.val] else user
  {
    match item
    case Entry(name, val) => LineRestores(prefix, types, user, name, val);
    case Comment(text) => Dropped("# ", text + "\n");
    case _ =>
  }

  lemma ReadStep(prefix: string, types: map<string, SymType>, user: map<string, Val>, text: string, lines: seq<string>,
                 user': map<string, Val>)
    requires '\0' !in text && ApplyLine(types, user, Parse(prefix, text)) == user'
    ensures ReadLines(prefix, types, user, [text] + lines) == ReadLines(prefix, types, user', lines)
  {
    assert ([text] + lines)[1..] == lines;
  }

  /** Writing any items and reading the file back restores every value. */
  lemma {:induction false} FileRoundTrip(prefix: string, types: map<string, SymType>, user: map<string, Val>, items: seq<Item>)
    requires forall k :: 0 <= k < |items| ==> Writable(prefix, types, items[k])
    ensures ReadLines(prefix, types, user, Lines(FileText(prefix, types, items))) == Values(user, items)
    decreases |items|
  {
    if items != [] {
      var item := items[0];
      assert Writable(prefix, types, item);
      var text, rest := ItemText(prefix, types, item), FileText(prefix, types, items[1..]);
      var user' := if item.Entry? then user[item.name := item.val] else user;
      ItemOneLine(prefix, types, item);
      ItemRead(prefix, types, user, item);
      RoundStep(prefix, types, user, text, rest, user');
      FileRoundTrip(prefix, types, user', items[1..]);
    }
  }

  lemma RoundStep(prefix: string, types: map<string, SymType>, user: map<string, Val>, text: string, rest: string,
                  user': map<string, Val>)
    requires OneLine(text) && ApplyLine(types, user, Parse(prefix, text)) == user'
    ensures ReadLines(prefix, types, user, Lines(text + rest)) == ReadLines(prefix, types, user', Lines(rest))
  {
    LinesCons(text, rest);
    ReadStep(prefix, types, user, text, Lines(rest), user');
  }

  /** An entry that no later one overrides has its value in the result. */
  lemma {:induction false} ValuesLast(user: map<string, Val>, items: seq<Item>, k: nat)
    requires k < |items| && items[k].Entry?
    requires forall l :: k < l < |items| && items[l].Entry? ==> items[l].name != items[k].name
    ensures var v := Values(user, items); items[k].name in v && v[items[k].name] == items[k].val
    decreases |items|
  {
    var user' := if items[0].Entry? then user[items[0].name := items[0].val] else user;
    if k > 0 {
      ValuesLast(user', items[1..], k - 1);
    } else {
      ValuesKept(user', items[1..], items[0].name);
    }
  }

  lemma {:induction false} ValuesKept(user: map<string, Val>, items: seq<Item>, name: string)
    requires name in user && forall l :: 0 <= l < |items| && items[l].Entry? ==> items[l].name != name
    ensures var v := Values(user, items); name in v && v[name] == user[name]
    decreases |items|
  {
    if items != [] {
      var user' := if items[0].Entry? then user[items[0].name := items[0].val] else user;
      ValuesKept(user', items[1..], name);
    }
  }
}
