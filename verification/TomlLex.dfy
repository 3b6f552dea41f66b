/**
 One line of the line-oriented TOML v1.0.0 subset: blank or comment, a table header of bare and quoted keys,
 or a bare or quoted key assigned a one-line string, natural number or boolean.
 */
module TomlLex {
  import opened Text
  import opened TomlValues
  import Decimal

  datatype Line = Blank | Head(path: seq<string>) | Assign(key: string, value: Value)

  // --- characters ---

  predicate IsSpace(c: char) {
    c == ' ' || c == '\t'
  }

  /** Control characters TOML admits nowhere on a line; a tab is not one of them. */
  predicate IsControl(c: char) {
    ((c as int) < 0x20 && c != '\t') || c as int == 0x7F
  }

  predicate IsBare(c: char) {
    'A' <= c <= 'Z' || 'a' <= c <= 'z' || '0' <= c <= '9' || c == '_' || c == '-'
  }

  predicate NoControls(s: string) {
    forall i :: 0 <= i < |s| ==> !IsControl(s[i])
  }

  function SkipSpace(s: string): (r: string)
    ensures r == [] || !IsSpace(r[0])
    ensures |r| <= |s|
  {
    if s != [] && IsSpace(s[0]) then SkipSpace(s[1..]) else s
  }

  /** What may follow a header or a value: nothing, or a comment. */
  predicate TailOk(s: string) {
    var r := SkipSpace(s);
    r == [] || (r[0] == '#' && NoControls(r))
  }

  // --- strings ---

  function HexValue(c: char): Option<nat> {
    if '0' <= c <= '9' then Some(c as int - '0' as int)
    else if 'a' <= c <= 'f' then Some(c as int - 'a' as int + 10)
    else if 'A' <= c <= 'F' then Some(c as int - 'A' as int + 10)
    else None
  }

  function HexNumber(s: string): Option<nat> {
    if s == [] then Some(0)
    else
      match (HexNumber(s[..|s| - 1]), HexValue(s[|s| - 1]))
      case (Some(high), Some(low)) => Some(high * 16 + low)
      case _ => None
  }

  predicate IsScalarValue(v: nat) {
    v < 0xD800 || 0xE000 <= v <= 0x10FFFF
  }

  /** The character a backslash escape stands for and how long it is, given what follows the backslash. */
  function ReadEscape(s: string): (r: Option<(char, nat)>)
    ensures r.Some? ==> 1 <= r.value.1 <= |s|
  {
    if s == [] then None
    else match s[0]
      case '"' => Some(('"', 1))
      case '\\' => Some(('\\', 1))
      case 'b' => Some((0x08 as char, 1))
      case 't' => Some(('\t', 1))
      case 'n' => Some(('\n', 1))
      case 'f' => Some((0x0C as char, 1))
      case 'r' => Some(('\r', 1))
      case 'u' => ReadCodePoint(s, 4)
      case 'U' => ReadCodePoint(s, 8)
      case _ => None
  }

  function ReadCodePoint(s: string, digits: nat): (r: Option<(char, nat)>)
    requires s != []
    ensures r.Some? ==> 1 <= r.value.1 <= |s|
  {
    if |s| < digits + 1 then None
    else match HexNumber(s[1..digits + 1])
      case None => None
      case Some(v) => if IsScalarValue(v) then Some((v as char, digits + 1)) else None
  }

  /** A basic string's value and what follows its closing quote, read from after the opening quote. */
  function ReadBasic(s: string): (r: Option<(string, string)>)
    ensures r.Some? ==> |r.value.1| < |s|
    decreases |s|
  {
    if s == [] then None
    else if s[0] == '"' then Some(("", s[1..]))
    else if s[0] == '\\' then
      match ReadEscape(s[1..])
      case None => None
      case Some((c, n)) => Prepend(c, ReadBasic(s[1 + n..]))
    else if IsControl(s[0]) then None
    else Prepend(s[0], ReadBasic(s[1..]))
  }

  function Prepend(c: char, r: Option<(string, string)>): Option<(string, string)> {
    match r
    case None => None
    case Some((value, rest)) => Some(([c] + value, rest))
  }

  /** A literal string's value and what follows, read from after the opening quote. */
  function ReadLiteral(s: string): (r: Option<(string, string)>)
    ensures r.Some? ==> |r.value.1| < |s|
  {
    if s == [] then None
    else if s[0] == '\'' then Some(("", s[1..]))
    else if IsControl(s[0]) then None
    else Prepend(s[0], ReadLiteral(s[1..]))
  }

  // --- keys, headers, values ---

  function BareLength(s: string): (k: nat)
    ensures k <= |s| && (forall i :: 0 <= i < k ==> IsBare(s[i])) && (k < |s| ==> !IsBare(s[k]))
  {
    if s == [] || !IsBare(s[0]) then 0 else 1 + BareLength(s[1..])
  }

  /** A key and what follows it. */
  function ReadKey(s: string): (r: Option<(string, string)>)
    ensures r.Some? ==> |r.value.1| < |s|
  {
    if s == [] then None
    else if s[0] == '"' then ReadBasic(s[1..])
    else if s[0] == '\'' then ReadLiteral(s[1..])
    else if BareLength(s) == 0 then None
    else Some((s[..BareLength(s)], s[BareLength(s)..]))
  }

  /** The dotted keys of a header, from the first key to the closing bracket, and what follows it. */
  function ReadPath(s: string): (r: Option<(seq<string>, string)>)
    decreases |s|
  {
    match ReadKey(SkipSpace(s))
    case None => None
    case Some((key, after)) =>
      var rest := SkipSpace(after);
      if rest == [] then None
      else if rest[0] == ']' then Some(([key], rest[1..]))
      else if rest[0] == '.' then
        match ReadPath(rest[1..])
        case None => None
        case Some((path, tail)) => Some(([key] + path, tail))
      else None
  }

  /** A one-line value and what follows it. */
  function ReadValue(s: string): Option<(Value, string)> {
    if s == [] then None
    else if s[0] == '"' then
      if StartsWith(s, "\"\"\"") then None
      else match ReadBasic(s[1..])
        case None => None
        case Some((text, rest)) => Some((Str(text), rest))
    else if s[0] == '\'' then
      if StartsWith(s, "'''") then None
      else match ReadLiteral(s[1..])
        case None => None
        case Some((text, rest)) => Some((Str(text), rest))
    else if Decimal.IsDigit(s[0]) then
      var k := Decimal.Leading(s);
      if k > 1 && s[0] == '0' then None else Some((Scalar("int", s[..k]), s[k..]))
    else if StartsWith(s, "true") then Some((Scalar("bool", "True"), s[4..]))
    else if StartsWith(s, "false") then Some((Scalar("bool", "False"), s[5..]))
    else None
  }

  function LexHead(s: string): Option<Line>
    requires s != [] && s[0] == '['
  {
    if StartsWith(s, "[[") then None
    else match ReadPath(s[1..])
      case None => None
      case Some((path, tail)) => if TailOk(tail) then Some(Head(path)) else None
  }

  function LexAssign(s: string): Option<Line> {
    match ReadKey(s)
    case None => None
    case Some((key, after)) =>
      var rest := SkipSpace(after);
      if rest == [] || rest[0] != '=' then None
      else match ReadValue(SkipSpace(rest[1..]))
        case None => None
        case Some((value, tail)) => if TailOk(tail) then Some(Assign(key, value)) else None
  }

  /** One line, its line ending already removed. */
  function LexLine(line: string): Option<Line> {
    var s := SkipSpace(line);
    if s == [] || s[0] == '#' then (if NoControls(s) then Some(Blank) else None)
    else if s[0] == '[' then LexHead(s)
    else LexAssign(s)
  }

  // --- writing ---

  function HexUpper(n: nat): char
    requires n < 16
  {
    if n < 10 then '0' + n as char else 'A' + (n - 10) as char
  }

  function EscapeChar(c: char): string {
    match c
    case '"' => "\\\""
    case '\\' => "\\\\"
    case '\n' => "\\n"
    case '\r' => "\\r"
    case '\t' => "\\t"
    case _ =>
      var v := c as int;
      if v < 0x20 || v == 0x7F then ['\\', 'u', '0', '0', HexUpper(v / 16), HexUpper(v % 16)] else [c]
  }

  function Escape(s: string): string {
    if s == [] then [] else EscapeChar(s[0]) + Escape(s[1..])
  }

  /** A string as a TOML basic string. */
  function TomlString(s: string): string {
    "\"" + Escape(s) + "\""
  }

  lemma HexOfUpper(n: nat)
    requires n < 16
    ensures HexValue(HexUpper(n)) == Some(n)
  {
  }

  lemma ReadControl(v: nat, tail: string)
    requires v < 0x80
    ensures ReadEscape(['u', '0', '0', HexUpper(v / 16), HexUpper(v % 16)] + tail) == Some((v as char, 5))
  {
    var d := ['0', '0', HexUpper(v / 16), HexUpper(v % 16)];
    var s := ['u', '0', '0', HexUpper(v / 16), HexUpper(v % 16)] + tail;
    assert s[1..5] == d;
    HexOfUpper(v / 16);
    HexOfUpper(v % 16);
    assert d[..3] == ['0', '0', HexUpper(v / 16)];
    assert d[..3][..2] == ['0', '0'] && ['0', '0'][..1] == ['0'] && ['0'][..0] == [];
    assert HexNumber(['0']) == Some(0) && HexNumber(['0', '0']) == Some(0);
    assert HexNumber(d[..3]) == Some(v / 16);
    assert HexNumber(d) == Some(v / 16 * 16 + v % 16);
  }

  lemma ReadEscaped(c: char, rest: string)
    ensures ReadBasic(EscapeChar(c) + rest) == Prepend(c, ReadBasic(rest))
  {
    hide HexNumber;
    var e := EscapeChar(c);
    var s := e + rest;
    if |e| == 2 {
      assert s[1..] == [e[1]] + rest;
      assert s[2..] == rest;
    } else if |e| == 6 {
      var v := c as int;
      ReadControl(v, rest);
      assert s[1..] == ['u', '0', '0', HexUpper(v / 16), HexUpper(v % 16)] + rest;
      assert s[6..] == rest;
    } else {
      assert s[1..] == rest;
    }
  }

  lemma ReadClose(rest: string)
    ensures ReadBasic("\"" + rest) == Some(("", rest))
  {
    assert ("\"" + rest)[1..] == rest;
  }

  /** Reading undoes writing, for every string of Unicode scalar values. */
  lemma {:induction false} ReadOfEscaped(s: string, rest: string)
    ensures ReadBasic(Escape(s) + ("\"" + rest)) == Some((s, rest))
  {
    hide EscapeChar, ReadBasic;
    if s == [] {
      assert Escape(s) + ("\"" + rest) == "\"" + rest;
      ReadClose(rest);
    } else {
      ReadOfEscaped(s[1..], rest);
      ReadEscaped(s[0], Escape(s[1..]) + ("\"" + rest));
      assert Escape(s) + ("\"" + rest) == EscapeChar(s[0]) + (Escape(s[1..]) + ("\"" + rest));
      assert [s[0]] + s[1..] == s;
    }
  }
}
