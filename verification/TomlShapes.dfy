/**
 What the search patterns and the parser agree on: a line the parser accepts holds no control character, and on such
 lines each pattern matches exactly what its name says.
 */
module TomlShapes {
  import opened Text
  import opened TomlLex
  import opened TomlDoc
  import opened SwitchText
  import Decimal

  // --- accepted lines hold no control character ---

  lemma CleanSplit(s: string, k: nat)
    requires k <= |s| && NoControls(s[..k]) && NoControls(s[k..])
    ensures NoControls(s)
  {
    forall i | 0 <= i < |s|
      ensures !IsControl(s[i])
    {
      if i < k {
        assert s[..k][i] == s[i];
      } else {
        assert s[k..][i - k] == s[i];
      }
    }
  }

  lemma {:induction false} SpaceClean(s: string)
    requires NoControls(SkipSpace(s))
    ensures NoControls(s)
  {
    if s != [] && IsSpace(s[0]) {
      SpaceClean(s[1..]);
      CleanSplit(s, 1);
    }
  }

  lemma TailClean(s: string)
    requires TailOk(s)
    ensures NoControls(s)
  {
    SpaceClean(s);
  }

  lemma {:induction false} HexClean(s: string)
    requires HexNumber(s).Some?
    ensures forall i :: 0 <= i < |s| ==> HexValue(s[i]).Some?
    decreases |s|
  {
    if s != [] {
      HexClean(s[..|s| - 1]);
    }
  }

  /** An escape is one letter, or `u` or `U` and hexadecimal digits. */
  lemma EscapeClean(s: string)
    requires ReadEscape(s).Some?
    ensures forall i :: 0 < i < ReadEscape(s).value.1 ==> HexValue(s[i]).Some?
    ensures NoControls(s[..ReadEscape(s).value.1])
  {
    hide HexNumber;
    if s[0] == 'u' || s[0] == 'U' {
      var d := s[1..ReadEscape(s).value.1];
      HexClean(d);
      forall i | 0 < i <= |d|
        ensures HexValue(s[i]).Some?
      {
        assert d[i - 1] == s[i];
      }
    }
  }

  lemma {:induction false} BasicClean(s: string)
    requires ReadBasic(s).Some? && NoControls(ReadBasic(s).value.1)
    ensures NoControls(s)
    decreases |s|
  {
    hide ReadEscape, HexNumber;
    if s[0] == '"' {
      CleanSplit(s, 1);
    } else if s[0] == '\\' {
      var n := ReadEscape(s[1..]).value.1;
      EscapeClean(s[1..]);
      BasicClean(s[1 + n..]);
      assert s[1..][..n] == s[1..][..n] && s[1..][n..] == s[1 + n..];
      CleanSplit(s[1..], n);
      CleanSplit(s, 1);
    } else {
      BasicClean(s[1..]);
      CleanSplit(s, 1);
    }
  }

  lemma {:induction false} LiteralClean(s: string)
    requires ReadLiteral(s).Some? && NoControls(ReadLiteral(s).value.1)
    ensures NoControls(s)
    decreases |s|
  {
    if s[0] != '\'' {
      LiteralClean(s[1..]);
    }
    CleanSplit(s, 1);
  }

  lemma KeyClean(s: string)
    requires ReadKey(s).Some? && NoControls(ReadKey(s).value.1)
    ensures NoControls(s)
  {
    hide ReadBasic, ReadLiteral;
    if s[0] == '"' {
      BasicClean(s[1..]);
      CleanSplit(s, 1);
    } else if s[0] == '\'' {
      LiteralClean(s[1..]);
      CleanSplit(s, 1);
    } else {
      CleanSplit(s, BareLength(s));
    }
  }

  lemma {:induction false} PathClean(s: string)
    requires ReadPath(s).Some? && NoControls(ReadPath(s).value.1)
    ensures NoControls(s)
    decreases |s|
  {
    hide ReadKey, SkipSpace;
    var after := ReadKey(SkipSpace(s)).value.1;
    var rest := SkipSpace(after);
    if rest[0] == '.' {
      PathClean(rest[1..]);
    }
    CleanSplit(rest, 1);
    SpaceClean(after);
    KeyClean(SkipSpace(s));
    SpaceClean(s);
  }

  lemma ValueClean(s: string)
    requires ReadValue(s).Some? && NoControls(ReadValue(s).value.1)
    ensures NoControls(s)
  {
    hide ReadBasic, ReadLiteral;
    if s[0] == '"' {
      BasicClean(s[1..]);
      CleanSplit(s, 1);
    } else if s[0] == '\'' {
      LiteralClean(s[1..]);
      CleanSplit(s, 1);
    } else if Decimal.IsDigit(s[0]) {
      var k := Decimal.Leading(s);
      forall i | 0 <= i < k
        ensures !IsControl(s[..k][i])
      {
        assert Decimal.IsDigit(s[..k][i]);
      }
      CleanSplit(s, k);
    } else if StartsWith(s, "true") {
      assert s[..4] == "true";
      CleanSplit(s, 4);
    } else {
      assert s[..5] == "false";
      CleanSplit(s, 5);
    }
  }

  lemma AssignClean(s: string)
    requires LexAssign(s).Some?
    ensures NoControls(s)
  {
    hide ReadKey, ReadValue, SkipSpace, TailOk;
    var after := ReadKey(s).value.1;
    var rest := SkipSpace(after);
    TailClean(ReadValue(SkipSpace(rest[1..])).value.1);
    ValueClean(SkipSpace(rest[1..]));
    SpaceClean(rest[1..]);
    CleanSplit(rest, 1);
    SpaceClean(after);
    KeyClean(s);
  }

  /** An accepted line is free of control characters, a carriage return among them. */
  lemma LexClean(line: string)
    requires LexLine(line).Some?
    ensures NoControls(line)
  {
    hide ReadPath, LexAssign, SkipSpace, TailOk;
    var s := SkipSpace(line);
    if s == [] || s[0] == '#' {
    } else if s[0] == '[' {
      TailClean(ReadPath(s[1..]).value.1);
      PathClean(s[1..]);
      CleanSplit(s, 1);
    } else {
      AssignClean(s);
    }
    SpaceClean(line);
  }

  lemma NoCrStrips(line: string)
    requires NoControls(line)
    ensures StripCr(line) == line && RStripCr(line) == line
  {
    if EndsWith(line, "\r") {
      assert line[|line| - 1..][0] == '\r';
      assert IsControl(line[|line| - 1]);
    }
  }

  /** On accepted text, dropping one carriage return drops them all. */
  lemma StripsAgree(line: string)
    requires NoControls(StripCr(line))
    ensures RStripCr(line) == StripCr(line)
  {
    NoCrStrips(StripCr(line));
  }

  // --- spelled keys ---

  /** What cannot continue a key. */
  predicate KeyEnds(s: string) {
    s == [] || !IsBare(s[0])
  }

  lemma SkippedEnds(s: string)
    requires SkipSpace(s) == [] || SkipSpace(s)[0] in {'.', ']', '=', '#'}
    ensures KeyEnds(s)
  {
  }

  lemma {:induction false} BareLengthOf(name: string, tail: string)
    requires (forall i :: 0 <= i < |name| ==> IsBare(name[i])) && KeyEnds(tail)
    ensures BareLength(name + tail) == |name|
  {
    if name == [] {
      assert name + tail == tail;
    } else {
      assert (name + tail)[1..] == name[1..] + tail;
      BareLengthOf(name[1..], tail);
    }
  }

  lemma {:induction false} ReadLiteralOf(name: string, tail: string)
    requires NoControls(name) && '\'' !in name
    ensures ReadLiteral(name + ("'" + tail)) == Some((name, tail))
  {
    if name == [] {
      assert name + ("'" + tail) == "'" + tail && ("'" + tail)[1..] == tail;
    } else {
      assert (name + ("'" + tail))[1..] == name[1..] + ("'" + tail);
      ReadLiteralOf(name[1..], tail);
      assert [name[0]] + name[1..] == name;
    }
  }

  lemma QuotedKey(name: string, rest: string)
    ensures ReadKey(TomlString(name) + rest) == Some((name, rest))
  {
    hide ReadBasic, Escape;
    var s := TomlString(name) + rest;
    assert s[1..] == Escape(name) + ("\"" + rest);
    ReadOfEscaped(name, rest);
  }

  lemma BareKey(name: string, rest: string)
    requires IsBareName(name) && KeyEnds(rest)
    ensures ReadKey(name + rest) == Some((name, rest))
  {
    hide ReadBasic, ReadLiteral;
    BareLengthOf(name, rest);
    assert (name + rest)[0] == name[0];
    assert (name + rest)[..|name|] == name && (name + rest)[|name|..] == rest;
  }

  /** A known spelling is a key the parser reads as the name it spells. */
  lemma SpellingReads(s: string, name: string, rest: string)
    requires AfterSpelling(s, name) == Some(rest) && KeyEnds(rest) && NoControls(s)
    ensures ReadKey(s) == Some((name, rest))
  {
    hide TomlString, ReadKey;
    if StartsWith(s, TomlString(name)) {
      assert s == TomlString(name) + rest;
      QuotedKey(name, rest);
    } else if IsBareName(name) && StartsWith(s, name) {
      assert s == name + rest;
      BareKey(name, rest);
    } else {
      LiteralKey(s, name, rest);
    }
  }

  lemma LiteralKey(s: string, name: string, rest: string)
    requires '\'' !in name && StartsWith(s, "'" + name + "'") && rest == s[|name| + 2..] && NoControls(s)
    ensures ReadKey(s) == Some((name, rest))
  {
    hide ReadBasic;
    assert s == ("'" + name + "'") + rest;
    assert s[1..] == name + ("'" + rest);
    forall i | 0 <= i < |name|
      ensures !IsControl(name[i])
    {
      assert name[i] == s[i + 1];
    }
    ReadLiteralOf(name, rest);
  }

  lemma SuffixClean(s: string, k: nat)
    requires NoControls(s) && k <= |s|
    ensures NoControls(s[k..])
  {
  }

  lemma {:induction false} SkipClean(s: string)
    requires NoControls(s)
    ensures NoControls(SkipSpace(s))
  {
    if s != [] && IsSpace(s[0]) {
      SkipClean(s[1..]);
    }
  }

  lemma AfterClean(s: string, name: string)
    requires NoControls(s) && AfterSpelling(s, name).Some?
    ensures NoControls(AfterSpelling(s, name).value)
  {
    hide TomlString;
  }

  /** What a known spelling of a key opens with. */
  lemma SpellingOpens(s: string, name: string)
    requires AfterSpelling(s, name).Some?
    ensures s != [] && s[0] !in {'[', '#', ' ', '\t'}
  {
    hide Escape;
    if StartsWith(s, TomlString(name)) {
      assert TomlString(name)[0] == '"' && s[0] == TomlString(name)[0];
    } else if IsBareName(name) && StartsWith(s, name) {
      assert s[0] == name[0];
    } else {
      assert s[0] == ("'" + name + "'")[0];
    }
  }

  // --- each pattern means what its name says ---

  lemma PathOne(s: string, key: string, after: string)
    requires ReadKey(SkipSpace(s)) == Some((key, after))
    requires SkipSpace(after) != [] && SkipSpace(after)[0] == ']'
    ensures ReadPath(s) == Some(([key], SkipSpace(after)[1..]))
  {
    hide ReadKey, SkipSpace;
  }

  lemma PathMore(s: string, first: string, after: string, path: Path, tail: string)
    requires ReadKey(SkipSpace(s)) == Some((first, after))
    requires SkipSpace(after) != [] && SkipSpace(after)[0] == '.'
    requires ReadPath(SkipSpace(after)[1..]) == Some((path, tail))
    ensures ReadPath(s) == Some(([first] + path, tail))
  {
    hide ReadKey, SkipSpace;
  }

  lemma PathTwo(s: string, first: string, after: string, second: string, tail: string)
    requires ReadKey(SkipSpace(s)) == Some((first, after))
    requires SkipSpace(after) != [] && SkipSpace(after)[0] == '.'
    requires ReadPath(SkipSpace(after)[1..]) == Some(([second], tail))
    ensures ReadPath(s) == Some(([first, second], tail))
  {
    hide ReadKey, SkipSpace, ReadPath;
    PathMore(s, first, after, [second], tail);
    assert [first] + [second] == [first, second];
  }

  lemma OneBracket(s: string)
    requires s != [] && SkipSpace(s[1..]) != [] && SkipSpace(s[1..])[0] != '['
    ensures !StartsWith(s, "[[")
  {
  }

  lemma HeaderReads(line: string, name: string)
    requires EntryHeader(line, name) && NoControls(line)
    ensures LexLine(line) == Some(Head(["switches", name]))
  {
    hide ReadKey, AfterSpelling, ReadPath;
    var s := SkipSpace(line);
    SkipClean(line);
    SuffixClean(s, 1);
    SkipClean(s[1..]);
    var a := SkipSpace(s[1..]);
    var r1 := AfterSpelling(a, "switches").value;
    AfterClean(a, "switches");
    SkipClean(r1);
    var dot := SkipSpace(r1);
    SuffixClean(dot, 1);
    SkipClean(dot[1..]);
    var b := SkipSpace(dot[1..]);
    var r2 := AfterSpelling(b, name).value;
    AfterClean(b, name);
    SkipClean(r2);
    var close := SkipSpace(r2);
    SuffixClean(close, 1);
    SkipClean(close[1..]);
    SkippedEnds(r1);
    SkippedEnds(r2);
    SpellingReads(a, "switches", r1);
    SpellingReads(b, name, r2);
    PathOne(dot[1..], name, r2);
    PathTwo(s[1..], "switches", r1, name, close[1..]);
    SpellingOpens(a, "switches");
    OneBracket(s);
  }

  lemma KeyLineReads(line: string, key: string)
    requires KeyLine(line, key) && LexLine(line).Some?
    ensures LexLine(line).value.Assign? && LexLine(line).value.key == key
  {
    hide ReadKey, AfterSpelling, ReadValue;
    LexClean(line);
    SkipClean(line);
    var s := SkipSpace(line);
    SpellingOpens(s, key);
    var r := AfterSpelling(s, key).value;
    SkippedEnds(r);
    SpellingReads(s, key, r);
  }

  // --- the header shape ---

  lemma {:induction false} RawSkipsHex(s: string, k: nat)
    requires k <= |s| && forall i :: 0 <= i < k ==> HexValue(s[i]).Some?
    ensures AfterRawBasic(s) == AfterRawBasic(s[k..])
    decreases k
  {
    if k > 0 {
      RawSkipsHex(s[1..], k - 1);
      assert s[1..][k - 1..] == s[k..];
    } else {
      assert s[0..] == s;
    }
  }

  lemma {:induction false} RawBasic(s: string)
    requires ReadBasic(s).Some?
    ensures AfterRawBasic(s) == Some(ReadBasic(s).value.1)
    decreases |s|
  {
    hide ReadEscape, HexNumber, HexValue;
    if s[0] == '\\' {
      var n := ReadEscape(s[1..]).value.1;
      EscapeClean(s[1..]);
      RawBasic(s[1 + n..]);
      forall i | 0 <= i < n - 1
        ensures HexValue(s[2..][i]).Some?
      {
        assert s[2..][i] == s[1..][i + 1];
      }
      RawSkipsHex(s[2..], n - 1);
      assert s[2..][n - 1..] == s[1 + n..];
    } else if s[0] != '"' {
      RawBasic(s[1..]);
    }
  }

  lemma {:induction false} RawLiteral(s: string)
    requires ReadLiteral(s).Some?
    ensures AfterRawLiteral(s) == Some(ReadLiteral(s).value.1)
  {
    if s[0] != '\'' {
      RawLiteral(s[1..]);
    }
  }

  lemma {:induction false} RawPath(s: string)
    requires ReadPath(s).Some?
    ensures AfterRawPath(s) == Some(ReadPath(s).value.1)
    decreases |s|
  {
    hide SkipSpace, ReadBasic, ReadLiteral, AfterRawBasic, AfterRawLiteral;
    var k := SkipSpace(s);
    if k[0] == '"' {
      RawBasic(k[1..]);
    } else if k[0] == '\'' {
      RawLiteral(k[1..]);
    }
    var rest := SkipSpace(ReadKey(k).value.1);
    if rest[0] == '.' {
      RawPath(rest[1..]);
    }
  }

  /** On an accepted line, the header pattern matches the table headers and nothing else. */
  lemma HeaderShape(line: string)
    requires LexLine(line).Some?
    ensures TableHeader(line) <==> LexLine(line).value.Head?
  {
    hide ReadPath, AfterRawPath, LexAssign;
    var s := SkipSpace(line);
    if s != [] && s[0] == '[' {
      RawPath(s[1..]);
      var tail := ReadPath(s[1..]).value.1;
      assert SkipSpace(tail) == [] || SkipSpace(tail)[0] == '#';
    } else if s != [] && s[0] != '#' {
      assert LexLine(line) == LexAssign(s);
      AssignIs(s);
    }
  }

  lemma AssignIs(s: string)
    requires LexAssign(s).Some?
    ensures LexAssign(s).value.Assign?
  {
    hide ReadKey, ReadValue, SkipSpace, TailOk;
  }
}
