/**
 The files on which a personal disable or enable does not give the document it means to, shown for every name: a file
 left ending in a bare carriage return, a reason under a key spelled with an escape, and a table below the entry's.
 */
module PersonalFaults {
  import opened Text
  import opened TomlValues
  import opened TomlLex
  import opened TomlDoc
  import opened SwitchText
  import opened TomlShapes
  import opened TomlLines
  import opened TomlFields
  import opened OffRewrite
  import opened AppendEntry
  import opened OneEntry
  import S = PersonalSwitch
  import R = PersonalRewrite
  import E = PersonalEnable

  // --- a file left ending in a bare carriage return ---

  /** On CRLF line endings, the last line being the entry's state. */
  function TornBody(): (body: seq<string>)
    ensures |body| == 1
  {
    ["state = \"off\""]
  }

  lemma TornIsBody()
    ensures Body(TornBody(), S.OffFields(None)) && KeyLine(StripCr(TornBody()[0]), "state")
    ensures |S.OffFields(None)| == 1 && S.OffFields(None)[0].0 == "state"
  {
    hide LexLine, Inner, KeyLine;
    S.OffFieldsKeyed(None);
    WrittenLines("", "");
    Suffixed(StateLine(), "");
    assert StateLine() + "" == "state = \"off\"";
    LexClean("state = \"off\"");
    NoCrStrips("state = \"off\"");
    assert IsBareName("state");
    PairIsKeyLine("state", "\"off\"");
    assert "state" + " = " + "\"off\"" == "state = \"off\"";
    assert InnerAll(TornBody()) == [Some(Assign("state", Str("off")))];
    assert Assigns(S.OffFields(None)) == [Some(Assign("state", Str("off")))];
  }

  lemma NotClosed(text: string)
    requires var lines := SplitOn(text, '\n'); lines != [] && lines[|lines| - 1] != ""
    ensures !EndsWith(text, "\n")
  {
    hide SplitOn;
    if EndsWith(text, "\n") {
      assert text == text[..|text| - 1] + "\n";
      SplitClosed(text[..|text| - 1]);
    }
  }

  /** Disabling such an entry again, to change its reason, and enabling it: neither new text is TOML. */
  lemma TornHappens(name: string, reason: Option<string>)
    ensures var was := FileText(name, TornBody(), "\r");
      && Parse(was) == Some(WithEntry(BaseDoc(), name, S.OffFields(None)))
      && EntrySpan(SplitOn(was, '\n'), name) == Some((2, 4))
      && R.TornOff(was, (2, 4), reason) && R.DisableInPlace(was, (2, 4), reason).Some?
      && Parse(R.DisableInPlace(was, (2, 4), reason).value) == None
      && E.TornOn(was, (2, 4)) && Parse(S.EnableText(was, (2, 4))) == None
  {
    hide FileText, SplitOn, Parse, WithEntry, EntrySpan, R.TornOff, R.DisableInPlace, E.TornOn, S.EnableText, TornBody,
      Body, S.OffFields;
    TornIsBody();
    FileParses(name, TornBody(), S.OffFields(None), "\r");
    FileFound(name, TornBody(), S.OffFields(None), "\r");
    TornBoth(name, reason);
    R.DisableReads(FileText(name, TornBody(), "\r"), name, (2, 4), reason);
    E.EnableCommutes(FileText(name, TornBody(), "\r"), name, (2, 4));
  }

  lemma TornBoth(name: string, reason: Option<string>)
    ensures var was := FileText(name, TornBody(), "\r");
      && |SplitOn(was, '\n')| == 4
      && R.TornOff(was, (2, 4), reason) && R.DisableInPlace(was, (2, 4), reason).Some? && E.TornOn(was, (2, 4))
  {
    hide FileText, SplitOn, KeyPair, Contains, R.TornOff, R.DisableInPlace, E.TornOn, FileLines, TornBody;
    var was := FileText(name, TornBody(), "\r");
    TornPairs(name);
    FileCrlf(name, TornBody());
    StateFound(was, (2, 4), reason);
    TornIs(was, reason);
  }

  lemma TornPairs(name: string)
    ensures var lines := SplitOn(FileText(name, TornBody(), "\r"), '\n');
      && |lines| == 4 && KeyPair(lines, 3, 4, "state") == Some((3, 4)) && KeyPair(lines, 3, 4, "reason") == None
      && EndsWith(lines[1], "\r") && lines[3] != ""
  {
    hide FileText, SplitOn, KeyPair, Body, Inner, InnerAll, Runs, KeyLine, StripCr, EndsWith, HeaderLine, S.OffFields;
    TornIsBody();
    FileParses(name, TornBody(), S.OffFields(None), "\r");
    FilePair(name, TornBody(), S.OffFields(None), "\r", 0);
    StateReads();
    OtherKey("state = \"off\"", "reason");
    NoPair(FileLines(name, TornBody(), "\r"), 3, 4, "reason");
    EndsSuffixed("[switches]");
  }

  lemma StateReads()
    ensures Inner("state = \"off\"") == Some(Assign("state", Str("off"))) && "state" != "reason"
  {
    hide LexLine, Inner;
    WrittenLines("", "");
    Suffixed(StateLine(), "");
    assert StateLine() + "" == "state = \"off\"";
    assert |"state"| == 5 && |"reason"| == 6;
  }

  lemma EndsSuffixed(line: string)
    ensures EndsWith(line + "\r", "\r")
  {
    assert (line + "\r")[|line|..] == "\r";
  }

  lemma TornIs(was: string, reason: Option<string>)
    requires var lines := SplitOn(was, '\n');
      && |lines| == 4 && KeyPair(lines, 3, 4, "state") == Some((3, 4)) && KeyPair(lines, 3, 4, "reason") == None
      && EndsWith(lines[1], "\r") && lines[3] != ""
    requires Contains(was, "\r\n")
    ensures R.TornOff(was, (2, 4), reason) && E.TornOn(was, (2, 4))
  {
    hide SplitOn, KeyPair, Contains, EndsWith, E.ParentLost;
    NotClosed(was);
  }

  lemma StateFound(was: string, span: (nat, nat), reason: Option<string>)
    requires span.0 < span.1 <= |SplitOn(was, '\n')|
    requires KeyPair(SplitOn(was, '\n'), span.0 + 1, span.1, "state").Some?
    requires KeyPair(SplitOn(was, '\n'), span.0 + 1, span.1, "reason").None?
    ensures R.DisableInPlace(was, span, reason).Some?
  {
    hide SplitOn, KeyPair, Contains, JoinWith, Edited, R.OffEdits;
  }

  // --- a reason under an escaped key ---

  /** The key `reason` with its first letter escaped. */
  function EscapedKey(): string {
    "\"\\u0072eason\""
  }

  function EscapedBody(was: string): (body: seq<string>)
    ensures |body| == 2
  {
    ["state = \"on\"", EscapedKey() + " = " + TomlString(was)]
  }

  function EscapedFields(was: string): Fields {
    [("state", "on"), ("reason", was)]
  }

  lemma EscapedReads(rest: string)
    ensures ReadKey(EscapedKey() + rest) == Some(("reason", rest))
  {
    hide HexNumber, Escape;
    var t := "eason" + ("\"" + rest);
    var s := "\\u0072" + t;
    assert EscapedKey() + rest == "\"" + s && (EscapedKey() + rest)[1..] == s;
    EscapeOpens(t);
    LetterRead();
    EasonPlain();
    ReadOfEscaped("eason", rest);
    assert ['r'] + "eason" == "reason";
  }

  lemma EscapeOpens(t: string)
    ensures var s := "\\u0072" + t;
      s[0] == '\\' && s[1..][0] == 'u' && s[1..][1..5] == "0072" && s[6..] == t && s[1 + 5..] == t
  {
    var s := "\\u0072" + t;
    var digits := s[1..][1..5];
    assert digits[0] == s[2] && digits[1] == s[3] && digits[2] == s[4] && digits[3] == s[5];
    assert s[2] == '0' && s[3] == '0' && s[4] == '7' && s[5] == '2';
    assert |digits| == |"0072"| == 4;
    assert digits == "0072";
  }

  lemma LetterRead()
    ensures HexNumber("0072") == Some(0x72) && 0x72 as char == 'r'
  {
    assert "0"[..0] == "" && "00"[..1] == "0" && "007"[..2] == "00" && "0072"[..3] == "007";
    assert HexNumber("0") == Some(0) && HexNumber("00") == Some(0) && HexNumber("007") == Some(7);
  }

  lemma EasonPlain()
    ensures Escape("eason") == "eason"
  {
    assert "n"[1..] == "" && "on"[1..] == "n" && "son"[1..] == "on" && "ason"[1..] == "son" && "eason"[1..] == "ason";
    assert Escape("n") == "n" && Escape("on") == "on" && Escape("son") == "son" && Escape("ason") == "ason";
  }

  /** The parser takes the key for `reason`; the search does not. */
  lemma EscapedLine(was: string)
    ensures var line := EscapedKey() + " = " + TomlString(was);
      && Inner(line) == Some(Assign("reason", Str(was))) && StripCr(line) == line && !KeyLine(line, "reason")
      && '\n' !in line && line != "" && !EndsWith(line, "\r")
  {
    hide LexLine, TomlString, Inner;
    var line := EscapedKey() + " = " + TomlString(was);
    EscapedReads(" = " + TomlString(was));
    SpeltPairReads(EscapedKey(), "reason", was);
    LexClean(line);
    NoCrStrips(line);
    Suffixed(line, "");
    assert line + "" == line;
    NotSpelt(line);
  }

  lemma NotSpelt(line: string)
    requires |line| > 1 && line[0] == '"' && line[1] == '\\'
    ensures !KeyLine(line, "reason")
  {
    assert TomlString("reason")[1] == 'r' by { hide Escape; EscapesFirst(); }
    hide TomlString;
    assert SkipSpace(line) == line;
    assert "reason"[0] == 'r';
  }

  lemma EscapesFirst()
    ensures |TomlString("reason")| > 1 && TomlString("reason")[1] == 'r'
  {
    assert Escape("reason")[0] == 'r';
  }

  lemma EscapedIsBody(was: string)
    ensures Body(EscapedBody(was), EscapedFields(was))
    ensures KeyLine(StripCr(EscapedBody(was)[0]), "state")
    ensures Inner(EscapedBody(was)[0]) == Some(Assign("state", Str("on")))
      && !KeyLine(StripCr(EscapedBody(was)[1]), "reason")
  {
    hide LexLine, Inner, KeyLine, TomlString, EscapedKey, WellKeyed, EndsWith, StripCr;
    EscapedLine(was);
    OnLine();
    EscapedKeyed(was);
    assert InnerAll(EscapedBody(was)) == Assigns(EscapedFields(was));
  }

  lemma OnLine()
    ensures var line := "state = \"on\"";
      Inner(line) == Some(Assign("state", Str("on"))) && KeyLine(StripCr(line), "state") && '\n' !in line
  {
    hide LexLine, Inner, KeyLine;
    OnStateReads();
    LexClean("state = \"on\"");
    NoCrStrips("state = \"on\"");
    Suffixed("state = \"on\"", "");
    assert "state = \"on\"" + "" == "state = \"on\"";
    assert IsBareName("state");
    PairIsKeyLine("state", "\"on\"");
    assert "state" + " = " + "\"on\"" == "state = \"on\"";
  }

  lemma EscapedKeyed(was: string)
    ensures WellKeyed(EscapedFields(was))
  {
    assert IsBareName("state") && IsBareName("reason");
    assert "state" != "reason" by { assert |"state"| == 5 && |"reason"| == 6; }
  }

  lemma EscapedPairs(name: string, was: string)
    ensures var lines := SplitOn(FileText(name, EscapedBody(was), ""), '\n');
      && |lines| == 5 && KeyPair(lines, 3, 5, "state") == Some((3, 4)) && KeyPair(lines, 3, 5, "reason") == None
      && !EndsWith(lines[4], "\r")
  {
    hide FileText, SplitOn, KeyPair, Inner, InnerAll, Runs, KeyLine, StripCr, EndsWith, HeaderLine, EscapedKey,
      TomlString, WellKeyed;
    EscapedIsBody(was);
    FileParses(name, EscapedBody(was), EscapedFields(was), "");
    FilePair(name, EscapedBody(was), EscapedFields(was), "", 0);
    var lines := FileLines(name, EscapedBody(was), "");
    assert "state" != "reason" by { assert |"state"| == 5 && |"reason"| == 6; }
    OtherKey(lines[3], "reason");
    NoPair(lines, 3, 5, "reason");
  }

  lemma EscapedIs(name: string, was: string, reason: Option<string>)
    ensures var file := FileText(name, EscapedBody(was), "");
      && |SplitOn(file, '\n')| == 5 && R.DisableInPlace(file, (2, 5), reason).Some?
      && !R.TornOff(file, (2, 5), reason) && !R.ReasonFound(file, (2, 5))
  {
    hide SplitOn, KeyPair, Contains, EndsWith, FileText, EscapedBody, R.DisableInPlace;
    EscapedPairs(name, was);
    StateFound(FileText(name, EscapedBody(was), ""), (2, 5), reason);
  }

  lemma EscapedCarries(name: string, was: string)
    ensures var d := WithEntry(BaseDoc(), name, EscapedFields(was));
      FieldPath(name, "reason") in d.leaves && (FieldPath(name, "reason"), Str(was)) in R.StateOff(d, name).leaves.Items
  {
    R.SetKeys(name, None, false, false, false);
    var fields := EscapedFields(was);
    assert fields[..1] == [("state", "on")];
    FieldLeavesSplit(EntryPath(name), fields);
  }

  lemma NotPlainIs(file: string, name: string, reason: Option<string>)
    requires Parse(file).Some? && |SplitOn(file, '\n')| == 5 && !R.ReasonFound(file, (2, 5))
    requires FieldPath(name, "reason") in Parse(file).value.leaves
    ensures !R.ReasonPlain(file, name, (2, 5), reason)
  {
    hide SplitOn, Parse, FieldPath, R.ReasonFound;
  }

  /**
   Disabling an entry that carries its reason so: with a reason given the new text is not TOML, and with none the old
   reason stays.
   */
  lemma EscapedHappens(name: string, was: string, reason: Option<string>)
    ensures var file := FileText(name, EscapedBody(was), "");
      var d := WithEntry(BaseDoc(), name, EscapedFields(was));
      && Parse(file) == Some(d) && EntrySpan(SplitOn(file, '\n'), name) == Some((2, 5))
      && R.DisableInPlace(file, (2, 5), reason).Some?
      && Parse(R.DisableInPlace(file, (2, 5), reason).value)
        == (if reason.Some? then None else Some(R.StateOff(d, name)))
      && (FieldPath(name, "reason"), Str(was)) in R.StateOff(d, name).leaves.Items
  {
    hide FileText, SplitOn, Parse, WithEntry, EntrySpan, R.TornOff, R.DisableInPlace, R.ReasonPlain, EscapedBody, Body,
      EscapedFields, FieldPath, KeyPair, R.StateOff, R.ReasonFound;
    EscapedIsBody(was);
    FileParses(name, EscapedBody(was), EscapedFields(was), "");
    FileFound(name, EscapedBody(was), EscapedFields(was), "");
    EscapedCarries(name, was);
    EscapedIs(name, was, reason);
    var file := FileText(name, EscapedBody(was), "");
    NotPlainIs(file, name, reason);
    R.DisableReads(file, name, (2, 5), reason);
  }

  // --- a table below the entry's ---

  function NoteHeader(name: string): string {
    "[switches." + TableKey(name) + ".note]"
  }

  function NotePath(name: string): Path {
    EntryPath(name) + ["note"]
  }

  lemma NoteReads(name: string)
    ensures LexLine(NoteHeader(name)) == Some(Head(NotePath(name)))
  {
    hide ReadKey, AfterSpelling, ReadPath, TableKey, SkipSpace;
    var line := NoteHeader(name);
    var inner := "." + (TableKey(name) + ".note]");
    var key := TableKey(name) + ".note]";
    assert line[1..] == "switches" + inner && inner[1..] == key && ".note]"[1..] == "note]" && "]"[1..] == "";
    TableKeyReads(name, ".note]");
    SwitchesKey(inner);
    NoteKey();
    Unspaced(line);
    Unspaced(line[1..]);
    Unspaced(inner);
    assert key[0] == TableKey(name)[0];
    Unspaced(key);
    Unspaced(".note]");
    Unspaced("note]");
    Unspaced("]");
    Unspaced("");
    PathOne("note]", "note", "]");
    PathMore(key, name, ".note]", ["note"], "");
    PathMore(line[1..], "switches", inner, [name] + ["note"], "");
    assert ["switches"] + ([name] + ["note"]) == NotePath(name);
    assert !StartsWith(line, "[[") by { assert line[1] == 's'; }
  }

  lemma NoteKey()
    ensures ReadKey("note]") == Some(("note", "]"))
  {
    assert IsBareName("note");
    BareKey("note", "]");
    assert "note" + "]" == "note]";
  }

  /** The file with a table of its own below the entry's. */
  function SubtableLines(name: string): (lines: seq<string>)
    ensures |lines| == 5
  {
    FileLines(name, TornBody(), "") + [NoteHeader(name)]
  }

  function SubtableDoc(name: string): Doc {
    var d := WithEntry(BaseDoc(), name, S.OffFields(None));
    Doc(d.leaves, d.tables + {NotePath(name)})
  }

  lemma NoteOpens(st: St, name: string)
    requires WellBuilt(st) && st.doc == WithEntry(BaseDoc(), name, S.OffFields(None))
    ensures Head(NotePath(name)).path == NotePath(name) && NotePath(name) !in st.defined
    ensures StepLine(st, Head(NotePath(name))).Some?
      && StepLine(st, Head(NotePath(name))).value.doc == SubtableDoc(name)
  {
    var path, d := NotePath(name), st.doc;
    assert path[..1] == ["switches"] && path[..2] == EntryPath(name) && path[..3] == path;
    assert d.tables == {["switches"], EntryPath(name)};
    forall p
      ensures p in Prefixes(path) <==> p == ["switches"] || p == EntryPath(name) || p == path
    {
      if p in Prefixes(path) {
        var i :| 0 < i <= 3 && p == path[..i];
        assert i == 1 || i == 2 || i == 3;
      }
      if p == ["switches"] {
        assert p == path[..1];
      } else if p == EntryPath(name) {
        assert p == path[..2];
      } else if p == path {
        assert p == path[..3];
      }
    }
    assert Prefixes(path) == d.tables + {path};
    NoteNotLeaf(name);
    assert Prefixes(path) !! d.leaves.Keys;
  }

  lemma NoteNotLeaf(name: string)
    ensures NotePath(name) !in WithEntry(BaseDoc(), name, S.OffFields(None)).leaves
  {
    FieldKeys(EntryPath(name), S.OffFields(None));
    hide FieldLeaves;
    assert NotePath(name)[2] == "note" && "note" != "state" by { assert |"note"| == 4 && |"state"| == 5; }
    assert |NotePath(name)| == 3;
  }

  /** The lines run as the file's do, and then open the table below. */
  lemma SubtableRuns(name: string)
    ensures var lines := SubtableLines(name);
      && Run(START, InnerAll(lines)).Some? && Run(START, InnerAll(lines)).value.doc == SubtableDoc(name)
      && Inner(lines[4]) == Some(Head(NotePath(name))) && '\n' !in lines[4] && !EndsWith(lines[4], "\r")
  {
    hide Run, LexLine, InnerAll, WithEntry, FileLines, Body, WellBuilt, NoteHeader, SubtableDoc, TornBody, S.OffFields,
      EndsWith;
    TornIsBody();
    FileRuns(name, TornBody(), S.OffFields(None), "");
    var first := FileLines(name, TornBody(), "");
    NoteReads(name);
    Suffixed(NoteHeader(name), "");
    assert NoteHeader(name) + "" == NoteHeader(name);
    InnerAppend(first, [NoteHeader(name)]);
    assert InnerAll([NoteHeader(name)]) == [Some(Head(NotePath(name)))];
    RunAppend(START, InnerAll(first), [Some(Head(NotePath(name)))]);
    RunOne(Run(START, InnerAll(first)).value, Head(NotePath(name)));
    NoteOpens(Run(START, InnerAll(first)).value, name);
  }

  lemma SubtableClean(name: string)
    ensures var lines := SubtableLines(name);
      (forall i :: 0 <= i < 4 ==> '\n' !in lines[i]) && lines[3] == "state = \"off\""
  {
    hide FileLines, Body, InnerAll, EndsBare, S.OffFields;
    TornIsBody();
    FileClean(name, TornBody(), S.OffFields(None), "");
    FileLast(name);
  }

  lemma FileLast(name: string)
    ensures FileLines(name, TornBody(), "")[3] == "state = \"off\""
  {
  }

  lemma SubtableParses(name: string)
    ensures var lines := SubtableLines(name);
      && Parse(JoinWith(lines, '\n')) == Some(SubtableDoc(name)) && SplitOn(JoinWith(lines, '\n'), '\n') == lines
      && Runs(lines) && Inner(lines[4]) == Some(Head(NotePath(name))) && lines[3] == "state = \"off\""
  {
    hide Run, InnerAll, Inner, Parse, JoinWith, SubtableDoc, SubtableLines, EndsWith;
    SubtableRuns(name);
    SubtableClean(name);
    SplitOfJoin(SubtableLines(name), '\n');
    ParseJoined(SubtableLines(name));
  }

  lemma SubtableFound(name: string)
    ensures EntrySpan(SubtableLines(name), name) == Some((2, 4))
  {
    hide Run, Runs, EntrySpan, HeaderLine, Inner, InnerAll, TableHeader, RStripCr, TableEnd, SubtableLines;
    SubtableParses(name);
    SubtableHead(name);
    HeaderFound(SubtableLines(name), name, "");
    StateReads();
    EndsAt(SubtableLines(name));
  }

  lemma SubtableHead(name: string)
    ensures SubtableLines(name)[2] == HeaderLine(name) + ""
  {
    hide HeaderLine, NoteHeader;
  }

  lemma EndsAt(lines: seq<string>)
    requires Runs(lines) && |lines| == 5 && Inner(lines[3]).Some? && !Inner(lines[3]).value.Head?
    requires Inner(lines[4]).Some? && Inner(lines[4]).value.Head?
    ensures TableEnd(lines, 3) == 4
  {
    hide Runs, Inner, TableHeader, RStripCr;
    Accepted(lines, 3);
    Accepted(lines, 4);
    assert TableEnd(lines, 4) == 4;
  }

  lemma SubtableNotTorn(name: string)
    ensures |SplitOn(JoinWith(SubtableLines(name), '\n'), '\n')| == 5
    ensures !E.TornOn(JoinWith(SubtableLines(name), '\n'), (2, 4))
  {
    hide SplitOn, JoinWith, Contains, E.ParentLost, SubtableLines, Parse, Runs, SubtableDoc, Inner;
    SubtableParses(name);
  }

  /** Enabling such an entry leaves its table, and so an entry, without the keys the parser requires. */
  lemma SubtableHappens(name: string)
    ensures var was := JoinWith(SubtableLines(name), '\n');
      && Parse(was) == Some(SubtableDoc(name)) && EntrySpan(SplitOn(was, '\n'), name) == Some((2, 4))
      && Parse(S.EnableText(was, (2, 4))) == Some(E.Removed(SubtableDoc(name), name))
      && EntryPath(name) in E.Removed(SubtableDoc(name), name).tables
      && FieldPath(name, "state") !in E.Removed(SubtableDoc(name), name).leaves
  {
    hide SplitOn, JoinWith, Parse, EntrySpan, E.TornOn, S.EnableText, SubtableLines, E.Removed, E.Without, SubtableDoc,
      Runs, Inner;
    SubtableParses(name);
    SubtableFound(name);
    SubtableNotTorn(name);
    E.EnableCommutes(JoinWith(SubtableLines(name), '\n'), name, (2, 4));
    SubtableStays(name);
  }

  lemma SubtableStays(name: string)
    ensures var d := E.Removed(SubtableDoc(name), name);
      EntryPath(name) in d.tables && FieldPath(name, "state") !in d.leaves
  {
    assert EntryPath(name) < NotePath(name);
    assert NotePath(name) in SubtableDoc(name).tables;
    hide E.NoSubtables, WithEntry;
    assert !E.NoSubtables(SubtableDoc(name), name) by { BelowIs(SubtableDoc(name), name, NotePath(name)); }
    EntryThere(name);
    assert E.OwnKey(EntryPath(name), FieldPath(name, "state"));
  }

  lemma BelowIs(d: Doc, name: string, p: Path)
    requires p in d.tables && EntryPath(name) < p
    ensures !E.NoSubtables(d, name)
  {
  }

  lemma EntryThere(name: string)
    ensures EntryPath(name) in SubtableDoc(name).tables
  {
  }
}
