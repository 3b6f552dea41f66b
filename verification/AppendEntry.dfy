/**
 Appending a table: where a file carries no entry for a name, or does not exist, the appended table's text parses to the
 old document with that entry added, on either line-ending convention.
 */
module AppendEntry {
  import opened Text
  import opened TomlValues
  import opened TomlLex
  import opened TomlDoc
  import opened SwitchText
  import opened TomlShapes
  import opened TomlLines
  import opened TomlFields
  import opened OffRewrite
  import Decimal

  /** The document with a new entry of these fields. */
  function WithEntry(d: Doc, name: string, fields: Fields): Doc {
    Doc(d.leaves + FieldLeaves(EntryPath(name), fields), d.tables + {EntryPath(name)})
  }

  // --- the header written ---

  lemma TableKeyReads(name: string, rest: string)
    requires KeyEnds(rest)
    ensures ReadKey(TableKey(name) + rest) == Some((name, rest))
      && AfterSpelling(TableKey(name) + rest, name) == Some(rest)
    ensures TableKey(name) != [] && !IsSpace(TableKey(name)[0]) && TableKey(name)[0] != '['
  {
    hide ReadKey, Escape;
    var s := TableKey(name) + rest;
    assert s[|TableKey(name)|..] == rest;
    if IsBareName(name) {
      BareKey(name, rest);
      assert s[0] == name[0] && TomlString(name)[0] == '"';
    } else {
      QuotedKey(name, rest);
    }
  }

  lemma SwitchesKey(rest: string)
    requires KeyEnds(rest)
    ensures ReadKey("switches" + rest) == Some(("switches", rest))
      && AfterSpelling("switches" + rest, "switches") == Some(rest)
  {
    hide ReadKey, AfterSpelling, TomlString;
    assert IsBareName("switches");
    assert TableKey("switches") == "switches";
    TableKeyReads("switches", rest);
  }

  lemma Unspaced(s: string)
    requires s == [] || !IsSpace(s[0])
    ensures SkipSpace(s) == s
  {
  }

  /** The header written reads as the entry's, and is one the search finds. */
  lemma HeaderWritten(name: string)
    ensures LexLine(HeaderLine(name)) == Some(Head(EntryPath(name))) && EntryHeader(HeaderLine(name), name)
  {
    hide ReadKey, AfterSpelling, ReadPath, TableKey, SkipSpace;
    var line := HeaderLine(name);
    var inner := "." + (TableKey(name) + "]");
    var key := TableKey(name) + "]";
    assert line[1..] == "switches" + inner && inner[1..] == key && "]"[1..] == "";
    TableKeyReads(name, "]");
    SwitchesKey(inner);
    Unspaced(line);
    Unspaced(line[1..]);
    Unspaced(inner);
    assert key[0] == TableKey(name)[0];
    Unspaced(key);
    Unspaced("]");
    Unspaced("");
    PathOne(key, name, "]");
    PathTwo(line[1..], "switches", inner, name, "");
    assert !StartsWith(line, "[[") by { assert line[1] == 's'; }
  }

  // --- the run ---

  lemma HeadEntry(st: St, name: string)
    requires WellBuilt(st) && EntryPath(name) !in Nodes(st.doc) && ["switches"] in st.doc.tables
    ensures StepLine(st, Head(EntryPath(name)))
      == Some(St(Doc(st.doc.leaves, st.doc.tables + {EntryPath(name)}), EntryPath(name),
        st.defined + {EntryPath(name)}))
  {
    var path := EntryPath(name);
    assert path[..1] == ["switches"] && path[..2] == path;
    forall p
      ensures p in Prefixes(path) <==> p == ["switches"] || p == path
    {
      if p in Prefixes(path) {
        var i :| 0 < i <= |path| && p == path[..i];
        assert i == 1 || i == 2;
      }
      if p == ["switches"] {
        assert p == path[..1];
      }
    }
    assert st.doc.tables + Prefixes(path) == st.doc.tables + {path};
  }

  /** After a document with no such entry, the table's lines add exactly it. */
  lemma EntryRuns(st: St, name: string, fields: Fields)
    requires WellBuilt(st) && EntryPath(name) !in Nodes(st.doc) && ["switches"] in st.doc.tables && WellKeyed(fields)
    ensures Run(st, [Some(Head(EntryPath(name)))] + Assigns(fields)).Some?
    ensures Run(st, [Some(Head(EntryPath(name)))] + Assigns(fields)).value.doc == WithEntry(st.doc, name, fields)
  {
    HeadEntry(st, name);
    RunAppend(st, [Some(Head(EntryPath(name)))], Assigns(fields));
    RunOne(st, Head(EntryPath(name)));
    var mid := StepLine(st, Head(EntryPath(name))).value;
    forall i | 0 <= i < |fields|
      ensures mid.cur + [fields[i].0] !in Nodes(mid.doc)
    {
      var p := EntryPath(name) + [fields[i].0];
      assert p[..2] == EntryPath(name);
    }
    hide StepLine, WellBuilt, EntryPath, WellKeyed;
    FieldsRun(mid, fields);
  }

  // --- the text ---

  /** One more line feed opens one more, empty line. */
  lemma SplitClosed(s: string)
    ensures s + "\n" == Terminated(SplitOn(s, '\n'), '\n')
    ensures SplitOn(s + "\n", '\n') == SplitOn(s, '\n') + [""]
  {
    var lines := SplitOn(s, '\n');
    JoinOfSplit(s, '\n');
    TerminatedIsJoin(lines, '\n');
    SplitTerminated(lines, '\n', "");
    assert s + "\n" + "" == s + "\n";
  }

  lemma BlankLast(st: St, lines: seq<string>)
    ensures Run(st, InnerAll(lines + [""])) == Run(st, InnerAll(lines))
  {
    assert InnerAll([""]) == [Some(Blank)];
    InnerAppend(lines, [""]);
    RunAppend(st, InnerAll(lines), [Some(Blank)]);
    if Run(st, InnerAll(lines)).Some? {
      RunOne(Run(st, InnerAll(lines)).value, Blank);
    }
  }

  function Closed(was: string): string {
    if EndsWith(was, "\n") then was else was + "\n"
  }

  function Spaced(was: string): string {
    if EndsWith(Closed(was), "\n\n") then Closed(was) else Closed(was) + "\n"
  }

  lemma ClosedOnce(was: string)
    ensures EndsWith(was + "\n", "\n\n") ==> EndsWith(was, "\n")
  {
    if EndsWith(was + "\n", "\n\n") {
      assert (was + "\n")[|was + "\n"| - 2..][0] == was[|was| - 1];
      assert was[|was| - 1..] == "\n";
    }
  }

  /** What stands before the new table: closed lines that run as the old text's do. */
  lemma SpacedLines(was: string) returns (parts: seq<string>)
    ensures Spaced(was) == Terminated(parts, '\n') && parts != [] && forall i :: 0 <= i < |parts| ==> '\n' !in parts[i]
    ensures Run(START, InnerAll(parts)) == Run(START, InnerAll(SplitOn(was, '\n')))
    ensures parts[|parts| - 1] == ""
  {
    hide Run, LexLine, InnerAll, SplitOn, Terminated;
    if EndsWith(was, "\n") {
      var u := was[..|was| - 1];
      assert was == u + "\n";
      SplitClosed(u);
      if EndsWith(was, "\n\n") {
        parts := SplitOn(u, '\n');
        BlankLast(START, parts);
        var v := u[..|u| - 1];
        assert u == v + "\n" by { assert was[|was| - 2..] == "\n\n"; assert u[|u| - 1] == was[|was| - 2]; }
        SplitClosed(v);
      } else {
        parts := SplitOn(was, '\n');
        SplitClosed(was);
      }
    } else {
      SplitClosed(was);
      SplitClosed(was + "\n");
      ClosedOnce(was);
      parts := SplitOn(was + "\n", '\n');
      BlankLast(START, SplitOn(was, '\n'));
    }
  }

  /** The table with its line endings is closed lines. */
  lemma {:induction false} TableClosed(table: seq<string>, crlf: bool)
    ensures JoinAll(table, if crlf then "\r\n" else "\n")
      == Terminated(WithEnding(table, if crlf then "\r" else ""), '\n')
  {
    if table != [] {
      TableClosed(table[1..], crlf);
      var suffix := if crlf then "\r" else "";
      assert table[0] + suffix + "\n" == table[0] + (if crlf then "\r\n" else "\n");
      assert WithEnding(table, suffix)[1..] == WithEnding(table[1..], suffix);
    }
  }

  function EntryTable(name: string, fields: Fields): (table: seq<string>)
    ensures |table| == |fields| + 1
  {
    [HeaderLine(name)] + FieldLines(fields)
  }

  lemma TableInner(name: string, fields: Fields, suffix: string)
    requires WellKeyed(fields) && suffix in {"", "\r"}
    ensures InnerAll(WithEnding(EntryTable(name, fields), suffix)) == [Some(Head(EntryPath(name)))] + Assigns(fields)
    ensures forall i :: 0 <= i < |fields| + 1 ==> '\n' !in WithEnding(EntryTable(name, fields), suffix)[i]
  {
    hide LexLine, Inner, HeaderLine, WellKeyed, FieldLines, EntryHeader;
    HeaderWritten(name);
    Suffixed(HeaderLine(name), suffix);
    FieldsInner(fields, suffix);
    var all := WithEnding(EntryTable(name, fields), suffix);
    assert all == [HeaderLine(name) + suffix] + WithEnding(FieldLines(fields), suffix);
    InnerAppend([HeaderLine(name) + suffix], WithEnding(FieldLines(fields), suffix));
    assert InnerAll([HeaderLine(name) + suffix]) == [Inner(HeaderLine(name) + suffix)];
  }

  /** The lines of the appended text: what stood before, the table, and the empty line after its last line feed. */
  lemma AppendedLines(was: string, name: string, fields: Fields) returns (parts: seq<string>, table: seq<string>)
    requires WellKeyed(fields)
    ensures SplitOn(Appended(was, EntryTable(name, fields)), '\n') == parts + table + [""]
    ensures parts != [] && parts[|parts| - 1] == ""
    ensures Run(START, InnerAll(parts)) == Run(START, InnerAll(SplitOn(was, '\n')))
    ensures table == WithEnding(EntryTable(name, fields), if Contains(was, "\r\n") then "\r" else "")
    ensures InnerAll(table) == [Some(Head(EntryPath(name)))] + Assigns(fields)
    ensures Spaced(was) == Terminated(parts, '\n') && forall i :: 0 <= i < |parts| ==> '\n' !in parts[i]
  {
    hide Run, LexLine, InnerAll, SplitOn, Contains, Terminated, WellKeyed, EntryTable, EndsWith, WithEnding, JoinAll;
    parts := SpacedLines(was);
    var crlf := Contains(was, "\r\n");
    var suffix := if crlf then "\r" else "";
    table := WithEnding(EntryTable(name, fields), suffix);
    TableInner(name, fields, suffix);
    TableClosed(EntryTable(name, fields), crlf);
    SplitTerminated(table, '\n', "");
    assert Terminated(table, '\n') + "" == Terminated(table, '\n');
    SplitTerminated(parts, '\n', Terminated(table, '\n'));
    SplitClean("", '\n');
    assert parts + (table + [""]) == parts + table + [""];
  }

  /** Main result: appending commutes with parsing, whatever the text's line endings and last line. */
  lemma AppendCommutes(was: string, name: string, fields: Fields)
    requires Parse(was).Some? && WellKeyed(fields)
    requires EntryPath(name) !in Nodes(Parse(was).value) && ["switches"] in Parse(was).value.tables
    ensures Parse(Appended(was, EntryTable(name, fields))) == Some(WithEntry(Parse(was).value, name, fields))
  {
    hide Run, LexLine, Inner, InnerAll, SplitOn, Appended, EntryTable, WithEnding, WithEntry, EntryPath, WellBuilt,
      Parse, WellKeyed;
    ParsedRuns(was);
    var parts, table := AppendedLines(was, name, fields);
    var lines := parts + table + [""];
    var st := Run(START, InnerAll(parts)).value;
    StartWellBuilt();
    RunWellBuilt(START, InnerAll(parts));
    EntryRuns(st, name, fields);
    InnerAppend(parts, table);
    RunAppend(START, InnerAll(parts), InnerAll(table));
    BlankLast(START, parts + table);
    ParseByLine(lines);
    ParseOf(Appended(was, EntryTable(name, fields)));
  }

  lemma StartWellBuilt()
    ensures WellBuilt(START)
  {
  }

  lemma ParseOf(text: string)
    ensures Parse(text) == match Run(START, Lexed(SplitOn(text, '\n'))) case None => None case Some(st) => Some(st.doc)
  {
  }

  // --- a file that does not exist ---

  /** The empty switches file's lines and text: what a missing file is created from. */
  function BaseLines(): seq<string> {
    ["format = 1", "", "[switches]"]
  }

  function BaseText(): string {
    "format = 1\n\n[switches]\n"
  }

  function BaseDoc(): Doc {
    Doc(map[["format"] := Scalar("int", "1")], {["switches"]})
  }

  lemma FormatLine()
    ensures LexLine("format = 1") == Some(Assign("format", Scalar("int", "1")))
  {
    hide ReadKey;
    var line := "format = 1";
    assert IsBareName("format");
    assert line == "format" + " = 1";
    BareKey("format", " = 1");
    Unspaced(line);
    assert " = 1"[1..] == "= 1" && "= 1"[1..] == " 1" && " 1"[1..] == "1";
    Unspaced("= 1");
    Unspaced("1");
    assert "1"[1..] == "" && Decimal.Leading("1") == 1;
    assert "1"[..1] == "1";
  }

  lemma SwitchesLine()
    ensures LexLine("[switches]") == Some(Head(["switches"]))
  {
    hide ReadKey, ReadPath, AfterSpelling;
    var line := "[switches]";
    Unspaced(line);
    assert line[1..] == "switches" + "]" && "]"[1..] == "";
    SwitchesKey("]");
    Unspaced(line[1..]);
    Unspaced("]");
    PathOne(line[1..], "switches", "]");
    assert !StartsWith(line, "[[") by { assert line[1] == 's'; }
    Unspaced("");
  }

  /** The state the empty file's lines reach, whichever line endings they carry. */
  function BaseState(): St {
    St(BaseDoc(), ["switches"], {["switches"]})
  }

  lemma BaseRuns()
    ensures Run(START, [Some(Assign("format", Scalar("int", "1"))), Some(Blank), Some(Head(["switches"]))])
      == Some(BaseState())
    ensures Run(START, [Some(Assign("format", Scalar("int", "1"))), Some(Head(["switches"]))]) == Some(BaseState())
  {
    var a := Assign("format", Scalar("int", "1"));
    var st := St(Doc(map[["format"] := Scalar("int", "1")], {}), [], {});
    assert [] + ["format"] == ["format"];
    assert StepLine(START, a) == Some(st);
    var h := Head(["switches"]);
    assert ["switches"][..1] == ["switches"];
    forall p
      ensures p in Prefixes(["switches"]) <==> p == ["switches"]
    {
      if p in Prefixes(["switches"]) {
        var i :| 0 < i <= 1 && p == ["switches"][..i];
      }
      assert ["switches"][..1] in Prefixes(["switches"]);
    }
    assert "switches" != "format" by { assert |"switches"| == 8 && |"format"| == 6; }
    assert ["switches"] != ["format"];
    assert Prefixes(["switches"]) == {["switches"]};
    assert {} + Prefixes(["switches"]) == {["switches"]} && {} + {["switches"]} == {["switches"]};
    assert StepLine(st, h) == Some(BaseState());
    RunTwo(START, a, h);
    RunOne(st, h);
    RunTwo(st, Blank, h);
    assert [Some(a), Some(Blank), Some(h)][1..] == [Some(Blank), Some(h)];
    assert [Some(Blank), Some(h)][1..] == [Some(h)];
  }

  lemma BaseSplits()
    ensures SplitOn(BaseText(), '\n') == BaseLines() + [""]
    ensures BaseText() == Terminated(BaseLines(), '\n')
  {
    var lines := BaseLines();
    assert Terminated(["[switches]"], '\n') == "[switches]\n";
    assert ["", "[switches]"][1..] == ["[switches]"] && lines[1..] == ["", "[switches]"];
    assert Terminated(["", "[switches]"], '\n') == "\n[switches]\n";
    assert Terminated(lines, '\n') == BaseText();
    assert BaseText() + "" == BaseText();
    SplitTerminated(lines, '\n', "");
  }

  lemma BaseParses()
    ensures Parse(BaseText()) == Some(BaseDoc())
  {
    hide LexLine, Run, BaseText;
    BaseSplits();
    FormatLine();
    SwitchesLine();
    BaseRuns();
    var lines := BaseLines() + [""];
    assert StripCr("format = 1") == "format = 1" && StripCr("[switches]") == "[switches]" && StripCr("") == "";
    assert LexLine("") == Some(Blank) by { BlankLine(); }
    assert InnerAll(BaseLines()) == [Some(Assign("format", Scalar("int", "1"))), Some(Blank), Some(Head(["switches"]))];
    BlankLast(START, BaseLines());
    ParseByLine(lines);
  }

  lemma BlankLine()
    ensures LexLine("") == Some(Blank)
  {
  }

  lemma NoCarriageReturn(s: string)
    ensures Contains(s, "\r\n") ==> '\r' in s
  {
    if Contains(s, "\r\n") {
      var i :| 0 <= i <= |s| && OccursAt("\r\n", s, i);
      assert s[i..i + 2][0] == s[i];
    }
  }

  /** The file created is the empty switches file with the table appended. */
  lemma SkeletonIsAppended(table: seq<string>)
    ensures Skeleton(table) == Appended(BaseText(), table)
  {
    var base := BaseText();
    assert base[|base| - 1..] == "\n";
    assert base[|base| - 2..] != "\n\n" by { assert base[|base| - 2] == ']'; }
    NoCarriageReturn(base);
    assert base + "\n" == "format = 1\n\n[switches]\n\n";
  }

  /** The created file parses to the empty switches file with the entry added. */
  lemma SkeletonParses(name: string, fields: Fields)
    requires WellKeyed(fields)
    ensures Parse(Skeleton(EntryTable(name, fields))) == Some(WithEntry(BaseDoc(), name, fields))
  {
    hide Parse, Appended, Skeleton, WellKeyed, BaseText, EntryTable, WithEntry;
    BaseParses();
    SkeletonIsAppended(EntryTable(name, fields));
    EntryNotBase(name);
    AppendCommutes(BaseText(), name, fields);
  }

  lemma EntryNotBase(name: string)
    ensures EntryPath(name) !in Nodes(BaseDoc())
  {
    assert |EntryPath(name)| == 2;
  }
}
