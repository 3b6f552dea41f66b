/** A switches file of one entry: its lines read, its table found, and the pairs on its lines found. */
module OneEntry {
  import opened Text
  import opened TomlValues
  import opened TomlLex
  import opened TomlDoc
  import opened SwitchText
  import opened TomlShapes
  import opened TomlLines
  import opened TomlFields
  import opened OffRewrite
  import opened AppendEntry
  import S = PersonalSwitch

  /** The lines of a file whose one entry has these lines, the last of them without a line feed. */
  function FileLines(name: string, body: seq<string>, suffix: string): (lines: seq<string>)
    ensures |lines| == 3 + |body|
  {
    ["format = 1" + suffix, "[switches]" + suffix, HeaderLine(name) + suffix] + body
  }

  function FileText(name: string, body: seq<string>, suffix: string): string {
    JoinWith(FileLines(name, body, suffix), '\n')
  }

  function BaseRead(): (out: seq<Option<Line>>)
    ensures |out| == 2
  {
    [Some(Assign("format", Scalar("int", "1"))), Some(Head(["switches"]))]
  }

  /** The entry's own lines, as the runs read them. */
  ghost predicate Body(body: seq<string>, fields: Fields) {
    && body != [] && WellKeyed(fields) && InnerAll(body) == Assigns(fields)
    && (forall i :: 0 <= i < |body| ==> '\n' !in body[i]) && !EndsWith(body[|body| - 1], "\r") && body[|body| - 1] != ""
  }

  lemma FileInner(name: string, body: seq<string>, suffix: string)
    requires suffix in {"", "\r"}
    ensures InnerAll(FileLines(name, body, suffix)) == BaseRead() + ([Some(Head(EntryPath(name)))] + InnerAll(body))
    ensures forall i :: 0 <= i < 3 ==> '\n' !in FileLines(name, body, suffix)[i]
  {
    hide LexLine, Inner, HeaderLine, EntryHeader, InnerAll;
    FormatLine();
    SwitchesLine();
    HeaderWritten(name);
    Suffixed("format = 1", suffix);
    Suffixed("[switches]", suffix);
    Suffixed(HeaderLine(name), suffix);
    var head := ["format = 1" + suffix, "[switches]" + suffix, HeaderLine(name) + suffix];
    InnerAppend(head, body);
    assert InnerAll(head) == BaseRead() + [Some(Head(EntryPath(name)))];
  }

  /** The state the entry's lines reach. */
  lemma FileRuns(name: string, body: seq<string>, fields: Fields, suffix: string)
    requires Body(body, fields) && suffix in {"", "\r"}
    ensures var st := Run(START, InnerAll(FileLines(name, body, suffix)));
      st.Some? && WellBuilt(st.value) && st.value.doc == WithEntry(BaseDoc(), name, fields)
  {
    hide Run, StepLine, InnerAll, WithEntry, EntryPath, FileLines, WellKeyed, WellBuilt;
    FileInner(name, body, suffix);
    BaseRuns();
    RunAppend(START, BaseRead(), [Some(Head(EntryPath(name)))] + Assigns(fields));
    StartWellBuilt();
    RunWellBuilt(START, BaseRead());
    EntryNotBase(name);
    EntryRuns(BaseState(), name, fields);
    RunWellBuilt(START, InnerAll(FileLines(name, body, suffix)));
  }

  lemma BodyClean(body: seq<string>, fields: Fields)
    requires Body(body, fields)
    ensures body != [] && !EndsWith(body[|body| - 1], "\r") && forall i :: 0 <= i < |body| ==> '\n' !in body[i]
  {
    hide InnerAll, EndsWith, WellKeyed;
  }

  lemma FileClean(name: string, body: seq<string>, fields: Fields, suffix: string)
    requires Body(body, fields) && suffix in {"", "\r"}
    ensures var lines := FileLines(name, body, suffix);
      !EndsBare(lines) && forall i :: 0 <= i < |lines| ==> '\n' !in lines[i]
  {
    hide Body, InnerAll, EndsWith, HeaderLine;
    BodyClean(body, fields);
    FileInner(name, body, suffix);
    var lines := FileLines(name, body, suffix);
    assert lines[|lines| - 1] == body[|body| - 1];
    forall i | 0 <= i < |lines|
      ensures '\n' !in lines[i]
    {
      if i >= 3 {
        assert lines[i] == body[i - 3];
      }
    }
  }

  /** The file parses to its one entry. */
  lemma FileParses(name: string, body: seq<string>, fields: Fields, suffix: string)
    requires Body(body, fields) && suffix in {"", "\r"}
    ensures Parse(FileText(name, body, suffix)) == Some(WithEntry(BaseDoc(), name, fields))
    ensures SplitOn(FileText(name, body, suffix), '\n') == FileLines(name, body, suffix)
      && Runs(FileLines(name, body, suffix))
  {
    hide Run, InnerAll, WithEntry, FileLines, Parse, Body, JoinWith, EndsBare;
    FileRuns(name, body, fields, suffix);
    FileClean(name, body, fields, suffix);
    SplitOfJoin(FileLines(name, body, suffix), '\n');
    ParseJoined(FileLines(name, body, suffix));
  }

  lemma HeaderFound(lines: seq<string>, name: string, suffix: string)
    requires Runs(lines) && 2 < |lines| && lines[2] == HeaderLine(name) + suffix && suffix in {"", "\r"}
    ensures EntrySpan(lines, name) == Some((2, TableEnd(lines, 3)))
  {
    hide Run, LexLine, Runs, EntryHeader, RStripCr, EntrySpan, HeaderLine, Inner, TableEnd;
    HeaderWritten(name);
    LexClean(HeaderLine(name));
    S.HeaderStrips(HeaderLine(name), suffix);
    SpanAt(lines, name, 2);
  }

  lemma FileKeys(name: string, body: seq<string>, fields: Fields, suffix: string)
    requires Body(body, fields)
    ensures var lines := FileLines(name, body, suffix);
      forall k :: 2 < k < |lines| ==> Inner(lines[k]).Some? && !Inner(lines[k]).value.Head?
  {
    hide HeaderLine, Inner, WellKeyed, EndsWith;
    var lines := FileLines(name, body, suffix);
    forall k | 2 < k < |lines|
      ensures Inner(lines[k]).Some? && !Inner(lines[k]).value.Head?
    {
      assert lines[k] == body[k - 3] && InnerAll(body)[k - 3] == Assigns(fields)[k - 3];
    }
  }

  /** The search finds the entry, to the end of the text. */
  lemma FileFound(name: string, body: seq<string>, fields: Fields, suffix: string)
    requires Body(body, fields) && suffix in {"", "\r"}
    ensures EntrySpan(FileLines(name, body, suffix), name) == Some((2, 3 + |body|))
  {
    hide Run, Runs, EntrySpan, HeaderLine, Inner, InnerAll, TableEnd;
    var lines := FileLines(name, body, suffix);
    FileParses(name, body, fields, suffix);
    FileKeys(name, body, fields, suffix);
    HeaderFound(lines, name, suffix);
    S.LastTable(lines, 2);
  }

  /** A pair written on one of the entry's lines is found there. */
  lemma FilePair(name: string, body: seq<string>, fields: Fields, suffix: string, k: nat)
    requires Body(body, fields) && suffix in {"", "\r"} && k < |body| && k < |fields|
    requires KeyLine(StripCr(body[k]), fields[k].0)
    ensures KeyPair(FileLines(name, body, suffix), 3, 3 + |body|, fields[k].0) == Some((3 + k, 4 + k))
  {
    hide Run, Runs, EntrySpan, HeaderLine, Inner, StripCr, KeyLine, KeyPair, TableOwn, InnerAll, Found;
    var lines := FileLines(name, body, suffix);
    FileParses(name, body, fields, suffix);
    FileFound(name, body, fields, suffix);
    var a := FoundTable(lines, name, (2, 3 + |body|));
    PairAt(lines, 3, 3 + |body|, fields[k].0, a, 3 + k);
  }

  // --- single lines ---

  lemma OnStateReads()
    ensures LexLine("state = \"on\"") == Some(Assign("state", Str("on")))
  {
    hide LexLine;
    assert "on"[1..] == "n" && "n"[1..] == "";
    assert Escape("n") == "n" && Escape("on") == "on";
    assert "state" + " = " + TomlString("on") == "state = \"on\"";
    PairReads("state", "on");
  }

  lemma BareSpelling(key: string, rest: string)
    requires IsBareName(key)
    ensures AfterSpelling(key + rest, key) == Some(rest)
  {
    hide Escape;
    assert (key + rest)[0] == key[0] && TomlString(key)[0] == '"';
    assert (key + rest)[|key|..] == rest;
  }

  lemma PairIsKeyLine(key: string, value: string)
    requires IsBareName(key)
    ensures KeyLine(key + " = " + value, key)
  {
    hide AfterSpelling;
    var rest := " = " + value;
    assert key + " = " + value == key + rest;
    BareSpelling(key, rest);
    assert (key + rest)[0] == key[0];
    Unspaced(key + rest);
    assert rest[1..] == "= " + value;
    Unspaced(rest[1..]);
  }

  lemma StripOne(line: string)
    ensures StripCr(line + "\r") == line
  {
    assert (line + "\r")[|line|..] == "\r" && (line + "\r")[..|line|] == line;
  }

  lemma FileCrlf(name: string, body: seq<string>)
    ensures Contains(FileText(name, body, "\r"), "\r\n")
  {
    hide Contains, HeaderLine, JoinWith;
    var lines := FileLines(name, body, "\r");
    var rest := JoinWith(lines[1..], '\n');
    JoinFirst(lines);
    ContainsMiddle("format = 1", "\r\n", rest);
    assert lines[0] + "\n" + rest == "format = 1" + "\r\n" + rest;
  }

  lemma JoinFirst(lines: seq<string>)
    requires |lines| > 1
    ensures JoinWith(lines, '\n') == lines[0] + "\n" + JoinWith(lines[1..], '\n')
  {
  }

  lemma OtherKey(line: string, key: string)
    requires Inner(line).Some? && Inner(line).value.Assign? && Inner(line).value.key != key
    ensures !KeyLine(StripCr(line), key)
  {
    hide LexLine, KeyLine, StripCr;
    if KeyLine(StripCr(line), key) {
      KeyLineReads(StripCr(line), key);
    }
  }

  lemma NoPair(lines: seq<string>, lo: nat, hi: nat, key: string)
    requires lo <= hi <= |lines| && forall k :: lo <= k < hi ==> !KeyLine(StripCr(lines[k]), key)
    ensures KeyPair(lines, lo, hi, key) == None
  {
    hide KeyLine, StripCr, ParsesAlone, FirstParse;
    MatchingNone(lines, lo, hi, IsKeyLine(key));
  }
}
