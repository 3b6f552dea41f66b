/** The one way the off rewrite fails on the subset, shown on a text for every name, task and reason. */
module TornRewrite {
  import opened Text
  import opened TomlValues
  import opened TomlLex
  import opened TomlDoc
  import opened SwitchText
  import opened TomlShapes
  import opened TomlLines
  import opened TomlFields
  import opened OffRewrite
  import opened AppendEntry
  import opened OneEntry

  function OnFields(task: string): Fields {
    [("state", "on"), ("task", task)]
  }

  /** The entry's lines on CRLF line endings, the last of them, its task's, with no line feed. */
  function OnBody(task: string): (body: seq<string>)
    ensures |body| == 2
  {
    ["state = \"on\"\r", "task = " + TomlString(task)]
  }

  function TornText(name: string, task: string): string {
    FileText(name, OnBody(task), "\r")
  }

  lemma OnKeyed(task: string)
    ensures WellKeyed(OnFields(task))
  {
    assert "state" != "task" by { assert |"state"| == 5 && |"task"| == 4; }
  }

  lemma OnIsBody(task: string)
    ensures Body(OnBody(task), OnFields(task))
    ensures KeyLine(StripCr(OnBody(task)[0]), "state") && KeyLine(StripCr(OnBody(task)[1]), "task")
  {
    hide LexLine, Inner, KeyLine, TomlString, WellKeyed, StripCr, EndsWith;
    OnLineReads();
    TaskLineReads(task);
    OnKeyed(task);
    assert InnerAll(OnBody(task)) == Assigns(OnFields(task));
  }

  lemma OnLineReads()
    ensures var line := "state = \"on\"\r";
      Inner(line) == Some(Assign("state", Str("on"))) && '\n' !in line && KeyLine(StripCr(line), "state")
  {
    hide LexLine, Inner, KeyLine, StripCr;
    OnStateReads();
    Suffixed("state = \"on\"", "\r");
    StripOne("state = \"on\"");
    assert "state = \"on\"" + "\r" == "state = \"on\"\r";
    assert IsBareName("state");
    PairIsKeyLine("state", "\"on\"");
    assert "state" + " = " + "\"on\"" == "state = \"on\"";
  }

  lemma TaskLineReads(task: string)
    ensures var line := "task = " + TomlString(task);
      && Inner(line) == Some(Assign("task", Str(task))) && '\n' !in line && !EndsWith(line, "\r")
      && KeyLine(StripCr(line), "task")
  {
    hide LexLine, Inner, KeyLine, TomlString;
    var line := "task = " + TomlString(task);
    assert IsBareName("task");
    assert "task" + " = " + TomlString(task) == line;
    PairReads("task", task);
    Suffixed(line, "");
    assert line + "" == line;
    LexClean(line);
    NoCrStrips(line);
    PairIsKeyLine("task", TomlString(task));
  }

  /** Both pairs are found, the task's on the last line. */
  lemma TornPairs(name: string, task: string)
    ensures var lines := SplitOn(TornText(name, task), '\n');
      && |lines| == 5 && EntrySpan(lines, name) == Some((2, 5))
      && KeyPair(lines, 3, 5, "state") == Some((3, 4)) && KeyPair(lines, 3, 5, "task") == Some((4, 5))
  {
    hide Runs, EntrySpan, KeyPair, WithEntry, Parse, FileText, FileLines, OnBody, Body, KeyLine, StripCr;
    OnIsBody(task);
    FileParses(name, OnBody(task), OnFields(task), "\r");
    FileFound(name, OnBody(task), OnFields(task), "\r");
    FilePair(name, OnBody(task), OnFields(task), "\r", 0);
    FilePair(name, OnBody(task), OnFields(task), "\r", 1);
  }

  lemma TornIs(was: string, name: string, task: string, reason: string)
    requires |SplitOn(was, '\n')| == 5 && Contains(was, "\r\n")
    requires KeyPair(SplitOn(was, '\n'), 3, 5, "state") == Some((3, 4))
      && KeyPair(SplitOn(was, '\n'), 3, 5, "task") == Some((4, 5))
    ensures Torn(was, (2, 5)) && SwitchesText(Some(was), name, Some((2, 5)), task, reason).Some?
  {
    hide SplitOn, KeyPair, Contains, Edited, StateEdit, TaskEdit, JoinWith, EntryBody;
    BodyOfPairs(SplitOn(was, '\n'), 3, 5, 3, 4, task, reason, true);
  }

  /**
   Switching off that entry writes a text that is not TOML, although nothing about the file or the entry is malformed.
   */
  lemma TornHappens(name: string, task: string, newTask: string, reason: string)
    ensures var was := TornText(name, task);
      && Parse(was) == Some(WithEntry(BaseDoc(), name, OnFields(task)))
      && EntrySpan(SplitOn(was, '\n'), name) == Some((2, 5)) && Torn(was, (2, 5))
      && SwitchesText(Some(was), name, Some((2, 5)), newTask, reason).Some?
      && Parse(SwitchesText(Some(was), name, Some((2, 5)), newTask, reason).value) == None
  {
    hide Runs, EntrySpan, KeyPair, Contains, WithEntry, Parse, FieldPath, Nodes, SplitOn, FileText, OnBody, Body,
      SwitchesText, Torn;
    OnIsBody(task);
    FileParses(name, OnBody(task), OnFields(task), "\r");
    TornPairs(name, task);
    FileCrlf(name, OnBody(task));
    TornIs(TornText(name, task), name, newTask, reason);
    NoReason(name, task);
    RewriteCommutes(TornText(name, task), name, (2, 5), newTask, reason);
  }

  lemma NoReason(name: string, task: string)
    ensures FieldPath(name, "reason") !in Nodes(WithEntry(BaseDoc(), name, OnFields(task)))
  {
    FieldKeys(EntryPath(name), OnFields(task));
    hide FieldLeaves;
    OffKeys(name, "", "", true, true);
    assert |FieldPath(name, "reason")| == 3;
  }
}
