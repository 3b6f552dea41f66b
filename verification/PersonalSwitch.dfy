/**
 Personal disable and enable of an extension the clone's file carries no entry for, and the text a rewrite tears:
 disabling appends a table, enabling removes it, and together they give back the same document.
 */
module PersonalSwitch {
  import opened Text
  import opened TomlLex
  import opened TomlDoc
  import opened SwitchText
  import opened TomlShapes
  import opened TomlLines
  import opened TomlFields
  import opened OffRewrite
  import opened AppendEntry

  /** The fields of a personal off entry. */
  function OffFields(reason: Option<string>): Fields {
    [("state", "off")] + match reason case None => [] case Some(r) => [("reason", r)]
  }

  /** The new text for a name the file carries no entry for. */
  function DisableText(text: Option<string>, name: string, reason: Option<string>): string {
    match text
    case None => Skeleton(EntryTable(name, OffFields(reason)))
    case Some(was) => Appended(was, EntryTable(name, OffFields(reason)))
  }

  /** The lines left when a table is removed, the text's last line feed restored where the table carried it. */
  function Kept(text: string, span: (nat, nat)): seq<string>
    requires span.0 < span.1 <= |SplitOn(text, '\n')|
  {
    var lines := SplitOn(text, '\n');
    var kept := lines[..span.0] + lines[span.1..];
    if EndsWith(text, "\n") && kept != [] && kept[|kept| - 1] != "" then kept + [""] else kept
  }

  /** The text with the table removed, and an explicit parent header where the removal would lose the parent. */
  function EnableText(text: string, span: (nat, nat)): string
    requires span.0 < span.1 <= |SplitOn(text, '\n')|
  {
    var kept := Kept(text, span);
    var plain := JoinWith(kept, '\n');
    match Parse(plain)
    case None => plain
    case Some(d) =>
      if ["switches"] in Nodes(d) then plain
      else
        var header := "[switches]" + if Contains(text, "\r\n") then "\r" else "";
        var put := kept[..span.0] + [header] + kept[span.0..];
        JoinWith(if put[|put| - 1] == header && EndsWith(text, "\n") then put + [""] else put, '\n')
  }

  lemma OffFieldsKeyed(reason: Option<string>)
    ensures WellKeyed(OffFields(reason))
  {
    assert "state" != "reason" by { assert |"state"| == 5 && |"reason"| == 6; }
    assert IsBareName("state") && IsBareName("reason");
  }

  lemma {:induction false} EndOfLines(lines: seq<string>, i: nat)
    requires i <= |lines| && forall k :: i <= k < |lines| ==> !TableHeader(RStripCr(lines[k]))
    ensures TableEnd(lines, i) == |lines|
    decreases |lines| - i
  {
    hide TableHeader, RStripCr;
    if i < |lines| {
      EndOfLines(lines, i + 1);
    }
  }

  /** The lines after the last header run to the end of the text. */
  lemma LastTable(lines: seq<string>, i: nat)
    requires Runs(lines) && i < |lines| && forall k :: i < k < |lines| ==>
      Inner(lines[k]).Some? && !Inner(lines[k]).value.Head?
    ensures TableEnd(lines, i + 1) == |lines|
  {
    hide TableHeader, Runs, Inner, RStripCr;
    forall k | i + 1 <= k < |lines|
      ensures !TableHeader(RStripCr(lines[k]))
    {
      Accepted(lines, k);
    }
    EndOfLines(lines, i + 1);
  }

  /** The search finds the appended table, from its header to the end of the text. */
  lemma AppendedFound(lines: seq<string>, parts: seq<string>, table: seq<string>, name: string, fields: Fields,
                      suffix: string)
    requires Runs(lines) && lines == parts + table + [""] && suffix in {"", "\r"}
    requires table == WithEnding(EntryTable(name, fields), suffix)
    requires InnerAll(table) == [Some(Head(EntryPath(name)))] + Assigns(fields)
    ensures EntrySpan(lines, name) == Some((|parts|, |lines|))
  {
    hide LexLine, Runs, EntryHeader, RStripCr, EntrySpan, StripCr, HeaderLine;
    var i := |parts|;
    assert lines[i] == HeaderLine(name) + suffix;
    HeaderWritten(name);
    Suffixed(HeaderLine(name), suffix);
    LexClean(HeaderLine(name));
    HeaderStrips(HeaderLine(name), suffix);
    SpanAt(lines, name, i);
    forall k | i < k < |lines|
      ensures Inner(lines[k]).Some? && !Inner(lines[k]).value.Head?
    {
      if k == |lines| - 1 {
        BlankInner();
      } else {
        assert lines[k] == table[k - i] && InnerAll(table)[k - i] == Assigns(fields)[k - i - 1];
      }
    }
    LastTable(lines, i);
  }

  lemma BlankInner()
    ensures Inner("") == Some(Blank)
  {
  }

  lemma HeaderStrips(line: string, suffix: string)
    requires NoControls(line) && suffix in {"", "\r"}
    ensures RStripCr(line + suffix) == line
  {
    NoCrStrips(line);
    if suffix == "" {
      assert line + suffix == line;
    } else {
      assert (line + suffix)[..|line + suffix| - 1] == line;
    }
  }

  /** Enabling leaves what stood before the appended table. */
  lemma EnableLeaves(text: string, parts: seq<string>, table: seq<string>)
    requires SplitOn(text, '\n') == parts + table + [""] && table != []
    requires parts != [] && parts[|parts| - 1] == "" && forall i :: 0 <= i < |parts| ==> '\n' !in parts[i]
    requires var st := Run(START, InnerAll(parts)); st.Some? && ["switches"] in st.value.doc.tables
    ensures Parse(EnableText(text, (|parts|, |SplitOn(text, '\n')|))) == Some(Run(START, InnerAll(parts)).value.doc)
  {
    hide Run, Parse, InnerAll, SplitOn, JoinWith, EnableText, Kept;
    var span := (|parts|, |SplitOn(text, '\n')|);
    KeptParts(text, parts, table);
    ParseJoined(parts);
    PlainEnable(text, span);
  }

  lemma KeptParts(text: string, parts: seq<string>, table: seq<string>)
    requires SplitOn(text, '\n') == parts + table + [""] && table != [] && parts != [] && parts[|parts| - 1] == ""
    ensures Kept(text, (|parts|, |SplitOn(text, '\n')|)) == parts && !EndsBare(parts)
  {
    hide SplitOn;
    var lines := SplitOn(text, '\n');
    assert lines[..|parts|] + lines[|lines|..] == parts;
  }

  lemma PlainEnable(text: string, span: (nat, nat))
    requires span.0 < span.1 <= |SplitOn(text, '\n')|
    requires var kept := Parse(JoinWith(Kept(text, span), '\n')); kept.Some? && ["switches"] in kept.value.tables
    ensures EnableText(text, span) == JoinWith(Kept(text, span), '\n')
  {
    hide Parse, SplitOn, JoinWith, Kept;
  }

  /** Main result: disable then enable gives back the same document, for every file the clone's parser reads. */
  lemma DisableEnable(was: string, name: string, reason: Option<string>)
    requires Parse(was).Some? && ["switches"] in Parse(was).value.tables && EntryPath(name) !in Nodes(Parse(was).value)
    ensures var off := DisableText(Some(was), name, reason);
      && Parse(off) == Some(WithEntry(Parse(was).value, name, OffFields(reason)))
      && EntrySpan(SplitOn(off, '\n'), name).Some?
      && Parse(EnableText(off, EntrySpan(SplitOn(off, '\n'), name).value)) == Parse(was)
  {
    OffFieldsKeyed(reason);
    hide Run, Parse, InnerAll, SplitOn, Appended, EntryTable, WithEntry, WellKeyed, EnableText, EntrySpan, Contains,
      OffFields,
      Terminated, EntryPath, Nodes, EndsBare, Spaced, WithEnding;
    var fields := OffFields(reason);
    var off := Appended(was, EntryTable(name, fields));
    AppendCommutes(was, name, fields);
    ParsedRuns(was);
    ParsedRuns(off);
    var parts, table := AppendedLines(was, name, fields);
    AppendedFound(SplitOn(off, '\n'), parts, table, name, fields, if Contains(was, "\r\n") then "\r" else "");
    EnableLeaves(off, parts, table);
  }

  /** A file created by disabling is enabled back to the empty switches file. */
  lemma CreateEnable(name: string, reason: Option<string>)
    ensures var off := DisableText(None, name, reason);
      && Parse(off) == Some(WithEntry(BaseDoc(), name, OffFields(reason)))
      && EntrySpan(SplitOn(off, '\n'), name).Some?
      && Parse(EnableText(off, EntrySpan(SplitOn(off, '\n'), name).value)) == Some(BaseDoc())
  {
    hide Parse, SplitOn, Appended, Skeleton, EntryTable, WithEntry, EnableText, EntrySpan, OffFields, EntryPath, Nodes,
      BaseText;
    BaseParses();
    EntryNotBase(name);
    SkeletonIsAppended(EntryTable(name, OffFields(reason)));
    DisableEnable(BaseText(), name, reason);
  }
}
