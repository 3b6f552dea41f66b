/**
 The off command end to end: the text it writes, read back as the readers see it, is the old file with one entry off,
 so its own verification accepts it, and so does the merge gate's lane.
 */
module SwitchOff {
  import opened Text
  import opened TomlValues
  import opened TomlLex
  import opened TomlDoc
  import opened SwitchText
  import opened TomlLines
  import opened TomlFields
  import opened OffRewrite
  import opened AppendEntry
  import opened Switches
  import JournalPaths

  // --- documents as nested values ---

  /** A parsed document: a tree whose leaves are no tables. */
  ghost predicate Built(d: Doc) {
    && d.leaves.Keys !! d.tables && [] !in Nodes(d)
    && (forall p, i :: p in Nodes(d) && 0 < i < |p| ==> p[..i] in d.tables)
    && (forall p :: p in d.leaves ==> !d.leaves[p].Table?)
  }

  lemma LexFlat(line: string)
    requires LexLine(line).Some? && LexLine(line).value.Assign?
    ensures !LexLine(line).value.value.Table?
  {
    hide ReadKey, ReadPath, ReadBasic, ReadLiteral, SkipSpace, TailOk;
  }

  lemma {:induction false} RunFlat(st: St, lines: seq<Option<Line>>)
    requires Run(st, lines).Some? && forall p :: p in st.doc.leaves ==> !st.doc.leaves[p].Table?
    requires forall i :: 0 <= i < |lines| && lines[i].Some? && lines[i].value.Assign? ==> !lines[i].value.value.Table?
    ensures forall p :: p in Run(st, lines).value.doc.leaves ==> !Run(st, lines).value.doc.leaves[p].Table?
    decreases |lines|
  {
    if lines != [] {
      RunFlat(StepLine(st, lines[0].value).value, lines[1..]);
    }
  }

  lemma ParsedBuilt(text: string)
    requires Parse(text).Some?
    ensures Built(Parse(text).value)
  {
    hide LexLine, Run;
    var lines := SplitOn(text, '\n');
    ParsedRuns(text);
    StartWellBuilt();
    RunWellBuilt(START, InnerAll(lines));
    forall i | 0 <= i < |lines| && InnerAll(lines)[i].Some? && InnerAll(lines)[i].value.Assign?
      ensures !InnerAll(lines)[i].value.value.Table?
    {
      LexFlat(StripCr(lines[i]));
    }
    RunFlat(START, InnerAll(lines));
  }

  /** The document with the entry's fields set and its table there. */
  function WithOff(d: Doc, name: string, task: string, reason: string): Doc {
    Doc(d.leaves + OffLeaves(name, task, reason, true, true), d.tables + {EntryPath(name)})
  }

  lemma OffLeafPaths(name: string, task: string, reason: string, p: Path)
    ensures p in OffLeaves(name, task, reason, true, true) ==>
      |p| == 3 && p[..1] == ["switches"] && p[..2] == EntryPath(name)
    ensures p in OffLeaves(name, task, reason, true, true) ==> p[2] in {"state", "task", "reason"}
  {
    OffKeys(name, task, reason, true, true);
  }

  lemma OffLeavesApart(name: string, task: string, reason: string, path: Path, p: Path)
    ensures path <= p && p in OffLeaves(name, task, reason, true, true) ==>
      path <= EntryPath(name) || (EntryPath(name) < path && |path| == 3 && path[2] in {"state", "task", "reason"})
  {
    OffLeafPaths(name, task, reason, p);
    if path <= p && p in OffLeaves(name, task, reason, true, true) {
      if |path| <= 2 {
        assert path == p[..2][..|path|];
      } else {
        assert path == p && EntryPath(name) == p[..2];
      }
    }
  }

  /** Outside the entry, nothing of the nested view moves. */
  lemma OutsideSame(d: Doc, name: string, task: string, reason: string, path: Path)
    requires path != [] && !(path <= EntryPath(name))
      && !(EntryPath(name) < path && |path| == 3 && path[2] in {"state", "task", "reason"})
    ensures ValueAt(WithOff(d, name, task, reason), path) == ValueAt(d, path)
    ensures path in Nodes(WithOff(d, name, task, reason)) <==> path in Nodes(d)
  {
    hide OffLeaves, EntryPath, ValueAt;
    var d' := WithOff(d, name, task, reason);
    forall p | path <= p
      ensures p in d'.tables <==> p in d.tables
      ensures p !in OffLeaves(name, task, reason, true, true)
    {
      OffLeavesApart(name, task, reason, path, p);
      PrefixLonger(path, p, EntryPath(name));
    }
    ValueLocal(d', d, path);
  }

  lemma PrefixLonger(path: Path, p: Path, q: Path)
    ensures path <= p && p == q ==> path <= q
  {
  }

  /** The paths the entry hangs from stay tables, and its three fields are leaves. */
  lemma WithOffPaths(d: Doc, name: string, task: string, reason: string)
    requires Built(d) && EntryPath(name) !in d.leaves
    ensures var d' := WithOff(d, name, task, reason);
      && [] !in d.leaves && [] !in d'.leaves && EntryPath(name) !in d'.leaves && EntryPath(name) in Nodes(d')
      && (["switches"] in d.tables ==>
        ["switches"] !in d.leaves && ["switches"] !in d'.leaves && ["switches"] in Nodes(d'))
      && (forall k :: k in {"state", "task", "reason"} ==>
            FieldPath(name, k) in Nodes(d')
              && ValueAt(d', FieldPath(name, k))
              == Str(if k == "state" then "off" else if k == "task" then task else reason))
  {
    OffKeys(name, task, reason, true, true);
    OffLeafPaths(name, task, reason, EntryPath(name));
    OffLeafPaths(name, task, reason, ["switches"]);
    OffLeafPaths(name, task, reason, []);
    KeysDiffer();
  }

  /** The entry's table gains exactly the three fields. */
  lemma EntryOff(d: Doc, name: string, task: string, reason: string)
    requires Built(d) && EntryPath(name) !in d.leaves
    ensures var was := ValueAt(d, EntryPath(name));
      was.Table? && ValueAt(WithOff(d, name, task, reason), EntryPath(name))
        == Table(OffEntry(was.entries, task, reason))
  {
    hide ValueAt, WithOff, Nodes, Built;
    var d' := WithOff(d, name, task, reason);
    var path := EntryPath(name);
    WithOffPaths(d, name, task, reason);
    KeysDiffer();
    EntryAt(d, path, "state");
    EntryAt(d', path, "state");
    var was, now := ValueAt(d, path).entries, ValueAt(d', path).entries;
    forall k
      ensures k in now <==> k in OffEntry(was, task, reason)
      ensures k in now ==> now[k] == OffEntry(was, task, reason)[k]
    {
      EntryAt(d, path, k);
      EntryAt(d', path, k);
      assert path + [k] == FieldPath(name, k) && (path + [k])[2] == k;
      if k !in {"state", "task", "reason"} {
        OutsideSame(d, name, task, reason, path + [k]);
      }
    }
    assert now == OffEntry(was, task, reason);
  }

  /** The switches table changes in the one entry. */
  lemma TableOff(d: Doc, name: string, task: string, reason: string)
    requires Built(d) && ["switches"] in d.tables && EntryPath(name) !in d.leaves
    ensures var was := ValueAt(d, ["switches"]);
      && was.Table? && (name in was.entries <==> EntryPath(name) in d.tables)
      && (name in was.entries ==> was.entries[name] == ValueAt(d, EntryPath(name)))
      && ValueAt(WithOff(d, name, task, reason), ["switches"])
         == Table(was.entries[name := ValueAt(WithOff(d, name, task, reason), EntryPath(name))])
  {
    var d' := WithOff(d, name, task, reason);
    var s := ["switches"];
    assert EntryPath(name) in d.tables <==> EntryPath(name) in Nodes(d);
    hide ValueAt, WithOff, Nodes, Built, EntryPath;
    assert s + [name] == EntryPath(name) by { EntryOf(name); }
    TableKeyOff(d, name, task, reason, name);
    EntryAt(d, s, name);
    var was, now, entry := ValueAt(d, s).entries, ValueAt(d', s).entries, ValueAt(d', EntryPath(name));
    forall n
      ensures (n in now <==> n == name || n in was) && (n in now ==> now[n] == if n == name then entry else was[n])
    {
      TableKeyOff(d, name, task, reason, n);
    }
    OneKeySet(was, now, name, entry);
  }

  lemma OneKeySet(was: map<string, Value>, now: map<string, Value>, name: string, entry: Value)
    requires forall n ::
      (n in now <==> n == name || n in was) && (n in now ==> now[n] == if n == name then entry else was[n])
    ensures now == was[name := entry]
  {
  }

  lemma EntryOf(name: string)
    ensures ["switches"] + [name] == EntryPath(name)
  {
  }

  /** One key of the switches table, before and after. */
  lemma TableKeyOff(d: Doc, name: string, task: string, reason: string, n: string)
    requires Built(d) && ["switches"] in d.tables && EntryPath(name) !in d.leaves
    ensures var was, now := ValueAt(d, ["switches"]), ValueAt(WithOff(d, name, task, reason), ["switches"]);
      && was.Table? && now.Table? && (n in now.entries <==> n == name || n in was.entries)
      && (n in now.entries ==>
            now.entries[n]
            == if n == name then ValueAt(WithOff(d, name, task, reason), EntryPath(name)) else was.entries[n])
  {
    var s := ["switches"];
    assert s + [name] == EntryPath(name) && (s + [n])[1] == n && EntryPath(name)[1] == name;
    hide ValueAt, WithOff, Nodes, Built, EntryPath;
    WithOffPaths(d, name, task, reason);
    EntryAt(d, s, n);
    EntryAt(WithOff(d, name, task, reason), s, n);
    if n != name {
      OutsideSame(d, name, task, reason, s + [n]);
    }
  }

  lemma NoChildren(d: Doc, path: Path)
    requires Built(d) && path != [] && path !in Nodes(d)
    ensures ValueAt(d, path) == Table(map[])
  {
    TableAt(d, path);
    forall k
      ensures path + [k] !in Nodes(d)
    {
      assert (path + [k])[..|path|] == path;
    }
    assert ValueAt(d, path).entries == map[];
  }

  lemma TopKey(d: Doc, name: string, task: string, reason: string, k: string)
    requires Built(d) && ["switches"] in d.tables && EntryPath(name) !in d.leaves
    ensures var d' := WithOff(d, name, task, reason);
      && Root(d).Table? && Root(d').Table?
      && (k == "switches" ==> k in Root(d).entries && k in Root(d').entries)
      && (k == "switches" ==> Root(d).entries[k] == ValueAt(d, [k]) && Root(d').entries[k] == ValueAt(d', [k]))
      && (k != "switches" ==> (k in Root(d).entries <==> k in Root(d').entries))
      && (k != "switches" && k in Root(d).entries ==> Root(d).entries[k] == Root(d').entries[k])
  {
    var d' := WithOff(d, name, task, reason);
    assert ["switches"] in Nodes(d);
    hide ValueAt, WithOff, Nodes, Built;
    WithOffPaths(d, name, task, reason);
    EntryAt(d, [], k);
    EntryAt(d', [], k);
    assert [] + [k] == [k] && [k][0] == k && EntryPath(name)[0] == "switches";
    if k != "switches" {
      OutsideSame(d, name, task, reason, [k]);
    }
  }

  /** The document's top changes in the switches table alone. */
  lemma TopOff(d: Doc, name: string, task: string, reason: string)
    requires Built(d) && ["switches"] in d.tables && EntryPath(name) !in d.leaves
    ensures var was, now := Root(d), Root(WithOff(d, name, task, reason));
      && was.Table? && Get(was, "switches") == Some(ValueAt(d, ["switches"]))
      && now == Table(was.entries["switches" := ValueAt(WithOff(d, name, task, reason), ["switches"])])
  {
    hide ValueAt, WithOff, Nodes, Built, Root, EntryPath;
    var d' := WithOff(d, name, task, reason);
    TopKey(d, name, task, reason, "switches");
    var was, now := Root(d).entries, Root(d').entries;
    forall k
      ensures k in now <==> k in was["switches" := ValueAt(d', ["switches"])]
      ensures k in now ==> now[k] == was["switches" := ValueAt(d', ["switches"])][k]
    {
      TopKey(d, name, task, reason, k);
    }
    assert now == was["switches" := ValueAt(d', ["switches"])];
  }

  lemma NoEntryEmpty(d: Doc, name: string)
    requires Built(d) && EntryPath(name) !in d.leaves
    ensures EntryPath(name) !in d.tables ==> ValueAt(d, EntryPath(name)) == Table(map[])
  {
    if EntryPath(name) !in d.tables {
      NoChildren(d, EntryPath(name));
    }
  }

  /** The nested view of the rewritten document is the expected one. */
  lemma RootOff(d: Doc, name: string, task: string, reason: string)
    requires Built(d) && ["switches"] in d.tables && EntryPath(name) !in d.leaves
    ensures Root(d).Table? && Root(WithOff(d, name, task, reason)) == Expected(Root(d), name, task, reason)
  {
    hide ValueAt, WithOff, Built, OffEntry, Root, EntryPath, Get;
    NoEntryEmpty(d, name);
    EntryOff(d, name, task, reason);
    TableOff(d, name, task, reason);
    TopOff(d, name, task, reason);
    assert EntryTableOf(Root(d), name) == ValueAt(d, EntryPath(name)).entries;
  }

  // --- the command ---

  ghost function ReadBack(text: string): Option<Value> {
    match Parse(text) case None => None case Some(d) => Some(Root(d))
  }

  /** What the parser's acceptance says of the document's paths. */
  lemma ReadableShape(d: Doc, name: string, names: set<string>, forges: char -> bool)
    requires Built(d) && Readable(Root(d), names, forges)
    ensures ["switches"] in d.tables && EntryPath(name) !in d.leaves
    ensures name in Entries(Root(d)) <==> EntryPath(name) in d.tables
    ensures name in Entries(Root(d)) && !ReadEntry(Entries(Root(d))[name], forges).value.off ==>
      FieldPath(name, "reason") !in Nodes(d)
  {
    hide ValueAt, ReadEntry;
    assert [] + ["switches"] == ["switches"] && ["switches"] + [name] == EntryPath(name);
    EntryAt(d, [], "switches");
    assert ["switches"] in Nodes(d);
    LeafOrTable(d, ["switches"]);
    EntryAt(d, ["switches"], name);
    if EntryPath(name) in Nodes(d) {
      assert EntryIsTable(Entries(Root(d))[name], forges) by { EntryTables(Entries(Root(d))[name], forges); }
      LeafOrTable(d, EntryPath(name));
      EntryAt(d, EntryPath(name), "reason");
      EntryTables(Entries(Root(d))[name], forges);
    }
  }

  ghost predicate EntryIsTable(entry: Value, forges: char -> bool) {
    ReadEntry(entry, forges).Some? ==> entry.Table?
  }

  lemma EntryTables(entry: Value, forges: char -> bool)
    ensures EntryIsTable(entry, forges)
    ensures ReadEntry(entry, forges).Some? && !ReadEntry(entry, forges).value.off ==> "reason" !in entry.entries
  {
    KeysDiffer();
  }

  lemma LeafOrTable(d: Doc, path: Path)
    requires Built(d) && path in Nodes(d) && ValueAt(d, path).Table?
    ensures path in d.tables && path !in d.leaves
  {
  }

  function OffFields(task: string, reason: string): Fields {
    [("state", "off"), ("task", task), ("reason", reason)]
  }

  lemma OffLeavesAre(name: string, task: string, reason: string)
    ensures FieldLeaves(EntryPath(name), OffFields(task, reason)) == OffLeaves(name, task, reason, true, true)
  {
    var fields := OffFields(task, reason);
    assert fields[..2] == [("state", "off"), ("task", task)] && fields[..2][..1] == [("state", "off")]
      && fields[..2][..1][..0] == [];
    var path := EntryPath(name);
    assert FieldLeaves(path, fields[..2][..1]) == map[path + ["state"] := Str("off")];
    assert FieldLeaves(path, fields[..2]) == map[path + ["state"] := Str("off")][path + ["task"] := Str(task)];
    OffKeys(name, task, reason, true, true);
  }

  /** The lines written are the fields' lines, and their leaves the off entry's. */
  lemma OffFieldsAre(name: string, task: string, reason: string)
    ensures WellKeyed(OffFields(task, reason))
      && EntryTable(name, OffFields(task, reason)) == [HeaderLine(name)] + EntryLines(task, reason)
    ensures FieldLeaves(EntryPath(name), OffFields(task, reason)) == OffLeaves(name, task, reason, true, true)
  {
    OffLeavesAre(name, task, reason);
    hide HeaderLine, Escape, FieldLeaves, OffLeaves;
    KeysDiffer();
    PlainOff();
    var fields := OffFields(task, reason);
    assert "state" + " = " + TomlString("off") == StateLine();
    assert "task" + " = " + TomlString(task) == TaskLine(task)
      && "reason" + " = " + TomlString(reason) == ReasonLine(reason);
    assert FieldLines(fields) == EntryLines(task, reason);
    assert IsBareName("state") && IsBareName("task") && IsBareName("reason");
  }

  /**
   Main result: switching off an on entry whose table was found and rewritten, the command's verification accepts the
   text exactly when the text is not torn; whatever it accepts, the merge gate's lane admits.
   */
  lemma OffInPlace(was: string, name: string, span: (nat, nat), task: string, reason: string, names: set<string>,
                   forges: char -> bool)
    requires Parse(was).Some? && Readable(Root(Parse(was).value), names, forges)
    requires name in names && JournalPaths.IsTaskId(task) && ReasonOk(reason, forges)
    requires name in Entries(Root(Parse(was).value))
      && !ReadEntry(Entries(Root(Parse(was).value))[name], forges).value.off
    requires EntrySpan(SplitOn(was, '\n'), name) == Some(span)
    requires SwitchesText(Some(was), name, Some(span), task, reason).Some?
    ensures var now := ReadBack(SwitchesText(Some(was), name, Some(span), task, reason).value);
      && Root(Parse(was).value).Table?
      && (Verified(now, Root(Parse(was).value), name, task, reason, names, forges) <==> !Torn(was, span))
      && (!Torn(was, span) ==> now.Some? && now.value.Table? && LanePasses(Root(Parse(was).value), now.value, task))
  {
    hide Parse, SwitchesText, EntrySpan, Torn, Readable, ReadEntry, LanePasses, Root, ReasonOk, JournalPaths.IsTaskId,
      Built,
      Verified, Entries, Expected, OffLeaves, Nodes, FieldPath;
    var d := Parse(was).value;
    ParsedBuilt(was);
    ReadableShape(d, name, names, forges);
    RewriteCommutes(was, name, span, task, reason);
    assert d.tables + {EntryPath(name)} == d.tables;
    RootOff(d, name, task, reason);
    var now := ReadBack(SwitchesText(Some(was), name, Some(span), task, reason).value);
    VerifiedIs(now, Root(d), name, task, reason, names, forges);
    if !Torn(was, span) {
      VerifiedPassesLane(now.value, Root(d), name, task, reason, names, forges);
    }
  }

  /**
   The command verifies twice, before the task exists under a placeholder id and again under the opened task's: the
   first verdict decides the second.
   */
  lemma PlaceholderDecides(was: string, name: string, span: (nat, nat), first: string, second: string, reason: string,
                           names: set<string>, forges: char -> bool)
    requires Parse(was).Some? && Readable(Root(Parse(was).value), names, forges)
    requires name in names && JournalPaths.IsTaskId(first) && JournalPaths.IsTaskId(second) && ReasonOk(reason, forges)
    requires name in Entries(Root(Parse(was).value))
      && !ReadEntry(Entries(Root(Parse(was).value))[name], forges).value.off
    requires EntrySpan(SplitOn(was, '\n'), name) == Some(span) && Root(Parse(was).value).Table?
    requires SwitchesText(Some(was), name, Some(span), first, reason).Some?
    ensures SwitchesText(Some(was), name, Some(span), second, reason).Some?
    ensures Verified(ReadBack(SwitchesText(Some(was), name, Some(span), first, reason).value), Root(Parse(was).value),
      name, first, reason, names, forges)
      <==> Verified(ReadBack(SwitchesText(Some(was), name, Some(span), second, reason).value), Root(Parse(was).value),
        name, second, reason, names, forges)
  {
    hide Parse, SwitchesText, EntrySpan, Torn, Readable, ReadEntry, Root, ReasonOk, JournalPaths.IsTaskId, Verified,
      Entries,
      ReadBack, LanePasses, SplitOn;
    SameBody(was, name, span, first, second, reason);
    OffInPlace(was, name, span, first, reason, names, forges);
    OffInPlace(was, name, span, second, reason, names, forges);
  }

  /** Whether the pairs can be rewritten does not depend on what is written. */
  lemma SameBody(was: string, name: string, span: (nat, nat), first: string, second: string, reason: string)
    requires span.0 < span.1 <= |SplitOn(was, '\n')|
    ensures SwitchesText(Some(was), name, Some(span), first, reason).Some? <==>
      SwitchesText(Some(was), name, Some(span), second, reason).Some?
  {
    hide KeyPair, Edited, Contains, StateLine, TaskLine, ReasonLine, WithEnding, SplitOn;
  }

  /** Where the file carries no such entry, the appended text is always accepted, and the lane admits it. */
  lemma OffAppended(was: string, name: string, task: string, reason: string, names: set<string>, forges: char -> bool)
    requires Parse(was).Some? && Readable(Root(Parse(was).value), names, forges)
    requires name in names && JournalPaths.IsTaskId(task) && ReasonOk(reason, forges)
    requires name !in Entries(Root(Parse(was).value))
    ensures SwitchesText(Some(was), name, None, task, reason).Some?
    ensures var now := ReadBack(SwitchesText(Some(was), name, None, task, reason).value);
      && Root(Parse(was).value).Table? && Verified(now, Root(Parse(was).value), name, task, reason, names, forges)
      && now.value.Table? && LanePasses(Root(Parse(was).value), now.value, task)
  {
    hide Parse, Readable, ReadEntry, LanePasses, Root, ReasonOk, JournalPaths.IsTaskId, Built, Appended, EntryTable,
      FieldLeaves,
      Verified, Entries, Expected, OffLeaves, WellKeyed, EntryLines, HeaderLine;
    var d := Parse(was).value;
    ParsedBuilt(was);
    ReadableShape(d, name, names, forges);
    OffFieldsAre(name, task, reason);
    AppendCommutes(was, name, OffFields(task, reason));
    RootOff(d, name, task, reason);
    var now := ReadBack(SwitchesText(Some(was), name, None, task, reason).value);
    VerifiedIs(now, Root(d), name, task, reason, names, forges);
    VerifiedPassesLane(now.value, Root(d), name, task, reason, names, forges);
  }

  lemma BaseBuilt()
    ensures Built(BaseDoc())
  {
  }

  lemma BaseSwitches()
    ensures ValueAt(BaseDoc(), ["switches"]) == Table(map[])
  {
    var d := BaseDoc();
    TableAt(d, ["switches"]);
    forall n
      ensures n !in ValueAt(d, ["switches"]).entries
    {
      assert |["switches"] + [n]| == 2;
    }
    assert ValueAt(d, ["switches"]).entries == map[];
  }

  lemma BaseKey(k: string)
    ensures Root(BaseDoc()).Table?
    ensures k in Root(BaseDoc()).entries <==> k == "switches" || k == "format"
    ensures k == "switches" ==> Root(BaseDoc()).entries[k] == Table(map[])
    ensures k == "format" ==> Root(BaseDoc()).entries[k] == Scalar("int", "1")
  {
    var d := BaseDoc();
    EntryAt(d, [], k);
    assert [] + [k] == [k] && [k][0] == k && ["switches"][0] == "switches" && ["format"][0] == "format";
    assert ValueAt(d, ["format"]) == Scalar("int", "1");
    BaseSwitches();
  }

  lemma BaseRoot()
    ensures Root(BaseDoc()) == Table(map["format" := Scalar("int", "1"), "switches" := Table(map[])])
  {
    hide Root, BaseDoc;
    KeysDiffer();
    BaseKey("format");
    BaseKey("switches");
    forall k
      ensures k in Root(BaseDoc()).entries <==> k == "switches" || k == "format"
    {
      BaseKey(k);
    }
    assert Root(BaseDoc()).entries == map["format" := Scalar("int", "1"), "switches" := Table(map[])];
  }

  /** The empty switches file and no file at all are switched off alike. */
  lemma BaseExpected(name: string, task: string, reason: string)
    ensures Root(BaseDoc()).Table?
      && Expected(Root(BaseDoc()), name, task, reason) == Expected(NoFile(), name, task, reason)
  {
    hide OffEntry, Root;
    BaseRoot();
    KeysDiffer();
    var put := Table(map[name := Table(OffEntry(map[], task, reason))]);
    assert Root(BaseDoc()).entries["switches" := put] == NoFile().entries["switches" := put];
  }

  /** A file the command creates is always accepted, and the lane admits it. */
  lemma OffCreated(name: string, task: string, reason: string, names: set<string>, forges: char -> bool)
    requires name in names && JournalPaths.IsTaskId(task) && ReasonOk(reason, forges)
    ensures SwitchesText(None, name, None, task, reason).Some?
    ensures var now := ReadBack(SwitchesText(None, name, None, task, reason).value);
      && Verified(now, NoFile(), name, task, reason, names, forges)
      && now.value.Table? && LanePasses(NoFile(), now.value, task)
  {
    hide Parse, Readable, ReadEntry, LanePasses, Root, ReasonOk, JournalPaths.IsTaskId, Built, Skeleton, EntryTable,
      FieldLeaves,
      Verified, Entries, Expected, OffLeaves, WellKeyed, EntryLines, HeaderLine;
    BaseBuilt();
    EntryNotBase(name);
    OffFieldsAre(name, task, reason);
    SkeletonParses(name, OffFields(task, reason));
    RootOff(BaseDoc(), name, task, reason);
    BaseExpected(name, task, reason);
    var now := ReadBack(SwitchesText(None, name, None, task, reason).value);
    VerifiedIs(now, NoFile(), name, task, reason, names, forges);
    VerifiedPassesLane(now.value, NoFile(), name, task, reason, names, forges);
  }
}
