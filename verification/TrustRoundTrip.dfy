/** Reading what was written gives the same grants back, for every map of grants over Unicode scalar strings. */
module TrustRoundTrip {
  import opened Text
  import opened Order
  import opened TomlValues
  import opened TomlLex
  import opened TomlDoc
  import opened TomlShapes
  import opened TomlLines
  import opened TomlFields
  import opened SwitchText
  import opened TrustFile
  import A = AppendEntry

  function GrantPath(name: string): Path {
    ["grants", name]
  }

  function FilesPath(name: string): Path {
    ["grants", name, "files"]
  }

  // --- the lines read as meant ---

  /** Every line is one of the grammar, so none holds a control character. */
  predicate Lexes(lines: seq<string>, read: seq<Line>) {
    |read| == |lines| && forall i :: 0 <= i < |lines| ==> LexLine(lines[i]) == Some(read[i])
  }

  lemma LexesAppend(a: seq<string>, x: seq<Line>, b: seq<string>, y: seq<Line>)
    requires Lexes(a, x) && Lexes(b, y)
    ensures Lexes(a + b, x + y)
  {
    hide LexLine;
    forall i | 0 <= i < |a + b|
      ensures LexLine((a + b)[i]) == Some((x + y)[i])
    {
      if i >= |a| {
        assert (a + b)[i] == b[i - |a|] && (x + y)[i] == y[i - |a|];
      }
    }
  }

  lemma LexesInner(lines: seq<string>, read: seq<Line>)
    requires Lexes(lines, read)
    ensures forall i :: 0 <= i < |lines| ==> '\n' !in lines[i] && InnerAll(lines)[i] == Some(read[i])
  {
    hide LexLine, Inner;
    forall i | 0 <= i < |lines|
      ensures '\n' !in lines[i] && InnerAll(lines)[i] == Some(read[i])
    {
      Suffixed(lines[i], "");
      assert lines[i] + "" == lines[i];
    }
  }

  lemma GrantsKey(rest: string)
    requires KeyEnds(rest)
    ensures ReadKey("grants" + rest) == Some(("grants", rest)) && ReadKey("files" + rest) == Some(("files", rest))
  {
    assert IsBareName("grants") && IsBareName("files");
    BareKey("grants", rest);
    BareKey("files", rest);
  }

  lemma GrantHeaderReads(name: string)
    ensures LexLine(GrantHeader(name)) == Some(Head(GrantPath(name)))
  {
    hide ReadKey, ReadPath, TomlString, SkipSpace;
    var line := GrantHeader(name);
    var key := TomlString(name) + "]";
    var rest := "." + key;
    assert line[1..] == "grants" + rest && rest[1..] == key && "]"[1..] == "";
    GrantsKey(rest);
    QuotedKey(name, "]");
    QuoteOpens(name);
    assert key[0] == '"';
    A.Unspaced(line);
    A.Unspaced(line[1..]);
    A.Unspaced(rest);
    A.Unspaced(key);
    A.Unspaced("]");
    A.Unspaced("");
    PathOne(key, name, "]");
    PathTwo(line[1..], "grants", rest, name, "");
    assert !StartsWith(line, "[[") by { assert line[1] == 'g'; }
  }

  lemma FilesHeaderReads(name: string)
    ensures LexLine(FilesHeader(name)) == Some(Head(FilesPath(name)))
  {
    hide ReadKey, ReadPath, TomlString, SkipSpace;
    var line := FilesHeader(name);
    var last := "files]";
    var dot := ".files]";
    var key := TomlString(name) + dot;
    var rest := "." + key;
    assert line[1..] == "grants" + rest && rest[1..] == key && dot[1..] == last && "]"[1..] == ""
      && last == "files" + "]";
    GrantsKey(rest);
    GrantsKey("]");
    QuotedKey(name, dot);
    QuoteOpens(name);
    assert key[0] == '"';
    A.Unspaced(line);
    A.Unspaced(line[1..]);
    A.Unspaced(rest);
    A.Unspaced(key);
    A.Unspaced(dot);
    A.Unspaced(last);
    A.Unspaced("]");
    A.Unspaced("");
    PathOne(last, "files", "]");
    PathTwo(key, name, dot, "files", "");
    PathMore(line[1..], "grants", rest, [name, "files"], "");
    assert ["grants"] + [name, "files"] == FilesPath(name);
    assert !StartsWith(line, "[[") by { assert line[1] == 'g'; }
  }

  function AssignLines(fields: Fields): (out: seq<Line>)
    ensures |out| == |fields| && forall i :: 0 <= i < |out| ==> out[i] == Assign(fields[i].0, Str(fields[i].1))
  {
    if fields == [] then [] else [Assign(fields[0].0, Str(fields[0].1))] + AssignLines(fields[1..])
  }

  lemma FieldNames(g: Grant)
    ensures WellKeyed(GrantFields(g))
    ensures "files" !in {"directory_hash", "granted_by", "granted_by_source", "granted_at"}
  {
    assert |"directory_hash"| == 14 && |"granted_by"| == 10 && |"granted_by_source"| == 17 && |"granted_at"| == 10
      && |"files"| == 5;
    assert "granted_by"[8] != "granted_at"[8];
    assert IsBareName("directory_hash") && IsBareName("granted_by") && IsBareName("granted_by_source")
      && IsBareName("granted_at");
  }

  lemma FieldsLex(fields: Fields)
    requires WellKeyed(fields)
    ensures Lexes(FieldLines(fields), AssignLines(fields))
  {
    hide LexLine, TomlString, IsBareName;
    forall i | 0 <= i < |fields|
      ensures LexLine(FieldLines(fields)[i]) == Some(AssignLines(fields)[i])
    {
      PairReads(fields[i].0, fields[i].1);
    }
  }

  lemma QuotedLex(fields: Fields)
    ensures Lexes(QuotedLines(fields), AssignLines(fields))
  {
    hide LexLine, TomlString;
    forall i | 0 <= i < |fields|
      ensures LexLine(QuotedLines(fields)[i]) == Some(AssignLines(fields)[i])
    {
      QuotedPairReads(fields[i].0, fields[i].1);
    }
  }

  function OpeningReads(name: string, g: Grant): seq<Line> {
    [Head(GrantPath(name))] + AssignLines(GrantFields(g)) + [Blank, Head(FilesPath(name))]
  }

  /** What a grant's lines are to the parser. */
  ghost function GrantReads(name: string, g: Grant): seq<Line> {
    OpeningReads(name, g) + AssignLines(FileFields(g.files, Sorted(g.files.Keys))) + [Blank]
  }

  lemma LexesOne(line: string, l: Line)
    requires LexLine(line) == Some(l)
    ensures Lexes([line], [l])
  {
  }

  lemma OpeningLex(name: string, g: Grant)
    ensures Lexes(OpeningLines(name, g), OpeningReads(name, g))
  {
    hide LexLine, GrantHeader, FilesHeader, FieldLines, WellKeyed, GrantFields, AssignLines, Lexes;
    GrantHeaderReads(name);
    FilesHeaderReads(name);
    A.BlankLine();
    FieldNames(g);
    FieldsLex(GrantFields(g));
    LexesOne(GrantHeader(name), Head(GrantPath(name)));
    LexesOne("", Blank);
    LexesOne(FilesHeader(name), Head(FilesPath(name)));
    LexesAppend([""], [Blank], [FilesHeader(name)], [Head(FilesPath(name))]);
    assert [""] + [FilesHeader(name)] == ["", FilesHeader(name)]
      && [Blank] + [Head(FilesPath(name))] == [Blank, Head(FilesPath(name))];
    LexesAppend([GrantHeader(name)], [Head(GrantPath(name))], FieldLines(GrantFields(g)), AssignLines(GrantFields(g)));
    LexesAppend([GrantHeader(name)] + FieldLines(GrantFields(g)), [Head(GrantPath(name))] + AssignLines(GrantFields(g)),
                ["", FilesHeader(name)], [Blank, Head(FilesPath(name))]);
  }

  lemma GrantLex(name: string, g: Grant)
    ensures Lexes(GrantLines(name, g), GrantReads(name, g))
  {
    hide LexLine, OpeningLines, OpeningReads, QuotedLines, FileFields, Sorted, AssignLines, Lexes;
    var files := FileFields(g.files, Sorted(g.files.Keys));
    OpeningLex(name, g);
    QuotedLex(files);
    A.BlankLine();
    LexesOne("", Blank);
    LexesAppend(OpeningLines(name, g), OpeningReads(name, g), QuotedLines(files), AssignLines(files));
    LexesAppend(OpeningLines(name, g) + QuotedLines(files), OpeningReads(name, g) + AssignLines(files), [""], [Blank]);
  }

  ghost function AllReads(grants: Grants, names: seq<string>): seq<Line>
    requires forall n :: n in names ==> n in grants
    decreases |names|
  {
    if names == [] then [Assign("format", Scalar("int", "1")), Blank]
    else
      assert names[|names| - 1] in names;
      assert forall n :: n in names[..|names| - 1] ==> n in names;
      AllReads(grants, names[..|names| - 1]) + GrantReads(names[|names| - 1], grants[names[|names| - 1]])
  }

  lemma {:induction false} AllLex(grants: Grants, names: seq<string>)
    requires forall n :: n in names ==> n in grants
    ensures Lexes(AllLines(grants, names), AllReads(grants, names))
    decreases |names|
  {
    hide LexLine, GrantLines, GrantReads;
    if names == [] {
      A.FormatLine();
      A.BlankLine();
    } else {
      var n := |names| - 1;
      assert names[n] in names;
      assert forall m :: m in names[..n] ==> m in names;
      AllLex(grants, names[..n]);
      GrantLex(names[n], grants[names[n]]);
      LexesAppend(AllLines(grants, names[..n]), AllReads(grants, names[..n]), GrantLines(names[n], grants[names[n]]),
        GrantReads(names[n], grants[names[n]]));
    }
  }

  // --- the run ---

  /** The leaf at a path, once the grants of `done` are written. */
  function LeafOf(grants: Grants, done: set<string>, p: Path): Option<Value> {
    if p == ["format"] then Some(Scalar("int", "1"))
    else if |p| == 3 && p[0] == "grants" && p[1] in done && p[1] in grants then FieldOf(grants[p[1]], p[2])
    else if |p| == 4 && p[0] == "grants" && p[1] in done && p[1] in grants && p[2] == "files"
      && p[3] in grants[p[1]].files then
      Some(Str(grants[p[1]].files[p[3]]))
    else None
  }

  function FieldOf(g: Grant, key: string): Option<Value> {
    if key == "directory_hash" then Some(Str(g.directoryHash))
    else if key == "granted_by" then Some(Str(g.grantedBy))
    else if key == "granted_by_source" then Some(Str(g.grantedBySource))
    else if key == "granted_at" then Some(Str(g.grantedAt))
    else None
  }

  predicate IsTable(done: set<string>, p: Path) {
    || (p == ["grants"] && done != {})
    || (|p| == 2 && p[0] == "grants" && p[1] in done)
    || (|p| == 3 && p[0] == "grants" && p[1] in done && p[2] == "files")
  }

  ghost predicate Holds(d: Doc, grants: Grants, done: set<string>) {
    && (forall p :: p in d.leaves <==> LeafOf(grants, done, p).Some?)
    && (forall p :: p in d.leaves ==> Some(d.leaves[p]) == LeafOf(grants, done, p))
    && (forall p :: p in d.tables <==> IsTable(done, p))
  }

  lemma {:induction false} FieldValue(path: Path, fields: Fields, i: nat)
    requires Distinct(fields) && i < |fields|
    ensures path + [fields[i].0] in FieldLeaves(path, fields)
      && FieldLeaves(path, fields)[path + [fields[i].0]] == Str(fields[i].1)
    decreases |fields|
  {
    var n := |fields| - 1;
    if i < n {
      FieldValue(path, fields[..n], i);
      KeysApart(path, fields[i].0, fields[n].0);
    }
  }

  /** The leaves a run of pairs adds, looked up by key. */
  lemma FieldLookup(path: Path, fields: Fields, p: Path)
    requires Distinct(fields)
    ensures p in FieldLeaves(path, fields) ==>
      exists i :: 0 <= i < |fields| && p == path + [fields[i].0] && FieldLeaves(path, fields)[p] == Str(fields[i].1)
  {
    FieldKeys(path, fields);
    if p in FieldLeaves(path, fields) {
      var i :| 0 <= i < |fields| && p == path + [fields[i].0];
      FieldValue(path, fields, i);
    }
  }

  /** The four fields' leaves are the grant's. */
  lemma GrantLeaf(name: string, g: Grant, p: Path)
    ensures var leaves := FieldLeaves(GrantPath(name), GrantFields(g));
      && (p in leaves <==> |p| == 3 && p[..2] == GrantPath(name) && FieldOf(g, p[2]).Some?)
      && (p in leaves ==> Some(leaves[p]) == FieldOf(g, p[2]))
  {
    FieldNames(g);
    var fields := GrantFields(g);
    FieldKeys(GrantPath(name), fields);
    FieldLookup(GrantPath(name), fields, p);
    if |p| == 3 && p[..2] == GrantPath(name) {
      assert p == GrantPath(name) + [p[2]];
      assert fields[0].0 == "directory_hash" && fields[1].0 == "granted_by" && fields[2].0 == "granted_by_source"
        && fields[3].0 == "granted_at";
    }
  }

  lemma FileDistinct(files: map<string, string>, paths: seq<string>)
    requires (forall p :: p in paths ==> p in files) && Increasing(paths)
    ensures Distinct(FileFields(files, paths))
  {
    forall i, j | 0 <= i < j < |paths|
      ensures paths[i] != paths[j]
    {
      LessAsymmetric(paths[i], paths[j]);
    }
  }

  lemma FilesLeaf(name: string, files: map<string, string>, paths: seq<string>, p: Path)
    requires Lists(paths, files.Keys)
    ensures var leaves := FieldLeaves(FilesPath(name), FileFields(files, paths));
      && (p in leaves <==> |p| == 4 && p[..3] == FilesPath(name) && p[3] in files)
      && (p in leaves ==> leaves[p] == Str(files[p[3]]))
  {
    hide FieldLeaves;
    var fields := FileFields(files, paths);
    FileDistinct(files, paths);
    FieldKeys(FilesPath(name), fields);
    FieldLookup(FilesPath(name), fields, p);
    if |p| == 4 && p[..3] == FilesPath(name) && p[3] in files {
      assert p[3] in paths;
      var i :| 0 <= i < |paths| && paths[i] == p[3];
      assert p == FilesPath(name) + [fields[i].0];
    }
  }

  lemma PrefixesOf(name: string)
    ensures Prefixes(GrantPath(name)) == {["grants"], GrantPath(name)}
    ensures Prefixes(FilesPath(name)) == {["grants"], GrantPath(name), FilesPath(name)}
  {
    var g, f := GrantPath(name), FilesPath(name);
    assert g[..1] == ["grants"] && g[..2] == g && f[..1] == ["grants"] && f[..2] == g && f[..3] == f;
    forall p
      ensures p in Prefixes(g) <==> p == ["grants"] || p == g
      ensures p in Prefixes(f) <==> p == ["grants"] || p == g || p == f
    {
      if p in Prefixes(g) {
        var i :| 0 < i <= 2 && p == g[..i];
      }
      if p in Prefixes(f) {
        var i :| 0 < i <= 3 && p == f[..i];
      }
      if p == ["grants"] {
        assert p == g[..1] && p == f[..1];
      } else if p == g {
        assert p == g[..2] && p == f[..2];
      } else if p == f {
        assert p == f[..3];
      }
    }
  }

  /** The document once a grant's lines have run. */
  ghost function Granted(d: Doc, name: string, g: Grant): Doc {
    Doc(d.leaves + FieldLeaves(GrantPath(name), GrantFields(g))
        + FieldLeaves(FilesPath(name), FileFields(g.files, Sorted(g.files.Keys))),
        d.tables + {["grants"], GrantPath(name), FilesPath(name)})
  }

  lemma GrantedLeaf(d: Doc, grants: Grants, done: set<string>, name: string, p: Path)
    requires Holds(d, grants, done) && name in grants && name !in done
    ensures var leaves := Granted(d, name, grants[name]).leaves;
      && (p in leaves <==> LeafOf(grants, done + {name}, p).Some?)
      && (p in leaves ==> Some(leaves[p]) == LeafOf(grants, done + {name}, p))
  {
    hide FieldLeaves, FileFields, GrantFields, FieldOf, Increasing, Sorted;
    var g := grants[name];
    GrantLeaf(name, g, p);
    FilesLeaf(name, g.files, Sorted(g.files.Keys), p);
  }

  lemma GrantedTable(d: Doc, grants: Grants, done: set<string>, name: string, p: Path)
    requires Holds(d, grants, done) && name in grants && name !in done
    ensures p in Granted(d, name, grants[name]).tables <==> IsTable(done + {name}, p)
  {
    hide FieldLeaves, FileFields, GrantFields, FieldOf, LeafOf, Sorted;
    assert |p| == 2 ==> p == [p[0], p[1]];
    assert |p| == 3 ==> p == [p[0], p[1], p[2]];
  }

  /** One more grant's leaves and tables, in the closed form. */
  lemma GrantedHolds(d: Doc, grants: Grants, done: set<string>, name: string)
    requires Holds(d, grants, done) && name in grants && name !in done
    ensures Holds(Granted(d, name, grants[name]), grants, done + {name})
  {
    var out := Granted(d, name, grants[name]);
    forall p
      ensures p in out.leaves <==> LeafOf(grants, done + {name}, p).Some?
      ensures p in out.leaves ==> Some(out.leaves[p]) == LeafOf(grants, done + {name}, p)
      ensures p in out.tables <==> IsTable(done + {name}, p)
    {
      hide Granted, LeafOf, IsTable, Holds;
      GrantedLeaf(d, grants, done, name, p);
      GrantedTable(d, grants, done, name, p);
    }
    hide Granted, LeafOf, IsTable;
  }

  function Somes(lines: seq<Line>): (out: seq<Option<Line>>)
    ensures |out| == |lines| && forall i :: 0 <= i < |lines| ==> out[i] == Some(lines[i])
  {
    if lines == [] then [] else [Some(lines[0])] + Somes(lines[1..])
  }

  lemma SomesAppend(a: seq<Line>, b: seq<Line>)
    ensures Somes(a + b) == Somes(a) + Somes(b)
  {
  }

  lemma SomesAssign(fields: Fields)
    ensures Somes(AssignLines(fields)) == Assigns(fields)
  {
  }

  /** Opening a header whose table is not yet there and whose prefixes hold no leaf. */
  lemma HeadOpens(st: St, path: Path)
    requires path !in st.defined && Prefixes(path) !! st.doc.leaves.Keys
    ensures StepLine(st, Head(path))
      == Some(St(Doc(st.doc.leaves, st.doc.tables + Prefixes(path)), path, st.defined + {path}))
  {
  }

  /** The grant's own table: its header and four fields. */
  lemma FirstHalf(st: St, grants: Grants, done: set<string>, name: string, g: Grant)
    requires Holds(st.doc, grants, done) && name !in done && st.defined <= st.doc.tables
    ensures var mid := St(Doc(st.doc.leaves + FieldLeaves(GrantPath(name), GrantFields(g)),
      st.doc.tables + {["grants"], GrantPath(name)}),
                          GrantPath(name), st.defined + {GrantPath(name)});
      Run(st, [Some(Head(GrantPath(name)))] + Assigns(GrantFields(g))) == Some(mid)
  {
    var path := GrantPath(name);
    PrefixesOf(name);
    HeadOpens(st, path);
    var start := StepLine(st, Head(path)).value;
    RunOne(st, Head(path));
    RunAppend(st, [Some(Head(path))], Assigns(GrantFields(g)));
    FieldNames(g);
    forall i | 0 <= i < |GrantFields(g)|
      ensures start.cur + [GrantFields(g)[i].0] !in Nodes(start.doc)
    {
      var p := path + [GrantFields(g)[i].0];
      assert |p| == 3 && p[1] == name;
    }
    hide StepLine, FieldLeaves, GrantFields, Holds;
    FieldsRun(start, GrantFields(g));
  }

  /** Before its files, a grant's table of files is not there, and no file of it is a node. */
  lemma FilesFresh(d: Doc, grants: Grants, done: set<string>, name: string, g: Grant, file: string)
    requires Holds(d, grants, done) && name !in done
    ensures var leaves := d.leaves + FieldLeaves(GrantPath(name), GrantFields(g));
      && Prefixes(FilesPath(name)) !! leaves.Keys
      && FilesPath(name) + [file] !in leaves
      && FilesPath(name) + [file] !in d.tables + {["grants"], GrantPath(name), FilesPath(name)}
  {
    hide FieldLeaves, GrantFields;
    PrefixesOf(name);
    FieldNames(g);
    GrantLeaf(name, g, ["grants"]);
    GrantLeaf(name, g, GrantPath(name));
    GrantLeaf(name, g, FilesPath(name));
    var p := FilesPath(name) + [file];
    assert |p| == 4 && p[1] == name;
    GrantLeaf(name, g, p);
  }

  /** Its table of files. */
  lemma SecondHalf(st: St, grants: Grants, done: set<string>, d: Doc, name: string, g: Grant)
    requires Holds(d, grants, done) && name !in done && FilesPath(name) !in st.defined
    requires st.doc == Doc(d.leaves + FieldLeaves(GrantPath(name), GrantFields(g)),
      d.tables + {["grants"], GrantPath(name)})
    ensures var fields := FileFields(g.files, Sorted(g.files.Keys));
      Run(st, [Some(Head(FilesPath(name)))] + Assigns(fields))
      == Some(St(Granted(d, name, g), FilesPath(name), st.defined + {FilesPath(name)}))
  {
    hide FieldLeaves, GrantFields, FileFields, Holds, StepLine, Prefixes, Run, Sorted, Increasing, Distinct;
    var path := FilesPath(name);
    var fields := FileFields(g.files, Sorted(g.files.Keys));
    FilesFresh(d, grants, done, name, g, "");
    HeadOpens(st, path);
    PrefixesOf(name);
    assert d.tables + {["grants"], GrantPath(name)} + Prefixes(path) == d.tables + {["grants"], GrantPath(name), path};
    var start := StepLine(st, Head(path)).value;
    RunOne(st, Head(path));
    RunAppend(st, [Some(Head(path))], Assigns(fields));
    FileDistinct(g.files, Sorted(g.files.Keys));
    forall i | 0 <= i < |fields|
      ensures start.cur + [fields[i].0] !in Nodes(start.doc)
    {
      FilesFresh(d, grants, done, name, g, fields[i].0);
    }
    FieldsRun(start, fields);
  }

  lemma BlankRuns(st: St, lines: seq<Option<Line>>)
    ensures Run(st, lines + [Some(Blank)]) == Run(st, lines)
    ensures Run(st, [Some(Blank)] + lines) == Run(st, lines)
  {
    RunAppend(st, lines, [Some(Blank)]);
    RunAppend(st, [Some(Blank)], lines);
    RunOne(st, Blank);
    if Run(st, lines).Some? {
      RunOne(Run(st, lines).value, Blank);
    }
  }

  lemma GrantShape(name: string, g: Grant)
    ensures Somes(GrantReads(name, g)) == ([Some(Head(GrantPath(name)))] + Assigns(GrantFields(g)))
      + ([Some(Blank)] + ([Some(Head(FilesPath(name)))] + Assigns(FileFields(g.files, Sorted(g.files.Keys))))
        + [Some(Blank)])
  {
    hide GrantFields, FileFields, Sorted, AssignLines, Somes, Assigns;
    var fields := GrantFields(g);
    var files := FileFields(g.files, Sorted(g.files.Keys));
    var head, mid := [Head(GrantPath(name))], [Blank, Head(FilesPath(name))];
    SomesAssign(fields);
    SomesAssign(files);
    SomesAppend(head, AssignLines(fields));
    SomesAppend(head + AssignLines(fields), mid);
    SomesAppend(head + AssignLines(fields) + mid, AssignLines(files));
    SomesAppend(head + AssignLines(fields) + mid + AssignLines(files), [Blank]);
    assert Somes(head) == [Some(head[0])] && Somes(mid) == [Some(Blank)] + [Some(mid[1])]
      && Somes([Blank]) == [Some(Blank)];
    Regroup(Somes(head) + Assigns(fields), [Some(Blank)], [Some(mid[1])], Assigns(files), [Some(Blank)]);
  }

  lemma Regroup<T>(a: seq<T>, b: seq<T>, c: seq<T>, d: seq<T>, e: seq<T>)
    ensures a + (b + c) + d + e == a + (b + (c + d) + e)
  {
  }

  lemma FramedRun(st: St, first: seq<Option<Line>>, mid: St, second: seq<Option<Line>>, out: St)
    requires Run(st, first) == Some(mid) && Run(mid, second) == Some(out)
    ensures Run(st, first + ([Some(Blank)] + second + [Some(Blank)])) == Some(out)
  {
    hide Run, StepLine;
    RunAppend(st, first, [Some(Blank)] + second + [Some(Blank)]);
    BlankRuns(mid, [Some(Blank)] + second);
    BlankRuns(mid, second);
  }

  lemma NotYet(d: Doc, grants: Grants, done: set<string>, name: string)
    requires Holds(d, grants, done) && name !in done
    ensures FilesPath(name) !in d.tables && FilesPath(name) != GrantPath(name)
  {
    assert FilesPath(name)[1] == name && |FilesPath(name)| == 3;
  }

  /** One grant's lines run, and leave the document in the closed form with one more grant. */
  lemma GrantRuns(st: St, grants: Grants, done: set<string>, name: string)
    requires Holds(st.doc, grants, done) && name in grants && name !in done && st.defined <= st.doc.tables
    ensures var out := Run(st, Somes(GrantReads(name, grants[name])));
      out.Some? && Holds(out.value.doc, grants, done + {name}) && out.value.defined <= out.value.doc.tables
  {
    hide GrantFields, FileFields, Sorted, FieldLeaves, StepLine, Run, Holds, Somes, GrantReads, FilesPath, GrantPath,
      Assigns;
    var g := grants[name];
    NotYet(st.doc, grants, done, name);
    GrantShape(name, g);
    FirstHalf(st, grants, done, name, g);
    var mid := Run(st, [Some(Head(GrantPath(name)))] + Assigns(GrantFields(g))).value;
    SecondHalf(mid, grants, done, st.doc, name, g);
    var out := St(Granted(st.doc, name, g), FilesPath(name), mid.defined + {FilesPath(name)});
    FramedRun(st, [Some(Head(GrantPath(name)))] + Assigns(GrantFields(g)), mid,
              [Some(Head(FilesPath(name)))] + Assigns(FileFields(g.files, Sorted(g.files.Keys))), out);
    GrantedHolds(st.doc, grants, done, name);
  }

  function Names(names: seq<string>): set<string> {
    set n | n in names
  }

  lemma FirstLines()
    ensures Run(START, [Some(Assign("format", Scalar("int", "1"))), Some(Blank)])
      == Some(St(Doc(map[["format"] := Scalar("int", "1")], {}), [], {}))
  {
    assert [] + ["format"] == ["format"];
    RunTwo(START, Assign("format", Scalar("int", "1")), Blank);
  }

  lemma NamesLast(names: seq<string>)
    requires names != [] && Increasing(names)
    ensures names[|names| - 1] !in Names(names[..|names| - 1])
    ensures Names(names) == Names(names[..|names| - 1]) + {names[|names| - 1]}
  {
    var n := |names| - 1;
    forall k | 0 <= k < n
      ensures names[k] != names[n]
    {
      LessAsymmetric(names[k], names[n]);
    }
    assert names == names[..n] + [names[n]];
  }

  /** The whole file runs to the closed form of its grants. */
  lemma {:induction false} AllRuns(grants: Grants, names: seq<string>)
    requires (forall n :: n in names ==> n in grants) && Increasing(names)
    ensures var out := Run(START, Somes(AllReads(grants, names)));
      out.Some? && Holds(out.value.doc, grants, Names(names)) && out.value.defined <= out.value.doc.tables
    decreases |names|
  {
    hide Run, StepLine, GrantReads, Holds, Names, Somes;
    if names == [] {
      FirstLines();
      SomesFirst();
      HoldsEmpty(grants);
      assert Names(names) == {} by { NoNames(names); }
    } else {
      var n := |names| - 1;
      assert names[n] in names;
      assert forall m :: m in names[..n] ==> m in names;
      AllRuns(grants, names[..n]);
      NamesLast(names);
      SomesAppend(AllReads(grants, names[..n]), GrantReads(names[n], grants[names[n]]));
      RunAppend(START, Somes(AllReads(grants, names[..n])), Somes(GrantReads(names[n], grants[names[n]])));
      GrantRuns(Run(START, Somes(AllReads(grants, names[..n]))).value, grants, Names(names[..n]), names[n]);
    }
  }

  lemma NoNames(names: seq<string>)
    requires names == []
    ensures Names(names) == {}
  {
  }

  lemma SomesFirst()
    ensures Somes([Assign("format", Scalar("int", "1")), Blank])
      == [Some(Assign("format", Scalar("int", "1"))), Some(Blank)]
  {
  }

  lemma HoldsEmpty(grants: Grants)
    ensures Holds(Doc(map[["format"] := Scalar("int", "1")], {}), grants, {})
  {
  }

  // --- the text ---

  lemma {:induction false} JoinClosed(lines: seq<string>)
    requires lines != []
    ensures JoinWith(lines + [""], '\n') == JoinWith(lines, '\n') + "\n"
    decreases |lines|
  {
    assert (lines + [""])[1..] == lines[1..] + [""];
    if |lines| > 1 {
      JoinClosed(lines[1..]);
    } else {
      assert (lines + [""])[1..] == [""];
    }
  }

  lemma {:induction false} JoinEnds(lines: seq<string>)
    requires lines != [] && lines[|lines| - 1] != "" && !EndsWith(lines[|lines| - 1], "\n")
    ensures var text := JoinWith(lines, '\n');
      text != "" && text[|text| - 1] == lines[|lines| - 1][|lines[|lines| - 1]| - 1]
    decreases |lines|
  {
    if |lines| > 1 {
      JoinEnds(lines[1..]);
    }
  }

  lemma EndsLast(s: string)
    ensures EndsWith(s, "\n") ==> s != "" && s[|s| - 1] == '\n'
  {
    if EndsWith(s, "\n") {
      assert s[|s| - 1..][0] == s[|s| - 1];
    }
  }

  lemma RStripStops(text: string)
    requires text == "" || text[|text| - 1] != '\n'
    ensures RStripLf(text) == text && RStripLf(text + "\n") == text
  {
    assert (text + "\n")[|text|..] == "\n" && (text + "\n")[..|text|] == text;
    EndsLast(text);
  }

  /** The lines end with one empty line, and the line before it is not empty. */
  lemma AllEnds(grants: Grants, names: seq<string>)
    requires forall n :: n in names ==> n in grants
    ensures var all := AllLines(grants, names); |all| >= 2 && all[|all| - 1] == "" && all[|all| - 2] != ""
  {
    hide TomlString, FieldLines, GrantFields, GrantHeader, Sorted, Increasing, FileFields;
    if names != [] {
      var n := |names| - 1;
      assert names[n] in names;
      assert forall m :: m in names[..n] ==> m in names;
      var g := grants[names[n]];
      var files := QuotedLines(FileFields(g.files, Sorted(g.files.Keys)));
      var own := OpeningLines(names[n], g) + files;
      assert own[|own| - 1] != "" by {
        if files != [] {
          assert own[|own| - 1] == files[|files| - 1];
        } else {
          assert own[|own| - 1] == FilesHeader(names[n]);
        }
      }
      assert GrantLines(names[n], g) == own + [""];
    }
  }

  /** The lines as the parser sees them, with nothing in them that would split or tear one. */
  lemma AllInner(grants: Grants)
    ensures var all := AllLines(grants, Sorted(grants.Keys));
      && InnerAll(all) == Somes(AllReads(grants, Sorted(grants.Keys)))
      && (forall i :: 0 <= i < |all| ==> '\n' !in all[i])
  {
    hide AllLines, AllReads, LexLine, Increasing, Sorted;
    var names := Sorted(grants.Keys);
    AllLex(grants, names);
    LexesInner(AllLines(grants, names), AllReads(grants, names));
  }

  lemma SortedNames(s: set<string>)
    ensures Names(Sorted(s)) == s
  {
    hide Sorted;
  }

  /** What the file parses to, in the closed form of its grants. */
  lemma DumpedParses(grants: Grants)
    ensures Parse(Dumped(grants)).Some? && Holds(Parse(Dumped(grants)).value, grants, grants.Keys)
  {
    hide AllLines, AllReads, Run, Holds, LexLine, JoinWith, RStripLf, Terminated, SplitOn, EndsWith, Somes, InnerAll,
      Names, Sorted,
      EndsBare;
    var names := Sorted(grants.Keys);
    var all := AllLines(grants, names);
    AllInner(grants);
    AllRuns(grants, names);
    SortedNames(grants.Keys);
    AllEnds(grants, names);
    var lines := all[..|all| - 1];
    assert all == lines + [""];
    SplitsBack(lines);
    NotBare(all);
    ParseByLine(all);
  }

  lemma NotBare(lines: seq<string>)
    requires lines != [] && lines[|lines| - 1] == ""
    ensures !EndsBare(lines)
  {
  }

  /** Stripping the trailing line feeds and closing the last line leaves the lines closed, and they split back. */
  lemma SplitsBack(lines: seq<string>)
    requires lines != [] && lines[|lines| - 1] != "" && forall i :: 0 <= i < |lines| ==> '\n' !in lines[i]
    ensures SplitOn(RStripLf(JoinWith(lines + [""], '\n')) + "\n", '\n') == lines + [""]
  {
    var last := lines[|lines| - 1];
    EndsLast(last);
    hide SplitOn, EndsWith;
    JoinClosed(lines);
    JoinEnds(lines);
    RStripStops(JoinWith(lines, '\n'));
    TerminatedIsJoin(lines, '\n');
    SplitTerminated(lines, '\n', "");
    SplitClean("", '\n');
    assert Terminated(lines, '\n') + "" == Terminated(lines, '\n');
  }

  // --- the read ---

  lemma GrantFieldAt(d: Doc, grants: Grants, name: string, key: string)
    requires Holds(d, grants, grants.Keys) && name in grants
    ensures ValueAt(d, GrantPath(name)).Table?
    ensures FieldOf(grants[name], key).Some? ==> Get(ValueAt(d, GrantPath(name)), key) == FieldOf(grants[name], key)
    ensures key == "files" ==> Get(ValueAt(d, GrantPath(name)), key) == Some(ValueAt(d, FilesPath(name)))
  {
    var p := GrantPath(name) + [key];
    assert |p| == 3 && p[1] == name && p[2] == key;
    FieldNames(grants[name]);
    assert p == ["grants", name, key];
    assert LeafOf(grants, grants.Keys, p) == FieldOf(grants[name], key);
    assert LeafOf(grants, grants.Keys, GrantPath(name)) == None;
    EntryAt(d, GrantPath(name), key);
    if key == "files" {
      assert p == FilesPath(name) && IsTable(grants.Keys, p);
    }
  }

  lemma FileAt(d: Doc, grants: Grants, name: string, file: string)
    requires Holds(d, grants, grants.Keys) && name in grants
    ensures var files := ValueAt(d, FilesPath(name));
      && files.Table? && (file in files.entries <==> file in grants[name].files)
      && (file in files.entries ==> files.entries[file] == Str(grants[name].files[file]))
  {
    FieldNames(grants[name]);
    assert LeafOf(grants, grants.Keys, FilesPath(name)) == None;
    EntryAt(d, FilesPath(name), file);
    var p := FilesPath(name) + [file];
    assert |p| == 4 && p[1] == name && p[3] == file;
    assert p == ["grants", name, "files", file];
  }

  lemma FilesAt(d: Doc, grants: Grants, name: string)
    requires Holds(d, grants, grants.Keys) && name in grants
    ensures var files := ValueAt(d, FilesPath(name));
      AllStrings(files) && (map k | k in files.entries :: files.entries[k].text) == grants[name].files
  {
    hide ValueAt, Holds, FilesPath;
    FileAt(d, grants, name, "");
    var entries := ValueAt(d, FilesPath(name)).entries;
    forall k
      ensures k in entries <==> k in grants[name].files
      ensures k in entries ==> entries[k] == Str(grants[name].files[k])
    {
      FileAt(d, grants, name, k);
    }
    assert (map k | k in entries :: entries[k].text) == grants[name].files;
  }

  lemma GrantAt(d: Doc, grants: Grants, name: string)
    requires Holds(d, grants, grants.Keys) && name in grants
    ensures ReadGrant(ValueAt(d, GrantPath(name))) == Some(grants[name])
  {
    hide Holds, ValueAt, GrantPath, FilesPath, AllStrings, Get;
    FieldNames(grants[name]);
    GrantFieldAt(d, grants, name, "directory_hash");
    GrantFieldAt(d, grants, name, "granted_by");
    GrantFieldAt(d, grants, name, "granted_by_source");
    GrantFieldAt(d, grants, name, "granted_at");
    GrantFieldAt(d, grants, name, "files");
    FilesAt(d, grants, name);
  }

  lemma GrantKeyAt(d: Doc, grants: Grants, name: string)
    requires Holds(d, grants, grants.Keys) && ["grants"] !in d.leaves
    ensures var table := ValueAt(d, ["grants"]);
      && table.Table? && (name in table.entries <==> name in grants)
      && (name in grants ==> ReadGrant(table.entries[name]) == Some(grants[name]))
  {
    var p := ["grants"] + [name];
    assert p == GrantPath(name) && |p| == 2 && p[1] == name;
    EntryAt(d, ["grants"], name);
    assert LeafOf(grants, grants.Keys, p) == None;
    assert IsTable(grants.Keys, p) <==> name in grants;
    hide ReadGrant, ValueAt, Holds;
    if name in grants {
      GrantAt(d, grants, name);
    }
  }

  lemma GrantsAt(d: Doc, grants: Grants)
    requires Holds(d, grants, grants.Keys) && ["grants"] !in d.leaves
    ensures ReadAll(ValueAt(d, ["grants"])) == Some(grants)
  {
    hide ReadGrant, ValueAt, Holds;
    GrantKeyAt(d, grants, "");
    var entries := ValueAt(d, ["grants"]).entries;
    forall n
      ensures n in entries <==> n in grants
      ensures n in entries ==> ReadGrant(entries[n]) == Some(grants[n])
    {
      GrantKeyAt(d, grants, n);
    }
    assert (map n | n in entries :: ReadGrant(entries[n]).value) == grants;
  }

  lemma TopPaths(d: Doc, grants: Grants)
    requires Holds(d, grants, grants.Keys)
    ensures [] !in d.leaves && ["format"] in d.leaves && d.leaves[["format"]] == Scalar("int", "1")
      && ["grants"] !in d.leaves
    ensures ["grants"] in Nodes(d) <==> grants != map[]
  {
    assert "grants" != "format" by { assert "grants"[0] != "format"[0]; }
    assert LeafOf(grants, grants.Keys, []) == None;
    assert LeafOf(grants, grants.Keys, ["format"]) == Some(Scalar("int", "1"));
    assert LeafOf(grants, grants.Keys, ["grants"]) == None;
    assert IsTable(grants.Keys, ["grants"]) <==> grants != map[];
  }

  lemma TopAt(d: Doc, grants: Grants)
    requires Holds(d, grants, grants.Keys)
    ensures Get(Root(d), "format") == Some(Scalar("int", "1"))
    ensures Get(Root(d), "grants") == if grants == map[] then None else Some(ValueAt(d, ["grants"]))
    ensures ["grants"] !in d.leaves
  {
    hide Holds;
    TopPaths(d, grants);
    assert [] + ["format"] == ["format"] && [] + ["grants"] == ["grants"];
    EntryAt(d, [], "format");
    EntryAt(d, [], "grants");
    assert ValueAt(d, ["format"]) == Scalar("int", "1");
  }

  lemma HeldReads(d: Doc, grants: Grants)
    requires Holds(d, grants, grants.Keys)
    ensures Read(Root(d)) == Some(grants)
  {
    hide Holds, ValueAt, ReadAll, Get, Root;
    TopAt(d, grants);
    GrantsAt(d, grants);
  }

  /** Main result: the trust file round-trips, for every map of grants. */
  lemma ReadOfDump(grants: Grants)
    ensures Parse(Dumped(grants)).Some? && Read(Root(Parse(Dumped(grants)).value)) == Some(grants)
  {
    hide Parse, Dumped, Root, Read, Holds;
    DumpedParses(grants);
    HeldReads(Parse(Dumped(grants)).value, grants);
  }
}
