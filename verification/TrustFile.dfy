/** The trust file: the one fixed shape grants are written in, and the fail-closed read that gives them back. */
module TrustFile {
  import opened Text
  import opened Order
  import opened TomlValues
  import opened TomlLex
  import opened TomlFields

  datatype Grant = Grant(directoryHash: string, grantedBy: string, grantedBySource: string, grantedAt: string,
    files: map<string, string>)

  type Grants = map<string, Grant>

  // --- writing ---

  function GrantFields(g: Grant): Fields {
    [("directory_hash", g.directoryHash), ("granted_by", g.grantedBy), ("granted_by_source", g.grantedBySource),
      ("granted_at", g.grantedAt)]
  }

  function FileFields(files: map<string, string>, paths: seq<string>): (out: Fields)
    requires forall p :: p in paths ==> p in files
    ensures |out| == |paths| && forall i :: 0 <= i < |paths| ==> out[i] == (paths[i], files[paths[i]])
    decreases |paths|
  {
    if paths == [] then []
    else
      assert paths[|paths| - 1] in paths;
      assert forall p :: p in paths[..|paths| - 1] ==> p in paths;
      FileFields(files, paths[..|paths| - 1]) + [(paths[|paths| - 1], files[paths[|paths| - 1]])]
  }

  function QuotedLines(fields: Fields): (out: seq<string>)
    ensures |out| == |fields|
    ensures forall i :: 0 <= i < |out| ==> out[i] == TomlString(fields[i].0) + " = " + TomlString(fields[i].1)
    decreases |fields|
  {
    if fields == [] then []
    else
      var n := |fields| - 1;
      QuotedLines(fields[..n]) + [TomlString(fields[n].0) + " = " + TomlString(fields[n].1)]
  }

  function GrantHeader(name: string): string {
    "[grants." + TomlString(name) + "]"
  }

  function FilesHeader(name: string): string {
    "[grants." + TomlString(name) + ".files]"
  }

  function OpeningLines(name: string, g: Grant): seq<string> {
    [GrantHeader(name)] + FieldLines(GrantFields(g)) + ["", FilesHeader(name)]
  }

  ghost function GrantLines(name: string, g: Grant): seq<string> {
    OpeningLines(name, g) + QuotedLines(FileFields(g.files, Sorted(g.files.Keys))) + [""]
  }

  ghost function AllLines(grants: Grants, names: seq<string>): seq<string>
    requires forall n :: n in names ==> n in grants
    decreases |names|
  {
    if names == [] then ["format = 1", ""]
    else
      assert names[|names| - 1] in names;
      assert forall n :: n in names[..|names| - 1] ==> n in names;
      AllLines(grants, names[..|names| - 1]) + GrantLines(names[|names| - 1], grants[names[|names| - 1]])
  }

  /** Every trailing line feed dropped. */
  function RStripLf(s: string): string {
    if EndsWith(s, "\n") then RStripLf(s[..|s| - 1]) else s
  }

  ghost function Dumped(grants: Grants): string {
    RStripLf(JoinWith(AllLines(grants, Sorted(grants.Keys)), '\n')) + "\n"
  }

  /** A grant's files, one line each in path order. */
  method FileLines(files: map<string, string>) returns (lines: seq<string>)
    ensures lines == QuotedLines(FileFields(files, Sorted(files.Keys)))
  {
    hide TomlString, Sorted;
    var paths := Sort(files.Keys);
    lines := [];
    for i := 0 to |paths|
      invariant forall p :: p in paths[..i] ==> p in files
      invariant lines == QuotedLines(FileFields(files, paths[..i]))
    {
      assert paths[i] in paths;
      assert paths[..i + 1][..i] == paths[..i] && paths[..i + 1][i] == paths[i];
      lines := lines + [TomlString(paths[i]) + " = " + TomlString(files[paths[i]])];
    }
    assert paths[..|paths|] == paths;
  }

  /** `_dump_grants`. */
  method DumpGrants(grants: Grants) returns (text: string)
    ensures text == Dumped(grants)
  {
    hide GrantLines, Sorted, RStripLf, JoinWith, OpeningLines, QuotedLines, FileFields;
    var names := Sort(grants.Keys);
    var lines := ["format = 1", ""];
    for i := 0 to |names|
      invariant forall n :: n in names[..i] ==> n in grants
      invariant lines == AllLines(grants, names[..i])
    {
      assert names[i] in names;
      assert names[..i + 1][..i] == names[..i] && names[..i + 1][i] == names[i];
      var files := FileLines(grants[names[i]].files);
      GrantLinesAre(names[i], grants[names[i]]);
      lines := lines + (OpeningLines(names[i], grants[names[i]]) + files + [""]);
    }
    assert names[..|names|] == names;
    return RStripLf(JoinWith(lines, '\n')) + "\n";
  }

  lemma GrantLinesAre(name: string, g: Grant)
    ensures GrantLines(name, g) == OpeningLines(name, g) + QuotedLines(FileFields(g.files, Sorted(g.files.Keys))) + [""]
  {
  }

  // --- reading ---

  /** The strings of a table, or nothing where a value is none. */
  predicate AllStrings(v: Value) {
    v.Table? && forall k :: k in v.entries ==> v.entries[k].Str?
  }

  function ReadGrant(entry: Value): Option<Grant> {
    match (Get(entry, "directory_hash"), Get(entry, "granted_by"), Get(entry, "granted_by_source"),
      Get(entry, "granted_at"), Get(entry, "files"))
    case (Some(Str(hash)), Some(Str(who)), Some(Str(source)), Some(Str(at)), Some(files)) =>
      if !AllStrings(files) then None
      else Some(Grant(hash, who, source, at, map k | k in files.entries :: files.entries[k].text))
    case _ => None
  }

  /** A table's grants: every entry one, or nothing. */
  function ReadAll(table: Value): Option<Grants> {
    if !table.Table? then None
    else if forall n :: n in table.entries ==> ReadGrant(table.entries[n]).Some? then
      Some(map n | n in table.entries :: ReadGrant(table.entries[n]).value)
    else None
  }

  function Read(root: Value): Option<Grants> {
    if Get(root, "format") != Some(Scalar("int", "1")) then None
    else match Get(root, "grants") case None => Some(map[]) case Some(table) => ReadAll(table)
  }

  /** The entry is this grant: its four strings, and its files a table of exactly these strings. */
  predicate Records(entry: Value, g: Grant) {
    && Holds(entry, "directory_hash", Str(g.directoryHash)) && Holds(entry, "granted_by", Str(g.grantedBy))
    && Holds(entry, "granted_by_source", Str(g.grantedBySource)) && Holds(entry, "granted_at", Str(g.grantedAt))
    && Holds(entry, "files", Table(map p | p in g.files :: Str(g.files[p])))
  }

  lemma GrantExactly(entry: Value, g: Grant)
    ensures ReadGrant(entry) == Some(g) <==> Records(entry, g)
  {
    if ReadGrant(entry) == Some(g) {
      var files := Get(entry, "files").value;
      assert files.entries == map p | p in g.files :: Str(g.files[p]);
    }
    if Records(entry, g) {
      assert (map k | k in g.files :: Table(map p | p in g.files :: Str(g.files[p])).entries[k].text) == g.files;
    }
  }

  /**
   The file is read, and as these grants, exactly when its format is the integer 1 and it either holds no grants table
   and there are none, or holds one whose entries are these grants, each with every field of its recorded type.
   */
  lemma ReadExactly(root: Value, grants: Grants)
    ensures Read(root) == Some(grants) <==>
      && Holds(root, "format", Scalar("int", "1"))
      && (if "grants" !in root.entries then grants == map[]
          else
            && root.entries["grants"].Table? && root.entries["grants"].entries.Keys == grants.Keys
            && forall n :: n in grants ==> Records(root.entries["grants"].entries[n], grants[n]))
  {
    hide ReadGrant, Records;
    if Holds(root, "format", Scalar("int", "1")) && "grants" in root.entries && root.entries["grants"].Table? {
      var entries := root.entries["grants"].entries;
      forall n | n in entries && n in grants
        ensures ReadGrant(entries[n]) == Some(grants[n]) <==> Records(entries[n], grants[n])
      {
        GrantExactly(entries[n], grants[n]);
      }
      AllExactly(entries, grants);
    }
  }

  lemma AllExactly(entries: map<string, Value>, grants: Grants)
    ensures ReadAll(Table(entries)) == Some(grants) <==>
      entries.Keys == grants.Keys && forall n :: n in grants ==> ReadGrant(entries[n]) == Some(grants[n])
  {
    hide ReadGrant;
    if entries.Keys == grants.Keys && forall n :: n in grants ==> ReadGrant(entries[n]) == Some(grants[n]) {
      assert (map n | n in entries :: ReadGrant(entries[n]).value) == grants;
    }
  }

  /** `_read_grants` on the parsed file; a file without a grants table is no grants. */
  method ReadGrants(root: Value) returns (r: Option<Grants>)
    ensures r == Read(root)
  {
    hide ReadGrant;
    if Get(root, "format") != Some(Scalar("int", "1")) {
      return None;
    }
    var table := Get(root, "grants");
    if table.None? {
      return Some(map[]);
    }
    if !table.value.Table? {
      return None;
    }
    var entries := table.value.entries;
    var grants: Grants := map[];
    var left := entries.Keys;
    while left != {}
      invariant left <= entries.Keys && grants.Keys == entries.Keys - left
      invariant forall n :: n in grants ==> ReadGrant(entries[n]) == Some(grants[n])
      decreases left
    {
      var name :| name in left;
      var grant := ReadGrant(entries[name]);
      if grant.None? {
        return None;
      }
      grants := grants[name := grant.value];
      left := left - {name};
    }
    assert grants == map n | n in entries :: ReadGrant(entries[n]).value;
    return Some(grants);
  }
}
