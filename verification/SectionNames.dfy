/** The name an undecodable section of a diff is reported under, read off its own header lines. */
module SectionNames {
  import opened Text
  import opened DiffScan

  /** What follows the last occurrence of a marker. */
  function AfterLast(s: string, marker: string): Option<string> {
    if s == "" then None
    else match AfterLast(s[1..], marker)
      case Some(after) => Some(after)
      case None => if StartsWith(s, marker) then Some(s[|marker|..]) else None
  }

  /** The destination a `diff --git` line names, a quoted one with its opening quote. */
  function HeaderName(line: string): string {
    var tail := if StartsWith(line, "diff --git ") then line[11..] else line;
    match AfterLast(tail, " \"b/")
    case Some(quoted) => "\"" + quoted
    case None =>
      match AfterLast(tail, " b/")
      case Some(path) => path
      case None => if tail == "" then UNKNOWN_FILE else tail
  }

  /** The first destination line names the section; without one that names a file, the first header line does. */
  function SectionName(lines: seq<string>, header: string): string {
    if lines == [] then HeaderName(header)
    else if StartsWith(lines[0], "diff --git ") && header == "" then SectionName(lines[1..], lines[0])
    else if StartsWith(lines[0], "+++ ") then
      match DiffPath(lines[0]) case Some(name) => name case None => HeaderName(header)
    else SectionName(lines[1..], header)
  }

  method NameSection(section: string) returns (name: string)
    ensures name == SectionName(SplitOn(section, '\n'), "")
  {
    hide DiffPath, HeaderName, SplitOn;
    var lines := SplitOn(section, '\n');
    var header := "";
    assert lines[0..] == lines;
    for i := 0 to |lines|
      invariant SectionName(lines[i..], header) == SectionName(lines, "")
    {
      var line := lines[i];
      assert lines[i..][1..] == lines[i + 1..];
      if StartsWith(line, "diff --git ") && header == "" {
        header := line;
      } else if StartsWith(line, "+++ ") {
        var path := DiffPath(line);
        return if path.Some? then path.value else HeaderName(header);
      }
    }
    return HeaderName(header);
  }

  /** The header lines of a patch name no destination. */
  lemma {:induction false} PreambleNames(lines: seq<string>, rest: seq<string>, header: string) returns (h: string)
    requires forall i :: 0 <= i < |lines| ==> PlainHeader(lines[i])
    ensures SectionName(lines + rest, header) == SectionName(rest, h)
    decreases |lines|
  {
    if lines == [] {
      assert lines + rest == rest;
      h := header;
    } else {
      hide DiffPath, HeaderName;
      var next := if StartsWith(lines[0], "diff --git ") && header == "" then lines[0] else header;
      assert (lines + rest)[1..] == lines[1..] + rest && (lines + rest)[0] == lines[0];
      PlainNames(lines[0]);
      h := PreambleNames(lines[1..], rest, next);
    }
  }

  lemma PlainNames(line: string)
    requires PlainHeader(line)
    ensures !StartsWith(line, "+++ ")
  {
  }

  lemma NamedLine(name: string, rest: seq<string>, header: string)
    requires name != "/dev/null"
    ensures SectionName(["+++ " + name] + rest, header) == if StartsWith(name, "b/") then name[2..] else name
  {
    hide HeaderName;
    var line := "+++ " + name;
    assert line[..4] == "+++ " && line[4..] == name && line[0] == '+';
  }

  /** A section with a destination is reported under the path a hit in it carries. */
  lemma NameAgrees(p: FilePatch<char>, rest: seq<string>)
    requires PatchFits(p) && (p.dest.Quoted? || (p.dest.Plain? && p.dest.path != ""))
    ensures SectionName(PrintPatch(p) + rest, "") == ScanName(p)
  {
    hide DiffPath, HeaderName, PrintHunks, QuotedName, SectionName;
    var after := PrintHunks(p.hunks) + rest;
    assert PrintPatch(p) + rest == p.preamble + (PrintDest(p.dest) + after);
    var h := PreambleNames(p.preamble, PrintDest(p.dest) + after, "");
    if p.dest.Plain? {
      assert ("b/" + p.dest.path)[..2] == "b/" && ("b/" + p.dest.path)[2..] == p.dest.path;
      assert "+++ b/" + p.dest.path == "+++ " + ("b/" + p.dest.path);
      NamedLine("b/" + p.dest.path, after, h);
    } else {
      QuotedOpens(p.dest.bytes);
      assert "/dev/null"[0] == '/';
      NamedLine(QuotedName(p.dest.bytes), after, h);
    }
  }

  // --- a section without a destination ---

  lemma {:induction false} PreambleKeeps(lines: seq<string>, rest: seq<string>, header: string)
    requires (forall i :: 0 <= i < |lines| ==> PlainHeader(lines[i])) && header != ""
    ensures SectionName(lines + rest, header) == SectionName(rest, header)
    decreases |lines|
  {
    if lines == [] {
      assert lines + rest == rest;
    } else {
      hide DiffPath, HeaderName;
      assert (lines + rest)[1..] == lines[1..] + rest && (lines + rest)[0] == lines[0];
      PlainNames(lines[0]);
      PreambleKeeps(lines[1..], rest, header);
    }
  }

  /** A patch that names no file it leads to is listed as its first line names it. */
  lemma NameFallsBack(p: FilePatch<char>)
    requires PatchFits(p) && (p.dest.Null? || p.dest.Unnamed?)
    requires p.preamble != [] && StartsWith(p.preamble[0], "diff --git ")
    ensures SectionName(PrintPatch(p) + [""], "") == HeaderName(p.preamble[0])
  {
    hide HeaderName, PrintHunks, SectionName;
    var after := PrintDest(p.dest) + (PrintHunks(p.hunks) + [""]);
    assert PrintPatch(p) + [""] == p.preamble + after;
    assert p.preamble + after == [p.preamble[0]] + (p.preamble[1..] + after);
    FirstHeader(p.preamble[0], p.preamble[1..] + after);
    PreambleKeeps(p.preamble[1..], after, p.preamble[0]);
    if p.dest.Unnamed? {
      assert PrintHunks(p.hunks) == [] by { NoHunksPrinted(); }
      assert after == [""];
      LastLine(p.preamble[0]);
    } else {
      NullLine(PrintHunks(p.hunks) + [""], p.preamble[0]);
    }
  }

  lemma NoHunksPrinted()
    ensures PrintHunks([]) == []
  {
  }

  lemma FirstHeader(line: string, rest: seq<string>)
    requires StartsWith(line, "diff --git ")
    ensures SectionName([line] + rest, "") == SectionName(rest, line)
  {
    hide DiffPath, HeaderName;
    assert ([line] + rest)[1..] == rest;
  }

  lemma LastLine(header: string)
    ensures SectionName([""], header) == HeaderName(header)
  {
    hide HeaderName;
    assert [""][1..] == [];
  }

  lemma NullLine(rest: seq<string>, header: string)
    ensures SectionName(["+++ /dev/null"] + rest, header) == HeaderName(header)
  {
    hide HeaderName;
    var line := "+++ /dev/null";
    assert line[..4] == "+++ " && line[4..] == "/dev/null" && line[0] == '+';
  }

  lemma {:induction false} AfterLastIs(a: string, marker: string, b: string)
    requires marker != "" && AfterLast((marker + b)[1..], marker) == None
    ensures AfterLast(a + (marker + b), marker) == Some(b)
    decreases |a|
  {
    var s := a + (marker + b);
    if a == "" {
      assert s == marker + b && s[..|marker|] == marker && s[|marker|..] == b;
    } else {
      assert s[1..] == a[1..] + (marker + b);
      AfterLastIs(a[1..], marker, b);
    }
  }

  lemma {:induction false} NeverAfter(s: string, marker: string)
    requires marker != "" && !Contains(s, marker)
    ensures AfterLast(s, marker) == None
  {
    if s != "" {
      if Contains(s[1..], marker) {
        var i :| 0 <= i <= |s[1..]| && OccursAt(marker, s[1..], i);
        assert OccursAt(marker, s, i + 1);
      }
      NeverAfter(s[1..], marker);
      if StartsWith(s, marker) {
        assert OccursAt(marker, s, 0);
      }
    }
  }

  /** The first line of a patch names the path after its last ` b/`. */
  lemma HeaderNames(before: string, path: string)
    requires !Contains("diff --git " + before + " b/" + path, " \"b/") && !Contains((" b/" + path)[1..], " b/")
    ensures HeaderName("diff --git " + before + " b/" + path) == path
  {
    hide AfterLast, Contains;
    var line := "diff --git " + before + " b/" + path;
    var tail := before + (" b/" + path);
    assert line == "diff --git " + tail && line[11..] == tail && line[..11] == "diff --git ";
    ContainsTail("diff --git ", tail, " \"b/");
    NeverAfter(tail, " \"b/");
    NeverAfter((" b/" + path)[1..], " b/");
    AfterLastIs(before, " b/", path);
  }

  /** A C-quoted path keeps its opening quote, and is preferred wherever it stands. */
  lemma HeaderNamesQuoted(before: string, path: string)
    requires !Contains((" \"b/" + path)[1..], " \"b/")
    ensures HeaderName("diff --git " + before + " \"b/" + path) == "\"" + path
  {
    hide AfterLast, Contains;
    var line := "diff --git " + before + " \"b/" + path;
    var tail := before + (" \"b/" + path);
    assert line == "diff --git " + tail && line[11..] == tail && line[..11] == "diff --git ";
    NeverAfter((" \"b/" + path)[1..], " \"b/");
    AfterLastIs(before, " \"b/", path);
  }

  /** A line with neither is the name itself; one with nothing on it names no file. */
  lemma HeaderWhole(tail: string)
    requires !Contains(tail, " \"b/") && !Contains(tail, " b/")
    ensures HeaderName("diff --git " + tail) == if tail == "" then "(unknown file)" else tail
  {
    hide AfterLast, Contains;
    var line := "diff --git " + tail;
    assert line[11..] == tail && line[..11] == "diff --git ";
    NeverAfter(tail, " \"b/");
    NeverAfter(tail, " b/");
  }

  lemma ContainsTail(head: string, tail: string, marker: string)
    ensures Contains(tail, marker) ==> Contains(head + tail, marker)
  {
    if i :| 0 <= i <= |tail| && OccursAt(marker, tail, i) {
      var s := head + tail;
      assert s[|head| + i..|head| + i + |marker|] == tail[i..i + |marker|];
      assert OccursAt(marker, s, |head| + i);
    }
  }
}
