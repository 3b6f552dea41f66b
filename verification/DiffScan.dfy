/**
 The diff leak scanner: the two-counter walk over a unified diff that collects each file's added lines,
 and the hits those lines give. The printer of a patch is here too, because the walk is proved to undo it.
 */
module DiffScan {
  import opened Text
  import Decimal
  import Order
  import Utf8
  import opened QuotedPath

  const UNKNOWN_FILE := "(unknown file)"

  // --- the line grammar ---

  /** `<digits>` or `<digits>,<digits>`: the count (1 when omitted) and what follows. */
  function Range(s: string): Option<(nat, string)> {
    var k := Decimal.Leading(s);
    if k == 0 then None
    else
      var rest := s[k..];
      var m := if rest != [] && rest[0] == ',' then Decimal.Leading(rest[1..]) else 0;
      if m == 0 then Some((1, rest))
      else Some((Decimal.Read(rest[1..][..m]), rest[1 + m..]))
  }

  /** The old and new line counts of a hunk header line. */
  function HunkHeader(line: string): Option<(nat, nat)> {
    if !StartsWith(line, "@@ -") then None
    else match Range(line[4..])
      case None => None
      case Some((oldCount, rest)) =>
        if !StartsWith(rest, " +") then None
        else match Range(rest[2..])
          case None => None
          case Some((newCount, tail)) => if StartsWith(tail, " @@") then Some((oldCount, newCount)) else None
  }

  /** The destination a `+++` line names. */
  function DiffPath(line: string): Option<string> {
    if !StartsWith(line, "+++ ") then None
    else
      var path := line[4..];
      if path == "/dev/null" then None
      else Some(if StartsWith(path, "b/") then path[2..] else path)
  }

  function PathOr(path: Option<string>): string {
    if path.None? || path.value == "" then UNKNOWN_FILE else path.value
  }

  // --- the walk, one line at a time ---

  datatype Walk = Walk(path: string, oldLeft: int, newLeft: int, added: map<string, seq<string>>) {
    predicate InBody() {
      oldLeft > 0 || newLeft > 0
    }
  }

  const START := Walk(UNKNOWN_FILE, 0, 0, map[])

  function Lookup(added: map<string, seq<string>>, path: string): seq<string> {
    if path in added then added[path] else []
  }

  function Append(added: map<string, seq<string>>, path: string, line: string): map<string, seq<string>> {
    added[path := Lookup(added, path) + [line]]
  }

  function FeedBody(w: Walk, line: string): Walk {
    if StartsWith(line, "\\") then w
    else if StartsWith(line, "+") then w.(added := Append(w.added, w.path, line[1..]), newLeft := w.newLeft - 1)
    else if StartsWith(line, "-") then w.(oldLeft := w.oldLeft - 1)
    else w.(oldLeft := w.oldLeft - 1, newLeft := w.newLeft - 1)
  }

  function FeedHeader(w: Walk, line: string): Walk {
    var named := if StartsWith(line, "+++ ") then w.(path := PathOr(DiffPath(line))) else w;
    match HunkHeader(line)
    case None => named
    case Some((oldCount, newCount)) => named.(oldLeft := oldCount, newLeft := newCount)
  }

  function Feed(w: Walk, line: string): Walk {
    if w.InBody() then FeedBody(w, line) else FeedHeader(w, line)
  }

  function FeedAll(w: Walk, lines: seq<string>): Walk {
    if lines == [] then w else Feed(FeedAll(w, lines[..|lines| - 1]), lines[|lines| - 1])
  }

  lemma {:induction false} FeedAppend(w: Walk, a: seq<string>, b: seq<string>)
    ensures FeedAll(w, a + b) == FeedAll(FeedAll(w, a), b)
  {
    if b == [] {
      assert a + b == a;
    } else {
      FeedAppend(w, a, b[..|b| - 1]);
      assert (a + b)[..|a + b| - 1] == a + b[..|b| - 1];
    }
  }

  lemma FeedOne(w: Walk, line: string)
    ensures FeedAll(w, [line]) == Feed(w, line)
  {
    assert [line][..0] == [];
    assert FeedAll(w, []) == w;
  }

  lemma FeedFirst(w: Walk, line: string, rest: seq<string>)
    ensures FeedAll(w, [line] + rest) == FeedAll(Feed(w, line), rest)
  {
    FeedAppend(w, [line], rest);
    FeedOne(w, line);
  }

  lemma FeedNone(w: Walk, lines: seq<string>)
    requires lines == []
    ensures FeedAll(w, lines) == w
  {
  }

  lemma FeedNext(w: Walk, lines: seq<string>, i: nat)
    requires i < |lines|
    ensures FeedAll(w, lines[..i + 1]) == Feed(FeedAll(w, lines[..i]), lines[i])
  {
    assert lines[..i + 1][..i] == lines[..i];
  }

  /** The walk as the scanner runs it: an index into the lines and two counters. */
  method CollectAdded(text: string) returns (added: map<string, seq<string>>)
    ensures added == FeedAll(START, SplitOn(text, '\n')).added
  {
    hide HunkHeader, DiffPath, PathOr, SplitOn, FeedAll;
    var lines := SplitOn(text, '\n');
    assert FeedAll(START, lines[..0]) == START by { FeedNone(START, lines[..0]); }
    var path := UNKNOWN_FILE;
    added := map[];
    var index := 0;
    ghost var w := START;
    while index < |lines|
      invariant index <= |lines|
      invariant w == FeedAll(START, lines[..index])
      invariant path == w.path && added == w.added
      invariant index == |lines| || !w.InBody()
    {
      var line := lines[index];
      if StartsWith(line, "+++ ") {
        path := PathOr(DiffPath(line));
      }
      var header := HunkHeader(line);
      FeedNext(START, lines, index);
      index := index + 1;
      w := Feed(w, line);
      if header.None? {
        continue;
      }
      var oldLeft: int, newLeft: int := header.value.0, header.value.1;
      while index < |lines| && (oldLeft > 0 || newLeft > 0)
        invariant index <= |lines|
        invariant w == FeedAll(START, lines[..index])
        invariant path == w.path && added == w.added && oldLeft == w.oldLeft && newLeft == w.newLeft
      {
        var body := lines[index];
        FeedNext(START, lines, index);
        index := index + 1;
        w := Feed(w, body);
        if StartsWith(body, "\\") {
          continue;
        }
        if StartsWith(body, "+") {
          added := Append(added, path, body[1..]);
          newLeft := newLeft - 1;
        } else if StartsWith(body, "-") {
          oldLeft := oldLeft - 1;
        } else {
          oldLeft := oldLeft - 1;
          newLeft := newLeft - 1;
        }
      }
    }
    assert lines[..index] == lines;
  }

  // --- the printer ---

  /** One line of a hunk body; `Note` is git's "\ No newline" line, which stands for no content. */
  datatype BodyLine<T> = Added(text: seq<T>) | Removed(text: seq<T>) | Context(text: seq<T>) | Note(text: seq<T>)

  datatype Hunk<T> = Hunk(oldStart: nat, newStart: nat, omitOld: bool, omitNew: bool, section: seq<T>,
    lines: seq<BodyLine<T>>)

  /**
   A patch's destination line: none (a rename, a change of mode), `/dev/null`, a path as it is, or a path C-quoted,
   which git does to any path that is not plain ASCII unless told not to.
   */
  datatype Dest<T> = Unnamed | Null | Plain(path: seq<T>) | Quoted(bytes: seq<Utf8.Byte>)

  /** One file's patch: the header lines before the `+++` line, its destination, its hunks. */
  datatype FilePatch<T> = FilePatch(preamble: seq<seq<T>>, dest: Dest<T>, hunks: seq<Hunk<T>>)

  function OldCount<T>(lines: seq<BodyLine<T>>): nat {
    if lines == [] then 0
    else (if lines[0].Removed? || lines[0].Context? then 1 else 0) + OldCount(lines[1..])
  }

  function NewCount<T>(lines: seq<BodyLine<T>>): nat {
    if lines == [] then 0
    else (if lines[0].Added? || lines[0].Context? then 1 else 0) + NewCount(lines[1..])
  }

  function AddedText<T>(lines: seq<BodyLine<T>>): seq<seq<T>> {
    if lines == [] then []
    else (if lines[0].Added? then [lines[0].text] else []) + AddedText(lines[1..])
  }

  function AddedInHunks<T>(hunks: seq<Hunk<T>>): seq<seq<T>> {
    if hunks == [] then [] else AddedText(hunks[0].lines) + AddedInHunks(hunks[1..])
  }

  /** A path quoted is named as it is printed, quotes and prefix with it. */
  function QuotedName(bytes: seq<Utf8.Byte>): (name: string)
    ensures Utf8.IsAsciiText(name)
  {
    "\"b/" + (CQuote(bytes) + "\"")
  }

  function NameOf(dest: Dest<char>): string {
    match dest
    case Plain(path) => PathOr(Some(path))
    case Quoted(bytes) => QuotedName(bytes)
    case _ => UNKNOWN_FILE
  }

  function ScanName(p: FilePatch<char>): string {
    NameOf(p.dest)
  }

  /** What `path` gains over all the patches that name it, in order: the scanner's answer, read off the patches. */
  function AddedFor(patches: seq<FilePatch<char>>, path: string): seq<string> {
    if patches == [] then []
    else (if ScanName(patches[0]) == path then AddedInHunks(patches[0].hunks) else []) + AddedFor(patches[1..], path)
  }

  function PrintBody(l: BodyLine<char>): string {
    match l
    case Added(t) => "+" + t
    case Removed(t) => "-" + t
    case Context(t) => " " + t
    case Note(t) => "\\" + t
  }

  function PrintBodies(lines: seq<BodyLine<char>>): seq<string> {
    if lines == [] then [] else [PrintBody(lines[0])] + PrintBodies(lines[1..])
  }

  function PrintRange(start: nat, count: nat, omit: bool): string {
    Decimal.Print(start) + if omit then "" else "," + Decimal.Print(count)
  }

  function PrintHeader(h: Hunk<char>): string {
    "@@ -" + PrintRange(h.oldStart, OldCount(h.lines), h.omitOld)
    + (" +" + (PrintRange(h.newStart, NewCount(h.lines), h.omitNew) + (" @@" + h.section)))
  }

  function PrintHunks(hunks: seq<Hunk<char>>): seq<string> {
    if hunks == [] then [] else [PrintHeader(hunks[0])] + PrintBodies(hunks[0].lines) + PrintHunks(hunks[1..])
  }

  function PrintDest(dest: Dest<char>): seq<string> {
    match dest
    case Unnamed => []
    case Null => ["+++ /dev/null"]
    case Plain(path) => ["+++ b/" + path]
    case Quoted(bytes) => ["+++ " + QuotedName(bytes)]
  }

  function PrintPatch(p: FilePatch<char>): seq<string> {
    p.preamble + PrintDest(p.dest) + PrintHunks(p.hunks)
  }

  function PrintPatches(patches: seq<FilePatch<char>>): seq<string> {
    if patches == [] then [] else PrintPatch(patches[0]) + PrintPatches(patches[1..])
  }

  /** A count may be omitted only where it is 1; content is unrestricted but for the line break. */
  predicate HunkFits<T>(h: Hunk<T>) {
    && (h.omitOld ==> OldCount(h.lines) == 1)
    && (h.omitNew ==> NewCount(h.lines) == 1)
  }

  /** A line git writes before a file's hunks: none opens with `@` or `+`. */
  predicate PlainHeader(line: string) {
    line == [] || (line[0] != '@' && line[0] != '+')
  }

  /** Only a patch without hunks goes without a destination line. */
  predicate PatchFits(p: FilePatch<char>) {
    && (p.dest.Unnamed? ==> p.hunks == [])
    && (forall i :: 0 <= i < |p.preamble| ==> PlainHeader(p.preamble[i]))
    && (forall i :: 0 <= i < |p.hunks| ==> HunkFits(p.hunks[i]))
  }

  // --- the walk undoes the printer ---

  lemma RangeOfPrinted(start: nat, count: nat, omit: bool, tail: string)
    requires omit ==> count == 1
    requires tail != [] && tail[0] == ' '
    ensures Range(PrintRange(start, count, omit) + tail) == Some((count, tail))
  {
    hide Decimal.Print, Decimal.Read, Decimal.Leading;
    var d := Decimal.Print(start);
    if omit {
      assert PrintRange(start, count, omit) + tail == d + tail;
      Decimal.LeadingOfDigits(d, tail);
    } else {
      var c := Decimal.Print(count);
      var after := "," + (c + tail);
      assert PrintRange(start, count, omit) + tail == d + after;
      Decimal.LeadingOfDigits(d, after);
      assert after[1..] == c + tail;
      Decimal.LeadingOfDigits(c, tail);
      Decimal.ReadOfPrint(count);
      assert after[1 + |c|..] == tail;
    }
  }

  lemma HeaderFromRanges(oldRange: string, oldCount: nat, newRange: string, newCount: nat, section: string)
    requires Range(oldRange) == Some((oldCount, " +" + newRange))
    requires Range(newRange) == Some((newCount, " @@" + section))
    ensures HunkHeader("@@ -" + oldRange) == Some((oldCount, newCount))
  {
    assert ("@@ -" + oldRange)[4..] == oldRange;
    assert (" +" + newRange)[2..] == newRange;
  }

  lemma HeaderOfPrinted(h: Hunk<char>)
    requires HunkFits(h)
    ensures HunkHeader(PrintHeader(h)) == Some((OldCount(h.lines), NewCount(h.lines)))
  {
    hide HunkHeader, Range, PrintRange;
    var tail := " @@" + h.section;
    var newRange := PrintRange(h.newStart, NewCount(h.lines), h.omitNew) + tail;
    var oldRange := PrintRange(h.oldStart, OldCount(h.lines), h.omitOld) + (" +" + newRange);
    RangeOfPrinted(h.oldStart, OldCount(h.lines), h.omitOld, " +" + newRange);
    RangeOfPrinted(h.newStart, NewCount(h.lines), h.omitNew, tail);
    HeaderFromRanges(oldRange, OldCount(h.lines), newRange, NewCount(h.lines), h.section);
    assert PrintHeader(h) == "@@ -" + oldRange;
  }

  function Extend(added: map<string, seq<string>>, path: string, lines: seq<string>): map<string, seq<string>>
    decreases |lines|
  {
    if lines == [] then added else Extend(Append(added, path, lines[0]), path, lines[1..])
  }

  lemma {:induction false} LookupExtend(added: map<string, seq<string>>, path: string, lines: seq<string>,
                                        other: string)
    ensures Lookup(Extend(added, path, lines), other) == Lookup(added, other) + if other == path then lines else []
    ensures other in Extend(added, path, lines) <==> other in added || (other == path && lines != [])
    decreases |lines|
  {
    if lines != [] {
      LookupExtend(Append(added, path, lines[0]), path, lines[1..], other);
      assert [lines[0]] + lines[1..] == lines;
      assert Lookup(added, path) + [lines[0]] + lines[1..] == Lookup(added, path) + ([lines[0]] + lines[1..]);
    }
  }

  lemma {:induction false} ExtendAppend(added: map<string, seq<string>>, path: string, a: seq<string>, b: seq<string>)
    ensures Extend(added, path, a + b) == Extend(Extend(added, path, a), path, b)
    decreases |a|
  {
    if a == [] {
      assert a + b == b;
    } else {
      assert (a + b)[1..] == a[1..] + b;
      ExtendAppend(Append(added, path, a[0]), path, a[1..], b);
    }
  }

  lemma NoteIsNoHeader(l: BodyLine<char>)
    ensures l.Note? ==> HunkHeader(PrintBody(l)).None? && !StartsWith(PrintBody(l), "+++ ")
  {
    if l.Note? {
      assert PrintBody(l)[0] == '\\';
    }
  }

  lemma FeedOfBody(w: Walk, l: BodyLine<char>)
    requires w.InBody()
    ensures Feed(w, PrintBody(l)) == match l
                                     case Added(t) => w.(added := Append(w.added, w.path, t), newLeft := w.newLeft - 1)
                                     case Removed(_) => w.(oldLeft := w.oldLeft - 1)
                                     case Context(_) => w.(oldLeft := w.oldLeft - 1, newLeft := w.newLeft - 1)
                                     case Note(_) => w
  {
    var line := PrintBody(l);
    assert line[1..] == l.text;
    assert forall c :: StartsWith(line, [c]) <==> line[0] == c;
  }

  /** A body is consumed whole, whatever its lines hold: both counters end at zero. */
  lemma {:induction false} BodyWalk(w: Walk, lines: seq<BodyLine<char>>)
    requires w.oldLeft == OldCount(lines) && w.newLeft == NewCount(lines)
    ensures FeedAll(w, PrintBodies(lines)) == Walk(w.path, 0, 0, Extend(w.added, w.path, AddedText(lines)))
    decreases |lines|
  {
    if lines != [] {
      hide HunkHeader, DiffPath, FeedBody, PrintBody;
      var line := PrintBody(lines[0]);
      NoteIsNoHeader(lines[0]);
      FeedFirst(w, line, PrintBodies(lines[1..]));
      var next := Feed(w, line);
      if w.InBody() {
        FeedOfBody(w, lines[0]);
      }
      if lines[0].Added? {
        var t := lines[0].text;
        ExtendAppend(w.added, w.path, [t], AddedText(lines[1..]));
        assert Extend(w.added, w.path, [t]) == Append(w.added, w.path, t) by {
          ExtendNone(Append(w.added, w.path, t), w.path, [t][1..]);
        }
      } else {
        assert AddedText(lines) == AddedText(lines[1..]);
      }
      BodyWalk(next, lines[1..]);
    }
  }

  lemma ExtendNone(added: map<string, seq<string>>, path: string, lines: seq<string>)
    requires lines == []
    ensures Extend(added, path, lines) == added
  {
  }

  lemma HeaderIsNoDest(h: Hunk<char>)
    ensures !StartsWith(PrintHeader(h), "+++ ")
  {
    hide PrintRange;
    assert PrintHeader(h)[0] == '@';
  }

  lemma {:induction false} HunksWalk(w: Walk, hunks: seq<Hunk<char>>)
    requires w.oldLeft == 0 && w.newLeft == 0
    requires forall i :: 0 <= i < |hunks| ==> HunkFits(hunks[i])
    ensures FeedAll(w, PrintHunks(hunks)) == Walk(w.path, 0, 0, Extend(w.added, w.path, AddedInHunks(hunks)))
    decreases |hunks|
  {
    hide HunkHeader, PrintHeader, DiffPath, PathOr, FeedAll, Extend, PrintBodies, AddedText;
    if hunks == [] {
      FeedNone(w, PrintHunks(hunks));
      ExtendNone(w.added, w.path, AddedInHunks(hunks));
    } else {
      var h := hunks[0];
      HeaderOfPrinted(h);
      HeaderIsNoDest(h);
      var entered := w.(oldLeft := OldCount(h.lines), newLeft := NewCount(h.lines));
      assert Feed(w, PrintHeader(h)) == entered;
      var rest := PrintHunks(hunks[1..]);
      assert PrintHunks(hunks) == [PrintHeader(h)] + (PrintBodies(h.lines) + rest);
      FeedFirst(w, PrintHeader(h), PrintBodies(h.lines) + rest);
      FeedAppend(entered, PrintBodies(h.lines), rest);
      BodyWalk(entered, h.lines);
      HunksWalk(FeedAll(entered, PrintBodies(h.lines)), hunks[1..]);
      ExtendAppend(w.added, w.path, AddedText(h.lines), AddedInHunks(hunks[1..]));
    }
  }

  lemma {:induction false} PreambleWalk(w: Walk, lines: seq<string>)
    requires w.oldLeft == 0 && w.newLeft == 0
    requires forall i :: 0 <= i < |lines| ==> PlainHeader(lines[i])
    ensures FeedAll(w, lines) == w
  {
    if lines != [] {
      PreambleWalk(w, lines[..|lines| - 1]);
    }
  }

  lemma DestFeeds(w: Walk, p: FilePatch<char>)
    requires w.oldLeft == 0 && w.newLeft == 0
    ensures FeedAll(w, PrintDest(p.dest)) == if p.dest.Unnamed? then w else w.(path := ScanName(p))
  {
    hide Range, CQuote, QuotedName;
    match p.dest {
      case Unnamed => FeedNone(w, PrintDest(p.dest));
      case Null => NamedFeeds(w, "/dev/null");
      case Plain(path) =>
        assert ("b/" + path)[2..] == path && ("b/" + path)[0] == 'b';
        assert "+++ b/" + path == "+++ " + ("b/" + path);
        NamedFeeds(w, "b/" + path);
      case Quoted(bytes) =>
        QuotedOpens(bytes);
        NamedFeeds(w, QuotedName(bytes));
    }
  }

  lemma QuotedOpens(bytes: seq<Utf8.Byte>)
    ensures StartsWith(QuotedName(bytes), "\"b/") && QuotedName(bytes)[0] == '"'
  {
    assert QuotedName(bytes)[..3] == "\"b/";
  }

  lemma NamedFeeds(w: Walk, name: string)
    requires w.oldLeft == 0 && w.newLeft == 0
    ensures FeedAll(w, ["+++ " + name]) == w.(path := PathOr(
      if name == "/dev/null" then None else Some(if StartsWith(name, "b/") then name[2..] else name)))
  {
    hide Range;
    var line := "+++ " + name;
    assert line[0] == '+' && line[4..] == name;
    FeedOne(w, line);
  }

  lemma PatchWalk(w: Walk, p: FilePatch<char>)
    requires w.oldLeft == 0 && w.newLeft == 0 && PatchFits(p)
    ensures FeedAll(w, PrintPatch(p))
      == Walk(if p.dest.Unnamed? then w.path else ScanName(p), 0, 0,
        Extend(w.added, ScanName(p), AddedInHunks(p.hunks)))
  {
    var named := if p.dest.Unnamed? then w else w.(path := ScanName(p));
    hide Feed, FeedAll, PrintHunks, PrintDest, ScanName, Extend;
    assert PrintPatch(p) == p.preamble + (PrintDest(p.dest) + PrintHunks(p.hunks));
    FeedAppend(w, p.preamble, PrintDest(p.dest) + PrintHunks(p.hunks));
    PreambleWalk(w, p.preamble);
    FeedAppend(w, PrintDest(p.dest), PrintHunks(p.hunks));
    DestFeeds(w, p);
    HunksWalk(named, p.hunks);
    if p.dest.Unnamed? {
      ExtendNone(w.added, w.path, AddedInHunks(p.hunks));
      ExtendNone(w.added, ScanName(p), AddedInHunks(p.hunks));
    }
  }

  /** Two files whose paths are quoted are never named alike. */
  lemma QuotedNamesApart(p: seq<Utf8.Byte>, q: seq<Utf8.Byte>)
    ensures NameOf(Quoted(p)) == NameOf(Quoted(q)) <==> p == q
  {
    hide CQuote;
    var a, b := QuotedName(p), QuotedName(q);
    if a == b {
      assert a[3..|a| - 1] == CQuote(p) && b[3..|b| - 1] == CQuote(q);
      CQuoteApart(p, q);
    }
  }

  /** What one patch adds to what is collected for a path. */
  function AddedBy(p: FilePatch<char>, path: string): seq<string> {
    if ScanName(p) == path then AddedInHunks(p.hunks) else []
  }

  lemma AddedForFirst(patches: seq<FilePatch<char>>, path: string)
    requires patches != []
    ensures AddedFor(patches, path) == AddedBy(patches[0], path) + AddedFor(patches[1..], path)
  {
    hide ScanName, AddedInHunks;
  }

  /** From one walk to another, outside any hunk, a path gains these lines. */
  predicate Gains(w: Walk, end: Walk, path: string, lines: seq<string>) {
    && end.oldLeft == 0 && end.newLeft == 0
    && Lookup(end.added, path) == Lookup(w.added, path) + lines
    && (path in end.added <==> path in w.added || lines != [])
  }

  lemma GainsAppend(w: Walk, mid: Walk, end: Walk, path: string, a: seq<string>, b: seq<string>)
    requires Gains(w, mid, path, a) && Gains(mid, end, path, b)
    ensures Gains(w, end, path, a + b)
  {
    hide Lookup;
    assert Lookup(w.added, path) + a + b == Lookup(w.added, path) + (a + b);
  }

  lemma PatchStep(w: Walk, p: FilePatch<char>, path: string)
    requires w.oldLeft == 0 && w.newLeft == 0 && PatchFits(p)
    ensures Gains(w, FeedAll(w, PrintPatch(p)), path, AddedBy(p, path))
  {
    hide FeedAll, PrintPatch, ScanName, Extend, AddedInHunks, PatchFits, Lookup;
    PatchWalk(w, p);
    LookupExtend(w.added, ScanName(p), AddedInHunks(p.hunks), path);
  }

  lemma GainsZero(w: Walk, end: Walk, path: string, lines: seq<string>)
    requires Gains(w, end, path, lines)
    ensures end.oldLeft == 0 && end.newLeft == 0
  {
  }

  lemma NoPatches(w: Walk, patches: seq<FilePatch<char>>, path: string)
    requires w.oldLeft == 0 && w.newLeft == 0 && patches == []
    ensures Gains(w, FeedAll(w, PrintPatches(patches)), path, AddedFor(patches, path))
  {
    FeedNone(w, PrintPatches(patches));
  }

  lemma {:induction false} PatchesWalk(w: Walk, patches: seq<FilePatch<char>>, path: string)
    requires w.oldLeft == 0 && w.newLeft == 0
    requires forall i :: 0 <= i < |patches| ==> PatchFits(patches[i])
    ensures Gains(w, FeedAll(w, PrintPatches(patches)), path, AddedFor(patches, path))
    decreases |patches|
  {
    hide FeedAll, PrintPatch, AddedBy, PatchFits, Gains, AddedFor;
    if patches == [] {
      NoPatches(w, patches, path);
    } else {
      var mid := FeedAll(w, PrintPatch(patches[0]));
      FeedAppend(w, PrintPatch(patches[0]), PrintPatches(patches[1..]));
      PatchStep(w, patches[0], path);
      GainsZero(w, mid, path, AddedBy(patches[0], path));
      PatchesWalk(mid, patches[1..], path);
      AddedForFirst(patches, path);
      GainsAppend(w, mid, FeedAll(mid, PrintPatches(patches[1..])), path, AddedBy(patches[0], path),
        AddedFor(patches[1..], path));
    }
  }

  /** Main result: the walk over a printed diff collects for each path exactly its added lines, in order. */
  lemma WalkUndoesPrint(patches: seq<FilePatch<char>>, path: string)
    requires forall i :: 0 <= i < |patches| ==> PatchFits(patches[i])
    ensures var added := FeedAll(START, PrintPatches(patches) + [""]).added;
            && Lookup(added, path) == AddedFor(patches, path)
            && (path in added <==> AddedFor(patches, path) != [])
  {
    var lines := PrintPatches(patches);
    PatchesWalk(START, patches, path);
    FeedAppend(START, lines, [""]);
    FeedOne(FeedAll(START, lines), "");
  }

  // --- what is reported ---

  /** Where, and what was found: a signature's name or a marker's position. */
  datatype Hit = Hit(path: string, identification: string)

  function MarkerName(k: nat): string {
    "private-marker #" + Decimal.Print(k)
  }

  /** Hits order by path, then by what was found. */
  predicate HitLess(a: Hit, b: Hit) {
    Order.Less(a.path, b.path) || (a.path == b.path && Order.Less(a.identification, b.identification))
  }

  predicate Increasing(hits: seq<Hit>) {
    forall i, j :: 0 <= i < j < |hits| ==> HitLess(hits[i], hits[j])
  }

  /** The hits listed are exactly these, each once and in order. */
  ghost predicate Lists(hits: seq<Hit>, found: set<Hit>) {
    Increasing(hits) && forall h :: h in hits <==> h in found
  }

  lemma HitLessTotal(a: Hit, b: Hit)
    ensures a == b || HitLess(a, b) || HitLess(b, a)
  {
    Order.LessTotal(a.path, b.path);
    Order.LessTotal(a.identification, b.identification);
  }

  lemma HitLessTransitive(a: Hit, b: Hit, c: Hit)
    requires HitLess(a, b) && HitLess(b, c)
    ensures HitLess(a, c)
  {
    hide Order.Less;
    if Order.Less(a.path, b.path) && Order.Less(b.path, c.path) {
      Order.LessTransitive(a.path, b.path, c.path);
    }
    if Order.Less(a.identification, b.identification) && Order.Less(b.identification, c.identification) {
      Order.LessTransitive(a.identification, b.identification, c.identification);
    }
  }

  /** A new hit put after those below it. */
  lemma InsertLists(hits: seq<Hit>, i: nat, h: Hit, found: set<Hit>)
    requires Lists(hits, found) && h !in found && i <= |hits|
    requires (forall k :: 0 <= k < i ==> HitLess(hits[k], h)) && (i < |hits| ==> !HitLess(hits[i], h))
    ensures Lists(hits[..i] + [h] + hits[i..], found + {h})
  {
    hide HitLess;
    var out := hits[..i] + [h] + hits[i..];
    forall k | i <= k < |hits|
      ensures HitLess(h, hits[k])
    {
      HitLessTotal(h, hits[i]);
      assert hits[i] in hits;
      if i < k {
        HitLessTransitive(h, hits[i], hits[k]);
      }
    }
    forall x
      ensures x in out <==> x in found + {h}
    {
      assert hits == hits[..i] + hits[i..];
    }
  }

  /** The hits sorted. */
  method SortHits(found: set<Hit>) returns (hits: seq<Hit>)
    ensures Lists(hits, found)
  {
    hide HitLess;
    hits := [];
    var pending := found;
    while pending != {}
      invariant pending <= found && Lists(hits, found - pending)
      decreases pending
    {
      var h :| h in pending;
      var i := 0;
      while i < |hits| && HitLess(hits[i], h)
        invariant i <= |hits| && forall k :: 0 <= k < i ==> HitLess(hits[k], h)
      {
        i := i + 1;
      }
      InsertLists(hits, i, h, found - pending);
      assert found - (pending - {h}) == found - pending + {h};
      hits := hits[..i] + [h] + hits[i..];
      pending := pending - {h};
    }
    assert found - pending == found;
  }

  /** What the scan is configured with: the built-in signatures, the path mask and the markers. */
  datatype Policy = Policy(
    signatures: string -> set<string>,
    mask: string -> string,
    markers: seq<string>,
    configPath: string)

  function AddedTextOf(lines: seq<string>): string {
    JoinWith(lines, '\n')
  }

  /** Marker `k`, counted from 1, is there and not empty. */
  predicate HasMarker(policy: Policy, k: nat) {
    1 <= k <= |policy.markers| && policy.markers[k - 1] != ""
  }

  predicate Matches(policy: Policy, text: string, k: nat) {
    HasMarker(policy, k) && Contains(text, policy.markers[k - 1])
  }

  /** Marker `k` is found in what `path` gained, and `path` is not where the markers are declared. */
  predicate Leaks(policy: Policy, added: map<string, seq<string>>, path: string, k: nat) {
    path in added && Matches(policy, AddedTextOf(added[path]), k) && path != policy.configPath
  }

  ghost function SignatureHits(policy: Policy, added: map<string, seq<string>>, paths: set<string>): set<Hit>
    requires paths <= added.Keys
  {
    set p, s | p in paths && s in policy.signatures(AddedTextOf(added[p])) :: Hit(policy.mask(p), s)
  }

  ghost function MarkerHits(policy: Policy, added: map<string, seq<string>>): set<Hit> {
    set p, k: nat | p in added && k <= |policy.markers| && Leaks(policy, added, p, k) ::
      Hit(policy.mask(p), MarkerName(k))
  }

  /** The hits a scan owes: every signature match, and every marker match outside the declaring file. */
  ghost function HitsOf(policy: Policy, added: map<string, seq<string>>): set<Hit> {
    SignatureHits(policy, added, added.Keys) + MarkerHits(policy, added)
  }

  /** The hits and, for each marker, the files it occurs in: the loop over what the walk collected. */
  method Occurrences(added: map<string, seq<string>>, policy: Policy)
    returns (hits: set<Hit>, occurrences: map<nat, set<string>>)
    ensures hits == SignatureHits(policy, added, added.Keys)
    ensures forall k: nat :: k in occurrences <==> HasMarker(policy, k)
    ensures forall k, p :: k in occurrences ==>
      (p in occurrences[k] <==> p in added && Matches(policy, AddedTextOf(added[p]), k))
  {
    hide Contains, AddedTextOf, SignatureHits;
    hits := {};
    occurrences := map k: nat | k <= |policy.markers| && HasMarker(policy, k) :: {};
    var pending := added.Keys;
    NoSignatures(policy, added);
    assert added.Keys - pending == {};
    while pending != {}
      invariant pending <= added.Keys
      invariant hits == SignatureHits(policy, added, added.Keys - pending)
      invariant forall k: nat :: k in occurrences <==> HasMarker(policy, k)
      invariant forall k, p :: k in occurrences ==>
        (p in occurrences[k] <==> p in added.Keys - pending && Matches(policy, AddedTextOf(added[p]), k))
      decreases pending
    {
      var path :| path in pending;
      var addedText := AddedTextOf(added[path]);
      SignaturesOf(policy, added, added.Keys - pending, path);
      hits := hits + set s | s in policy.signatures(addedText) :: Hit(policy.mask(path), s);
      assert added.Keys - (pending - {path}) == added.Keys - pending + {path};
      occurrences := map k | k in occurrences ::
        if Contains(addedText, policy.markers[k - 1]) then occurrences[k] + {path} else occurrences[k];
      pending := pending - {path};
    }
    assert added.Keys - pending == added.Keys;
  }

  lemma NoSignatures(policy: Policy, added: map<string, seq<string>>)
    ensures SignatureHits(policy, added, {}) == {}
  {
  }

  lemma SignaturesOf(policy: Policy, added: map<string, seq<string>>, paths: set<string>, path: string)
    requires paths <= added.Keys && path in added
    ensures SignatureHits(policy, added, paths + {path})
      == SignatureHits(policy, added, paths) + set s | s in policy.signatures(AddedTextOf(added[path])) ::
        Hit(policy.mask(path), s)
  {
    hide AddedTextOf;
  }

  /** Report every added text that matches, sorted. */
  method ScanDiff(text: string, policy: Policy) returns (hits: seq<Hit>)
    ensures Lists(hits, HitsOf(policy, FeedAll(START, SplitOn(text, '\n')).added))
  {
    hide Contains, AddedTextOf, FeedAll, SplitOn, SignatureHits, Lists, MarkerName;
    var added := CollectAdded(text);
    var found, occurrences := Occurrences(added, policy);
    var elsewhere :=
      set k, p | k in occurrences && p in occurrences[k] && p != policy.configPath ::
        Hit(policy.mask(p), MarkerName(k));
    assert elsewhere == MarkerHits(policy, added);
    hits := SortHits(found + elsewhere);
  }

  // --- what is reported, in the configuration's own terms ---

  /** What a path gained, as one text. */
  function Gained(added: map<string, seq<string>>, path: string): string
    requires path in added
  {
    JoinWith(added[path], '\n')
  }

  /** The identification is that of a marker that is not empty and stands in the text, by its position from 1. */
  predicate Marked(markers: seq<string>, text: string, identification: string) {
    exists k :: 0 <= k < |markers| && MarkedBy(markers, text, identification, k)
  }

  predicate MarkedBy(markers: seq<string>, text: string, identification: string, k: nat)
    requires k < |markers|
  {
    && markers[k] != ""
    && Contains(text, markers[k])
    && identification == "private-marker #" + Decimal.Print(k + 1)
  }

  lemma MarkedIs(policy: Policy, added: map<string, seq<string>>, p: string, identification: string)
    requires p in added
    ensures p != policy.configPath && Marked(policy.markers, Gained(added, p), identification) <==>
      exists k: nat :: k <= |policy.markers| && Leaks(policy, added, p, k) && identification == MarkerName(k)
  {
    hide Contains, JoinWith, Decimal.Print;
    var text := Gained(added, p);
    if k :| 0 <= k < |policy.markers| && MarkedBy(policy.markers, text, identification, k) {
      assert p != policy.configPath ==> Leaks(policy, added, p, k + 1);
    }
    if k: nat :| k <= |policy.markers| && Leaks(policy, added, p, k) && identification == MarkerName(k) {
      var n := k - 1;
      assert MarkedBy(policy.markers, text, identification, n);
    }
  }

  /**
   A hit is owed exactly for a path that gained text, shown as masked, with a signature found in that text, or the
   position of a marker that is not empty and stands in it, where the path is not the one declaring the markers.
   */
  lemma HitsExactly(policy: Policy, added: map<string, seq<string>>, h: Hit)
    ensures h in HitsOf(policy, added) <==>
      exists p ::
        && p in added && h.path == policy.mask(p)
        && (h.identification in policy.signatures(Gained(added, p))
              || (p != policy.configPath && Marked(policy.markers, Gained(added, p), h.identification)))
  {
    hide Contains, JoinWith, Marked, Matches, MarkerName, SignatureHits, MarkerHits;
    forall p | p in added
      ensures p != policy.configPath && Marked(policy.markers, Gained(added, p), h.identification) <==>
        exists k: nat :: k <= |policy.markers| && Leaks(policy, added, p, k) && h.identification == MarkerName(k)
    {
      MarkedIs(policy, added, p, h.identification);
    }
    HitParts(policy, added, h);
  }

  predicate ShownAs(policy: Policy, h: Hit, p: string, k: nat) {
    h.path == policy.mask(p) && h.identification == MarkerName(k)
  }

  lemma HitParts(policy: Policy, added: map<string, seq<string>>, h: Hit)
    ensures h in SignatureHits(policy, added, added.Keys) <==>
      exists p :: p in added && h.path == policy.mask(p) && h.identification in policy.signatures(Gained(added, p))
    ensures h in MarkerHits(policy, added) <==>
      exists p, k: nat :: k <= |policy.markers| && Leaks(policy, added, p, k) && ShownAs(policy, h, p, k)
  {
    hide Contains, JoinWith, Matches, MarkerName;
    if p :| p in added && h.path == policy.mask(p) && h.identification in policy.signatures(Gained(added, p)) {
      assert h == Hit(policy.mask(p), h.identification);
    }
    if p, k: nat :| k <= |policy.markers| && Leaks(policy, added, p, k) && ShownAs(policy, h, p, k) {
      assert h == Hit(policy.mask(p), MarkerName(k));
    }
  }

  // --- what a hunk header can be ---

  /** A range's text: digits, or digits, a comma and digits. */
  ghost predicate SpellsRange(s: string, count: nat) {
    || (s != "" && Decimal.AllDigits(s) && count == 1)
    || exists d, e :: d != "" && e != "" && Decimal.AllDigits(d) && Decimal.AllDigits(e) && s == d + "," + e
         && count == Decimal.Read(e)
  }

  lemma RangeShape(s: string) returns (own: string)
    requires Range(s).Some?
    ensures SpellsRange(own, Range(s).value.0) && s == own + Range(s).value.1
  {
    hide Decimal.Read;
    var k := Decimal.Leading(s);
    var rest := s[k..];
    var m := if rest != [] && rest[0] == ',' then Decimal.Leading(rest[1..]) else 0;
    if m == 0 {
      own := s[..k];
    } else {
      var d, e := s[..k], rest[1..][..m];
      own := d + "," + e;
      assert rest == "," + e + rest[1 + m..];
      assert s == own + rest[1 + m..];
    }
  }

  /** Only a line of a hunk header's shape opens a hunk: its two ranges between `@@ -`, ` +` and ` @@`. */
  lemma HeaderOnly(line: string) returns (before: string, after: string, tail: string)
    requires HunkHeader(line).Some?
    ensures SpellsRange(before, HunkHeader(line).value.0) && SpellsRange(after, HunkHeader(line).value.1)
    ensures line == "@@ -" + before + " +" + after + " @@" + tail
  {
    hide Range, SpellsRange;
    before := RangeShape(line[4..]);
    var rest := Range(line[4..]).value.1;
    after := RangeShape(rest[2..]);
    tail := Range(rest[2..]).value.1[3..];
    assert line == "@@ -" + line[4..] && rest == " +" + rest[2..] && Range(rest[2..]).value.1 == " @@" + tail;
    assert line == "@@ -" + (before + (" +" + (after + (" @@" + tail))));
  }
}
