/**
 The scan from raw bytes to hits: what the lossy decode hands the walk, and why no byte content
 can hide an added marker.
 */
module LeakScan {
  import opened Text
  import opened Utf8
  import opened LossyDecode
  import opened DiffScan
  import opened QuotedPath

  // --- printing a patch whose content is bytes ---

  function BodyMark<T>(l: BodyLine<T>): char {
    match l
    case Added(_) => '+'
    case Removed(_) => '-'
    case Context(_) => ' '
    case Note(_) => '\\'
  }

  function BodyBytes(l: BodyLine<Byte>): seq<Byte> {
    Bytes([BodyMark(l)]) + l.text
  }

  function BodiesBytes(lines: seq<BodyLine<Byte>>): seq<seq<Byte>> {
    if lines == [] then [] else [BodyBytes(lines[0])] + BodiesBytes(lines[1..])
  }

  /** A hunk header up to its section heading: ASCII whatever the content. */
  function HeaderText<T>(h: Hunk<T>): (s: string)
    ensures IsAsciiText(s)
  {
    "@@ -" + PrintRange(h.oldStart, OldCount(h.lines), h.omitOld)
    + " +" + PrintRange(h.newStart, NewCount(h.lines), h.omitNew) + " @@"
  }

  function HunksBytes(hunks: seq<Hunk<Byte>>): seq<seq<Byte>> {
    if hunks == [] then []
    else [Bytes(HeaderText(hunks[0])) + hunks[0].section] + BodiesBytes(hunks[0].lines) + HunksBytes(hunks[1..])
  }

  function DestBytes(dest: Dest<Byte>): seq<seq<Byte>> {
    match dest
    case Unnamed => []
    case Null => [Bytes("+++ /dev/null")]
    case Plain(path) => [Bytes("+++ b/") + path]
    case Quoted(bytes) => [Bytes("+++ " + QuotedName(bytes))]
  }

  function PatchBytes(p: FilePatch<Byte>): seq<seq<Byte>> {
    p.preamble + DestBytes(p.dest) + HunksBytes(p.hunks)
  }

  function PatchesBytes(patches: seq<FilePatch<Byte>>): seq<seq<Byte>> {
    if patches == [] then [] else PatchBytes(patches[0]) + PatchesBytes(patches[1..])
  }

  /** The raw diff: every line closed by a line feed. */
  function RawDiff(patches: seq<FilePatch<Byte>>): seq<Byte> {
    Terminated(PatchesBytes(patches), LF)
  }

  // --- what git writes: the only demands are on the header lines and on line feeds ---

  predicate PlainHeaderBytes(line: seq<Byte>) {
    line != [] && line[0] < 0x80 && line[0] != '@' as int && line[0] != '+' as int && LF !in line
  }

  predicate HunkBytesFit(h: Hunk<Byte>) {
    HunkFits(h) && LF !in h.section && forall i :: 0 <= i < |h.lines| ==> LF !in h.lines[i].text
  }

  predicate PatchBytesFit(p: FilePatch<Byte>) {
    && p.preamble != [] && StartsWith(p.preamble[0], DiffGit())
    && (forall i :: 0 <= i < |p.preamble| ==> PlainHeaderBytes(p.preamble[i]))
    && (p.dest.Unnamed? ==> p.hunks == []) && (p.dest.Plain? ==> LF !in p.dest.path)
    && (forall i :: 0 <= i < |p.hunks| ==> HunkBytesFit(p.hunks[i]))
  }

  predicate PatchesFit(patches: seq<FilePatch<Byte>>) {
    forall i :: 0 <= i < |patches| ==> PatchBytesFit(patches[i])
  }

  // --- the text patch the decode leaves ---

  function DecodeBody(l: BodyLine<Byte>): BodyLine<char> {
    match l
    case Added(t) => Added(DecodeWith(t, Replace))
    case Removed(t) => Removed(DecodeWith(t, Replace))
    case Context(t) => Context(DecodeWith(t, Replace))
    case Note(t) => Note(DecodeWith(t, Replace))
  }

  function DecodeBodies(lines: seq<BodyLine<Byte>>): seq<BodyLine<char>> {
    if lines == [] then [] else [DecodeBody(lines[0])] + DecodeBodies(lines[1..])
  }

  function DecodeHunk(h: Hunk<Byte>): Hunk<char> {
    Hunk(h.oldStart, h.newStart, h.omitOld, h.omitNew, DecodeWith(h.section, Replace), DecodeBodies(h.lines))
  }

  function DecodeHunks(hunks: seq<Hunk<Byte>>): (out: seq<Hunk<char>>)
    ensures |out| == |hunks| && forall i :: 0 <= i < |hunks| ==> out[i] == DecodeHunk(hunks[i])
  {
    if hunks == [] then [] else [DecodeHunk(hunks[0])] + DecodeHunks(hunks[1..])
  }

  function DecodeHeaders(lines: seq<seq<Byte>>): (out: seq<string>)
    ensures |out| == |lines| && forall i :: 0 <= i < |lines| ==> out[i] == DecodeLine(lines[i], false)
  {
    if lines == [] then [] else [DecodeLine(lines[0], false)] + DecodeHeaders(lines[1..])
  }

  function DecodeDest(dest: Dest<Byte>): Dest<char> {
    match dest
    case Unnamed => Unnamed
    case Null => Null
    case Plain(path) => Plain(DecodeWith(path, BackslashReplace))
    case Quoted(bytes) => Quoted(bytes)
  }

  function DecodePatch(p: FilePatch<Byte>): FilePatch<char> {
    FilePatch(DecodeHeaders(p.preamble), DecodeDest(p.dest), DecodeHunks(p.hunks))
  }

  function DecodePatches(patches: seq<FilePatch<Byte>>): (out: seq<FilePatch<char>>)
    ensures |out| == |patches| && forall i :: 0 <= i < |patches| ==> out[i] == DecodePatch(patches[i])
  {
    if patches == [] then [] else [DecodePatch(patches[0])] + DecodePatches(patches[1..])
  }

  lemma {:induction false} CountsKept(lines: seq<BodyLine<Byte>>)
    ensures OldCount(DecodeBodies(lines)) == OldCount(lines)
    ensures NewCount(DecodeBodies(lines)) == NewCount(lines)
  {
    if lines != [] {
      CountsKept(lines[1..]);
    }
  }

  lemma InHunkDecode(line: seq<Byte>)
    ensures DecodeLine(line, true) == DecodeWith(line, Replace)
  {
  }

  lemma PathLineDecode(line: seq<Byte>)
    requires IsPathLine(line)
    ensures DecodeLine(line, false) == DecodeWith(line, BackslashReplace)
  {
    if WellFormed(line) {
      HandlerIrrelevant(line, Replace, BackslashReplace);
    }
  }

  lemma DecodedPrefix(s: string, tail: seq<Byte>, handler: Handler)
    requires IsAsciiText(s)
    ensures DecodeWith(Bytes(s) + tail, handler) == s + DecodeWith(tail, handler)
  {
    EncodeOfAscii(s);
    AsciiPrefix(Bytes(s), tail, handler);
  }

  lemma BodyDecoded(l: BodyLine<Byte>)
    ensures DecodeLine(BodyBytes(l), true) == PrintBody(DecodeBody(l))
    ensures EntersHunks(BodyBytes(l), true) && !StartsWith(BodyBytes(l), DiffGit())
  {
    hide DecodeLine;
    InHunkDecode(BodyBytes(l));
    DecodedPrefix([BodyMark(l)], l.text, Replace);
    assert BodyBytes(l)[0] != 'd' as int;
  }

  lemma {:induction false} BodiesDecoded(lines: seq<BodyLine<Byte>>, rest: seq<seq<Byte>>)
    ensures StreamLines(BodiesBytes(lines) + rest, true) == PrintBodies(DecodeBodies(lines)) + StreamLines(rest, true)
  {
    hide DecodeLine, EntersHunks, StartsWith, BodyBytes, DecodeBody, PrintBody;
    if lines == [] {
      assert BodiesBytes(lines) + rest == rest;
    } else {
      BodyDecoded(lines[0]);
      BodiesDecoded(lines[1..], rest);
      assert (BodiesBytes(lines) + rest)[1..] == BodiesBytes(lines[1..]) + rest;
      assert (BodiesBytes(lines) + rest)[0] == BodyBytes(lines[0]);
    }
  }

  lemma HeaderDecoded(h: Hunk<Byte>, inHunks: bool)
    ensures var line := Bytes(HeaderText(h)) + h.section;
            && !StartsWith(line, DiffGit()) && EntersHunks(line, inHunks)
            && DecodeLine(line, true) == PrintHeader(DecodeHunk(h))
  {
    hide DecodeLine, PrintRange, DecodeWith, DecodeBodies;
    var line := Bytes(HeaderText(h)) + h.section;
    InHunkDecode(line);
    DecodedPrefix(HeaderText(h), h.section, Replace);
    CountsKept(h.lines);
    assert forall i :: 0 <= i < 3 ==> line[i] == "@@ -"[i] as int;
    assert line[..3] == HunkMark();
    assert line[0] != DiffGit()[0];
    var a := PrintRange(h.oldStart, OldCount(h.lines), h.omitOld);
    var b := PrintRange(h.newStart, NewCount(h.lines), h.omitNew);
    var s := DecodeWith(h.section, Replace);
    assert "@@ -" + a + " +" + b + " @@" + s == "@@ -" + a + (" +" + (b + (" @@" + s)));
  }

  lemma HunkDecoded(h: Hunk<Byte>, tail: seq<seq<Byte>>, inHunks: bool)
    ensures StreamLines([Bytes(HeaderText(h)) + h.section] + BodiesBytes(h.lines) + tail, inHunks)
         == [PrintHeader(DecodeHunk(h))] + PrintBodies(DecodeHunk(h).lines) + StreamLines(tail, true)
  {
    hide DecodeLine, EntersHunks, StartsWith, PrintHeader, DecodeHunk, BodiesBytes, PrintBodies, HeaderText;
    var header := Bytes(HeaderText(h)) + h.section;
    var all := [header] + BodiesBytes(h.lines) + tail;
    assert all[0] == header && all[1..] == BodiesBytes(h.lines) + tail;
    HeaderDecoded(h, inHunks);
    BodiesDecoded(h.lines, tail);
    DecodedHunkLines(h);
  }

  lemma {:induction false} HunksDecoded(hunks: seq<Hunk<Byte>>, rest: seq<seq<Byte>>, inHunks: bool)
    ensures exists f ::
      StreamLines(HunksBytes(hunks) + rest, inHunks) == PrintHunks(DecodeHunks(hunks)) + StreamLines(rest, f)
  {
    hide StreamLines, PrintHeader, DecodeHunk, BodiesBytes, PrintBodies, HeaderText;
    if hunks == [] {
      assert HunksBytes(hunks) + rest == rest;
      assert StreamLines(HunksBytes(hunks) + rest, inHunks)
        == PrintHunks(DecodeHunks(hunks)) + StreamLines(rest, inHunks);
    } else {
      var h := hunks[0];
      var tail := HunksBytes(hunks[1..]) + rest;
      assert HunksBytes(hunks) + rest == [Bytes(HeaderText(h)) + h.section] + BodiesBytes(h.lines) + tail;
      HunkDecoded(h, tail, inHunks);
      HunksDecoded(hunks[1..], rest, true);
      var f :| StreamLines(tail, true) == PrintHunks(DecodeHunks(hunks[1..])) + StreamLines(rest, f);
      assert StreamLines(HunksBytes(hunks) + rest, inHunks) == PrintHunks(DecodeHunks(hunks)) + StreamLines(rest, f);
    }
  }

  lemma DecodedHunkLines(h: Hunk<Byte>)
    ensures DecodeHunk(h).lines == DecodeBodies(h.lines)
  {
  }

  lemma PlainHeaderFlags(line: seq<Byte>)
    requires PlainHeaderBytes(line)
    ensures !EntersHunks(line, false)
    ensures PlainHeader(DecodeLine(line, false))
  {
    assert line[0] != HunkMark()[0];
    var h := if WellFormed(line) then Replace else HandlerFor(line, false);
    DecodeAsciiHead(line, h);
  }

  lemma {:induction false} HeadersDecoded(lines: seq<seq<Byte>>, rest: seq<seq<Byte>>, inHunks: bool)
    requires forall i :: 0 <= i < |lines| ==> PlainHeaderBytes(lines[i])
    requires inHunks ==> lines != [] && StartsWith(lines[0], DiffGit())
    ensures StreamLines(lines + rest, inHunks) == DecodeHeaders(lines) + StreamLines(rest, false)
  {
    hide DecodeLine, EntersHunks, StartsWith, PlainHeaderBytes;
    if lines == [] {
      assert lines + rest == rest;
    } else {
      PlainHeaderFlags(lines[0]);
      HeadersDecoded(lines[1..], rest, false);
      assert (lines + rest)[1..] == lines[1..] + rest;
    }
  }

  lemma DestDecoded(dest: Dest<Byte>, rest: seq<seq<Byte>>)
    ensures StreamLines(DestBytes(dest) + rest, false) == PrintDest(DecodeDest(dest)) + StreamLines(rest, false)
  {
    hide DecodeLine, DecodeWith, StreamLines, QuotedName;
    match dest {
      case Unnamed => assert DestBytes(dest) + rest == rest;
      case Null => NameDecoded("+++ /dev/null", [], rest);
      case Plain(path) => NameDecoded("+++ b/", path, rest);
      case Quoted(bytes) =>
        QuotedLine(bytes);
        var head := "+++ " + QuotedName(bytes);
        NameDecoded(head, [], rest);
        assert DestBytes(dest) == [Bytes(head)] && PrintDest(DecodeDest(dest)) == [head];
        assert Bytes(head) + [] == Bytes(head);
    }
  }

  lemma QuotedLine(bytes: seq<Byte>)
    ensures var line := "+++ " + QuotedName(bytes);
      IsAsciiText(line) && line[..4] == "+++ "
  {
    hide CQuote;
  }

  /** A destination line decodes to its ASCII head and its path's decode. */
  lemma NameDecoded(head: string, tail: seq<Byte>, rest: seq<seq<Byte>>)
    requires IsAsciiText(head) && |head| >= 4 && head[..4] == "+++ "
    ensures StreamLines([Bytes(head) + tail] + rest, false)
      == [head + DecodeWith(tail, BackslashReplace)] + StreamLines(rest, false)
    ensures tail == [] ==> Bytes(head) + tail == Bytes(head) && head + DecodeWith(tail, BackslashReplace) == head
  {
    hide DecodeLine, DecodeWith;
    var line := Bytes(head) + tail;
    assert forall i :: 0 <= i < 4 ==> line[i] == head[..4][i] as int;
    assert line[..4] == NewName();
    assert line[0] != HunkMark()[0];
    PathLineDecode(line);
    DecodedPrefix(head, tail, BackslashReplace);
    NothingDecodes(BackslashReplace);
    assert tail == [] ==> head + DecodeWith(tail, BackslashReplace) == head;
    assert ([line] + rest)[1..] == rest && ([line] + rest)[0] == line;
  }

  lemma NothingDecodes(handler: Handler)
    ensures DecodeWith([], handler) == ""
  {
  }

  lemma PatchDecoded(p: FilePatch<Byte>, rest: seq<seq<Byte>>, inHunks: bool)
    requires PatchBytesFit(p)
    ensures exists f :: StreamLines(PatchBytes(p) + rest, inHunks) == PrintPatch(DecodePatch(p)) + StreamLines(rest, f)
  {
    hide DecodeLine, EntersHunks, StartsWith, HunksBytes, PrintHunks, DestBytes, PrintDest, DecodeDest;
    var dest := DestBytes(p.dest);
    var tail := HunksBytes(p.hunks) + rest;
    assert PatchBytes(p) + rest == p.preamble + (dest + tail);
    HeadersDecoded(p.preamble, dest + tail, inHunks);
    DestDecoded(p.dest, tail);
    HunksDecoded(p.hunks, rest, false);
    var f :| StreamLines(tail, false) == PrintHunks(DecodeHunks(p.hunks)) + StreamLines(rest, f);
    PatchPrinted(p, StreamLines(rest, f));
  }

  lemma PatchPrinted(p: FilePatch<Byte>, after: seq<string>)
    ensures DecodeHeaders(p.preamble) + (PrintDest(DecodeDest(p.dest)) + (PrintHunks(DecodeHunks(p.hunks)) + after))
      == PrintPatch(DecodePatch(p)) + after
  {
    hide PrintHunks, PrintDest, DecodeDest;
  }

  lemma {:induction false} PatchesDecoded(patches: seq<FilePatch<Byte>>, inHunks: bool)
    requires PatchesFit(patches)
    ensures StreamLines(PatchesBytes(patches) + [[]], inHunks) == PrintPatches(DecodePatches(patches)) + [""]
  {
    hide PatchBytes, PrintPatch, DecodePatch, DecodeLine, StreamLines, PatchBytesFit;
    if patches == [] {
      BlankLine(inHunks);
      assert PatchesBytes(patches) + [[]] == [[]];
    } else {
      var rest := PatchesBytes(patches[1..]) + [[]];
      assert PatchesBytes(patches) + [[]] == PatchBytes(patches[0]) + rest;
      PatchDecoded(patches[0], rest, inHunks);
      var f :| StreamLines(PatchBytes(patches[0]) + rest, inHunks)
        == PrintPatch(DecodePatch(patches[0])) + StreamLines(rest, f);
      PatchesDecoded(patches[1..], f);
    }
  }

  lemma DecodedPatchFits(p: FilePatch<Byte>)
    requires PatchBytesFit(p)
    ensures PatchFits(DecodePatch(p))
  {
    hide DecodeLine, PlainHeader, StartsWith;
    forall i | 0 <= i < |p.preamble|
      ensures PlainHeader(DecodePatch(p).preamble[i])
    {
      PlainHeaderFlags(p.preamble[i]);
    }
    forall i | 0 <= i < |p.hunks|
      ensures HunkFits(DecodeHunks(p.hunks)[i])
    {
      assert HunkBytesFit(p.hunks[i]);
      CountsKept(p.hunks[i].lines);
    }
  }

  // --- no line of a printed diff holds a line feed ---

  lemma {:induction false} BodiesClean(lines: seq<BodyLine<Byte>>)
    requires forall i :: 0 <= i < |lines| ==> LF !in lines[i].text
    ensures forall i :: 0 <= i < |BodiesBytes(lines)| ==> LF !in BodiesBytes(lines)[i]
  {
    if lines != [] {
      BodiesClean(lines[1..]);
    }
  }

  lemma {:induction false} HunksClean(hunks: seq<Hunk<Byte>>)
    requires forall i :: 0 <= i < |hunks| ==> HunkBytesFit(hunks[i])
    ensures forall i :: 0 <= i < |HunksBytes(hunks)| ==> LF !in HunksBytes(hunks)[i]
  {
    if hunks != [] {
      var h := hunks[0];
      assert HunkBytesFit(h);
      BodiesClean(h.lines);
      HunksClean(hunks[1..]);
      HeaderClean(h);
    }
  }

  lemma HeaderClean(h: Hunk<Byte>)
    ensures LF !in Bytes(HeaderText(h))
  {
    RangeClean(h.oldStart, OldCount(h.lines), h.omitOld);
    RangeClean(h.newStart, NewCount(h.lines), h.omitNew);
    hide PrintRange;
    assert '\n' !in HeaderText(h);
  }

  lemma RangeClean(start: nat, count: nat, omit: bool)
    ensures '\n' !in PrintRange(start, count, omit)
  {
  }

  lemma DestClean(dest: Dest<Byte>)
    requires dest.Plain? ==> LF !in dest.path
    ensures forall i :: 0 <= i < |DestBytes(dest)| ==> LF !in DestBytes(dest)[i]
  {
    hide CQuote;
  }

  lemma {:induction false} PatchesClean(patches: seq<FilePatch<Byte>>)
    requires PatchesFit(patches)
    ensures forall i :: 0 <= i < |PatchesBytes(patches)| ==> LF !in PatchesBytes(patches)[i]
  {
    if patches != [] {
      hide HunksBytes, StartsWith;
      var p := patches[0];
      assert PatchBytesFit(p);
      HunksClean(p.hunks);
      assert forall i :: 0 <= i < |p.preamble| ==> PlainHeaderBytes(p.preamble[i]);
      DestClean(p.dest);
      PatchesClean(patches[1..]);
    }
  }

  // --- end to end ---

  function DecodedText(raw: seq<Byte>): string {
    SectionTexts(Sections(raw, 0))
  }

  function Collected(raw: seq<Byte>): map<string, seq<string>> {
    FeedAll(START, SplitOn(DecodedText(raw), '\n')).added
  }

  /** The scan of a raw diff: decode, then walk and match. */
  method LeakScanDiff(raw: seq<Byte>, policy: Policy) returns (hits: seq<Hit>, undecodable: seq<string>)
    ensures Lists(hits, HitsOf(policy, Collected(raw))) && undecodable == LostNames(Sections(raw, 0), false)
  {
    hide Sections, SectionTexts, FeedAll, SplitOn, HitsOf, LostNames, Lists;
    var text;
    text, undecodable := DecodeDiffPerFile(raw, false);
    hits := ScanDiff(text, policy);
  }

  /** Main result: whatever bytes a diff's content holds, each path collects exactly its own added lines, decoded. */
  lemma RawWalkUndoesPrint(patches: seq<FilePatch<Byte>>, path: string)
    requires PatchesFit(patches)
    ensures Lookup(Collected(RawDiff(patches)), path) == AddedFor(DecodePatches(patches), path)
    ensures path in Collected(RawDiff(patches)) <==> AddedFor(DecodePatches(patches), path) != []
  {
    hide Sections, SectionTexts, FeedAll, StreamLines, PatchBytesFit, PatchFits, DecodePatch, PatchesBytes, SplitOn,
      PrintPatches;
    var raw := RawDiff(patches);
    var lines := PatchesBytes(patches);
    PatchesClean(patches);
    SplitTerminated(lines, LF, []);
    assert raw + [] == raw;
    SplitNothing();
    LinesKept(raw);
    PatchesDecoded(patches, false);
    forall i | 0 <= i < |patches|
      ensures PatchFits(DecodePatches(patches)[i])
    {
      DecodedPatchFits(patches[i]);
    }
    WalkUndoesPrint(DecodePatches(patches), path);
  }

  lemma SplitNothing()
    ensures SplitOn<Byte>([], LF) == [[]]
  {
  }

  lemma {:induction false} AddedLinesDecoded(lines: seq<BodyLine<Byte>>, t: seq<Byte>)
    requires t in AddedText(lines)
    ensures DecodeWith(t, Replace) in AddedText(DecodeBodies(lines))
  {
    if lines[0].Added? && lines[0].text == t {
    } else {
      AddedLinesDecoded(lines[1..], t);
    }
  }

  lemma {:induction false} AddedInHunksDecoded(hunks: seq<Hunk<Byte>>, t: seq<Byte>)
    requires t in AddedInHunks(hunks)
    ensures DecodeWith(t, Replace) in AddedInHunks(DecodeHunks(hunks))
  {
    if t in AddedText(hunks[0].lines) {
      AddedLinesDecoded(hunks[0].lines, t);
    } else {
      AddedInHunksDecoded(hunks[1..], t);
    }
  }

  lemma {:induction false} AddedForHas(patches: seq<FilePatch<char>>, i: nat, line: string)
    requires i < |patches| && line in AddedInHunks(patches[i].hunks)
    ensures line in AddedFor(patches, ScanName(patches[i]))
  {
    if i > 0 {
      AddedForHas(patches[1..], i - 1, line);
    }
  }

  /** No destination but the configuration file's own path, as it is, is named as that path. */
  lemma PathNeverForged(dest: Dest<Byte>, configPath: string)
    requires IsAsciiText(configPath) && '\\' !in configPath && !StartsWith(configPath, "\"b/")
    requires configPath != UNKNOWN_FILE
    ensures NameOf(DecodeDest(dest)) == configPath ==> dest == Plain(Bytes(configPath))
  {
    if dest.Plain? && DecodeWith(dest.path, BackslashReplace) == configPath {
      OnlyAsciiReads(dest.path, BackslashReplace, configPath);
      EncodeOfAscii(configPath);
    } else if dest.Quoted? {
      QuotedOpens(dest.bytes);
    }
  }

  /**
   Main result: an ASCII marker inside the bytes of one added line is reported for that file, whatever
   surrounds it in the line and in the diff, unless the file is the one that declares the markers.
   */
  lemma MarkerAlwaysReported(patches: seq<FilePatch<Byte>>, i: nat, line: seq<Byte>, marker: seq<Byte>, policy: Policy,
                             k: nat)
    requires PatchesFit(patches) && i < |patches|
    requires line in AddedInHunks(patches[i].hunks)
    requires marker != [] && IsAscii(marker) && Contains(line, marker)
    requires 1 <= k <= |policy.markers| && policy.markers[k - 1] == Ascii(marker)
    requires IsAsciiText(policy.configPath) && policy.configPath != UNKNOWN_FILE
    requires '\\' !in policy.configPath && !StartsWith(policy.configPath, "\"b/")
    requires patches[i].dest != Plain(Bytes(policy.configPath))
    ensures var name := ScanName(DecodePatch(patches[i]));
            Hit(policy.mask(name), MarkerName(k)) in HitsOf(policy, Collected(RawDiff(patches)))
  {
    hide Collected, RawDiff, PatchesFit, AddedInHunks, AddedFor, Contains, DecodeWith, JoinWith, DecodeHeaders,
      DecodeDest, NameOf,
      SignatureHits, MarkerName;
    var name := ScanName(DecodePatch(patches[i]));
    RawWalkUndoesPrint(patches, name);
    AddedInHunksDecoded(patches[i].hunks, line);
    var shown := DecodeWith(line, Replace);
    AddedForHas(DecodePatches(patches), i, shown);
    MarkerSurvives(line, marker);
    var lines := AddedFor(DecodePatches(patches), name);
    var at :| 0 <= at < |lines| && lines[at] == shown;
    ContainsJoined(lines, '\n', at, Ascii(marker));
    PathNeverForged(patches[i].dest, policy.configPath);
    assert Leaks(policy, Collected(RawDiff(patches)), name, k);
    assert Hit(policy.mask(name), MarkerName(k)) in MarkerHits(policy, Collected(RawDiff(patches)));
  }

  lemma MarkerSurvives(line: seq<Byte>, marker: seq<Byte>)
    requires marker != [] && IsAscii(marker) && Contains(line, marker)
    ensures Contains(DecodeWith(line, Replace), Ascii(marker))
  {
    var at :| 0 <= at <= |line| && OccursAt(marker, line, at);
    var a, b := line[..at], line[at + |marker|..];
    assert line == a + marker + b;
    AsciiRunSurvives(a, marker, b, Replace);
    ContainsMiddle(DecodeWith(a, Replace), Ascii(marker), DecodeWith(b, Replace));
  }
}
