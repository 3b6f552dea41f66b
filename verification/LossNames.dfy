/**
 Which files the decode of a diff announces: exactly those some byte of whose header or added lines it could not read,
 each under the path a hit in it would carry, and nothing for what was lost in removed and context lines alone.
 */
module LossNames {
  import opened Text
  import opened Utf8
  import opened DiffScan
  import opened SectionNames
  import opened LossyDecode
  import opened LeakScan
  import opened LineLoss

  /** The patch's file is announced: for what the scan reads, or on request for anything. */
  ghost predicate Announced(p: FilePatch<Byte>, all: bool) {
    if all then LosesAny(p) else LosesHeader(p) || LosesAdded(p)
  }

  /** The name a patch's section has, read off its decoded lines. */
  function ReportName(p: FilePatch<Byte>): string {
    SectionName(PrintPatch(DecodePatch(p)) + [""], "")
  }

  ghost function Owed(patches: seq<FilePatch<Byte>>, all: bool): seq<string> {
    if patches == [] then []
    else (if Announced(patches[0], all) then [ReportName(patches[0])] else []) + Owed(patches[1..], all)
  }

  /** Only its first line opens a file. */
  predicate OneHeader(p: FilePatch<Byte>) {
    forall i :: 1 <= i < |p.preamble| ==> !StartsWith(p.preamble[i], DiffGit())
  }

  // --- a printed diff's sections are its patches ---

  /** Where a line of the closed lines starts: what follows is that line and the ones after it. */
  lemma {:induction false} LineStart(lines: seq<seq<Byte>>, j: nat) returns (k: nat)
    requires (forall i :: 0 <= i < |lines| ==> LF !in lines[i])
    requires 0 < j < |Terminated(lines, LF)| && Terminated(lines, LF)[j - 1] == LF
    ensures 1 <= k < |lines| && Terminated(lines, LF)[j..] == Terminated(lines[k..], LF)
  {
    var first, rest := lines[0], Terminated(lines[1..], LF);
    var all := Terminated(lines, LF);
    assert all == first + [LF] + rest;
    var n := |first| + 1;
    assert all[n..] == rest;
    FirstFeed(first, rest);
    if j == n {
      k := 1;
    } else {
      assert rest[j - n - 1] == all[j - 1];
      var inner := LineStart(lines[1..], j - n);
      k := inner + 1;
      assert all[j..] == rest[j - n..];
      assert lines[1..][inner..] == lines[k..];
    }
  }

  lemma FirstFeed(first: seq<Byte>, rest: seq<Byte>)
    requires LF !in first
    ensures forall i :: 0 <= i < |first| ==> (first + [LF] + rest)[i] != LF
  {
    var all := first + [LF] + rest;
    assert forall i :: 0 <= i < |first| ==> all[i] == first[i];
  }

  lemma FeedAt(line: seq<Byte>, tail: seq<Byte>, n: nat)
    requires |line| < n <= |line + [LF] + tail|
    ensures LF in (line + [LF] + tail)[..n]
  {
    assert (line + [LF] + tail)[..n][|line|] == LF;
  }

  lemma OpensLine(line: seq<Byte>, tail: seq<Byte>)
    requires StartsWith(line + [LF] + tail, DiffGit())
    ensures StartsWith(line, DiffGit())
  {
    var s := line + [LF] + tail;
    assert LF !in DiffGit();
    if |line| < |DiffGit()| {
      FeedAt(line, tail, |DiffGit()|);
    } else {
      assert s[..|DiffGit()|] == line[..|DiffGit()|];
    }
  }

  /** No boundary falls inside a patch's own lines. */
  lemma NoBoundaryInside(lines: seq<seq<Byte>>, tail: seq<Byte>, j: nat)
    requires forall i :: 0 <= i < |lines| ==> LF !in lines[i]
    requires forall i :: 1 <= i < |lines| ==> !StartsWith(lines[i], DiffGit())
    requires 0 < j < |Terminated(lines, LF)|
    ensures !Boundary(Terminated(lines, LF) + tail, j)
  {
    hide StartsWith, Terminated;
    var own := Terminated(lines, LF);
    var raw := own + tail;
    if Boundary(raw, j) {
      assert own[j - 1] == raw[j - 1];
      var k := LineStart(lines, j);
      var after := Terminated(lines[k..], LF);
      assert raw[j..] == own[j..] + tail;
      FirstTerminated(lines[k..], LF, tail);
      assert lines[k..][0] == lines[k] && lines[k..][1..] == lines[k + 1..];
      assert raw[j..] == lines[k] + [LF] + (Terminated(lines[k + 1..], LF) + tail);
      OpensLine(lines[k], Terminated(lines[k + 1..], LF) + tail);
    }
  }

  /** What may follow a patch: nothing, or another. */
  predicate OpensPatch(tail: seq<Byte>) {
    tail == [] || StartsWith(tail, DiffGit())
  }

  lemma FirstBoundary(lines: seq<seq<Byte>>, tail: seq<Byte>)
    requires lines != [] && OpensPatch(tail)
    requires forall i :: 0 <= i < |lines| ==> LF !in lines[i]
    requires forall i :: 1 <= i < |lines| ==> !StartsWith(lines[i], DiffGit())
    ensures 1 <= |Terminated(lines, LF)| && NextBoundary(Terminated(lines, LF) + tail, 1) == |Terminated(lines, LF)|
  {
    hide StartsWith, NextBoundary;
    var own := Terminated(lines, LF);
    var raw := own + tail;
    EndsInFeed(lines);
    var j := NextBoundary(raw, 1);
    if j < |own| {
      NoBoundaryInside(lines, tail, j);
    } else if j > |own| {
      BoundaryAt(own, tail);
    }
  }

  lemma BoundaryAt(own: seq<Byte>, tail: seq<Byte>)
    requires own != [] && own[|own| - 1] == LF && StartsWith(tail, DiffGit())
    ensures Boundary(own + tail, |own|)
  {
    assert (own + tail)[|own|..] == tail;
  }

  lemma {:induction false} EndsInFeed(lines: seq<seq<Byte>>)
    requires lines != []
    ensures |Terminated(lines, LF)| >= 1 && Terminated(lines, LF)[|Terminated(lines, LF)| - 1] == LF
  {
    if |lines| > 1 {
      EndsInFeed(lines[1..]);
    }
  }

  lemma {:induction false} BoundaryShift(own: seq<Byte>, tail: seq<Byte>, from: nat)
    requires own != [] && own[|own| - 1] == LF && 0 < from <= |tail|
    ensures NextBoundary(own + tail, |own| + from) == |own| + NextBoundary(tail, from)
    decreases |tail| - from
  {
    hide StartsWith;
    var raw := own + tail;
    assert raw[|own| + from..] == tail[from..] && raw[|own| + from - 1] == tail[from - 1];
    if from < |tail| && !Boundary(tail, from) {
      BoundaryShift(own, tail, from + 1);
    }
  }

  lemma {:induction false} SectionsShift(own: seq<Byte>, tail: seq<Byte>, from: nat)
    requires own != [] && own[|own| - 1] == LF && from <= |tail|
    ensures Sections(own + tail, |own| + from) == Sections(tail, from)
    decreases |tail| - from
  {
    hide NextBoundary, Boundary;
    var raw := own + tail;
    if from < |tail| {
      BoundaryShift(own, tail, from + 1);
      var j := NextBoundary(tail, from + 1);
      SectionsShift(own, tail, j);
      assert raw[|own| + from..|own| + j] == tail[from..j];
    }
  }

  lemma SectionsFirst(lines: seq<seq<Byte>>, tail: seq<Byte>)
    requires lines != [] && OpensPatch(tail)
    requires forall i :: 0 <= i < |lines| ==> LF !in lines[i]
    requires forall i :: 1 <= i < |lines| ==> !StartsWith(lines[i], DiffGit())
    ensures Sections(Terminated(lines, LF) + tail, 0) == [Terminated(lines, LF)] + Sections(tail, 0)
  {
    hide StartsWith, NextBoundary, Sections, Terminated;
    var own := Terminated(lines, LF);
    FirstBoundary(lines, tail);
    EndsInFeed(lines);
    SectionsStep(own + tail);
    SectionsShift(own, tail, 0);
    assert (own + tail)[0..|own|] == own;
  }

  lemma SectionsStep(raw: seq<Byte>)
    requires raw != []
    ensures var j := NextBoundary(raw, 1); Sections(raw, 0) == [raw[0..j]] + Sections(raw, j)
  {
    hide NextBoundary;
  }

  // --- the lines of one patch ---

  lemma BodiesOpen(lines: seq<BodyLine<Byte>>, i: nat)
    requires i < |BodiesBytes(lines)|
    ensures !StartsWith(BodiesBytes(lines)[i], DiffGit())
    decreases |lines|
  {
    hide StartsWith;
    if i == 0 {
      BodyDecoded(lines[0]);
    } else {
      BodiesOpen(lines[1..], i - 1);
    }
  }

  lemma {:induction false} HunksOpen(hunks: seq<Hunk<Byte>>, i: nat)
    requires i < |HunksBytes(hunks)|
    ensures !StartsWith(HunksBytes(hunks)[i], DiffGit())
    decreases |hunks|
  {
    hide StartsWith, BodiesBytes, HeaderText;
    var h := hunks[0];
    var line := Bytes(HeaderText(h)) + h.section;
    var bodies := BodiesBytes(h.lines);
    if i == 0 {
      HeadLine(h, false);
    } else if i <= |bodies| {
      BodiesOpen(h.lines, i - 1);
    } else {
      HunksOpen(hunks[1..], i - 1 - |bodies|);
    }
  }

  lemma DestOpens(dest: Dest<Byte>)
    ensures forall i :: 0 <= i < |DestBytes(dest)| ==> !StartsWith(DestBytes(dest)[i], DiffGit())
  {
    hide QuotedName;
    assert DiffGit()[0] == 'd' as int;
  }

  lemma PatchOpens(p: FilePatch<Byte>)
    requires PatchBytesFit(p) && OneHeader(p)
    ensures PatchBytes(p) != [] && StartsWith(PatchBytes(p)[0], DiffGit())
    ensures forall i :: 1 <= i < |PatchBytes(p)| ==> !StartsWith(PatchBytes(p)[i], DiffGit())
    ensures forall i :: 0 <= i < |PatchBytes(p)| ==> LF !in PatchBytes(p)[i]
  {
    hide StartsWith, HunksBytes, DestBytes;
    DestOpens(p.dest);
    forall i | 1 <= i < |PatchBytes(p)|
      ensures !StartsWith(PatchBytes(p)[i], DiffGit())
    {
      var a, b := |p.preamble|, |p.preamble| + |DestBytes(p.dest)|;
      if i >= b {
        HunksOpen(p.hunks, i - b);
      }
    }
    OnePatchClean(p);
  }

  lemma OnePatchClean(p: FilePatch<Byte>)
    requires PatchBytesFit(p)
    ensures forall i :: 0 <= i < |PatchBytes(p)| ==> LF !in PatchBytes(p)[i]
  {
    hide PatchBytes, PatchBytesFit;
    PatchesClean([p]);
    assert [p][1..] == [];
    assert PatchesBytes([p]) == PatchBytes(p) + [] == PatchBytes(p);
  }

  predicate AllOne(patches: seq<FilePatch<Byte>>) {
    forall i :: 0 <= i < |patches| ==> OneHeader(patches[i])
  }

  lemma RawFirst(patches: seq<FilePatch<Byte>>)
    requires patches != []
    ensures RawDiff(patches) == Terminated(PatchBytes(patches[0]), LF) + RawDiff(patches[1..])
  {
    hide PatchBytes;
    TerminatedAppend(PatchBytes(patches[0]), PatchesBytes(patches[1..]), LF);
  }

  lemma RawOpens(patches: seq<FilePatch<Byte>>)
    requires PatchesFit(patches) && AllOne(patches)
    ensures OpensPatch(RawDiff(patches))
  {
    hide PatchBytes, StartsWith, PatchBytesFit, OneHeader;
    if patches != [] {
      RawFirst(patches);
      PatchOpens(patches[0]);
      OpensTerminated(PatchBytes(patches[0]), RawDiff(patches[1..]));
    } else {
      assert RawDiff(patches) == [];
    }
  }

  lemma OpensTerminated(lines: seq<seq<Byte>>, tail: seq<Byte>)
    requires lines != [] && StartsWith(lines[0], DiffGit())
    ensures StartsWith(Terminated(lines, LF) + tail, DiffGit())
  {
    var all := Terminated(lines, LF) + tail;
    assert all[..|lines[0]|] == lines[0];
    assert all[..|DiffGit()|] == lines[0][..|DiffGit()|];
  }

  // --- what each section is called ---

  /** A patch's section reads as its decoded lines. */
  lemma SectionReads(p: FilePatch<Byte>)
    requires PatchBytesFit(p) && OneHeader(p)
    ensures var section := Terminated(PatchBytes(p), LF);
      SplitOn(section, LF) == PatchBytes(p) + [[]] && NameOfSection(section) == ReportName(p)
  {
    hide PatchBytes, StartsWith, PatchBytesFit, OneHeader, StreamLines, SectionLines, PrintPatch, DecodePatch, SplitOn,
      SectionName, JoinWith;
    var lines := PatchBytes(p) + [[]];
    PatchOpens(p);
    SplitTerminated(PatchBytes(p), LF, []);
    assert Terminated(PatchBytes(p), LF) + [] == Terminated(PatchBytes(p), LF);
    SplitNothing();
    NothingOpens();
    forall k | 1 <= k < |lines|
      ensures !StartsWith(lines[k], DiffGit())
    {
      assert k == |lines| - 1 ==> lines[k] == [];
    }
    SameFlags(lines, false);
    PatchDecoded(p, [[]], false);
    var f :| StreamLines(lines, false) == PrintPatch(DecodePatch(p)) + StreamLines([[]], f);
    BlankLine(f);
    var text := SectionLines(lines, false);
    assert text == PrintPatch(DecodePatch(p)) + [""];
    forall k | 0 <= k < |text|
      ensures '\n' !in text[k]
    {
      assert LF !in lines[k];
      StreamLineClean(lines, false, k);
    }
    SplitOfJoin(text, '\n');
  }

  lemma NothingOpens()
    ensures !StartsWith([], DiffGit())
  {
  }

  lemma SectionLost(p: FilePatch<Byte>, all: bool)
    requires PatchBytesFit(p) && OneHeader(p)
    ensures Lost(Terminated(PatchBytes(p), LF), all) <==> Announced(p, all)
  {
    hide PatchBytes, PatchBytesFit, OneHeader, SectionNamed, WellFormed, SplitOn, LosesAny, LosesHeader, LosesAdded;
    SectionReads(p);
    PatchNamed(p);
    PatchFormed(p);
    LossIsAny(p);
  }

  /** What the scan's rule announces is a loss. */
  lemma LossIsAny(p: FilePatch<Byte>)
    ensures LosesHeader(p) || LosesAdded(p) ==> LosesAny(p)
  {
    hide WellFormed, AddedInHunks;
    if t :| t in AddedInHunks(p.hunks) && !WellFormed(t) {
      AddedFrom(p.hunks, t);
    }
  }

  lemma {:induction false} AddedFrom(hunks: seq<Hunk<Byte>>, t: seq<Byte>)
    requires t in AddedInHunks(hunks) && !WellFormed(t)
    ensures exists i :: 0 <= i < |hunks| && LosesHunk(hunks[i])
  {
    hide WellFormed, AddedText;
    HunksFirst(hunks);
    if t in AddedText(hunks[0].lines) {
      AddedIn(hunks[0].lines, t);
      assert LosesHunk(hunks[0]);
    } else {
      AddedFrom(hunks[1..], t);
      var i :| 0 <= i < |hunks[1..]| && LosesHunk(hunks[1..][i]);
      assert LosesHunk(hunks[i + 1]);
    }
  }

  lemma {:induction false} AddedIn(lines: seq<BodyLine<Byte>>, t: seq<Byte>)
    requires t in AddedText(lines)
    ensures exists k :: 0 <= k < |lines| && lines[k].text == t
  {
    AddedFirst(lines);
    if !(lines[0].Added? && t == lines[0].text) {
      AddedIn(lines[1..], t);
      var k :| 0 <= k < |lines[1..]| && lines[1..][k].text == t;
      assert lines[k + 1].text == t;
    }
  }

  lemma {:induction false} LostFirst(first: seq<Byte>, rest: seq<seq<Byte>>, all: bool)
    ensures LostNames([first] + rest, all)
      == (if Lost(first, all) then [NameOfSection(first)] else []) + LostNames(rest, all)
    decreases |rest|
  {
    hide Lost, NameOfSection, LostNames;
    var whole := [first] + rest;
    if rest == [] {
      LostLast([], first, all);
      NoneLost([], all);
      assert [] + [first] == whole;
    } else {
      var n := |rest| - 1;
      assert whole == ([first] + rest[..n]) + [rest[n]] && rest == rest[..n] + [rest[n]];
      LostFirst(first, rest[..n], all);
      LostLast([first] + rest[..n], rest[n], all);
      LostLast(rest[..n], rest[n], all);
    }
  }

  lemma LostLast(sections: seq<seq<Byte>>, last: seq<Byte>, all: bool)
    ensures LostNames(sections + [last], all)
      == LostNames(sections, all) + if Lost(last, all) then [NameOfSection(last)] else []
  {
    hide Lost, NameOfSection;
    assert (sections + [last])[..|sections|] == sections;
  }

  /**
   Main result: what the decode of a printed diff announces is, in order, exactly the files some byte of whose header or
   added lines is not UTF-8, or on request the files holding any such byte.
   */
  lemma {:induction false} LostExactly(patches: seq<FilePatch<Byte>>, all: bool)
    requires PatchesFit(patches) && AllOne(patches)
    ensures LostNames(Sections(RawDiff(patches), 0), all) == Owed(patches, all)
    decreases |patches|
  {
    hide PatchBytes, PatchBytesFit, OneHeader, Lost, NameOfSection, LostNames, Announced, ReportName, StartsWith,
      Sections,
      OpensPatch, RawDiff;
    if patches == [] {
      NoPatches(patches, all);
    } else {
      var p, rest := patches[0], patches[1..];
      RawFirst(patches);
      RawOpens(rest);
      PatchOpens(p);
      SectionsFirst(PatchBytes(p), RawDiff(rest));
      LostFirst(Terminated(PatchBytes(p), LF), Sections(RawDiff(rest), 0), all);
      SectionReads(p);
      SectionLost(p, all);
      LostExactly(rest, all);
    }
  }

  lemma NoPatches(patches: seq<FilePatch<Byte>>, all: bool)
    requires patches == []
    ensures LostNames(Sections(RawDiff(patches), 0), all) == []
  {
    assert RawDiff(patches) == [];
    NoneLost([], all);
  }

  // --- the names ---

  lemma DecodesNonEmpty(bs: seq<Byte>)
    requires bs != []
    ensures DecodeWith(bs, BackslashReplace) != ""
  {
    hide Next;
    DecodeFirst(bs, BackslashReplace);
  }

  /** A patch with a destination is announced under the path its hits carry. */
  lemma ReportedAsScanned(p: FilePatch<Byte>)
    requires PatchBytesFit(p) && (p.dest.Quoted? || (p.dest.Plain? && p.dest.path != []))
    ensures ReportName(p) == ScanName(DecodePatch(p))
  {
    hide PatchBytesFit, PatchFits, SectionName, PrintPatch;
    DecodedPatchFits(p);
    if p.dest.Plain? {
      DecodesNonEmpty(p.dest.path);
    }
    NameAgrees(DecodePatch(p), [""]);
  }

  // --- any fitting patches: a header line that opens a file opens a section of its own ---

  /** The patches a patch's lines are, cut at each header line that opens a file. */
  function Parts(p: FilePatch<Byte>): (parts: seq<FilePatch<Byte>>)
    ensures parts != []
    ensures parts[|parts| - 1].dest == p.dest && parts[|parts| - 1].hunks == p.hunks
    decreases |p.preamble|
  {
    var k := LastOpening(p.preamble);
    if k == 0 then [p]
    else Parts(HeadPart(p, k)) + [LastPart(p, k)]
  }

  /** The last line, the first aside, that opens a file; or the first. */
  function LastOpening(lines: seq<seq<Byte>>): (k: nat)
    ensures k == 0 || (k < |lines| && StartsWith(lines[k], DiffGit()))
    ensures forall i :: k < i < |lines| ==> !StartsWith(lines[i], DiffGit())
  {
    if |lines| <= 1 then 0
    else if StartsWith(lines[|lines| - 1], DiffGit()) then |lines| - 1
    else LastOpening(lines[..|lines| - 1])
  }

  function HeadPart(p: FilePatch<Byte>, k: nat): FilePatch<Byte>
    requires k <= |p.preamble|
  {
    FilePatch(p.preamble[..k], Unnamed, [])
  }

  function LastPart(p: FilePatch<Byte>, k: nat): FilePatch<Byte>
    requires k <= |p.preamble|
  {
    FilePatch(p.preamble[k..], p.dest, p.hunks)
  }

  lemma CutFits(p: FilePatch<Byte>, k: nat)
    requires PatchBytesFit(p) && 0 < k < |p.preamble| && StartsWith(p.preamble[k], DiffGit())
    requires forall i :: k < i < |p.preamble| ==> !StartsWith(p.preamble[i], DiffGit())
    ensures PatchBytesFit(HeadPart(p, k)) && PatchBytesFit(LastPart(p, k)) && OneHeader(LastPart(p, k))
  {
    hide StartsWith, PlainHeaderBytes, HunkBytesFit;
    var head, last := HeadPart(p, k), LastPart(p, k);
    assert forall i :: 0 <= i < k ==> head.preamble[i] == p.preamble[i];
    assert forall i :: 0 <= i < |last.preamble| ==> last.preamble[i] == p.preamble[k + i];
  }

  lemma CutLoses(p: FilePatch<Byte>, k: nat)
    requires 0 < k < |p.preamble| && !LosesHeader(p)
    ensures !LosesHeader(HeadPart(p, k)) && !LosesHeader(LastPart(p, k))
  {
    hide WellFormed;
    var head, last := HeadPart(p, k), LastPart(p, k);
    assert forall i :: 0 <= i < k ==> head.preamble[i] == p.preamble[i];
    assert forall i :: 0 <= i < |last.preamble| ==> last.preamble[i] == p.preamble[k + i];
  }

  lemma {:induction false} PartsAre(p: FilePatch<Byte>)
    requires PatchBytesFit(p)
    ensures PatchesFit(Parts(p)) && AllOne(Parts(p)) && PatchesBytes(Parts(p)) == PatchBytes(p)
    ensures !LosesHeader(p) ==> forall i :: 0 <= i < |Parts(p)| ==> !LosesHeader(Parts(p)[i])
    ensures forall i :: 0 <= i < |Parts(p)| - 1 ==> Parts(p)[i].hunks == []
    decreases |p.preamble|
  {
    hide StartsWith, PatchBytesFit, OneHeader, PatchBytes, PatchesBytes, LosesHeader;
    var k := LastOpening(p.preamble);
    if k == 0 {
      OnePatch(p);
      OpensOnce(p);
    } else {
      CutFits(p, k);
      PartsAre(HeadPart(p, k));
      PatchesAppend(Parts(HeadPart(p, k)), [LastPart(p, k)]);
      OnePatch(LastPart(p, k));
      CutLines(p, k);
      if !LosesHeader(p) {
        CutLoses(p, k);
      }
    }
  }

  lemma OpensOnce(p: FilePatch<Byte>)
    requires LastOpening(p.preamble) == 0
    ensures OneHeader(p)
  {
    hide StartsWith;
  }

  lemma OnePatch(p: FilePatch<Byte>)
    ensures PatchesBytes([p]) == PatchBytes(p)
  {
    hide PatchBytes;
    assert [p][1..] == [];
  }

  lemma CutLines(p: FilePatch<Byte>, k: nat)
    requires k <= |p.preamble|
    ensures PatchBytes(p) == PatchBytes(HeadPart(p, k)) + PatchBytes(LastPart(p, k))
  {
    hide HunksBytes;
    assert HunksBytes([]) == [] by { NoHunks(); }
    assert p.preamble == p.preamble[..k] + p.preamble[k..];
  }

  lemma NoHunks()
    ensures HunksBytes([]) == []
  {
  }

  lemma {:induction false} PatchesAppend(a: seq<FilePatch<Byte>>, b: seq<FilePatch<Byte>>)
    ensures PatchesBytes(a + b) == PatchesBytes(a) + PatchesBytes(b)
  {
    hide PatchBytes;
    if a == [] {
      assert a + b == b;
    } else {
      assert (a + b)[1..] == a[1..] + b;
      PatchesAppend(a[1..], b);
    }
  }

  function AllParts(patches: seq<FilePatch<Byte>>): seq<FilePatch<Byte>> {
    if patches == [] then [] else Parts(patches[0]) + AllParts(patches[1..])
  }

  lemma {:induction false} AllPartsAre(patches: seq<FilePatch<Byte>>)
    requires PatchesFit(patches)
    ensures PatchesFit(AllParts(patches)) && AllOne(AllParts(patches))
    ensures PatchesBytes(AllParts(patches)) == PatchesBytes(patches)
  {
    hide PatchBytes, PatchBytesFit, OneHeader, Parts;
    if patches != [] {
      assert PatchBytesFit(patches[0]);
      PartsAre(patches[0]);
      AllPartsAre(patches[1..]);
      PatchesAppend(Parts(patches[0]), AllParts(patches[1..]));
    }
  }

  lemma {:induction false} PartOf(patches: seq<FilePatch<Byte>>, i: nat) returns (j: nat)
    requires i < |patches|
    ensures j < |AllParts(patches)|
    ensures AllParts(patches)[j].dest == patches[i].dest && AllParts(patches)[j].hunks == patches[i].hunks
  {
    if i == 0 {
      j := |Parts(patches[0])| - 1;
    } else {
      var inner := PartOf(patches[1..], i - 1);
      j := |Parts(patches[0])| + inner;
    }
  }

  lemma {:induction false} OwedHas(patches: seq<FilePatch<Byte>>, all: bool, j: nat)
    requires j < |patches| && Announced(patches[j], all)
    ensures ReportName(patches[j]) in Owed(patches, all)
  {
    hide Announced, ReportName;
    if j > 0 {
      OwedHas(patches[1..], all, j - 1);
    }
  }

  /**
   Main result: in a printed diff, a file one of whose added lines is not UTF-8 is always announced, and under the very
   path a hit in it carries.
   */
  lemma LostAlwaysAnnounced(patches: seq<FilePatch<Byte>>, i: nat, t: seq<Byte>)
    requires PatchesFit(patches) && i < |patches|
    requires t in AddedInHunks(patches[i].hunks) && !WellFormed(t)
    requires patches[i].dest.Quoted? || (patches[i].dest.Plain? && patches[i].dest.path != [])
    ensures ScanName(DecodePatch(patches[i])) in LostNames(Sections(RawDiff(patches), 0), false)
  {
    hide PatchBytesFit, OneHeader, LostNames, Sections, AddedInHunks, WellFormed, AllParts, LosesHeader, ReportName,
      Owed,
      PatchesBytes;
    var parts := AllParts(patches);
    AllPartsAre(patches);
    LostExactly(parts, false);
    var j := PartOf(patches, i);
    assert LosesAdded(parts[j]);
    OwedHas(parts, false, j);
    assert PatchBytesFit(parts[j]);
    ReportedAsScanned(parts[j]);
  }

  lemma {:induction false} NoneOwed(patches: seq<FilePatch<Byte>>)
    requires forall i :: 0 <= i < |patches| ==> !LosesHeader(patches[i]) && !LosesAdded(patches[i])
    ensures Owed(patches, false) == []
  {
    hide LosesHeader, LosesAdded, ReportName;
    if patches != [] {
      NoneOwed(patches[1..]);
    }
  }

  lemma {:induction false} PartsLoseNothing(patches: seq<FilePatch<Byte>>)
    requires PatchesFit(patches)
    requires forall i :: 0 <= i < |patches| ==> !LosesHeader(patches[i]) && !LosesAdded(patches[i])
    ensures forall i :: 0 <= i < |AllParts(patches)| ==>
      !LosesHeader(AllParts(patches)[i]) && !LosesAdded(AllParts(patches)[i])
  {
    hide LosesHeader, PatchBytesFit, WellFormed, Parts;
    if patches != [] {
      assert PatchBytesFit(patches[0]);
      PartsAre(patches[0]);
      PartsLoseNothing(patches[1..]);
      var parts := Parts(patches[0]);
      forall i | 0 <= i < |parts|
        ensures !LosesHeader(parts[i]) && !LosesAdded(parts[i])
      {
        assert AddedInHunks<Byte>([]) == [];
      }
    }
  }

  /** Bytes lost in removed, context and note lines and in section headings alone announce nothing. */
  lemma NothingAnnounced(patches: seq<FilePatch<Byte>>)
    requires PatchesFit(patches)
    requires forall i, k :: 0 <= i < |patches| && 0 <= k < |patches[i].preamble| ==> WellFormed(patches[i].preamble[k])
    requires forall i :: 0 <= i < |patches| && patches[i].dest.Plain? ==> WellFormed(patches[i].dest.path)
    requires forall i, t :: 0 <= i < |patches| && t in AddedInHunks(patches[i].hunks) ==> WellFormed(t)
    ensures LostNames(Sections(RawDiff(patches), 0), false) == []
  {
    hide PatchBytesFit, OneHeader, LostNames, Sections, AddedInHunks, WellFormed, AllParts, Owed, PatchesBytes;
    AllPartsAre(patches);
    PartsLoseNothing(patches);
    LostExactly(AllParts(patches), false);
    NoneOwed(AllParts(patches));
  }
}
