/**
 Decoding a raw diff one file section at a time. A section that is not UTF-8 is decoded line by line, lossily;
 the result is proved to be one uniform per-line decode of the whole stream.
 */
module LossyDecode {
  import opened Text
  import opened Utf8
  import opened SectionNames

  function DiffGit(): seq<Byte> { Bytes("diff --git ") }

  function HunkMark(): seq<Byte> { Bytes("@@ ") }

  function OldName(): seq<Byte> { Bytes("--- ") }

  function NewName(): seq<Byte> { Bytes("+++ ") }

  const PLUS: Byte := 0x2B

  // --- one line ---

  /** Lines that carry a path: escaped rather than replaced, so the path stays printable. */
  predicate IsPathLine(line: seq<Byte>) {
    StartsWith(line, DiffGit()) || StartsWith(line, OldName()) || StartsWith(line, NewName())
  }

  function HandlerFor(line: seq<Byte>, inHunks: bool): Handler {
    if !inHunks && IsPathLine(line) then BackslashReplace else Replace
  }

  function DecodeLine(line: seq<Byte>, inHunks: bool): string {
    match Decode(line)
    case Some(text) => text
    case None => DecodeWith(line, HandlerFor(line, inHunks))
  }

  function EntersHunks(line: seq<Byte>, inHunks: bool): bool {
    inHunks || StartsWith(line, HunkMark())
  }

  /** A line's loss must be named when it is before the hunks or added. */
  predicate MustName(line: seq<Byte>, inHunks: bool) {
    !WellFormed(line) && (!inHunks || StartsWith(line, [PLUS]))
  }

  // --- one section ---

  function SectionLines(lines: seq<seq<Byte>>, inHunks: bool): (out: seq<string>)
    ensures |out| == |lines|
  {
    if lines == [] then []
    else
      var here := EntersHunks(lines[0], inHunks);
      [DecodeLine(lines[0], here)] + SectionLines(lines[1..], here)
  }

  function FlagAfter(lines: seq<seq<Byte>>, inHunks: bool): bool {
    if lines == [] then inHunks else EntersHunks(lines[|lines| - 1], FlagAfter(lines[..|lines| - 1], inHunks))
  }

  lemma {:induction false} FlagFirst(lines: seq<seq<Byte>>, inHunks: bool)
    requires lines != []
    ensures FlagAfter(lines, inHunks) == FlagAfter(lines[1..], EntersHunks(lines[0], inHunks))
  {
    if |lines| > 1 {
      var short := lines[..|lines| - 1];
      FlagFirst(short, inHunks);
      assert short[1..] == lines[1..][..|lines[1..]| - 1];
      assert lines[1..][|lines[1..]| - 1] == lines[|lines| - 1];
    }
  }

  lemma {:induction false} SectionLinesAppend(a: seq<seq<Byte>>, b: seq<seq<Byte>>, inHunks: bool)
    ensures SectionLines(a + b, inHunks) == SectionLines(a, inHunks) + SectionLines(b, FlagAfter(a, inHunks))
  {
    hide DecodeLine, EntersHunks;
    if a == [] {
      assert a + b == b;
    } else {
      FlagFirst(a, inHunks);
      assert (a + b)[1..] == a[1..] + b;
      SectionLinesAppend(a[1..], b, EntersHunks(a[0], inHunks));
    }
  }

  lemma FlagNone(lines: seq<seq<Byte>>, inHunks: bool)
    requires lines == []
    ensures FlagAfter(lines, inHunks) == inHunks
  {
  }

  lemma FlagNext(lines: seq<seq<Byte>>, i: nat)
    requires i < |lines|
    ensures FlagAfter(lines[..i + 1], false) == EntersHunks(lines[i], FlagAfter(lines[..i], false))
  {
    hide EntersHunks;
    assert lines[..i + 1][..i] == lines[..i];
  }

  lemma OneSectionLine(line: seq<Byte>, inHunks: bool)
    ensures SectionLines([line], inHunks) == [DecodeLine(line, EntersHunks(line, inHunks))]
  {
    hide DecodeLine, EntersHunks;
  }

  /** Some line of the section lost bytes the scan reads. */
  ghost predicate SectionNamed(lines: seq<seq<Byte>>) {
    exists k :: 0 <= k < |lines| && MustName(lines[k], FlagAfter(lines[..k + 1], false))
  }

  /** The lossy decode of one undecodable section, with its two flags. */
  method DecodeSectionLossy(section: seq<Byte>) returns (text: string, mustName: bool)
    ensures text == JoinWith(SectionLines(SplitOn(section, LF), false), '\n')
    ensures mustName <==> SectionNamed(SplitOn(section, LF))
  {
    hide SplitOn, DecodeWith, WellFormed, IsPathLine, JoinWith, SectionLines, FlagAfter;
    var lines := SplitOn(section, LF);
    FlagNone(lines[..0], false);
    var decoded: seq<string> := [];
    var inHunks := false;
    mustName := false;
    for i := 0 to |lines|
      invariant inHunks == FlagAfter(lines[..i], false)
      invariant decoded == SectionLines(lines[..i], false)
      invariant mustName <==> exists k :: 0 <= k < i && MustName(lines[k], FlagAfter(lines[..k + 1], false))
    {
      var line := lines[i];
      assert lines[..i + 1] == lines[..i] + [line];
      SectionLinesAppend(lines[..i], [line], false);
      OneSectionLine(line, FlagAfter(lines[..i], false));
      FlagNext(lines, i);
      if StartsWith(line, HunkMark()) {
        inHunks := true;
      }
      var header := !inHunks && IsPathLine(line);
      var strict := Decode(line);
      if strict.Some? {
        decoded := decoded + [strict.value];
        continue;
      }
      decoded := decoded + [DecodeWith(line, if header then BackslashReplace else Replace)];
      if !inHunks || StartsWith(line, [PLUS]) {
        mustName := true;
      }
    }
    assert lines[..|lines|] == lines;
    text := JoinWith(decoded, '\n');
  }

  // --- sections ---

  predicate Boundary(raw: seq<Byte>, i: nat)
    requires i <= |raw|
  {
    (i == 0 || raw[i - 1] == LF) && StartsWith(raw[i..], DiffGit())
  }

  function NextBoundary(raw: seq<Byte>, from: nat): (j: nat)
    requires from <= |raw|
    ensures from <= j <= |raw|
    ensures j < |raw| ==> Boundary(raw, j)
    ensures forall i :: from <= i < j ==> !Boundary(raw, i)
    decreases |raw| - from
  {
    if from == |raw| || Boundary(raw, from) then from else NextBoundary(raw, from + 1)
  }

  /** The non-empty pieces of the stream from offset `from`, cut where a line opens a file. */
  function Sections(raw: seq<Byte>, from: nat): seq<seq<Byte>>
    requires from <= |raw|
    decreases |raw| - from
  {
    if from == |raw| then []
    else
      var j := NextBoundary(raw, from + 1);
      [raw[from..j]] + Sections(raw, j)
  }

  function SectionText(section: seq<Byte>): string {
    if WellFormed(section) then DecodeWith(section, Replace)
    else JoinWith(SectionLines(SplitOn(section, LF), false), '\n')
  }

  function SectionTexts(sections: seq<seq<Byte>>): string {
    if sections == [] then "" else SectionTexts(sections[..|sections| - 1]) + SectionText(sections[|sections| - 1])
  }

  /** The names of the sections that lost bytes the scan reads, or on request any bytes, in order. */
  ghost function LostNames(sections: seq<seq<Byte>>, nameAllLosses: bool): seq<string> {
    if sections == [] then []
    else
      var last := sections[|sections| - 1];
      LostNames(sections[..|sections| - 1], nameAllLosses)
      + if Lost(last, nameAllLosses) then [NameOfSection(last)] else []
  }

  ghost predicate Lost(section: seq<Byte>, nameAllLosses: bool) {
    !WellFormed(section) && (nameAllLosses || SectionNamed(SplitOn(section, LF)))
  }

  function NameOfSection(section: seq<Byte>): string {
    SectionName(SplitOn(JoinWith(SectionLines(SplitOn(section, LF), false), '\n'), '\n'), "")
  }

  lemma LostNext(sections: seq<seq<Byte>>, i: nat, nameAllLosses: bool)
    requires i < |sections|
    ensures LostNames(sections[..i + 1], nameAllLosses)
      == LostNames(sections[..i], nameAllLosses)
        + if Lost(sections[i], nameAllLosses) then [NameOfSection(sections[i])] else []
    ensures SectionTexts(sections[..i + 1]) == SectionTexts(sections[..i]) + SectionText(sections[i])
  {
    hide Lost, NameOfSection, SectionText;
    assert sections[..i + 1][..i] == sections[..i] && sections[..i + 1][i] == sections[i];
  }

  lemma NoneLost(sections: seq<seq<Byte>>, nameAllLosses: bool)
    requires sections == []
    ensures LostNames(sections, nameAllLosses) == [] && SectionTexts(sections) == ""
  {
  }

  /** The whole decode, and the names of the sections that lost bytes. */
  method DecodeDiffPerFile(raw: seq<Byte>, nameAllLosses: bool) returns (text: string, undecodable: seq<string>)
    ensures text == SectionTexts(Sections(raw, 0)) && undecodable == LostNames(Sections(raw, 0), nameAllLosses)
  {
    hide Sections, DecodeWith, WellFormed, SplitOn, JoinWith, SectionNamed, SectionName, LostNames, SectionTexts;
    var sections := Sections(raw, 0);
    text, undecodable := "", [];
    NoneLost(sections[..0], nameAllLosses);
    for i := 0 to |sections|
      invariant text == SectionTexts(sections[..i]) && undecodable == LostNames(sections[..i], nameAllLosses)
    {
      LostNext(sections, i, nameAllLosses);
      var strict := Decode(sections[i]);
      if strict.Some? {
        text := text + strict.value;
        continue;
      }
      var lossy, mustName := DecodeSectionLossy(sections[i]);
      if mustName || nameAllLosses {
        var name := NameSection(lossy);
        undecodable := undecodable + [name];
      }
      text := text + lossy;
    }
    assert sections[..|sections|] == sections;
  }

  // --- the whole stream, line by line ---

  /** The reference decode: every line on its own, the flag cleared where a line opens a file. */
  function StreamLines(lines: seq<seq<Byte>>, inHunks: bool): (out: seq<string>)
    ensures |out| == |lines|
  {
    if lines == [] then []
    else
      var here := EntersHunks(lines[0], inHunks && !StartsWith(lines[0], DiffGit()));
      [DecodeLine(lines[0], here)] + StreamLines(lines[1..], here)
  }

  function DecodedLines(raw: seq<Byte>): seq<string> {
    StreamLines(SplitOn(raw, LF), false)
  }

  /** A section is its lines' decodes joined, also where the section decodes strictly as a whole. */
  lemma {:induction false} JoinDecodes(lines: seq<seq<Byte>>, inHunks: bool)
    requires lines != []
    requires WellFormed(JoinWith(lines, LF))
    ensures DecodeWith(JoinWith(lines, LF), Replace) == JoinWith(SectionLines(lines, inHunks), '\n')
  {
    hide Next, HandlerFor, EntersHunks;
    var here := EntersHunks(lines[0], inHunks);
    if |lines| > 1 {
      FirstDecodes(lines);
      JoinDecodes(lines[1..], here);
      assert SectionLines(lines, inHunks)[1..] == SectionLines(lines[1..], here);
    } else {
      assert SectionLines(lines[1..], here) == [];
    }
  }

  lemma FirstDecodes(lines: seq<seq<Byte>>)
    requires |lines| > 1 && WellFormed(JoinWith(lines, LF))
    ensures WellFormed(lines[0]) && WellFormed(JoinWith(lines[1..], LF))
    ensures DecodeWith(JoinWith(lines, LF), Replace)
      == DecodeWith(lines[0], Replace) + ['\n'] + DecodeWith(JoinWith(lines[1..], LF), Replace)
  {
    hide Next, DecodeWith, WellFormed;
    BreakDecodes(lines[0], JoinWith(lines[1..], LF));
  }

  lemma BreakDecodes(line: seq<Byte>, rest: seq<Byte>)
    requires WellFormed(line + [LF] + rest)
    ensures WellFormed(line) && WellFormed(rest)
    ensures DecodeWith(line + [LF] + rest, Replace) == DecodeWith(line, Replace) + ['\n'] + DecodeWith(rest, Replace)
  {
    hide Next, DecodeWith, WellFormed;
    assert line + [LF] + rest == line + ([LF] + rest);
    DecodeAppend(line, [LF] + rest, Replace);
    WellFormedAppend(line, [LF] + rest);
    AsciiPrefix([LF], rest, Replace);
    assert Ascii([LF]) == ['\n'];
    var a, b := DecodeWith(line, Replace), DecodeWith(rest, Replace);
    assert a + (['\n'] + b) == a + ['\n'] + b;
  }

  lemma SectionTextIsLines(section: seq<Byte>)
    ensures SectionText(section) == JoinWith(SectionLines(SplitOn(section, LF), false), '\n')
  {
    if WellFormed(section) {
      JoinOfSplit(section, LF);
      JoinDecodes(SplitOn(section, LF), false);
    }
  }

  lemma {:induction false} SameFlags(lines: seq<seq<Byte>>, inHunks: bool)
    requires forall k :: (if inHunks then 0 else 1) <= k < |lines| ==> !StartsWith(lines[k], DiffGit())
    ensures StreamLines(lines, inHunks) == SectionLines(lines, inHunks)
  {
    if lines != [] {
      var here := EntersHunks(lines[0], inHunks);
      SameFlags(lines[1..], here);
    }
  }

  /** Each piece of a split starts right after a separator. */
  lemma {:induction false} PieceOffset(s: seq<Byte>, k: nat) returns (off: nat)
    requires 0 < k < |SplitOn(s, LF)|
    ensures 0 < off <= |s| && s[off - 1] == LF
    ensures SplitOn(s, LF)[k] <= s[off..]
  {
    var parts := SplitOn(s, LF);
    var rest := SplitOn(s[1..], LF);
    if s[0] == LF && k == 1 {
      off := 1;
      FirstPieceOpens(s[1..], LF, []);
    } else {
      var inner := PieceOffset(s[1..], if s[0] == LF then k - 1 else k);
      off := inner + 1;
      assert s[1..][inner..] == s[off..];
    }
  }

  lemma NoLaterHeader(raw: seq<Byte>, i: nat, j: nat, k: nat)
    requires i < |raw| && j == NextBoundary(raw, i + 1)
    requires 1 <= k < |SplitOn(raw[i..j], LF)|
    ensures !StartsWith(SplitOn(raw[i..j], LF)[k], DiffGit())
  {
    hide SplitOn;
    var section := raw[i..j];
    var off := PieceOffset(section, k);
    assert raw[i + off - 1] == LF;
    assert section[off..] <= raw[i + off..];
    if off < |section| {
      assert !Boundary(raw, i + off);
    }
  }

  /** Within a section no later line opens a file, so its own flag walk is the stream's. */
  lemma SectionKeepsFlags(raw: seq<Byte>, i: nat, j: nat)
    requires i < |raw| && j == NextBoundary(raw, i + 1)
    ensures StreamLines(SplitOn(raw[i..j], LF), false) == SectionLines(SplitOn(raw[i..j], LF), false)
  {
    hide SplitOn, NextBoundary, StartsWith;
    var lines := SplitOn(raw[i..j], LF);
    forall k | 1 <= k < |lines|
      ensures !StartsWith(lines[k], DiffGit())
    {
      NoLaterHeader(raw, i, j, k);
    }
    SameFlags(lines, false);
  }

  lemma {:induction false} StreamAppend(a: seq<seq<Byte>>, b: seq<seq<Byte>>, inHunks: bool)
    requires b != [] && StartsWith(b[0], DiffGit())
    ensures StreamLines(a + b, inHunks) == StreamLines(a, inHunks) + StreamLines(b, false)
  {
    hide DecodeLine, StartsWith;
    if a == [] {
      assert a + b == b;
    } else {
      assert (a + b)[1..] == a[1..] + b;
      StreamAppend(a[1..], b, EntersHunks(a[0], inHunks && !StartsWith(a[0], DiffGit())));
    }
  }

  lemma {:induction false} JoinAppend(a: seq<string>, b: seq<string>)
    requires a != [] && b != []
    ensures JoinWith(a + b, '\n') == JoinWith(a, '\n') + "\n" + JoinWith(b, '\n')
  {
    if |a| == 1 {
      assert (a + b)[1..] == b;
    } else {
      assert (a + b)[1..] == a[1..] + b;
      JoinAppend(a[1..], b);
    }
  }

  lemma BlankLine(inHunks: bool)
    ensures StreamLines([[]], inHunks) == [""]
  {
    assert DecodeWith([], Replace) == "";
    assert WellFormed([]);
    assert StreamLines([[]][1..], inHunks) == [];
  }

  lemma {:induction false} StreamAppendBlank(a: seq<seq<Byte>>, inHunks: bool)
    ensures StreamLines(a + [[]], inHunks) == StreamLines(a, inHunks) + [""]
  {
    hide StartsWith, DecodeLine;
    if a == [] {
      assert a + [[]] == [[]];
      BlankLine(inHunks);
    } else {
      assert (a + [[]])[1..] == a[1..] + [[]];
      StreamAppendBlank(a[1..], EntersHunks(a[0], inHunks && !StartsWith(a[0], DiffGit())));
    }
  }

  lemma {:induction false} SectionTextsFirst(first: seq<Byte>, rest: seq<seq<Byte>>)
    ensures SectionTexts([first] + rest) == SectionText(first) + SectionTexts(rest)
  {
    hide SectionText;
    var all := [first] + rest;
    if rest == [] {
      assert all[..0] == [];
      assert SectionTexts([]) == "";
    } else {
      assert all[..|all| - 1] == [first] + rest[..|rest| - 1];
      SectionTextsFirst(first, rest[..|rest| - 1]);
    }
  }

  /** A section that ends at a line break is its lines, each closed, and an empty last piece. */
  lemma SectionThenTail(section: seq<Byte>, tail: seq<Byte>) returns (closed: seq<seq<Byte>>)
    requires section != [] && section[|section| - 1] == LF
    ensures closed != []
    ensures SplitOn(section, LF) == closed + [[]]
    ensures SplitOn(section + tail, LF) == closed + SplitOn(tail, LF)
  {
    var inner := section[..|section| - 1];
    closed := SplitOn(inner, LF);
    JoinOfSplit(inner, LF);
    TerminatedIsJoin(closed, LF);
    assert Terminated(closed, LF) == section;
    SplitTerminated(closed, LF, tail);
    SplitTerminated(closed, LF, []);
    assert section + [] == section;
  }

  function StreamText(raw: seq<Byte>): string {
    JoinWith(DecodedLines(raw), '\n')
  }

  lemma SectionAndTail(section: seq<Byte>, tail: seq<Byte>)
    requires section != [] && section[|section| - 1] == LF
    requires StartsWith(SplitOn(tail, LF)[0], DiffGit())
    ensures StreamText(section + tail) == StreamText(section) + StreamText(tail)
  {
    hide SplitOn, StreamLines, JoinWith, StartsWith;
    var closed := SectionThenTail(section, tail);
    StreamAppend(closed, SplitOn(tail, LF), false);
    StreamAppendBlank(closed, false);
    JoinAppend(StreamLines(closed, false), StreamLines(SplitOn(tail, LF), false));
    JoinAppend(StreamLines(closed, false), [""]);
    JoinOne("");
  }

  lemma {:induction false} StreamDecodeFrom(raw: seq<Byte>, i: nat)
    requires i <= |raw| && (i == 0 || i == |raw| || Boundary(raw, i))
    ensures SectionTexts(Sections(raw, i)) == StreamText(raw[i..])
    decreases |raw| - i
  {
    hide SectionText, SectionLines, StreamText, SectionTexts, Boundary, NextBoundary;
    if i == |raw| {
      assert raw[i..] == [];
      EmptyStream();
    } else {
      var j := NextBoundary(raw, i + 1);
      var section := raw[i..j];
      SectionIsStream(raw, i, j);
      SectionTextsFirst(section, Sections(raw, j));
      StreamDecodeFrom(raw, j);
      var tail := raw[j..];
      assert raw[i..] == section + tail;
      if j == |raw| {
        assert section + tail == section && tail == [];
        EmptyStream();
      } else {
        BoundaryOpens(raw, j);
        SectionAndTail(section, tail);
      }
    }
  }

  lemma SectionIsStream(raw: seq<Byte>, i: nat, j: nat)
    requires i < |raw| && j == NextBoundary(raw, i + 1)
    ensures SectionText(raw[i..j]) == StreamText(raw[i..j])
  {
    hide SplitOn, StreamLines, SectionLines, JoinWith, NextBoundary, SectionText;
    SectionTextIsLines(raw[i..j]);
    SectionKeepsFlags(raw, i, j);
  }

  lemma JoinOne(s: string)
    ensures JoinWith([s], '\n') == s
  {
  }

  lemma EmptyStream()
    ensures StreamText([]) == ""
    ensures SectionTexts([]) == ""
  {
    BlankLine(false);
  }

  lemma BoundaryOpens(raw: seq<Byte>, j: nat)
    requires 0 < j < |raw| && Boundary(raw, j)
    ensures raw[j - 1] == LF
    ensures StartsWith(SplitOn(raw[j..], LF)[0], DiffGit())
  {
    assert LF !in DiffGit();
    FirstPieceOpens(raw[j..], LF, DiffGit());
  }

  /** Main result: section splitting and its strict shortcut change nothing — the decode is per line. */
  lemma DecodeIsPerLine(raw: seq<Byte>)
    ensures SectionTexts(Sections(raw, 0)) == StreamText(raw)
  {
    assert raw[0..] == raw;
    StreamDecodeFrom(raw, 0);
  }

  lemma {:induction false} StreamLineClean(lines: seq<seq<Byte>>, inHunks: bool, k: nat)
    requires k < |lines| && LF !in lines[k]
    ensures '\n' !in StreamLines(lines, inHunks)[k]
  {
    hide DecodeWith, StartsWith;
    var here := EntersHunks(lines[0], inHunks && !StartsWith(lines[0], DiffGit()));
    if k == 0 {
      NoNewLines(lines[0], HandlerFor(lines[0], here));
      NoNewLines(lines[0], Replace);
    } else {
      StreamLineClean(lines[1..], here, k - 1);
    }
  }

  /** Every line break of the stream is a line break of the text, and no other is. */
  lemma LinesKept(raw: seq<Byte>)
    ensures SplitOn(SectionTexts(Sections(raw, 0)), '\n') == DecodedLines(raw)
    ensures |DecodedLines(raw)| == |SplitOn(raw, LF)|
  {
    var lines := SplitOn(raw, LF);
    forall k | 0 <= k < |lines|
      ensures '\n' !in DecodedLines(raw)[k]
    {
      StreamLineClean(lines, false, k);
    }
    DecodeIsPerLine(raw);
    SplitOfJoin(DecodedLines(raw), '\n');
  }

  /** One line's decode, strict or lossy, keeps every ASCII run in place, its first character included. */
  lemma LineKeepsAscii(a: seq<Byte>, m: seq<Byte>, b: seq<Byte>, inHunks: bool)
    requires m != [] && IsAscii(m)
    ensures exists h :: DecodeLine(a + m + b, inHunks) == DecodeWith(a, h) + Ascii(m) + DecodeWith(b, h)
  {
    var line := a + m + b;
    var h := if WellFormed(line) then Replace else HandlerFor(line, inHunks);
    AsciiRunSurvives(a, m, b, h);
  }

  /**
   Which way a line that is not UTF-8 is decoded: escaped before the hunks where it opens as a line carrying a path
   does, its bytes replaced anywhere else.
   */
  lemma DecodeChoice(line: seq<Byte>, inHunks: bool)
    requires !WellFormed(line)
    ensures DecodeLine(line, inHunks) == DecodeWith(line,
      if !inHunks && (StartsWith(line, Bytes("diff --git ")) || StartsWith(line, Bytes("--- "))
                        || StartsWith(line, Bytes("+++ "))) then BackslashReplace else Replace)
  {
    hide WellFormed, DecodeWith;
  }
}
