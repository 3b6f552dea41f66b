/**
 What a printed patch loses to the decode, in its own terms, and where the scan's rule sees it on the patch's lines.
 */
module LineLoss {
  import opened Text
  import opened Utf8
  import opened DiffScan
  import opened LossyDecode
  import opened LeakScan

  // --- what a patch loses, in its own terms ---

  /** A header line, or the path of its destination, is not UTF-8. */
  ghost predicate LosesHeader(p: FilePatch<Byte>) {
    (exists i :: 0 <= i < |p.preamble| && !WellFormed(p.preamble[i])) || (p.dest.Plain? && !WellFormed(p.dest.path))
  }

  /** An added line is not UTF-8. */
  ghost predicate LosesAdded(p: FilePatch<Byte>) {
    LosesSome(AddedInHunks(p.hunks))
  }

  ghost predicate LosesSome(texts: seq<seq<Byte>>) {
    exists t :: t in texts && !WellFormed(t)
  }

  /** A section heading, or any line of a hunk, is not UTF-8. */
  ghost predicate LosesHunk(h: Hunk<Byte>) {
    !WellFormed(h.section) || exists k :: 0 <= k < |h.lines| && !WellFormed(h.lines[k].text)
  }

  ghost predicate LosesAny(p: FilePatch<Byte>) {
    LosesHeader(p) || exists i :: 0 <= i < |p.hunks| && LosesHunk(p.hunks[i])
  }

  // --- the flag and the loss along some lines ---

  ghost predicate NamedFrom(lines: seq<seq<Byte>>, inHunks: bool) {
    exists k :: 0 <= k < |lines| && NamedAt(lines, k, inHunks)
  }

  predicate NamedAt(lines: seq<seq<Byte>>, k: nat, inHunks: bool)
    requires k < |lines|
  {
    MustName(lines[k], FlagAfter(lines[..k + 1], inHunks))
  }

  lemma FlagLast(lines: seq<seq<Byte>>, line: seq<Byte>, inHunks: bool)
    ensures FlagAfter(lines + [line], inHunks) == EntersHunks(line, FlagAfter(lines, inHunks))
  {
    hide EntersHunks;
    assert (lines + [line])[..|lines|] == lines;
  }

  lemma NamedAtSame(lines: seq<seq<Byte>>, line: seq<Byte>, k: nat, inHunks: bool)
    requires k < |lines|
    ensures NamedAt(lines + [line], k, inHunks) <==> NamedAt(lines, k, inHunks)
  {
    assert (lines + [line])[..k + 1] == lines[..k + 1];
  }

  lemma NamedAtLast(lines: seq<seq<Byte>>, line: seq<Byte>, inHunks: bool)
    ensures NamedAt(lines + [line], |lines|, inHunks) <==> MustName(line, EntersHunks(line, FlagAfter(lines, inHunks)))
  {
    hide EntersHunks, MustName, FlagAfter;
    FlagLast(lines, line, inHunks);
    assert (lines + [line])[..|lines| + 1] == lines + [line];
  }

  lemma NamedLast(lines: seq<seq<Byte>>, line: seq<Byte>, inHunks: bool)
    ensures NamedFrom(lines + [line], inHunks) <==>
      NamedFrom(lines, inHunks) || MustName(line, EntersHunks(line, FlagAfter(lines, inHunks)))
  {
    hide EntersHunks, MustName, FlagAfter, NamedAt;
    NamedAtLast(lines, line, inHunks);
    forall k | 0 <= k < |lines|
      ensures NamedAt(lines + [line], k, inHunks) <==> NamedAt(lines, k, inHunks)
    {
      NamedAtSame(lines, line, k, inHunks);
    }
  }

  lemma {:induction false} NamedAppend(a: seq<seq<Byte>>, b: seq<seq<Byte>>, inHunks: bool)
    ensures FlagAfter(a + b, inHunks) == FlagAfter(b, FlagAfter(a, inHunks))
    ensures NamedFrom(a + b, inHunks) <==> NamedFrom(a, inHunks) || NamedFrom(b, FlagAfter(a, inHunks))
    decreases |b|
  {
    hide EntersHunks, MustName, FlagAfter, NamedFrom;
    if b == [] {
      assert a + b == a;
      FlagNone(b, FlagAfter(a, inHunks));
      NoneNamed(b, FlagAfter(a, inHunks));
    } else {
      var n := |b| - 1;
      var short, last := b[..n], b[n];
      assert b == short + [last] && a + b == (a + short) + [last];
      NamedAppend(a, short, inHunks);
      FlagLast(a + short, last, inHunks);
      FlagLast(short, last, FlagAfter(a, inHunks));
      NamedLast(a + short, last, inHunks);
      NamedLast(short, last, FlagAfter(a, inHunks));
    }
  }

  lemma NoneNamed(lines: seq<seq<Byte>>, inHunks: bool)
    requires lines == []
    ensures !NamedFrom(lines, inHunks)
  {
  }

  lemma NamedOne(line: seq<Byte>, inHunks: bool)
    ensures FlagAfter([line], inHunks) == EntersHunks(line, inHunks)
    ensures NamedFrom([line], inHunks) <==> MustName(line, EntersHunks(line, inHunks))
  {
    hide EntersHunks, MustName, FlagAfter, NamedFrom;
    assert [] + [line] == [line];
    FlagLast([], line, inHunks);
    NamedLast([], line, inHunks);
    FlagNone([], inHunks);
    NoneNamed([], inHunks);
  }

  // --- the parts of a patch ---

  lemma FormedPrefix(s: string, tail: seq<Byte>)
    requires IsAsciiText(s)
    ensures WellFormed(Bytes(s) + tail) <==> WellFormed(tail)
  {
    EncodeOfAscii(s);
    AsciiPrefix(Bytes(s), tail, Replace);
  }

  lemma {:induction false} PreambleNamed(lines: seq<seq<Byte>>)
    requires forall i :: 0 <= i < |lines| ==> PlainHeaderBytes(lines[i])
    ensures !FlagAfter(lines, false)
    ensures NamedFrom(lines, false) <==> exists i :: 0 <= i < |lines| && !WellFormed(lines[i])
  {
    hide PlainHeaderBytes, FlagAfter, NamedFrom, EntersHunks, WellFormed;
    if lines == [] {
      FlagNone(lines, false);
      NoneNamed(lines, false);
    } else {
      var n := |lines| - 1;
      var short, last := lines[..n], lines[n];
      assert lines == short + [last];
      assert forall i :: 0 <= i < n ==> short[i] == lines[i];
      PreambleNamed(short);
      FlagLast(short, last, false);
      NamedLast(short, last, false);
      PlainHeaderFlags(last);
    }
  }

  lemma DestNamed(dest: Dest<Byte>)
    ensures !FlagAfter(DestBytes(dest), false)
    ensures NamedFrom(DestBytes(dest), false) <==> dest.Plain? && !WellFormed(dest.path)
  {
    hide FlagAfter, NamedFrom, WellFormed, QuotedName;
    match dest {
      case Unnamed =>
        FlagNone(DestBytes(dest), false);
        NoneNamed(DestBytes(dest), false);
      case Null => DestLine("+++ /dev/null", []);
      case Plain(path) => DestLine("+++ b/", path);
      case Quoted(bytes) =>
        QuotedLine(bytes);
        DestLine("+++ " + QuotedName(bytes), []);
        assert Bytes("+++ " + QuotedName(bytes)) + [] == Bytes("+++ " + QuotedName(bytes));
    }
  }

  lemma DestLine(head: string, tail: seq<Byte>)
    requires IsAsciiText(head) && |head| >= 4 && head[..4] == "+++ "
    ensures var line := Bytes(head) + tail;
      && !FlagAfter([line], false) && (NamedFrom([line], false) <==> !WellFormed(tail))
      && (tail == [] ==> line == Bytes(head) && WellFormed(tail))
  {
    hide FlagAfter, NamedFrom;
    var line := Bytes(head) + tail;
    NamedOne(line, false);
    FormedPrefix(head, tail);
    assert line[0] == head[..4][0] as int;
    assert line[0] != HunkMark()[0];
  }

  lemma BodyNamed(l: BodyLine<Byte>)
    ensures EntersHunks(BodyBytes(l), true)
    ensures MustName(BodyBytes(l), true) <==> l.Added? && !WellFormed(l.text)
    ensures WellFormed(BodyBytes(l)) <==> WellFormed(l.text)
  {
    hide WellFormed;
    FormedPrefix([BodyMark(l)], l.text);
    assert BodyBytes(l)[0] == BodyMark(l) as int;
    assert BodyBytes(l)[..1] == [BodyBytes(l)[0]];
  }

  lemma {:induction false} BodiesNamed(lines: seq<BodyLine<Byte>>)
    ensures FlagAfter(BodiesBytes(lines), true)
    ensures NamedFrom(BodiesBytes(lines), true) <==> LosesSome(AddedText(lines))
  {
    hide FlagAfter, NamedFrom, EntersHunks, WellFormed, BodyBytes, MustName;
    if lines == [] {
      FlagNone(BodiesBytes(lines), true);
      NoneNamed(BodiesBytes(lines), true);
    } else {
      var rest := lines[1..];
      BodiesNamed(rest);
      BodyNamed(lines[0]);
      NamedOne(BodyBytes(lines[0]), true);
      NamedAppend([BodyBytes(lines[0])], BodiesBytes(rest), true);
      AddedFirst(lines);
    }
  }

  lemma AddedFirst(lines: seq<BodyLine<Byte>>)
    requires lines != []
    ensures forall t :: t in AddedText(lines) <==> (lines[0].Added? && t == lines[0].text) || t in AddedText(lines[1..])
  {
  }

  lemma HeadLine(h: Hunk<Byte>, inHunks: bool)
    ensures var line := Bytes(HeaderText(h)) + h.section;
      && EntersHunks(line, inHunks) && !MustName(line, true) && !StartsWith(line, DiffGit())
      && (WellFormed(line) <==> WellFormed(h.section))
  {
    hide WellFormed, HeaderText;
    var line := Bytes(HeaderText(h)) + h.section;
    HeaderDecoded(h, inHunks);
    FormedPrefix(HeaderText(h), h.section);
    HeadOpens(h);
    assert line[0] == '@' as int;
  }

  lemma HeadOpens(h: Hunk<Byte>)
    ensures HeaderText(h) != "" && HeaderText(h)[0] == '@'
  {
    hide PrintRange;
  }

  lemma {:induction false} HunksNamed(hunks: seq<Hunk<Byte>>, inHunks: bool)
    ensures NamedFrom(HunksBytes(hunks), inHunks) <==> LosesSome(AddedInHunks(hunks))
    ensures hunks != [] ==> FlagAfter(HunksBytes(hunks), inHunks)
    ensures hunks == [] ==> FlagAfter(HunksBytes(hunks), inHunks) == inHunks
  {
    hide FlagAfter, NamedFrom, EntersHunks, WellFormed, MustName, HeaderText, BodiesBytes, AddedText;
    if hunks == [] {
      FlagNone(HunksBytes(hunks), inHunks);
      NoneNamed(HunksBytes(hunks), inHunks);
    } else {
      var h := hunks[0];
      var line := Bytes(HeaderText(h)) + h.section;
      var rest := HunksBytes(hunks[1..]);
      assert HunksBytes(hunks) == [line] + (BodiesBytes(h.lines) + rest);
      HeadLine(h, inHunks);
      NamedOne(line, inHunks);
      BodiesNamed(h.lines);
      NamedAppend([line], BodiesBytes(h.lines) + rest, inHunks);
      NamedAppend(BodiesBytes(h.lines), rest, true);
      HunksNamed(hunks[1..], true);
      HunksFirst(hunks);
    }
  }

  lemma HunksFirst(hunks: seq<Hunk<Byte>>)
    requires hunks != []
    ensures forall t :: t in AddedInHunks(hunks) <==> t in AddedText(hunks[0].lines) || t in AddedInHunks(hunks[1..])
  {
    hide AddedText;
  }

  /** The scan's rule names a patch's lines exactly for a loss in its header or an added line. */
  lemma PatchNamed(p: FilePatch<Byte>)
    requires PatchBytesFit(p)
    ensures SectionNamed(PatchBytes(p) + [[]]) <==> LosesHeader(p) || LosesAdded(p)
  {
    hide FlagAfter, NamedFrom, EntersHunks, MustName, WellFormed;
    hide HunksBytes, DestBytes, AddedInHunks, LosesSome, StartsWith;
    PreambleNamed(p.preamble);
    DestNamed(p.dest);
    HunksNamed(p.hunks, false);
    NamedAppend(p.preamble, DestBytes(p.dest), false);
    NamedAppend(p.preamble + DestBytes(p.dest), HunksBytes(p.hunks), false);
    NamedLast(PatchBytes(p), [], false);
    NothingNamed(EntersHunks([], FlagAfter(PatchBytes(p), false)));
    assert NamedFrom(p.preamble, false) || NamedFrom(DestBytes(p.dest), false) <==> LosesHeader(p);
    assert NamedFrom(HunksBytes(p.hunks), false) <==> LosesAdded(p);
    SectionNamedIs(PatchBytes(p) + [[]]);
  }

  lemma NothingFormed()
    ensures WellFormed([])
  {
  }

  lemma NothingNamed(inHunks: bool)
    ensures !MustName([], inHunks)
  {
  }

  lemma SectionNamedIs(lines: seq<seq<Byte>>)
    ensures SectionNamed(lines) <==> NamedFrom(lines, false)
  {
    hide MustName, FlagAfter;
    forall k | 0 <= k < |lines|
      ensures NamedAt(lines, k, false) <==> MustName(lines[k], FlagAfter(lines[..k + 1], false))
    {
    }
  }

  // --- whole lines, well formed or not ---

  lemma {:induction false} LinesFormed(lines: seq<seq<Byte>>)
    ensures WellFormed(Terminated(lines, LF)) <==> forall i :: 0 <= i < |lines| ==> WellFormed(lines[i])
  {
    hide WellFormed;
    if lines == [] {
      NothingFormed();
    } else {
      var rest := Terminated(lines[1..], LF);
      assert Terminated(lines, LF) == lines[0] + ([LF] + rest);
      LfFormed(lines[0], rest);
      LinesFormed(lines[1..]);
      assert forall i :: 0 < i < |lines| ==> lines[i] == lines[1..][i - 1];
    }
  }

  lemma LfFormed(a: seq<Byte>, rest: seq<Byte>)
    ensures WellFormed(a + ([LF] + rest)) <==> WellFormed(a) && WellFormed(rest)
  {
    WellFormedAppend(a, [LF] + rest);
    AsciiPrefix([LF], rest, Replace);
  }

  ghost predicate AllFormed(lines: seq<seq<Byte>>) {
    forall i :: 0 <= i < |lines| ==> WellFormed(lines[i])
  }

  lemma FormedAppend(a: seq<seq<Byte>>, b: seq<seq<Byte>>)
    ensures AllFormed(a + b) <==> AllFormed(a) && AllFormed(b)
  {
    hide WellFormed;
    assert forall i :: 0 <= i < |a| ==> (a + b)[i] == a[i];
    assert forall i :: 0 <= i < |b| ==> (a + b)[|a| + i] == b[i];
  }

  lemma FormedOne(line: seq<Byte>)
    ensures AllFormed([line]) <==> WellFormed(line)
    ensures AllFormed([])
  {
    hide WellFormed;
    assert [line][0] == line;
  }

  lemma {:induction false} BodiesFormed(lines: seq<BodyLine<Byte>>)
    ensures AllFormed(BodiesBytes(lines)) <==> forall k :: 0 <= k < |lines| ==> WellFormed(lines[k].text)
  {
    hide WellFormed, BodyBytes, AllFormed;
    if lines == [] {
      FormedOne([]);
    } else {
      BodyNamed(lines[0]);
      BodiesFormed(lines[1..]);
      FormedOne(BodyBytes(lines[0]));
      FormedAppend([BodyBytes(lines[0])], BodiesBytes(lines[1..]));
      assert forall k :: 0 < k < |lines| ==> lines[k] == lines[1..][k - 1];
    }
  }

  lemma {:induction false} HunksFormed(hunks: seq<Hunk<Byte>>)
    ensures AllFormed(HunksBytes(hunks)) <==> forall i :: 0 <= i < |hunks| ==> !LosesHunk(hunks[i])
  {
    hide WellFormed, BodiesBytes, HeaderText, AllFormed;
    if hunks == [] {
      FormedOne([]);
    } else {
      var h := hunks[0];
      var line := Bytes(HeaderText(h)) + h.section;
      HeadLine(h, false);
      BodiesFormed(h.lines);
      HunksFormed(hunks[1..]);
      FormedOne(line);
      FormedAppend([line] + BodiesBytes(h.lines), HunksBytes(hunks[1..]));
      FormedAppend([line], BodiesBytes(h.lines));
      assert forall i :: 0 < i < |hunks| ==> hunks[i] == hunks[1..][i - 1];
    }
  }

  lemma DestFormed(dest: Dest<Byte>)
    ensures AllFormed(DestBytes(dest)) <==> !(dest.Plain? && !WellFormed(dest.path))
  {
    hide WellFormed, QuotedName, AllFormed;
    match dest {
      case Unnamed => FormedOne([]);
      case Null =>
        FormedHead("+++ /dev/null");
      case Plain(path) =>
        FormedPrefix("+++ b/", path);
        FormedOne(Bytes("+++ b/") + path);
      case Quoted(bytes) =>
        QuotedLine(bytes);
        FormedHead("+++ " + QuotedName(bytes));
    }
  }

  lemma FormedHead(head: string)
    requires IsAsciiText(head)
    ensures AllFormed([Bytes(head)])
  {
    hide WellFormed, AllFormed;
    FormedPrefix(head, []);
    NothingFormed();
    assert Bytes(head) + [] == Bytes(head);
    FormedOne(Bytes(head));
  }

  lemma PatchFormed(p: FilePatch<Byte>)
    ensures WellFormed(Terminated(PatchBytes(p), LF)) <==> !LosesAny(p)
  {
    hide WellFormed, HunksBytes, DestBytes, LosesHunk;
    LinesFormed(PatchBytes(p));
    FormedAppend(p.preamble + DestBytes(p.dest), HunksBytes(p.hunks));
    FormedAppend(p.preamble, DestBytes(p.dest));
    HunksFormed(p.hunks);
    DestFormed(p.dest);
  }
}
