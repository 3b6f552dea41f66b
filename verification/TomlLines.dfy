/**
 Reading a document line by line: a text parses exactly when its last line has no bare carriage return and its lines'
 own texts run; a table's own lines, cut out, make a document; a header opens and a key is assigned once.
 */
module TomlLines {
  import opened Text
  import opened TomlLex
  import opened TomlDoc
  import opened SwitchText
  import opened TomlShapes

  /** A line without its carriage return, lexed. */
  function Inner(line: string): Option<Line> {
    LexLine(StripCr(line))
  }

  function InnerAll(lines: seq<string>): (out: seq<Option<Line>>)
    ensures |out| == |lines| && forall i :: 0 <= i < |lines| ==> out[i] == Inner(lines[i])
  {
    if lines == [] then [] else [Inner(lines[0])] + InnerAll(lines[1..])
  }

  predicate EndsBare(lines: seq<string>) {
    lines != [] && EndsWith(lines[|lines| - 1], "\r")
  }

  lemma InnerAppend(a: seq<string>, b: seq<string>)
    ensures InnerAll(a + b) == InnerAll(a) + InnerAll(b)
  {
  }

  lemma InnerSlice(lines: seq<string>, lo: nat, hi: nat)
    requires lo <= hi <= |lines|
    ensures InnerAll(lines[lo..hi]) == InnerAll(lines)[lo..hi]
  {
  }

  lemma {:induction false} RunLexes(st: St, lines: seq<Option<Line>>)
    requires Run(st, lines).Some?
    ensures forall i :: 0 <= i < |lines| ==> lines[i].Some?
    decreases |lines|
  {
    hide StepLine;
    if lines != [] {
      RunLexes(StepLine(st, lines[0].value).value, lines[1..]);
      forall i | 0 < i < |lines|
        ensures lines[i].Some?
      {
        assert lines[1..][i - 1] == lines[i];
      }
    }
  }

  /** A bare carriage return at the text's end refuses it; otherwise the lines' own texts are what is read. */
  lemma ParseByLine(lines: seq<string>)
    requires lines != []
    ensures EndsBare(lines) ==> ParseLines(lines).None?
    ensures !EndsBare(lines) ==> Lexed(lines) == InnerAll(lines)
  {
    hide LexLine, Run;
    var last := lines[|lines| - 1];
    if EndsBare(lines) {
      if ParseLines(lines).Some? {
        RunLexes(START, Lexed(lines));
        assert Lexed(lines)[|lines| - 1] == LexLine(last);
        LexClean(last);
        NoCrStrips(last);
      }
    } else {
      forall i | 0 <= i < |lines|
        ensures Lexed(lines)[i] == InnerAll(lines)[i]
      {
      }
    }
  }

  /** The document read off the lines' own texts. */
  lemma ParsedRuns(text: string)
    requires Parse(text).Some?
    ensures var lines := SplitOn(text, '\n');
      !EndsBare(lines) && Run(START, InnerAll(lines)).Some?
        && Parse(text) == Some(Run(START, InnerAll(lines)).value.doc)
  {
    hide LexLine, Run;
    ParseByLine(SplitOn(text, '\n'));
  }

  lemma ParseJoined(lines: seq<string>)
    requires lines != [] && forall i :: 0 <= i < |lines| ==> '\n' !in lines[i]
    ensures EndsBare(lines) ==> Parse(JoinWith(lines, '\n')).None?
    ensures !EndsBare(lines) ==>
      Parse(JoinWith(lines, '\n')) == match Run(START, InnerAll(lines)) case None => None case Some(st) => Some(st.doc)
  {
    hide LexLine, Run;
    SplitOfJoin(lines, '\n');
    ParseByLine(lines);
  }

  // --- lines cut out ---

  lemma InnerStrips(line: string)
    requires Inner(line).Some?
    ensures Inner(StripCr(line)) == Inner(line) && !EndsWith(StripCr(line), "\r")
  {
    hide LexLine;
    LexClean(StripCr(line));
    NoCrStrips(StripCr(line));
  }

  lemma EmptyParses()
    ensures Parse("").Some?
  {
    assert Lexed([""]) == [Some(Blank)];
    RunOne(START, Blank);
  }

  lemma OwnLines(lines: seq<string>)
    requires forall i :: 0 <= i < |lines| ==> '\n' !in lines[i] && Inner(lines[i]).Some?
    ensures forall i :: 0 <= i < |lines| ==> '\n' !in Stripped(lines)[i]
    ensures InnerAll(Stripped(lines)) == InnerAll(lines) && !EndsBare(Stripped(lines))
  {
    hide Inner;
    var own := Stripped(lines);
    forall i | 0 <= i < |lines|
      ensures '\n' !in own[i] && Inner(own[i]) == Inner(lines[i]) && !EndsWith(own[i], "\r")
    {
      InnerStrips(lines[i]);
    }
    assert InnerAll(own) == InnerAll(lines);
  }

  /** Accepted lines on their own make a document exactly when they run from the start. */
  lemma AloneRuns(lines: seq<string>)
    requires forall i :: 0 <= i < |lines| ==> '\n' !in lines[i] && Inner(lines[i]).Some?
    requires Run(START, InnerAll(lines)).Some?
    ensures ParsesAlone(lines)
  {
    hide LexLine, Run, Parse, Inner, InnerAll, StripCr, EndsBare, JoinWith;
    OwnLines(lines);
    if lines == [] {
      EmptyParses();
      assert JoinWith(Stripped(lines), '\n') == "" by { NoLines(); }
    } else {
      ParseJoined(Stripped(lines));
    }
  }

  lemma NoLines()
    ensures JoinWith(Stripped([]), '\n') == ""
  {
  }

  /** The second state's table is no fuller than the first's. */
  ghost predicate NoFuller(a: St, b: St) {
    forall k: string :: b.cur + [k] in Nodes(b.doc) ==> a.cur + [k] in Nodes(a.doc)
  }

  lemma {:induction false} ShiftRun(a: St, b: St, lines: seq<Option<Line>>)
    requires NoHeads(lines) && Run(a, lines).Some? && NoFuller(a, b)
    ensures Run(b, lines).Some?
    decreases |lines|
  {
    if lines != [] {
      ShiftStep(a, b, lines[0].value);
      ShiftRun(StepLine(a, lines[0].value).value, StepLine(b, lines[0].value).value, lines[1..]);
    }
  }

  lemma ShiftStep(a: St, b: St, l: Line)
    requires !l.Head? && StepLine(a, l).Some? && NoFuller(a, b)
    ensures StepLine(b, l).Some? && NoFuller(StepLine(a, l).value, StepLine(b, l).value)
  {
    if l.Assign? {
      var a', b' := StepLine(a, l).value, StepLine(b, l).value;
      forall k: string | b'.cur + [k] in Nodes(b'.doc)
        ensures a'.cur + [k] in Nodes(a'.doc)
      {
        if k != l.key {
          assert (b.cur + [k])[|b.cur|] == k && (b.cur + [l.key])[|b.cur|] == l.key;
          assert b.cur + [k] in Nodes(b.doc);
        }
      }
    }
  }

  /** Any stretch of a table's own lines makes a document on its own. */
  lemma StretchParses(a: St, lines: seq<string>)
    requires forall i :: 0 <= i < |lines| ==> '\n' !in lines[i]
    requires NoHeads(InnerAll(lines)) && Run(a, InnerAll(lines)).Some?
    ensures ParsesAlone(lines)
  {
    hide LexLine, Run, StepLine, Inner, ParsesAlone;
    RunLexes(a, InnerAll(lines));
    ShiftRun(a, START, InnerAll(lines));
    AloneRuns(lines);
  }

  // --- once only ---

  lemma {:induction false} OpenedOnce(st: St, lines: seq<Option<Line>>, path: Path)
    requires Run(st, lines).Some? && path in st.defined
    ensures Some(Head(path)) !in lines
    decreases |lines|
  {
    if lines != [] {
      OpenedOnce(StepLine(st, lines[0].value).value, lines[1..], path);
      assert lines == [lines[0]] + lines[1..];
    }
  }

  lemma {:induction false} HeadOnce(st: St, lines: seq<Option<Line>>, i: nat, j: nat, path: Path)
    requires Run(st, lines).Some? && i < j < |lines| && lines[i] == Some(Head(path))
    ensures lines[j] != lines[i]
    decreases |lines|
  {
    var next := StepLine(st, lines[0].value).value;
    if i == 0 {
      OpenedOnce(next, lines[1..], path);
      assert lines[1..][j - 1] == lines[j];
    } else {
      HeadOnce(next, lines[1..], i - 1, j - 1, path);
    }
  }

  lemma {:induction false} AssignedOnce(st: St, lines: seq<Option<Line>>, key: string)
    requires Run(st, lines).Some? && NoHeads(lines) && st.cur + [key] in Nodes(st.doc)
    ensures forall k :: 0 <= k < |lines| && lines[k].value.Assign? ==> lines[k].value.key != key
    decreases |lines|
  {
    if lines != [] {
      AssignedOnce(StepLine(st, lines[0].value).value, lines[1..], key);
      forall k | 0 <= k < |lines| && lines[k].value.Assign?
        ensures lines[k].value.key != key
      {
        if k > 0 {
          assert lines[1..][k - 1] == lines[k];
        }
      }
    }
  }

  lemma {:induction false} KeyOnce(st: St, lines: seq<Option<Line>>, i: nat, j: nat, key: string)
    requires Run(st, lines).Some? && NoHeads(lines) && i < j < |lines|
    requires lines[i].value.Assign? && lines[i].value.key == key
    ensures !(lines[j].value.Assign? && lines[j].value.key == key)
    decreases |lines|
  {
    var next := StepLine(st, lines[0].value).value;
    assert lines[1..][j - 1] == lines[j];
    if i == 0 {
      AssignedOnce(next, lines[1..], key);
    } else {
      KeyOnce(next, lines[1..], i - 1, j - 1, key);
    }
  }

  // --- what the search finds ---

  lemma {:induction false} MatchingNone(lines: seq<string>, lo: nat, hi: nat, p: string -> bool)
    requires lo <= hi <= |lines| && forall k :: lo <= k < hi ==> !p(lines[k])
    ensures Matching(lines, lo, hi, p) == []
    decreases hi
  {
    if lo < hi {
      MatchingNone(lines, lo, hi - 1, p);
    }
  }

  lemma {:induction false} MatchingOne(lines: seq<string>, lo: nat, hi: nat, p: string -> bool, i: nat)
    requires lo <= i < hi <= |lines| && forall k :: lo <= k < hi ==> (p(lines[k]) <==> k == i)
    ensures Matching(lines, lo, hi, p) == [i]
    decreases hi
  {
    if i == hi - 1 {
      MatchingNone(lines, lo, hi - 1, p);
    } else {
      MatchingOne(lines, lo, hi - 1, p, i);
    }
  }

  /** The lines of a parsed document. */
  ghost predicate Runs(lines: seq<string>) {
    (forall i :: 0 <= i < |lines| ==> '\n' !in lines[i]) && Run(START, InnerAll(lines)).Some?
  }

  lemma UnfoldRuns(lines: seq<string>)
    requires Runs(lines)
    ensures forall i :: 0 <= i < |lines| ==> '\n' !in lines[i]
    ensures Run(START, InnerAll(lines)).Some?
  {
  }

  lemma Accepted(lines: seq<string>, i: nat)
    requires Runs(lines) && i < |lines|
    ensures Inner(lines[i]).Some? && RStripCr(lines[i]) == StripCr(lines[i])
    ensures TableHeader(RStripCr(lines[i])) <==> Inner(lines[i]).value.Head?
  {
    hide LexLine, Run, TableHeader;
    RunLexes(START, InnerAll(lines));
    LexClean(StripCr(lines[i]));
    StripsAgree(lines[i]);
    HeaderShape(StripCr(lines[i]));
  }

  lemma HeaderIs(lines: seq<string>, i: nat, name: string)
    requires Runs(lines) && i < |lines| && EntryHeader(RStripCr(lines[i]), name)
    ensures Inner(lines[i]) == Some(Head(["switches", name]))
  {
    hide LexLine, Run, EntryHeader, Runs;
    Accepted(lines, i);
    LexClean(StripCr(lines[i]));
    HeaderReads(StripCr(lines[i]), name);
  }

  lemma OneHeader(lines: seq<string>, name: string, i: nat)
    requires Runs(lines) && i < |lines| && EntryHeader(RStripCr(lines[i]), name)
    ensures Matching(lines, 0, |lines|, IsEntryHeader(name)) == [i]
  {
    hide LexLine, Run, EntryHeader, Inner, RStripCr;
    HeaderIs(lines, i, name);
    forall k | 0 <= k < |lines|
      ensures EntryHeader(RStripCr(lines[k]), name) <==> k == i
    {
      if k != i && EntryHeader(RStripCr(lines[k]), name) {
        HeaderIs(lines, k, name);
        HeadOnce(START, InnerAll(lines), if k < i then k else i, if k < i then i else k, ["switches", name]);
      }
    }
    MatchingOne(lines, 0, |lines|, IsEntryHeader(name), i);
  }

  /** A run split at a header: from the state the header leaves through the lines to `end`, and on to the same end. */
  lemma SplitAtHead(all: seq<Option<Line>>, i: nat, end: nat, path: Path)
    requires Run(START, all).Some? && i < end <= |all| && all[i] == Some(Head(path))
    ensures var a := Run(START, all[..i + 1]);
      && a.Some? && a.value.cur == path
      && Run(a.value, all[i + 1..end]).Some?
      && Run(Run(a.value, all[i + 1..end]).value, all[end..]) == Run(START, all)
  {
    hide StepLine, Run;
    assert all == all[..i + 1] + all[i + 1..];
    RunAppend(START, all[..i + 1], all[i + 1..]);
    assert all[..i + 1] == all[..i] + [all[i]];
    RunAppend(START, all[..i], [all[i]]);
    RunOne(Run(START, all[..i]).value, Head(path));
    HeadSets(Run(START, all[..i]).value, path);
    assert all[i + 1..] == all[i + 1..end] + all[end..];
    RunAppend(Run(START, all[..i + 1]).value, all[i + 1..end], all[end..]);
  }

  lemma TableLines(lines: seq<string>, lo: nat)
    requires Runs(lines) && lo <= |lines|
    ensures NoHeads(InnerAll(lines[lo..TableEnd(lines, lo)]))
  {
    hide LexLine, TableHeader, Inner, Runs, RStripCr;
    var own := lines[lo..TableEnd(lines, lo)];
    forall k | 0 <= k < |own|
      ensures InnerAll(own)[k].Some? && !InnerAll(own)[k].value.Head?
    {
      Accepted(lines, lo + k);
      assert own[k] == lines[lo + k];
      assert !TableHeader(RStripCr(lines[lo + k]));
    }
  }

  /** From the header on, the lines before the next header open none, and run from the state the header leaves. */
  lemma TableRuns(lines: seq<string>, i: nat, path: Path)
    requires Runs(lines) && i < |lines| && Inner(lines[i]) == Some(Head(path))
    ensures var end := TableEnd(lines, i + 1);
      var a := Run(START, InnerAll(lines)[..i + 1]);
      && NoHeads(InnerAll(lines[i + 1..end]))
      && a.Some? && a.value.cur == path
      && Run(a.value, InnerAll(lines[i + 1..end])).Some?
      && Run(Run(a.value, InnerAll(lines[i + 1..end])).value, InnerAll(lines)[end..]) == Run(START, InnerAll(lines))
  {
    UnfoldRuns(lines);
    hide LexLine, TableHeader, StepLine, Inner, Runs, RStripCr, Run, NoHeads;
    var end := TableEnd(lines, i + 1);
    InnerSlice(lines, i + 1, end);
    SplitAtHead(InnerAll(lines), i, end, path);
    TableLines(lines, i + 1);
  }

  lemma HeadSets(st: St, path: Path)
    requires StepLine(st, Head(path)).Some?
    ensures StepLine(st, Head(path)).value.cur == path
  {
  }

  lemma SpanAt(lines: seq<string>, name: string, i: nat)
    requires Runs(lines) && i < |lines| && EntryHeader(RStripCr(lines[i]), name)
    ensures EntrySpan(lines, name) == Some((i, TableEnd(lines, i + 1)))
    ensures Inner(lines[i]) == Some(Head(["switches", name]))
  {
    hide LexLine, Run, EntryHeader, Inner, RStripCr, TableHeader, Runs, ParsesAlone, Matching, NoHeads, InnerAll;
    OneHeader(lines, name, i);
    HeaderIs(lines, i, name);
    TableRuns(lines, i, ["switches", name]);
    UnfoldRuns(lines);
    StretchParses(Run(START, InnerAll(lines)[..i + 1]).value, lines[i + 1..TableEnd(lines, i + 1)]);
  }

  /** On a parsed document the table is found exactly when one of its headers is spelled a way the search knows. */
  lemma SpanFound(lines: seq<string>, name: string)
    requires Runs(lines)
    ensures EntrySpan(lines, name).Some? <==> exists i :: 0 <= i < |lines| && EntryHeader(RStripCr(lines[i]), name)
    ensures EntrySpan(lines, name).Some? ==>
      var (start, end) := EntrySpan(lines, name).value;
      start < end && end == TableEnd(lines, start + 1) && Inner(lines[start]) == Some(Head(["switches", name]))
  {
    hide LexLine, Run, EntryHeader, Inner, RStripCr, TableHeader, Runs, ParsesAlone, Matching;
    if i :| 0 <= i < |lines| && EntryHeader(RStripCr(lines[i]), name) {
      SpanAt(lines, name, i);
    } else {
      MatchingNone(lines, 0, |lines|, IsEntryHeader(name));
    }
  }

  lemma AssignAlone(line: string)
    requires '\n' !in line && Inner(line).Some? && Inner(line).value.Assign?
    ensures ParsesAlone([line])
  {
    hide LexLine, ParsesAlone, Inner;
    assert InnerAll([line]) == [Inner(line)];
    RunOne(START, Inner(line).value);
    AloneRuns([line]);
  }

  /** A table's own lines: no header, and a run from the state `a`. */
  ghost predicate TableOwn(own: seq<string>, a: St) {
    (forall k :: 0 <= k < |own| ==> '\n' !in own[k]) && NoHeads(InnerAll(own)) && Run(a, InnerAll(own)).Some?
  }

  lemma KeyLineIs(own: seq<string>, a: St, k: nat, key: string)
    requires TableOwn(own, a) && k < |own| && KeyLine(StripCr(own[k]), key)
    ensures Inner(own[k]).Some? && Inner(own[k]).value.Assign? && Inner(own[k]).value.key == key
  {
    hide LexLine, Run, KeyLine, StripCr;
    RunLexes(a, InnerAll(own));
    assert InnerAll(own)[k] == Inner(own[k]);
    KeyLineReads(StripCr(own[k]), key);
  }

  lemma OneKeyLine(own: seq<string>, a: St, i: nat, k: nat, key: string)
    requires TableOwn(own, a) && i < |own| && k < |own| && i != k
    requires KeyLine(StripCr(own[i]), key)
    ensures !KeyLine(StripCr(own[k]), key)
  {
    hide Run, KeyLine, StripCr, Inner;
    if KeyLine(StripCr(own[k]), key) {
      KeyLineIs(own, a, i, key);
      KeyLineIs(own, a, k, key);
      KeyOnce(a, InnerAll(own), if i < k then i else k, if i < k then k else i, key);
    }
  }

  /**
   In a table's own lines a pair is found exactly when its key is spelled a way the search knows, on that one line.
   */
  lemma PairFound(lines: seq<string>, lo: nat, hi: nat, key: string, a: St)
    requires lo <= hi <= |lines| && TableOwn(lines[lo..hi], a)
    ensures KeyPair(lines, lo, hi, key).Some? <==> exists i :: lo <= i < hi && KeyLine(StripCr(lines[i]), key)
    ensures KeyPair(lines, lo, hi, key).Some? ==>
      var (start, end) := KeyPair(lines, lo, hi, key).value;
      end == start + 1 && lo <= start < hi && Inner(lines[start]).Some? && Inner(lines[start]).value.Assign?
      && Inner(lines[start]).value.key == key
  {
    hide KeyLine, StripCr, ParsesAlone, Matching, TableOwn, Inner;
    if i :| lo <= i < hi && KeyLine(StripCr(lines[i]), key) {
      PairAt(lines, lo, hi, key, a, i);
    } else {
      MatchingNone(lines, lo, hi, IsKeyLine(key));
    }
  }

  lemma KeyLineAt(lines: seq<string>, lo: nat, hi: nat, key: string, a: St, i: nat, k: nat)
    requires lo <= i < hi <= |lines| && lo <= k < hi && TableOwn(lines[lo..hi], a) && KeyLine(StripCr(lines[i]), key)
    ensures KeyLine(StripCr(lines[k]), key) <==> k == i
  {
    hide KeyLine, StripCr, TableOwn;
    var own := lines[lo..hi];
    assert own[k - lo] == lines[k] && own[i - lo] == lines[i];
    if k != i {
      OneKeyLine(own, a, i - lo, k - lo, key);
    }
  }

  lemma MatchingKey(lines: seq<string>, lo: nat, hi: nat, key: string, i: nat)
    requires lo <= i < hi <= |lines|
    requires forall k :: lo <= k < hi ==> (KeyLine(StripCr(lines[k]), key) <==> k == i)
    ensures Matching(lines, lo, hi, IsKeyLine(key)) == [i]
  {
    hide KeyLine, StripCr, Matching;
    MatchingOne(lines, lo, hi, IsKeyLine(key), i);
  }

  lemma PairAlone(lines: seq<string>, lo: nat, hi: nat, key: string, i: nat)
    requires lo <= i < hi <= |lines| && Matching(lines, lo, hi, IsKeyLine(key)) == [i] && ParsesAlone([lines[i]])
    ensures KeyPair(lines, lo, hi, key) == Some((i, i + 1))
  {
    hide KeyLine, StripCr, ParsesAlone, Matching;
    assert lines[i..i + 1] == [lines[i]];
  }

  lemma OwnLine(lines: seq<string>, lo: nat, hi: nat, key: string, a: St, i: nat)
    requires lo <= i < hi <= |lines| && TableOwn(lines[lo..hi], a) && KeyLine(StripCr(lines[i]), key)
    ensures '\n' !in lines[i]
    ensures Inner(lines[i]).Some? && Inner(lines[i]).value.Assign? && Inner(lines[i]).value.key == key
  {
    hide KeyLine, StripCr, Inner, Run, NoHeads;
    var own := lines[lo..hi];
    assert own[i - lo] == lines[i];
    assert '\n' !in own[i - lo];
    KeyLineIs(own, a, i - lo, key);
  }

  lemma PairAt(lines: seq<string>, lo: nat, hi: nat, key: string, a: St, i: nat)
    requires lo <= i < hi <= |lines| && TableOwn(lines[lo..hi], a) && KeyLine(StripCr(lines[i]), key)
    ensures KeyPair(lines, lo, hi, key) == Some((i, i + 1))
    ensures Inner(lines[i]).Some? && Inner(lines[i]).value.Assign? && Inner(lines[i]).value.key == key
  {
    hide KeyLine, StripCr, ParsesAlone, Matching, TableOwn, Inner, KeyPair, IsKeyLine;
    OwnLine(lines, lo, hi, key, a, i);
    forall k | lo <= k < hi
      ensures KeyLine(StripCr(lines[k]), key) <==> k == i
    {
      KeyLineAt(lines, lo, hi, key, a, i, k);
    }
    MatchingKey(lines, lo, hi, key, i);
    AssignAlone(lines[i]);
    PairAlone(lines, lo, hi, key, i);
  }
}
