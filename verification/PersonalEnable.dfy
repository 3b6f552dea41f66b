/**
 Personal enable, wherever the entry's table stands: removing its lines leaves the old document without that entry
 exactly where no table stands below it, the parent table kept, by an explicit header where nothing else would keep it.
 */
module PersonalEnable {
  import opened Text
  import opened TomlValues
  import opened TomlLex
  import opened TomlDoc
  import opened SwitchText
  import opened TomlLines
  import opened TomlFields
  import opened OffRewrite
  import A = AppendEntry
  import opened PersonalSwitch

  function Parent(): Path {
    ["switches"]
  }

  /** The document without the entry and everything under it. */
  function Without(d: Doc, name: string): Doc {
    var e := EntryPath(name);
    Doc(map p | p in d.leaves && !(e <= p) :: d.leaves[p], set p | p in d.tables && !(e <= p))
  }

  /** The entry has keys only, no table of its own below. */
  ghost predicate NoSubtables(d: Doc, name: string) {
    forall p :: p in d.tables ==> !(EntryPath(name) < p)
  }

  /** The leaf is one of the table's own keys. */
  predicate OwnKey(e: Path, p: Path) {
    e < p && |p| == |e| + 1
  }

  function DropOwn(leaves: map<Path, Value>, e: Path): map<Path, Value> {
    map p | p in leaves && !OwnKey(e, p) :: leaves[p]
  }

  /** The document without the entry's own keys, and without its table where nothing stands below. */
  ghost function Removed(d: Doc, name: string): Doc {
    var e := EntryPath(name);
    Doc(DropOwn(d.leaves, e), if NoSubtables(d, name) then d.tables - {e} else d.tables)
  }

  lemma OwnParent(e: Path, p: Path)
    ensures OwnKey(e, p) <==> p != [] && p[..|p| - 1] == e
  {
    if p != [] && p[..|p| - 1] == e {
      assert p[..|e|] == e;
    }
  }

  lemma LeafBelow(st: St, e: Path, p: Path)
    requires WellBuilt(st) && p in st.doc.leaves && e in st.doc.tables && e <= p
    ensures OwnKey(e, p) || exists q :: q in st.doc.tables && e < q
  {
    assert p != e;
    if |p| > |e| + 1 {
      var q := p[..|e| + 1];
      assert q in st.doc.tables && e < q;
    }
  }

  /** Removing a table's lines removes the whole entry exactly when it has no table below. */
  lemma RemovedIsWithout(st: St, name: string)
    requires WellBuilt(st) && EntryPath(name) in st.doc.tables
    ensures Removed(st.doc, name) == Without(st.doc, name) <==> NoSubtables(st.doc, name)
  {
    var d, e := st.doc, EntryPath(name);
    if NoSubtables(d, name) {
      forall p | p in d.leaves && e <= p
        ensures OwnKey(e, p)
      {
        LeafBelow(st, e, p);
      }
      assert DropOwn(d.leaves, e) == Without(d, name).leaves;
      forall p | p in d.tables
        ensures e <= p <==> p == e
      {
      }
      assert d.tables - {e} == Without(d, name).tables;
    } else {
      assert e in Removed(d, name).tables && e !in Without(d, name).tables;
    }
  }

  // --- the run without the table ---

  /** Every table is one a header opened or passed through. */
  ghost predicate Opened(st: St) {
    forall p :: p in st.doc.tables ==> exists q :: q in st.defined && p <= q
  }

  lemma StepOpened(st: St, l: Line)
    requires Opened(st) && StepLine(st, l).Some?
    ensures Opened(StepLine(st, l).value)
  {
    var next := StepLine(st, l).value;
    if l.Head? {
      forall p | p in next.doc.tables
        ensures exists q :: q in next.defined && p <= q
      {
        if p in st.doc.tables {
          var q :| q in st.defined && p <= q;
          assert q in next.defined;
        } else {
          assert l.path in next.defined && p <= l.path;
        }
      }
    }
  }

  lemma {:induction false} RunOpened(st: St, lines: seq<Option<Line>>)
    requires Opened(st) && Run(st, lines).Some?
    ensures Opened(Run(st, lines).value)
    decreases |lines|
  {
    hide StepLine, Opened;
    if lines != [] {
      StepOpened(st, lines[0].value);
      RunOpened(StepLine(st, lines[0].value).value, lines[1..]);
    }
  }

  /** Every leaf was assigned at the top or under a header that stands. */
  ghost predicate Assigned(st: St) {
    && (st.cur == [] || st.cur in st.defined)
    && forall p :: p in st.doc.leaves ==> p != [] && (|p| == 1 || p[..|p| - 1] in st.defined)
  }

  lemma StepAssigned(st: St, l: Line)
    requires Assigned(st) && StepLine(st, l).Some?
    ensures Assigned(StepLine(st, l).value)
  {
    if l.Assign? {
      var q := st.cur + [l.key];
      assert q[..|q| - 1] == st.cur;
    }
  }

  lemma {:induction false} RunAssigned(st: St, lines: seq<Option<Line>>)
    requires Assigned(st) && Run(st, lines).Some?
    ensures Assigned(Run(st, lines).value)
    decreases |lines|
  {
    hide StepLine, Assigned;
    if lines != [] {
      StepAssigned(st, lines[0].value);
      RunAssigned(StepLine(st, lines[0].value).value, lines[1..]);
    }
  }

  /** The second state is the first without the entry's own; its table, and its parent, may be missing besides. */
  ghost predicate Less(a: St, b: St, name: string) {
    var e := EntryPath(name);
    && e in a.doc.tables && e in a.defined
    && b.doc.leaves == DropOwn(a.doc.leaves, e)
    && b.defined == a.defined - {e}
    && b.doc.tables <= a.doc.tables <= b.doc.tables + {Parent(), e}
  }

  lemma SelfPrefix(path: Path)
    requires path != []
    ensures path in Prefixes(path)
  {
    assert path[..|path|] == path;
  }

  /** Before its header no key of the entry's own is there. */
  lemma Untouched(st: St, name: string)
    requires Assigned(st) && EntryPath(name) !in st.defined
    ensures DropOwn(st.doc.leaves, EntryPath(name)) == st.doc.leaves
  {
    var e := EntryPath(name);
    forall p | p in st.doc.leaves
      ensures !OwnKey(e, p)
    {
      OwnParent(e, p);
    }
  }

  lemma EntryPrefixes(name: string)
    ensures Prefixes(EntryPath(name)) == {Parent(), EntryPath(name)}
  {
    var e := EntryPath(name);
    assert e[..1] == Parent() && e[..2] == e;
    forall p
      ensures p in Prefixes(e) <==> p == Parent() || p == e
    {
      if p in Prefixes(e) {
        var i :| 0 < i <= 2 && p == e[..i];
      }
      if p == Parent() {
        assert p == e[..1];
      } else if p == e {
        assert p == e[..2];
      }
    }
  }

  lemma HeadLess(st: St, name: string)
    requires Assigned(st) && StepLine(st, Head(EntryPath(name))).Some?
    ensures Less(StepLine(st, Head(EntryPath(name))).value, st, name)
  {
    Untouched(st, name);
    EntryPrefixes(name);
  }

  lemma OwnLess(a: St, b: St, name: string, l: Line)
    requires Less(a, b, name) && a.cur == EntryPath(name) && !l.Head? && StepLine(a, l).Some?
    ensures Less(StepLine(a, l).value, b, name) && StepLine(a, l).value.cur == EntryPath(name)
  {
    if l.Assign? {
      var p := a.cur + [l.key];
      assert OwnKey(EntryPath(name), p);
      assert DropOwn(a.doc.leaves[p := l.value], EntryPath(name)) == DropOwn(a.doc.leaves, EntryPath(name));
    }
  }

  /** The table's own lines touch nothing but the entry. */
  lemma {:induction false} OwnRunLess(a: St, b: St, name: string, lines: seq<Option<Line>>)
    requires Less(a, b, name) && a.cur == EntryPath(name) && NoHeads(lines) && Run(a, lines).Some?
    ensures Less(Run(a, lines).value, b, name)
    decreases |lines|
  {
    hide StepLine, Less;
    if lines != [] {
      OwnLess(a, b, name, lines[0].value);
      OwnRunLess(StepLine(a, lines[0].value).value, b, name, lines[1..]);
    }
  }

  lemma HeadStepLess(a: St, b: St, name: string, path: Path)
    requires Less(a, b, name) && StepLine(a, Head(path)).Some?
    ensures var a', b' := StepLine(a, Head(path)).value, StepLine(b, Head(path));
      b'.Some? && Less(a', b'.value, name) && a'.cur == b'.value.cur && a'.cur != EntryPath(name)
  {
    hide Prefixes, EntryPath, DropOwn;
    DropFewer(a.doc.leaves, EntryPath(name));
    assert Prefixes(path) !! b.doc.leaves.Keys;
  }

  lemma DropFewer(leaves: map<Path, Value>, e: Path)
    ensures DropOwn(leaves, e).Keys <= leaves.Keys
  {
  }

  lemma AssignLess(a: St, b: St, name: string, key: string, value: Value)
    requires Less(a, b, name) && a.cur == b.cur && a.cur != EntryPath(name) && StepLine(a, Assign(key, value)).Some?
    ensures var a', b' := StepLine(a, Assign(key, value)).value, StepLine(b, Assign(key, value));
      b'.Some? && Less(a', b'.value, name) && a'.cur == b'.value.cur == a.cur
  {
    var e := EntryPath(name);
    var p := a.cur + [key];
    assert p[..|p| - 1] == a.cur;
    hide EntryPath;
    OwnParent(e, p);
    assert DropOwn(a.doc.leaves[p := value], e) == DropOwn(a.doc.leaves, e)[p := value];
  }

  /** After the table, the lines run without it where they ran with it. */
  lemma {:induction false} RestLess(a: St, b: St, name: string, lines: seq<Option<Line>>)
    requires Less(a, b, name) && a.cur == b.cur && a.cur != EntryPath(name) && Run(a, lines).Some?
    ensures Run(b, lines).Some? && Less(Run(a, lines).value, Run(b, lines).value, name)
    decreases |lines|
  {
    hide StepLine, Less, EntryPath;
    if lines != [] {
      var a' := StepLine(a, lines[0].value).value;
      match lines[0].value
      case Blank =>
        BlankStep(a);
        BlankStep(b);
        RestLess(a, b, name, lines[1..]);
      case Head(path) =>
        HeadStepLess(a, b, name, path);
        RestLess(a', StepLine(b, lines[0].value).value, name, lines[1..]);
      case Assign(key, value) =>
        AssignLess(a, b, name, key, value);
        RestLess(a', StepLine(b, lines[0].value).value, name, lines[1..]);
    }
  }

  lemma BlankStep(st: St)
    ensures StepLine(st, Blank) == Some(st)
  {
  }

  /** Nothing follows the table, or a header does. */
  predicate HeadFirst(lines: seq<Option<Line>>) {
    lines == [] || (lines[0].Some? && lines[0].value.Head?)
  }

  lemma AfterLess(a: St, b: St, name: string, lines: seq<Option<Line>>)
    requires Less(a, b, name) && HeadFirst(lines) && Run(a, lines).Some?
    ensures Run(b, lines).Some? && Less(Run(a, lines).value, Run(b, lines).value, name)
  {
    hide StepLine, Less, EntryPath;
    if lines != [] {
      var a' := StepLine(a, lines[0].value).value;
      HeadStepLess(a, b, name, lines[0].value.path);
      RestLess(a', StepLine(b, lines[0].value).value, name, lines[1..]);
    }
  }

  // --- the parent put back ---

  /** The second state is the first with the parent table, which the first never has. */
  ghost predicate WithParent(a: St, b: St) {
    b.doc == Doc(a.doc.leaves, a.doc.tables + {Parent()}) && b.defined == a.defined + {Parent()}
  }

  lemma ParentStep(a: St, b: St, l: Line)
    requires WithParent(a, b) && (a.cur == b.cur || l.Head?) && StepLine(a, l).Some?
      && Parent() !in Nodes(StepLine(a, l).value.doc)
    ensures StepLine(b, l).Some? && WithParent(StepLine(a, l).value, StepLine(b, l).value)
    ensures StepLine(a, l).value.cur == StepLine(b, l).value.cur
  {
    match l
    case Blank =>
    case Head(path) =>
      SelfPrefix(Parent());
      hide Prefixes;
    case Assign(key, value) =>
      assert a.cur + [key] in Nodes(StepLine(a, l).value.doc);
  }

  lemma {:induction false} ParentRun(a: St, b: St, lines: seq<Option<Line>>)
    requires WithParent(a, b) && (a.cur == b.cur || HeadFirst(lines)) && Run(a, lines).Some?
      && Parent() !in Nodes(Run(a, lines).value.doc)
    ensures Run(b, lines).Some? && WithParent(Run(a, lines).value, Run(b, lines).value)
    decreases |lines|
  {
    hide StepLine, Nodes, WithParent;
    if lines != [] {
      var a' := StepLine(a, lines[0].value).value;
      RunGrows(a', lines[1..]);
      if lines[0].value.Blank? {
        BlankStep(a);
        BlankStep(b);
        ParentRun(a, b, lines[1..]);
      } else {
        ParentStep(a, b, lines[0].value);
        ParentRun(a', StepLine(b, lines[0].value).value, lines[1..]);
      }
    }
  }

  lemma ParentOpens(st: St)
    requires WellBuilt(st) && Parent() !in Nodes(st.doc)
    ensures StepLine(st, Head(Parent())).Some? && WithParent(st, StepLine(st, Head(Parent())).value)
  {
    assert Parent()[..1] == Parent();
    forall p
      ensures p in Prefixes(Parent()) <==> p == Parent()
    {
      if p in Prefixes(Parent()) {
        var i :| 0 < i <= 1 && p == Parent()[..i];
      }
      if p == Parent() {
        assert p == Parent()[..1];
      }
    }
    assert Prefixes(Parent()) == {Parent()};
  }

  // --- the whole document ---

  /** The table is still there exactly when a header below it still makes it one. */
  lemma TableStays(a: St, b: St, name: string)
    requires Less(a, b, name) && WellBuilt(a) && WellBuilt(b) && Opened(a) && Opened(b)
    ensures EntryPath(name) in b.doc.tables <==> !NoSubtables(a.doc, name)
  {
    hide EntryPath, WellBuilt, Opened;
    var e := EntryPath(name);
    if e in b.doc.tables {
      var q := HeaderBelow(b, e);
      assert q != [] by { EntryNotEmpty(name); }
      HeaderStands(a, q);
      PrefixCases(e, q);
    }
    if p :| p in a.doc.tables && e < p {
      var q := HeaderBelow(a, p);
      EntryNotEmpty(name);
      HeaderStands(b, q);
      PrefixStands(b, q, e);
    }
  }

  lemma PrefixCases(e: Path, q: Path)
    ensures e <= q ==> e == q || e < q
  {
  }

  lemma EntryNotEmpty(name: string)
    ensures EntryPath(name) != []
  {
  }

  lemma HeaderBelow(st: St, p: Path) returns (q: Path)
    requires Opened(st) && p in st.doc.tables
    ensures q in st.defined && p <= q
  {
    q :| q in st.defined && p <= q;
  }

  lemma HeaderStands(st: St, q: Path)
    requires WellBuilt(st) && q in st.defined && q != []
    ensures q in st.doc.tables
  {
  }

  lemma PrefixStands(st: St, q: Path, e: Path)
    requires WellBuilt(st) && q in st.doc.tables && e != [] && e < q
    ensures e in st.doc.tables
  {
    assert q[..|e|] == e;
  }

  lemma ParentStands(st: St, name: string)
    requires WellBuilt(st)
    ensures EntryPath(name) in st.doc.tables ==> Parent() in st.doc.tables
    ensures Parent() in st.doc.tables ==> Parent() !in st.doc.leaves
    ensures Parent() != EntryPath(name)
  {
    assert EntryPath(name)[..1] == Parent();
    assert EntryPath(name) in st.doc.tables ==> EntryPath(name) in Nodes(st.doc);
  }

  /** Without the table and, where that loses the parent, with the parent put back: the old document without it. */
  lemma LessDoc(a: St, b: St, name: string)
    requires Less(a, b, name) && WellBuilt(a) && WellBuilt(b) && Opened(a) && Opened(b)
    ensures Parent() in Nodes(b.doc) ==> b.doc == Removed(a.doc, name)
    ensures Parent() !in Nodes(b.doc) ==> Doc(b.doc.leaves, b.doc.tables + {Parent()}) == Removed(a.doc, name)
  {
    hide EntryPath, Parent, DropOwn, NoSubtables, Opened, WellBuilt;
    ParentStands(a, name);
    ParentStands(b, name);
    TableStays(a, b, name);
    DropFewer(a.doc.leaves, EntryPath(name));
  }

  /** The runs with the table cut out, plain and with the parent's header in its place. */
  lemma EnableRuns(all: seq<Option<Line>>, span: (nat, nat), name: string)
    requires span.0 < span.1 <= |all| && Run(START, all).Some? && all[span.0] == Some(Head(EntryPath(name)))
    requires NoHeads(all[span.0 + 1..span.1]) && HeadFirst(all[span.1..])
    ensures var d := Run(START, all).value.doc;
      var plain := Run(START, all[..span.0] + all[span.1..]);
      var put := Run(START, all[..span.0] + [Some(Head(Parent()))] + all[span.1..]);
      && plain.Some?
      && (Parent() in Nodes(plain.value.doc) ==> plain.value.doc == Removed(d, name))
      && (Parent() !in Nodes(plain.value.doc) ==> put.Some? && put.value.doc == Removed(d, name))
  {
    hide Run, StepLine, Less, WellBuilt, Opened, Assigned, EntryPath, Nodes, Parent, Removed, NoHeads, HeadFirst;
    var first, rest := all[..span.0], all[span.1..];
    CutRuns(all, span, name);
    var st := Run(START, first).value;
    var plain := Run(st, rest).value;
    RunAppend(START, first, rest);
    Kinds(all);
    Kinds(first + rest);
    LessDoc(Run(START, all).value, plain, name);
    if Parent() !in Nodes(plain.doc) {
      Kinds(first);
      PutRun(st, rest);
      RunAppend(START, first, [Some(Head(Parent()))] + rest);
      assert first + ([Some(Head(Parent()))] + rest) == first + [Some(Head(Parent()))] + rest;
    }
  }

  /** What every run from the start keeps. */
  lemma Kinds(lines: seq<Option<Line>>)
    requires Run(START, lines).Some?
    ensures var st := Run(START, lines).value; WellBuilt(st) && Opened(st) && Assigned(st)
  {
    A.StartWellBuilt();
    StartOpened();
    hide Run, WellBuilt, Opened, Assigned;
    RunWellBuilt(START, lines);
    RunOpened(START, lines);
    RunAssigned(START, lines);
  }

  /** The run with the table cut out, beside the run with it. */
  lemma CutRuns(all: seq<Option<Line>>, span: (nat, nat), name: string)
    requires span.0 < span.1 <= |all| && Run(START, all).Some? && all[span.0] == Some(Head(EntryPath(name)))
    requires NoHeads(all[span.0 + 1..span.1]) && HeadFirst(all[span.1..])
    ensures var st := Run(START, all[..span.0]);
      && st.Some? && Run(st.value, all[span.1..]).Some?
      && Less(Run(START, all).value, Run(st.value, all[span.1..]).value, name)
  {
    hide Run, StepLine, Less, WellBuilt, Opened, Assigned, EntryPath, NoHeads, HeadFirst;
    var first, own, rest := all[..span.0], all[span.0 + 1..span.1], all[span.1..];
    var head := Some(Head(EntryPath(name)));
    assert all == first + ([head] + (own + rest));
    RunAppend(START, first, [head] + (own + rest));
    var st := Run(START, first).value;
    RunAppend(st, [head], own + rest);
    RunOne(st, head.value);
    var opening := StepLine(st, head.value).value;
    RunAppend(opening, own, rest);
    Kinds(first);
    HeadLess(st, name);
    HeadSets(st, EntryPath(name));
    OwnRunLess(opening, st, name, own);
    AfterLess(Run(opening, own).value, st, name, rest);
  }

  /** The parent's header put where the table stood. */
  lemma PutRun(st: St, rest: seq<Option<Line>>)
    requires WellBuilt(st) && Run(st, rest).Some? && HeadFirst(rest) && Parent() !in Nodes(Run(st, rest).value.doc)
    ensures var put := Run(st, [Some(Head(Parent()))] + rest);
      put.Some? && put.value.doc == Doc(Run(st, rest).value.doc.leaves, Run(st, rest).value.doc.tables + {Parent()})
  {
    hide Run, StepLine, WellBuilt, Nodes, Parent, HeadFirst;
    RunGrows(st, rest);
    ParentOpens(st);
    var put := StepLine(st, Head(Parent())).value;
    ParentRun(st, put, rest);
    RunOne(st, Head(Parent()));
    RunAppend(st, [Some(Head(Parent()))], rest);
    ParentAdded(Run(st, rest).value, Run(put, rest).value);
  }

  lemma ParentAdded(a: St, b: St)
    requires WithParent(a, b)
    ensures b.doc == Doc(a.doc.leaves, a.doc.tables + {Parent()})
  {
  }

  lemma StartOpened()
    ensures Opened(START) && Assigned(START)
  {
  }

  // --- the text ---

  /** What some clean lines joined parse to. */
  lemma ParseKept(lines: seq<string>)
    requires forall i :: 0 <= i < |lines| ==> '\n' !in lines[i]
    ensures EndsBare(lines) ==> Parse(JoinWith(lines, '\n')).None?
    ensures !EndsBare(lines) ==>
      Parse(JoinWith(lines, '\n')) == match Run(START, InnerAll(lines)) case None => None case Some(st) => Some(st.doc)
  {
    hide LexLine;
    if lines == [] {
      assert Lexed([""]) == [Some(Blank)] by { A.BlankLine(); }
      RunOne(START, Blank);
      assert SplitOn<char>("", '\n') == [""];
    } else {
      hide Run, Parse;
      ParseJoined(lines);
    }
  }

  /** The lines left, before and after the last line feed is put back. */
  function Left(lines: seq<string>, span: (nat, nat)): (left: seq<string>)
    requires span.0 < span.1 <= |lines|
    ensures |left| == span.0 + |lines| - span.1
  {
    lines[..span.0] + lines[span.1..]
  }

  function Closing(lines: seq<string>): seq<string> {
    if lines != [] && lines[|lines| - 1] != "" then lines + [""] else lines
  }

  lemma KeptIs(text: string, span: (nat, nat))
    requires span.0 < span.1 <= |SplitOn(text, '\n')|
    ensures var left := Left(SplitOn(text, '\n'), span);
      Kept(text, span) == if EndsWith(text, "\n") then Closing(left) else left
  {
    hide SplitOn, EndsWith;
  }

  lemma ClosingRuns(lines: seq<string>)
    ensures Run(START, InnerAll(Closing(lines))) == Run(START, InnerAll(lines)) && !EndsBare(Closing(lines))
    ensures (forall i :: 0 <= i < |lines| ==> '\n' !in lines[i]) ==> forall i :: 0 <= i < |Closing(lines)| ==>
      '\n' !in Closing(lines)[i]
  {
    A.BlankLast(START, lines);
  }

  predicate ParentLost(text: string, span: (nat, nat))
    requires span.0 < span.1 <= |SplitOn(text, '\n')|
  {
    Parse(JoinWith(Kept(text, span), '\n')).Some? && Parent() !in Nodes(Parse(JoinWith(Kept(text, span), '\n')).value)
  }

  /**
   A text without a final line feed whose last table is removed, leaving a bare carriage return: the line above's own,
   or the one the parent's header is written with.
   */
  predicate TornOn(text: string, span: (nat, nat))
    requires span.0 < span.1 <= |SplitOn(text, '\n')|
  {
    var lines := SplitOn(text, '\n');
    && !EndsWith(text, "\n") && span.1 == |lines|
    && ((span.0 > 0 && EndsWith(lines[span.0 - 1], "\r")) || (ParentLost(text, span) && Contains(text, "\r\n")))
  }

  // --- the parent's header in the text ---

  function Header(suffix: string): string {
    "[switches]" + suffix
  }

  function Insert(lines: seq<string>, at: nat, line: string): seq<string>
    requires at <= |lines|
  {
    lines[..at] + [line] + lines[at..]
  }

  /** The lines with the header put in, the last line feed put back after it where it comes last. */
  function PutBack(kept: seq<string>, at: nat, header: string, closed: bool): seq<string>
    requires at <= |kept|
  {
    var put := Insert(kept, at, header);
    if put[|put| - 1] == header && closed then put + [""] else put
  }

  lemma HeaderReads(suffix: string)
    requires suffix in {"", "\r"}
    ensures Inner(Header(suffix)) == Some(Head(Parent())) && '\n' !in Header(suffix)
    ensures EndsWith(Header(suffix), "\r") <==> suffix == "\r"
  {
    hide LexLine, Inner;
    A.SwitchesLine();
    Suffixed("[switches]", suffix);
  }

  lemma InnerSplit(lines: seq<string>, at: nat)
    requires at <= |lines|
    ensures InnerAll(lines[..at]) == InnerAll(lines)[..at] && InnerAll(lines[at..]) == InnerAll(lines)[at..]
  {
    hide InnerAll, Inner;
    assert lines == lines[..at] + lines[at..];
    InnerAppend(lines[..at], lines[at..]);
  }

  lemma InsertInner(lines: seq<string>, at: nat, line: string)
    requires at <= |lines|
    ensures InnerAll(Insert(lines, at, line)) == InnerAll(lines)[..at] + [Inner(line)] + InnerAll(lines)[at..]
  {
    assert InnerAll([line]) == [Inner(line)];
    hide Inner, InnerAll;
    InnerAppend(lines[..at], [line]);
    InnerAppend(lines[..at] + [line], lines[at..]);
    InnerSplit(lines, at);
  }

  /** The run of the lines with the header put in. */
  lemma PutRuns(left: seq<string>, at: nat, suffix: string, closed: bool)
    requires at <= |left| && suffix in {"", "\r"}
    ensures var kept := if closed then Closing(left) else left;
      && at <= |kept|
      && Run(START, InnerAll(PutBack(kept, at, Header(suffix), closed)))
         == Run(START, InnerAll(left)[..at] + [Some(Head(Parent()))] + InnerAll(left)[at..])
  {
    hide Run, Inner, InnerAll, Header;
    var h := Header(suffix);
    var kept := if closed then Closing(left) else left;
    HeaderReads(suffix);
    InsertInner(left, at, h);
    if kept == left {
    } else {
      assert Insert(left + [""], at, h) == Insert(left, at, h) + [""];
      A.BlankLast(START, Insert(left, at, h));
    }
    var put := Insert(kept, at, h);
    A.BlankLast(START, put);
  }

  lemma BlankEnd(lines: seq<string>)
    ensures !EndsBare(lines + [""])
  {
  }

  lemma InsertClean(kept: seq<string>, at: nat, h: string)
    requires at <= |kept| && '\n' !in h && forall i :: 0 <= i < |kept| ==> '\n' !in kept[i]
    ensures var put := Insert(kept, at, h);
      && |put| == |kept| + 1 && (forall i :: 0 <= i < |put| ==> '\n' !in put[i])
      && put[|put| - 1] == if at == |kept| then h else kept[|kept| - 1]
  {
  }

  /** How the lines with the header put in end. */
  lemma PutEnding(kept: seq<string>, at: nat, suffix: string, closed: bool)
    requires at <= |kept| && suffix in {"", "\r"} && !EndsBare(kept) && forall i :: 0 <= i < |kept| ==> '\n' !in kept[i]
    ensures var out := PutBack(kept, at, Header(suffix), closed);
      && out != [] && (forall i :: 0 <= i < |out| ==> '\n' !in out[i])
      && (EndsBare(out) <==> at == |kept| && !closed && suffix == "\r")
  {
    HeaderReads(suffix);
    hide Header, Inner, EndsWith, Insert;
    var put := Insert(kept, at, Header(suffix));
    InsertClean(kept, at, Header(suffix));
    BlankEnd(put);
  }

  lemma EnableIs(text: string, span: (nat, nat))
    requires span.0 < span.1 <= |SplitOn(text, '\n')| && span.0 <= |Kept(text, span)|
    ensures var kept := Kept(text, span);
      EnableText(text, span)
      == if ParentLost(text, span)
         then JoinWith(PutBack(kept, span.0, Header(if Contains(text, "\r\n") then "\r" else ""), EndsWith(text, "\n")),
           '\n')
         else JoinWith(kept, '\n')
  {
    hide Parse, JoinWith, Contains, EndsWith, Kept, SplitOn, Nodes;
  }

  // --- the main result ---

  /** The table found, in the terms of the runs. */
  lemma EnableFound(lines: seq<string>, name: string, span: (nat, nat))
    requires Runs(lines) && EntrySpan(lines, name) == Some(span)
    ensures span.0 < span.1 <= |lines| && InnerAll(lines)[span.0] == Some(Head(EntryPath(name)))
    ensures NoHeads(InnerAll(lines)[span.0 + 1..span.1]) && HeadFirst(InnerAll(lines)[span.1..])
  {
    hide Run, EntrySpan, Inner, NoHeads, Runs, TableHeader, RStripCr;
    SpanHead(lines, name);
    TableLines(lines, span.0 + 1);
    InnerSlice(lines, span.0 + 1, span.1);
    if span.1 < |lines| {
      Accepted(lines, span.1);
    }
  }

  lemma LeftInner(lines: seq<string>, span: (nat, nat))
    requires span.0 < span.1 <= |lines|
    ensures InnerAll(Left(lines, span)) == InnerAll(lines)[..span.0] + InnerAll(lines)[span.1..]
  {
    hide InnerAll;
    InnerAppend(lines[..span.0], lines[span.1..]);
    InnerSplit(lines, span.0);
    InnerSplit(lines, span.1);
  }

  lemma LeftEnds(lines: seq<string>, span: (nat, nat))
    requires span.0 < span.1 <= |lines| && !EndsBare(lines) && forall i :: 0 <= i < |lines| ==> '\n' !in lines[i]
    ensures forall i :: 0 <= i < |Left(lines, span)| ==> '\n' !in Left(lines, span)[i]
    ensures EndsBare(Left(lines, span)) <==> span.1 == |lines| && span.0 > 0 && EndsWith(lines[span.0 - 1], "\r")
  {
    hide EndsWith;
  }

  /** What the lines left run to, and with the parent's header put in. */
  lemma EnableLines(lines: seq<string>, name: string, span: (nat, nat))
    requires Runs(lines) && EntrySpan(lines, name) == Some(span) && Run(START, InnerAll(lines)).Some?
    ensures span.0 < span.1 <= |lines|
    ensures var d := Run(START, InnerAll(lines)).value.doc;
      var left := Left(lines, span);
      var plain := Run(START, InnerAll(left));
      var put := Run(START, InnerAll(left)[..span.0] + [Some(Head(Parent()))] + InnerAll(left)[span.0..]);
      && plain.Some?
      && (Parent() in Nodes(plain.value.doc) ==> plain.value.doc == Removed(d, name))
      && (Parent() !in Nodes(plain.value.doc) ==> put.Some? && put.value.doc == Removed(d, name))
  {
    hide Run, EntrySpan, InnerAll, NoHeads, HeadFirst, Runs, Nodes, Removed, Left, EntryPath, Parent;
    EnableFound(lines, name, span);
    EnableRuns(InnerAll(lines), span, name);
    LeftInner(lines, span);
    LeftSplits(InnerAll(lines), span);
  }

  lemma LeftSplits(all: seq<Option<Line>>, span: (nat, nat))
    requires span.0 < span.1 <= |all|
    ensures var left := all[..span.0] + all[span.1..];
      left[..span.0] == all[..span.0] && left[span.0..] == all[span.1..]
  {
  }

  /** The lines kept: what they run to and how they end. */
  lemma KeptLines(was: string, span: (nat, nat))
    requires span.0 < span.1 <= |SplitOn(was, '\n')| && !EndsBare(SplitOn(was, '\n'))
    ensures var lines := SplitOn(was, '\n');
      var kept := Kept(was, span);
      && span.0 <= |kept| && (forall i :: 0 <= i < |kept| ==> '\n' !in kept[i])
      && Run(START, InnerAll(kept)) == Run(START, InnerAll(Left(lines, span)))
      && (EndsBare(kept) <==>
        !EndsWith(was, "\n") && span.1 == |lines| && span.0 > 0 && EndsWith(lines[span.0 - 1], "\r"))
      && (!EndsWith(was, "\n") ==> (span.0 == |kept| <==> span.1 == |lines|))
  {
    var lines := SplitOn(was, '\n');
    hide Run, InnerAll, EndsWith, EndsBare, SplitOn;
    KeptIs(was, span);
    LeftEnds(lines, span);
    ClosingRuns(Left(lines, span));
  }

  lemma PlainKept(was: string, span: (nat, nat))
    requires span.0 < span.1 <= |SplitOn(was, '\n')| && !EndsBare(Kept(was, span))
    requires (forall i :: 0 <= i < |Kept(was, span)| ==> '\n' !in Kept(was, span)[i])
      && Run(START, InnerAll(Kept(was, span))).Some?
    ensures var d := Run(START, InnerAll(Kept(was, span))).value.doc;
      && Parse(JoinWith(Kept(was, span), '\n')) == Some(d)
      && (ParentLost(was, span) <==> Parent() !in Nodes(d))
  {
    hide Run, InnerAll, Parse, JoinWith, Kept, SplitOn, Nodes, EndsBare;
    ParseKept(Kept(was, span));
  }

  /** Where the plain removal loses the parent, the text with its header put back. */
  lemma PutText(was: string, span: (nat, nat), d: Doc)
    requires span.0 < span.1 <= |SplitOn(was, '\n')| && span.0 <= |Kept(was, span)| && !EndsBare(Kept(was, span))
    requires forall i :: 0 <= i < |Kept(was, span)| ==> '\n' !in Kept(was, span)[i]
    requires var left := Left(SplitOn(was, '\n'), span);
      var put := Run(START, InnerAll(left)[..span.0] + [Some(Head(Parent()))] + InnerAll(left)[span.0..]);
      put.Some? && put.value.doc == d
    ensures var crlf := Contains(was, "\r\n");
      Parse(JoinWith(PutBack(Kept(was, span), span.0, Header(if crlf then "\r" else ""), EndsWith(was, "\n")), '\n'))
      == if span.0 == |Kept(was, span)| && !EndsWith(was, "\n") && crlf then None else Some(d)
  {
    hide Run, InnerAll, Parse, JoinWith, SplitOn, EndsBare, EndsWith, Contains, PutBack, Header, Closing, Parent, Kept,
      Left;
    var suffix := if Contains(was, "\r\n") then "\r" else "";
    var closed := EndsWith(was, "\n");
    KeptIs(was, span);
    PutRuns(Left(SplitOn(was, '\n'), span), span.0, suffix, closed);
    PutEnding(Kept(was, span), span.0, suffix, closed);
    ParseKept(PutBack(Kept(was, span), span.0, Header(suffix), closed));
  }

  /** The text read: the old document without the table's own keys, and without the table where nothing stands below. */
  lemma EnableReads(was: string, name: string, span: (nat, nat))
    requires Parse(was).Some? && EntrySpan(SplitOn(was, '\n'), name) == Some(span)
    ensures Parse(EnableText(was, span)) == if TornOn(was, span) then None else Some(Removed(Parse(was).value, name))
  {
    hide Run, EntrySpan, InnerAll, Parse, JoinWith, EndsBare, EndsWith, Contains, PutBack, Header, Parent, Nodes,
      Removed,
      Left, Kept, EnableText, ParentLost, SplitOn;
    var lines := SplitOn(was, '\n');
    ParsedRuns(was);
    EnableLines(lines, name, span);
    KeptLines(was, span);
    EnableIs(was, span);
    if EndsBare(Kept(was, span)) {
      BareKept(was, span);
    } else {
      PlainKept(was, span);
      if ParentLost(was, span) {
        PutText(was, span, Removed(Parse(was).value, name));
      }
    }
  }

  lemma EntryStands(was: string, name: string, span: (nat, nat)) returns (st: St)
    requires Parse(was).Some? && EntrySpan(SplitOn(was, '\n'), name) == Some(span)
    ensures WellBuilt(st) && st.doc == Parse(was).value && EntryPath(name) in st.doc.tables
  {
    hide Run, EntrySpan, InnerAll, Parse, EntryPath, Less, Assigned, Opened, WellBuilt, SplitOn, NoHeads, HeadFirst;
    var lines := SplitOn(was, '\n');
    ParsedRuns(was);
    EnableFound(lines, name, span);
    Kinds(InnerAll(lines));
    CutRuns(InnerAll(lines), span, name);
    st := Run(START, InnerAll(lines)).value;
    LessHas(st, Run(Run(START, InnerAll(lines)[..span.0]).value, InnerAll(lines)[span.1..]).value, name);
  }

  lemma LessHas(a: St, b: St, name: string)
    requires Less(a, b, name)
    ensures EntryPath(name) in a.doc.tables
  {
  }

  /**
   Main result: enabling parses to the old document without the entry and everything under it, the parent table kept,
   exactly when the text is not torn and the entry has no table of its own below. Torn text does not parse; a table
   below keeps the entry there, without its own keys.
   */
  lemma EnableCommutes(was: string, name: string, span: (nat, nat))
    requires Parse(was).Some? && EntrySpan(SplitOn(was, '\n'), name) == Some(span)
    ensures var d, now := Parse(was).value, Parse(EnableText(was, span));
      && (now == Some(Without(d, name)) <==> !TornOn(was, span) && NoSubtables(d, name))
      && now == if TornOn(was, span) then None else Some(Removed(d, name))
  {
    hide EntrySpan, Parse, Removed, Without, TornOn, EnableText, SplitOn, NoSubtables, WellBuilt, EntryPath;
    EnableReads(was, name, span);
    var st := EntryStands(was, name, span);
    RemovedIsWithout(st, name);
  }

  lemma BareKept(was: string, span: (nat, nat))
    requires span.0 < span.1 <= |SplitOn(was, '\n')| && EndsBare(Kept(was, span))
    requires forall i :: 0 <= i < |Kept(was, span)| ==> '\n' !in Kept(was, span)[i]
    ensures Parse(JoinWith(Kept(was, span), '\n')).None? && !ParentLost(was, span)
  {
    hide Parse, JoinWith, Kept, SplitOn, EndsBare;
    ParseKept(Kept(was, span));
  }
}
