/**
 Whole documents of the line-oriented subset. A document is its leaves by path and its tables by path; the nested
 view the readers work on is read off it.
 */
module TomlDoc {
  import opened Text
  import opened TomlValues
  import opened TomlLex

  type Path = seq<string>

  datatype Doc = Doc(leaves: map<Path, Value>, tables: set<Path>)

  /** The reader's state: the document so far, the table being filled, the headers already opened. */
  datatype St = St(doc: Doc, cur: Path, defined: set<Path>)

  const START := St(Doc(map[], {}), [], {})

  function Nodes(d: Doc): set<Path> {
    d.leaves.Keys + d.tables
  }

  function Prefixes(p: Path): set<Path> {
    set i | 0 < i <= |p| :: p[..i]
  }

  /** One line. A header opens once and through tables only; a key is assigned once. */
  function StepLine(st: St, l: Line): Option<St> {
    match l
    case Blank => Some(st)
    case Head(path) =>
      if path in st.defined || !(Prefixes(path) !! st.doc.leaves.Keys) then None
      else Some(St(Doc(st.doc.leaves, st.doc.tables + Prefixes(path)), path, st.defined + {path}))
    case Assign(key, value) =>
      var p := st.cur + [key];
      if p in Nodes(st.doc) then None
      else Some(St(Doc(st.doc.leaves[p := value], st.doc.tables), st.cur, st.defined))
  }

  /** The lines in order; a line outside the grammar refuses the document. */
  function Run(st: St, lines: seq<Option<Line>>): Option<St>
    decreases |lines|
  {
    if lines == [] then Some(st)
    else if lines[0].None? then None
    else match StepLine(st, lines[0].value)
      case None => None
      case Some(next) => Run(next, lines[1..])
  }

  /** A line's own text: one carriage return before its line feed is part of the line ending. */
  function StripCr(line: string): string {
    if EndsWith(line, "\r") then line[..|line| - 1] else line
  }

  /** The lines lexed; the last has no line feed, so nothing is stripped of it. */
  function Lexed(lines: seq<string>): (out: seq<Option<Line>>)
    ensures |out| == |lines|
    ensures forall i :: 0 <= i < |lines| ==> out[i] == LexLine(if i + 1 < |lines| then StripCr(lines[i]) else lines[i])
  {
    if |lines| == 0 then []
    else if |lines| == 1 then [LexLine(lines[0])]
    else [LexLine(StripCr(lines[0]))] + Lexed(lines[1..])
  }

  function ParseLines(lines: seq<string>): Option<Doc> {
    match Run(START, Lexed(lines))
    case None => None
    case Some(st) => Some(st.doc)
  }

  /** The document a text spells. */
  function Parse(text: string): Option<Doc> {
    ParseLines(SplitOn(text, '\n'))
  }

  // --- runs ---

  lemma {:induction false} RunAppend(st: St, a: seq<Option<Line>>, b: seq<Option<Line>>)
    ensures Run(st, a + b) == match Run(st, a) case None => None case Some(mid) => Run(mid, b)
    decreases |a|
  {
    hide StepLine;
    if a == [] {
      assert a + b == b;
    } else {
      assert (a + b)[1..] == a[1..] + b;
      if a[0].Some? && StepLine(st, a[0].value).Some? {
        RunAppend(StepLine(st, a[0].value).value, a[1..], b);
      }
    }
  }

  lemma RunOne(st: St, l: Line)
    ensures Run(st, [Some(l)]) == StepLine(st, l)
  {
    hide StepLine;
    var r := StepLine(st, l);
    if r.Some? {
      assert Run(r.value, [Some(l)][1..]) == r;
    }
  }

  lemma RunTwo(st: St, l: Line, m: Line)
    requires StepLine(st, l).Some?
    ensures Run(st, [Some(l), Some(m)]) == StepLine(StepLine(st, l).value, m)
  {
    hide StepLine;
    RunOne(StepLine(st, l).value, m);
    assert [Some(l), Some(m)][1..] == [Some(m)];
  }

  /** A node once there stays, with its value. */
  predicate Grows(a: Doc, b: Doc) {
    a.leaves.Items <= b.leaves.Items && a.tables <= b.tables
  }

  lemma StepGrows(st: St, l: Line)
    requires StepLine(st, l).Some?
    ensures Grows(st.doc, StepLine(st, l).value.doc)
    ensures Nodes(st.doc) <= Nodes(StepLine(st, l).value.doc)
  {
    var next := StepLine(st, l).value;
    assert forall x :: x in st.doc.leaves.Items ==> x.0 in next.doc.leaves && next.doc.leaves[x.0] == x.1;
  }

  lemma {:induction false} RunGrows(st: St, lines: seq<Option<Line>>)
    requires Run(st, lines).Some?
    ensures Grows(st.doc, Run(st, lines).value.doc)
    ensures Nodes(st.doc) <= Nodes(Run(st, lines).value.doc)
    decreases |lines|
  {
    hide StepLine, Nodes;
    if lines != [] {
      StepGrows(st, lines[0].value);
      RunGrows(StepLine(st, lines[0].value).value, lines[1..]);
    }
  }

  // --- two runs that differ in some leaves ---

  function Overlay(d: Doc, over: map<Path, Value>): Doc {
    Doc(d.leaves + over, d.tables)
  }

  /** The second state is the first with the leaves of `over` on top. */
  predicate Over(a: St, b: St, over: map<Path, Value>) {
    b == St(Overlay(a.doc, over), a.cur, a.defined)
  }

  /** Leaves the first run already has, and one the first run never makes a node. */
  lemma OverStep(a: St, b: St, over: map<Path, Value>, extra: Path, l: Line)
    requires Over(a, b, over) && over.Keys <= a.doc.leaves.Keys + {extra}
    requires StepLine(a, l).Some? && extra !in Nodes(StepLine(a, l).value.doc)
    ensures StepLine(b, l).Some? && Over(StepLine(a, l).value, StepLine(b, l).value, over)
  {
    match l
    case Blank =>
    case Head(path) =>
      hide Prefixes;
      assert Prefixes(path) !! b.doc.leaves.Keys;
    case Assign(key, value) =>
      var p := a.cur + [key];
      assert p !in over;
      assert (a.doc.leaves + over)[p := value] == a.doc.leaves[p := value] + over;
  }

  lemma {:induction false} OverRun(a: St, b: St, over: map<Path, Value>, extra: Path, lines: seq<Option<Line>>)
    requires Over(a, b, over) && over.Keys <= a.doc.leaves.Keys + {extra}
    requires Run(a, lines).Some? && extra !in Nodes(Run(a, lines).value.doc)
    ensures Run(b, lines).Some? && Over(Run(a, lines).value, Run(b, lines).value, over)
    decreases |lines|
  {
    hide StepLine, Nodes, Over, Overlay;
    if lines != [] {
      var a' := StepLine(a, lines[0].value).value;
      RunGrows(a', lines[1..]);
      OverStep(a, b, over, extra, lines[0].value);
      StepGrows(a, lines[0].value);
      LeavesGrow(a.doc, a'.doc);
      OverRun(a', StepLine(b, lines[0].value).value, over, extra, lines[1..]);
    }
  }

  lemma LeavesGrow(a: Doc, b: Doc)
    requires Grows(a, b)
    ensures a.leaves.Keys <= b.leaves.Keys
  {
    forall k | k in a.leaves
      ensures k in b.leaves
    {
      assert (k, a.leaves[k]) in a.leaves.Items;
    }
  }

  /** Lines that open no header. */
  predicate NoHeads(lines: seq<Option<Line>>) {
    forall i :: 0 <= i < |lines| ==> lines[i].Some? && !lines[i].value.Head?
  }

  // --- the nested view ---

  /** Every proper prefix of a node is a table, no leaf is one, and the document's headers are tables. */
  predicate WellBuilt(st: St) {
    && st.doc.leaves.Keys !! st.doc.tables
    && (forall p, i :: p in Nodes(st.doc) && 0 < i < |p| ==> p[..i] in st.doc.tables)
    && [] !in Nodes(st.doc)
    && (st.cur != [] ==> st.cur in st.doc.tables)
    && (forall p :: p in st.defined && p != [] ==> p in st.doc.tables)
  }

  lemma StepWellBuilt(st: St, l: Line)
    requires WellBuilt(st) && StepLine(st, l).Some?
    ensures WellBuilt(StepLine(st, l).value)
  {
    var next := StepLine(st, l).value;
    match l
    case Blank =>
    case Head(path) =>
      forall p, i | p in Nodes(next.doc) && 0 < i < |p|
        ensures p[..i] in next.doc.tables
      {
        if p in Prefixes(path) {
          var n :| 0 < n <= |path| && p == path[..n];
          assert p[..i] == path[..i];
        }
      }
      if path != [] {
        assert path[..|path|] == path;
      }
    case Assign(key, value) =>
      var q := st.cur + [key];
      forall i | 0 < i < |q|
        ensures q[..i] in next.doc.tables
      {
        assert q[..i] == st.cur[..i];
        if i == |st.cur| {
          assert q[..i] == st.cur;
        }
      }
  }

  lemma {:induction false} RunWellBuilt(st: St, lines: seq<Option<Line>>)
    requires WellBuilt(st) && Run(st, lines).Some?
    ensures WellBuilt(Run(st, lines).value)
    decreases |lines|
  {
    hide StepLine, WellBuilt;
    if lines != [] {
      StepWellBuilt(st, lines[0].value);
      RunWellBuilt(StepLine(st, lines[0].value).value, lines[1..]);
    }
  }

  /** The nodes strictly below a path. */
  function Below(d: Doc, path: Path): set<Path> {
    set p | p in Nodes(d) && path < p
  }

  function Children(d: Doc, path: Path): set<string> {
    set p | p in Nodes(d) && path < p && |p| == |path| + 1 :: p[|path|]
  }

  lemma ChildIs(d: Doc, path: Path, k: string)
    ensures k in Children(d, path) <==> path + [k] in Nodes(d)
  {
    if k in Children(d, path) {
      var p :| p in Nodes(d) && path < p && |p| == |path| + 1 && p[|path|] == k;
      assert p == path + [k];
    }
    if path + [k] in Nodes(d) {
      assert path < path + [k];
    }
  }

  /** The value at a path: a leaf's own, and otherwise the table of what is below. */
  ghost function ValueAt(d: Doc, path: Path): Value
    decreases Below(d, path)
  {
    if path in d.leaves then d.leaves[path]
    else
      Table(map k | k in Children(d, path) ::
        (ChildIs(d, path, k);
         BelowShrinks(d, path, k);
         ValueAt(d, path + [k])))
  }

  lemma BelowShrinks(d: Doc, path: Path, k: string)
    requires path + [k] in Nodes(d)
    ensures Below(d, path + [k]) < Below(d, path)
  {
    assert path < path + [k];
    assert path + [k] in Below(d, path);
    assert path + [k] !in Below(d, path + [k]);
  }

  /** The parsed document as the readers see it. */
  ghost function Root(d: Doc): Value {
    ValueAt(d, [])
  }

  /** A value depends on nothing outside its path. */
  lemma {:induction false} ValueLocal(a: Doc, b: Doc, path: Path)
    requires forall p :: path <= p ==> (p in a.tables <==> p in b.tables)
    requires forall p :: path <= p ==>
      (p in a.leaves <==> p in b.leaves) && (p in a.leaves ==> a.leaves[p] == b.leaves[p])
    ensures ValueAt(a, path) == ValueAt(b, path)
    decreases Below(a, path)
  {
    if path !in a.leaves {
      hide Nodes, Below, Children;
      ChildrenLocal(a, b, path);
      forall k | k in Children(a, path)
        ensures ValueAt(a, path + [k]) == ValueAt(b, path + [k])
      {
        ChildIs(a, path, k);
        BelowShrinks(a, path, k);
        ValueLocal(a, b, path + [k]);
      }
    }
  }

  lemma ChildrenLocal(a: Doc, b: Doc, path: Path)
    requires forall p :: path <= p ==> (p in a.tables <==> p in b.tables)
    requires forall p :: path <= p ==> (p in a.leaves <==> p in b.leaves)
    ensures Children(a, path) == Children(b, path)
  {
    hide Children;
    forall k
      ensures k in Children(a, path) <==> k in Children(b, path)
    {
      ChildIs(a, path, k);
      ChildIs(b, path, k);
      assert path <= path + [k];
    }
  }

  lemma TableAt(d: Doc, path: Path)
    requires path !in d.leaves
    ensures ValueAt(d, path).Table?
    ensures forall k :: k in ValueAt(d, path).entries <==> path + [k] in Nodes(d)
    ensures forall k :: k in ValueAt(d, path).entries ==> ValueAt(d, path).entries[k] == ValueAt(d, path + [k])
  {
    forall k
      ensures k in Children(d, path) <==> path + [k] in Nodes(d)
    {
      ChildIs(d, path, k);
    }
  }

  /** One key of a table. */
  lemma EntryAt(d: Doc, path: Path, k: string)
    requires path !in d.leaves
    ensures ValueAt(d, path).Table? && (k in ValueAt(d, path).entries <==> path + [k] in Nodes(d))
    ensures k in ValueAt(d, path).entries ==> ValueAt(d, path).entries[k] == ValueAt(d, path + [k])
  {
    TableAt(d, path);
  }
}
