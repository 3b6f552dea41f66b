/**
 The off rewrite commutes with parsing: where an on entry's table is rewritten in place, the new text parses to the old
 document with that entry's state, task and reason set and nothing else touched.
 */
module OffRewrite {
  import opened Text
  import opened TomlValues
  import opened TomlLex
  import opened TomlDoc
  import opened SwitchText
  import opened TomlLines
  import opened TomlFields

  function EntryPath(name: string): Path {
    ["switches", name]
  }

  function FieldPath(name: string, key: string): Path {
    EntryPath(name) + [key]
  }

  /** What the rewrite sets: the state once its pair is passed, the task and reason once the task's is. */
  function OffLeaves(name: string, task: string, reason: string, stateDone: bool, taskDone: bool): map<Path, Value> {
    (if stateDone then map[FieldPath(name, "state") := Str("off")] else map[])
    + (if taskDone then map[FieldPath(name, "task") := Str(task), FieldPath(name, "reason") := Str(reason)] else map[])
  }

  /** The document with the named entry off. */
  function SwitchedOff(d: Doc, name: string, task: string, reason: string): Doc {
    Overlay(d, OffLeaves(name, task, reason, true, true))
  }

  // --- the lines the rewrite writes ---

  lemma WrittenLines(task: string, reason: string)
    ensures LexLine(StateLine()) == Some(Assign("state", Str("off")))
    ensures LexLine(TaskLine(task)) == Some(Assign("task", Str(task)))
    ensures LexLine(ReasonLine(reason)) == Some(Assign("reason", Str(reason)))
  {
    hide LexLine, Escape;
    PairReads("state", "off");
    PairReads("task", task);
    PairReads("reason", reason);
    PlainOff();
    assert "state = \"off\"" == "state" + " = " + TomlString("off");
    assert "task" + " = " + TomlString(task) == "task = " + TomlString(task);
    assert "reason" + " = " + TomlString(reason) == "reason = " + TomlString(reason);
  }

  lemma PlainOff()
    ensures Escape("off") == "off"
  {
    assert "off"[1..] == "ff" && "ff"[1..] == "f" && "f"[1..] == "";
    assert Escape("f") == "f" && Escape("ff") == "ff";
  }

  // --- one line of the table, old and new ---

  lemma OverAssign(a: St, b: St, over: map<Path, Value>, extra: Path, key: string, was: Value, now: Value)
    requires Over(a, b, over) && over.Keys <= a.doc.leaves.Keys + {extra}
    requires StepLine(a, Assign(key, was)).Some? && extra != a.cur + [key]
    ensures StepLine(b, Assign(key, now)).Some?
    ensures Over(StepLine(a, Assign(key, was)).value, StepLine(b, Assign(key, now)).value, over[a.cur + [key] := now])
  {
    var p := a.cur + [key];
    assert p !in over;
    assert (a.doc.leaves + over)[p := now] == a.doc.leaves[p := was] + over[p := now];
  }

  lemma OverExtra(a: St, b: St, over: map<Path, Value>, key: string, now: Value)
    requires Over(a, b, over) && a.cur + [key] !in Nodes(a.doc) && a.cur + [key] !in over
    ensures StepLine(b, Assign(key, now)).Some?
    ensures Over(a, StepLine(b, Assign(key, now)).value, over[a.cur + [key] := now])
  {
    var p := a.cur + [key];
    assert (a.doc.leaves + over)[p := now] == a.doc.leaves + over[p := now];
  }

  lemma OffKeys(name: string, task: string, reason: string, s: bool, t: bool)
    ensures FieldPath(name, "state") != FieldPath(name, "task")
    ensures FieldPath(name, "task") != FieldPath(name, "reason")
    ensures FieldPath(name, "reason") != FieldPath(name, "state")
    ensures !s ==>
      OffLeaves(name, task, reason, s, t)[FieldPath(name, "state") := Str("off")]
      == OffLeaves(name, task, reason, true, t)
    ensures !t ==>
      OffLeaves(name, task, reason, s, t)
        [FieldPath(name, "task") := Str(task)][FieldPath(name, "reason") := Str(reason)]
      == OffLeaves(name, task, reason, s, true)
    ensures t <==> FieldPath(name, "task") in OffLeaves(name, task, reason, s, t)
    ensures t <==> FieldPath(name, "reason") in OffLeaves(name, task, reason, s, t)
    ensures OffLeaves(name, task, reason, s, t).Keys
      == (if s then {FieldPath(name, "state")} else {})
        + (if t then {FieldPath(name, "task"), FieldPath(name, "reason")} else {})
  {
    assert FieldPath(name, "state")[2] == "state" && FieldPath(name, "task")[2] == "task"
      && FieldPath(name, "reason")[2] == "reason";
    assert |"state"| == 5 && |"task"| == 4 && |"reason"| == 6;
  }

  /** The two runs side by side: the original at `a`, the rewritten one ahead of it by what has been set. */
  ghost predicate Beside(a: St, b: St, name: string, task: string, reason: string, s: bool, t: bool) {
    && a.cur == EntryPath(name)
    && Over(a, b, OffLeaves(name, task, reason, s, t))
    && (s ==> FieldPath(name, "state") in a.doc.leaves)
    && (t ==> FieldPath(name, "task") in a.doc.leaves)
  }

  lemma BesideState(a: St, b: St, name: string, task: string, reason: string, t: bool, was: Value)
    requires Beside(a, b, name, task, reason, false, t) && StepLine(a, Assign("state", was)).Some?
    ensures StepLine(b, Assign("state", Str("off"))).Some?
    ensures Beside(StepLine(a, Assign("state", was)).value, StepLine(b, Assign("state", Str("off"))).value, name, task,
      reason, true, t)
  {
    OffKeys(name, task, reason, false, t);
    hide OffLeaves, Over;
    OverAssign(a, b, OffLeaves(name, task, reason, false, t), FieldPath(name, "reason"), "state", was, Str("off"));
  }

  lemma BesideTask(a: St, b: St, name: string, task: string, reason: string, s: bool, was: Value)
    requires Beside(a, b, name, task, reason, s, false) && StepLine(a, Assign("task", was)).Some?
    requires FieldPath(name, "reason") !in Nodes(a.doc)
    ensures var b' := StepLine(b, Assign("task", Str(task)));
      && b'.Some? && StepLine(b'.value, Assign("reason", Str(reason))).Some?
      && Beside(StepLine(a, Assign("task", was)).value, StepLine(b'.value, Assign("reason", Str(reason))).value, name,
        task, reason, s, true)
  {
    var over := OffLeaves(name, task, reason, s, false);
    OffKeys(name, task, reason, s, false);
    hide OffLeaves, Over;
    OverAssign(a, b, over, FieldPath(name, "reason"), "task", was, Str(task));
    var a' := StepLine(a, Assign("task", was)).value;
    OverExtra(a', StepLine(b, Assign("task", Str(task))).value, over[FieldPath(name, "task") := Str(task)], "reason",
      Str(reason));
  }

  lemma BesideOther(a: St, b: St, name: string, task: string, reason: string, s: bool, t: bool, l: Line)
    requires Beside(a, b, name, task, reason, s, t) && !l.Head? && StepLine(a, l).Some?
    requires FieldPath(name, "reason") !in Nodes(StepLine(a, l).value.doc)
    ensures StepLine(b, l).Some? && Beside(StepLine(a, l).value, StepLine(b, l).value, name, task, reason, s, t)
  {
    OffKeys(name, task, reason, s, t);
    hide OffLeaves, Over;
    OverStep(a, b, OffLeaves(name, task, reason, s, t), FieldPath(name, "reason"), l);
    StepGrows(a, l);
    LeavesGrow(a.doc, StepLine(a, l).value.doc);
  }

  // --- the table ---

  function StateEdit(i: nat, suffix: string): Edit {
    Edit(i, i + 1, WithEnding([StateLine()], suffix))
  }

  function TaskEdit(j: nat, task: string, reason: string, suffix: string): Edit {
    Edit(j, j + 1, WithEnding([TaskLine(task), ReasonLine(reason)], suffix))
  }

  lemma EditLines(i: nat, task: string, reason: string, suffix: string)
    requires suffix in {"", "\r"}
    ensures InnerAll(StateEdit(i, suffix).lines) == [Some(Assign("state", Str("off")))]
    ensures InnerAll(TaskEdit(i, task, reason, suffix).lines)
      == [Some(Assign("task", Str(task))), Some(Assign("reason", Str(reason)))]
  {
    hide LexLine, StateLine, TaskLine, ReasonLine, Inner;
    WrittenLines(task, reason);
    Suffixed(StateLine(), suffix);
    Suffixed(TaskLine(task), suffix);
    Suffixed(ReasonLine(reason), suffix);
  }

  /** The pairs of the table and where the rewrite stands. */
  ghost predicate Editing(lines: seq<string>, hi: nat, i: nat, j: nat) {
    && i != j && i < hi <= |lines| && j < hi
    && (forall k :: 0 <= k < hi ==> Inner(lines[k]).Some?)
    && Inner(lines[i]).value.Assign? && Inner(lines[i]).value.key == "state"
    && Inner(lines[j]).value.Assign? && Inner(lines[j]).value.key == "task"
  }

  /** The lines one line of the table becomes. */
  function NewLines(lines: seq<string>, k: nat, i: nat, j: nat, task: string, reason: string,
                    suffix: string): seq<string>
    requires k < |lines|
  {
    if k == i then StateEdit(i, suffix).lines
    else if k == j then TaskEdit(j, task, reason, suffix).lines
    else [lines[k]]
  }

  lemma EditedStep(lines: seq<string>, k: nat, hi: nat, i: nat, j: nat, task: string, reason: string, suffix: string)
    requires k < hi <= |lines| && i != j
    ensures var edits := [StateEdit(i, suffix), TaskEdit(j, task, reason, suffix)];
      Edited(lines, k, hi, edits) == NewLines(lines, k, i, j, task, reason, suffix) + Edited(lines, k + 1, hi, edits)
  {
    hide WithEnding;
    var edits := [StateEdit(i, suffix), TaskEdit(j, task, reason, suffix)];
    assert edits[1..] == [TaskEdit(j, task, reason, suffix)];
    assert EditAt(edits[1..][1..], k) == None;
    assert EditAt(edits[1..], k) == if k == j then Some(edits[1]) else None;
    assert EditAt(edits, k) == if k == i then Some(edits[0]) else if k == j then Some(edits[1]) else None;
  }

  lemma LineBeside(lines: seq<string>, k: nat, hi: nat, i: nat, j: nat, a: St, b: St, name: string, task: string,
                   reason: string, suffix: string)
    requires k < hi && Editing(lines, hi, i, j) && suffix in {"", "\r"} && !Inner(lines[k]).value.Head?
    requires Beside(a, b, name, task, reason, i < k, j < k)
    requires StepLine(a, Inner(lines[k]).value).Some?
    requires FieldPath(name, "reason") !in Nodes(StepLine(a, Inner(lines[k]).value).value.doc)
    ensures var b' := Run(b, InnerAll(NewLines(lines, k, i, j, task, reason, suffix)));
      b'.Some? && Beside(StepLine(a, Inner(lines[k]).value).value, b'.value, name, task, reason, i < k + 1, j < k + 1)
  {
    EditLines(k, task, reason, suffix);
    hide StateEdit, TaskEdit, Inner, Beside;
    var l := Inner(lines[k]).value;
    StepGrows(a, l);
    if k == i {
      BesideState(a, b, name, task, reason, j < k, l.value);
      RunOne(b, Assign("state", Str("off")));
    } else if k == j {
      BesideTask(a, b, name, task, reason, i < k, l.value);
      RunTwo(b, Assign("task", Str(task)), Assign("reason", Str(reason)));
    } else {
      BesideOther(a, b, name, task, reason, i < k, j < k, l);
      assert InnerAll([lines[k]]) == [Some(l)];
      RunOne(b, l);
    }
  }

  /** Through the rest of the table, the rewritten lines run where the old ones do. */
  lemma {:induction false} TableBeside(lines: seq<string>, k: nat, hi: nat, i: nat, j: nat, a: St, b: St,
                                       name: string, task: string, reason: string, suffix: string)
    requires k <= hi && Editing(lines, hi, i, j) && suffix in {"", "\r"} && NoHeads(InnerAll(lines[k..hi]))
    requires Beside(a, b, name, task, reason, i < k, j < k)
    requires Run(a, InnerAll(lines[k..hi])).Some?
    requires FieldPath(name, "reason") !in Nodes(Run(a, InnerAll(lines[k..hi])).value.doc)
    ensures var b' := Run(b, InnerAll(Edited(lines, k, hi, [StateEdit(i, suffix), TaskEdit(j, task, reason, suffix)])));
      b'.Some? && Beside(Run(a, InnerAll(lines[k..hi])).value, b'.value, name, task, reason, i < hi, j < hi)
    decreases hi - k
  {
    hide Inner, Beside, StateEdit, TaskEdit, StepLine, NewLines, FieldPath, Run, Edited;
    var edits := [StateEdit(i, suffix), TaskEdit(j, task, reason, suffix)];
    if k < hi {
      RunFirst(a, InnerAll(lines[k..hi]));
      assert lines[k..hi] == [lines[k]] + lines[k + 1..hi];
      assert InnerAll(lines[k..hi])[0] == Inner(lines[k]) && InnerAll(lines[k..hi])[1..] == InnerAll(lines[k + 1..hi]);
      var a' := StepLine(a, Inner(lines[k]).value).value;
      RunGrows(a', InnerAll(lines[k + 1..hi]));
      LineBeside(lines, k, hi, i, j, a, b, name, task, reason, suffix);
      var one := NewLines(lines, k, i, j, task, reason, suffix);
      var b' := Run(b, InnerAll(one)).value;
      TableBeside(lines, k + 1, hi, i, j, a', b', name, task, reason, suffix);
      EditedStep(lines, k, hi, i, j, task, reason, suffix);
      InnerAppend(one, Edited(lines, k + 1, hi, edits));
      RunAppend(b, InnerAll(one), InnerAll(Edited(lines, k + 1, hi, edits)));
    } else {
      assert lines[k..hi] == [];
      NoneRun(a);
      NoneRun(b);
      NoneEdited(lines, hi, edits);
    }
  }

  lemma RunFirst(st: St, lines: seq<Option<Line>>)
    requires lines != [] && Run(st, lines).Some?
    ensures lines[0].Some? && StepLine(st, lines[0].value).Some?
    ensures Run(st, lines) == Run(StepLine(st, lines[0].value).value, lines[1..])
  {
    hide StepLine;
  }

  lemma NoneRun(st: St)
    ensures Run(st, []) == Some(st)
  {
  }

  lemma NoneEdited(lines: seq<string>, hi: nat, edits: seq<Edit>)
    requires hi <= |lines|
    ensures Edited(lines, hi, hi, edits) == []
  {
  }

  lemma NewLinesClean(lines: seq<string>, k: nat, i: nat, j: nat, task: string, reason: string, suffix: string)
    requires k < |lines| && '\n' !in lines[k] && suffix in {"", "\r"}
    ensures var out := NewLines(lines, k, i, j, task, reason, suffix);
      && out != [] && (forall m :: 0 <= m < |out| ==> '\n' !in out[m])
      && (k == i || k == j ==> (EndsBare(out) <==> suffix == "\r"))
      && (k != i && k != j ==> EndsBare(out) == EndsWith(lines[k], "\r"))
  {
    hide LexLine, StateLine, TaskLine, ReasonLine, Inner, EndsWith;
    WrittenLines(task, reason);
    Suffixed(StateLine(), suffix);
    Suffixed(TaskLine(task), suffix);
    Suffixed(ReasonLine(reason), suffix);
  }

  /** The rewritten table's lines hold no line feed, and its last line is the last line's own rewrite. */
  lemma {:induction false} EditedClean(lines: seq<string>, k: nat, hi: nat, i: nat, j: nat, task: string,
                                       reason: string, suffix: string)
    requires k < hi <= |lines| && i != j && suffix in {"", "\r"} && forall m :: 0 <= m < |lines| ==> '\n' !in lines[m]
    ensures var out := Edited(lines, k, hi, [StateEdit(i, suffix), TaskEdit(j, task, reason, suffix)]);
      && out != [] && (forall m :: 0 <= m < |out| ==> '\n' !in out[m])
      && EndsBare(out) == EndsBare(NewLines(lines, hi - 1, i, j, task, reason, suffix))
    decreases hi - k
  {
    hide NewLines, StateEdit, TaskEdit, Edited, EndsWith;
    var edits := [StateEdit(i, suffix), TaskEdit(j, task, reason, suffix)];
    EditedStep(lines, k, hi, i, j, task, reason, suffix);
    NewLinesClean(lines, k, i, j, task, reason, suffix);
    if k + 1 < hi {
      EditedClean(lines, k + 1, hi, i, j, task, reason, suffix);
    } else {
      assert Edited(lines, hi, hi, edits) == [] by { EditedEnd(lines, hi, edits); }
    }
  }

  lemma EditedEnd(lines: seq<string>, hi: nat, edits: seq<Edit>)
    requires hi <= |lines|
    ensures Edited(lines, hi, hi, edits) == []
  {
  }

  // --- the whole text ---

  /** The pair's line is the text's last, so the text has no final line feed after it. */
  predicate EndsText(lines: seq<string>, span: (nat, nat), key: string)
    requires span.0 < span.1 <= |lines|
  {
    KeyPair(lines, span.0 + 1, span.1, key).Some? && KeyPair(lines, span.0 + 1, span.1, key).value.1 == |lines|
  }

  predicate LastEdited(lines: seq<string>, span: (nat, nat))
    requires span.0 < span.1 <= |lines|
  {
    EndsText(lines, span, "state") || EndsText(lines, span, "task")
  }

  /** A CRLF text whose last line, without a line feed, is one of the two the rewrite replaces. */
  predicate Torn(was: string, span: (nat, nat))
    requires span.0 < span.1 <= |SplitOn(was, '\n')|
  {
    Contains(was, "\r\n") && LastEdited(SplitOn(was, '\n'), span)
  }

  /** What the search found in the table, in the terms of the runs. */
  lemma PairsFound(lines: seq<string>, lo: nat, hi: nat, a: St, task: string, reason: string, crlf: bool)
    returns (i: nat, j: nat)
    requires Runs(lines) && lo <= hi <= |lines| && TableOwn(lines[lo..hi], a)
    requires EntryBody(lines, lo, hi, task, reason, crlf).Some?
    ensures Editing(lines, hi, i, j) && lo <= i && lo <= j
    ensures KeyPair(lines, lo, hi, "state") == Some((i, i + 1)) && KeyPair(lines, lo, hi, "task") == Some((j, j + 1))
    ensures var suffix := if crlf then "\r" else "";
      EntryBody(lines, lo, hi, task, reason, crlf)
      == Some(Edited(lines, lo, hi, [StateEdit(i, suffix), TaskEdit(j, task, reason, suffix)]))
  {
    hide Runs, TableOwn, KeyPair, Edited, Inner, InnerAll, EntryBody, KeyLine, StripCr, StateEdit, TaskEdit, Run;
    BodyHasPairs(lines, lo, hi, task, reason, crlf);
    PairFound(lines, lo, hi, "state", a);
    PairFound(lines, lo, hi, "task", a);
    i, j := KeyPair(lines, lo, hi, "state").value.0, KeyPair(lines, lo, hi, "task").value.0;
    AllAccepted(lines);
    assert "state" != "task" by { assert |"state"| == 5 && |"task"| == 4; }
    BodyOfPairs(lines, lo, hi, i, j, task, reason, crlf);
  }

  lemma AllAccepted(lines: seq<string>)
    requires Runs(lines)
    ensures forall k :: 0 <= k < |lines| ==> Inner(lines[k]).Some?
  {
    hide Runs, Inner;
    forall k | 0 <= k < |lines|
      ensures Inner(lines[k]).Some?
    {
      Accepted(lines, k);
    }
  }

  lemma BodyHasPairs(lines: seq<string>, lo: nat, hi: nat, task: string, reason: string, crlf: bool)
    requires lo <= hi <= |lines| && EntryBody(lines, lo, hi, task, reason, crlf).Some?
    ensures KeyPair(lines, lo, hi, "state").Some? && KeyPair(lines, lo, hi, "task").Some?
  {
    hide KeyPair, Edited, StateLine, TaskLine, ReasonLine, WithEnding;
  }

  lemma BodyOfPairs(lines: seq<string>, lo: nat, hi: nat, i: nat, j: nat, task: string, reason: string, crlf: bool)
    requires lo <= hi <= |lines| && i != j
    requires KeyPair(lines, lo, hi, "state") == Some((i, i + 1)) && KeyPair(lines, lo, hi, "task") == Some((j, j + 1))
    ensures var suffix := if crlf then "\r" else "";
      EntryBody(lines, lo, hi, task, reason, crlf)
      == Some(Edited(lines, lo, hi, [StateEdit(i, suffix), TaskEdit(j, task, reason, suffix)]))
  {
    hide KeyPair, Edited, StateLine, TaskLine, ReasonLine, WithEnding;
  }

  lemma BesideStart(a: St, name: string, task: string, reason: string)
    requires a.cur == EntryPath(name)
    ensures Beside(a, a, name, task, reason, false, false)
  {
    assert a.doc.leaves + OffLeaves(name, task, reason, false, false) == a.doc.leaves;
  }

  /** The runs end to end: the rewritten lines reach the old document with the entry off. */
  lemma RewriteRuns(all: seq<Option<Line>>, body: seq<Option<Line>>, start: nat, end: nat, name: string, task: string,
                    reason: string)
    requires start < end <= |all| && Run(START, all).Some?
    requires FieldPath(name, "reason") !in Nodes(Run(START, all).value.doc)
    requires var a := Run(START, all[..start + 1]);
      a.Some? && Run(a.value, all[start + 1..end]).Some?
      && Run(Run(a.value, all[start + 1..end]).value, all[end..]) == Run(START, all)
      && Run(a.value, body).Some?
      && Beside(Run(a.value, all[start + 1..end]).value, Run(a.value, body).value, name, task, reason, true, true)
    ensures var out := Run(START, all[..start + 1] + body + all[end..]);
      out.Some? && out.value.doc == SwitchedOff(Run(START, all).value.doc, name, task, reason)
  {
    var a := Run(START, all[..start + 1]).value;
    var mid := Run(a, all[start + 1..end]).value;
    var b := Run(a, body).value;
    OffKeys(name, task, reason, true, true);
    hide Run, OffLeaves, FieldPath, Nodes;
    OverRun(mid, b, OffLeaves(name, task, reason, true, true), FieldPath(name, "reason"), all[end..]);
    RunAppend(START, all[..start + 1], body);
    RunAppend(START, all[..start + 1] + body, all[end..]);
  }

  /** A table on a parsed document: its own lines, the run that reaches it and the run that goes on from it. */
  ghost predicate Found(all: seq<Option<Line>>, own: seq<Option<Line>>, span: (nat, nat), path: Path, a: St) {
    && span.0 < span.1 <= |all| && own == all[span.0 + 1..span.1] && NoHeads(own)
    && Run(START, all).Some? && Run(START, all[..span.0 + 1]) == Some(a) && a.cur == path
    && Run(a, own).Some? && Run(Run(a, own).value, all[span.1..]) == Run(START, all)
  }

  lemma SpanHead(lines: seq<string>, name: string)
    requires Runs(lines) && EntrySpan(lines, name).Some?
    ensures var (start, end) := EntrySpan(lines, name).value;
      start < end && end == TableEnd(lines, start + 1) && Inner(lines[start]) == Some(Head(EntryPath(name)))
  {
    hide Run, EntrySpan, Inner, InnerAll, TableEnd, NoHeads, Runs, EntryHeader, RStripCr;
    SpanFound(lines, name);
  }

  lemma FoundAt(lines: seq<string>, path: Path, span: (nat, nat), a: St)
    requires Runs(lines) && span.0 < |lines| && span.1 == TableEnd(lines, span.0 + 1)
      && Inner(lines[span.0]) == Some(Head(path))
    requires Run(START, InnerAll(lines)[..span.0 + 1]) == Some(a)
    ensures Found(InnerAll(lines), InnerAll(lines[span.0 + 1..span.1]), span, path, a)
  {
    hide Run, Inner, InnerAll, TableEnd, NoHeads, Runs, TableHeader, RStripCr, Found;
    UnfoldRuns(lines);
    TableRuns(lines, span.0, path);
    InnerSlice(lines, span.0 + 1, span.1);
    FoundIs(InnerAll(lines), InnerAll(lines[span.0 + 1..span.1]), span, path, a);
  }

  lemma FoundIs(all: seq<Option<Line>>, own: seq<Option<Line>>, span: (nat, nat), path: Path, a: St)
    requires span.0 < span.1 <= |all| && own == all[span.0 + 1..span.1] && NoHeads(own)
    requires Run(START, all).Some? && Run(START, all[..span.0 + 1]) == Some(a) && a.cur == path
    requires Run(a, own).Some? && Run(Run(a, own).value, all[span.1..]) == Run(START, all)
    ensures Found(all, own, span, path, a)
  {
    hide Run, NoHeads;
  }

  lemma HeadState(lines: seq<string>, i: nat, path: Path) returns (a: St)
    requires Runs(lines) && i < |lines| && Inner(lines[i]) == Some(Head(path))
    ensures Run(START, InnerAll(lines)[..i + 1]) == Some(a)
  {
    hide Run, Inner, InnerAll, TableEnd, NoHeads, Runs;
    TableRuns(lines, i, path);
    a := Run(START, InnerAll(lines)[..i + 1]).value;
  }

  lemma FoundTable(lines: seq<string>, name: string, span: (nat, nat)) returns (a: St)
    requires Runs(lines) && EntrySpan(lines, name) == Some(span)
    ensures Found(InnerAll(lines), InnerAll(lines[span.0 + 1..span.1]), span, EntryPath(name), a)
    ensures TableOwn(lines[span.0 + 1..span.1], a)
  {
    hide Run, EntrySpan, Inner, InnerAll, TableEnd, NoHeads, Runs, TableHeader, RStripCr, Found, TableOwn;
    SpanHead(lines, name);
    a := HeadState(lines, span.0, EntryPath(name));
    FoundAt(lines, EntryPath(name), span, a);
    OwnAt(lines, EntryPath(name), span, a);
  }

  lemma OwnAt(lines: seq<string>, path: Path, span: (nat, nat), a: St)
    requires span.0 < span.1 <= |lines| && Found(InnerAll(lines), InnerAll(lines[span.0 + 1..span.1]), span, path, a)
    requires Runs(lines)
    ensures TableOwn(lines[span.0 + 1..span.1], a)
  {
    hide Run, Inner, InnerAll, NoHeads, Found, Runs, TableOwn;
    UnfoldRuns(lines);
    FoundOwn(InnerAll(lines), InnerAll(lines[span.0 + 1..span.1]), span, path, a);
    SlicedClean(lines, span.0 + 1, span.1);
    OwnIs(lines[span.0 + 1..span.1], a);
  }

  lemma OwnIs(own: seq<string>, a: St)
    requires (forall k :: 0 <= k < |own| ==> '\n' !in own[k]) && NoHeads(InnerAll(own)) && Run(a, InnerAll(own)).Some?
    ensures TableOwn(own, a)
  {
    hide Run, Inner, InnerAll, NoHeads;
  }

  lemma FoundOwn(all: seq<Option<Line>>, own: seq<Option<Line>>, span: (nat, nat), path: Path, a: St)
    requires Found(all, own, span, path, a)
    ensures NoHeads(own) && Run(a, own).Some?
  {
    hide Run, NoHeads;
  }

  lemma SlicedClean(lines: seq<string>, lo: nat, hi: nat)
    requires lo <= hi <= |lines| && forall k :: 0 <= k < |lines| ==> '\n' !in lines[k]
    ensures forall k :: 0 <= k < |lines[lo..hi]| ==> '\n' !in lines[lo..hi][k]
  {
  }

  /** The rewritten table's run, beside the old one's. */
  lemma BodyRuns(lines: seq<string>, all: seq<Option<Line>>, span: (nat, nat), i: nat, j: nat, a: St,
                 name: string, task: string, reason: string, suffix: string)
    requires span.0 < span.1 <= |lines| && suffix in {"", "\r"}
    requires Found(all, InnerAll(lines[span.0 + 1..span.1]), span, EntryPath(name), a)
    requires Editing(lines, span.1, i, j) && span.0 < i && span.0 < j
    requires FieldPath(name, "reason") !in Nodes(Run(START, all).value.doc)
    ensures var own := InnerAll(lines[span.0 + 1..span.1]);
      var body := Run(a, InnerAll(Edited(lines, span.0 + 1, span.1,
        [StateEdit(i, suffix), TaskEdit(j, task, reason, suffix)])));
      body.Some? && Beside(Run(a, own).value, body.value, name, task, reason, true, true)
  {
    hide Run, Inner, InnerAll, StateEdit, TaskEdit, Beside, Edited, FieldPath, Nodes, NoHeads, Editing;
    RunGrows(Run(a, InnerAll(lines[span.0 + 1..span.1])).value, all[span.1..]);
    BesideStart(a, name, task, reason);
    EditingBounds(lines, span.1, i, j);
    TableBeside(lines, span.0 + 1, span.1, i, j, a, a, name, task, reason, suffix);
  }

  function Rewritten(lines: seq<string>, span: (nat, nat), body: seq<string>): seq<string>
    requires span.0 < span.1 <= |lines|
  {
    lines[..span.0 + 1] + body + lines[span.1..]
  }

  lemma InnerRewritten(lines: seq<string>, span: (nat, nat), body: seq<string>)
    requires span.0 < span.1 <= |lines|
    ensures InnerAll(Rewritten(lines, span, body))
      == InnerAll(lines)[..span.0 + 1] + InnerAll(body) + InnerAll(lines)[span.1..]
  {
    hide Inner;
    InnerSlice(lines, 0, span.0 + 1);
    InnerSlice(lines, span.1, |lines|);
    InnerAppend(lines[..span.0 + 1], body);
    InnerAppend(lines[..span.0 + 1] + body, lines[span.1..]);
  }

  lemma RewrittenClean(lines: seq<string>, span: (nat, nat), body: seq<string>)
    requires span.0 < span.1 <= |lines| && body != [] && !EndsBare(lines)
    requires (forall k :: 0 <= k < |lines| ==> '\n' !in lines[k]) && forall k :: 0 <= k < |body| ==> '\n' !in body[k]
    ensures var out := Rewritten(lines, span, body);
      && out != [] && (forall k :: 0 <= k < |out| ==> '\n' !in out[k])
      && (EndsBare(out) <==> span.1 == |lines| && EndsBare(body))
  {
    hide EndsWith;
  }

  /** The rewritten lines end bare exactly when the last line was rewritten with a carriage return. */
  lemma RewrittenEnds(lines: seq<string>, span: (nat, nat), i: nat, j: nat, task: string, reason: string,
                      suffix: string)
    requires span.0 < i < span.1 <= |lines| && span.0 < j < span.1 && i != j && suffix in {"", "\r"} && !EndsBare(lines)
    requires forall k :: 0 <= k < |lines| ==> '\n' !in lines[k]
    ensures var out := Rewritten(lines, span,
      Edited(lines, span.0 + 1, span.1, [StateEdit(i, suffix), TaskEdit(j, task, reason, suffix)]));
      && out != [] && (forall k :: 0 <= k < |out| ==> '\n' !in out[k])
      && (EndsBare(out) <==> suffix == "\r" && (i == |lines| - 1 || j == |lines| - 1))
  {
    hide StateEdit, TaskEdit, Edited, EndsWith, NewLines, Rewritten;
    EditedClean(lines, span.0 + 1, span.1, i, j, task, reason, suffix);
    NewLinesClean(lines, span.1 - 1, i, j, task, reason, suffix);
    RewrittenClean(lines, span,
      Edited(lines, span.0 + 1, span.1, [StateEdit(i, suffix), TaskEdit(j, task, reason, suffix)]));
  }

  /** The rewrite of a parsed document's lines. */
  lemma LinesRewritten(lines: seq<string>, span: (nat, nat), i: nat, j: nat, a: St, name: string, task: string,
                       reason: string, suffix: string)
    requires span.0 < i < span.1 <= |lines| && span.0 < j < span.1 && Editing(lines, span.1, i, j)
      && suffix in {"", "\r"}
    requires Found(InnerAll(lines), InnerAll(lines[span.0 + 1..span.1]), span, EntryPath(name), a)
    requires Run(START, InnerAll(lines)).Some?
      && FieldPath(name, "reason") !in Nodes(Run(START, InnerAll(lines)).value.doc)
    ensures var out := Rewritten(lines, span,
      Edited(lines, span.0 + 1, span.1, [StateEdit(i, suffix), TaskEdit(j, task, reason, suffix)]));
      && Run(START, InnerAll(out)).Some?
      && Run(START, InnerAll(out)).value.doc == SwitchedOff(Run(START, InnerAll(lines)).value.doc, name, task, reason)
  {
    hide Run, Inner, InnerAll, Beside, FieldPath, Nodes, SwitchedOff, Rewritten, Found, Editing, Edited, StateEdit,
      TaskEdit, NoHeads;
    var body := Edited(lines, span.0 + 1, span.1, [StateEdit(i, suffix), TaskEdit(j, task, reason, suffix)]);
    BodyRuns(lines, InnerAll(lines), span, i, j, a, name, task, reason, suffix);
    FoundParts(InnerAll(lines), InnerAll(lines[span.0 + 1..span.1]), span, EntryPath(name), a);
    RewriteRuns(InnerAll(lines), InnerAll(body), span.0, span.1, name, task, reason);
    InnerRewritten(lines, span, body);
  }

  lemma EditingBounds(lines: seq<string>, hi: nat, i: nat, j: nat)
    requires Editing(lines, hi, i, j)
    ensures i != j && i < hi <= |lines| && j < hi
  {
  }

  lemma FoundParts(all: seq<Option<Line>>, own: seq<Option<Line>>, span: (nat, nat), path: Path, a: St)
    requires Found(all, own, span, path, a)
    ensures span.0 < span.1 <= |all| && own == all[span.0 + 1..span.1]
    ensures Run(START, all).Some? && Run(START, all[..span.0 + 1]) == Some(a)
    ensures Run(a, own).Some? && Run(Run(a, own).value, all[span.1..]) == Run(START, all)
  {
    hide Run, NoHeads;
  }

  /**
   Main result: on a text the subset parses, the in-place rewrite of an entry that carries no reason parses to the old
   document with only that entry changed, unless the text is torn, and then it does not parse at all.
   */
  lemma RewriteCommutes(was: string, name: string, span: (nat, nat), task: string, reason: string)
    requires Parse(was).Some? && FieldPath(name, "reason") !in Nodes(Parse(was).value)
    requires EntrySpan(SplitOn(was, '\n'), name) == Some(span)
    requires SwitchesText(Some(was), name, Some(span), task, reason).Some?
    ensures Parse(SwitchesText(Some(was), name, Some(span), task, reason).value)
      == if Torn(was, span) then None else Some(SwitchedOff(Parse(was).value, name, task, reason))
  {
    hide Run, EntrySpan, InnerAll, EntryBody, Contains, FieldPath, Nodes, EndsBare, Parse, SwitchedOff, Found, TableOwn,
      Editing,
      Edited, StateEdit, TaskEdit, KeyPair;
    var lines := SplitOn(was, '\n');
    var crlf := Contains(was, "\r\n");
    var suffix := if crlf then "\r" else "";
    ParsedRuns(was);
    var a := FoundTable(lines, name, span);
    var i, j := PairsFound(lines, span.0 + 1, span.1, a, task, reason, crlf);
    EditingBounds(lines, span.1, i, j);
    LinesRewritten(lines, span, i, j, a, name, task, reason, suffix);
    RewrittenEnds(lines, span, i, j, task, reason, suffix);
    ParseJoined(Rewritten(lines, span, EntryBody(lines, span.0 + 1, span.1, task, reason, crlf).value));
  }
}
