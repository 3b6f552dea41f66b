/**
 The gate's promises in the terms of the paths themselves: which files are evidence, what a passed merge and a run of
 them keep of those files, and what an added record must be called and hold.
 */
module GateShapes {
  import opened Text
  import opened JournalPaths
  import opened Lifecycle
  import opened Gate
  import opened GateRuns

  function Artifact(task: string, tail: string): string {
    ".agentmarshal/journal/tasks/" + task + "/artifacts/" + tail
  }

  function RecordAt(task: string, tail: string): string {
    ".agentmarshal/journal/tasks/" + task + "/records/" + tail
  }

  /** A task's own file under its records or its artifacts, however deep. */
  predicate Kept(p: string, task: string, tail: string) {
    p == Artifact(task, tail) || p == RecordAt(task, tail)
  }

  // --- which paths are evidence ---

  lemma Prefixes()
    ensures JournalPrefix() == ".agentmarshal/journal/" && TasksPrefix() == ".agentmarshal/journal/tasks/"
  {
    assert ".agentmarshal/journal/" + "tasks/" == ".agentmarshal/journal/tasks/";
  }

  lemma UnderTasks(rest: string)
    ensures StartsWith(TasksPrefix() + rest, TasksPrefix()) && StartsWith(TasksPrefix() + rest, JournalPrefix())
  {
    var p := TasksPrefix() + rest;
    assert p[..|TasksPrefix()|] == TasksPrefix();
    assert p[..|JournalPrefix()|] == JournalPrefix();
  }

  /** Every file under a task's records or artifacts is evidence. */
  lemma EvidenceShapes(p: string, task: string, tail: string)
    requires Kept(p, task, tail)
    ensures IsEvidence(p)
    ensures p == RecordAt(task, tail) ==> IsRecordPath(p)
  {
    Prefixes();
    var part := if p == Artifact(task, tail) then "/artifacts/" else "/records/";
    ContainsMiddle(TasksPrefix() + task, part, tail);
    UnderTasks(task + part + tail);
    hide JournalPrefix, TasksPrefix, StartsWith, Contains;
    assert p == TasksPrefix() + task + part + tail;
    assert p == TasksPrefix() + (task + part + tail);
  }

  /** A split off the front: a text opens with `head` and a slash exactly when `head` is its first of several pieces. */
  lemma OpensWith(p: string, head: string)
    requires '/' !in head
    ensures StartsWith(p, head + "/") <==> |SplitOn(p, '/')| > 1 && SplitOn(p, '/')[0] == head
    ensures StartsWith(p, head + "/") ==> |p| > |head| && SplitOn(p[|head| + 1..], '/') == SplitOn(p, '/')[1..]
  {
    var parts := SplitOn(p, '/');
    if StartsWith(p, head + "/") {
      assert p == head + ['/'] + p[|head| + 1..];
      SplitAppend(head, '/', p[|head| + 1..]);
    }
    if |parts| > 1 && parts[0] == head {
      FirstPiece(p);
    }
  }

  lemma FirstPiece(p: string)
    requires |SplitOn(p, '/')| > 1
    ensures var parts := SplitOn(p, '/');
      var rest := JoinWith(parts[1..], '/');
      && p == parts[0] + "/" + rest && SplitOn(rest, '/') == parts[1..] && StartsWith(p, parts[0] + "/")
  {
    var parts := SplitOn(p, '/');
    var rest := JoinWith(parts[1..], '/');
    JoinOfSplit(p, '/');
    hide SplitOn;
    assert p == parts[0] + ['/'] + rest;
    SplitAppend(parts[0], '/', rest);
    assert ([parts[0]] + SplitOn(rest, '/'))[1..] == SplitOn(rest, '/');
    assert p[..|parts[0]| + 1] == parts[0] + "/";
  }

  /** A directory of the path: a piece neither first nor last. */
  predicate Inside(parts: seq<string>, name: string) {
    exists k :: 0 < k < |parts| - 1 && parts[k] == name
  }

  lemma PieceOf(p: string, name: string)
    requires Contains(p, "/" + name + "/") && '/' !in name
    ensures Inside(SplitOn(p, '/'), name)
  {
    var mid := "/" + name + "/";
    var at :| 0 <= at <= |p| && OccursAt(mid, p, at);
    var a, b := p[..at], p[at + |mid|..];
    hide SplitOn;
    assert p == a + ['/'] + (name + ['/'] + b);
    SplitAround(a, '/', name + ['/'] + b);
    SplitAppend(name, '/', b);
    assert (SplitOn(a, '/') + ([name] + SplitOn(b, '/')))[|SplitOn(a, '/')|] == name;
  }

  lemma {:induction false} PieceStands(p: string, name: string, k: nat)
    requires 0 < k < |SplitOn(p, '/')| - 1 && SplitOn(p, '/')[k] == name
    ensures Contains(p, "/" + name + "/")
    decreases k
  {
    hide SplitOn, Contains;
    var parts := SplitOn(p, '/');
    var rest := JoinWith(parts[1..], '/');
    FirstPiece(p);
    if k == 1 {
      FirstPiece(rest);
      var tail := JoinWith(parts[1..][1..], '/');
      ContainsMiddle(parts[0], "/" + name + "/", tail);
      assert p == parts[0] + ("/" + name + "/") + tail;
    } else {
      PieceStands(rest, name, k - 1);
      ContainsWithin(parts[0] + "/", rest, "", "/" + name + "/");
      assert parts[0] + "/" + rest + "" == p;
    }
  }

  lemma InsideIs(p: string, name: string)
    requires '/' !in name
    ensures Contains(p, "/" + name + "/") <==> Inside(SplitOn(p, '/'), name)
  {
    hide SplitOn, Contains;
    if Contains(p, "/" + name + "/") {
      PieceOf(p, name);
    }
    if Inside(SplitOn(p, '/'), name) {
      var k :| 0 < k < |SplitOn(p, '/')| - 1 && SplitOn(p, '/')[k] == name;
      PieceStands(p, name, k);
    }
  }

  /** Under the journal, by the path's pieces. */
  predicate InJournal(parts: seq<string>) {
    |parts| > 2 && parts[0] == ".agentmarshal" && parts[1] == "journal"
  }

  lemma JournalIs(p: string)
    ensures StartsWith(p, ".agentmarshal/journal/") <==> InJournal(SplitOn(p, '/'))
    ensures StartsWith(p, ".agentmarshal/journal/tasks/") <==>
      InJournal(SplitOn(p, '/')) && |SplitOn(p, '/')| > 3 && SplitOn(p, '/')[2] == "tasks"
  {
    hide SplitOn, StartsWith;
    OpensWith(p, ".agentmarshal");
    OpenedAgain(p, ".agentmarshal" + "/", "journal" + "/");
    OpenedAgain(p, ".agentmarshal" + "/" + ("journal" + "/"), "tasks" + "/");
    Literals();
    if StartsWith(p, ".agentmarshal" + "/") {
      var q := p[14..];
      OpensWith(q, "journal");
      if StartsWith(q, "journal" + "/") {
        assert p[22..] == q[8..];
        OpensWith(q[8..], "tasks");
      }
    }
  }

  lemma Literals()
    ensures ".agentmarshal" + "/" + ("journal" + "/") == ".agentmarshal/journal/"
    ensures ".agentmarshal" + "/" + ("journal" + "/") + ("tasks" + "/") == ".agentmarshal/journal/tasks/"
  {
  }

  lemma OpenedAgain(p: string, head: string, more: string)
    ensures StartsWith(p, head + more) <==> StartsWith(p, head) && StartsWith(p[|head|..], more)
  {
    if StartsWith(p, head + more) {
      assert (head + more)[..|head|] == p[..|head|];
      assert p[|head|..][..|more|] == (head + more)[|head|..];
    }
    if StartsWith(p, head) && StartsWith(p[|head|..], more) {
      assert p[..|head| + |more|] == p[..|head|] + p[|head|..][..|more|];
    }
  }

  /**
   Main result: evidence is every file under the journal with a directory called records on its way, and every one
   under its tasks with one called artifacts.
   */
  lemma EvidenceExactly(p: string)
    ensures var parts := SplitOn(p, '/');
      && (IsRecordPath(p) <==> InJournal(parts) && Inside(parts, "records"))
      && (IsEvidence(p) <==>
            && InJournal(parts)
            && (Inside(parts, "records") || (|parts| > 3 && parts[2] == "tasks" && Inside(parts, "artifacts"))))
  {
    hide SplitOn, Contains, StartsWith, Inside, InJournal;
    Prefixes();
    JournalIs(p);
    InsideIs(p, "records");
    InsideIs(p, "artifacts");
    assert "/" + "records" + "/" == "/records/" && "/" + "artifacts" + "/" == "/artifacts/";
  }

  /** A path outside the journal, or with no part called records or artifacts, is not. */
  lemma NotEvidence(p: string)
    requires !StartsWith(p, ".agentmarshal/journal/")
      || ("records" !in SplitOn(p, '/') && "artifacts" !in SplitOn(p, '/'))
    ensures !IsEvidence(p)
  {
    hide SplitOn, StartsWith, IsEvidence;
    EvidenceExactly(p);
    JournalIs(p);
  }

  // --- what the gate reports and keeps ---

  /** Any change but an addition of such a file is reported; nothing that is not evidence ever is. */
  lemma ReportedExactly(pairs: seq<Pair>, s: char, p: string, task: string, tail: string)
    requires (s, p) in pairs
    ensures Kept(p, task, tail) && s != 'A' ==> p in Tampered(pairs)
    ensures (!StartsWith(p, ".agentmarshal/journal/")
      || ("records" !in SplitOn(p, '/') && "artifacts" !in SplitOn(p, '/')))
      ==> p !in Tampered(pairs)
  {
    hide IsEvidence;
    if Kept(p, task, tail) {
      EvidenceShapes(p, task, tail);
      assert (s, p).0 != 'A' ==> (s, p).1 in Tampered(pairs);
    }
    if !StartsWith(p, ".agentmarshal/journal/") || ("records" !in SplitOn(p, '/') && "artifacts" !in SplitOn(p, '/')) {
      NotEvidence(p);
    }
  }

  /** Every record and artifact file of the merge base and of the target survives a passed merge unchanged. */
  lemma FileSurvives(m: Merge, base: Tree, out: Tree, p: string, task: string, tail: string)
    requires Passed(m, base, out) && Kept(p, task, tail)
    ensures p in m.mergeBase ==> p in m.cand && m.cand[p] == m.mergeBase[p]
    ensures p in base ==> p in out && out[p] == base[p]
  {
    hide IsEvidence, Reports, AllPairs, AdmittedRecordsOnly, LifecycleOk, AddedValid, ClosedAtBase;
    EvidenceShapes(p, task, tail);
    TamperedIffEvidenceChanged(m.mergeBase, m.cand, m.changes);
    EvidencePath(m, base, out, p);
  }

  /** Main result: along every run of passed merges, a task's record and artifact files stay as they are. */
  lemma {:induction false} FilesForever(trees: seq<Tree>, merges: seq<Merge>, i: nat, j: nat, p: string, task: string,
                                        tail: string)
    requires IsRun(trees, merges) && i <= j < |trees| && Kept(p, task, tail) && p in trees[i]
    ensures p in trees[j] && trees[j][p] == trees[i][p]
  {
    hide Passed, Kept;
    if i < j {
      FilesForever(trees, merges, i, j - 1, p, task, tail);
      FileSurvives(merges[j - 1], trees[j - 1], trees[j], p, task, tail);
    }
  }

  // --- what an added record must be ---

  /** The name of a record file: an identifier of 26 characters, a type in small letters, and the extension. */
  predicate NamedSo(name: string, id: string, kind: string) {
    && name == id + "-" + kind + ".json" && |id| == 26 && kind != "" && '0' <= id[0] <= '7'
    && (forall i :: 1 <= i < 26 ==> ('0' <= id[i] <= '9' || 'A' <= id[i] <= 'Z') && id[i] !in {'I', 'L', 'O', 'U'})
    && forall i :: 0 <= i < |kind| ==> 'a' <= kind[i] <= 'z'
  }

  lemma NameShape(name: string) returns (id: string, kind: string)
    requires IsRecordFileName(name)
    ensures NamedSo(name, id, kind)
  {
    var n :| 27 < n <= |name| && IsRecordFileNameAt(name, n);
    SplitName(name, n);
    id, kind := name[..26], name[27..n];
  }

  /**
   Every record a passed candidate adds is directly in the records of a task whose identifier is `CR-` and digits, is
   named as a record file is, and holds a valid record of that very task.
   */
  lemma AddedRecordIs(g: Candidate, p: string) returns (task: string, name: string, id: string, kind: string)
    requires Passes(g) && ('A', p) in g.pairs && IsRecordPath(p)
    ensures p == RecordAt(task, name) && '/' !in name && NamedSo(name, id, kind)
    ensures |task| > 3 && task[..3] == "CR-" && forall i :: 3 <= i < |task| ==> '0' <= task[i] <= '9'
    ensures g.validTask(p) == Some(task)
  {
    hide IsRecordPath, LifecycleOk, AdmittedRecordsOnly, ClosedAtBase, RecordPathTask, FileName, IsRecordFileName,
      TasksPrefix;
    Prefixes();
    AddedRecordsAre(g, p);
    assert AddedValid(g, p);
    task, name := RecordPathShape(p);
    assert p == RecordAt(task, name);
    id, kind := NameShape(name);
  }

  lemma RecordTask(task: string, name: string)
    requires '/' !in task && '/' !in name && name != "" && IsTaskId(task)
    ensures RecordPathTask(RecordAt(task, name)) == Some(task) && FileName(RecordAt(task, name)) == name
  {
    Prefixes();
    var rest := task + ['/'] + ("records" + ['/'] + name);
    UnderTasks(rest);
    SplitAppend(task, '/', "records" + ['/'] + name);
    SplitAppend("records", '/', name);
    SplitClean(name, '/');
    AfterLastOf(TasksPrefix() + task + "/records", '/', name);
    hide TasksPrefix, AfterLast, SplitOn;
    var p := RecordAt(task, name);
    assert p == TasksPrefix() + rest && p == TasksPrefix() + task + "/records" + ['/'] + name;
    assert p[|TasksPrefix()|..] == rest;
    assert [task] + (["records"] + [name]) == [task, "records", name];
  }

  /** A path so shaped, holding a valid record of its task, is one the gate takes. */
  lemma AddedRecordTaken(g: Candidate, task: string, name: string, id: string, kind: string)
    requires NamedSo(name, id, kind) && g.validTask(RecordAt(task, name)) == Some(task)
    requires |task| > 3 && task[..3] == "CR-" && forall i :: 3 <= i < |task| ==> '0' <= task[i] <= '9'
    ensures AddedValid(g, RecordAt(task, name))
  {
    assert '/' !in task by {
      assert forall i :: 0 <= i < 3 ==> task[i] == "CR-"[i];
    }
    NameTaken(name, id, kind);
    RecordTask(task, name);
    hide TasksPrefix, AfterLast, SplitOn, IsRecordFileName;
  }

  lemma NameTaken(name: string, id: string, kind: string)
    requires NamedSo(name, id, kind)
    ensures IsRecordFileName(name) && '/' !in name && name != ""
  {
    NameParts(name, id, kind);
    var n := 27 + |kind|;
    assert IsRecordFileNameAt(name, n);
    NoSlash(name, id, kind);
  }

  lemma NameParts(name: string, id: string, kind: string)
    requires name == id + "-" + kind + ".json" && |id| == 26
    ensures var n := 27 + |kind|;
      && |name| == n + 5 && name[26] == '-' && name[n..] == ".json"
      && (forall i :: 0 <= i < 26 ==> name[i] == id[i]) && (forall i :: 27 <= i < n ==> name[i] == kind[i - 27])
  {
  }

  lemma NoSlash(name: string, id: string, kind: string)
    requires name == id + "-" + kind + ".json" && '/' !in id && '/' !in kind
    ensures '/' !in name
  {
  }

  /**
   A task the candidate adds records to and does not name, closed at base, only grows: every change under it is an
   addition, and its new records are sessions and checks, and reopenings where it was completed.
   */
  lemma OtherClosedTask(g: Candidate, task: string, x: Pair)
    requires Passes(g) && task in Affected(g) && task != g.task && ClosedAtBase(g.base, task)
    requires x in g.pairs && StartsWith(x.1, ".agentmarshal/journal/tasks/" + task + "/")
    ensures x.0 == 'A'
    ensures IsRecordPath(x.1) && StartsWith(x.1, ".agentmarshal/journal/tasks/" + task + "/records/") ==>
      || RecordType(x.1) == "session" || RecordType(x.1) == "check"
      || (RecordType(x.1) == "reopened" && TerminalAtBase(g.base, task) == Some(Done))
  {
    hide IsRecordPath, AdmittedRecordsOnly, AddedValid, ClosedAtBase, TerminalAtBase, RecordType, StartsWith,
      TasksPrefix,
      ProjectStatus;
    Prefixes();
    TaskPaths(task);
    assert LifecycleOk(g, task) && OthersAdmitted(g, task);
    if IsRecordPath(x.1) && StartsWith(x.1, RecordsPrefix(task)) {
      AddedRecordsAre(g, x.1);
      assert x.1 in TaskRecords(g.AddedRecords(), task);
      AdmittedIs(RecordType(x.1), TerminalAtBase(g.base, task).value);
    }
  }

  lemma TaskPaths(task: string)
    ensures TaskDir(task) == ".agentmarshal/journal/tasks/" + task + "/"
    ensures RecordsPrefix(task) == ".agentmarshal/journal/tasks/" + task + "/records/"
  {
    Prefixes();
  }

  /** A candidate of a task closed at base adds only what its state still takes. */
  lemma OwnClosedTask(g: Candidate, x: Pair)
    requires Passes(g) && ClosedAtBase(g.base, g.task) && x in g.pairs
    ensures x.0 == 'A' && StartsWith(x.1, ".agentmarshal/journal/tasks/" + g.task + "/")
    ensures IsRecordPath(x.1) ==>
      || RecordType(x.1) == "session" || RecordType(x.1) == "check"
      || (RecordType(x.1) == "reopened" && TerminalAtBase(g.base, g.task) == Some(Done))
  {
    hide IsRecordPath, LifecycleOk, AddedValid, ClosedAtBase, TerminalAtBase, RecordType, StartsWith, TasksPrefix;
    TaskPaths(g.task);
    if IsRecordPath(x.1) {
      AddedRecordsAre(g, x.1);
      AdmittedIs(RecordType(x.1), TerminalAtBase(g.base, g.task).value);
    }
  }
}
