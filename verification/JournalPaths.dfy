/** Journal paths: which are evidence, whose they are, and what a record's file name says. */
module JournalPaths {
  import opened Text

  function JournalPrefix(): string {
    ".agentmarshal/journal/"
  }

  function TasksPrefix(): string {
    JournalPrefix() + "tasks/"
  }

  predicate IsRecordPath(path: string) {
    StartsWith(path, JournalPrefix()) && Contains(path, "/records/")
  }

  /** Immutable record or artifact evidence. */
  predicate IsEvidence(path: string) {
    IsRecordPath(path) || (StartsWith(path, TasksPrefix()) && Contains(path, "/artifacts/"))
  }

  /** `CR-<digits>`. */
  predicate IsTaskId(id: string) {
    |id| > 3 && id[..3] == "CR-" && forall i :: 3 <= i < |id| ==> '0' <= id[i] <= '9'
  }

  /** The task of the one shape that names a record: `tasks/<id>/records/<file>`. */
  function RecordPathTask(path: string): Option<string> {
    if !StartsWith(path, TasksPrefix()) then None
    else
      var parts := SplitOn(path[|TasksPrefix()|..], '/');
      if |parts| == 3 && parts[1] == "records" && parts[2] != "" && IsTaskId(parts[0]) then Some(parts[0]) else None
  }

  /** The task segment of a path, read without judging it. */
  function TaskSegment(path: string): string {
    var rest := if StartsWith(path, TasksPrefix()) then path[|TasksPrefix()|..] else path;
    SplitOn(rest, '/')[0]
  }

  /** What follows the last `c`, or the whole where there is none. */
  function AfterLast(s: string, c: char): string {
    var parts := SplitOn(s, c);
    parts[|parts| - 1]
  }

  function FileName(path: string): string {
    AfterLast(path, '/')
  }

  function RemoveSuffix(s: string, suffix: string): string {
    if EndsWith(s, suffix) then s[..|s| - |suffix|] else s
  }

  /** The record type a path's file name ends in. */
  function RecordType(path: string): string {
    AfterLast(RemoveSuffix(FileName(path), ".json"), '-')
  }

  /** A path that ends as a closing or reopening record's file does. */
  predicate HasLifecycleName(path: string) {
    EndsWith(path, "-completed.json") || EndsWith(path, "-abandoned.json") || EndsWith(path, "-reopened.json")
  }

  predicate IsBase32(c: char) {
    '0' <= c <= '9' || ('A' <= c <= 'Z' && c != 'I' && c != 'L' && c != 'O' && c != 'U')
  }

  /** `<ULID>-<lowercase letters>.json`. */
  predicate IsRecordFileName(name: string) {
    exists n :: 27 < n <= |name| && IsRecordFileNameAt(name, n)
  }

  /** The type's letters end at `n`. */
  predicate IsRecordFileNameAt(name: string, n: nat) {
    && 27 < n <= |name| && '0' <= name[0] <= '7'
    && (forall i :: 1 <= i < 26 ==> IsBase32(name[i]))
    && name[26] == '-' && (forall i :: 27 <= i < n ==> 'a' <= name[i] <= 'z')
    && name[n..] == ".json"
  }

  function RecordsPrefix(task: string): string {
    TasksPrefix() + task + "/records/"
  }

  function TaskDir(task: string): string {
    TasksPrefix() + task + "/"
  }

  // --- facts ---

  lemma {:induction false} AfterLastOf(a: string, c: char, b: string)
    requires c !in b
    ensures AfterLast(a + [c] + b, c) == b
  {
    if c !in a {
      SplitAppend(a, c, b);
      SplitClean(b, c);
    } else {
      var i :| 0 <= i < |a| && a[i] == c;
      var k := FirstAt(a, c);
      var s := a + [c] + b;
      var tail := a[k + 1..] + [c] + b;
      assert s == a[..k] + [c] + tail;
      SplitAppend(a[..k], c, tail);
      AfterLastOf(a[k + 1..], c, b);
    }
  }

  lemma {:induction false} FirstAt(a: string, c: char) returns (k: nat)
    requires c in a
    ensures k < |a| && a[k] == c && c !in a[..k]
  {
    if a[0] == c {
      k := 0;
    } else {
      assert a == [a[0]] + a[1..];
      var j := FirstAt(a[1..], c);
      k := j + 1;
      assert a[..k] == [a[0]] + a[1..][..j];
    }
  }

  /** The path of a well-named record: its prefix, its identifier and its type. */
  lemma RecordTypeOf(path: string, dir: string, id: string, kind: string)
    requires path == dir + "/" + (id + "-" + kind + ".json")
    requires '/' !in id && '/' !in kind && '-' !in kind
    ensures RecordType(path) == kind
  {
    var name := id + "-" + kind + ".json";
    assert '/' !in name;
    AfterLastOf(dir, '/', name);
    assert path == dir + ['/'] + name;
    assert name[|name| - 5..] == ".json";
    assert name[..|name| - 5] == id + ['-'] + kind;
    AfterLastOf(id, '-', kind);
  }

  lemma SplitName(name: string, n: nat)
    requires IsRecordFileNameAt(name, n)
    ensures name == name[..26] + "-" + name[27..n] + ".json"
    ensures '/' !in name[..26] && '/' !in name[27..n] && '-' !in name[27..n]
  {
  }

  lemma CoreType(path: string, stem: string, kind: string)
    requires path == stem + ("-" + kind + ".json") && '-' !in kind
    ensures AfterLast(path[..|path| - 5], '-') == kind
  {
    assert path[..|path| - 5] == stem + ['-'] + kind;
    AfterLastOf(stem, '-', kind);
  }

  /** A well-named path ends in a lifecycle suffix exactly when its type is that lifecycle type. */
  lemma SuffixIsType(path: string, dir: string, id: string, kind: string, wanted: string)
    requires path == dir + "/" + (id + "-" + kind + ".json")
    requires forall i :: 0 <= i < |kind| ==> 'a' <= kind[i] <= 'z'
    requires forall i :: 0 <= i < |wanted| ==> 'a' <= wanted[i] <= 'z'
    ensures EndsWith(path, "-" + wanted + ".json") <==> kind == wanted
  {
    hide AfterLast;
    var suffix := "-" + wanted + ".json";
    var stem := dir + "/" + id;
    assert path == stem + ("-" + kind + ".json");
    CoreType(path, stem, kind);
    if EndsWith(path, suffix) {
      CoreType(path, path[..|path| - |suffix|], wanted);
    }
  }

  // --- well-named records ---

  /** A record where and as the journal reader accepts it. */
  predicate WellNamed(path: string) {
    RecordPathTask(path).Some? && IsRecordFileName(FileName(path))
  }

  lemma JoinThree(a: string, b: string, c: string)
    ensures JoinWith([a, b, c], '/') == a + "/" + (b + "/" + c)
  {
    assert [a, b, c][1..] == [b, c];
    assert [b, c][1..] == [c];
    assert JoinWith([b, c], '/') == b + ['/'] + c;
    assert a + ['/'] + (b + ['/'] + c) == a + "/" + (b + "/" + c);
  }

  /** A record path is its task's records directory and a file name in it. */
  lemma RecordPathShape(path: string) returns (task: string, name: string)
    requires RecordPathTask(path).Some?
    ensures RecordPathTask(path) == Some(task) && IsTaskId(task)
    ensures path == RecordsPrefix(task) + name
    ensures path == (TasksPrefix() + task + "/records") + "/" + name
    ensures name != "" && name == FileName(path) && '/' !in name && '/' !in task && TaskSegment(path) == task
  {
    hide TasksPrefix;
    var rest := path[|TasksPrefix()|..];
    var parts := SplitOn(rest, '/');
    task, name := parts[0], parts[2];
    JoinOfSplit(rest, '/');
    JoinThree(task, "records", name);
    assert parts == [task, "records", name];
    assert path == TasksPrefix() + (task + "/" + ("records" + "/" + name));
    assert path == (TasksPrefix() + task + "/records") + "/" + name;
    AfterLastOf(TasksPrefix() + task + "/records", '/', name);
  }

  lemma TaskOfRecordsPrefix(path: string, task: string)
    requires '/' !in task && StartsWith(path, RecordsPrefix(task))
    ensures TaskSegment(path) == task
    ensures IsRecordPath(path) && StartsWith(path, TaskDir(task))
  {
    hide JournalPrefix;
    var tail := path[|RecordsPrefix(task)|..];
    assert path == RecordsPrefix(task) + tail;
    var rest := path[|TasksPrefix()|..];
    assert rest == task + ['/'] + ("records/" + tail);
    SplitAppend(task, '/', "records/" + tail);
    assert path == TasksPrefix() + task + "/records/" + tail;
    ContainsMiddle(TasksPrefix() + task, "/records/", tail);
    assert path[..|TaskDir(task)|] == TaskDir(task);
  }

  lemma WellNamedParts(path: string) returns (dir: string, id: string, kind: string)
    requires WellNamed(path)
    ensures path == dir + "/" + (id + "-" + kind + ".json")
    ensures forall i :: 0 <= i < |kind| ==> 'a' <= kind[i] <= 'z'
    ensures RecordType(path) == kind
  {
    hide TasksPrefix, RecordType, FileName, RecordPathTask;
    var task, name := RecordPathShape(path);
    var n :| 27 < n <= |name| && IsRecordFileNameAt(name, n);
    SplitName(name, n);
    dir, id, kind := TasksPrefix() + task + "/records", name[..26], name[27..n];
    RecordTypeOf(path, dir, id, kind);
  }

  /** What a well-named record's name says, both ways the gate reads it. */
  lemma WellNamedMeaning(path: string)
    requires WellNamed(path)
    ensures HasLifecycleName(path) <==> RecordType(path) in {"completed", "abandoned", "reopened"}
    ensures EndsWith(path, "-reopened.json") <==> RecordType(path) == "reopened"
  {
    hide RecordType, WellNamed, EndsWith;
    var dir, id, kind := WellNamedParts(path);
    SuffixIsType(path, dir, id, kind, "completed");
    SuffixIsType(path, dir, id, kind, "abandoned");
    SuffixIsType(path, dir, id, kind, "reopened");
    assert "-" + "completed" + ".json" == "-completed.json";
    assert "-" + "abandoned" + ".json" == "-abandoned.json";
    assert "-" + "reopened" + ".json" == "-reopened.json";
  }
}
