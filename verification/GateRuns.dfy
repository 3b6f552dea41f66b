/** Whole runs of gated merges: what they keep of the evidence and of every task's lifecycle. */
module GateRuns {
  import opened Text
  import opened Order
  import opened JournalPaths
  import opened Lifecycle
  import opened Gate

  // --- sorted names against the projection ---

  ghost predicate AllWellNamed(paths: set<string>) {
    forall p :: p in paths && IsRecordPath(p) ==> WellNamed(p)
  }

  function LifecycleNames(paths: seq<string>): seq<string> {
    if paths == [] then []
    else
      var last := paths[|paths| - 1];
      LifecycleNames(paths[..|paths| - 1]) + if HasLifecycleName(last) then [last] else []
  }

  /** Keeping only the lifecycle names of a sorted listing is the sorted listing of the lifecycle names. */
  lemma {:induction false} LifecycleNamesList(paths: seq<string>)
    requires Increasing(paths)
    ensures Increasing(LifecycleNames(paths))
    ensures forall p :: p in LifecycleNames(paths) <==> p in paths && HasLifecycleName(p)
  {
    hide HasLifecycleName, Less, LifecycleNames, Increasing;
    if paths == [] {
      NoNames(paths);
      NoneIncrease();
    } else {
      var short, last := paths[..|paths| - 1], paths[|paths| - 1];
      assert paths == short + [last];
      IncreasingInit(short, last);
      LifecycleNamesList(short);
      NamesLast(short, last);
      var names := LifecycleNames(short);
      assert LifecycleNames(paths) == names + if HasLifecycleName(last) then [last] else [];
      assert names + [] == names;
      assert forall p :: p in names ==> p in short;
      IncreasingPut(names, last);
      forall p
        ensures p in LifecycleNames(paths) <==> p in paths && HasLifecycleName(p)
      {
        assert p in LifecycleNames(paths) <==> p in names || (HasLifecycleName(last) && p == last);
      }
    }
  }

  lemma NoneIncrease()
    ensures Increasing([])
  {
  }

  lemma IncreasingInit(xs: seq<string>, last: string)
    requires Increasing(xs + [last])
    ensures Increasing(xs) && forall p :: p in xs ==> Less(p, last)
  {
    hide Less;
    var all := xs + [last];
    forall i, j | 0 <= i < j < |xs|
      ensures Less(xs[i], xs[j])
    {
      assert Less(all[i], all[j]);
    }
    forall p | p in xs
      ensures Less(p, last)
    {
      var i :| 0 <= i < |xs| && xs[i] == p;
      assert Less(all[i], all[|xs|]);
    }
  }

  lemma IncreasingPut(xs: seq<string>, last: string)
    requires Increasing(xs) && forall p :: p in xs ==> Less(p, last)
    ensures Increasing(xs + [last])
  {
    hide Less;
    assert forall i :: 0 <= i < |xs| ==> xs[i] in xs;
  }

  lemma {:induction false} LastByName(paths: seq<string>)
    requires forall i :: 0 <= i < |paths| ==> WellNamed(paths[i])
    ensures var last := LastOf(LifecycleNames(paths));
            && (last.None? <==> LastLifecycle(TypesOf(paths)).None?)
            && (last.Some? ==> last.value in paths && LastLifecycle(TypesOf(paths)) == Some(RecordType(last.value)))
  {
    hide HasLifecycleName, WellNamed, RecordType, TypesOf, LifecycleNames, LastLifecycle;
    if paths == [] {
      NoNames(paths);
    } else {
      var n := |paths| - 1;
      var short, last := paths[..n], paths[n];
      assert forall i :: 0 <= i < n ==> short[i] == paths[i];
      LastByName(short);
      WellNamedMeaning(last);
      assert paths == short + [last];
      NamesLast(short, last);
      assert TypesOf(paths) == TypesOf(short) + [RecordType(last)];
      LifecycleLast(TypesOf(short), RecordType(last));
    }
  }

  lemma NoNames(paths: seq<string>)
    requires paths == []
    ensures LifecycleNames(paths) == [] && LastLifecycle(TypesOf(paths)).None?
  {
  }

  lemma NamesLast(paths: seq<string>, last: string)
    ensures LifecycleNames(paths + [last]) == LifecycleNames(paths) + if HasLifecycleName(last) then [last] else []
  {
    hide HasLifecycleName;
    assert (paths + [last])[..|paths|] == paths;
  }

  lemma LastNameIs(paths: set<string>, task: string)
    ensures LastOf(Sorted(set p | p in TaskRecords(paths, task) && HasLifecycleName(p)))
         == LastOf(LifecycleNames(Sorted(TaskRecords(paths, task))))
  {
    hide HasLifecycleName, TaskRecords;
    var records := Sorted(TaskRecords(paths, task));
    LifecycleNamesList(records);
    var names := set p | p in TaskRecords(paths, task) && HasLifecycleName(p);
    ListingUnique(LifecycleNames(records), Sorted(names), names);
  }

  lemma TaskRecordsWellNamed(paths: set<string>, task: string)
    requires AllWellNamed(paths) && '/' !in task
    ensures forall p :: p in TaskRecords(paths, task) ==> WellNamed(p)
  {
    hide WellNamed, IsRecordPath, TasksPrefix;
    forall p | p in TaskRecords(paths, task)
      ensures WellNamed(p)
    {
      TaskOfRecordsPrefix(p, task);
    }
  }

  lemma ClosedByLast(base: Tree, task: string)
    requires AllWellNamed(base.Keys) && '/' !in task
    ensures var last := LastLifecycle(TaskTypes(base.Keys, task));
            && (ClosedAtBase(base, task) <==> last.Some? && last.value != "reopened")
            && TerminalAtBase(base, task)
              == (if last.None? || last.value == "reopened" then None else ProjectedState(last.value))
  {
    hide WellNamed, RecordType, HasLifecycleName, RecordsPrefix, LifecycleNames, LastLifecycle, EndsWith, TypesOf,
      LastOf, ProjectedState;
    var records := Sorted(TaskRecords(base.Keys, task));
    TaskRecordsWellNamed(base.Keys, task);
    assert LifecyclePaths(base, task) == set p | p in TaskRecords(base.Keys, task) && HasLifecycleName(p);
    LastNameIs(base.Keys, task);
    LastByName(records);
    var last := LastOf(Sorted(LifecyclePaths(base, task)));
    if last.Some? {
      assert WellNamed(last.value);
      WellNamedMeaning(last.value);
    }
  }

  /**
   Main result: reading closed-ness off the greatest lifecycle file name agrees with folding every record
   of the task, and so does the terminal state it asks about.
   */
  lemma ClosedAgreesWithFold(base: Tree, task: string)
    requires AllWellNamed(base.Keys) && '/' !in task
    requires ProjectStatus(TaskTypes(base.Keys, task)).Some?
    ensures var state := ProjectStatus(TaskTypes(base.Keys, task)).value;
            && (ClosedAtBase(base, task) <==> IsTerminal(state))
            && (TerminalAtBase(base, task) == if IsTerminal(state) then Some(state) else None)
  {
    hide AllWellNamed, ClosedAtBase, TerminalAtBase, TaskTypes, LastLifecycle;
    ClosedByLast(base, task);
    FoldMeaning(TaskTypes(base.Keys, task));
    if LastLifecycle(TaskTypes(base.Keys, task)).Some? {
      LastLifecycleIn(TaskTypes(base.Keys, task));
    }
  }

  // --- what every run keeps ---

  /** A task is readable: it has no record at all, or its records project. */
  ghost predicate Readable(t: Tree, task: string) {
    TaskRecords(t.Keys, task) == {} || ProjectStatus(TaskTypes(t.Keys, task)).Some?
  }

  ghost predicate Sound(t: Tree) {
    AllWellNamed(t.Keys) && forall task :: '/' !in task ==> Readable(t, task)
  }

  /** The records a merge brings to a task. */
  function AddedTo(m: Merge, task: string): set<string> {
    TaskRecords(m.g.AddedRecords(), task)
  }

  lemma RecordsGrow(m: Merge, base: Tree, out: Tree, task: string)
    requires Passed(m, base, out) && '/' !in task
    ensures TaskRecords(out.Keys, task) == TaskRecords(base.Keys, task) + AddedTo(m, task)
    ensures TaskRecords(base.Keys, task) !! AddedTo(m, task)
    ensures TaskRecords(out.Keys, task) == TaskRecords(base.Keys + m.g.AddedRecords(), task)
  {
    hide IsRecordPath, RecordsPrefix, Passed, Candidate.AddedRecords;
    forall p | StartsWith(p, RecordsPrefix(task))
      ensures p in out <==> p in base || p in m.g.AddedRecords()
      ensures !(p in base && p in m.g.AddedRecords())
    {
      TaskOfRecordsPrefix(p, task);
      RecordPathGrows(m, base, out, p);
    }
    BaseIs(m, base, out);
  }

  lemma BaseIs(m: Merge, base: Tree, out: Tree)
    requires Passed(m, base, out)
    ensures m.g.base == base
  {
  }

  lemma RecordPathGrows(m: Merge, base: Tree, out: Tree, p: string)
    requires Passed(m, base, out) && IsRecordPath(p)
    ensures p in m.g.AddedRecords() <==> p in m.cand && p !in m.mergeBase
    ensures p in out <==> p in base || p in m.g.AddedRecords()
    ensures !(p in base && p in m.g.AddedRecords())
  {
    hide IsRecordPath, Reports, AllPairs, AdmittedRecordsOnly, LifecycleOk, AddedValid, ClosedAtBase;
    PairsMeaning(m.mergeBase, m.cand, m.changes, p);
    AddedRecordsAre(m.g, p);
    RecordIsEvidence(p);
    EvidencePath(m, base, out, p);
  }

  lemma RecordIsEvidence(p: string)
    requires IsRecordPath(p)
    ensures IsEvidence(p)
  {
  }

  lemma AddedRecordsAre(g: Candidate, p: string)
    ensures p in g.AddedRecords() <==> ('A', p) in g.pairs && IsRecordPath(p)
  {
    hide IsRecordPath;
    if ('A', p) in g.pairs && IsRecordPath(p) {
      var x := ('A', p);
      assert x in g.pairs && x.0 == 'A' && IsRecordPath(x.1) && x.1 == p;
    }
  }

  lemma WellNamedKept(m: Merge, base: Tree, out: Tree)
    requires Passed(m, base, out) && AllWellNamed(base.Keys)
    ensures AllWellNamed(out.Keys)
  {
    hide IsRecordPath, WellNamed, Reports, AllPairs, AdmittedRecordsOnly, LifecycleOk, ClosedAtBase,
      Candidate.AddedRecords;
    forall p | p in out && IsRecordPath(p)
      ensures WellNamed(p)
    {
      RecordPathGrows(m, base, out, p);
      if p !in base {
        assert AddedValid(m.g, p);
      }
    }
  }

  lemma ReadableKept(m: Merge, base: Tree, out: Tree, task: string)
    requires Passed(m, base, out) && '/' !in task && Readable(base, task)
    ensures Readable(out, task)
  {
    hide ProjectStatus, RecordsPrefix, ClosedAtBase, AdmittedRecordsOnly, AddedValid, Reports, Candidate.AddedRecords;
    RecordsGrow(m, base, out, task);
    if AddedTo(m, task) == {} {
      assert TaskRecords(out.Keys, task) == TaskRecords(base.Keys, task);
    } else {
      var p :| p in AddedTo(m, task);
      TaskOfRecordsPrefix(p, task);
      assert task in Affected(m.g);
      assert LifecycleOk(m.g, task);
    }
  }

  /** Main result: every task stays readable, and every record well-named, over any merge the gate passed. */
  lemma SoundKept(m: Merge, base: Tree, out: Tree)
    requires Passed(m, base, out) && Sound(base)
    ensures Sound(out)
  {
    hide Readable, AllWellNamed, Passed;
    WellNamedKept(m, base, out);
    forall task | '/' !in task
      ensures Readable(out, task)
    {
      ReadableKept(m, base, out, task);
    }
  }

  /** The target's trees along a run, and the merge between each and the next. */
  ghost predicate IsRun(trees: seq<Tree>, merges: seq<Merge>) {
    && |trees| == |merges| + 1
    && forall i :: 0 <= i < |merges| ==> Passed(merges[i], trees[i], trees[i + 1])
  }

  lemma {:induction false} RunSound(trees: seq<Tree>, merges: seq<Merge>, i: nat)
    requires IsRun(trees, merges) && Sound(trees[0]) && i < |trees|
    ensures Sound(trees[i])
  {
    hide Sound, Passed;
    if i > 0 {
      RunSound(trees, merges, i - 1);
      SoundKept(merges[i - 1], trees[i - 1], trees[i]);
    }
  }

  /** Main result: along any run evidence is only ever added; what one tree holds every later one holds, unchanged. */
  lemma {:induction false} EvidenceForever(trees: seq<Tree>, merges: seq<Merge>, i: nat, j: nat)
    requires IsRun(trees, merges) && i <= j < |trees|
    ensures EvidenceOf(trees[i]).Items <= EvidenceOf(trees[j]).Items
  {
    hide Passed, IsEvidence;
    if i < j {
      EvidenceForever(trees, merges, i, j - 1);
      var m := merges[j - 1];
      EvidenceGrows(m, trees[j - 1], trees[j]);
      UnionItems(EvidenceOf(trees[j - 1]), NewEvidence(m.mergeBase, m.cand));
    }
  }

  lemma UnionItems(a: Tree, b: Tree)
    requires a.Keys !! b.Keys
    ensures a.Items <= (a + b).Items
  {
    forall x | x in a.Items
      ensures x in (a + b).Items
    {
      assert (a + b)[x.0] == x.1;
    }
  }

  // --- terminal states ---

  ghost predicate IsState(t: Tree, task: string, s: State) {
    ProjectStatus(TaskTypes(t.Keys, task)) == Some(s)
  }

  lemma TypesFirst(xs: seq<string>)
    ensures xs == [] ==> multiset(TypesOf(xs)) == multiset{}
    ensures xs != [] ==> multiset(TypesOf(xs)) == multiset{RecordType(xs[0])} + multiset(TypesOf(xs[1..]))
  {
    hide RecordType;
  }

  lemma NoTypes()
    ensures TypeBag({}) == multiset{}
  {
  }

  lemma {:induction false} TypesAsMultiset(xs: seq<string>, s: set<string>)
    requires Lists(xs, s)
    ensures multiset(TypesOf(xs)) == TypeBag(s)
    decreases |xs|
  {
    hide RecordType, Less, TypesOf, TypeBag;
    TypesFirst(xs);
    if xs == [] {
      NoTypes();
      assert s == {};
    } else {
      var x := xs[0];
      TailLists(xs, s);
      TypesAsMultiset(xs[1..], s - {x});
      BagAdd(s - {x}, x);
      assert x in xs;
      assert s - {x} + {x} == s;
    }
  }

  /** The record types of a set of paths, with multiplicity. */
  ghost function TypeBag(s: set<string>): multiset<string> {
    if s == {} then multiset{}
    else
      var x := Least(s);
      multiset{RecordType(x)} + TypeBag(s - {x})
  }

  lemma {:induction false} BagAdd(s: set<string>, x: string)
    requires x !in s
    ensures TypeBag(s + {x}) == TypeBag(s) + multiset{RecordType(x)}
  {
    hide RecordType;
    var y := Least(s + {x});
    if y == x {
      assert s + {x} - {x} == s;
    } else {
      assert s + {x} - {y} == (s - {y}) + {x};
      BagAdd(s - {y}, x);
      BagAdd(s - {y}, y);
      assert s - {y} + {y} == s;
    }
  }

  lemma {:induction false} BagUnion(a: set<string>, b: set<string>)
    requires a !! b
    ensures TypeBag(a + b) == TypeBag(a) + TypeBag(b)
  {
    hide RecordType, TypeBag;
    if b == {} {
      assert a + b == a;
      NoTypes();
    } else {
      var x :| x in b;
      BagUnion(a, b - {x});
      BagAdd(a + (b - {x}), x);
      BagAdd(b - {x}, x);
      assert a + (b - {x}) + {x} == a + b;
      assert b - {x} + {x} == b;
    }
  }

  lemma {:induction false} BagHas(s: set<string>, t: string)
    requires t in TypeBag(s)
    ensures exists p :: p in s && RecordType(p) == t
  {
    hide RecordType;
    if s != {} {
      var x := Least(s);
      if RecordType(x) != t {
        BagHas(s - {x}, t);
        var p :| p in s - {x} && RecordType(p) == t;
        assert p in s;
      }
    }
  }

  lemma TypesGrow(m: Merge, base: Tree, out: Tree, task: string)
    requires Passed(m, base, out) && '/' !in task
    ensures multiset(TaskTypes(out.Keys, task)) == multiset(TaskTypes(base.Keys, task)) + TypeBag(AddedTo(m, task))
  {
    hide Passed, TaskRecords, TypeBag;
    RecordsGrow(m, base, out, task);
    var a, b := TaskRecords(base.Keys, task), AddedTo(m, task);
    TypesAsMultiset(Sorted(a), a);
    TypesAsMultiset(Sorted(a + b), a + b);
    BagUnion(a, b);
  }

  lemma NoRecordsNoState(t: Tree, task: string)
    requires TaskRecords(t.Keys, task) == {}
    ensures ProjectStatus(TaskTypes(t.Keys, task)) == None
  {
  }

  lemma StillReadable(m: Merge, base: Tree, out: Tree, task: string, s: State)
    requires Passed(m, base, out) && '/' !in task && IsState(base, task, s)
    ensures ProjectStatus(TaskTypes(out.Keys, task)).Some?
  {
    hide Passed, TaskRecords, TaskTypes, ProjectStatus;
    ReadableKept(m, base, out, task);
    RecordsGrow(m, base, out, task);
    if TaskRecords(out.Keys, task) == {} {
      NoRecordsNoState(base, task);
    }
  }

  /** Main result: a task abandoned in one tree of a run is abandoned in every later one. */
  lemma {:induction false} AbandonedForever(trees: seq<Tree>, merges: seq<Merge>, i: nat, j: nat, task: string)
    requires IsRun(trees, merges) && i <= j < |trees| && '/' !in task
    requires IsState(trees[i], task, Abandoned)
    ensures IsState(trees[j], task, Abandoned)
  {
    hide Passed, TaskTypes, ProjectStatus;
    if i < j {
      AbandonedForever(trees, merges, i, j - 1, task);
      AbandonedOnce(merges[j - 1], trees[j - 1], trees[j], task);
    }
  }

  lemma AbandonedOnce(m: Merge, base: Tree, out: Tree, task: string)
    requires Passed(m, base, out) && '/' !in task && IsState(base, task, Abandoned)
    ensures IsState(out, task, Abandoned)
  {
    hide Passed, TaskTypes, ProjectStatus;
    TypesGrow(m, base, out, task);
    StillReadable(m, base, out, task, Abandoned);
    AbandonedHasRecord(TaskTypes(base.Keys, task));
    assert "abandoned" in multiset(TaskTypes(out.Keys, task));
    AbandonedIsFinal(TaskTypes(out.Keys, task));
  }

  /** Main result: a merge leaves a completed task open only by adding a reopening to it. */
  lemma DoneReopensOnlyByRecord(m: Merge, base: Tree, out: Tree, task: string)
    requires Passed(m, base, out) && '/' !in task
    requires IsState(base, task, Done) && IsState(out, task, Open)
    ensures exists p :: p in AddedTo(m, task) && RecordType(p) == "reopened"
  {
    hide Passed, TaskTypes, ProjectStatus, AddedTo, RecordType;
    TypesGrow(m, base, out, task);
    ReopensOnlyByReopening(TaskTypes(base.Keys, task), TaskTypes(out.Keys, task), TypeBag(AddedTo(m, task)));
    BagHas(AddedTo(m, task), "reopened");
  }

  /** Main result: a candidate naming a task closed at base changes nothing: it only adds files of that task. */
  lemma ClosedTaskOnlyGrows(m: Merge, base: Tree, out: Tree, p: string)
    requires Passed(m, base, out) && ClosedAtBase(base, m.g.task)
    ensures Differs(m.mergeBase, m.cand, p) ==> p !in m.mergeBase && StartsWith(p, TaskDir(m.g.task))
    ensures p in m.g.AddedRecords() ==>
      TerminalAtBase(base, m.g.task).Some? && AdmittedAfter(RecordType(p), TerminalAtBase(base, m.g.task).value)
  {
    hide Reports, AllPairs, IsRecordPath, RecordType, TasksPrefix, ClosedAtBase, TerminalAtBase, LifecycleOk;
    PairsMeaning(m.mergeBase, m.cand, m.changes, p);
    if Differs(m.mergeBase, m.cand, p) {
      var s :| (s, p) in m.g.pairs;
      assert (s, p).0 == 'A' && StartsWith((s, p).1, TaskDir(m.g.task));
    }
  }
}
