/**
 The merge gate over the journal: the change list it reads, its append-only, collision and lifecycle checks,
 and what a merge it passed does to the target's tree.
 */
module Gate {
  import opened Text
  import opened Order
  import opened JournalPaths
  import opened Lifecycle
  import NameStatus

  /** A tree: each path's blob. */
  type Tree = map<string, string>

  type Changes = seq<NameStatus.Change<char>>

  /** A letter and a path, renames taken apart. */
  type Pair = (char, string)

  // --- the change list ---

  predicate IsPair(c: char) {
    c == 'R' || c == 'C'
  }

  predicate Differs(a: Tree, b: Tree, p: string) {
    (p in a) != (p in b) || (p in a && a[p] != b[p])
  }

  predicate EntryTrue(a: Tree, b: Tree, c: NameStatus.Change<char>) {
    match c
    case One(status, p) =>
      && status != [] && !IsPair(status[0]) && p != "" && Differs(a, b, p)
      && (status[0] == 'A' <==> p !in a) && (status[0] == 'D' <==> p !in b)
    case Two(status, source, dest) =>
      && status != [] && IsPair(status[0]) && source != "" && dest != ""
      && source in a && dest !in a && dest in b && (status[0] == 'R' ==> source !in b)
  }

  /** The path or paths an entry accounts for: a copy's source did not change. */
  function Accounts(c: NameStatus.Change<char>): set<string> {
    match c
    case One(_, p) => {p}
    case Two(status, source, dest) => if status != [] && status[0] == 'R' then {source, dest} else {dest}
  }

  /** Any true report of the difference, whatever deletions and additions git pairs as renames or copies. */
  ghost predicate Reports(a: Tree, b: Tree, changes: Changes) {
    && (forall i :: 0 <= i < |changes| ==> EntryTrue(a, b, changes[i]))
    && (forall p :: Differs(a, b, p) ==> exists i :: 0 <= i < |changes| && p in Accounts(changes[i]))
  }

  /** A rename is a deletion and an addition, a copy only the addition. */
  function PairsOf(c: NameStatus.Change<char>): seq<Pair> {
    match c
    case One(status, p) => if status == [] then [] else [(status[0], p)]
    case Two(status, source, dest) =>
      (if status != [] && status[0] == 'R' then [('D', source)] else []) + [('A', dest)]
  }

  function AllPairs(changes: Changes): seq<Pair> {
    if changes == [] then [] else AllPairs(changes[..|changes| - 1]) + PairsOf(changes[|changes| - 1])
  }

  /** Read the token list; nothing where it stops inside an entry. */
  method ChangedWithStatus(tokens: seq<string>) returns (pairs: Option<seq<Pair>>)
    requires forall i :: 0 <= i < |tokens| ==> tokens[i] != []
    ensures pairs == match NameStatus.Read(tokens, IsPair) case None => None case Some(changes) =>
      Some(AllPairs(changes))
  {
    hide IsPair, PairsOf, NameStatus.Read;
    var read := NameStatus.Walk(tokens, IsPair);
    if read.None? {
      return None;
    }
    var changes := read.value;
    var out: seq<Pair> := [];
    for i := 0 to |changes|
      invariant out == AllPairs(changes[..i])
    {
      assert changes[..i + 1][..i] == changes[..i];
      out := out + PairsOf(changes[i]);
    }
    assert changes[..|changes|] == changes;
    return Some(out);
  }

  /** Two-path entries are those of a status opening with `R` or `C`: any such list is read back from its tokens. */
  lemma TokensRead(changes: Changes)
    requires forall i :: 0 <= i < |changes| ==>
      changes[i].status != [] && (changes[i].Two? <==> changes[i].status[0] == 'R' || changes[i].status[0] == 'C')
    requires forall i :: 0 <= i < |NameStatus.Tokens(changes)| ==> NameStatus.Tokens(changes)[i] != []
    ensures NameStatus.Read(NameStatus.Tokens(changes), IsPair) == Some(changes)
  {
    NameStatus.ReadOfTokens(changes, IsPair);
  }

  lemma {:induction false} PairFrom(changes: Changes, x: Pair)
    requires x in AllPairs(changes)
    ensures exists i :: 0 <= i < |changes| && x in PairsOf(changes[i])
  {
    var n := |changes| - 1;
    if x in PairsOf(changes[n]) {
    } else {
      PairFrom(changes[..n], x);
      var i :| 0 <= i < n && x in PairsOf(changes[..n][i]);
      assert changes[..n][i] == changes[i];
    }
  }

  lemma {:induction false} PairIn(changes: Changes, i: nat, x: Pair)
    requires i < |changes| && x in PairsOf(changes[i])
    ensures x in AllPairs(changes)
  {
    if i < |changes| - 1 {
      PairIn(changes[..|changes| - 1], i, x);
    }
  }

  lemma PairIsTrue(a: Tree, b: Tree, changes: Changes, x: Pair)
    requires Reports(a, b, changes) && x in AllPairs(changes)
    ensures Differs(a, b, x.1) && (x.0 == 'A' <==> x.1 !in a) && (x.0 == 'D' <==> x.1 !in b)
  {
    hide IsPair, AllPairs;
    PairFrom(changes, x);
    var i :| 0 <= i < |changes| && x in PairsOf(changes[i]);
    assert EntryTrue(a, b, changes[i]);
  }

  lemma DifferenceIsPaired(a: Tree, b: Tree, changes: Changes, p: string)
    requires Reports(a, b, changes) && Differs(a, b, p)
    ensures exists s :: (s, p) in AllPairs(changes)
  {
    hide IsPair, AllPairs;
    var i :| 0 <= i < |changes| && p in Accounts(changes[i]);
    assert EntryTrue(a, b, changes[i]);
    var c := changes[i];
    var s := if c.One? then c.status[0] else if p == c.dest then 'A' else 'D';
    assert (s, p) in PairsOf(c);
    PairIn(changes, i, (s, p));
  }

  /** A true report's pairs say exactly what became of each path, however renames were paired. */
  lemma PairsMeaning(a: Tree, b: Tree, changes: Changes, p: string)
    requires Reports(a, b, changes)
    ensures ('A', p) in AllPairs(changes) <==> p !in a && p in b
    ensures ('D', p) in AllPairs(changes) <==> p in a && p !in b
    ensures (exists s :: (s, p) in AllPairs(changes)) <==> Differs(a, b, p)
  {
    hide Reports, AllPairs;
    forall s | (s, p) in AllPairs(changes)
      ensures Differs(a, b, p) && (s == 'A' <==> p !in a) && (s == 'D' <==> p !in b)
    {
      PairIsTrue(a, b, changes, (s, p));
    }
    if Differs(a, b, p) {
      DifferenceIsPaired(a, b, changes, p);
    }
  }

  // --- the checks ---

  /** A candidate: the task it names, the trees, the reported pairs and the checks that are not modelled here. */
  datatype Candidate = Candidate(
    task: string,
    base: Tree,
    pairs: seq<Pair>,
    validTask: string -> Option<string>,  // the task a valid added record's content names
    otherChecks: bool)
  {
    function AddedRecords(): set<string> {
      set x | x in pairs && x.0 == 'A' && IsRecordPath(x.1) :: x.1
    }
  }

  function Tampered(pairs: seq<Pair>): set<string> {
    set x | x in pairs && x.0 != 'A' && IsEvidence(x.1) :: x.1
  }

  function Colliding(pairs: seq<Pair>, base: Tree): set<string> {
    set x | x in pairs && x.0 == 'A' && IsEvidence(x.1) && x.1 in base :: x.1
  }

  predicate AddedValid(g: Candidate, path: string) {
    WellNamed(path) && g.validTask(path) == RecordPathTask(path)
  }

  function LifecyclePaths(base: Tree, task: string): set<string> {
    set p | p in base && StartsWith(p, RecordsPrefix(task)) && HasLifecycleName(p)
  }

  /** The last of a listing, which is the greatest name. */
  function LastOf(xs: seq<string>): Option<string> {
    if xs == [] then None else Some(xs[|xs| - 1])
  }

  /** Closed is read off the greatest lifecycle name alone; no record is opened. */
  ghost predicate ClosedAtBase(base: Tree, task: string) {
    var last := LastOf(Sorted(LifecyclePaths(base, task)));
    last.Some? && !EndsWith(last.value, "-reopened.json")
  }

  ghost function TerminalAtBase(base: Tree, task: string): Option<State> {
    var last := LastOf(Sorted(LifecyclePaths(base, task)));
    if last.None? || EndsWith(last.value, "-reopened.json") then None else ProjectedState(RecordType(last.value))
  }

  predicate AllAdmitted(paths: set<string>, terminal: State) {
    forall p :: p in paths ==> AdmittedAfter(RecordType(p), terminal)
  }

  /** The judged task's own rule: additions in its subtree, and only records its terminal state admits. */
  ghost predicate AdmittedRecordsOnly(g: Candidate) {
    && g.AddedRecords() != {}
    && (forall x :: x in g.pairs ==> x.0 == 'A' && StartsWith(x.1, TaskDir(g.task)))
    && TerminalAtBase(g.base, g.task).Some?
    && (forall p :: p in g.AddedRecords() ==> StartsWith(p, RecordsPrefix(g.task)))
    && AllAdmitted(g.AddedRecords(), TerminalAtBase(g.base, g.task).value)
  }

  function TaskRecords(paths: set<string>, task: string): set<string> {
    set p | p in paths && StartsWith(p, RecordsPrefix(task))
  }

  function TypesOf(paths: seq<string>): (types: seq<string>)
    ensures |types| == |paths| && forall i :: 0 <= i < |paths| ==> types[i] == RecordType(paths[i])
  {
    if paths == [] then [] else [RecordType(paths[0])] + TypesOf(paths[1..])
  }

  /** The record types of a task in stored order. */
  ghost function TaskTypes(paths: set<string>, task: string): seq<string> {
    TypesOf(Sorted(TaskRecords(paths, task)))
  }

  /** The aggregate check of one task the candidate adds records to. */
  ghost predicate LifecycleOk(g: Candidate, affected: string) {
    && ProjectStatus(TaskTypes(g.base.Keys + g.AddedRecords(), affected)).Some?
    && (affected == g.task || !ClosedAtBase(g.base, affected) || OthersAdmitted(g, affected))
  }

  ghost predicate OthersAdmitted(g: Candidate, affected: string) {
    var terminal := TerminalAtBase(g.base, affected);
    && terminal.Some?
    && (forall x :: x in g.pairs && StartsWith(x.1, TaskDir(affected)) ==> x.0 == 'A')
    && AllAdmitted(TaskRecords(g.AddedRecords(), affected), terminal.value)
  }

  function Affected(g: Candidate): set<string> {
    set p | p in g.AddedRecords() :: TaskSegment(p)
  }

  /** The gate passes: every check it makes of the journal holds, and so do the rest. */
  ghost predicate Passes(g: Candidate) {
    && g.pairs != []
    && (ClosedAtBase(g.base, g.task) ==> AdmittedRecordsOnly(g))
    && Tampered(g.pairs) == {}
    && (forall p :: p in g.AddedRecords() ==> AddedValid(g, p))
    && Colliding(g.pairs, g.base) == {}
    && (forall t :: t in Affected(g) ==> LifecycleOk(g, t))
    && g.otherChecks
  }

  // --- the gate as it runs ---

  method LastLifecyclePath(base: Tree, task: string) returns (last: Option<string>)
    ensures last == LastOf(Sorted(LifecyclePaths(base, task)))
  {
    var sorted := Sort(LifecyclePaths(base, task));
    last := LastOf(sorted);
  }

  method JudgeClosed(base: Tree, task: string) returns (closed: bool, terminal: Option<State>)
    ensures closed <==> ClosedAtBase(base, task)
    ensures terminal == TerminalAtBase(base, task)
  {
    var last := LastLifecyclePath(base, task);
    closed := last.Some? && !EndsWith(last.value, "-reopened.json");
    terminal := if closed then ProjectedState(RecordType(last.value)) else None;
  }

  /** One affected task: its merged projection, then its own closed-at-base admission. */
  method JudgeLifecycle(g: Candidate, affected: string) returns (ok: bool)
    ensures ok <==> LifecycleOk(g, affected)
  {
    hide ProjectStatus, TasksPrefix, LifecyclePaths, RecordType, Candidate.AddedRecords;
    var merged := Sort(TaskRecords(g.base.Keys + g.AddedRecords(), affected));
    var state := Project(TypesOf(merged));
    if state.None? {
      return false;
    }
    if affected == g.task {
      return true;
    }
    var closed, terminal := JudgeClosed(g.base, affected);
    if !closed {
      return true;
    }
    ok := terminal.Some?
          && (forall x :: x in g.pairs && StartsWith(x.1, TaskDir(affected)) ==> x.0 == 'A')
          && AllAdmitted(TaskRecords(g.AddedRecords(), affected), terminal.value);
  }

  /** Every check in turn, counting violations. */
  method RunGate(g: Candidate) returns (passed: bool)
    ensures passed <==> Passes(g)
  {
    hide ClosedAtBase, TerminalAtBase, LifecycleOk, AddedValid, AllAdmitted, Tampered, Colliding, Affected,
      Candidate.AddedRecords, TasksPrefix;
    if g.pairs == [] {
      return false;
    }
    var violations := 0;
    var addedRecords := g.AddedRecords();
    var closed, terminal := JudgeClosed(g.base, g.task);
    var admitted := addedRecords != {}
                    && (forall x :: x in g.pairs ==> x.0 == 'A' && StartsWith(x.1, TaskDir(g.task)))
                    && terminal.Some?
                    && (forall p :: p in addedRecords ==> StartsWith(p, RecordsPrefix(g.task)))
                    && AllAdmitted(addedRecords, terminal.value);
    if closed && !admitted {
      violations := violations + 1;
    }
    if Tampered(g.pairs) != {} {
      violations := violations + 1;
    }
    var left := addedRecords;
    var invalid: set<string> := {};
    while left != {}
      invariant left <= addedRecords
      invariant invalid == {} <==> forall p :: p in addedRecords - left ==> AddedValid(g, p)
      decreases left
    {
      var p :| p in left;
      if !AddedValid(g, p) {
        invalid := invalid + {p};
      }
      left := left - {p};
    }
    if invalid != {} {
      violations := violations + 1;
    }
    if Colliding(g.pairs, g.base) != {} {
      violations := violations + 1;
    }
    var tasks := Affected(g);
    var refusals := 0;
    while tasks != {}
      invariant tasks <= Affected(g)
      invariant refusals >= 0
      invariant refusals == 0 <==> forall t :: t in Affected(g) - tasks ==> LifecycleOk(g, t)
      decreases tasks
    {
      var t :| t in tasks;
      var ok := JudgeLifecycle(g, t);
      if !ok {
        refusals := refusals + 1;
      }
      tasks := tasks - {t};
    }
    violations := violations + refusals;
    if !g.otherChecks {
      violations := violations + 1;
    }
    passed := violations == 0;
  }

  // --- one merge ---

  lemma OnlyAdditions(pairs: seq<Pair>, p: string)
    requires Tampered(pairs) == {} && IsEvidence(p)
    ensures forall s :: (s, p) in pairs ==> s == 'A'
  {
    hide IsEvidence;
    forall s | (s, p) in pairs
      ensures s == 'A'
    {
      assert (s, p).0 != 'A' ==> p in Tampered(pairs);
    }
  }

  /** Main result: nothing is reported tampered exactly when every piece of evidence survives unchanged. */
  lemma TamperedIffEvidenceChanged(mergeBase: Tree, cand: Tree, changes: Changes)
    requires Reports(mergeBase, cand, changes)
    ensures Tampered(AllPairs(changes)) == {}
       <==> forall p :: p in mergeBase && IsEvidence(p) ==> p in cand && cand[p] == mergeBase[p]
  {
    hide Reports, AllPairs, IsEvidence;
    var pairs := AllPairs(changes);
    if Tampered(pairs) == {} {
      forall p | p in mergeBase && IsEvidence(p)
        ensures !Differs(mergeBase, cand, p)
      {
        OnlyAdditions(pairs, p);
        PairsMeaning(mergeBase, cand, changes, p);
      }
    } else {
      var p :| p in Tampered(pairs);
      var x :| x in pairs && x.0 != 'A' && IsEvidence(x.1) && x.1 == p;
      PairIsTrue(mergeBase, cand, changes, x);
    }
  }

  /** Git's three-way merge; where both sides changed a path differently the outcome is anybody's. */
  ghost predicate Merges(mergeBase: Tree, base: Tree, cand: Tree, out: Tree) {
    forall p ::
      && (!Differs(mergeBase, cand, p) ==> !Differs(base, out, p))
      && (Differs(mergeBase, cand, p) && !Differs(mergeBase, base, p) ==> !Differs(cand, out, p))
      && (!Differs(base, cand, p) ==> !Differs(base, out, p))
  }

  function EvidenceOf(t: Tree): Tree {
    map p | p in t && IsEvidence(p) :: t[p]
  }

  /** What a merge brings: the candidate's evidence its merge base lacks. */
  function NewEvidence(mergeBase: Tree, cand: Tree): Tree {
    map p | p in cand && p !in mergeBase && IsEvidence(p) :: cand[p]
  }

  /** A merge the gate passed: the candidate against a merge base, onto the target's tip. */
  datatype Merge = Merge(g: Candidate, mergeBase: Tree, cand: Tree, changes: Changes)

  ghost predicate Passed(m: Merge, base: Tree, out: Tree) {
    && Reports(m.mergeBase, m.cand, m.changes) && m.g.pairs == AllPairs(m.changes)
    && m.g.base == base && Passes(m.g) && Merges(m.mergeBase, base, m.cand, out)
  }

  /** Main result: a passed merge only adds evidence, by a disjoint union. */
  lemma EvidenceGrows(m: Merge, base: Tree, out: Tree)
    requires Passed(m, base, out)
    ensures EvidenceOf(out) == EvidenceOf(base) + NewEvidence(m.mergeBase, m.cand)
    ensures EvidenceOf(base).Keys !! NewEvidence(m.mergeBase, m.cand).Keys
  {
    hide IsEvidence, Reports, AllPairs, AdmittedRecordsOnly, LifecycleOk, AddedValid, ClosedAtBase;
    TamperedIffEvidenceChanged(m.mergeBase, m.cand, m.changes);
    forall p | IsEvidence(p)
      ensures p in m.cand && p !in m.mergeBase ==> p !in base && p in out && out[p] == m.cand[p]
      ensures !(p in m.cand && p !in m.mergeBase) ==> !Differs(base, out, p)
    {
      EvidencePath(m, base, out, p);
    }
  }

  lemma EvidencePath(m: Merge, base: Tree, out: Tree, p: string)
    requires Passed(m, base, out) && IsEvidence(p)
    ensures p in m.cand && p !in m.mergeBase ==> p !in base && p in out && out[p] == m.cand[p]
    ensures !(p in m.cand && p !in m.mergeBase) ==> !Differs(base, out, p)
  {
    hide IsEvidence, Reports, AllPairs, AdmittedRecordsOnly, LifecycleOk, AddedValid, ClosedAtBase;
    TamperedIffEvidenceChanged(m.mergeBase, m.cand, m.changes);
    if p in m.cand && p !in m.mergeBase {
      PairsMeaning(m.mergeBase, m.cand, m.changes, p);
      var x := ('A', p);
      assert x in m.g.pairs;
      assert x.1 !in Colliding(m.g.pairs, base);
      assert Differs(m.mergeBase, m.cand, p) && !Differs(m.mergeBase, base, p);
    } else {
      assert !Differs(m.mergeBase, m.cand, p);
    }
  }
}
