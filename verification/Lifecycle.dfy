/** The record types, the table of what each projects to, and the projection of a task's state from its records. */
module Lifecycle {
  import opened Text

  datatype State = Open | Done | Abandoned

  /** One record type's row: the state it projects to, and the terminal states after which it is admitted. */
  datatype TypeSpec = TypeSpec(projectsTo: Option<State>, admittedAfter: set<State>)

  function SpecOf(recordType: string): Option<TypeSpec> {
    if recordType == "opened" then Some(TypeSpec(Some(Open), {}))
    else if recordType == "completed" then Some(TypeSpec(Some(Done), {}))
    else if recordType == "abandoned" then Some(TypeSpec(Some(Abandoned), {}))
    else if recordType == "reopened" then Some(TypeSpec(Some(Open), {Done}))
    else if recordType == "session" || recordType == "check" then Some(TypeSpec(None, {Done, Abandoned}))
    else if recordType in {"review", "acceptance", "amendment", "finding", "agreement", "acknowledgement", "ext"} then
      Some(TypeSpec(None, {}))
    else None
  }

  predicate IsTerminal(s: State) {
    s.Done? || s.Abandoned?
  }

  predicate AdmittedAfter(recordType: string, terminal: State) {
    SpecOf(recordType).Some? && terminal in SpecOf(recordType).value.admittedAfter
  }

  function ProjectedState(recordType: string): Option<State> {
    match SpecOf(recordType)
    case None => None
    case Some(spec) => spec.projectsTo
  }

  // --- the projection ---

  /** The projection's running values. */
  datatype Fold = Fold(state: Option<State>, begun: bool, terminal: bool)

  const EMPTY := Fold(None, false, false)

  /** One more record, or nothing where the projection refuses it. */
  function Step(f: Fold, recordType: string): Option<Fold> {
    var spec := SpecOf(recordType);
    if spec.None? then None
    else if f.terminal && !(f.state.Some? && AdmittedAfter(recordType, f.state.value)) then None
    else if recordType == "reopened" && !f.terminal then None
    else if recordType == "opened" && f.begun then None
    else
      var projected := spec.value.projectsTo;
      Some(Fold(
             if projected.Some? then projected else f.state,
             f.begun || recordType == "opened",
             (f.terminal && recordType != "reopened") || (projected.Some? && IsTerminal(projected.value))))
  }

  function FoldAll(types: seq<string>): Option<Fold> {
    if types == [] then Some(EMPTY)
    else match FoldAll(types[..|types| - 1])
      case None => None
      case Some(f) => Step(f, types[|types| - 1])
  }

  /** The task's state, or nothing where its records cannot be projected. */
  function ProjectStatus(types: seq<string>): Option<State> {
    match FoldAll(types)
    case None => None
    case Some(f) => if f.begun then f.state else None
  }

  lemma {:induction false} RefusedStaysRefused(types: seq<string>, i: nat)
    requires i <= |types| && FoldAll(types[..i]).None?
    ensures FoldAll(types).None?
    decreases |types| - i
  {
    hide Step;
    if i < |types| {
      assert types[..i + 1][..i] == types[..i];
      RefusedStaysRefused(types, i + 1);
    } else {
      assert types[..i] == types;
    }
  }

  /** The projection as `project_status` runs it: three variables over the records in stored order. */
  method Project(types: seq<string>) returns (state: Option<State>)
    ensures state == ProjectStatus(types)
  {
    state := None;
    var hasOpened := false;
    var hasTerminal := false;
    for i := 0 to |types|
      invariant FoldAll(types[..i]) == Some(Fold(state, hasOpened, hasTerminal))
    {
      hide SpecOf;
      var recordType := types[i];
      assert types[..i + 1][..i] == types[..i];
      if SpecOf(recordType).None? {
        RefusedStaysRefused(types, i + 1);
        return None;
      }
      if hasTerminal && !(state.Some? && AdmittedAfter(recordType, state.value)) {
        RefusedStaysRefused(types, i + 1);
        return None;
      }
      if recordType == "reopened" {
        if !hasTerminal {
          RefusedStaysRefused(types, i + 1);
          return None;
        }
        hasTerminal := false;
      }
      if recordType == "opened" {
        if hasOpened {
          RefusedStaysRefused(types, i + 1);
          return None;
        }
        hasOpened := true;
      }
      var projected := ProjectedState(recordType);
      if projected.Some? && IsTerminal(projected.value) {
        hasTerminal := true;
      }
      if projected.Some? {
        state := projected;
      }
    }
    assert types[..|types|] == types;
    if !hasOpened || state.None? {
      return None;
    }
  }

  // --- what a projected sequence keeps ---

  predicate IsLifecycle(recordType: string) {
    recordType == "completed" || recordType == "abandoned" || recordType == "reopened"
  }

  /** The last record that closes or reopens the task. */
  function LastLifecycle(types: seq<string>): Option<string> {
    if types == [] then None
    else if IsLifecycle(types[|types| - 1]) then Some(types[|types| - 1])
    else LastLifecycle(types[..|types| - 1])
  }

  function Count(types: seq<string>, recordType: string): nat {
    multiset(types)[recordType]
  }

  /** Closings less reopenings: 1 while the task is closed, 0 while it is open. */
  function Balance(types: seq<string>): int {
    Count(types, "completed") + Count(types, "abandoned") - Count(types, "reopened")
  }

  lemma StepMeaning(f: Fold, t: string)
    requires Step(f, t).Some?
    requires f.terminal <==> f.state.Some? && IsTerminal(f.state.value)
    ensures var g := Step(f, t).value;
            && (g.terminal <==> g.state.Some? && IsTerminal(g.state.value))
            && (t == "completed" ==> !f.terminal && g.state == Some(Done))
            && (t == "abandoned" ==> !f.terminal && g.state == Some(Abandoned))
            && (t == "reopened" ==> f.state == Some(Done) && g.state == Some(Open))
            && (!IsLifecycle(t) ==> g.terminal == f.terminal)
            && (!IsLifecycle(t) && f.terminal ==> g.state == f.state)
            && (f.state == Some(Abandoned) ==> g.state == Some(Abandoned))
  {
  }

  lemma BalanceStep(types: seq<string>, t: string)
    ensures Balance(types + [t]) == Balance(types)
         + (if t == "completed" || t == "abandoned" then 1 else if t == "reopened" then -1 else 0)
  {
    assert multiset(types + [t]) == multiset(types) + multiset{t};
  }

  lemma LifecycleLast(types: seq<string>, last: string)
    ensures LastLifecycle(types + [last]) == if IsLifecycle(last) then Some(last) else LastLifecycle(types)
  {
    assert (types + [last])[..|types|] == types;
  }

  lemma FoldLast(types: seq<string>, last: string)
    ensures FoldAll(types + [last]) == match FoldAll(types) case None => None case Some(f) => Step(f, last)
  {
    hide Step;
    assert (types + [last])[..|types|] == types;
  }

  lemma OpenedStep(types: seq<string>, f: Fold, t: string)
    requires Step(f, t).Some? && Count(types, "opened") == (if f.begun then 1 else 0)
    ensures Count(types + [t], "opened") == (if Step(f, t).value.begun then 1 else 0)
  {
    assert multiset(types + [t]) == multiset(types) + multiset{t};
  }

  /** Everything the projection keeps, along any sequence it accepts. */
  lemma {:induction false} FoldMeaning(types: seq<string>)
    requires FoldAll(types).Some?
    ensures var f := FoldAll(types).value;
            && (f.terminal <==> f.state.Some? && IsTerminal(f.state.value))
            && (f.terminal <==> LastLifecycle(types).Some? && LastLifecycle(types).value != "reopened")
            && (f.state == Some(Done) <==> LastLifecycle(types) == Some("completed"))
            && (f.state == Some(Abandoned) <==> LastLifecycle(types) == Some("abandoned"))
            && Balance(types) == (if f.terminal then 1 else 0)
            && Count(types, "opened") == (if f.begun then 1 else 0)
            && ("abandoned" in types ==> f.state == Some(Abandoned))
  {
    hide Step;
    if types == [] {
      assert Balance(types) == 0 && Count(types, "opened") == 0;
    } else {
      hide Balance, Count, LastLifecycle, FoldAll;
      var short, t := types[..|types| - 1], types[|types| - 1];
      assert types == short + [t];
      FoldLast(short, t);
      LifecycleLast(short, t);
      FoldMeaning(short);
      StepMeaning(FoldAll(short).value, t);
      BalanceStep(short, t);
      OpenedStep(short, FoldAll(short).value, t);
    }
  }

  /** Main result: a readable task with an abandonment among its records is abandoned, whatever else it holds. */
  lemma AbandonedIsFinal(types: seq<string>)
    requires ProjectStatus(types).Some? && "abandoned" in types
    ensures ProjectStatus(types) == Some(Abandoned)
  {
    FoldMeaning(types);
  }

  lemma {:induction false} LastLifecycleIn(types: seq<string>)
    requires LastLifecycle(types).Some?
    ensures LastLifecycle(types).value in types && IsLifecycle(LastLifecycle(types).value)
  {
    if !IsLifecycle(types[|types| - 1]) {
      LastLifecycleIn(types[..|types| - 1]);
    }
  }

  /** An abandoned task has an abandonment among its records. */
  lemma AbandonedHasRecord(types: seq<string>)
    requires ProjectStatus(types) == Some(Abandoned)
    ensures "abandoned" in types
  {
    FoldMeaning(types);
    LastLifecycleIn(types);
  }

  /**
   Main result: records merged into a completed task, in any order, leave it open only if one of the
   added ones is a reopening.
   */
  lemma ReopensOnlyByReopening(before: seq<string>, after: seq<string>, added: multiset<string>)
    requires ProjectStatus(before) == Some(Done) && ProjectStatus(after) == Some(Open)
    requires multiset(after) == multiset(before) + added
    ensures "reopened" in added
  {
    FoldMeaning(before);
    FoldMeaning(after);
  }

  // --- the table, type by type ---

  /** What may follow an open task's records, and what comes of it. */
  lemma AfterOpen(types: seq<string>, t: string)
    requires ProjectStatus(types) == Some(Open)
    ensures ProjectStatus(types + [t])
      == if t == "completed" then Some(Done)
         else if t == "abandoned" then Some(Abandoned)
         else if t in {"review", "acceptance", "amendment", "finding", "agreement", "acknowledgement", "ext", "session",
                       "check"} then Some(Open)
         else None
  {
    hide Step, FoldAll;
    FoldMeaning(types);
    FoldLast(types, t);
    OpenStep(FoldAll(types).value, t);
  }

  lemma OpenStep(f: Fold, t: string)
    requires f == Fold(Some(Open), true, false)
    ensures Step(f, t)
      == if t == "completed" then Some(Fold(Some(Done), true, true))
         else if t == "abandoned" then Some(Fold(Some(Abandoned), true, true))
         else if t in {"review", "acceptance", "amendment", "finding", "agreement", "acknowledgement", "ext", "session",
                       "check"} then Some(f)
         else None
  {
  }

  /** What may follow a closing: a session or a check, and a reopening where the task was completed; nothing else. */
  lemma AfterClosing(types: seq<string>, t: string)
    requires ProjectStatus(types) == Some(Done) || ProjectStatus(types) == Some(Abandoned)
    ensures ProjectStatus(types + [t])
      == if t == "session" || t == "check" then ProjectStatus(types)
         else if t == "reopened" && ProjectStatus(types) == Some(Done) then Some(Open)
         else None
  {
    hide Step, FoldAll;
    FoldMeaning(types);
    FoldLast(types, t);
    ClosedStep(FoldAll(types).value, t);
  }

  lemma ClosedStep(f: Fold, t: string)
    requires f.begun && f.terminal && (f.state == Some(Done) || f.state == Some(Abandoned))
    ensures Step(f, t)
      == if t == "session" || t == "check" then Some(f)
         else if t == "reopened" && f.state == Some(Done) then Some(Fold(Some(Open), true, false))
         else None
  {
  }

  /** A task begins with its opening, and is open then. */
  lemma Begins(t: string)
    ensures ProjectStatus([t]) == if t == "opened" then Some(Open) else None
    ensures ProjectStatus([]) == None
  {
    hide Step;
    FoldLast([], t);
    assert [] + [t] == [t];
    FirstStep(t);
  }

  lemma FirstStep(t: string)
    ensures t == "opened" ==> Step(EMPTY, t) == Some(Fold(Some(Open), true, false))
    ensures t != "opened" && Step(EMPTY, t).Some? ==> !Step(EMPTY, t).value.begun
  {
  }

  /** What a closed task still takes. */
  lemma AdmittedIs(t: string, terminal: State)
    ensures AdmittedAfter(t, terminal) <==>
      !terminal.Open? && (t == "session" || t == "check" || (t == "reopened" && terminal == Done))
  {
  }
}
