/**
 The switches file as its readers judge it: the fail-closed parse, the verification every off rewrite passes before it
 is written, and the merge gate's operational-lane comparison of the base's file and the candidate's.
 */
module Switches {
  import opened Text
  import opened TomlValues
  import JournalPaths

  datatype Switch = Switch(off: bool, task: string, reason: Option<string>)

  const REASON_CHAR_LIMIT := 1000

  /** A reason the parser takes: not empty, not over the limit, holding no character that `forges` names. */
  predicate ReasonOk(reason: string, forges: char -> bool) {
    reason != "" && |reason| <= REASON_CHAR_LIMIT && forall i :: 0 <= i < |reason| ==> !forges(reason[i])
  }

  /** One entry read fail-closed: a reason goes with `off` and only with `off`. */
  function ReadEntry(entry: Value, forges: char -> bool): Option<Switch> {
    if !entry.Table? then None
    else
      match (Get(entry, "state"), Get(entry, "task"))
      case (Some(Str(state)), Some(Str(task))) =>
        if (state != "on" && state != "off") || !JournalPaths.IsTaskId(task) then None
        else
          (match Get(entry, "reason")
           case None => if state == "on" then Some(Switch(false, task, None)) else None
           case Some(Str(reason)) =>
             if state == "off" && ReasonOk(reason, forges) then Some(Switch(true, task, Some(reason))) else None
           case Some(_) => None)
      case _ => None
  }

  predicate Lacks(table: Value, key: string) {
    table.Table? && key !in table.entries
  }

  /**
   An entry is read, and as this switch, exactly when it is a table whose state is the switch's, whose task is `CR-` and
   digits, and which carries a reason, not empty, of at most 1000 characters and forging nothing, if it is off, and none
   if it is on.
   */
  lemma EntryExactly(entry: Value, forges: char -> bool, s: Switch)
    ensures ReadEntry(entry, forges) == Some(s) <==>
      && Holds(entry, "state", Str(if s.off then "off" else "on")) && Holds(entry, "task", Str(s.task))
      && |s.task| > 3 && s.task[..3] == "CR-" && (forall i :: 3 <= i < |s.task| ==> '0' <= s.task[i] <= '9')
      && (if s.off then
            && s.reason.Some? && Holds(entry, "reason", Str(s.reason.value))
            && 0 < |s.reason.value| <= 1000 && forall i :: 0 <= i < |s.reason.value| ==> !forges(s.reason.value[i])
          else s.reason.None? && Lacks(entry, "reason"))
  {
    hide ReasonOk, JournalPaths.IsTaskId;
    KeysDiffer();
    EntryTask(s.task);
    if s.reason.Some? {
      ReasonExactly(s.reason.value, forges);
    }
  }

  lemma EntryTask(task: string)
    ensures JournalPaths.IsTaskId(task) <==>
      |task| > 3 && task[..3] == "CR-" && forall i :: 3 <= i < |task| ==> '0' <= task[i] <= '9'
  {
  }

  lemma ReasonExactly(reason: string, forges: char -> bool)
    ensures ReasonOk(reason, forges) <==>
      0 < |reason| <= 1000 && forall i :: 0 <= i < |reason| ==> !forges(reason[i])
  {
  }

  /**
   A file is read exactly when its format is the integer 1 and its switches a table of known names, each entry read.
   */
  lemma ReadableExactly(root: Value, names: set<string>, forges: char -> bool)
    ensures Readable(root, names, forges) <==>
      && Holds(root, "format", Scalar("int", "1")) && root.Table? && "switches" in root.entries
      && root.entries["switches"].Table?
      && forall n :: n in root.entries["switches"].entries ==>
           n in names && ReadEntry(root.entries["switches"].entries[n], forges).Some?
  {
    hide ReadEntry;
  }

  predicate Readable(root: Value, names: set<string>, forges: char -> bool) {
    && Get(root, "format") == Some(Scalar("int", "1"))
    && (match Get(root, "switches")
        case Some(Table(entries)) => forall n :: n in entries ==> n in names && ReadEntry(entries[n], forges).Some?
        case _ => false)
  }

  function Entries(root: Value): map<string, Value> {
    match Get(root, "switches")
    case Some(Table(entries)) => entries
    case _ => map[]
  }

  /** `parse_switches` on the parsed document: every entry read, or nothing. */
  method ParseSwitches(root: Value, names: set<string>, forges: char -> bool) returns (r: Option<map<string, Switch>>)
    ensures r.Some? <==> Readable(root, names, forges)
    ensures r.Some? ==> r.value.Keys == Entries(root).Keys
    ensures r.Some? ==> forall n :: n in r.value ==> ReadEntry(Entries(root)[n], forges) == Some(r.value[n])
  {
    hide ReadEntry;
    if Get(root, "format") != Some(Scalar("int", "1")) {
      return None;
    }
    var table := Get(root, "switches");
    if table.None? || !table.value.Table? {
      return None;
    }
    var entries := table.value.entries;
    var switches: map<string, Switch> := map[];
    var left := entries.Keys;
    while left != {}
      invariant left <= entries.Keys && switches.Keys == entries.Keys - left
      invariant forall n :: n in switches ==> n in names && ReadEntry(entries[n], forges) == Some(switches[n])
      decreases left
    {
      var name :| name in left;
      if name !in names {
        return None;
      }
      var entry := ReadEntry(entries[name], forges);
      if entry.None? {
        return None;
      }
      switches := switches[name := entry.value];
      left := left - {name};
    }
    return Some(switches);
  }

  // --- the verification of a rewrite ---

  /** What a missing file counts as. */
  function NoFile(): Value {
    Table(map["format" := Scalar("int", "1")])
  }

  function OffEntry(was: map<string, Value>, task: string, reason: string): map<string, Value> {
    was["state" := Str("off")]["task" := Str(task)]["reason" := Str(reason)]
  }

  function EntryTableOf(root: Value, name: string): map<string, Value> {
    if name in Entries(root) && Entries(root)[name].Table? then Entries(root)[name].entries else map[]
  }

  /** The old document with the one entry off, every key it carried kept. */
  function Expected(root: Value, name: string, task: string, reason: string): Value
    requires root.Table?
  {
    Table(root.entries["switches" :=
      Table(Entries(root)[name := Table(OffEntry(EntryTableOf(root, name), task, reason))])])
  }

  /** `_verify_rewrite` on parsed documents: the new one equals the old but for the entry, and reads back as off. */
  predicate Verified(now: Option<Value>, was: Value, name: string, task: string, reason: string, names: set<string>,
                     forges: char -> bool)
    requires was.Table?
  {
    && now.Some? && ValuesEqual(now.value, Expected(was, name, task, reason))
    && Readable(now.value, names, forges)
    && name in Entries(now.value)
      && ReadEntry(Entries(now.value)[name], forges) == Some(Switch(true, task, Some(reason)))
  }

  /**
   The verification passes exactly on the expected document, where the entry's own fields are ones the parser takes.
   */
  lemma VerifiedIs(now: Option<Value>, was: Value, name: string, task: string, reason: string, names: set<string>,
                   forges: char -> bool)
    requires was.Table? && name in names && JournalPaths.IsTaskId(task) && ReasonOk(reason, forges)
    requires Readable(was, names, forges) || was == NoFile()
    ensures Verified(now, was, name, task, reason, names, forges) <==> now == Some(Expected(was, name, task, reason))
  {
    hide ReasonOk, JournalPaths.IsTaskId, ReadEntry;
    VerifiedExactly(now, was, name, task, reason, names, forges);
    if was == NoFile() {
      KeysDiffer();
    }
  }

  /**
   Whatever the file held: the verification passes exactly on the expected document, for a task and a reason that can be
   recorded, where the format and every other entry are ones the parser takes.
   */
  lemma VerifiedExactly(now: Option<Value>, was: Value, name: string, task: string, reason: string, names: set<string>,
                        forges: char -> bool)
    requires was.Table?
    ensures Verified(now, was, name, task, reason, names, forges) <==>
      && now == Some(Expected(was, name, task, reason)) && Holds(was, "format", Scalar("int", "1"))
      && name in names && JournalPaths.IsTaskId(task) && ReasonOk(reason, forges)
      && forall n :: n in Entries(was) && n != name ==> n in names && ReadEntry(Entries(was)[n], forges).Some?
  {
    hide ReasonOk, JournalPaths.IsTaskId;
    var e := Expected(was, name, task, reason);
    if now.Some? {
      EqualIsIdentity(now.value, e);
    }
    KeysDiffer();
    var own := Table(OffEntry(EntryTableOf(was, name), task, reason));
    assert ReadEntry(own, forges) == Some(Switch(true, task, Some(reason))) <==>
      JournalPaths.IsTaskId(task) && ReasonOk(reason, forges);
    assert Entries(e) == Entries(was)[name := own];
    hide ReadEntry, OffEntry;
    assert Get(e, "format") == Get(was, "format");
    assert Readable(e, names, forges) <==>
      && Get(e, "format") == Some(Scalar("int", "1"))
      && forall n :: n in Entries(e) ==> n in names && ReadEntry(Entries(e)[n], forges).Some?;
    assert Entries(e)[name] == own;
    assert forall n :: n in Entries(was) && n != name ==> n in Entries(e) && Entries(e)[n] == Entries(was)[n];
  }

  lemma KeysDiffer()
    ensures "switches" != "format" && "state" != "task" && "task" != "reason" && "state" != "reason" && "on" != "off"
  {
    assert |"switches"| == 8 && |"format"| == 6 && |"state"| == 5 && |"task"| == 4 && |"reason"| == 6 && |"on"| == 2
      && |"off"| == 3;
  }

  // --- the operational lane ---

  ghost function CanonicalOf(v: Option<Value>): Option<Canon> {
    match v case None => None case Some(value) => Some(Canonical(value))
  }

  /** The top-level keys outside `switches` that are not the same on both sides. */
  ghost function TopChanged(base: Value, candidate: Value): set<string>
    requires base.Table? && candidate.Table?
  {
    set k | k in base.entries.Keys + candidate.entries.Keys && k != "switches"
      && CanonicalOf(Get(base, k)) != CanonicalOf(Get(candidate, k))
  }

  function Removed(base: Value, candidate: Value): set<string> {
    Entries(base).Keys - Entries(candidate).Keys
  }

  /** The entries added or changed that name another task. */
  ghost function Misnamed(base: Value, candidate: Value, task: string): set<string> {
    set n | n in Entries(candidate)
      && CanonicalOf(if n in Entries(base) then Some(Entries(base)[n]) else None)
        != CanonicalOf(Some(Entries(candidate)[n]))
      && Get(Entries(candidate)[n], "task") != Some(Str(task))
  }

  ghost predicate LanePasses(base: Value, candidate: Value, task: string)
    requires base.Table? && candidate.Table?
  {
    TopChanged(base, candidate) == {} && Removed(base, candidate) == {} && Misnamed(base, candidate, task) == {}
  }

  lemma CanonicalOfAgrees(a: Option<Value>, b: Option<Value>)
    ensures CanonicalOf(a) == CanonicalOf(b) <==> a == b
  {
    hide Canonical;
    if a.Some? && b.Some? {
      EqualitiesAgree(a.value, b.value);
      EqualIsIdentity(a.value, b.value);
    }
  }

  /**
   What the lane admits, in full: every key outside the entries is as the base has it, no entry is gone, and an entry
   that is new or differs names this task.
   */
  lemma LaneMeaning(base: Value, candidate: Value, task: string)
    requires base.Table? && candidate.Table?
    ensures LanePasses(base, candidate, task) <==>
      && (forall k :: k != "switches" ==> Get(base, k) == Get(candidate, k))
      && Entries(base).Keys <= Entries(candidate).Keys
      && (forall n :: n in Entries(candidate) ==>
            (n in Entries(base) && Entries(base)[n] == Entries(candidate)[n])
              || Get(Entries(candidate)[n], "task") == Some(Str(task)))
  {
    hide CanonicalOf, Entries;
    forall k
      ensures k in TopChanged(base, candidate) <==> k != "switches" && Get(base, k) != Get(candidate, k)
    {
      CanonicalOfAgrees(Get(base, k), Get(candidate, k));
    }
    forall n | n in Entries(candidate)
      ensures n in Misnamed(base, candidate, task) <==>
        !(n in Entries(base) && Entries(base)[n] == Entries(candidate)[n])
          && Get(Entries(candidate)[n], "task") != Some(Str(task))
    {
      CanonicalOfAgrees(if n in Entries(base) then Some(Entries(base)[n]) else None, Some(Entries(candidate)[n]));
    }
    assert Misnamed(base, candidate, task) <= Entries(candidate).Keys;
    hide TopChanged, Misnamed;
    EmptyIffNone(TopChanged(base, candidate));
    EmptyIffNone(Removed(base, candidate));
    EmptyIffNone(Misnamed(base, candidate, task));
  }

  lemma EmptyIffNone(s: set<string>)
    ensures s == {} <==> forall x :: x !in s
  {
  }

  /** Every file the verification accepts, whatever its text, the gate's lane admits for the task it names. */
  lemma VerifiedPassesLane(now: Value, was: Value, name: string, task: string, reason: string, names: set<string>,
                           forges: char -> bool)
    requires was.Table? && Verified(Some(now), was, name, task, reason, names, forges)
    ensures now.Table? && LanePasses(was, now, task)
  {
    hide Readable, ReadEntry, LanePasses;
    EqualIsIdentity(now, Expected(was, name, task, reason));
    KeysDiffer();
    LaneMeaning(was, now, task);
  }
}
