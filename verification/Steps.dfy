/** The steps a task's log and journal leave open, over the whole log or over the task's own slice of it. */
module Steps {
  import opened Text

  /** An event's fields, each where it is a string. */
  datatype Event = Event(kind: Option<string>, task: Option<string>, step: Option<string>, activity: Option<string>,
                         deadline: Option<string>, at: Option<string>)

  /** A journal record's fields, each where it is a string. */
  datatype Record = Record(recordType: Option<string>, activity: Option<string>, createdAt: Option<string>)

  datatype OpenStep = OpenStep(step: string, activity: string, deadline: string, overdueBy: Option<int>)

  /** How a time is read, as the span since the start of time; nothing where it is none. */
  type Clock = string -> Option<nat>

  function Moment(clock: Clock, value: Option<string>): Option<nat> {
    match value case None => None case Some(text) => clock(text)
  }

  /** A start whose time cannot be read stands before every dated event. */
  function StartedAt(event: Event, clock: Clock): nat {
    match Moment(clock, event.at) case None => 0 case Some(t) => t
  }

  // --- what closes a step ---

  /** The kind of record that ends a step of this activity. */
  predicate ClosesStep(record: Record, activity: string) {
    || record.recordType == Some("completed") || record.recordType == Some("abandoned")
    || (if activity == "review" then record.recordType == Some("review")
        else record.recordType == Some("session") && record.activity == Some(activity))
  }

  predicate ClosesAfter(record: Record, activity: string, start: nat, clock: Clock) {
    var created := Moment(clock, record.createdAt);
    ClosesStep(record, activity) && created.Some? && created.value > start
  }

  predicate ClosedBy(records: seq<Record>, activity: string, start: nat, clock: Clock) {
    exists i :: 0 <= i < |records| && ClosesAfter(records[i], activity, start, clock)
  }

  predicate IsEnd(event: Event, task: string) {
    event.kind == Some("step-ended") && event.task == Some(task) && event.step.Some?
  }

  /** A start that can open a step: its step, activity and deadline all strings. */
  predicate IsStart(event: Event, task: string) {
    event.kind == Some("step-started") && event.task == Some(task) && event.step.Some? && event.activity.Some?
      && event.deadline.Some?
  }

  function Ended(events: seq<Event>, task: string): set<string> {
    set i | 0 <= i < |events| && IsEnd(events[i], task) :: events[i].step.value
  }

  function Overdue(deadline: string, clock: Clock, now: int): Option<int> {
    match clock(deadline) case None => None case Some(at) => if at < now then Some(now - at) else None
  }

  function Seen(events: seq<Event>, task: string, ended: set<string>): set<string> {
    set i | 0 <= i < |events| && IsStart(events[i], task) && events[i].step.value !in ended :: events[i].step.value
  }

  /** The steps listed by the events so far, in order. */
  function Listed(events: seq<Event>, task: string, records: seq<Record>, ended: set<string>, clock: Clock,
                  now: int): seq<OpenStep> {
    if events == [] then []
    else
      var n := |events| - 1;
      var e := events[n];
      Listed(events[..n], task, records, ended, clock, now)
      + if !IsStart(e, task) || e.step.value in ended || e.step.value in Seen(events[..n], task, ended)
          || ClosedBy(records, e.activity.value, StartedAt(e, clock), clock)
        then []
        else [OpenStep(e.step.value, e.activity.value, e.deadline.value, Overdue(e.deadline.value, clock, now))]
  }

  function OpenSteps(task: string, records: seq<Record>, events: seq<Event>, clock: Clock, now: int): seq<OpenStep> {
    Listed(events, task, records, Ended(events, task), clock, now)
  }

  /** `_closed_by`. */
  method CloseSearch(records: seq<Record>, activity: string, start: nat, clock: Clock) returns (closed: bool)
    ensures closed == ClosedBy(records, activity, start, clock)
  {
    for i := 0 to |records|
      invariant forall k :: 0 <= k < i ==> !ClosesAfter(records[k], activity, start, clock)
    {
      if ClosesAfter(records[i], activity, start, clock) {
        return true;
      }
    }
    return false;
  }

  /** `open_steps`. */
  method FindOpenSteps(task: string, records: seq<Record>, events: seq<Event>, clock: Clock, now: int)
    returns (steps: seq<OpenStep>)
    ensures steps == OpenSteps(task, records, events, clock, now)
  {
    hide ClosedBy, IsStart, IsEnd;
    var ended: set<string> := {};
    for i := 0 to |events|
      invariant ended == Ended(events[..i], task)
    {
      EndedNext(events, i, task);
      if IsEnd(events[i], task) {
        EndHasStep(events[i], task);
        ended := ended + {events[i].step.value};
      }
    }
    assert events[..|events|] == events;
    steps := [];
    var seen: set<string> := {};
    for i := 0 to |events|
      invariant seen == Seen(events[..i], task, ended)
      invariant steps == Listed(events[..i], task, records, ended, clock, now)
    {
      var event := events[i];
      SeenNext(events, i, task, ended);
      assert events[..i + 1][..i] == events[..i] && events[..i + 1][i] == event;
      if IsStart(event, task) {
        StartHasFields(event, task);
        if event.step.value !in seen && event.step.value !in ended {
          seen := seen + {event.step.value};
          var closed := CloseSearch(records, event.activity.value, StartedAt(event, clock), clock);
          if !closed {
            var late := Overdue(event.deadline.value, clock, now);
            steps := steps + [OpenStep(event.step.value, event.activity.value, event.deadline.value, late)];
          }
        }
      }
    }
    assert events[..|events|] == events;
  }

  lemma EndHasStep(event: Event, task: string)
    requires IsEnd(event, task)
    ensures event.step.Some?
  {
  }

  lemma StartHasFields(event: Event, task: string)
    requires IsStart(event, task)
    ensures event.step.Some? && event.activity.Some? && event.deadline.Some?
  {
  }

  lemma EndedNext(events: seq<Event>, i: nat, task: string)
    requires i < |events|
    ensures Ended(events[..i + 1], task)
      == Ended(events[..i], task) + if IsEnd(events[i], task) then {events[i].step.value} else {}
  {
    assert events[..i + 1] == events[..i] + [events[i]];
    forall s
      ensures s in Ended(events[..i + 1], task)
        <==> s in Ended(events[..i], task) || (IsEnd(events[i], task) && s == events[i].step.value)
    {
      if s in Ended(events[..i], task) {
        var k :| 0 <= k < i && IsEnd(events[..i][k], task) && events[..i][k].step.value == s;
        assert events[..i + 1][k] == events[..i][k];
      }
      if IsEnd(events[i], task) && s == events[i].step.value {
        assert events[..i + 1][i] == events[i];
      }
    }
  }

  lemma SeenNext(events: seq<Event>, i: nat, task: string, ended: set<string>)
    requires i < |events|
    ensures Seen(events[..i + 1], task, ended) == Seen(events[..i], task, ended)
      + if IsStart(events[i], task) && events[i].step.value !in ended then {events[i].step.value} else {}
  {
    assert events[..i + 1] == events[..i] + [events[i]];
    forall s
      ensures s in Seen(events[..i + 1], task, ended) <==>
        s in Seen(events[..i], task, ended)
        || (IsStart(events[i], task) && events[i].step.value !in ended && s == events[i].step.value)
    {
      if s in Seen(events[..i], task, ended) {
        var k :| 0 <= k < i && IsStart(events[..i][k], task) && events[..i][k].step.value !in ended
          && events[..i][k].step.value == s;
        assert events[..i + 1][k] == events[..i][k];
      }
      if IsStart(events[i], task) && s == events[i].step.value {
        assert events[..i + 1][i] == events[i];
      }
    }
  }

  // --- what being listed means ---

  predicate Starts(event: Event, task: string, step: string) {
    IsStart(event, task) && event.step.value == step
  }

  /** The event at `i` is the first start of its step. */
  predicate FirstStart(events: seq<Event>, task: string, step: string, i: nat) {
    i < |events| && Starts(events[i], task, step) && forall k :: 0 <= k < i ==> !Starts(events[k], task, step)
  }

  /** The first start of the step is at `i`, and no record closes what it started. */
  predicate OpenFrom(events: seq<Event>, task: string, records: seq<Record>, clock: Clock, step: string, i: nat) {
    FirstStart(events, task, step, i)
      && !ClosedBy(records, events[i].activity.value, StartedAt(events[i], clock), clock)
  }

  predicate Lists(steps: seq<OpenStep>, step: string) {
    exists k :: 0 <= k < |steps| && steps[k].step == step
  }

  lemma SeenIs(events: seq<Event>, task: string, ended: set<string>, step: string)
    ensures step in Seen(events, task, ended) <==>
      step !in ended && exists i :: 0 <= i < |events| && Starts(events[i], task, step)
  {
    hide IsStart;
    if i :| 0 <= i < |events| && Starts(events[i], task, step) {
      StartHasFields(events[i], task);
    }
  }

  lemma {:induction false} FirstExists(events: seq<Event>, task: string, step: string, i: nat) returns (first: nat)
    requires i < |events| && Starts(events[i], task, step)
    ensures first <= i && FirstStart(events, task, step, first)
  {
    hide Starts;
    if k :| 0 <= k < i && Starts(events[k], task, step) {
      first := FirstExists(events, task, step, k);
    } else {
      first := i;
    }
  }

  lemma OpenFromNext(events: seq<Event>, task: string, records: seq<Record>, clock: Clock, step: string, i: nat)
    requires events != [] && i < |events| - 1
    ensures OpenFrom(events[..|events| - 1], task, records, clock, step, i) <==>
      OpenFrom(events, task, records, clock, step, i)
  {
    hide ClosedBy, Starts;
    var before := events[..|events| - 1];
    assert forall k :: 0 <= k < |before| ==> before[k] == events[k];
  }

  /** One more event lists its step where it is the first start of one not ended and not closed. */
  lemma ListedNext(events: seq<Event>, task: string, records: seq<Record>, ended: set<string>, clock: Clock, now: int)
    requires events != []
    ensures var n := |events| - 1;
      var was := Listed(events[..n], task, records, ended, clock, now);
      var after := Listed(events, task, records, ended, clock, now);
      && was <= after && |after| <= |was| + 1
      && (forall step :: step !in ended && OpenFrom(events, task, records, clock, step, n) ==> |after| == |was| + 1)
      && (|after| == |was| + 1 ==>
        after[|was|].step !in ended && OpenFrom(events, task, records, clock, after[|was|].step, n))
  {
    hide ClosedBy;
    var n := |events| - 1;
    assert forall k :: 0 <= k < n ==> events[..n][k] == events[k];
    if events[n].step.Some? {
      SeenIs(events[..n], task, ended, events[n].step.value);
    }
  }

  /** A step is listed exactly when it is not ended and its first start is closed by no record. */
  lemma {:induction false} ListedMeaning(events: seq<Event>, task: string, records: seq<Record>, ended: set<string>,
                                         clock: Clock, now: int, step: string)
    ensures Lists(Listed(events, task, records, ended, clock, now), step)
      <==> step !in ended && exists i: nat :: OpenFrom(events, task, records, clock, step, i)
    decreases |events|
  {
    hide ClosedBy, OpenFrom, Listed;
    if events == [] {
      assert Listed(events, task, records, ended, clock, now) == [] by { NoneListed(task, records, ended, clock, now); }
      forall i: nat
        ensures !OpenFrom(events, task, records, clock, step, i)
      {
        OpenIsWithin(events, task, records, clock, step, i);
      }
    } else {
      var n := |events| - 1;
      ListedMeaning(events[..n], task, records, ended, clock, now, step);
      ListedNext(events, task, records, ended, clock, now);
      var was := Listed(events[..n], task, records, ended, clock, now);
      var after := Listed(events, task, records, ended, clock, now);
      if Lists(after, step) {
        var k :| 0 <= k < |after| && after[k].step == step;
        if k < |was| {
          assert was[k].step == step;
          var i: nat :| OpenFrom(events[..n], task, records, clock, step, i);
          OpenIsWithin(events[..n], task, records, clock, step, i);
          OpenFromNext(events, task, records, clock, step, i);
        }
      }
      if step !in ended {
        if i: nat :| OpenFrom(events, task, records, clock, step, i) {
          OpenIsWithin(events, task, records, clock, step, i);
          if i < n {
            OpenFromNext(events, task, records, clock, step, i);
            var k :| 0 <= k < |was| && was[k].step == step;
            assert after[k].step == step;
          } else {
            OpenIsWithin(events, task, records, clock, after[|was|].step, n);
          }
        }
      }
    }
  }

  lemma NoneListed(task: string, records: seq<Record>, ended: set<string>, clock: Clock, now: int)
    ensures Listed([], task, records, ended, clock, now) == []
  {
  }

  lemma OpenIsWithin(events: seq<Event>, task: string, records: seq<Record>, clock: Clock, step: string, i: nat)
    ensures OpenFrom(events, task, records, clock, step, i) ==> i < |events| && events[i].step == Some(step)
  {
    hide ClosedBy;
  }

  // --- the slice and the whole log ---

  predicate IsStepEvent(event: Event) {
    (event.kind == Some("step-started") || event.kind == Some("step-ended")) && event.task.Some?
  }

  /** The step events of one task, in order. */
  function Slice(events: seq<Event>, task: string): seq<Event> {
    if events == [] then []
    else
      var n := |events| - 1;
      Slice(events[..n], task) + if IsStepEvent(events[n]) && events[n].task == Some(task) then [events[n]] else []
  }

  /** `step_events_by_task`: the log grouped in one pass. */
  method StepEventsByTask(events: seq<Event>) returns (byTask: map<string, seq<Event>>)
    ensures forall task :: (if task in byTask then byTask[task] else []) == Slice(events, task)
    ensures forall task :: task in byTask ==> byTask[task] != []
  {
    byTask := map[];
    for i := 0 to |events|
      invariant forall task :: (if task in byTask then byTask[task] else []) == Slice(events[..i], task)
      invariant forall task :: task in byTask ==> byTask[task] != []
    {
      assert events[..i + 1][..i] == events[..i] && events[..i + 1][i] == events[i];
      if IsStepEvent(events[i]) {
        var task := events[i].task.value;
        byTask := byTask[task := (if task in byTask then byTask[task] else []) + [events[i]]];
      }
    }
    assert events[..|events|] == events;
  }

  lemma {:induction false} SliceEnded(events: seq<Event>, task: string)
    ensures Ended(Slice(events, task), task) == Ended(events, task)
  {
    hide Ended;
    if events == [] {
    } else {
      var n := |events| - 1;
      SliceEnded(events[..n], task);
      EndedNext(events, n, task);
      assert events[..n + 1] == events;
      var slice := Slice(events[..n], task);
      assert slice + [] == slice;
      if IsStepEvent(events[n]) && events[n].task == Some(task) {
        EndedNext(slice + [events[n]], |slice|, task);
        assert (slice + [events[n]])[..|slice|] == slice && (slice + [events[n]])[..|slice| + 1] == slice + [events[n]];
      }
    }
  }

  lemma {:induction false} SliceSeen(events: seq<Event>, task: string, ended: set<string>)
    ensures Seen(Slice(events, task), task, ended) == Seen(events, task, ended)
  {
    hide Seen;
    if events != [] {
      var n := |events| - 1;
      SliceSeen(events[..n], task, ended);
      SeenNext(events, n, task, ended);
      assert events[..n + 1] == events;
      var slice := Slice(events[..n], task);
      assert slice + [] == slice;
      if IsStepEvent(events[n]) && events[n].task == Some(task) {
        SeenNext(slice + [events[n]], |slice|, task, ended);
        assert (slice + [events[n]])[..|slice|] == slice && (slice + [events[n]])[..|slice| + 1] == slice + [events[n]];
      }
    }
  }

  lemma {:induction false} SliceListed(events: seq<Event>, task: string, records: seq<Record>, ended: set<string>,
                                       clock: Clock, now: int)
    ensures Listed(Slice(events, task), task, records, ended, clock, now)
      == Listed(events, task, records, ended, clock, now)
  {
    hide ClosedBy, Seen;
    if events != [] {
      var n := |events| - 1;
      SliceListed(events[..n], task, records, ended, clock, now);
      SliceSeen(events[..n], task, ended);
      var slice := Slice(events[..n], task);
      assert slice + [] == slice;
      if IsStepEvent(events[n]) && events[n].task == Some(task) {
        assert (slice + [events[n]])[..|slice|] == slice;
      }
    }
  }

  /** A task's own slice leaves open exactly what the whole log does, in the same order. */
  lemma SliceAgrees(task: string, records: seq<Record>, events: seq<Event>, clock: Clock, now: int)
    ensures OpenSteps(task, records, Slice(events, task), clock, now) == OpenSteps(task, records, events, clock, now)
  {
    hide Listed, Ended, Slice;
    SliceEnded(events, task);
    SliceListed(events, task, records, Ended(events, task), clock, now);
  }

  // --- over runs ---

  predicate Unrepeated(steps: seq<OpenStep>, seen: set<string>) {
    && (forall i :: 0 <= i < |steps| ==> steps[i].step in seen)
    && (forall i, j :: 0 <= i < j < |steps| ==> steps[i].step != steps[j].step)
  }

  lemma {:induction false} ListedOnce(events: seq<Event>, task: string, records: seq<Record>, ended: set<string>,
                                      clock: Clock, now: int)
    ensures Unrepeated(Listed(events, task, records, ended, clock, now), Seen(events, task, ended))
  {
    hide ClosedBy, Seen;
    if events != [] {
      var n := |events| - 1;
      ListedOnce(events[..n], task, records, ended, clock, now);
      SeenNext(events, n, task, ended);
      assert events[..n + 1] == events;
      var was := Listed(events[..n], task, records, ended, clock, now);
      assert was + [] == was;
    }
  }

  /** No step is listed twice. */
  lemma NoStepTwice(task: string, records: seq<Record>, events: seq<Event>, clock: Clock, now: int)
    ensures var steps := OpenSteps(task, records, events, clock, now);
      forall i, j :: 0 <= i < j < |steps| ==> steps[i].step != steps[j].step
  {
    hide Listed, Seen, Ended;
    ListedOnce(events, task, records, Ended(events, task), clock, now);
    assert Unrepeated(OpenSteps(task, records, events, clock, now), Seen(events, task, Ended(events, task)));
  }

  lemma GrownSame(events: seq<Event>, more: seq<Event>, task: string, step: string, i: nat)
    requires events <= more && FirstStart(events, task, step, i)
    ensures forall k: nat :: FirstStart(more, task, step, k) <==> k == i
  {
    hide Starts;
    assert forall k :: 0 <= k < |events| ==> more[k] == events[k];
  }

  /**
   Once a step has started and is closed, it never becomes open again, whatever records are merged in, however many
   events are appended and whenever the question is asked.
   */
  lemma ClosedStaysClosed(task: string, step: string, records: seq<Record>, moreRecords: seq<Record>,
                          events: seq<Event>, moreEvents: seq<Event>,
                          clock: Clock, now: int, later: int)
    requires events <= moreEvents && forall r :: r in records ==> r in moreRecords
    requires exists i :: 0 <= i < |events| && Starts(events[i], task, step)
    requires !Lists(OpenSteps(task, records, events, clock, now), step)
    ensures !Lists(OpenSteps(task, moreRecords, moreEvents, clock, later), step)
  {
    hide Listed, Ended, Starts, Lists, ClosesAfter;
    var i :| 0 <= i < |events| && Starts(events[i], task, step);
    var first := FirstExists(events, task, step, i);
    ListedMeaning(events, task, records, Ended(events, task), clock, now, step);
    ListedMeaning(moreEvents, task, moreRecords, Ended(moreEvents, task), clock, later, step);
    EndedGrows(events, moreEvents, task);
    if step !in Ended(events, task) {
      GrownSame(events, events, task, step, first);
      GrownSame(events, moreEvents, task, step, first);
      StartHasFieldsOf(events[first], task, step);
      assert !OpenFrom(events, task, records, clock, step, first);
      var k :| 0 <= k < |records|
        && ClosesAfter(records[k], events[first].activity.value, StartedAt(events[first], clock), clock);
      assert moreEvents[first] == events[first] && records[k] in moreRecords;
      var m :| 0 <= m < |moreRecords| && moreRecords[m] == records[k];
    }
  }

  lemma StartHasFieldsOf(event: Event, task: string, step: string)
    requires Starts(event, task, step)
    ensures event.step == Some(step) && event.activity.Some? && event.deadline.Some?
  {
  }

  lemma EndedGrows(events: seq<Event>, more: seq<Event>, task: string)
    requires events <= more
    ensures Ended(events, task) <= Ended(more, task)
  {
    forall s | s in Ended(events, task)
      ensures s in Ended(more, task)
    {
      var k :| 0 <= k < |events| && IsEnd(events[k], task) && events[k].step.value == s;
      assert more[k] == events[k];
    }
  }

  /**
   A listed step carries its first start's activity and deadline, and is overdue exactly when the deadline has passed.
   */
  lemma {:induction false} ListedDetail(events: seq<Event>, task: string, records: seq<Record>, ended: set<string>,
                                        clock: Clock, now: int, k: nat)
    requires k < |Listed(events, task, records, ended, clock, now)|
    ensures var s := Listed(events, task, records, ended, clock, now)[k];
      exists i :: 0 <= i < |events| && FirstStart(events, task, s.step, i) && events[i].activity == Some(s.activity)
        && events[i].deadline == Some(s.deadline) && s.overdueBy == Overdue(s.deadline, clock, now)
    decreases |events|
  {
    hide ClosedBy, Overdue, Seen;
    var n := |events| - 1;
    var s := Listed(events, task, records, ended, clock, now)[k];
    assert forall i :: 0 <= i < n ==> events[..n][i] == events[i];
    if k < |Listed(events[..n], task, records, ended, clock, now)| {
      ListedDetail(events[..n], task, records, ended, clock, now, k);
      var i :| 0 <= i < n && FirstStart(events[..n], task, s.step, i) && events[..n][i].activity == Some(s.activity)
        && events[..n][i].deadline == Some(s.deadline) && s.overdueBy == Overdue(s.deadline, clock, now);
      assert FirstStart(events, task, s.step, i);
    } else {
      SeenIs(events[..n], task, ended, s.step);
      assert FirstStart(events, task, s.step, n);
    }
  }

  // --- in the log's and the journal's own terms ---

  /** The time read of an optional field, the start of time where none can be. */
  function ReadTime(clock: Clock, value: Option<string>): nat {
    if value.Some? && clock(value.value).Some? then clock(value.value).value else 0
  }

  /** The event starts this step of the task: the event kind, and its three fields there. */
  predicate StartedBy(e: Event, task: string, step: string) {
    e.kind == Some("step-started") && e.task == Some(task) && e.step == Some(step) && e.activity.Some?
      && e.deadline.Some?
  }

  predicate EndedBy(e: Event, task: string, step: string) {
    e.kind == Some("step-ended") && e.task == Some(task) && e.step == Some(step)
  }

  /** The record is dated strictly after `start`. */
  predicate DatedAfter(r: Record, start: nat, clock: Clock) {
    r.createdAt.Some? && clock(r.createdAt.value).Some? && clock(r.createdAt.value).value > start
  }

  /**
   Main result: a step of an activity, first started at `i` and not ended, is listed exactly when no record dated after
   that start is a completion, an abandonment, a review where the activity is review, or a session of that activity
   where it is not: the session a review ran in does not end it.
   */
  lemma OpenExactly(task: string, records: seq<Record>, events: seq<Event>, clock: Clock, now: int, step: string,
                    i: nat, activity: string)
    requires i < |events| && StartedBy(events[i], task, step) && events[i].activity == Some(activity)
    requires forall k :: 0 <= k < i ==> !StartedBy(events[k], task, step)
    requires forall k :: 0 <= k < |events| ==> !EndedBy(events[k], task, step)
    ensures Lists(OpenSteps(task, records, events, clock, now), step) <==>
      !exists k :: 0 <= k < |records| && DatedAfter(records[k], ReadTime(clock, events[i].at), clock) && (
        || records[k].recordType == Some("completed") || records[k].recordType == Some("abandoned")
        || (activity == "review" && records[k].recordType == Some("review"))
        || (activity != "review" && records[k].recordType == Some("session") && records[k].activity == Some(activity)))
  {
    hide Listed, Lists, ClosedBy, Ended;
    ListedMeaning(events, task, records, Ended(events, task), clock, now, step);
    NotEnded(events, task, step);
    FirstIs(events, task, step, i);
    ClosedExactly(records, activity, ReadTime(clock, events[i].at), clock);
    assert StartedAt(events[i], clock) == ReadTime(clock, events[i].at);
    assert OpenFrom(events, task, records, clock, step, i)
      <==> !ClosedBy(records, activity, ReadTime(clock, events[i].at), clock);
  }

  lemma NotEnded(events: seq<Event>, task: string, step: string)
    requires forall k :: 0 <= k < |events| ==> !EndedBy(events[k], task, step)
    ensures step !in Ended(events, task)
  {
  }

  lemma FirstIs(events: seq<Event>, task: string, step: string, i: nat)
    requires i < |events| && StartedBy(events[i], task, step)
    requires forall k :: 0 <= k < i ==> !StartedBy(events[k], task, step)
    ensures forall k: nat :: FirstStart(events, task, step, k) <==> k == i
  {
    assert Starts(events[i], task, step);
    forall k | 0 <= k < i
      ensures !Starts(events[k], task, step)
    {
    }
  }

  lemma ClosedExactly(records: seq<Record>, activity: string, start: nat, clock: Clock)
    ensures !ClosedBy(records, activity, start, clock) <==>
      !exists k :: 0 <= k < |records| && DatedAfter(records[k], start, clock) && (
        || records[k].recordType == Some("completed") || records[k].recordType == Some("abandoned")
        || (activity == "review" && records[k].recordType == Some("review"))
        || (activity != "review" && records[k].recordType == Some("session") && records[k].activity == Some(activity)))
  {
    forall k | 0 <= k < |records|
      ensures ClosesAfter(records[k], activity, start, clock) <==>
        DatedAfter(records[k], start, clock) && (
        || records[k].recordType == Some("completed") || records[k].recordType == Some("abandoned")
        || (activity == "review" && records[k].recordType == Some("review"))
        || (activity != "review" && records[k].recordType == Some("session") && records[k].activity == Some(activity)))
    {
    }
  }

  /** A step ended, or never properly started, is not listed. */
  lemma NotListed(task: string, records: seq<Record>, events: seq<Event>, clock: Clock, now: int, step: string)
    requires (exists k :: 0 <= k < |events| && EndedBy(events[k], task, step))
      || forall k :: 0 <= k < |events| ==> !StartedBy(events[k], task, step)
    ensures !Lists(OpenSteps(task, records, events, clock, now), step)
  {
    hide Listed, Lists, ClosedBy;
    ListedMeaning(events, task, records, Ended(events, task), clock, now, step);
    if k :| 0 <= k < |events| && EndedBy(events[k], task, step) {
      assert IsEnd(events[k], task) && step in Ended(events, task);
    } else {
      assert forall k :: 0 <= k < |events| ==> (Starts(events[k], task, step) ==> StartedBy(events[k], task, step));
    }
  }

  /**
   A listed step is shown with the activity and deadline of its first start, and how long that deadline has passed.
   */
  lemma ShownExactly(task: string, records: seq<Record>, events: seq<Event>, clock: Clock, now: int, k: nat, i: nat)
    requires k < |OpenSteps(task, records, events, clock, now)| && i < |events|
    requires StartedBy(events[i], task, OpenSteps(task, records, events, clock, now)[k].step)
    requires forall j :: 0 <= j < i ==>
      !StartedBy(events[j], task, OpenSteps(task, records, events, clock, now)[k].step)
    ensures var s := OpenSteps(task, records, events, clock, now)[k];
      && events[i].activity == Some(s.activity) && events[i].deadline == Some(s.deadline)
      && (s.overdueBy.Some? <==> clock(s.deadline).Some? && clock(s.deadline).value < now)
      && (s.overdueBy.Some? ==> clock(s.deadline).value + s.overdueBy.value == now)
  {
    hide Listed;
    ListedDetail(events, task, records, Ended(events, task), clock, now, k);
    var s := OpenSteps(task, records, events, clock, now)[k];
    var first :| 0 <= first < |events| && FirstStart(events, task, s.step, first)
      && events[first].activity == Some(s.activity) && events[first].deadline == Some(s.deadline)
      && s.overdueBy == Overdue(s.deadline, clock, now);
    assert Starts(events[i], task, s.step) && StartedBy(events[first], task, s.step);
    assert first == i;
  }

  /** The slice of a task holds exactly its start and end events. */
  lemma {:induction false} SliceIs(events: seq<Event>, task: string, e: Event)
    ensures e in Slice(events, task) <==>
      e in events && e.task == Some(task) && (e.kind == Some("step-started") || e.kind == Some("step-ended"))
  {
    if events != [] {
      var n := |events| - 1;
      SliceIs(events[..n], task, e);
      assert events == events[..n] + [events[n]];
    }
  }
}
