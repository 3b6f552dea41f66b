/**
 One writer's event files: appending, the rotation any system call of which may fail and stop it, and the read that
 tolerates a line still being written.
 */
module ProcessLog {
  import opened Text
  import opened Utf8

  const ROTATE_AT_BYTES := 10 * 1024 * 1024
  const ROTATED_KEEP := 5
  const NEWLINE: Byte := 0x0A

  /** A file's finished lines: what its last line feed closes. */
  function LinesOf(data: seq<Byte>): seq<seq<Byte>> {
    var parts := SplitOn(data, NEWLINE);
    parts[..|parts| - 1]
  }

  /** Every line of the file is finished. */
  predicate Closed(data: seq<Byte>) {
    data == [] || data[|data| - 1] == NEWLINE
  }

  lemma LinesAppend(data: seq<Byte>, line: seq<Byte>)
    requires Closed(data) && NEWLINE !in line
    ensures LinesOf(data + (line + [NEWLINE])) == LinesOf(data) + [line] && Closed(data + (line + [NEWLINE]))
  {
    if data == [] {
      SplitAppend(line, NEWLINE, []);
      assert line + [NEWLINE] + [] == data + (line + [NEWLINE]);
    } else {
      ClosedIs(data);
      var lines := LinesOf(data);
      TerminatedAppend(lines, [line], NEWLINE);
      assert Terminated([line], NEWLINE) == line + [NEWLINE];
      LinesOfClosed(lines + [line], []);
      assert Terminated(lines + [line], NEWLINE) + [] == data + (line + [NEWLINE]);
    }
  }

  lemma ClosedIs(data: seq<Byte>)
    requires Closed(data)
    ensures data == Terminated(LinesOf(data), NEWLINE) && forall i :: 0 <= i < |LinesOf(data)| ==>
      NEWLINE !in LinesOf(data)[i]
  {
    if data != [] {
      var head := data[..|data| - 1];
      var parts := SplitOn(head, NEWLINE);
      JoinOfSplit(head, NEWLINE);
      TerminatedIsJoin(parts, NEWLINE);
      SplitTerminated(parts, NEWLINE, []);
      assert head + [NEWLINE] == data && Terminated(parts, NEWLINE) + [] == data;
      assert SplitOn(data, NEWLINE) == parts + [[]];
    }
  }

  /**
   The torn tail: finished lines followed by a line still without its line feed read as the finished lines alone.
   */
  lemma LinesOfClosed(lines: seq<seq<Byte>>, tail: seq<Byte>)
    requires (forall i :: 0 <= i < |lines| ==> NEWLINE !in lines[i]) && NEWLINE !in tail
    ensures LinesOf(Terminated(lines, NEWLINE) + tail) == lines
  {
    SplitTerminated(lines, NEWLINE, tail);
    SplitClean(tail, NEWLINE);
  }

  /**
   A read while a line is being appended, however much of it has landed, sees the lines before it and nothing else.
   */
  lemma TornRead(data: seq<Byte>, line: seq<Byte>, landed: nat)
    requires Closed(data) && NEWLINE !in line && landed <= |line|
    ensures LinesOf(data + line[..landed]) == LinesOf(data)
  {
    ClosedIs(data);
    LinesOfClosed(LinesOf(data), line[..landed]);
  }

  /** The lines of the files from suffix `n` down to the current file, suffix 0. */
  function LinesDown(files: map<nat, seq<Byte>>, n: nat): seq<seq<Byte>> {
    (if n in files then LinesOf(files[n]) else []) + if n == 0 then [] else LinesDown(files, n - 1)
  }

  predicate IsSuffix<T(==)>(tail: seq<T>, whole: seq<T>) {
    |tail| <= |whole| && whole[|whole| - |tail|..] == tail
  }

  lemma LinesDownLocal(a: map<nat, seq<Byte>>, b: map<nat, seq<Byte>>, n: nat)
    requires forall k :: 0 <= k <= n ==> (k in a <==> k in b) && (k in a ==> a[k] == b[k])
    ensures LinesDown(a, n) == LinesDown(b, n)
  {
    hide LinesOf;
    if n > 0 {
      LinesDownLocal(a, b, n - 1);
    }
  }

  lemma LinesSwapped(a: map<nat, seq<Byte>>, b: map<nat, seq<Byte>>, from: nat)
    requires from in a && from + 1 !in a && b == a[from + 1 := a[from]] - {from}
    ensures LinesDown(b, from + 1) == LinesDown(a, from + 1)
  {
    hide LinesOf, LinesDown;
    if from > 0 {
      LinesDownLocal(a, b, from - 1);
    }
    var below := if from == 0 then [] else LinesDown(a, from - 1);
    LinesDownStep(a, from);
    LinesDownStep(b, from);
    LinesDownStep(a, from + 1);
    LinesDownStep(b, from + 1);
    assert [] + below == below;
  }

  lemma LinesDownStep(files: map<nat, seq<Byte>>, n: nat)
    ensures LinesDown(files, n) == (if n in files then LinesOf(files[n]) else []) + if n
      == 0 then [] else LinesDown(files, n - 1)
  {
    hide LinesOf;
  }

  /** Moving a file up one suffix, where none stands, leaves the lines in order. */
  lemma {:induction false} LinesMoved(a: map<nat, seq<Byte>>, b: map<nat, seq<Byte>>, from: nat, n: nat)
    requires from < n && from in a && from + 1 !in a
    requires b == a[from + 1 := a[from]] - {from}
    ensures LinesDown(b, n) == LinesDown(a, n)
    decreases n
  {
    hide LinesOf;
    if n == from + 1 {
      LinesSwapped(a, b, from);
    } else {
      LinesMoved(a, b, from, n - 1);
    }
  }

  lemma CurrentAppended(data: seq<Byte>, line: seq<Byte>, files: map<nat, seq<Byte>>)
    requires NEWLINE !in line && Closed(data) && 0 in files && files[0] == data + (line + [NEWLINE])
    ensures LinesDown(files, 0) == LinesOf(data) + [line] && LinesOf([]) == []
  {
    hide Closed;
    LinesAppend(data, line);
  }

  lemma {:induction false} LinesAppended(a: map<nat, seq<Byte>>, b: map<nat, seq<Byte>>, line: seq<Byte>, n: nat)
    requires NEWLINE !in line && (0 in a ==> Closed(a[0]))
    requires b == a[0 := (if 0 in a then a[0] else []) + (line + [NEWLINE])]
    ensures LinesDown(b, n) == LinesDown(a, n) + [line]
    decreases n
  {
    hide LinesOf;
    if n == 0 {
      CurrentAppended(if 0 in a then a[0] else [], line, b);
    } else {
      hide Closed;
      LinesAppended(a, b, line, n - 1);
    }
  }

  /** At most the kept rotations exist, and every file's lines are finished. */
  predicate Kept(files: map<nat, seq<Byte>>) {
    forall k :: k in files ==> k <= 5 && Closed(files[k])
  }

  /** The suffix is one above a file's. */
  predicate Above(files: map<nat, seq<Byte>>, k: nat) {
    k > 0 && k - 1 in files
  }

  /** Every suffix one up, the oldest file gone. */
  function Rotated(files: map<nat, seq<Byte>>): map<nat, seq<Byte>> {
    map k: nat | k <= 5 && Above(files, k) :: files[k - 1]
  }

  lemma DroppedRotates(files: map<nat, seq<Byte>>)
    ensures Rotated(files - {ROTATED_KEEP}) == Rotated(files)
  {
  }

  /** The current file has reached the size it is rotated at: ten mebibytes. */
  predicate Full(files: map<nat, seq<Byte>>) {
    0 in files && |files[0]| >= 10485760
  }

  /** The suffixes above `number` moved up one, the rest in place. */
  function ShiftedTo(files: map<nat, seq<Byte>>, number: nat): map<nat, seq<Byte>> {
    map k: nat | k <= ROTATED_KEEP && Shifts(files, number, k) :: if k <= number then files[k] else files[k - 1]
  }

  predicate Shifts(files: map<nat, seq<Byte>>, number: nat, k: nat) {
    if k <= number then k in files else k > number + 1 && k - 1 in files
  }

  lemma ShiftEnds(files: map<nat, seq<Byte>>)
    requires (forall k :: k in files ==> k < ROTATED_KEEP) && 0 in files
    ensures ShiftedTo(files, ROTATED_KEEP - 1) == files
    ensures ShiftedTo(files, 0)[1 := files[0]] - {0} == Rotated(files)
  {
    var all := ShiftedTo(files, ROTATED_KEEP - 1);
    forall k
      ensures k in all <==> k in files
    {
      assert k in files ==> Shifts(files, ROTATED_KEEP - 1, k);
    }
    var end, rotated := ShiftedTo(files, 0)[1 := files[0]] - {0}, Rotated(files);
    forall k: nat
      ensures k in end <==> k in rotated
    {
      assert k in rotated <==> k <= ROTATED_KEEP && Above(files, k);
      assert k in ShiftedTo(files, 0) <==> k <= ROTATED_KEEP && Shifts(files, 0, k);
    }
  }

  lemma ShiftFirst(files: map<nat, seq<Byte>>)
    ensures 0 in files ==> 0 in ShiftedTo(files, 0) && ShiftedTo(files, 0)[0] == files[0]
  {
  }

  lemma ShiftNext(files: map<nat, seq<Byte>>, number: nat)
    requires 0 < number < ROTATED_KEEP
    ensures number in files ==>
      ShiftedTo(files, number)[number + 1 := files[number]] - {number} == ShiftedTo(files, number - 1)
    ensures number in ShiftedTo(files, number) <==> number in files
    ensures number in files ==> ShiftedTo(files, number)[number] == files[number]
    ensures number !in files ==> ShiftedTo(files, number) == ShiftedTo(files, number - 1)
  {
  }

  /** The lines lost are the oldest file's, and no others. */
  predicate LostOldest(was: map<nat, seq<Byte>>, before: seq<seq<Byte>>, after: seq<seq<Byte>>) {
    ROTATED_KEEP in was && |LinesOf(was[ROTATED_KEEP])| <= |before| && after == before[|LinesOf(was[ROTATED_KEEP])|..]
  }

  class Writer {
    /** The system's answer to each removal and rename, in the order they are made. */
    const succeeds: nat -> bool
    var calls: nat
    /** The writer's files by suffix: 0 is the current file. */
    var files: map<nat, seq<Byte>>
    /** Every line ever written, in order. */
    ghost var written: seq<seq<Byte>>

    /** At most the kept rotations exist, every file's lines are finished, and together they are the newest written. */
    ghost predicate Valid()
      reads this
    {
      Kept(files) && IsSuffix(Lines(), written)
    }

    /** The lines kept, oldest first: from the highest suffix down to the current file. */
    ghost function Lines(): seq<seq<Byte>>
      reads this`files
    {
      LinesDown(files, ROTATED_KEEP)
    }

    /** Opening claims a new, empty current file. */
    constructor (succeeds: nat -> bool)
      ensures Valid() && written == [] && files == map[0 := []] && this.succeeds == succeeds
    {
      this.succeeds, calls := succeeds, 0;
      files := map[0 := []];
      written := [];
      new;
      assert LinesOf([]) == [];
      assert Lines() == [] by { EmptyLines(ROTATED_KEEP); }
    }

    static lemma EmptyLines(n: nat)
      ensures LinesDown(map[0 := []], n) == []
    {
      assert LinesOf([]) == [];
    }

    /** A removal, absent files ignored; it may fail. */
    method Unlink(k: nat) returns (ok: bool)
      modifies this`files, this`calls
      ensures ok == succeeds(old(calls)) && calls == old(calls) + 1
      ensures files == if ok then old(files) - {k} else old(files)
    {
      ok := succeeds(calls);
      calls := calls + 1;
      if ok {
        files := files - {k};
      }
    }

    /** A rename, never onto a file that is there; it may fail. */
    method Rename(from: nat, to: nat) returns (ok: bool)
      requires from in files && to !in files
      modifies this`files, this`calls
      ensures ok == succeeds(old(calls)) && calls == old(calls) + 1
      ensures files == if ok then old(files)[to := old(files)[from]] - {from} else old(files)
    {
      ok := succeeds(calls);
      calls := calls + 1;
      if ok {
        files := files[to := files[from]] - {from};
      }
    }

    /** None of these calls failed. */
    ghost predicate Uneventful(from: nat, to: nat) {
      forall k: nat :: from <= k < to ==> succeeds(k)
    }

    /** The suffixes shifted up, from the highest free one down, as far as the system lets them go. */
    method ShiftUp()
      requires Kept(files) && ROTATED_KEEP !in files && 0 in files
      modifies this`files, this`calls
      ensures Kept(files) && Lines() == old(Lines())
      ensures old(calls) <= calls && (Uneventful(old(calls), calls) ==> files == Rotated(old(files)))
    {
      hide LinesOf, LinesDown, Closed, ShiftedTo, Rotated;
      ShiftEnds(files);
      var number := ROTATED_KEEP - 1;
      while number > 0
        invariant 0 <= number < ROTATED_KEEP && number + 1 !in files && 0 in files
        invariant Kept(files) && Lines() == old(Lines())
        invariant old(calls) <= calls && (Uneventful(old(calls), calls) ==> files == ShiftedTo(old(files), number))
      {
        ShiftNext(old(files), number);
        if number in files {
          ghost var before := files;
          var ok := Rename(number, number + 1);
          if !ok {
            return;
          }
          LinesMoved(before, files, number, ROTATED_KEEP);
        }
        number := number - 1;
      }
      ghost var before := files;
      var ok := Rename(0, 1);
      assert Uneventful(old(calls), calls) ==> ok && before == ShiftedTo(old(files), 0);
      ShiftFirst(old(files));
      if ok {
        LinesMoved(before, files, 0, ROTATED_KEEP);
      }
    }

    /**
     The rotation, stopped by the first system call that fails. Every rename it makes goes to a free suffix; the lines
     kept lose at most the oldest file's, and stay in order. Where no call fails, a full file makes every suffix go up
     one.
     */
    method RotateIfFull()
      requires Valid()
      modifies this`files, this`calls
      ensures Valid()
      ensures old(calls) <= calls && (Uneventful(old(calls), calls) ==>
        files == if Full(old(files)) then Rotated(old(files)) else old(files))
      ensures Lines() == old(Lines()) || LostOldest(old(files), old(Lines()), Lines())
      ensures (0 in old(files) && |old(files)[0]| < ROTATE_AT_BYTES) ==> files == old(files)
    {
      hide LinesOf, LinesDown, Closed, Rotated;
      if 0 !in files || |files[0]| < ROTATE_AT_BYTES {
        return;
      }
      ghost var before := files;
      var ok := Unlink(ROTATED_KEEP);
      if !ok {
        return;
      }
      Dropped(before, files);
      DroppedRotates(before);
      ShiftUp();
    }

    static lemma Dropped(was: map<nat, seq<Byte>>, now: map<nat, seq<Byte>>)
      requires now == was - {ROTATED_KEEP}
      ensures LinesDown(now, ROTATED_KEEP) == LinesDown(was, ROTATED_KEEP)
        || LostOldest(was, LinesDown(was, ROTATED_KEEP), LinesDown(now, ROTATED_KEEP))
    {
      hide LinesOf;
      LinesDownLocal(was, now, ROTATED_KEEP - 1);
    }

    /**
     One event appended as one line. The newest line is always kept, what is kept is always the newest written, and one
     write loses at most the oldest file. Where no call fails, a file the line fills is rotated at once.
     */
    method WriteEvent(line: seq<Byte>)
      requires Valid() && NEWLINE !in line
      modifies this
      ensures Valid() && written == old(written) + [line]
      ensures Lines() == old(Lines()) + [line] || LostOldest(old(files), old(Lines()) + [line], Lines())
      ensures Lines() != [] && Lines()[|Lines()| - 1] == line
      ensures var appended := old(files)[0 := (if 0 in old(files) then old(files)[0] else []) + (line + [NEWLINE])];
        && old(calls) <= calls
        && (Uneventful(old(calls), calls) ==> files == if Full(appended) then Rotated(appended) else appended)
    {
      OldestFits(files);
      hide LinesOf, LinesDown;
      ghost var before := files;
      LineCloses(if 0 in files then files[0] else [], line);
      files := files[0 := (if 0 in files then files[0] else []) + (line + [NEWLINE])];
      LinesAppended(before, files, line, ROTATED_KEEP);
      written := written + [line];
      RotateIfFull();
    }

    static lemma OldestFits(was: map<nat, seq<Byte>>)
      ensures ROTATED_KEEP in was ==> |LinesOf(was[ROTATED_KEEP])| <= |LinesDown(was, ROTATED_KEEP)|
    {
    }

    static lemma LineCloses(data: seq<Byte>, line: seq<Byte>)
      ensures Closed(data + (line + [NEWLINE]))
    {
      var all := data + (line + [NEWLINE]);
      assert all[|all| - 1] == NEWLINE;
    }
  }
}
