/**
 Personal disable in place: an entry the clone's file already carries gets its state and reason rewritten on its own
 lines, a reason added, replaced or removed, and the new text parses to the old document with only that changed.
 */
module PersonalRewrite {
  import opened Text
  import opened TomlValues
  import opened TomlLex
  import opened TomlDoc
  import opened SwitchText
  import opened TomlLines
  import opened TomlFields
  import opened OffRewrite

  // --- the rewrite ---

  /** What one line of the table becomes: `i` the state's, `j` the reason's where the entry carries one. */
  function PutLines(lines: seq<string>, k: nat, i: nat, j: Option<nat>, reason: Option<string>,
                    suffix: string): seq<string>
    requires k < |lines|
  {
    if k == i then [StateLine() + suffix] + if j.None? && reason.Some? then [ReasonLine(reason.value) + suffix] else []
    else if Some(k) == j then (if reason.Some? then [ReasonLine(reason.value) + suffix] else [])
    else [lines[k]]
  }

  function Put(lines: seq<string>, lo: nat, hi: nat, i: nat, j: Option<nat>, reason: Option<string>,
               suffix: string): seq<string>
    requires hi <= |lines|
    decreases hi
  {
    if hi <= lo then []
    else Put(lines, lo, hi - 1, i, j, reason, suffix) + PutLines(lines, hi - 1, i, j, reason, suffix)
  }

  function StartOf(pair: Option<(nat, nat)>): Option<nat> {
    match pair case None => None case Some((start, _)) => Some(start)
  }

  /** What the rewrite puts in place of the reason's pair. */
  function ReasonLines(reason: Option<string>, suffix: string): seq<string> {
    if reason.Some? then [ReasonLine(reason.value) + suffix] else []
  }

  /** The edits of the table's pairs: the state's, and the reason's where the entry carries one. */
  function OffEdits(state: (nat, nat), was: Option<(nat, nat)>, reason: Option<string>, suffix: string): seq<Edit> {
    [Edit(state.0, state.1, [StateLine() + suffix] + if was.None? then ReasonLines(reason, suffix) else [])]
    + if was.Some? then [Edit(was.value.0, was.value.1, ReasonLines(reason, suffix))] else []
  }

  /** The table's own lines carrying the off entry, or nothing where no state is located or the two pairs overlap. */
  function OffBody(lines: seq<string>, lo: nat, hi: nat, reason: Option<string>, crlf: bool): Option<seq<string>>
    requires lo <= hi <= |lines|
  {
    var state, was := KeyPair(lines, lo, hi, "state"), KeyPair(lines, lo, hi, "reason");
    if state.None? || (was.Some? && was.value.0 < state.value.1 && state.value.0 < was.value.1) then None
    else Some(Edited(lines, lo, hi, OffEdits(state.value, was, reason, if crlf then "\r" else "")))
  }

  lemma PutNext(lines: seq<string>, lo: nat, hi: nat, i: nat, j: Option<nat>, reason: Option<string>, suffix: string)
    requires lo <= hi < |lines|
    ensures Put(lines, lo, hi + 1, i, j, reason, suffix)
      == Put(lines, lo, hi, i, j, reason, suffix) + PutLines(lines, hi, i, j, reason, suffix)
  {
  }

  /** The table's own lines with the state rewritten and the reason added, replaced or removed. */
  method OffEntryBody(lines: seq<string>, lo: nat, hi: nat, reason: Option<string>, crlf: bool)
    returns (body: Option<seq<string>>)
    requires lo <= hi <= |lines|
    ensures body == OffBody(lines, lo, hi, reason, crlf)
  {
    hide KeyPair, StateLine, ReasonLine, Edited, OffEdits, EditAt;
    KeyPairAfter(lines, lo, hi, "state");
    KeyPairAfter(lines, lo, hi, "reason");
    var state := FindKeyPair(lines, lo, hi, "state");
    if state.None? {
      return None;
    }
    var was := FindKeyPair(lines, lo, hi, "reason");
    if was.Some? && was.value.0 < state.value.1 && state.value.0 < was.value.1 {
      return None;
    }
    var suffix := if crlf then "\r" else "";
    ghost var edits := OffEdits(state.value, was, reason, suffix);
    var out: seq<string> := [];
    var index := lo;
    while index < hi
      invariant lo <= index
      invariant out + Edited(lines, index, hi, edits) == Edited(lines, lo, hi, edits)
      decreases hi - index
    {
      ghost var before := out;
      OffEditsStep(lines, index, hi, state.value, was, reason, suffix, before);
      if index == state.value.0 {
        out := out + [StateLine() + suffix];
        if was.None? && reason.Some? {
          out := out + [ReasonLine(reason.value) + suffix];
        }
        assert out == before + ([StateLine() + suffix] + if was.None? then ReasonLines(reason, suffix) else []);
        index := state.value.1;
      } else if was.Some? && index == was.value.0 {
        if reason.Some? {
          out := out + [ReasonLine(reason.value) + suffix];
        }
        assert out == before + ReasonLines(reason, suffix);
        index := was.value.1;
      } else {
        out := out + [lines[index]];
        index := index + 1;
      }
    }
    EditedPast(lines, index, hi, edits);
    assert out + [] == out;
    return Some(out);
  }

  lemma Regroup(a: seq<string>, b: seq<string>, c: seq<string>)
    ensures a + (b + c) == (a + b) + c
  {
  }

  lemma OffEditAt(state: (nat, nat), was: Option<(nat, nat)>, reason: Option<string>, suffix: string, i: nat)
    requires was.Some? ==> was.value.0 != state.0
    ensures EditAt(OffEdits(state, was, reason, suffix), i)
      == if i == state.0 then
           Some(Edit(state.0, state.1, [StateLine() + suffix] + if was.None? then ReasonLines(reason, suffix) else []))
         else if was.Some? && i == was.value.0 then Some(Edit(was.value.0, was.value.1, ReasonLines(reason, suffix)))
         else None
  {
    hide StateLine, ReasonLines;
    var edits := OffEdits(state, was, reason, suffix);
    assert edits[1..] == if was.Some? then [Edit(was.value.0, was.value.1, ReasonLines(reason, suffix))] else [];
    if was.Some? {
      assert EditAt(edits[1..][1..], i) == None;
    }
  }

  /** One turn of the loop. */
  lemma OffEditsStep(lines: seq<string>, k: nat, hi: nat, state: (nat, nat), was: Option<(nat, nat)>,
                     reason: Option<string>, suffix: string, before: seq<string>)
    requires k < hi <= |lines| && state.0 < state.1
    requires was.Some? ==> was.value.0 < was.value.1 && was.value.0 != state.0
    ensures var edits := OffEdits(state, was, reason, suffix);
      var (here, next) :=
        if k == state.0 then ([StateLine() + suffix] + if was.None? then ReasonLines(reason, suffix) else [], state.1)
        else if was.Some? && k == was.value.0 then (ReasonLines(reason, suffix), was.value.1)
        else ([lines[k]], k + 1);
      before + Edited(lines, k, hi, edits) == (before + here) + Edited(lines, next, hi, edits)
  {
    hide Edited, OffEdits, EditAt, StateLine, ReasonLines;
    OffEditAt(state, was, reason, suffix, k);
    EditedOnce(lines, k, hi, OffEdits(state, was, reason, suffix));
    var (here, next) :=
      if k == state.0 then ([StateLine() + suffix] + if was.None? then ReasonLines(reason, suffix) else [], state.1)
      else if was.Some? && k == was.value.0 then (ReasonLines(reason, suffix), was.value.1)
      else ([lines[k]], k + 1);
    Regroup(before, here, Edited(lines, next, hi, OffEdits(state, was, reason, suffix)));
  }

  lemma EditedOnce(lines: seq<string>, i: nat, hi: nat, edits: seq<Edit>)
    requires i < hi <= |lines|
    ensures Edited(lines, i, hi, edits)
      == match EditAt(edits, i)
         case Some(e) => e.lines + Edited(lines, if i < e.end then e.end else i + 1, hi, edits)
         case None => [lines[i]] + Edited(lines, i + 1, hi, edits)
  {
    hide EditAt;
  }

  lemma EditedPast(lines: seq<string>, i: nat, hi: nat, edits: seq<Edit>)
    requires hi <= i && hi <= |lines|
    ensures Edited(lines, i, hi, edits) == []
  {
  }

  // --- the edits, each pair one line ---

  /** The lines rewritten so far and the rest still to edit are the whole rewrite. */
  lemma {:induction false} EditsPut(lines: seq<string>, lo: nat, k: nat, hi: nat, i: nat, j: Option<nat>,
                                    reason: Option<string>, suffix: string)
    requires lo <= k <= hi <= |lines| && j != Some(i)
    ensures var edits := OffEdits((i, i + 1), if j.Some? then Some((j.value, j.value + 1)) else None, reason, suffix);
      Put(lines, lo, k, i, j, reason, suffix) + Edited(lines, k, hi, edits) == Put(lines, lo, hi, i, j, reason, suffix)
    decreases hi - k
  {
    hide Put, Edited, EditAt, OffEdits, StateLine, ReasonLine;
    var was := if j.Some? then Some((j.value, j.value + 1)) else None;
    var edits := OffEdits((i, i + 1), was, reason, suffix);
    if k == hi {
      EditedPast(lines, k, hi, edits);
    } else {
      OffEditAt((i, i + 1), was, reason, suffix, k);
      EditedOnce(lines, k, hi, edits);
      EditsPut(lines, lo, k + 1, hi, i, j, reason, suffix);
      PutNext(lines, lo, k, i, j, reason, suffix);
      Regroup(Put(lines, lo, k, i, j, reason, suffix), PutLines(lines, k, i, j, reason, suffix),
        Edited(lines, k + 1, hi, edits));
    }
  }


  // --- two runs that differ in some leaves, some gone ---

  ghost predicate Swapped(a: St, b: St, over: map<Path, Value>, gone: set<Path>) {
    b == St(Doc((a.doc.leaves - gone) + over, a.doc.tables), a.cur, a.defined)
  }

  lemma SwapStep(a: St, b: St, over: map<Path, Value>, gone: set<Path>, extra: set<Path>, l: Line)
    requires Swapped(a, b, over, gone) && over.Keys + gone <= a.doc.leaves.Keys + extra
    requires StepLine(a, l).Some? && extra !! Nodes(StepLine(a, l).value.doc)
    ensures StepLine(b, l).Some? && Swapped(StepLine(a, l).value, StepLine(b, l).value, over, gone)
  {
    match l
    case Blank =>
    case Head(path) =>
      hide Prefixes;
      assert Prefixes(path) <= StepLine(a, l).value.doc.tables;
      assert Prefixes(path) !! b.doc.leaves.Keys;
    case Assign(key, value) =>
      var p := a.cur + [key];
      assert p in Nodes(StepLine(a, l).value.doc);
      assert p !in over && p !in gone && p !in Nodes(b.doc);
      assert ((a.doc.leaves - gone) + over)[p := value] == (a.doc.leaves[p := value] - gone) + over;
  }

  lemma {:induction false} SwapRun(a: St, b: St, over: map<Path, Value>, gone: set<Path>, extra: set<Path>,
                                   lines: seq<Option<Line>>)
    requires Swapped(a, b, over, gone) && over.Keys + gone <= a.doc.leaves.Keys + extra
    requires Run(a, lines).Some? && extra !! Nodes(Run(a, lines).value.doc)
    ensures Run(b, lines).Some? && Swapped(Run(a, lines).value, Run(b, lines).value, over, gone)
    decreases |lines|
  {
    hide StepLine, Nodes, Swapped;
    if lines != [] {
      var a' := StepLine(a, lines[0].value).value;
      RunGrows(a', lines[1..]);
      SwapStep(a, b, over, gone, extra, lines[0].value);
      StepGrows(a, lines[0].value);
      LeavesGrow(a.doc, a'.doc);
      SwapRun(a', StepLine(b, lines[0].value).value, over, gone, extra, lines[1..]);
    }
  }

  // --- one line of the table, old and new ---

  /** The leaves set so far: the state past its line, the reason where it is added or once its own line is past. */
  function Set(name: string, reason: Option<string>, has: bool, s: bool, r: bool): map<Path, Value> {
    (if s then map[FieldPath(name, "state") := Str("off")] else map[])
    + (if reason.Some? && (if has then r else s) then map[FieldPath(name, "reason") := Str(reason.value)] else map[])
  }

  function Gone(name: string, reason: Option<string>, r: bool): set<Path> {
    if r && reason.None? then {FieldPath(name, "reason")} else {}
  }

  /** The path a reason is added at. */
  function Extra(name: string, reason: Option<string>, has: bool): set<Path> {
    if has || reason.None? then {} else {FieldPath(name, "reason")}
  }

  ghost predicate Along(a: St, b: St, name: string, reason: Option<string>, has: bool, s: bool, r: bool) {
    && a.cur == EntryPath(name) && (r ==> has)
    && Swapped(a, b, Set(name, reason, has, s, r), Gone(name, reason, r))
    && (s ==> FieldPath(name, "state") in a.doc.leaves)
    && (r ==> FieldPath(name, "reason") in a.doc.leaves)
  }

  lemma SetKeys(name: string, reason: Option<string>, has: bool, s: bool, r: bool)
    ensures FieldPath(name, "state") != FieldPath(name, "reason")
    ensures Set(name, reason, has, s, r).Keys <= {FieldPath(name, "state"), FieldPath(name, "reason")}
    ensures FieldPath(name, "state") in Set(name, reason, has, s, r) <==> s
    ensures FieldPath(name, "reason") in Set(name, reason, has, s, r) <==> reason.Some? && (if has then r else s)
  {
    assert FieldPath(name, "state")[2] == "state" && FieldPath(name, "reason")[2] == "reason" && |"state"| == 5
      && |"reason"| == 6;
  }

  lemma AlongCovers(a: St, b: St, name: string, reason: Option<string>, has: bool, s: bool, r: bool)
    requires Along(a, b, name, reason, has, s, r)
    ensures Set(name, reason, has, s, r).Keys + Gone(name, reason, r) <= a.doc.leaves.Keys + Extra(name, reason, has)
  {
    SetKeys(name, reason, has, s, r);
  }

  lemma AlongState(a: St, b: St, name: string, reason: Option<string>, has: bool, r: bool, was: Value)
    requires Along(a, b, name, reason, has, false, r) && StepLine(a, Assign("state", was)).Some?
    requires Extra(name, reason, has) !! Nodes(StepLine(a, Assign("state", was)).value.doc)
    ensures var first := StepLine(b, Assign("state", Str("off")));
      && first.Some?
      && (!(reason.Some? && !has) ==>
        Along(StepLine(a, Assign("state", was)).value, first.value, name, reason, has, true, r))
      && (reason.Some? && !has ==>
            var second := StepLine(first.value, Assign("reason", Str(reason.value)));
            second.Some? && Along(StepLine(a, Assign("state", was)).value, second.value, name, reason, has, true, r))
  {
    SetKeys(name, reason, has, false, r);
    SetKeys(name, reason, has, true, r);
    var over, gone := Set(name, reason, has, false, r), Gone(name, reason, r);
    var p, q := FieldPath(name, "state"), FieldPath(name, "reason");
    assert a.cur + ["state"] == p && a.cur + ["reason"] == q;
    assert ((a.doc.leaves - gone) + over)[p := Str("off")] == (a.doc.leaves[p := was] - gone) + over[p := Str("off")];
    if reason.Some? && !has {
      assert ((a.doc.leaves - gone) + over)[p := Str("off")][q := Str(reason.value)]
        == (a.doc.leaves[p := was] - gone) + over[p := Str("off")][q := Str(reason.value)];
      assert over[p := Str("off")][q := Str(reason.value)] == Set(name, reason, has, true, r);
    } else {
      assert over[p := Str("off")] == Set(name, reason, has, true, r);
    }
  }

  lemma AlongReason(a: St, b: St, name: string, reason: Option<string>, s: bool, was: Value)
    requires Along(a, b, name, reason, true, s, false) && StepLine(a, Assign("reason", was)).Some?
    ensures reason.None? ==> Along(StepLine(a, Assign("reason", was)).value, b, name, reason, true, s, true)
    ensures reason.Some? ==>
      var first := StepLine(b, Assign("reason", Str(reason.value)));
      first.Some? && Along(StepLine(a, Assign("reason", was)).value, first.value, name, reason, true, s, true)
  {
    SetKeys(name, reason, true, s, false);
    SetKeys(name, reason, true, s, true);
    var over := Set(name, reason, true, s, false);
    var q := FieldPath(name, "reason");
    assert a.cur + ["reason"] == q && a.doc.leaves - {} == a.doc.leaves;
    if reason.Some? {
      assert (a.doc.leaves + over)[q := Str(reason.value)]
        == (a.doc.leaves[q := was] - {}) + over[q := Str(reason.value)];
      assert over[q := Str(reason.value)] == Set(name, reason, true, s, true);
    } else {
      assert (a.doc.leaves[q := was] - {q}) + over == a.doc.leaves + over;
      assert over == Set(name, reason, true, s, true);
    }
  }

  lemma AlongOther(a: St, b: St, name: string, reason: Option<string>, has: bool, s: bool, r: bool, l: Line)
    requires Along(a, b, name, reason, has, s, r) && !l.Head? && StepLine(a, l).Some?
    requires Extra(name, reason, has) !! Nodes(StepLine(a, l).value.doc)
    ensures StepLine(b, l).Some? && Along(StepLine(a, l).value, StepLine(b, l).value, name, reason, has, s, r)
  {
    AlongCovers(a, b, name, reason, has, s, r);
    hide Set, Gone, Extra, Swapped;
    SwapStep(a, b, Set(name, reason, has, s, r), Gone(name, reason, r), Extra(name, reason, has), l);
    StepGrows(a, l);
    LeavesGrow(a.doc, StepLine(a, l).value.doc);
  }

  lemma PutReads(lines: seq<string>, k: nat, i: nat, j: Option<nat>, reason: Option<string>, suffix: string)
    requires k < |lines| && suffix in {"", "\r"}
    ensures InnerAll(PutLines(lines, k, i, j, reason, suffix))
      == if k == i then [Some(Assign("state", Str("off")))]
        + (if j.None? && reason.Some? then [Some(Assign("reason", Str(reason.value)))] else [])
         else if Some(k) == j then (if reason.Some? then [Some(Assign("reason", Str(reason.value)))] else [])
         else [Inner(lines[k])]
  {
    hide LexLine, StateLine, ReasonLine, Inner;
    var text := if reason.Some? then reason.value else "";
    WrittenLines("", text);
    Suffixed(StateLine(), suffix);
    Suffixed(ReasonLine(text), suffix);
  }

  /** Where the table's pairs stand. */
  ghost predicate Placed(lines: seq<string>, lo: nat, hi: nat, i: nat, j: Option<nat>) {
    && lo <= i < hi <= |lines| && (j.Some? ==> lo <= j.value < hi && j.value != i)
    && (forall k :: 0 <= k < |lines| ==> Inner(lines[k]).Some?)
    && Inner(lines[i]).value.Assign? && Inner(lines[i]).value.key == "state"
    && (j.Some? ==> Inner(lines[j.value]).value.Assign? && Inner(lines[j.value]).value.key == "reason")
  }

  predicate Past(j: Option<nat>, k: nat) {
    j.Some? && j.value < k
  }

  lemma StateAlong(a: St, b: St, name: string, reason: Option<string>, has: bool, r: bool, was: Value)
    requires Along(a, b, name, reason, has, false, r) && StepLine(a, Assign("state", was)).Some?
    requires Extra(name, reason, has) !! Nodes(StepLine(a, Assign("state", was)).value.doc)
    ensures
      var added := if !has && reason.Some? then [Some(Assign("reason", Str(reason.value)))] else [];
      var b' := Run(b, [Some(Assign("state", Str("off")))] + added);
      b'.Some? && Along(StepLine(a, Assign("state", was)).value, b'.value, name, reason, has, true, r)
  {
    hide StepLine, Along, Extra, Nodes;
    AlongState(a, b, name, reason, has, r, was);
    var first := [Some(Assign("state", Str("off")))];
    RunOne(b, Assign("state", Str("off")));
    if !has && reason.Some? {
      RunTwo(b, Assign("state", Str("off")), Assign("reason", Str(reason.value)));
      assert first + [Some(Assign("reason", Str(reason.value)))]
        == [Some(Assign("state", Str("off"))), Some(Assign("reason", Str(reason.value)))];
    } else {
      assert first + [] == first;
    }
  }

  lemma ReasonAlong(a: St, b: St, name: string, reason: Option<string>, s: bool, was: Value)
    requires Along(a, b, name, reason, true, s, false) && StepLine(a, Assign("reason", was)).Some?
    ensures var b' := Run(b, if reason.Some? then [Some(Assign("reason", Str(reason.value)))] else []);
      b'.Some? && Along(StepLine(a, Assign("reason", was)).value, b'.value, name, reason, true, s, true)
  {
    hide StepLine, Along;
    AlongReason(a, b, name, reason, s, was);
    if reason.Some? {
      RunOne(b, Assign("reason", Str(reason.value)));
    }
  }

  lemma OtherAlong(a: St, b: St, name: string, reason: Option<string>, has: bool, s: bool, r: bool, l: Line)
    requires Along(a, b, name, reason, has, s, r) && !l.Head? && StepLine(a, l).Some?
    requires Extra(name, reason, has) !! Nodes(StepLine(a, l).value.doc)
    ensures Run(b, [Some(l)]).Some? && Along(StepLine(a, l).value, Run(b, [Some(l)]).value, name, reason, has, s, r)
  {
    hide StepLine, Along, Extra, Nodes;
    AlongOther(a, b, name, reason, has, s, r, l);
    RunOne(b, l);
  }

  lemma PlacedLine(lines: seq<string>, lo: nat, hi: nat, k: nat, i: nat, j: Option<nat>)
    requires Placed(lines, lo, hi, i, j) && k < hi
    ensures lo <= i < hi <= |lines| && j != Some(i) && Inner(lines[k]).Some?
    ensures k == i ==> Inner(lines[k]).value.Assign? && Inner(lines[k]).value.key == "state"
    ensures Some(k) == j ==> Inner(lines[k]).value.Assign? && Inner(lines[k]).value.key == "reason"
  {
    hide Inner;
  }

  lemma LineAlong(lines: seq<string>, lo: nat, hi: nat, k: nat, i: nat, j: Option<nat>, a: St, b: St, name: string,
                  reason: Option<string>, suffix: string)
    requires lo <= k < hi <= |lines| && Placed(lines, lo, hi, i, j) && suffix in {"", "\r"} && Inner(lines[k]).Some?
      && !Inner(lines[k]).value.Head?
    requires Along(a, b, name, reason, j.Some?, i < k, Past(j, k))
    requires StepLine(a, Inner(lines[k]).value).Some?
    requires Extra(name, reason, j.Some?) !! Nodes(StepLine(a, Inner(lines[k]).value).value.doc)
    ensures var b' := Run(b, InnerAll(PutLines(lines, k, i, j, reason, suffix)));
      b'.Some? && Along(StepLine(a, Inner(lines[k]).value).value, b'.value, name, reason, j.Some?, i < k + 1,
        Past(j, k + 1))
  {
    hide Inner, Along, PutLines, StepLine, Extra, Nodes, Placed, Run, InnerAll;
    PlacedLine(lines, lo, hi, k, i, j);
    PutReads(lines, k, i, j, reason, suffix);
    var l := Inner(lines[k]).value;
    if k == i {
      StateAlong(a, b, name, reason, j.Some?, Past(j, k), l.value);
    } else if Some(k) == j {
      ReasonAlong(a, b, name, reason, i < k, l.value);
    } else {
      OtherAlong(a, b, name, reason, j.Some?, i < k, Past(j, k), l);
    }
  }

  lemma LastRuns(st: St, xs: seq<Option<Line>>)
    requires xs != [] && Run(st, xs).Some?
    ensures var n := |xs| - 1;
      var mid := Run(st, xs[..n]);
      && mid.Some? && xs[n].Some? && StepLine(mid.value, xs[n].value) == Run(st, xs)
      && Nodes(mid.value.doc) <= Nodes(Run(st, xs).value.doc)
  {
    hide StepLine, Nodes, Run;
    var n := |xs| - 1;
    assert xs == xs[..n] + [xs[n]];
    RunLexes(st, xs);
    RunAppend(st, xs[..n], [xs[n]]);
    RunOne(Run(st, xs[..n]).value, xs[n].value);
    RunGrows(Run(st, xs[..n]).value, [xs[n]]);
  }

  lemma InnerInit(lines: seq<string>, lo: nat, k: nat, hi: nat)
    requires lo < k <= hi <= |lines| && NoHeads(InnerAll(lines[lo..hi]))
    ensures var xs := InnerAll(lines[lo..k]);
      && |xs| == k - lo && xs[..|xs| - 1] == InnerAll(lines[lo..k - 1]) && xs[|xs| - 1] == Inner(lines[k - 1])
      && Inner(lines[k - 1]).Some? && !Inner(lines[k - 1]).value.Head?
  {
    hide Inner, InnerAll;
    assert InnerAll(lines[lo..hi])[k - 1 - lo] == Inner(lines[k - 1]);
    InnerSlice(lines, lo, k);
    InnerSlice(lines, lo, k - 1);
    assert InnerAll(lines)[lo..k][..k - lo - 1] == InnerAll(lines)[lo..k - 1];
  }

  /** A table's run up to a line, and that line. */
  lemma LastLineRuns(lines: seq<string>, lo: nat, k: nat, hi: nat, a: St)
    requires lo < k <= hi <= |lines| && NoHeads(InnerAll(lines[lo..hi])) && Run(a, InnerAll(lines[lo..k])).Some?
    ensures var mid := Run(a, InnerAll(lines[lo..k - 1]));
      && mid.Some? && Inner(lines[k - 1]).Some? && !Inner(lines[k - 1]).value.Head?
      && StepLine(mid.value, Inner(lines[k - 1]).value) == Run(a, InnerAll(lines[lo..k]))
      && Nodes(mid.value.doc) <= Nodes(Run(a, InnerAll(lines[lo..k])).value.doc)
  {
    hide Inner, StepLine, Nodes, Run, InnerAll, NoHeads;
    InnerInit(lines, lo, k, hi);
    LastRuns(a, InnerAll(lines[lo..k]));
  }

  /** Through the table's lines, the rewritten ones run where the old ones do. */
  lemma {:induction false} TableAlong(lines: seq<string>, lo: nat, hi: nat, k: nat, i: nat, j: Option<nat>, a: St,
                                      name: string, reason: Option<string>, suffix: string)
    requires lo <= k <= hi <= |lines| && Placed(lines, lo, hi, i, j) && suffix in {"", "\r"}
      && NoHeads(InnerAll(lines[lo..hi]))
    requires a.cur == EntryPath(name) && Run(a, InnerAll(lines[lo..k])).Some?
    requires Extra(name, reason, j.Some?) !! Nodes(Run(a, InnerAll(lines[lo..k])).value.doc)
    ensures var b' := Run(a, InnerAll(Put(lines, lo, k, i, j, reason, suffix)));
      b'.Some? && Along(Run(a, InnerAll(lines[lo..k])).value, b'.value, name, reason, j.Some?, i < k, Past(j, k))
    decreases k
  {
    hide Inner, Along, PutLines, StepLine, Extra, Nodes, Put, Placed, EntryPath, Run, InnerAll, NoHeads;
    PlacedBounds(lines, lo, hi, i, j);
    if k == lo {
      FirstAlong(lines, lo, i, j, a, name, reason, suffix);
    } else {
      var n := k - 1;
      LastLineRuns(lines, lo, k, hi, a);
      var mid := Run(a, InnerAll(lines[lo..n])).value;
      TableAlong(lines, lo, hi, n, i, j, a, name, reason, suffix);
      var b := Run(a, InnerAll(Put(lines, lo, n, i, j, reason, suffix))).value;
      LineAlong(lines, lo, hi, n, i, j, mid, b, name, reason, suffix);
      PutNext(lines, lo, n, i, j, reason, suffix);
      InnerAppend(Put(lines, lo, n, i, j, reason, suffix), PutLines(lines, n, i, j, reason, suffix));
      RunAppend(a, InnerAll(Put(lines, lo, n, i, j, reason, suffix)),
        InnerAll(PutLines(lines, n, i, j, reason, suffix)));
    }
  }

  lemma FirstAlong(lines: seq<string>, lo: nat, i: nat, j: Option<nat>, a: St, name: string, reason: Option<string>,
                   suffix: string)
    requires lo <= i < |lines| && (j.Some? ==> lo <= j.value) && a.cur == EntryPath(name)
    ensures Run(a, InnerAll(Put(lines, lo, lo, i, j, reason, suffix))) == Some(a)
      && Run(a, InnerAll(lines[lo..lo])) == Some(a)
    ensures Along(a, a, name, reason, j.Some?, i < lo, Past(j, lo))
  {
    assert lines[lo..lo] == [];
    AlongStart(a, name, reason, j.Some?);
  }

  lemma PlacedBounds(lines: seq<string>, lo: nat, hi: nat, i: nat, j: Option<nat>)
    requires Placed(lines, lo, hi, i, j)
    ensures lo <= i < hi <= |lines| && (j.Some? ==> lo <= j.value < hi && j.value != i)
  {
  }

  lemma AlongStart(a: St, name: string, reason: Option<string>, has: bool)
    requires a.cur == EntryPath(name)
    ensures Along(a, a, name, reason, has, false, false)
  {
    SetKeys(name, reason, has, false, false);
    assert Set(name, reason, has, false, false) == map[];
    assert (a.doc.leaves - {}) + map[] == a.doc.leaves;
  }

  // --- the whole text ---

  /** The document with the entry off, its reason the one given or none. */
  function PersonallyOff(d: Doc, name: string, reason: Option<string>): Doc {
    Doc((d.leaves - {FieldPath(name, "reason")})
        + (map[FieldPath(name, "state") := Str("off")]
          + if reason.Some? then map[FieldPath(name, "reason") := Str(reason.value)] else map[]),
        d.tables)
  }

  /** The document with the entry off and the reason it carries, if any, as it was. */
  function StateOff(d: Doc, name: string): Doc {
    Overlay(d, map[FieldPath(name, "state") := Str("off")])
  }

  /** What the rewritten lines reach, a reason found among them or not. */
  function InPlaceDoc(d: Doc, name: string, reason: Option<string>, has: bool): Doc {
    Doc((d.leaves - Gone(name, reason, has)) + Set(name, reason, has, true, has), d.tables)
  }

  lemma KeptIs(d: Doc, name: string)
    ensures InPlaceDoc(d, name, None, false) == StateOff(d, name)
    ensures FieldPath(name, "reason") in d.leaves ==> StateOff(d, name) != PersonallyOff(d, name, None)
  {
    SetKeys(name, None, false, true, false);
    assert Set(name, None, false, true, false) == map[FieldPath(name, "state") := Str("off")];
    assert d.leaves - {} == d.leaves;
  }

  lemma SwappedIs(d: Doc, name: string, reason: Option<string>, has: bool)
    requires has || FieldPath(name, "reason") !in d.leaves
    ensures InPlaceDoc(d, name, reason, has) == PersonallyOff(d, name, reason)
  {
    SetKeys(name, reason, has, true, has);
    var q := FieldPath(name, "reason");
    assert Set(name, reason, has, true, has)
      == map[FieldPath(name, "state") := Str("off")] + if reason.Some? then map[q := Str(reason.value)] else map[];
    assert (d.leaves - Gone(name, reason, has)) + Set(name, reason, has, true, has)
      == (d.leaves - {q}) + Set(name, reason, has, true, has);
  }

  /** The runs end to end. */
  lemma PersonalRuns(all: seq<Option<Line>>, body: seq<Option<Line>>, start: nat, end: nat, name: string,
                     reason: Option<string>, has: bool)
    requires start < end <= |all| && Run(START, all).Some?
      && Extra(name, reason, has) !! Nodes(Run(START, all).value.doc)
    requires var a := Run(START, all[..start + 1]);
      a.Some? && Run(a.value, all[start + 1..end]).Some?
      && Run(Run(a.value, all[start + 1..end]).value, all[end..]) == Run(START, all)
      && Run(a.value, body).Some?
      && Along(Run(a.value, all[start + 1..end]).value, Run(a.value, body).value, name, reason, has, true, has)
    ensures var out := Run(START, all[..start + 1] + body + all[end..]);
      out.Some? && out.value.doc == InPlaceDoc(Run(START, all).value.doc, name, reason, has)
  {
    var a := Run(START, all[..start + 1]).value;
    var mid := Run(a, all[start + 1..end]).value;
    var b := Run(a, body).value;
    AlongCovers(mid, b, name, reason, has, true, has);
    hide Run, Set, Gone, FieldPath, Nodes, Extra;
    SwapRun(mid, b, Set(name, reason, has, true, has), Gone(name, reason, has), Extra(name, reason, has), all[end..]);
    RunAppend(START, all[..start + 1], body);
    RunAppend(START, all[..start + 1] + body, all[end..]);
  }

  /** What the search found, in the terms of the runs. */
  lemma PersonalPairs(lines: seq<string>, lo: nat, hi: nat, a: St, reason: Option<string>, crlf: bool)
    requires Runs(lines) && lo <= hi <= |lines| && TableOwn(lines[lo..hi], a)
    ensures OffBody(lines, lo, hi, reason, crlf).Some? <==> KeyPair(lines, lo, hi, "state").Some?
    ensures KeyPair(lines, lo, hi, "state").Some? ==>
      var i, j := KeyPair(lines, lo, hi, "state").value.0, StartOf(KeyPair(lines, lo, hi, "reason"));
      Placed(lines, lo, hi, i, j) && PairsAt(lines, lo, hi, i, j)
  {
    hide Runs, TableOwn, KeyPair, Inner, InnerAll, KeyLine, StripCr, Edited, Run;
    PairFound(lines, lo, hi, "state", a);
    PairFound(lines, lo, hi, "reason", a);
    AllAccepted(lines);
    assert "state" != "reason" by { assert |"state"| == 5 && |"reason"| == 6; }
  }

  // --- how the text ends ---

  lemma PutClean(lines: seq<string>, k: nat, i: nat, j: Option<nat>, reason: Option<string>, suffix: string)
    requires k < |lines| && '\n' !in lines[k] && suffix in {"", "\r"}
    ensures var out := PutLines(lines, k, i, j, reason, suffix);
      && (forall m :: 0 <= m < |out| ==> '\n' !in out[m])
      && (out == [] <==> k != i && Some(k) == j && reason.None?)
      && (out != [] ==> (EndsBare(out) <==>
        if k == i || Some(k) == j then suffix == "\r" else EndsWith(lines[k], "\r")))
  {
    hide LexLine, StateLine, ReasonLine, Inner, EndsWith;
    var text := if reason.Some? then reason.value else "";
    WrittenLines("", text);
    Suffixed(StateLine(), suffix);
    Suffixed(ReasonLine(text), suffix);
  }

  /** The line of the table that is last once a removed reason is gone. */
  function LastKept(hi: nat, j: Option<nat>, reason: Option<string>): nat
    requires hi > 0
  {
    if hi > 1 && j == Some(hi - 1) && reason.None? then hi - 2 else hi - 1
  }

  lemma {:induction false} PutEnds(lines: seq<string>, lo: nat, hi: nat, i: nat, j: Option<nat>, reason: Option<string>,
                                   suffix: string)
    requires lo < hi <= |lines| && suffix in {"", "\r"} && forall m :: 0 <= m < |lines| ==> '\n' !in lines[m]
    requires j != Some(i) && (lo + 1 == hi ==> i == lo)
    ensures var out := Put(lines, lo, hi, i, j, reason, suffix); var last := LastKept(hi, j, reason);
      && out != [] && (forall m :: 0 <= m < |out| ==> '\n' !in out[m])
      && (EndsBare(out) <==> if last == i || Some(last) == j then suffix == "\r" else EndsWith(lines[last], "\r"))
    decreases hi
  {
    hide PutLines, EndsWith, Put;
    PutAll(lines, lo, hi, i, j, reason, suffix);
    PutNext(lines, lo, hi - 1, i, j, reason, suffix);
    PutClean(lines, hi - 1, i, j, reason, suffix);
    if lo + 1 < hi {
      PutNext(lines, lo, hi - 2, i, j, reason, suffix);
      PutClean(lines, hi - 2, i, j, reason, suffix);
    }
  }

  lemma {:induction false} PutAll(lines: seq<string>, lo: nat, hi: nat, i: nat, j: Option<nat>, reason: Option<string>,
                                  suffix: string)
    requires lo <= hi <= |lines| && suffix in {"", "\r"} && forall m :: 0 <= m < |lines| ==> '\n' !in lines[m]
    ensures forall m :: 0 <= m < |Put(lines, lo, hi, i, j, reason, suffix)| ==>
      '\n' !in Put(lines, lo, hi, i, j, reason, suffix)[m]
    decreases hi
  {
    hide PutLines;
    if lo < hi {
      PutAll(lines, lo, hi - 1, i, j, reason, suffix);
      PutClean(lines, hi - 1, i, j, reason, suffix);
    }
  }

  predicate EndsTorn(lines: seq<string>, hi: nat, i: Option<nat>, j: Option<nat>, reason: Option<string>, crlf: bool)
    requires 0 < hi <= |lines|
  {
    var last := LastKept(hi, j, reason);
    hi == |lines| && (if Some(last) == i || Some(last) == j then crlf else EndsWith(lines[last], "\r"))
  }

  /**
   A CRLF text whose rewritten table ends it without a line feed: the last line left is one the rewrite wrote, or a line
   that a removed reason leaves bare.
   */
  predicate TornOff(was: string, span: (nat, nat), reason: Option<string>)
    requires span.0 < span.1 <= |SplitOn(was, '\n')|
  {
    var lines := SplitOn(was, '\n');
    var state, carried :=
      StartOf(KeyPair(lines, span.0 + 1, span.1, "state")), StartOf(KeyPair(lines, span.0 + 1, span.1, "reason"));
    EndsTorn(lines, span.1, state, carried, reason, Contains(was, "\r\n"))
  }

  /** The entry's reason is spelled in a way the search knows. */
  predicate ReasonFound(was: string, span: (nat, nat))
    requires span.0 < span.1 <= |SplitOn(was, '\n')|
  {
    KeyPair(SplitOn(was, '\n'), span.0 + 1, span.1, "reason").Some?
  }

  /** The rewrite finds the reason the entry carries, or nothing the entry carries stands where a reason would. */
  predicate ReasonPlain(was: string, name: string, span: (nat, nat), reason: Option<string>)
    requires Parse(was).Some? && span.0 < span.1 <= |SplitOn(was, '\n')|
  {
    var d := Parse(was).value;
    ReasonFound(was, span) || FieldPath(name, "reason") !in if reason.Some? then Nodes(d) else d.leaves.Keys
  }

  /** The new text where the file carries an entry whose table was found. */
  function DisableInPlace(was: string, span: (nat, nat), reason: Option<string>): Option<string>
    requires span.0 < span.1 <= |SplitOn(was, '\n')|
  {
    var lines := SplitOn(was, '\n');
    match OffBody(lines, span.0 + 1, span.1, reason, Contains(was, "\r\n"))
    case None => None
    case Some(body) => Some(JoinWith(lines[..span.0 + 1] + body + lines[span.1..], '\n'))
  }

  /** The lines rewritten, on a parsed document. */
  lemma PersonalLines(lines: seq<string>, span: (nat, nat), i: nat, j: Option<nat>, a: St, name: string,
                      reason: Option<string>, suffix: string)
    requires span.0 < span.1 <= |lines| && Placed(lines, span.0 + 1, span.1, i, j) && suffix in {"", "\r"}
    requires Found(InnerAll(lines), InnerAll(lines[span.0 + 1..span.1]), span, EntryPath(name), a)
    requires Run(START, InnerAll(lines)).Some?
      && Extra(name, reason, j.Some?) !! Nodes(Run(START, InnerAll(lines)).value.doc)
    ensures var out := Rewritten(lines, span, Put(lines, span.0 + 1, span.1, i, j, reason, suffix));
      && Run(START, InnerAll(out)).Some?
      && Run(START, InnerAll(out)).value.doc == InPlaceDoc(Run(START, InnerAll(lines)).value.doc, name, reason, j.Some?)
  {
    hide Run, Inner, InnerAll, Along, FieldPath, Nodes, InPlaceDoc, Rewritten, Found, Placed, Put, NoHeads, Extra,
      EntryPath;
    var own := InnerAll(lines[span.0 + 1..span.1]);
    var body := Put(lines, span.0 + 1, span.1, i, j, reason, suffix);
    BodyAlong(lines, span, i, j, a, name, reason, suffix);
    FoundParts(InnerAll(lines), own, span, EntryPath(name), a);
    PersonalRuns(InnerAll(lines), InnerAll(body), span.0, span.1, name, reason, j.Some?);
    InnerRewritten(lines, span, body);
  }

  /** The table's lines, old and rewritten, run side by side from its header. */
  lemma BodyAlong(lines: seq<string>, span: (nat, nat), i: nat, j: Option<nat>, a: St, name: string,
                  reason: Option<string>, suffix: string)
    requires span.0 < span.1 <= |lines| && Placed(lines, span.0 + 1, span.1, i, j) && suffix in {"", "\r"}
    requires Found(InnerAll(lines), InnerAll(lines[span.0 + 1..span.1]), span, EntryPath(name), a)
    requires Run(START, InnerAll(lines)).Some?
      && Extra(name, reason, j.Some?) !! Nodes(Run(START, InnerAll(lines)).value.doc)
    ensures var own := Run(a, InnerAll(lines[span.0 + 1..span.1]));
      var body := Run(a, InnerAll(Put(lines, span.0 + 1, span.1, i, j, reason, suffix)));
      own.Some? && body.Some? && Along(own.value, body.value, name, reason, j.Some?, true, j.Some?)
  {
    hide Run, Inner, InnerAll, Along, FieldPath, Nodes, Found, Placed, Put, NoHeads, Extra, EntryPath;
    var own := InnerAll(lines[span.0 + 1..span.1]);
    PlacedBounds(lines, span.0 + 1, span.1, i, j);
    FoundCur(InnerAll(lines), own, span, EntryPath(name), a);
    FoundParts(InnerAll(lines), own, span, EntryPath(name), a);
    RunGrows(Run(a, own).value, InnerAll(lines)[span.1..]);
    TableAlong(lines, span.0 + 1, span.1, span.1, i, j, a, name, reason, suffix);
  }

  lemma FoundCur(all: seq<Option<Line>>, own: seq<Option<Line>>, span: (nat, nat), path: Path, a: St)
    requires Found(all, own, span, path, a)
    ensures a.cur == path && NoHeads(own)
  {
    hide Run, NoHeads;
  }

  lemma PersonalEnds(lines: seq<string>, span: (nat, nat), i: nat, j: Option<nat>, reason: Option<string>, crlf: bool)
    requires span.0 < i < span.1 <= |lines| && j != Some(i) && !EndsBare(lines)
    requires forall k :: 0 <= k < |lines| ==> '\n' !in lines[k]
    ensures var out := Rewritten(lines, span, Put(lines, span.0 + 1, span.1, i, j, reason, if crlf then "\r" else ""));
      && out != [] && (forall k :: 0 <= k < |out| ==> '\n' !in out[k])
      && (EndsBare(out) <==> EndsTorn(lines, span.1, Some(i), j, reason, crlf))
  {
    hide Put, EndsWith, Rewritten;
    var suffix := if crlf then "\r" else "";
    PutEnds(lines, span.0 + 1, span.1, i, j, reason, suffix);
    RewrittenClean(lines, span, Put(lines, span.0 + 1, span.1, i, j, reason, suffix));
  }

  /** The located pairs, each on one line. */
  predicate PairsAt(lines: seq<string>, lo: nat, hi: nat, i: nat, j: Option<nat>) {
    && lo <= hi <= |lines| && j != Some(i)
    && KeyPair(lines, lo, hi, "state") == Some((i, i + 1))
    && KeyPair(lines, lo, hi, "reason") == if j.Some? then Some((j.value, j.value + 1)) else None
  }

  lemma BodyIs(lines: seq<string>, lo: nat, hi: nat, reason: Option<string>, crlf: bool, i: nat, j: Option<nat>)
    requires PairsAt(lines, lo, hi, i, j)
    ensures OffBody(lines, lo, hi, reason, crlf) == Some(Put(lines, lo, hi, i, j, reason, if crlf then "\r" else ""))
  {
    hide KeyPair, Put, Edited, OffEdits, PutLines;
    var suffix := if crlf then "\r" else "";
    PutNone(lines, lo, i, j, reason, suffix);
    EditsPut(lines, lo, lo, hi, i, j, reason, suffix);
    var edits := OffEdits((i, i + 1), if j.Some? then Some((j.value, j.value + 1)) else None, reason, suffix);
    assert [] + Edited(lines, lo, hi, edits) == Edited(lines, lo, hi, edits);
  }

  lemma PutNone(lines: seq<string>, lo: nat, i: nat, j: Option<nat>, reason: Option<string>, suffix: string)
    requires lo <= |lines|
    ensures Put(lines, lo, lo, i, j, reason, suffix) == []
  {
  }

  /** The pairs found, as the lemmas above take them. */
  lemma PersonalFound(lines: seq<string>, name: string, span: (nat, nat), reason: Option<string>, crlf: bool)
    returns (i: nat, j: Option<nat>, a: St)
    requires Runs(lines) && EntrySpan(lines, name) == Some(span)
      && OffBody(lines, span.0 + 1, span.1, reason, crlf).Some?
    ensures Found(InnerAll(lines), InnerAll(lines[span.0 + 1..span.1]), span, EntryPath(name), a)
    ensures Placed(lines, span.0 + 1, span.1, i, j) && PairsAt(lines, span.0 + 1, span.1, i, j)
  {
    hide Run, EntrySpan, InnerAll, Found, TableOwn, Placed, PairsAt, KeyPair, Runs, OffBody, EntryPath;
    a := FoundTable(lines, name, span);
    PersonalPairs(lines, span.0 + 1, span.1, a, reason, crlf);
    i, j := KeyPair(lines, span.0 + 1, span.1, "state").value.0, StartOf(KeyPair(lines, span.0 + 1, span.1, "reason"));
    PlacedBounds(lines, span.0 + 1, span.1, i, j);
  }

  // --- a reason under a key the search does not know ---

  /** Where a path has become a leaf, the same lines cannot have made it a node. */
  lemma {:induction false} NotMade(a: St, b: St, p: Path, lines: seq<Option<Line>>)
    requires a.cur == b.cur && p !in Nodes(a.doc) && p in b.doc.leaves
    requires Run(a, lines).Some? && Run(b, lines).Some?
    ensures p !in Nodes(Run(a, lines).value.doc)
    decreases |lines|
  {
    hide StepLine, Nodes;
    if lines != [] {
      StepNotMade(a, b, p, lines[0].value);
      NotMade(StepLine(a, lines[0].value).value, StepLine(b, lines[0].value).value, p, lines[1..]);
    }
  }

  lemma StepNotMade(a: St, b: St, p: Path, l: Line)
    requires a.cur == b.cur && p !in Nodes(a.doc) && p in b.doc.leaves && StepLine(a, l).Some? && StepLine(b, l).Some?
    ensures var a', b' := StepLine(a, l).value, StepLine(b, l).value;
      a'.cur == b'.cur && p !in Nodes(a'.doc) && p in b'.doc.leaves
  {
  }

  lemma {:induction false} RunKeepsCur(st: St, lines: seq<Option<Line>>)
    requires NoHeads(lines) && Run(st, lines).Some?
    ensures Run(st, lines).value.cur == st.cur
    decreases |lines|
  {
    hide StepLine;
    if lines != [] {
      KeepsCur(st, lines[0].value);
      RunKeepsCur(StepLine(st, lines[0].value).value, lines[1..]);
    }
  }

  lemma KeepsCur(st: St, l: Line)
    requires !l.Head? && StepLine(st, l).Some?
    ensures StepLine(st, l).value.cur == st.cur
  {
  }

  /** A reason written beside a node already at its path makes the lines no document. */
  lemma AddedTwice(st: St, rest: seq<Option<Line>>, name: string, was: Value, reason: string)
    requires st.cur == EntryPath(name) && Run(st, [Some(Assign("state", was))] + rest).Some?
    requires FieldPath(name, "reason") in Nodes(Run(st, [Some(Assign("state", was))] + rest).value.doc)
    ensures Run(st, [Some(Assign("state", Str("off"))), Some(Assign("reason", Str(reason)))] + rest).None?
  {
    var first, put := [Some(Assign("state", was))],
      [Some(Assign("state", Str("off"))), Some(Assign("reason", Str(reason)))];
    RunAppend(st, first, rest);
    RunAppend(st, put, rest);
    RunOne(st, Assign("state", was));
    BothAssigned(st, name, was, reason);
    hide StepLine, Run, Nodes, EntryPath, FieldPath;
    if Run(st, put + rest).Some? {
      NotMade(Run(st, first).value, Run(st, put).value, FieldPath(name, "reason"), rest);
    }
  }

  lemma BothAssigned(st: St, name: string, was: Value, reason: string)
    requires st.cur == EntryPath(name) && StepLine(st, Assign("state", was)).Some?
    ensures var put := Run(st, [Some(Assign("state", Str("off"))), Some(Assign("reason", Str(reason)))]);
      var a := StepLine(st, Assign("state", was)).value;
      put.Some? ==>
        put.value.cur == a.cur && FieldPath(name, "reason") !in Nodes(a.doc)
        && FieldPath(name, "reason") in put.value.doc.leaves
  {
    assert FieldPath(name, "state")[2] == "state" && FieldPath(name, "reason")[2] == "reason" && |"state"| == 5
      && |"reason"| == 6;
    assert st.cur + ["state"] == FieldPath(name, "state") && st.cur + ["reason"] == FieldPath(name, "reason");
    RunTwo(st, Assign("state", Str("off")), Assign("reason", Str(reason)));
  }

  /** Without a reason found, the rewrite is the lines with the state's replaced by the written two. */
  lemma {:induction false} PutAdds(lines: seq<string>, lo: nat, hi: nat, i: nat, reason: string, suffix: string)
    requires lo <= hi <= |lines| && lo <= i
    ensures Put(lines, lo, hi, i, None, Some(reason), suffix)
      == if i < hi then lines[lo..i] + [StateLine() + suffix, ReasonLine(reason) + suffix]
        + lines[i + 1..hi] else lines[lo..hi]
    decreases hi
  {
    hide StateLine, ReasonLine, Put, PutLines;
    if lo == hi {
      PutNone(lines, lo, i, None, Some(reason), suffix);
    } else {
      PutAdds(lines, lo, hi - 1, i, reason, suffix);
      PutNext(lines, lo, hi - 1, i, None, Some(reason), suffix);
      AddsNext(lines, lo, hi - 1, i, reason, suffix);
    }
  }

  lemma AddsNext(lines: seq<string>, lo: nat, hi: nat, i: nat, reason: string, suffix: string)
    requires lo <= hi < |lines| && lo <= i
    ensures var two := [StateLine() + suffix, ReasonLine(reason) + suffix];
      var next := PutLines(lines, hi, i, None, Some(reason), suffix);
      && (hi == i ==> next == two)
      && (hi != i ==> next == [lines[hi]])
      && lines[lo..hi + 1] == lines[lo..hi] + [lines[hi]]
      && (i < hi ==> lines[lo..i] + two + lines[i + 1..hi] + [lines[hi]] == lines[lo..i] + two + lines[i + 1..hi + 1])
      && (hi == i ==> lines[lo..i] + two == lines[lo..i] + two + lines[i + 1..hi + 1])
  {
    hide StateLine, ReasonLine;
  }

  /** The rewritten lines, read. */
  lemma AddedInner(lines: seq<string>, span: (nat, nat), i: nat, reason: string, suffix: string)
    requires span.0 < i < span.1 <= |lines| && suffix in {"", "\r"}
    ensures InnerAll(Rewritten(lines, span, Put(lines, span.0 + 1, span.1, i, None, Some(reason), suffix)))
      == InnerAll(lines)[..i]
        + ([Some(Assign("state", Str("off"))), Some(Assign("reason", Str(reason)))] + InnerAll(lines)[i + 1..])
  {
    hide StateLine, ReasonLine, Put, LexLine, Inner, InnerAll;
    var two := [StateLine() + suffix, ReasonLine(reason) + suffix];
    PutAdds(lines, span.0 + 1, span.1, i, reason, suffix);
    AddedAt(lines, span, i, two);
    WrittenTwo(reason, suffix);
    InnerSlice(lines, 0, i);
    InnerSlice(lines, i + 1, |lines|);
    InnerAppend(two, lines[i + 1..]);
    InnerAppend(lines[..i], two + lines[i + 1..]);
    assert lines[0..i] == lines[..i] && lines[i + 1..|lines|] == lines[i + 1..];
  }

  lemma AddedAt(lines: seq<string>, span: (nat, nat), i: nat, two: seq<string>)
    requires span.0 < i < span.1 <= |lines|
    ensures Rewritten(lines, span, lines[span.0 + 1..i] + two + lines[i + 1..span.1])
      == lines[..i] + (two + lines[i + 1..])
  {
    assert lines[..i] == lines[..span.0 + 1] + lines[span.0 + 1..i];
    assert lines[i + 1..] == lines[i + 1..span.1] + lines[span.1..];
  }

  lemma WrittenTwo(reason: string, suffix: string)
    requires suffix in {"", "\r"}
    ensures InnerAll([StateLine() + suffix, ReasonLine(reason) + suffix])
      == [Some(Assign("state", Str("off"))), Some(Assign("reason", Str(reason)))]
  {
    hide LexLine, StateLine, ReasonLine, Inner;
    WrittenLines("", reason);
    Suffixed(StateLine(), suffix);
    Suffixed(ReasonLine(reason), suffix);
  }

  /** The state a table's line is read in. */
  lemma FoundMid(all: seq<Option<Line>>, own: seq<Option<Line>>, span: (nat, nat), path: Path, a: St, i: nat)
    requires Found(all, own, span, path, a) && span.0 < i < span.1
    ensures var st := Run(START, all[..i]);
      st.Some? && st.value.cur == path && Run(st.value, all[i..]) == Run(START, all)
  {
    hide Run, NoHeads;
    FoundCur(all, own, span, path, a);
    var part := all[span.0 + 1..i];
    assert all == all[..i] + all[i..] && all[..i] == all[..span.0 + 1] + part;
    RunAppend(START, all[..i], all[i..]);
    RunAppend(START, all[..span.0 + 1], part);
    NoHeadsPart(own, i - span.0 - 1);
    assert part == own[..i - span.0 - 1];
    RunKeepsCur(a, part);
  }

  lemma NoHeadsPart(own: seq<Option<Line>>, k: nat)
    requires NoHeads(own) && k <= |own|
    ensures NoHeads(own[..k])
  {
  }

  /** A reason given, none found, and a node where it would go: the lines written are no document. */
  lemma AddedLines(lines: seq<string>, span: (nat, nat), i: nat, a: St, name: string, reason: string, suffix: string)
    requires span.0 < span.1 <= |lines| && Placed(lines, span.0 + 1, span.1, i, None) && suffix in {"", "\r"}
    requires Found(InnerAll(lines), InnerAll(lines[span.0 + 1..span.1]), span, EntryPath(name), a)
    requires Run(START, InnerAll(lines)).Some?
      && FieldPath(name, "reason") in Nodes(Run(START, InnerAll(lines)).value.doc)
    ensures Run(START, InnerAll(Rewritten(lines, span,
      Put(lines, span.0 + 1, span.1, i, None, Some(reason), suffix)))).None?
  {
    hide Run, Inner, InnerAll, FieldPath, Nodes, Rewritten, Found, Placed, Put, NoHeads, EntryPath;
    PlacedBounds(lines, span.0 + 1, span.1, i, None);
    PlacedLine(lines, span.0 + 1, span.1, i, i, None);
    FoundMid(InnerAll(lines), InnerAll(lines[span.0 + 1..span.1]), span, EntryPath(name), a, i);
    AddedRuns(InnerAll(lines), i, name, Inner(lines[i]).value.value, reason);
    AddedInner(lines, span, i, reason, suffix);
  }

  lemma AddedRuns(all: seq<Option<Line>>, i: nat, name: string, was: Value, reason: string)
    requires i < |all| && all[i] == Some(Assign("state", was)) && Run(START, all).Some?
    requires var st := Run(START, all[..i]);
      st.Some? && st.value.cur == EntryPath(name) && Run(st.value, all[i..]) == Run(START, all)
    requires FieldPath(name, "reason") in Nodes(Run(START, all).value.doc)
    ensures Run(START, all[..i]
      + ([Some(Assign("state", Str("off"))), Some(Assign("reason", Str(reason)))] + all[i + 1..])).None?
  {
    hide Run, FieldPath, Nodes, EntryPath;
    assert all[i..] == [all[i]] + all[i + 1..];
    AddedTwice(Run(START, all[..i]).value, all[i + 1..], name, was, reason);
    RunAppend(START, all[..i], [Some(Assign("state", Str("off"))), Some(Assign("reason", Str(reason)))] + all[i + 1..]);
  }

  // --- the main result ---

  /** What the rewritten lines run to, whatever the entry carries. */
  function InPlaceRead(d: Doc, name: string, reason: Option<string>, plain: bool): Option<Doc> {
    if plain then Some(PersonallyOff(d, name, reason)) else if reason.Some? then None else Some(StateOff(d, name))
  }

  lemma InPlaceRuns(was: string, name: string, span: (nat, nat), reason: Option<string>, i: nat, j: Option<nat>, a: St,
                    suffix: string)
    requires Parse(was).Some? && span.0 < span.1 <= |SplitOn(was, '\n')| && suffix in {"", "\r"}
    requires PairsAt(SplitOn(was, '\n'), span.0 + 1, span.1, i, j)
      && Placed(SplitOn(was, '\n'), span.0 + 1, span.1, i, j)
    requires Found(InnerAll(SplitOn(was, '\n')), InnerAll(SplitOn(was, '\n')[span.0 + 1..span.1]), span,
      EntryPath(name), a)
    ensures var lines := SplitOn(was, '\n');
      var out := Run(START, InnerAll(Rewritten(lines, span, Put(lines, span.0 + 1, span.1, i, j, reason, suffix))));
      InPlaceRead(Parse(was).value, name, reason, ReasonPlain(was, name, span, reason))
      == match out case None => None case Some(st) => Some(st.doc)
  {
    hide Run, InnerAll, FieldPath, Parse, PersonallyOff, StateOff, Found, Placed, Put, KeyPair, PairsAt, EntryPath,
      Nodes, Rewritten,
      SplitOn, Extra, ReasonPlain, InPlaceDoc;
    var lines := SplitOn(was, '\n');
    var d := Parse(was).value;
    ParsedRuns(was);
    PlainCases(was, name, span, reason, i, j);
    if Extra(name, reason, j.Some?) !! Nodes(d) {
      PersonalLines(lines, span, i, j, a, name, reason, suffix);
    } else {
      AddedLines(lines, span, i, a, name, reason.value, suffix);
    }
  }

  /** The three cases the main result tells apart. */
  lemma PlainCases(was: string, name: string, span: (nat, nat), reason: Option<string>, i: nat, j: Option<nat>)
    requires Parse(was).Some? && span.0 < span.1 <= |SplitOn(was, '\n')|
    requires PairsAt(SplitOn(was, '\n'), span.0 + 1, span.1, i, j)
    ensures var d := Parse(was).value; var plain := ReasonPlain(was, name, span, reason);
      if Extra(name, reason, j.Some?) !! Nodes(d) then
        InPlaceRead(d, name, reason, plain) == Some(InPlaceDoc(d, name, reason, j.Some?))
      else !plain && j.None? && reason.Some? && FieldPath(name, "reason") in Nodes(d)
  {
    hide KeyPair, SplitOn, Parse, FieldPath, PersonallyOff, StateOff, InPlaceDoc;
    var d := Parse(was).value;
    if j.Some? || FieldPath(name, "reason") !in d.leaves {
      SwappedIs(d, name, reason, j.Some?);
    } else {
      KeptIs(d, name);
    }
  }

  /**
   What disabling in place gives, exactly: no document where the text is torn or a given reason is written beside one it
   does not find; the old reason kept where none is given and the one there is not found; what was meant otherwise.
   */
  lemma DisableReads(was: string, name: string, span: (nat, nat), reason: Option<string>)
    requires Parse(was).Some? && EntrySpan(SplitOn(was, '\n'), name) == Some(span)
      && DisableInPlace(was, span, reason).Some?
    ensures Parse(DisableInPlace(was, span, reason).value)
      == if TornOff(was, span, reason) then None
         else InPlaceRead(Parse(was).value, name, reason, ReasonPlain(was, name, span, reason))
  {
    hide Run, EntrySpan, InnerAll, Contains, FieldPath, EndsBare, Parse, InPlaceRead, Found, Placed, Put, KeyPair,
      OffBody,
      EndsWith, ReasonPlain, PairsAt, EntryPath, Nodes, EndsTorn, StartOf, Extra, Rewritten, DisableInPlace, TornOff,
        JoinWith;
    var lines := SplitOn(was, '\n');
    var crlf := Contains(was, "\r\n");
    ParsedRuns(was);
    InPlaceBody(was, span, reason);
    var i, j, a := PersonalFound(lines, name, span, reason, crlf);
    PlacedBounds(lines, span.0 + 1, span.1, i, j);
    InPlaceRuns(was, name, span, reason, i, j, a, if crlf then "\r" else "");
    PersonalEnds(lines, span, i, j, reason, crlf);
    ParseJoined(Rewritten(lines, span, Put(lines, span.0 + 1, span.1, i, j, reason, if crlf then "\r" else "")));
    InPlaceIs(was, span, reason, i, j);
  }

  /**
   Main result: disabling in place, where a personal entry's table was found, parses to the old document with only its
   state and reason changed exactly when the text is not torn and a reason the entry carries is one the rewrite finds.
   */
  lemma DisableCommutes(was: string, name: string, span: (nat, nat), reason: Option<string>)
    requires Parse(was).Some? && EntrySpan(SplitOn(was, '\n'), name) == Some(span)
      && DisableInPlace(was, span, reason).Some?
    ensures Parse(DisableInPlace(was, span, reason).value) == Some(PersonallyOff(Parse(was).value, name, reason))
      <==> !TornOff(was, span, reason) && ReasonPlain(was, name, span, reason)
  {
    hide EntrySpan, Parse, PersonallyOff, StateOff, ReasonPlain, DisableInPlace, TornOff, SplitOn;
    DisableReads(was, name, span, reason);
    if reason.None? && !ReasonPlain(was, name, span, reason) {
      NotPlain(was, name, span, reason);
    }
  }

  lemma NotPlain(was: string, name: string, span: (nat, nat), reason: Option<string>)
    requires Parse(was).Some? && span.0 < span.1 <= |SplitOn(was, '\n')| && !ReasonPlain(was, name, span, reason)
      && reason.None?
    ensures StateOff(Parse(was).value, name) != PersonallyOff(Parse(was).value, name, reason)
  {
    hide KeyPair, SplitOn, Parse, FieldPath, PersonallyOff, StateOff, Nodes, InPlaceDoc;
    KeptIs(Parse(was).value, name);
  }

  lemma InPlaceBody(was: string, span: (nat, nat), reason: Option<string>)
    requires span.0 < span.1 <= |SplitOn(was, '\n')| && DisableInPlace(was, span, reason).Some?
    ensures OffBody(SplitOn(was, '\n'), span.0 + 1, span.1, reason, Contains(was, "\r\n")).Some?
  {
    hide OffBody, SplitOn, JoinWith, Contains;
  }

  lemma InPlaceIs(was: string, span: (nat, nat), reason: Option<string>, i: nat, j: Option<nat>)
    requires span.0 < span.1 <= |SplitOn(was, '\n')|
    requires PairsAt(SplitOn(was, '\n'), span.0 + 1, span.1, i, j)
    ensures var lines := SplitOn(was, '\n'); var crlf := Contains(was, "\r\n");
      && DisableInPlace(was, span, reason)
        == Some(JoinWith(Rewritten(lines, span,
          Put(lines, span.0 + 1, span.1, i, j, reason, if crlf then "\r" else "")), '\n'))
      && TornOff(was, span, reason) == EndsTorn(lines, span.1, Some(i), j, reason, crlf)
  {
    hide KeyPair, Put, OffBody, Contains, SplitOn, JoinWith, EndsTorn;
    BodyIs(SplitOn(was, '\n'), span.0 + 1, span.1, reason, Contains(was, "\r\n"), i, j);
  }
}
