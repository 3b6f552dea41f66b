/** Reading events back: every file's finished lines, in file order, then a stable sort by time. */
module LogReading {
  import opened Text
  import opened Utf8
  import opened ProcessLog

  /** The events of some lines; a line that is no JSON object is skipped. */
  function Events<E>(lines: seq<seq<Byte>>, parse: seq<Byte> -> Option<E>): seq<E> {
    if lines == [] then []
    else Events(lines[..|lines| - 1], parse) + match parse(lines[|lines| - 1]) case None => [] case Some(e) => [e]
  }

  lemma {:induction false} EventsAppend<E>(a: seq<seq<Byte>>, b: seq<seq<Byte>>, parse: seq<Byte> -> Option<E>)
    ensures Events(a + b, parse) == Events(a, parse) + Events(b, parse)
    decreases |b|
  {
    if b == [] {
      assert a + b == a;
    } else {
      var n := |b| - 1;
      assert (a + b)[..|a + b| - 1] == a + b[..n];
      EventsAppend(a, b[..n], parse);
    }
  }

  function AllEvents<E>(datas: seq<seq<Byte>>, parse: seq<Byte> -> Option<E>): seq<E> {
    if datas == [] then [] else AllEvents(datas[..|datas| - 1], parse) + Events(LinesOf(datas[|datas| - 1]), parse)
  }

  // --- the stable sort ---

  /** Nothing later is earlier in time. */
  predicate InOrder<E>(xs: seq<E>, at: E -> int) {
    forall i, j :: 0 <= i < j < |xs| ==> at(xs[i]) <= at(xs[j])
  }

  /** After every element no later than it. */
  function Insert<E>(xs: seq<E>, e: E, at: E -> int): seq<E> {
    if xs != [] && at(e) < at(xs[|xs| - 1]) then Insert(xs[..|xs| - 1], e, at) + [xs[|xs| - 1]] else xs + [e]
  }

  function StableSort<E>(xs: seq<E>, at: E -> int): seq<E> {
    if xs == [] then [] else Insert(StableSort(xs[..|xs| - 1], at), xs[|xs| - 1], at)
  }

  /** The elements of one time, in order. */
  function AtTime<E>(xs: seq<E>, at: E -> int, t: int): seq<E> {
    if xs == [] then []
    else AtTime(xs[..|xs| - 1], at, t) + if at(xs[|xs| - 1]) == t then [xs[|xs| - 1]] else []
  }

  lemma LastApart<E>(xs: seq<E>)
    requires xs != []
    ensures multiset(xs) == multiset(xs[..|xs| - 1]) + multiset{xs[|xs| - 1]}
  {
    assert xs == xs[..|xs| - 1] + [xs[|xs| - 1]];
  }

  lemma InsertLast<E>(xs: seq<E>, x: E, e: E, at: E -> int)
    ensures Insert(xs + [x], e, at) == if at(e) < at(x) then Insert(xs, e, at) + [x] else xs + [x] + [e]
    ensures Insert([], e, at) == [e]
  {
    assert (xs + [x])[..|xs|] == xs;
  }

  lemma AtTimeLast<E>(xs: seq<E>, x: E, at: E -> int, t: int)
    ensures AtTime(xs + [x], at, t) == AtTime(xs, at, t) + if at(x) == t then [x] else []
    ensures AtTime([], at, t) == []
  {
    assert (xs + [x])[..|xs|] == xs;
  }

  lemma SortLast<E>(xs: seq<E>, x: E, at: E -> int)
    ensures StableSort(xs + [x], at) == Insert(StableSort(xs, at), x, at) && StableSort([], at) == []
  {
    assert (xs + [x])[..|xs|] == xs;
  }

  lemma SplitLast<E>(xs: seq<E>) returns (short: seq<E>, last: E)
    requires xs != []
    ensures xs == short + [last] && |short| + 1 == |xs|
  {
    short, last := xs[..|xs| - 1], xs[|xs| - 1];
  }

  predicate UpTo<E>(xs: seq<E>, at: E -> int, bound: int) {
    forall i :: 0 <= i < |xs| ==> at(xs[i]) <= bound
  }

  lemma OrderLast<E>(xs: seq<E>, x: E, at: E -> int)
    ensures InOrder(xs + [x], at) <==> InOrder(xs, at) && UpTo(xs, at, at(x))
    ensures forall b :: UpTo(xs + [x], at, b) <==> UpTo(xs, at, b) && at(x) <= b
    ensures InOrder<E>([], at)
  {
    var all := xs + [x];
    assert forall i :: 0 <= i < |xs| ==> all[i] == xs[i];
    if InOrder(all, at) {
      assert forall i, j :: 0 <= i < j < |xs| ==> at(all[i]) <= at(all[j]);
      assert forall i :: 0 <= i < |xs| ==> at(all[i]) <= at(all[|xs|]);
    }
    forall b
      ensures UpTo(all, at, b) <==> UpTo(xs, at, b) && at(x) <= b
    {
      if UpTo(all, at, b) {
        assert forall i :: 0 <= i < |xs| ==> at(all[i]) <= b;
        assert at(all[|xs|]) <= b;
      }
    }
  }

  lemma {:induction false} InsertKeeps<E>(xs: seq<E>, e: E, at: E -> int)
    ensures multiset(Insert(xs, e, at)) == multiset(xs) + multiset{e}
    decreases |xs|
  {
    hide Insert;
    if xs == [] {
      InsertLast(xs, e, e, at);
    } else {
      var short, x := SplitLast(xs);
      InsertLast(short, x, e, at);
      InsertKeeps(short, e, at);
    }
  }

  /** What is put in order stays in order, and below any bound of it all. */
  lemma {:induction false} InsertOrders<E>(xs: seq<E>, e: E, at: E -> int)
    requires InOrder(xs, at)
    ensures InOrder(Insert(xs, e, at), at)
    ensures forall b :: UpTo(xs, at, b) && at(e) <= b ==> UpTo(Insert(xs, e, at), at, b)
    decreases |xs|
  {
    hide Insert, InOrder, UpTo;
    if xs == [] {
      InsertLast(xs, e, e, at);
      OrderLast(xs, e, at);
      assert xs + [e] == [e];
      NothingUpTo(xs, at, at(e));
    } else {
      var short, x := SplitLast(xs);
      InsertLast(short, x, e, at);
      OrderLast(short, x, at);
      if at(e) < at(x) {
        InsertOrders(short, e, at);
        OrderLast(Insert(short, e, at), x, at);
      } else {
        OrderLast(xs, e, at);
        Raised(short, at, at(x), at(e));
      }
    }
  }

  lemma NothingUpTo<E>(xs: seq<E>, at: E -> int, b: int)
    requires xs == []
    ensures UpTo(xs, at, b)
  {
  }

  lemma Raised<E>(xs: seq<E>, at: E -> int, b: int, c: int)
    requires UpTo(xs, at, b) && b <= c
    ensures UpTo(xs, at, c)
  {
  }

  lemma {:induction false} InsertStable<E>(xs: seq<E>, e: E, at: E -> int, t: int)
    ensures AtTime(Insert(xs, e, at), at, t) == AtTime(xs, at, t) + if at(e) == t then [e] else []
    decreases |xs|
  {
    hide Insert, AtTime;
    if xs == [] {
      InsertLast(xs, e, e, at);
      AtTimeLast(xs, e, at, t);
      assert xs + [e] == [e];
    } else {
      var short, x := SplitLast(xs);
      InsertLast(short, x, e, at);
      AtTimeLast(short, x, at, t);
      if at(e) < at(x) {
        InsertStable(short, e, at, t);
        AtTimeLast(Insert(short, e, at), x, at, t);
      } else {
        AtTimeLast(xs, e, at, t);
      }
    }
  }

  /** The sort orders by time, keeps every event, and keeps events sharing a time in the order they came. */
  lemma {:induction false} SortIsStable<E>(xs: seq<E>, at: E -> int, t: int)
    ensures InOrder(StableSort(xs, at), at) && multiset(StableSort(xs, at)) == multiset(xs)
    ensures AtTime(StableSort(xs, at), at, t) == AtTime(xs, at, t)
    decreases |xs|
  {
    hide Insert, AtTime, StableSort, InOrder;
    if xs == [] {
      NothingSorted(xs, at, t);
    } else {
      var short, x := SplitLast(xs);
      SortIsStable(short, at, t);
      SortLast(short, x, at);
      InsertKeeps(StableSort(short, at), x, at);
      InsertOrders(StableSort(short, at), x, at);
      InsertStable(StableSort(short, at), x, at, t);
      AtTimeLast(short, x, at, t);
    }
  }

  lemma NothingSorted<E>(xs: seq<E>, at: E -> int, t: int)
    requires xs == []
    ensures StableSort(xs, at) == xs && InOrder(xs, at) && AtTime(xs, at, t) == []
  {
  }

  /** `read_events` over the files' contents in name order. */
  method ReadEvents<E>(datas: seq<seq<Byte>>, parse: seq<Byte> -> Option<E>, at: E -> int) returns (events: seq<E>)
    ensures events == StableSort(AllEvents(datas, parse), at)
  {
    var read: seq<E> := [];
    for i := 0 to |datas|
      invariant read == AllEvents(datas[..i], parse)
    {
      hide LinesOf;
      var lines := LinesOf(datas[i]);
      var own: seq<E> := [];
      for k := 0 to |lines|
        invariant own == Events(lines[..k], parse)
      {
        assert lines[..k + 1][..k] == lines[..k];
        var e := parse(lines[k]);
        if e.Some? {
          own := own + [e.value];
        }
      }
      assert lines[..|lines|] == lines;
      assert datas[..i + 1][..i] == datas[..i];
      read := read + own;
    }
    assert datas[..|datas|] == datas;
    events := [];
    for i := 0 to |read|
      invariant events == StableSort(read[..i], at)
    {
      assert read[..i + 1][..i] == read[..i];
      events := Insert(events, read[i], at);
    }
    assert read[..|read|] == read;
  }

  // --- one writer's events come back in the order written ---

  predicate StrictlyLater<E>(xs: seq<E>, at: E -> int) {
    forall i, j :: 0 <= i < j < |xs| ==> at(xs[i]) < at(xs[j])
  }

  lemma SameLast<E>(a: seq<E>, b: seq<E>, at: E -> int)
    requires InOrder(a, at) && StrictlyLater(b, at) && multiset(a) == multiset(b) && a != []
    ensures |a| == |b| && a[|a| - 1] == b[|b| - 1]
  {
    assert |a| == |multiset(a)| && |b| == |multiset(b)|;
    var n := |a| - 1;
    assert a[n] in multiset(b) && b[n] in multiset(a);
    var i :| 0 <= i <= n && b[i] == a[n];
    var j :| 0 <= j <= n && a[j] == b[n];
    assert at(a[j]) <= at(a[n]);
    assert i == n;
  }

  lemma SameRest<E>(a: seq<E>, b: seq<E>)
    requires multiset(a) == multiset(b) && a != [] && |a| == |b| && a[|a| - 1] == b[|b| - 1]
    ensures multiset(a[..|a| - 1]) == multiset(b[..|b| - 1])
  {
    LastApart(a);
    LastApart(b);
    assert multiset(a[..|a| - 1]) == multiset(a) - multiset{a[|a| - 1]};
    assert multiset(b[..|b| - 1]) == multiset(b) - multiset{b[|b| - 1]};
  }

  /** An ordered arrangement of events no two of which share a time is the one in strict order. */
  lemma {:induction false} OneOrder<E>(a: seq<E>, b: seq<E>, at: E -> int)
    requires InOrder(a, at) && StrictlyLater(b, at) && multiset(a) == multiset(b)
    ensures a == b
  {
    if a == [] {
      assert |b| == |multiset(b)|;
    } else {
      var n := |a| - 1;
      SameLast(a, b, at);
      SameRest(a, b);
      OneOrder(a[..n], b[..n], at);
      assert a == a[..n] + [a[n]] && b == b[..n] + [b[n]];
    }
  }

  /** The files in name order: the current one, then the rotations from the newest. */
  function UpFrom(files: map<nat, seq<Byte>>, n: nat): seq<seq<Byte>> {
    (if n == 0 then [] else UpFrom(files, n - 1)) + if n in files then [files[n]] else []
  }

  lemma {:induction false} AllEventsAppend<E>(a: seq<seq<Byte>>, data: seq<Byte>, parse: seq<Byte> -> Option<E>)
    ensures AllEvents(a + [data], parse) == AllEvents(a, parse) + Events(LinesOf(data), parse)
  {
    assert (a + [data])[..|a|] == a;
  }

  lemma {:induction false} SameEvents<E>(files: map<nat, seq<Byte>>, n: nat, parse: seq<Byte> -> Option<E>)
    ensures multiset(AllEvents(UpFrom(files, n), parse)) == multiset(Events(LinesDown(files, n), parse))
  {
    hide LinesOf, Events, AllEvents, LinesDown, UpFrom;
    var own := if n in files then LinesOf(files[n]) else [];
    var below := if n == 0 then [] else LinesDown(files, n - 1);
    var before := if n == 0 then [] else UpFrom(files, n - 1);
    FilesStep(files, n);
    NoEvents(parse);
    if n > 0 {
      SameEvents(files, n - 1, parse);
    }
    EventsAppend(own, below, parse);
    if n in files {
      AllEventsAppend(before, files[n], parse);
    } else {
      assert own + below == below;
    }
  }

  lemma FilesStep(files: map<nat, seq<Byte>>, n: nat)
    ensures LinesDown(files, n)
      == (if n in files then LinesOf(files[n]) else []) + if n == 0 then [] else LinesDown(files, n - 1)
    ensures UpFrom(files, n)
      == if n in files then (if n == 0 then [] else UpFrom(files, n - 1)) + [files[n]]
         else if n == 0 then [] else UpFrom(files, n - 1)
  {
    hide LinesOf;
  }

  lemma NoEvents<E>(parse: seq<Byte> -> Option<E>)
    ensures Events([], parse) == [] && AllEvents([], parse) == []
  {
  }

  lemma SuffixSplits(writer: seq<seq<Byte>>, kept: seq<seq<Byte>>)
    requires IsSuffix(kept, writer)
    ensures writer == writer[..|writer| - |kept|] + kept
  {
  }

  /**
   Whatever the rotations left and in whatever gaps, reading a writer's files gives the newest events written, in the
   order written, when no two share a time and time did not run backwards.
   */
  lemma ReadsInWrittenOrder<E>(w: Writer, parse: seq<Byte> -> Option<E>, at: E -> int)
    requires w.Valid() && StrictlyLater(Events(w.written, parse), at)
    ensures StableSort(AllEvents(UpFrom(w.files, ROTATED_KEEP), parse), at) == Events(w.Lines(), parse)
    ensures IsSuffix(Events(w.Lines(), parse), Events(w.written, parse))
  {
    hide LinesDown, Kept, Events, AllEvents, UpFrom, StableSort, InOrder, StrictlyLater, LinesOf;
    var kept := Events(w.Lines(), parse);
    KeptEvents(w.written, w.Lines(), parse, at);
    SameEvents(w.files, ROTATED_KEEP, parse);
    var read := AllEvents(UpFrom(w.files, ROTATED_KEEP), parse);
    SortIsStable(read, at, 0);
    OneOrder(StableSort(read, at), kept, at);
  }

  /** The events of the newest lines are the newest events. */
  lemma KeptEvents<E>(written: seq<seq<Byte>>, lines: seq<seq<Byte>>, parse: seq<Byte> -> Option<E>, at: E -> int)
    requires IsSuffix(lines, written) && StrictlyLater(Events(written, parse), at)
    ensures IsSuffix(Events(lines, parse), Events(written, parse)) && StrictlyLater(Events(lines, parse), at)
  {
    hide Events;
    SuffixSplits(written, lines);
    EventsAppend(written[..|written| - |lines|], lines, parse);
    var all, kept := Events(written, parse), Events(lines, parse);
    assert forall i :: 0 <= i < |kept| ==> kept[i] == all[|all| - |kept| + i];
  }
}
