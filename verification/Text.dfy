/** Splitting, joining and searching sequences: the string operations every component below leans on. */
module Text {

  datatype Option<+T> = None | Some(value: T)

  /** The pieces of `s` between occurrences of `sep`; always at least one. */
  function SplitOn<T(==)>(s: seq<T>, sep: T): (parts: seq<seq<T>>)
    ensures |parts| > 0
    ensures forall i :: 0 <= i < |parts| ==> sep !in parts[i]
  {
    if s == [] then [[]]
    else if s[0] == sep then [[]] + SplitOn(s[1..], sep)
    else
      var rest := SplitOn(s[1..], sep);
      [[s[0]] + rest[0]] + rest[1..]
  }

  /** The pieces with `sep` between them; no piece at all is the empty sequence. */
  function JoinWith<T>(parts: seq<seq<T>>, sep: T): seq<T> {
    if |parts| == 0 then []
    else if |parts| == 1 then parts[0]
    else parts[0] + [sep] + JoinWith(parts[1..], sep)
  }

  lemma {:induction false} SplitClean<T>(s: seq<T>, sep: T)
    requires sep !in s
    ensures SplitOn(s, sep) == [s]
  {
    if s != [] {
      SplitClean(s[1..], sep);
      assert [s[0]] + s[1..] == s;
    }
  }

  lemma {:induction false} SplitAppend<T>(head: seq<T>, sep: T, tail: seq<T>)
    requires sep !in head
    ensures SplitOn(head + [sep] + tail, sep) == [head] + SplitOn(tail, sep)
  {
    var s := head + [sep] + tail;
    if head == [] {
      assert s[1..] == tail;
    } else {
      SplitAppend(head[1..], sep, tail);
      assert s[1..] == head[1..] + [sep] + tail;
      assert [s[0]] + head[1..] == head;
    }
  }

  /** A split at a separator is the two sides' splits. */
  lemma {:induction false} SplitAround<T>(a: seq<T>, sep: T, b: seq<T>)
    ensures SplitOn(a + [sep] + b, sep) == SplitOn(a, sep) + SplitOn(b, sep)
    decreases |a|
  {
    hide SplitOn;
    var s := a + [sep] + b;
    SplitFirst(s, sep);
    if a == [] {
      assert s[1..] == b;
      SplitClean(a, sep);
    } else {
      SplitAround(a[1..], sep, b);
      SplitFirst(a, sep);
      assert s[1..] == a[1..] + [sep] + b;
    }
  }

  lemma SplitFirst<T>(s: seq<T>, sep: T)
    requires s != []
    ensures var rest := SplitOn(s[1..], sep);
      SplitOn(s, sep) == if s[0] == sep then [[]] + rest else [[s[0]] + rest[0]] + rest[1..]
  {
  }

  lemma {:induction false} JoinLast<T>(parts: seq<seq<T>>, sep: T)
    requires |parts| > 1
    ensures JoinWith(parts, sep) == JoinWith(parts[..|parts| - 1], sep) + [sep] + parts[|parts| - 1]
  {
    var n := |parts| - 1;
    if n > 1 {
      JoinLast(parts[1..], sep);
      assert parts[1..][..n - 1] == parts[..n][1..];
    } else {
      assert parts[1..] == [parts[1]] && parts[..1] == [parts[0]];
    }
  }

  /** Joining what a split produced gives the text back. */
  lemma {:induction false} JoinOfSplit<T>(s: seq<T>, sep: T)
    ensures JoinWith(SplitOn(s, sep), sep) == s
  {
    if s != [] {
      JoinOfSplit(s[1..], sep);
      var rest := SplitOn(s[1..], sep);
      if s[0] == sep {
        assert ([[]] + rest)[1..] == rest;
      } else if |rest| > 1 {
        assert ([[s[0]] + rest[0]] + rest[1..])[1..] == rest[1..];
      }
    }
  }

  /** Splitting what a join produced gives the pieces back. */
  lemma {:induction false} SplitOfJoin<T>(parts: seq<seq<T>>, sep: T)
    requires |parts| > 0
    requires forall i :: 0 <= i < |parts| ==> sep !in parts[i]
    ensures SplitOn(JoinWith(parts, sep), sep) == parts
  {
    if |parts| == 1 {
      SplitClean(parts[0], sep);
    } else {
      SplitOfJoin(parts[1..], sep);
      SplitAppend(parts[0], sep, JoinWith(parts[1..], sep));
    }
  }

  /** Every piece closed by `end`: the form a file of lines takes. */
  function Terminated<T>(parts: seq<seq<T>>, end: T): seq<T> {
    if parts == [] then [] else parts[0] + [end] + Terminated(parts[1..], end)
  }

  lemma {:induction false} TerminatedAppend<T>(a: seq<seq<T>>, b: seq<seq<T>>, end: T)
    ensures Terminated(a + b, end) == Terminated(a, end) + Terminated(b, end)
  {
    if a == [] {
      assert a + b == b;
    } else {
      assert (a + b)[1..] == a[1..] + b;
      TerminatedAppend(a[1..], b, end);
    }
  }

  lemma {:induction false} TerminatedIsJoin<T>(parts: seq<seq<T>>, end: T)
    requires parts != []
    ensures Terminated(parts, end) == JoinWith(parts, end) + [end]
  {
    if |parts| > 1 {
      TerminatedIsJoin(parts[1..], end);
    }
  }

  lemma FirstTerminated<T>(parts: seq<seq<T>>, end: T, tail: seq<T>)
    requires parts != []
    ensures Terminated(parts, end) + tail == parts[0] + [end] + (Terminated(parts[1..], end) + tail)
  {
  }

  /** A file of closed lines followed by `tail` splits into the lines and the split of `tail`. */
  lemma {:induction false} SplitTerminated<T>(parts: seq<seq<T>>, end: T, tail: seq<T>)
    requires forall i :: 0 <= i < |parts| ==> end !in parts[i]
    ensures SplitOn(Terminated(parts, end) + tail, end) == parts + SplitOn(tail, end)
  {
    hide SplitOn, Terminated;
    if parts == [] {
      NoneTerminated(parts, end, tail);
    } else {
      var rest := parts[1..];
      SplitTerminated(rest, end, tail);
      FirstTerminated(parts, end, tail);
      SplitAppend(parts[0], end, Terminated(rest, end) + tail);
      assert parts == [parts[0]] + rest;
      assert parts + SplitOn(tail, end) == [parts[0]] + (rest + SplitOn(tail, end));
    }
  }

  lemma NoneTerminated<T>(parts: seq<seq<T>>, end: T, tail: seq<T>)
    requires parts == []
    ensures Terminated(parts, end) + tail == tail && parts + SplitOn(tail, end) == SplitOn(tail, end)
  {
  }

  /** What opens the text, free of separators, opens its first piece. */
  lemma {:induction false} FirstPieceOpens<T>(s: seq<T>, sep: T, prefix: seq<T>)
    requires prefix <= s && sep !in prefix
    ensures prefix <= SplitOn(s, sep)[0] <= s
  {
    if s != [] && s[0] != sep {
      assert s == [s[0]] + s[1..];
      if prefix != [] {
        assert prefix == [s[0]] + prefix[1..];
        FirstPieceOpens(s[1..], sep, prefix[1..]);
      } else {
        FirstPieceOpens(s[1..], sep, []);
      }
    }
  }

  predicate StartsWith<T(==)>(s: seq<T>, prefix: seq<T>) {
    prefix <= s
  }

  predicate EndsWith<T(==)>(s: seq<T>, suffix: seq<T>) {
    |suffix| <= |s| && s[|s| - |suffix|..] == suffix
  }

  predicate OccursAt<T(==)>(needle: seq<T>, hay: seq<T>, i: nat) {
    i + |needle| <= |hay| && hay[i..i + |needle|] == needle
  }

  predicate Contains<T(==)>(hay: seq<T>, needle: seq<T>) {
    exists i :: 0 <= i <= |hay| && OccursAt(needle, hay, i)
  }

  lemma ContainsMiddle<T>(a: seq<T>, needle: seq<T>, b: seq<T>)
    ensures Contains(a + needle + b, needle)
  {
    assert OccursAt(needle, a + needle + b, |a|);
  }

  lemma ContainsWithin<T>(a: seq<T>, hay: seq<T>, b: seq<T>, needle: seq<T>)
    requires Contains(hay, needle)
    ensures Contains(a + hay + b, needle)
  {
    var i :| 0 <= i <= |hay| && OccursAt(needle, hay, i);
    assert hay == hay[..i] + needle + hay[i + |needle|..];
    assert a + hay + b == (a + hay[..i]) + needle + (hay[i + |needle|..] + b);
    ContainsMiddle(a + hay[..i], needle, hay[i + |needle|..] + b);
  }

  /** A needle in one piece is a needle in the joined text. */
  lemma {:induction false} ContainsJoined<T>(parts: seq<seq<T>>, sep: T, k: nat, needle: seq<T>)
    requires k < |parts| && Contains(parts[k], needle)
    ensures Contains(JoinWith(parts, sep), needle)
  {
    if |parts| == 1 {
    } else if k == 0 {
      ContainsWithin([], parts[0], [sep] + JoinWith(parts[1..], sep), needle);
      assert [] + parts[0] + ([sep] + JoinWith(parts[1..], sep)) == JoinWith(parts, sep);
    } else {
      ContainsJoined(parts[1..], sep, k - 1, needle);
      ContainsWithin(parts[0] + [sep], JoinWith(parts[1..], sep), [], needle);
      assert parts[0] + [sep] + JoinWith(parts[1..], sep) + [] == JoinWith(parts, sep);
    }
  }

  /** A lowercase hexadecimal sha256 digest. */
  predicate IsDigest(s: string) {
    |s| == 64 && forall i :: 0 <= i < |s| ==> '0' <= s[i] <= '9' || 'a' <= s[i] <= 'f'
  }
}
