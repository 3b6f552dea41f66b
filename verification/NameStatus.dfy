/**
 The walk over `git diff --name-status -z`: a status token, then one path, or two for a rename or a copy.
 Both the outbox and the merge gate read their change lists this way.
 */
module NameStatus {
  import opened Text

  /** One reported change; `Two` is a rename or a copy and carries both its paths. */
  datatype Change<T> = One(status: seq<T>, path: seq<T>) | Two(status: seq<T>, source: seq<T>, dest: seq<T>)

  function Tokens<T>(changes: seq<Change<T>>): seq<seq<T>> {
    if changes == [] then []
    else
      (match changes[0]
       case One(status, path) => [status, path]
       case Two(status, source, dest) => [status, source, dest])
      + Tokens(changes[1..])
  }

  /** What git prints: every status has a letter, and the letter says how many paths follow. */
  predicate Printable<T>(changes: seq<Change<T>>, pair: T -> bool) {
    forall i :: 0 <= i < |changes| ==> changes[i].status != [] && (pair(changes[i].status[0]) <==> changes[i].Two?)
  }

  function Prepend<T>(head: seq<Change<T>>, rest: Option<seq<Change<T>>>): Option<seq<Change<T>>> {
    match rest
    case None => None
    case Some(changes) => Some(head + changes)
  }

  /** The changes a token list spells, or nothing where it stops inside one. */
  function Read<T>(tokens: seq<seq<T>>, pair: T -> bool): Option<seq<Change<T>>>
    requires forall i :: 0 <= i < |tokens| ==> tokens[i] != []
    decreases |tokens|
  {
    if tokens == [] then Some([])
    else if pair(tokens[0][0]) then
      if |tokens| < 3 then None else Prepend([Two(tokens[0], tokens[1], tokens[2])], Read(tokens[3..], pair))
    else
      if |tokens| < 2 then None else Prepend([One(tokens[0], tokens[1])], Read(tokens[2..], pair))
  }

  /** Reading undoes printing, whatever the paths are. */
  lemma {:induction false} ReadOfTokens<T>(changes: seq<Change<T>>, pair: T -> bool)
    requires Printable(changes, pair)
    requires forall i :: 0 <= i < |Tokens(changes)| ==> Tokens(changes)[i] != []
    ensures Read(Tokens(changes), pair) == Some(changes)
  {
    if changes != [] {
      var all := Tokens(changes);
      var n := if changes[0].Two? then 3 else 2;
      assert all[n..] == Tokens(changes[1..]);
      assert changes[0].status == all[0];
      ReadOfTokens(changes[1..], pair);
      assert [changes[0]] + changes[1..] == changes;
    }
  }

  lemma PrependNothing<T>(rest: Option<seq<Change<T>>>)
    ensures Prepend([], rest) == rest
  {
    if rest.Some? {
      assert [] + rest.value == rest.value;
    }
  }

  lemma PrependTwice<T>(a: seq<Change<T>>, b: seq<Change<T>>, rest: Option<seq<Change<T>>>)
    ensures Prepend(a, Prepend(b, rest)) == Prepend(a + b, rest)
  {
    if rest.Some? {
      assert a + (b + rest.value) == a + b + rest.value;
    }
  }

  /** The walk as both readers run it: an index that advances by two or three tokens. */
  method Walk<T>(tokens: seq<seq<T>>, pair: T -> bool) returns (changes: Option<seq<Change<T>>>)
    requires forall i :: 0 <= i < |tokens| ==> tokens[i] != []
    ensures changes == Read(tokens, pair)
  {
    var out: seq<Change<T>> := [];
    var index := 0;
    assert tokens[0..] == tokens;
    PrependNothing(Read(tokens, pair));
    while index < |tokens|
      invariant index <= |tokens|
      invariant Read(tokens, pair) == Prepend(out, Read(tokens[index..], pair))
    {
      var status := tokens[index];
      if pair(status[0]) {
        if index + 2 >= |tokens| {
          return None;
        }
        var change := Two(status, tokens[index + 1], tokens[index + 2]);
        assert tokens[index..][3..] == tokens[index + 3..];
        PrependTwice(out, [change], Read(tokens[index + 3..], pair));
        out := out + [change];
        index := index + 3;
      } else {
        if index + 1 >= |tokens| {
          return None;
        }
        var change := One(status, tokens[index + 1]);
        assert tokens[index..][2..] == tokens[index + 2..];
        PrependTwice(out, [change], Read(tokens[index + 2..], pair));
        out := out + [change];
        index := index + 2;
      }
    }
    assert out + [] == out;
    return Some(out);
  }
}
