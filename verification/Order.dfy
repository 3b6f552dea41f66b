/** The order strings sort in, and the one sorted listing of a set of strings. */
module Order {

  /** Lexicographic by code point, as `sorted` compares strings. */
  predicate Less(a: string, b: string) {
    b != [] && (a == [] || a[0] < b[0] || (a[0] == b[0] && Less(a[1..], b[1..])))
  }

  lemma {:induction false} LessTotal(a: string, b: string)
    ensures a == b || Less(a, b) || Less(b, a)
  {
    if a != [] && b != [] && a[0] == b[0] {
      LessTotal(a[1..], b[1..]);
      assert a == [a[0]] + a[1..] && b == [b[0]] + b[1..];
    }
  }

  lemma {:induction false} LessAsymmetric(a: string, b: string)
    requires Less(a, b)
    ensures a != b && !Less(b, a)
  {
    if a != [] && a[0] == b[0] {
      LessAsymmetric(a[1..], b[1..]);
    }
  }

  lemma {:induction false} LessTransitive(a: string, b: string, c: string)
    requires Less(a, b) && Less(b, c)
    ensures Less(a, c)
  {
    if a != [] && a[0] == b[0] == c[0] {
      LessTransitive(a[1..], b[1..], c[1..]);
    }
  }

  /** What is prefixed alike is ordered by what follows. */
  lemma {:induction false} LessPrefixed(p: string, a: string, b: string)
    ensures Less(p + a, p + b) <==> Less(a, b)
  {
    if p == [] {
      assert p + a == a && p + b == b;
    } else {
      assert (p + a)[1..] == p[1..] + a && (p + b)[1..] == p[1..] + b;
      LessPrefixed(p[1..], a, b);
    }
  }

  predicate Increasing(xs: seq<string>) {
    forall i, j :: 0 <= i < j < |xs| ==> Less(xs[i], xs[j])
  }

  ghost predicate Lists(xs: seq<string>, s: set<string>) {
    Increasing(xs) && (forall x :: x in xs <==> x in s)
  }

  ghost predicate IsLeast(m: string, s: set<string>) {
    m in s && forall x :: x in s && x != m ==> Less(m, x)
  }

  lemma {:induction false} LeastExists(s: set<string>) returns (m: string)
    requires s != {}
    ensures IsLeast(m, s)
  {
    var x :| x in s;
    if s == {x} {
      m := x;
    } else {
      var n := LeastExists(s - {x});
      LessTotal(x, n);
      if Less(x, n) {
        m := x;
        forall y | y in s && y != x
          ensures Less(x, y)
        {
          if y != n {
            LessTransitive(x, n, y);
          }
        }
      } else {
        m := n;
      }
    }
  }

  ghost function Least(s: set<string>): (m: string)
    requires s != {}
    ensures IsLeast(m, s)
  {
    assert exists n :: IsLeast(n, s) by { var n := LeastExists(s); }
    var m :| IsLeast(m, s);
    m
  }

  /** The sorted listing. */
  ghost function Sorted(s: set<string>): (xs: seq<string>)
    ensures Lists(xs, s)
  {
    if s == {} then []
    else
      var m := Least(s);
      [m] + Sorted(s - {m})
  }

  lemma {:induction false} ListingUnique(xs: seq<string>, ys: seq<string>, s: set<string>)
    requires Lists(xs, s) && Lists(ys, s)
    ensures xs == ys
  {
    assert ys != [] ==> ys[0] in s;
    if xs != [] {
      assert xs[0] in s;
      var i :| 0 <= i < |ys| && ys[i] == xs[0];
      var j :| 0 <= j < |xs| && xs[j] == ys[0];
      if i > 0 && j > 0 {
        LessAsymmetric(xs[0], xs[j]);
      }
      assert xs[0] == ys[0];
      TailLists(xs, s);
      TailLists(ys, s);
      ListingUnique(xs[1..], ys[1..], s - {xs[0]});
      assert xs == [xs[0]] + xs[1..] && ys == [ys[0]] + ys[1..];
    }
  }

  lemma TailLists(xs: seq<string>, s: set<string>)
    requires Lists(xs, s) && xs != []
    ensures Lists(xs[1..], s - {xs[0]})
  {
    var tail := xs[1..];
    forall x
      ensures x in tail <==> x in s - {xs[0]}
    {
      if x in tail {
        var k :| 0 <= k < |tail| && tail[k] == x;
        assert Less(xs[0], xs[k + 1]);
        LessAsymmetric(xs[0], xs[k + 1]);
      }
      if x in s - {xs[0]} {
        var k :| 0 <= k < |xs| && xs[k] == x;
        assert tail[k - 1] == x;
      }
    }
  }

  /** `sorted` of a set of strings. */
  method Sort(s: set<string>) returns (xs: seq<string>)
    ensures xs == Sorted(s)
  {
    xs := [];
    var left := s;
    while left != {}
      invariant left <= s
      invariant Lists(xs, s - left)
      decreases left
    {
      var x :| x in left;
      xs := Insert(xs, x, s - left);
      assert s - left + {x} == s - (left - {x});
      left := left - {x};
    }
    assert s - left == s;
    ListingUnique(xs, Sorted(s), s);
  }

  method Insert(xs: seq<string>, x: string, ghost s: set<string>) returns (out: seq<string>)
    requires Lists(xs, s) && x !in s
    ensures Lists(out, s + {x})
  {
    var k := 0;
    while k < |xs| && Less(xs[k], x)
      invariant k <= |xs|
      invariant forall i :: 0 <= i < k ==> Less(xs[i], x)
    {
      k := k + 1;
    }
    out := xs[..k] + [x] + xs[k..];
    forall i | k <= i < |xs|
      ensures Less(x, xs[i])
    {
      assert xs[k] in xs;
      LessTotal(x, xs[k]);
      if i > k {
        LessTransitive(x, xs[k], xs[i]);
      }
    }
    Inserted(xs, x, k, s);
  }

  lemma Inserted(xs: seq<string>, x: string, k: nat, s: set<string>)
    requires Lists(xs, s) && k <= |xs|
    requires forall i :: 0 <= i < k ==> Less(xs[i], x)
    requires forall i :: k <= i < |xs| ==> Less(x, xs[i])
    ensures Lists(xs[..k] + [x] + xs[k..], s + {x})
  {
    var out := xs[..k] + [x] + xs[k..];
    forall y | y in s + {x}
      ensures y in out
    {
      if y in s {
        var i :| 0 <= i < |xs| && xs[i] == y;
        assert out[if i < k then i else i + 1] == y;
      } else {
        assert out[k] == x;
      }
    }
  }
}
