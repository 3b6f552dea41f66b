/** The sweep that bounds the log directory: oldest candidates first, until what is left fits or none is left to try. */
module LogSweep {
  import opened Text
  import opened Order
  import Decimal

  const DIRECTORY_CAP_BYTES := 50 * 1024 * 1024

  /** A file directly under the log directory, or under its payload area. */
  datatype Path = Path(inFiles: bool, name: string)

  /** A regular file's stat; anything else, or a stat that failed. */
  datatype Info = Regular(size: nat, mtime: int) | Other

  datatype Candidate = Candidate(mtime: int, size: nat, path: Path)

  // --- which files the sweep may take ---

  function TrailingDigits(name: string): (k: nat)
    ensures k <= |name|
  {
    if name != "" && Decimal.IsDigit(name[|name| - 1]) then 1 + TrailingDigits(name[..|name| - 1]) else 0
  }

  predicate EndsRotated(name: string) {
    var k := TrailingDigits(name);
    k > 0 && EndsWith(name[..|name| - k], ".jsonl.")
  }

  /** A rotated file: a sequence suffix after the writer's own, at the end or before a last line feed. */
  predicate IsRotated(name: string) {
    EndsRotated(name) || (EndsWith(name, "\n") && EndsRotated(name[..|name| - 1]))
  }

  /** The part of a name from its last dot, where that is neither its first character nor its last. */
  function Suffix(name: string): string {
    var parts := SplitOn(name, '.');
    var last := parts[|parts| - 1];
    if |parts| == 1 || last == "" || |last| + 1 >= |name| then "" else "." + last
  }

  /** Rotated files and published payloads at any age; current and staging files once abandoned. */
  predicate MayTake(path: Path, mtime: int, cutoff: int) {
    if path.inFiles then Suffix(path.name) != ".part" || mtime <= cutoff
    else IsRotated(path.name) || (Suffix(path.name) == ".jsonl" && mtime <= cutoff)
  }

  function InfoAt(nodes: map<Path, Info>, path: Path): Info {
    if path in nodes then nodes[path] else Other
  }

  function SizeAt(nodes: map<Path, Info>, path: Path): nat {
    match InfoAt(nodes, path) case Regular(size, _) => size case Other => 0
  }

  /** What the listed regular files hold together. */
  function Total(nodes: map<Path, Info>, listing: seq<Path>): nat {
    if listing == [] then 0 else Total(nodes, listing[..|listing| - 1]) + SizeAt(nodes, listing[|listing| - 1])
  }

  function Candidates(nodes: map<Path, Info>, listing: seq<Path>, cutoff: int): seq<Candidate> {
    if listing == [] then []
    else
      var path := listing[|listing| - 1];
      Candidates(nodes, listing[..|listing| - 1], cutoff)
      + match InfoAt(nodes, path)
        case Regular(size, mtime) => (if MayTake(path, mtime, cutoff) then [Candidate(mtime, size, path)] else [])
        case Other => []
  }

  predicate Distinct(listing: seq<Path>) {
    forall i, j :: 0 <= i < j < |listing| ==> listing[i] != listing[j]
  }

  /** A candidate is a listed regular file the sweep may take, as it stands. */
  lemma {:induction false} CandidateIs(nodes: map<Path, Info>, listing: seq<Path>, cutoff: int, c: Candidate)
    ensures c in Candidates(nodes, listing, cutoff) <==>
      c.path in listing && InfoAt(nodes, c.path) == Regular(c.size, c.mtime) && MayTake(c.path, c.mtime, cutoff)
  {
    hide MayTake;
    if listing != [] {
      var n := |listing| - 1;
      CandidateIs(nodes, listing[..n], cutoff, c);
      assert listing == listing[..n] + [listing[n]];
    }
  }

  // --- what the rules say of a name ---

  lemma {:induction false} DigitsTrail(stem: string, digits: string)
    requires Decimal.AllDigits(digits) && (stem == "" || !Decimal.IsDigit(stem[|stem| - 1]))
    ensures TrailingDigits(stem + digits) == |digits|
    decreases |digits|
  {
    var name := stem + digits;
    if digits == "" {
      assert name == stem;
    } else {
      assert name[..|name| - 1] == stem + digits[..|digits| - 1];
      DigitsTrail(stem, digits[..|digits| - 1]);
    }
  }

  lemma {:induction false} TrailAreDigits(name: string)
    ensures Decimal.AllDigits(name[|name| - TrailingDigits(name)..])
  {
    if name != "" && Decimal.IsDigit(name[|name| - 1]) {
      var short := name[..|name| - 1];
      TrailAreDigits(short);
      var k := TrailingDigits(short);
      assert name[|name| - k - 1..] == short[|short| - k..] + [name[|name| - 1]];
    }
  }

  lemma RotatedShape(name: string)
    ensures EndsRotated(name) <==>
      exists stem, digits :: digits != "" && Decimal.AllDigits(digits) && name == stem + ".jsonl." + digits
  {
    if EndsRotated(name) {
      var k := TrailingDigits(name);
      TrailAreDigits(name);
      var head := name[..|name| - k];
      var stem, digits := head[..|head| - 7], name[|name| - k..];
      assert name == stem + ".jsonl." + digits;
    }
    if stem, digits :| digits != "" && Decimal.AllDigits(digits) && name == stem + ".jsonl." + digits {
      DigitsTrail(stem + ".jsonl.", digits);
      assert name[..|name| - |digits|] == stem + ".jsonl.";
    }
  }

  /** A suffix is what follows a name's last dot, where something stands before it. */
  lemma SuffixShape(name: string, ext: string)
    requires ext != "" && '.' !in ext
    ensures Suffix(name) == "." + ext <==> exists stem :: stem != "" && name == stem + ("." + ext)
  {
    hide SplitOn, JoinWith;
    var parts := SplitOn(name, '.');
    var n := |parts| - 1;
    if Suffix(name) == "." + ext {
      JoinOfSplit(name, '.');
      JoinLast(parts, '.');
      assert parts[n] == ("." + ext)[1..] == ext;
      var stem := JoinWith(parts[..n], '.');
      assert name == stem + ("." + ext);
    }
    if stem :| stem != "" && name == stem + ("." + ext) {
      SplitAround(stem, '.', ext);
      SplitClean(ext, '.');
      assert name == stem + ['.'] + ext;
    }
  }

  lemma Extensions(name: string)
    ensures Suffix(name) == ".jsonl" <==> exists stem :: stem != "" && name == stem + ".jsonl"
    ensures Suffix(name) == ".part" <==> exists stem :: stem != "" && name == stem + ".part"
  {
    SuffixShape(name, "jsonl");
    SuffixShape(name, "part");
    assert "." + "jsonl" == ".jsonl" && "." + "part" == ".part";
  }

  /**
   What the sweep may take, by name: under the log directory a rotated file at any age and a writer's current file once
   its last write is not after the cutoff; in the payload area anything but a staging file younger than that.
   */
  lemma TakenByName(path: Path, mtime: int, cutoff: int)
    ensures path.inFiles ==>
      (MayTake(path, mtime, cutoff) <==> forall stem :: stem != "" && path.name == stem + ".part" ==> mtime <= cutoff)
    ensures !path.inFiles ==>
      (MayTake(path, mtime, cutoff) <==>
        || (exists stem, digits :: digits != "" && Decimal.AllDigits(digits)
              && (path.name == stem + ".jsonl." + digits || path.name == stem + ".jsonl." + digits + "\n"))
        || (mtime <= cutoff && exists stem :: stem != "" && path.name == stem + ".jsonl"))
  {
    Extensions(path.name);
    RotatedName(path.name);
    hide Suffix, EndsRotated, IsRotated;
  }

  lemma RotatedName(name: string)
    ensures IsRotated(name) <==> exists stem, digits ::
      digits != "" && Decimal.AllDigits(digits)
      && (name == stem + ".jsonl." + digits || name == stem + ".jsonl." + digits + "\n")
  {
    hide EndsRotated;
    RotatedShape(name);
    if EndsWith(name, "\n") {
      var short := name[..|name| - 1];
      RotatedShape(short);
      assert name == short + "\n";
    }
    if stem, digits :| digits != "" && Decimal.AllDigits(digits) && name == stem + ".jsonl." + digits + "\n" {
      assert name[..|name| - 1] == stem + ".jsonl." + digits && name[|name| - 1..] == "\n";
    }
  }

  /** The sweep may not take a current or a staging file written after the cutoff. */
  lemma StillWritten(stem: string, mtime: int, cutoff: int)
    requires stem != "" && mtime > cutoff
    ensures !MayTake(Path(false, stem + ".jsonl"), mtime, cutoff) && !MayTake(Path(true, stem + ".part"), mtime, cutoff)
  {
    TakenByName(Path(false, stem + ".jsonl"), mtime, cutoff);
    TakenByName(Path(true, stem + ".part"), mtime, cutoff);
    var name := stem + ".jsonl";
    forall other, digits: string | digits != "" && Decimal.AllDigits(digits)
      ensures name != other + ".jsonl." + digits && name != other + ".jsonl." + digits + "\n"
    {
      assert name[|name| - 1] == 'l';
      assert (other + ".jsonl." + digits)[|other + ".jsonl." + digits| - 1] == digits[|digits| - 1];
      assert (other + ".jsonl." + digits + "\n")[|other + ".jsonl." + digits|] == '\n';
    }
  }

  /** What is not taken stays as it is. */
  lemma NeverTaken(was: map<Path, Info>, listing: seq<Path>, cutoff: int, cs: seq<Candidate>, tried: nat,
                   refuses: Path -> bool, p: Path)
    requires multiset(cs) == multiset(Candidates(was, listing, cutoff)) && tried <= |cs|
    requires p in was && was[p].Regular? && !MayTake(p, was[p].mtime, cutoff)
    ensures p !in Taken(cs[..tried], refuses)
  {
    hide MayTake, Taken, Candidates;
    TakenIs(cs[..tried], refuses, p);
    if i :| 0 <= i < tried && cs[..tried][i].path == p {
      assert cs[i] in multiset(cs);
      CandidateIs(was, listing, cutoff, cs[i]);
    }
  }

  // --- taking one ---

  lemma {:induction false} TotalLocal(a: map<Path, Info>, b: map<Path, Info>, listing: seq<Path>)
    requires forall p :: p in listing ==> InfoAt(a, p) == InfoAt(b, p)
    ensures Total(a, listing) == Total(b, listing)
  {
    if listing != [] {
      var n := |listing| - 1;
      assert listing[n] in listing;
      forall p | p in listing[..n]
        ensures InfoAt(a, p) == InfoAt(b, p)
      {
        assert p in listing;
      }
      TotalLocal(a, b, listing[..n]);
    }
  }

  /** A file gone takes exactly its own size from the total. */
  lemma {:induction false} TotalRemoved(nodes: map<Path, Info>, listing: seq<Path>, path: Path)
    requires Distinct(listing) && path in listing
    ensures Total(nodes - {path}, listing) + SizeAt(nodes, path) == Total(nodes, listing)
  {
    var n := |listing| - 1;
    if listing[n] == path {
      forall p | p in listing[..n]
        ensures InfoAt(nodes, p) == InfoAt(nodes - {path}, p)
      {
        var k :| 0 <= k < n && listing[k] == p;
      }
      TotalLocal(nodes, nodes - {path}, listing[..n]);
    } else {
      var k :| 0 <= k <= n && listing[k] == path;
      assert listing[..n][k] == path;
      TotalRemoved(nodes, listing[..n], path);
    }
  }

  // --- oldest first ---

  /** A path's first part under the directory. */
  function Top(p: Path): string {
    if p.inFiles then "files" else p.name
  }

  /** Paths order part by part. */
  predicate PathLess(a: Path, b: Path) {
    Less(Top(a), Top(b)) || (Top(a) == Top(b) && b.inFiles && (a.inFiles ==> Less(a.name, b.name)))
  }

  /** The older, then the smaller, then the lesser path. */
  predicate Before(a: Candidate, b: Candidate) {
    || a.mtime < b.mtime
    || (a.mtime == b.mtime && (a.size < b.size || (a.size == b.size && PathLess(a.path, b.path))))
  }

  predicate OldestFirst(cs: seq<Candidate>) {
    forall i, j :: 0 <= i < j < |cs| ==> !Before(cs[j], cs[i])
  }

  lemma PathOrder(a: Path, b: Path)
    ensures a == b || PathLess(a, b) || PathLess(b, a)
    ensures PathLess(a, b) ==> a != b && !PathLess(b, a)
  {
    hide Less;
    LessTotal(Top(a), Top(b));
    LessTotal(a.name, b.name);
    if Less(Top(a), Top(b)) {
      LessAsymmetric(Top(a), Top(b));
    }
    if Less(Top(b), Top(a)) {
      LessAsymmetric(Top(b), Top(a));
    }
    if Less(a.name, b.name) {
      LessAsymmetric(a.name, b.name);
    }
  }

  lemma PathLessTransitive(a: Path, b: Path, c: Path)
    requires PathLess(a, b) && PathLess(b, c)
    ensures PathLess(a, c)
  {
    hide Less;
    if Less(Top(a), Top(b)) && Less(Top(b), Top(c)) {
      LessTransitive(Top(a), Top(b), Top(c));
    }
    if a.inFiles && Less(a.name, b.name) && Less(b.name, c.name) {
      LessTransitive(a.name, b.name, c.name);
    }
  }

  /** What does not come before the one before it comes before nothing earlier. */
  lemma NotBefore(a: Candidate, b: Candidate, c: Candidate)
    requires !Before(b, a) && !Before(c, b)
    ensures !Before(c, a)
  {
    hide PathLess;
    PathOrder(a.path, b.path);
    PathOrder(b.path, c.path);
    PathOrder(a.path, c.path);
    if PathLess(a.path, b.path) && PathLess(b.path, c.path) {
      PathLessTransitive(a.path, b.path, c.path);
    }
  }

  lemma NotBoth(a: Candidate, b: Candidate)
    requires Before(a, b)
    ensures !Before(b, a)
  {
    hide PathLess;
    PathOrder(a.path, b.path);
  }

  lemma Inserted(cs: seq<Candidate>, c: Candidate, k: nat)
    requires OldestFirst(cs) && k <= |cs| && (k > 0 ==> !Before(c, cs[k - 1]))
    requires forall j :: k <= j < |cs| ==> Before(c, cs[j])
    ensures OldestFirst(cs[..k] + [c] + cs[k..])
  {
    hide Before;
    var out := cs[..k] + [c] + cs[k..];
    assert forall i :: 0 <= i < k ==> out[i] == cs[i];
    assert forall i :: k < i < |out| ==> out[i] == cs[i - 1];
    forall i | 0 <= i < k
      ensures !Before(c, cs[i])
    {
      if i < k - 1 {
        NotBefore(cs[i], cs[k - 1], c);
      }
    }
    forall j | k <= j < |cs|
      ensures !Before(cs[j], c)
    {
      NotBoth(c, cs[j]);
    }
  }

  lemma InsertedKeeps(cs: seq<Candidate>, c: Candidate, k: nat)
    requires k <= |cs|
    ensures multiset(cs[..k] + [c] + cs[k..]) == multiset(cs) + multiset{c}
  {
    assert cs == cs[..k] + cs[k..];
  }

  method InsertByAge(cs: seq<Candidate>, c: Candidate) returns (out: seq<Candidate>)
    requires OldestFirst(cs)
    ensures OldestFirst(out) && multiset(out) == multiset(cs) + multiset{c}
  {
    hide Before, OldestFirst;
    var k := |cs|;
    while k > 0 && Before(c, cs[k - 1])
      invariant 0 <= k <= |cs| && forall j :: k <= j < |cs| ==> Before(c, cs[j])
    {
      k := k - 1;
    }
    Inserted(cs, c, k);
    InsertedKeeps(cs, c, k);
    return cs[..k] + [c] + cs[k..];
  }

  /** Oldest first, ties broken by size and path, every candidate kept. */
  method SortByAge(cs: seq<Candidate>) returns (out: seq<Candidate>)
    ensures OldestFirst(out) && multiset(out) == multiset(cs)
  {
    hide OldestFirst;
    out := [];
    assert OldestFirst([]) by { NoneOldest(); }
    for i := 0 to |cs|
      invariant OldestFirst(out) && multiset(out) == multiset(cs[..i])
    {
      assert cs[..i + 1] == cs[..i] + [cs[i]];
      out := InsertByAge(out, cs[i]);
    }
    assert cs[..|cs|] == cs;
  }

  lemma NoneOldest()
    ensures OldestFirst([])
  {
  }

  /** The paths taken, of those tried. */
  function Taken(tried: seq<Candidate>, refuses: Path -> bool): set<Path> {
    if tried == [] then {}
    else
      var last := tried[|tried| - 1].path;
      Taken(tried[..|tried| - 1], refuses) + if refuses(last) then {} else {last}
  }

  lemma {:induction false} TakenIs(tried: seq<Candidate>, refuses: Path -> bool, p: Path)
    ensures p in Taken(tried, refuses) <==> !refuses(p) && exists i :: 0 <= i < |tried| && tried[i].path == p
  {
    if tried != [] {
      var n := |tried| - 1;
      TakenIs(tried[..n], refuses, p);
      assert forall i :: 0 <= i < n ==> tried[..n][i] == tried[i];
    }
  }

  lemma NoneTaken(refuses: Path -> bool)
    ensures Taken([], refuses) == {}
  {
  }

  lemma TakenNext(cs: seq<Candidate>, k: nat, refuses: Path -> bool)
    requires k < |cs|
    ensures Taken(cs[..k + 1], refuses) == Taken(cs[..k], refuses) + if refuses(cs[k].path) then {} else {cs[k].path}
  {
    assert cs[..k + 1][..k] == cs[..k] && cs[..k + 1][k] == cs[k];
  }

  /** The order to try: listed regular files as they stand, each once. */
  predicate Tryable(nodes: map<Path, Info>, listing: seq<Path>, cs: seq<Candidate>) {
    && (forall i :: 0 <= i < |cs| ==>
      cs[i].path in listing && InfoAt(nodes, cs[i].path) == Regular(cs[i].size, cs[i].mtime))
    && forall i, j :: 0 <= i < j < |cs| ==> cs[i].path != cs[j].path
  }

  lemma {:induction false} CandidateOnce(nodes: map<Path, Info>, listing: seq<Path>, cutoff: int, c: Candidate)
    requires Distinct(listing)
    ensures multiset(Candidates(nodes, listing, cutoff))[c] <= 1
  {
    hide MayTake;
    if listing != [] {
      var n := |listing| - 1;
      CandidateOnce(nodes, listing[..n], cutoff, c);
      CandidateIs(nodes, listing[..n], cutoff, c);
      if c.path == listing[n] {
        forall k | 0 <= k < n
          ensures listing[..n][k] != c.path
        {
        }
        assert c !in Candidates(nodes, listing[..n], cutoff);
      }
    }
  }

  lemma Twice<T>(xs: seq<T>, i: nat, j: nat)
    requires i < j < |xs| && xs[i] == xs[j]
    ensures multiset(xs)[xs[i]] >= 2
  {
    assert xs == xs[..j] + xs[j..];
    assert xs[i] in xs[..j] && xs[j] in xs[j..] by { assert xs[..j][i] == xs[i] && xs[j..][0] == xs[j]; }
  }

  lemma OrderIs(nodes: map<Path, Info>, listing: seq<Path>, cutoff: int, cs: seq<Candidate>)
    requires Distinct(listing) && multiset(cs) == multiset(Candidates(nodes, listing, cutoff))
    ensures Tryable(nodes, listing, cs)
  {
    hide MayTake, Candidates, Distinct;
    var all := Candidates(nodes, listing, cutoff);
    forall i | 0 <= i < |cs|
      ensures cs[i].path in listing && InfoAt(nodes, cs[i].path) == Regular(cs[i].size, cs[i].mtime)
    {
      assert cs[i] in multiset(all);
      CandidateIs(nodes, listing, cutoff, cs[i]);
    }
    forall i, j | 0 <= i < j < |cs|
      ensures cs[i].path != cs[j].path
    {
      CandidateOnce(nodes, listing, cutoff, cs[i]);
      if cs[i] == cs[j] {
        Twice(cs, i, j);
      }
    }
  }

  /** The next candidate is still there when its turn comes. */
  lemma StillThere(was: map<Path, Info>, now: map<Path, Info>, listing: seq<Path>, cs: seq<Candidate>, k: nat,
                   refuses: Path -> bool)
    requires Tryable(was, listing, cs) && k < |cs| && now == was - Taken(cs[..k], refuses)
    ensures cs[k].path in listing && SizeAt(now, cs[k].path) == cs[k].size
  {
    hide Taken;
    TakenIs(cs[..k], refuses, cs[k].path);
    assert forall i :: 0 <= i < k ==> cs[..k][i] == cs[i];
  }

  /** A regular file written after the cutoff. */
  predicate Younger(nodes: map<Path, Info>, p: Path, cutoff: int) {
    p in nodes && nodes[p].Regular? && nodes[p].mtime > cutoff
  }

  /** However far the sweep gets, the files being written are not among those gone. */
  lemma WritersStay(was: map<Path, Info>, listing: seq<Path>, cutoff: int, cs: seq<Candidate>, refuses: Path -> bool)
    requires multiset(cs) == multiset(Candidates(was, listing, cutoff))
    ensures forall tried: nat, stem: string ::
      tried <= |cs| && stem != "" && Younger(was, Path(false, stem + ".jsonl"), cutoff) ==>
      Path(false, stem + ".jsonl") !in Taken(cs[..tried], refuses)
    ensures forall tried: nat, stem: string ::
      tried <= |cs| && stem != "" && Younger(was, Path(true, stem + ".part"), cutoff) ==>
      Path(true, stem + ".part") !in Taken(cs[..tried], refuses)
  {
    hide MayTake, Taken, Candidates;
    forall tried: nat, p: Path, stem: string | tried <= |cs| && stem != "" && Younger(was, p, cutoff)
      && (p == Path(false, stem + ".jsonl") || p == Path(true, stem + ".part"))
      ensures p !in Taken(cs[..tried], refuses)
    {
      StillWritten(stem, was[p].mtime, cutoff);
      NeverTaken(was, listing, cutoff, cs, tried, refuses, p);
    }
  }

  /** Older candidates go first, the smaller first where two are equally old. */
  lemma OldestMeans(cs: seq<Candidate>, i: nat, j: nat)
    requires OldestFirst(cs) && i < j < |cs|
    ensures cs[i].mtime <= cs[j].mtime
    ensures cs[i].mtime == cs[j].mtime ==> cs[i].size <= cs[j].size
  {
  }

  class Directory {
    var nodes: map<Path, Info>

    /** One removal, which the system may refuse. */
    method Unlink(path: Path, refuses: Path -> bool) returns (ok: bool)
      modifies this
      ensures ok == !refuses(path) && nodes == if ok then old(nodes) - {path} else old(nodes)
    {
      ok := !refuses(path);
      if ok {
        nodes := nodes - {path};
      }
    }

    /**
     `_bound_directory` over what the walk lists. For every answer the system gives to every removal: only candidates
     go, oldest first; each is tried only while what is left, counted truly, is over the cap; and the sweep stops only
     when what is left fits or no candidate is left to try.
     */
    method Bound(listing: seq<Path>, cutoff: int, refuses: Path -> bool)
      returns (ghost order: seq<Candidate>, ghost tried: nat)
      requires Distinct(listing)
      modifies this
      ensures OldestFirst(order) && multiset(order) == multiset(Candidates(old(nodes), listing, cutoff))
      ensures tried <= |order| && nodes == old(nodes) - Taken(order[..tried], refuses)
      ensures forall k :: 0 <= k < tried ==> Total(old(nodes) - Taken(order[..k], refuses), listing) > 52428800
      ensures tried == |order| || Total(nodes, listing) <= 52428800
      // A file a writer may still be writing stays.
      ensures forall stem :: stem != "" && Younger(old(nodes), Path(false, stem + ".jsonl"), cutoff) ==>
        Path(false, stem + ".jsonl") in nodes
      ensures forall stem :: stem != "" && Younger(old(nodes), Path(true, stem + ".part"), cutoff) ==>
        Path(true, stem + ".part") in nodes
    {
      hide Taken, Total, MayTake, Candidates, OldestFirst, Tryable, Distinct;
      var total, candidates := Survey(listing, cutoff);
      var cs := SortByAge(candidates);
      order, tried := cs, 0;
      OrderIs(nodes, listing, cutoff, cs);
      assert cs[..0] == [] && Taken([], refuses) == {} by { NoneTaken(refuses); }
      assert nodes - {} == nodes;
      var next := 0;
      WritersStay(nodes, listing, cutoff, cs, refuses);
      while next < |cs|
        invariant next == tried <= |cs| && nodes == old(nodes) - Taken(cs[..next], refuses)
        invariant total == Total(nodes, listing)
        invariant forall k :: 0 <= k < next ==>
          Total(old(nodes) - Taken(cs[..k], refuses), listing) > DIRECTORY_CAP_BYTES
        decreases |cs| - next
      {
        if total <= DIRECTORY_CAP_BYTES {
          return;
        }
        ghost var before := nodes;
        var c := cs[next];
        StillThere(old(nodes), before, listing, cs, next, refuses);
        TakenNext(cs, next, refuses);
        var ok := Unlink(c.path, refuses);
        if ok {
          TotalRemoved(before, listing, c.path);
          total := total - c.size;
        }
        next := next + 1;
        tried := next;
      }
    }

    /** What is there: the total of the listed regular files, and the candidates among them. */
    method Survey(listing: seq<Path>, cutoff: int) returns (total: nat, candidates: seq<Candidate>)
      ensures total == Total(nodes, listing) && candidates == Candidates(nodes, listing, cutoff)
    {
      hide MayTake;
      total, candidates := 0, [];
      for i := 0 to |listing|
        invariant total == Total(nodes, listing[..i]) && candidates == Candidates(nodes, listing[..i], cutoff)
      {
        var path := listing[i];
        assert listing[..i + 1][..i] == listing[..i] && listing[..i + 1][i] == path;
        match InfoAt(nodes, path)
        case Regular(size, mtime) =>
          total := total + size;
          if MayTake(path, mtime, cutoff) {
            candidates := candidates + [Candidate(mtime, size, path)];
          }
        case Other =>
      }
      assert listing[..|listing|] == listing;
    }
  }
}
