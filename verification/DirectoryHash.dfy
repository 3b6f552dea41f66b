/**
 What an extension's approval covers: the framed stream one hash is taken over determines every path and content hash,
 and the change search names the first file that differs.
 */
module DirectoryHash {
  import opened Text
  import opened Order
  import opened Utf8

  /** File maps as the directory walk makes them: no NUL in a path, a digest for each. */
  predicate Walked(files: map<string, string>) {
    forall p :: p in files ==> (0 as char) !in p && IsDigest(files[p])
  }

  lemma DigestBytes(s: string)
    requires IsDigest(s)
    ensures IsAsciiText(s) && 0 !in Bytes(s)
  {
  }

  /** The path and hash of each file in turn, as bytes. */
  function Pieces(files: map<string, string>, paths: seq<string>): (out: seq<seq<Byte>>)
    requires Walked(files) && forall p :: p in paths ==> p in files
    ensures |out| == 2 * |paths|
    ensures forall i :: 0 <= i < |paths| ==>
      (DigestBytes(files[paths[i]]); out[2 * i] == Encode(paths[i]) && out[2 * i + 1] == Bytes(files[paths[i]]))
    ensures forall i :: 0 <= i < |out| ==> 0 !in out[i]
    decreases |paths|
  {
    if paths == [] then []
    else
      var last := paths[|paths| - 1];
      assert last in paths;
      DigestBytes(files[last]);
      EncodeHasAscii(last, 0 as char);
      assert forall p :: p in paths[..|paths| - 1] ==> p in paths;
      Pieces(files, paths[..|paths| - 1]) + [Encode(last), Bytes(files[last])]
  }

  /** The stream hashed: every path and hash closed by a NUL, in path order. */
  ghost function Stream(files: map<string, string>): seq<Byte>
    requires Walked(files)
  {
    Terminated(Pieces(files, Sorted(files.Keys)), 0)
  }

  method DirectoryStream(files: map<string, string>) returns (stream: seq<Byte>)
    requires Walked(files)
    ensures stream == Stream(files)
  {
    hide Terminated, Encode, Sorted, Pieces, Increasing;
    var paths := Sort(files.Keys);
    assert forall p :: p in paths ==> p in files;
    stream := [];
    NoPieces(files);
    for i := 0 to |paths|
      invariant stream == Framed(files, paths, i)
    {
      var path := paths[i];
      assert path in paths;
      DigestBytes(files[path]);
      FramedNext(files, paths, i);
      stream := stream + Encode(path);
      stream := stream + [0];
      stream := stream + Bytes(files[path]);
      stream := stream + [0];
    }
    assert paths[..|paths|] == paths;
  }

  /** The stream after the first `i` files. */
  function Framed(files: map<string, string>, paths: seq<string>, i: nat): seq<Byte>
    requires Walked(files) && i <= |paths| && forall p :: p in paths ==> p in files
  {
    assert forall p :: p in paths[..i] ==> p in paths;
    Terminated(Pieces(files, paths[..i]), 0)
  }

  lemma NoPieces(files: map<string, string>)
    requires Walked(files)
    ensures Terminated(Pieces(files, []), 0) == []
  {
  }

  lemma FramedNext(files: map<string, string>, paths: seq<string>, i: nat)
    requires Walked(files) && i < |paths| && (forall p :: p in paths ==> p in files) && IsAsciiText(files[paths[i]])
    ensures Framed(files, paths, i + 1)
      == Framed(files, paths, i) + Encode(paths[i]) + [0] + Bytes(files[paths[i]]) + [0]
  {
    hide Terminated, Encode, IsDigest, Pieces, Walked, Bytes;
    var path := paths[i];
    PiecesNext(files, paths, i);
    var before, two := Terminated(Pieces(files, paths[..i]), 0), [Encode(path), Bytes(files[path])];
    TerminatedAppend(Pieces(files, paths[..i]), two, 0);
    TwoPieces(Encode(path), Bytes(files[path]));
    assert before + (Encode(path) + [0] + Bytes(files[path]) + [0])
      == before + Encode(path) + [0] + Bytes(files[path]) + [0];
  }

  lemma PiecesNext(files: map<string, string>, paths: seq<string>, i: nat)
    requires Walked(files) && i < |paths| && (forall p :: p in paths ==> p in files) && IsAsciiText(files[paths[i]])
    ensures (forall p :: p in paths[..i] ==> p in files) && (forall p :: p in paths[..i + 1] ==> p in files)
    ensures Pieces(files, paths[..i + 1]) == Pieces(files, paths[..i]) + [Encode(paths[i]), Bytes(files[paths[i]])]
  {
    hide Encode, IsDigest;
    assert paths[..i + 1][..i] == paths[..i] && paths[..i + 1][i] == paths[i];
    assert forall p :: p in paths[..i] ==> p in paths;
    assert forall p :: p in paths[..i + 1] ==> p in paths;
  }

  lemma TwoPieces(a: seq<Byte>, b: seq<Byte>)
    ensures Terminated([a, b], 0) == a + [0] + b + [0]
  {
    assert Terminated([a, b][1..], 0) == b + [0] + Terminated([], 0);
  }

  lemma EncodeInjective(a: string, b: string)
    requires Encode(a) == Encode(b)
    ensures a == b
  {
    DecodeOfEncode(a);
    DecodeOfEncode(b);
  }

  lemma TerminatedInjective(a: seq<seq<Byte>>, b: seq<seq<Byte>>)
    requires (forall i :: 0 <= i < |a| ==> 0 !in a[i]) && (forall i :: 0 <= i < |b| ==> 0 !in b[i])
    requires Terminated(a, 0) == Terminated(b, 0)
    ensures a == b
  {
    hide Terminated;
    SplitTerminated(a, 0, []);
    SplitTerminated(b, 0, []);
    assert Terminated(a, 0) + [] == Terminated(b, 0) + [];
    var tail := SplitOn([], 0);
    assert (a + tail)[..|a|] == a && (b + tail)[..|b|] == b;
  }

  /** The framing is unambiguous: equal pieces are equal paths with equal hashes. */
  lemma PiecesDetermine(a: map<string, string>, xs: seq<string>, b: map<string, string>, ys: seq<string>)
    requires Walked(a) && Walked(b) && (forall p :: p in xs ==> p in a) && (forall p :: p in ys ==> p in b)
    requires Pieces(a, xs) == Pieces(b, ys)
    ensures xs == ys && forall p :: p in xs ==> a[p] == b[p]
  {
    hide Pieces, Encode;
    forall i | 0 <= i < |xs|
      ensures xs[i] == ys[i] && a[xs[i]] == b[ys[i]]
    {
      assert xs[i] in xs && ys[i] in ys;
      DigestBytes(a[xs[i]]);
      DigestBytes(b[ys[i]]);
      assert Pieces(a, xs)[2 * i] == Encode(xs[i]) && Pieces(b, ys)[2 * i] == Encode(ys[i]);
      assert Pieces(a, xs)[2 * i + 1] == Bytes(a[xs[i]]) && Pieces(b, ys)[2 * i + 1] == Bytes(b[ys[i]]);
      EncodeInjective(xs[i], ys[i]);
      BytesInjective(a[xs[i]], b[ys[i]]);
    }
  }

  lemma BytesInjective(a: string, b: string)
    requires IsAsciiText(a) && IsAsciiText(b) && Bytes(a) == Bytes(b)
    ensures a == b
  {
    assert |a| == |b|;
    forall i | 0 <= i < |a|
      ensures a[i] == b[i]
    {
      assert Bytes(a)[i] == Bytes(b)[i];
    }
  }

  lemma SameMaps(a: map<string, string>, b: map<string, string>)
    requires Sorted(a.Keys) == Sorted(b.Keys) && forall p :: p in a && p in b ==> a[p] == b[p]
    ensures a == b
  {
    hide Less;
    assert forall p :: p in a.Keys <==> p in Sorted(a.Keys);
    assert forall p :: p in b.Keys <==> p in Sorted(b.Keys);
  }

  /** Main result: the stream determines the whole file map. */
  lemma StreamInjective(a: map<string, string>, b: map<string, string>)
    requires Walked(a) && Walked(b)
    ensures Stream(a) == Stream(b) <==> a == b
  {
    hide Pieces, Encode, Terminated, Walked, Increasing;
    if Stream(a) == Stream(b) {
      var xs, ys := Sorted(a.Keys), Sorted(b.Keys);
      TerminatedInjective(Pieces(a, xs), Pieces(b, ys));
      PiecesDetermine(a, xs, b, ys);
      SameMaps(a, b);
    }
  }

  // --- what changed after approval ---

  datatype Kind = FileRemoved | FileAdded | FileChanged

  /** How a path differs between the two maps, if it does. */
  function Difference(granted: map<string, string>, current: map<string, string>, path: string): Option<Kind> {
    if path in granted && path !in current then Some(FileRemoved)
    else if path !in granted && path in current then Some(FileAdded)
    else if path in granted && granted[path] != current[path] then Some(FileChanged)
    else None
  }

  /** The first differing file by path and its kind; nothing exactly when the maps, and so their streams, are equal. */
  method ChangedAfterApproval(granted: map<string, string>, current: map<string, string>)
    returns (r: Option<(string, Kind)>)
    ensures r.None? <==> granted == current
    ensures Walked(granted) && Walked(current) ==> (r.None? <==> Stream(granted) == Stream(current))
    ensures r.Some? ==> Difference(granted, current, r.value.0) == Some(r.value.1)
    ensures r.Some? ==> forall q :: Difference(granted, current, q).Some? && q != r.value.0 ==> Less(r.value.0, q)
  {
    hide Stream, Walked, Sorted;
    if Walked(granted) && Walked(current) {
      StreamInjective(granted, current);
    }
    var paths := Sort(granted.Keys + current.Keys);
    for i := 0 to |paths|
      invariant forall k :: 0 <= k < i ==> Difference(granted, current, paths[k]).None?
    {
      var path := paths[i];
      assert path in paths;
      r := None;
      if path !in current {
        r := Some((path, FileRemoved));
      } else if path !in granted {
        r := Some((path, FileAdded));
      } else if granted[path] != current[path] {
        r := Some((path, FileChanged));
      }
      if r.Some? {
        FirstOf(paths, granted, current, i);
        return;
      }
    }
    SameEverywhere(paths, granted, current);
    return None;
  }

  lemma FirstOf(paths: seq<string>, granted: map<string, string>, current: map<string, string>, i: nat)
    requires Lists(paths, granted.Keys + current.Keys) && i < |paths|
    requires forall k :: 0 <= k < i ==> Difference(granted, current, paths[k]).None?
    ensures forall q :: Difference(granted, current, q).Some? && q != paths[i] ==> Less(paths[i], q)
  {
    forall q | Difference(granted, current, q).Some? && q != paths[i]
      ensures Less(paths[i], q)
    {
      assert q in paths;
      var k :| 0 <= k < |paths| && paths[k] == q;
      assert i < k;
    }
  }

  lemma SameEverywhere(paths: seq<string>, granted: map<string, string>, current: map<string, string>)
    requires Lists(paths, granted.Keys + current.Keys)
    requires forall k :: 0 <= k < |paths| ==> Difference(granted, current, paths[k]).None?
    ensures granted == current
  {
    forall p
      ensures Difference(granted, current, p).None?
    {
      if p in paths {
        var k :| 0 <= k < |paths| && paths[k] == p;
      }
    }
    forall p
      ensures p in granted <==> p in current
      ensures p in granted && p in current ==> granted[p] == current[p]
    {
      assert Difference(granted, current, p).None?;
    }
    assert granted.Keys == current.Keys;
  }
}
