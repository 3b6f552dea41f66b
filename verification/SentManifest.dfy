/**
 The sent manifest: one `<sha256>  <name>` line a file sent. Its strict reader, its writer, and how a
 check carries it forward over the files it read.
 */
module SentManifest {
  import opened Text
  import opened Utf8

  datatype Line = Line(digest: string, name: string)

  /** Categories Cc, Zl and Zp, and the bidirectional controls: text that could add a line or reorder one. */
  predicate Forgeable(c: char) {
    var v := c as int;
    v < 0x20 || 0x7F <= v <= 0x9F || v == 0x2028 || v == 0x2029
    || v == 0x061C || v == 0x200E || v == 0x200F || 0x202A <= v <= 0x202E || 0x2066 <= v <= 0x2069
  }

  predicate Forges(s: string) {
    exists i :: 0 <= i < |s| && Forgeable(s[i])
  }

  predicate LineOk(l: Line) {
    IsDigest(l.digest) && l.name != "" && !Forges(l.name)
  }

  predicate LinesOk(lines: seq<Line>) {
    forall i :: 0 <= i < |lines| ==> LineOk(lines[i])
  }

  // --- writing and reading lines ---

  function LineText(l: Line): string {
    l.digest + "  " + l.name
  }

  function ReadLine(s: string): Option<Line> {
    if |s| > 66 && IsDigest(s[..64]) && s[64..66] == "  "
      && !Forges(s[66..]) then Some(Line(s[..64], s[66..])) else None
  }

  function ReadRaw(raw: seq<Byte>): Option<Line> {
    match Decode(raw)
    case None => None
    case Some(text) => ReadLine(text)
  }

  function LineBytes(lines: seq<Line>): (out: seq<seq<Byte>>)
    ensures |out| == |lines|
    ensures forall i :: 0 <= i < |lines| ==> out[i] == Encode(LineText(lines[i]))
  {
    seq(|lines|, i requires 0 <= i < |lines| => Encode(LineText(lines[i])))
  }

  function Print(lines: seq<Line>): seq<Byte> {
    Terminated(LineBytes(lines), LF)
  }

  /** The manifest's lines as read: an empty last piece is the closing newline, not a line. */
  function RawLines(bytes: seq<Byte>): seq<seq<Byte>> {
    var parts := SplitOn(bytes, LF);
    if parts[|parts| - 1] == [] then parts[..|parts| - 1] else parts
  }

  predicate AllRead(raws: seq<seq<Byte>>) {
    forall i :: 0 <= i < |raws| ==> ReadRaw(raws[i]).Some?
  }

  /** The lines that parse, in order. */
  function Parsed(raws: seq<seq<Byte>>): seq<Line> {
    if raws == [] then []
    else
      var last := raws[|raws| - 1];
      Parsed(raws[..|raws| - 1]) + (match ReadRaw(last) case None => [] case Some(l) => [l])
  }

  /** The strict parse: the lines, and the numbers of the lines that do not parse. */
  method ReadManifest(bytes: seq<Byte>) returns (lines: seq<Line>, malformed: seq<nat>)
    ensures lines == Parsed(RawLines(bytes))
    ensures malformed == [] <==> AllRead(RawLines(bytes))
    ensures forall n: nat :: n in malformed <==> 1 <= n <= |RawLines(bytes)| && ReadRaw(RawLines(bytes)[n - 1]).None?
  {
    hide ReadRaw, SplitOn;
    var raws := SplitOn(bytes, LF);
    if raws[|raws| - 1] == [] {
      raws := raws[..|raws| - 1];
    }
    lines, malformed := [], [];
    for i := 0 to |raws|
      invariant lines == Parsed(raws[..i])
      invariant malformed == [] <==> forall k :: 0 <= k < i ==> ReadRaw(raws[k]).Some?
      invariant forall n: nat :: n in malformed <==> 1 <= n <= i && ReadRaw(raws[n - 1]).None?
    {
      assert raws[..i + 1][..i] == raws[..i];
      match ReadRaw(raws[i])
      case None => malformed := malformed + [i + 1];
      case Some(l) => lines := lines + [l];
    }
    assert raws[..|raws|] == raws;
  }

  lemma ReadOfText(l: Line)
    requires LineOk(l)
    ensures ReadLine(LineText(l)) == Some(l)
  {
    var s := LineText(l);
    assert s[..64] == l.digest && s[64..66] == "  " && s[66..] == l.name;
  }

  lemma TextOfRead(s: string)
    requires ReadLine(s).Some?
    ensures LineText(ReadLine(s).value) == s && LineOk(ReadLine(s).value)
  {
    assert s == s[..64] + s[64..66] + s[66..];
  }

  lemma LineTextClean(l: Line)
    requires LineOk(l)
    ensures LF !in Encode(LineText(l)) && Encode(LineText(l)) != []
  {
    var s := LineText(l);
    forall i | 0 <= i < |s|
      ensures s[i] != '\n'
    {
      if i >= 66 {
        assert s[i] == l.name[i - 66];
        assert !Forgeable(l.name[i - 66]);
      }
    }
    EncodeHasAscii(s, '\n');
  }

  lemma {:induction false} ParsedOfLines(lines: seq<Line>)
    requires LinesOk(lines)
    ensures AllRead(LineBytes(lines)) && Parsed(LineBytes(lines)) == lines
  {
    hide ReadLine, LineText, Encode, Decode, LineOk, LineBytes, Parsed, ReadRaw;
    if lines == [] {
      NoLines(lines);
    } else {
      var short, last := lines[..|lines| - 1], lines[|lines| - 1];
      assert forall i :: 0 <= i < |short| ==> short[i] == lines[i];
      ParsedOfLines(short);
      assert lines == short + [last];
      assert LineBytes(lines) == LineBytes(short) + [Encode(LineText(last))];
      RawOfText(last);
      ParsedLast(LineBytes(short), Encode(LineText(last)));
      assert AllRead(LineBytes(short) + [Encode(LineText(last))]);
    }
  }

  lemma NoLines(lines: seq<Line>)
    requires lines == []
    ensures LineBytes(lines) == [] && Parsed(LineBytes(lines)) == []
  {
  }

  lemma RawOfText(l: Line)
    requires LineOk(l)
    ensures ReadRaw(Encode(LineText(l))) == Some(l)
  {
    hide ReadLine, LineText, Encode, Decode, LineOk;
    ReadOfText(l);
    DecodeOfEncode(LineText(l));
  }

  lemma ParsedLast(raws: seq<seq<Byte>>, raw: seq<Byte>)
    ensures Parsed(raws + [raw]) == Parsed(raws) + match ReadRaw(raw) case None => [] case Some(l) => [l]
  {
    hide ReadRaw;
    assert (raws + [raw])[..|raws|] == raws;
  }

  /** What is written always passes the strict parse and parses to the same lines. */
  lemma ReadOfPrint(lines: seq<Line>)
    requires LinesOk(lines)
    ensures RawLines(Print(lines)) == LineBytes(lines)
    ensures AllRead(RawLines(Print(lines))) && Parsed(RawLines(Print(lines))) == lines
  {
    hide LineOk, Encode, LineText, SplitOn;
    forall i | 0 <= i < |lines|
      ensures LF !in LineBytes(lines)[i]
    {
      LineTextClean(lines[i]);
    }
    SplitTerminated(LineBytes(lines), LF, []);
    assert Print(lines) + [] == Print(lines);
    SplitClean<Byte>([], LF);
    ParsedOfLines(lines);
  }

  lemma {:induction false} BytesOfParsed(raws: seq<seq<Byte>>)
    requires AllRead(raws)
    ensures LineBytes(Parsed(raws)) == raws && LinesOk(Parsed(raws))
  {
    hide ReadLine, LineText, Encode, LineOk, LineBytes, Parsed, ReadRaw;
    if raws == [] {
      NoRaws(raws);
    } else {
      var short, last := raws[..|raws| - 1], raws[|raws| - 1];
      assert forall i :: 0 <= i < |short| ==> short[i] == raws[i];
      BytesOfParsed(short);
      var l := ReadRaw(last).value;
      assert raws == short + [last];
      ParsedLast(short, last);
      TextOfRaw(last);
      var lines := Parsed(short) + [l];
      assert LineBytes(lines) == LineBytes(Parsed(short)) + [Encode(LineText(l))];
      assert forall i :: 0 <= i < |lines| ==> LineOk(lines[i]);
    }
  }

  lemma NoRaws(raws: seq<seq<Byte>>)
    requires raws == []
    ensures Parsed(raws) == [] && LineBytes([]) == []
  {
  }

  lemma TextOfRaw(raw: seq<Byte>)
    requires ReadRaw(raw).Some?
    ensures Encode(LineText(ReadRaw(raw).value)) == raw && LineOk(ReadRaw(raw).value)
  {
    hide ReadLine, LineText, Encode, LineOk;
    TextOfRead(Decode(raw).value);
    EncodeOfDecode(raw);
  }

  /** A kept manifest is rewritten byte for byte, but for a missing final newline, which it gains. */
  lemma PrintOfRead(bytes: seq<Byte>)
    requires AllRead(RawLines(bytes))
    ensures Print(Parsed(RawLines(bytes))) == if bytes == [] || bytes[|bytes| - 1] == LF then bytes else bytes + [LF]
  {
    hide ReadRaw, LineBytes;
    var parts, raws := SplitOn(bytes, LF), RawLines(bytes);
    BytesOfParsed(raws);
    JoinOfSplit(bytes, LF);
    TerminatedIsJoin(parts, LF);
    if parts[|parts| - 1] == [] {
      assert parts == raws + [[]];
      TerminatedAppend(raws, [[]], LF);
      assert Terminated([[]], LF) == [LF];
      assert (bytes + [LF])[..|bytes|] == (Terminated(raws, LF) + [LF])[..|bytes|];
      assert bytes == Terminated(raws, LF);
      if raws != [] {
        TerminatedIsJoin(raws, LF);
      }
    } else {
      LastPieceEnds(bytes);
    }
  }

  lemma {:induction false} LastPieceEnds(bytes: seq<Byte>)
    ensures var parts := SplitOn(bytes, LF);
            parts[|parts| - 1] != [] ==> bytes != [] && bytes[|bytes| - 1] != LF
  {
    var parts := SplitOn(bytes, LF);
    if bytes != [] {
      LastPieceEnds(bytes[1..]);
      if |bytes| == 1 {
        SplitClean<Byte>([], LF);
      }
    }
  }

  // --- carrying the manifest forward ---

  /** A regular outbox file as the check read it: its name's bytes and its content. */
  datatype File = File(raw: seq<Byte>, content: seq<Byte>) {
    /** The printable name: undecodable bytes as escapes. */
    function Shown(): string {
      DecodeWith(raw, BackslashReplace)
    }

    predicate IsSent() {
      raw == Bytes("SENT")
    }

    predicate IsReadme() {
      raw == Bytes("README.md")
    }
  }

  function DigestsOf(lines: seq<Line>): set<string> {
    set i | 0 <= i < |lines| :: lines[i].digest
  }

  function Lookup(digests: map<string, seq<string>>, d: string): seq<string> {
    if d in digests then digests[d] else []
  }

  /** Where a kept line points now: the one file its digest names, once its recorded name is gone. */
  function Follow(l: Line, digests: map<string, seq<string>>, present: set<string>): Line {
    var candidates := Lookup(digests, l.digest);
    if l.name !in present && |candidates| == 1 then Line(l.digest, candidates[0]) else l
  }

  function FollowAll(lines: seq<Line>, digests: map<string, seq<string>>, present: set<string>): (out: seq<Line>)
    ensures |out| == |lines|
    ensures forall i :: 0 <= i < |lines| ==> out[i] == Follow(lines[i], digests, present)
  {
    if lines == [] then [] else [Follow(lines[0], digests, present)] + FollowAll(lines[1..], digests, present)
  }

  /** The manifest's next bytes: its lines followed, then one line a draft. */
  method ManifestNext(lines: seq<Line>, drafts: seq<Line>, digests: map<string, seq<string>>, present: set<string>)
    returns (bytes: seq<Byte>)
    ensures bytes == Print(FollowAll(lines, digests, present) + drafts)
  {
    hide Follow, FollowAll, Print;
    var out: seq<Line> := [];
    for i := 0 to |lines|
      invariant out == FollowAll(lines[..i], digests, present)
    {
      var l := lines[i];
      var candidates := Lookup(digests, l.digest);
      assert forall k :: 0 <= k <= i ==> lines[..i + 1][k] == lines[k];
      assert Follow(l, digests, present) == if l.name !in present
        && |candidates| == 1 then Line(l.digest, candidates[0]) else l by {
        FollowIs(l, digests, present);
      }
      if l.name !in present && |candidates| == 1 {
        l := Line(l.digest, candidates[0]);
      }
      assert FollowAll(lines[..i + 1], digests, present) == FollowAll(lines[..i], digests, present) + [l];
      out := out + [l];
    }
    assert lines[..|lines|] == lines;
    bytes := Print(out + drafts);
  }

  lemma FollowIs(l: Line, digests: map<string, seq<string>>, present: set<string>)
    ensures Follow(l, digests, present)
         == var candidates := Lookup(digests, l.digest);
            if l.name !in present && |candidates| == 1 then Line(l.digest, candidates[0]) else l
  {
  }

  /** The drafts among the files: everything but README and SENT whose digest is not known as sent. */
  function Drafts(files: seq<File>, sent: set<string>, sha: seq<Byte> -> string): seq<Line> {
    if files == [] then []
    else
      var f := files[|files| - 1];
      Drafts(files[..|files| - 1], sent, sha)
      + if f.IsReadme() || f.IsSent() || sha(f.content) in sent then [] else [Line(sha(f.content), f.Shown())]
  }

  /** Each digest's files by name, SENT aside. */
  function Digests(files: seq<File>, sha: seq<Byte> -> string): map<string, seq<string>> {
    if files == [] then map[]
    else
      var f := files[|files| - 1];
      var before := Digests(files[..|files| - 1], sha);
      if f.IsSent() then before else before[sha(f.content) := Lookup(before, sha(f.content)) + [f.Shown()]]
  }

  function Present(files: seq<File>): set<string> {
    set i | 0 <= i < |files| && !files[i].IsSent() :: files[i].Shown()
  }

  /** The lines the manifest holds after a check of `files` that read `lines` and an index claiming `claims`. */
  function NextLines(lines: seq<Line>, files: seq<File>, claims: set<string>, sha: seq<Byte> -> string): seq<Line> {
    FollowAll(lines, Digests(files, sha), Present(files)) + Drafts(files, DigestsOf(lines) + claims, sha)
  }

  predicate NamesOk(files: seq<File>) {
    forall i :: 0 <= i < |files| ==> files[i].Shown() != "" && !Forges(files[i].Shown())
  }

  lemma {:induction false} DraftsFrom(files: seq<File>, sent: set<string>, sha: seq<Byte> -> string, k: nat)
    requires k < |Drafts(files, sent, sha)|
    ensures var l := Drafts(files, sent, sha)[k];
            exists i :: 0 <= i < |files| && !files[i].IsSent() && l == Line(sha(files[i].content), files[i].Shown())
  {
    var n := |files| - 1;
    var before := Drafts(files[..n], sent, sha);
    if k < |before| {
      DraftsFrom(files[..n], sent, sha, k);
      var i :| 0 <= i < n && !files[..n][i].IsSent()
        && before[k] == Line(sha(files[..n][i].content), files[..n][i].Shown());
      assert files[i] == files[..n][i];
    }
  }

  lemma {:induction false} DraftsCover(files: seq<File>, sent: set<string>, sha: seq<Byte> -> string, i: nat)
    requires i < |files| && !files[i].IsReadme() && !files[i].IsSent()
    ensures sha(files[i].content) in sent + DigestsOf(Drafts(files, sent, sha))
  {
    var n := |files| - 1;
    var all, before := Drafts(files, sent, sha), Drafts(files[..n], sent, sha);
    if i < n {
      DraftsCover(files[..n], sent, sha, i);
      if sha(files[i].content) !in sent {
        var k :| 0 <= k < |before| && before[k].digest == sha(files[i].content);
        assert all[k] == before[k];
      }
    } else if sha(files[i].content) !in sent {
      assert all[|all| - 1].digest == sha(files[i].content);
    }
  }

  lemma {:induction false} NoDrafts(files: seq<File>, sent: set<string>, sha: seq<Byte> -> string)
    requires forall i :: 0 <= i < |files| && !files[i].IsReadme() && !files[i].IsSent() ==>
      sha(files[i].content) in sent
    ensures Drafts(files, sent, sha) == []
  {
    if files != [] {
      var short := files[..|files| - 1];
      assert forall i :: 0 <= i < |short| ==> short[i] == files[i];
      NoDrafts(short, sent, sha);
    }
  }

  lemma PresentAppend(files: seq<File>, f: File)
    ensures Present(files + [f]) == Present(files) + if f.IsSent() then {} else {f.Shown()}
  {
    var all := files + [f];
    forall name | name in Present(files) + (if f.IsSent() then {} else {f.Shown()})
      ensures name in Present(all)
    {
      if name in Present(files) {
        var i :| 0 <= i < |files| && !files[i].IsSent() && files[i].Shown() == name;
        assert all[i] == files[i];
      } else {
        assert all[|files|] == f;
      }
    }
  }

  lemma {:induction false} DigestsPresent(files: seq<File>, sha: seq<Byte> -> string, d: string)
    ensures forall k :: 0 <= k < |Lookup(Digests(files, sha), d)| ==>
      Lookup(Digests(files, sha), d)[k] in Present(files)
  {
    hide Present, File.Shown, File.IsSent;
    if files != [] {
      var n := |files| - 1;
      DigestsPresent(files[..n], sha, d);
      PresentAppend(files[..n], files[n]);
      assert files[..n] + [files[n]] == files;
      var before, after := Lookup(Digests(files[..n], sha), d), Lookup(Digests(files, sha), d);
      assert after == before || (!files[n].IsSent() && after == before + [files[n].Shown()]);
    }
  }

  /** After a passing check the new manifest is well-formed: it can always be written and read back. */
  lemma NextLinesOk(lines: seq<Line>, files: seq<File>, claims: set<string>, sha: seq<Byte> -> string)
    requires LinesOk(lines) && NamesOk(files)
    requires forall b :: IsDigest(sha(b))
    ensures LinesOk(NextLines(lines, files, claims, sha))
  {
    hide Forges, IsDigest, Digests, Drafts, DigestsOf, File.Shown, File.IsSent;
    var next := NextLines(lines, files, claims, sha);
    var drafts := Drafts(files, DigestsOf(lines) + claims, sha);
    forall i | 0 <= i < |next|
      ensures LineOk(next[i])
    {
      if i < |lines| {
        DigestsPresent(files, sha, lines[i].digest);
        assert LineOk(lines[i]);
        assert next[i] == Follow(lines[i], Digests(files, sha), Present(files));
      } else {
        DraftsFrom(files, DigestsOf(lines) + claims, sha, i - |lines|);
        assert next[i] == drafts[i - |lines|];
      }
    }
  }

  /** No digest is ever dropped, and the manifest grows by exactly one line a draft. */
  lemma NothingDropped(lines: seq<Line>, files: seq<File>, claims: set<string>, sha: seq<Byte> -> string)
    ensures DigestsOf(lines) <= DigestsOf(NextLines(lines, files, claims, sha))
    ensures |NextLines(lines, files, claims, sha)| == |lines| + |Drafts(files, DigestsOf(lines) + claims, sha)|
  {
    var next := NextLines(lines, files, claims, sha);
    forall i | 0 <= i < |lines|
      ensures lines[i].digest in DigestsOf(next)
    {
      assert next[i].digest == lines[i].digest;
    }
  }

  lemma {:induction false} FollowSettled(lines: seq<Line>, digests: map<string, seq<string>>, present: set<string>)
    requires forall i :: 0 <= i < |lines| ==> Follow(lines[i], digests, present) == lines[i]
    ensures FollowAll(lines, digests, present) == lines
  {
  }

  /** Main result: over unchanged files a second check finds no draft and computes the very same lines. */
  lemma CheckIsStable(lines: seq<Line>, files: seq<File>, claims: set<string>, sha: seq<Byte> -> string)
    ensures var next := NextLines(lines, files, claims, sha);
            && Drafts(files, DigestsOf(next) + claims, sha) == []
            && NextLines(next, files, claims, sha) == next
  {
    hide Drafts, Digests, Present, Follow, File.IsSent, File.IsReadme;
    var sent := DigestsOf(lines) + claims;
    var drafts := Drafts(files, sent, sha);
    var digests, present := Digests(files, sha), Present(files);
    var next := NextLines(lines, files, claims, sha);
    NothingDropped(lines, files, claims, sha);
    forall i | 0 <= i < |files| && !files[i].IsReadme() && !files[i].IsSent()
      ensures sha(files[i].content) in DigestsOf(next) + claims
    {
      DraftsCover(files, sent, sha, i);
      if sha(files[i].content) !in sent {
        var k :| 0 <= k < |drafts| && drafts[k].digest == sha(files[i].content);
        assert next[|lines| + k] == drafts[k];
      }
    }
    NoDrafts(files, DigestsOf(next) + claims, sha);
    forall i | 0 <= i < |next|
      ensures Follow(next[i], digests, present) == next[i]
    {
      NextIsSettled(lines, files, claims, sha, i);
    }
    FollowSettled(next, digests, present);
    assert next + [] == next;
  }

  lemma FollowTwice(l: Line, digests: map<string, seq<string>>, present: set<string>)
    requires forall k :: 0 <= k < |Lookup(digests, l.digest)| ==> Lookup(digests, l.digest)[k] in present
    ensures Follow(Follow(l, digests, present), digests, present) == Follow(l, digests, present)
  {
  }

  lemma NextIsSettled(lines: seq<Line>, files: seq<File>, claims: set<string>, sha: seq<Byte> -> string, i: nat)
    requires i < |NextLines(lines, files, claims, sha)|
    ensures var next := NextLines(lines, files, claims, sha);
            Follow(next[i], Digests(files, sha), Present(files)) == next[i]
  {
    hide Follow, Digests, Drafts, DigestsOf, File.Shown, File.IsSent;
    var sent := DigestsOf(lines) + claims;
    var next := NextLines(lines, files, claims, sha);
    if i < |lines| {
      DigestsPresent(files, sha, lines[i].digest);
      FollowTwice(lines[i], Digests(files, sha), Present(files));
      assert next[i] == Follow(lines[i], Digests(files, sha), Present(files));
    } else {
      DraftsFrom(files, sent, sha, i - |lines|);
      assert next[i] == Drafts(files, sent, sha)[i - |lines|];
      assert next[i].name in Present(files);
      FollowIs(next[i], Digests(files, sha), Present(files));
    }
  }

  function Others(files: seq<File>): seq<File> {
    if files == [] then []
    else
      var f := files[|files| - 1];
      Others(files[..|files| - 1]) + if f.IsSent() then [] else [f]
  }

  /** The manifest's own file never weighs: writing it between two checks changes nothing they compute. */
  lemma {:induction false} SentAside(files: seq<File>, sent: set<string>, sha: seq<Byte> -> string)
    ensures Drafts(files, sent, sha) == Drafts(Others(files), sent, sha)
    ensures Digests(files, sha) == Digests(Others(files), sha)
    ensures Present(files) == Present(Others(files))
  {
    hide Present, File.Shown, File.IsSent, File.IsReadme;
    if files != [] {
      var n := |files| - 1;
      var f, short := files[n], files[..n];
      SentAside(short, sent, sha);
      PresentAppend(short, f);
      assert files == short + [f];
      if f.IsSent() {
        assert Others(files) == Others(short);
      } else {
        PresentAppend(Others(short), f);
        OthersAppend(short, f, sent, sha);
        assert Others(files) == Others(short) + [f];
      }
    }
  }

  lemma OthersAppend(files: seq<File>, f: File, sent: set<string>, sha: seq<Byte> -> string)
    requires !f.IsSent()
    ensures var others := Others(files) + [f];
            && Drafts(others, sent, sha) == Drafts(Others(files), sent, sha)
               + (if f.IsReadme() || sha(f.content) in sent then [] else [Line(sha(f.content), f.Shown())])
            && Digests(others, sha)
              == Digests(Others(files), sha)[sha(f.content) :=
              Lookup(Digests(Others(files), sha), sha(f.content)) + [f.Shown()]]
  {
    var others := Others(files) + [f];
    assert others[..|others| - 1] == Others(files) && others[|others| - 1] == f;
  }

  // --- following, over the files ---

  /** The file is one of the batch's own and has this digest. */
  predicate HasDigest(f: File, sha: seq<Byte> -> string, d: string) {
    f.raw != Bytes("SENT") && sha(f.content) == d
  }

  lemma {:induction false} NoneWithDigest(files: seq<File>, sha: seq<Byte> -> string, d: string)
    requires forall i :: 0 <= i < |files| ==> !HasDigest(files[i], sha, d)
    ensures Lookup(Digests(files, sha), d) == []
  {
    if files != [] {
      var short := files[..|files| - 1];
      assert forall i :: 0 <= i < |short| ==> short[i] == files[i];
      NoneWithDigest(short, sha, d);
    }
  }

  lemma {:induction false} OneWithDigest(files: seq<File>, sha: seq<Byte> -> string, d: string, k: nat)
    requires k < |files| && HasDigest(files[k], sha, d)
    requires forall i :: 0 <= i < |files| && i != k ==> !HasDigest(files[i], sha, d)
    ensures Lookup(Digests(files, sha), d) == [DecodeWith(files[k].raw, BackslashReplace)]
  {
    hide DecodeWith;
    var n := |files| - 1;
    var short := files[..n];
    assert forall i :: 0 <= i < n ==> short[i] == files[i];
    if k == n {
      NoneWithDigest(short, sha, d);
    } else {
      OneWithDigest(short, sha, d, k);
    }
  }

  lemma {:induction false} DigestHas(files: seq<File>, sha: seq<Byte> -> string, d: string, k: nat)
    requires k < |files| && HasDigest(files[k], sha, d)
    ensures |Lookup(Digests(files, sha), d)| >= 1
  {
    hide File.Shown;
    var n := |files| - 1;
    if k < n {
      DigestHas(files[..n], sha, d, k);
    }
  }

  lemma {:induction false} ManyWithDigest(files: seq<File>, sha: seq<Byte> -> string, d: string, k: nat, m: nat)
    requires k < m < |files| && HasDigest(files[k], sha, d) && HasDigest(files[m], sha, d)
    ensures |Lookup(Digests(files, sha), d)| >= 2
  {
    hide File.Shown;
    var n := |files| - 1;
    if m < n {
      ManyWithDigest(files[..n], sha, d, k, m);
    } else {
      DigestHas(files[..n], sha, d, k);
    }
  }

  /** Some file but the manifest is shown under this name. */
  predicate NameThere(files: seq<File>, name: string) {
    exists i :: 0 <= i < |files| && files[i].raw != Bytes("SENT") && DecodeWith(files[i].raw, BackslashReplace) == name
  }

  /** A kept line whose name is gone and whose digest one file has now holds that file's name. */
  lemma LineFollows(lines: seq<Line>, files: seq<File>, claims: set<string>, sha: seq<Byte> -> string, i: nat, k: nat)
    requires i < |lines| && !NameThere(files, lines[i].name) && k < |files| && HasDigest(files[k], sha, lines[i].digest)
    requires forall n :: 0 <= n < |files| && n != k ==> !HasDigest(files[n], sha, lines[i].digest)
    ensures NextLines(lines, files, claims, sha)[i]
      == Line(lines[i].digest, DecodeWith(files[k].raw, BackslashReplace))
  {
    hide DecodeWith, Digests, Drafts;
    OneWithDigest(files, sha, lines[i].digest, k);
    assert lines[i].name !in Present(files);
  }

  /** Any other is kept as written: its name is there, or no file or several have its digest. */
  lemma LineKept(lines: seq<Line>, files: seq<File>, claims: set<string>, sha: seq<Byte> -> string, i: nat)
    requires i < |lines|
    requires NameThere(files, lines[i].name)
      || (forall n :: 0 <= n < |files| ==> !HasDigest(files[n], sha, lines[i].digest))
      || (exists k, n :: 0 <= k < n < |files| && HasDigest(files[k], sha, lines[i].digest)
            && HasDigest(files[n], sha, lines[i].digest))
    ensures NextLines(lines, files, claims, sha)[i] == lines[i]
  {
    hide DecodeWith, Digests, Drafts;
    var d := lines[i].digest;
    if NameThere(files, lines[i].name) {
      var n :| 0 <= n < |files| && files[n].raw != Bytes("SENT")
        && DecodeWith(files[n].raw, BackslashReplace) == lines[i].name;
      assert files[n].Shown() in Present(files);
    } else if k, n :| 0 <= k < n < |files| && HasDigest(files[k], sha, d) && HasDigest(files[n], sha, d) {
      ManyWithDigest(files, sha, d, k, n);
    } else {
      NoneWithDigest(files, sha, d);
    }
  }
}
