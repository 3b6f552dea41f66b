/**
 The outbox batch transaction: a check that pins what it read, and a send that commits exactly that or
 puts everything back. Git is three maps; any step may fail, and before every step anything may have
 happened to the working tree.
 */
module Outbox {
  import opened Text
  import opened Utf8
  import opened SentManifest
  import NameStatus

  type Path = seq<Byte>

  /** An object id: two blobs have one id exactly when their bytes are equal. */
  datatype Blob = BlobOf(content: seq<Byte>)

  datatype Node = Regular(content: seq<Byte>) | Special

  /** What the commands are parameterised by: the digest, git's clean filters, and the content check. */
  datatype Host = Host(
    sha: seq<Byte> -> string,
    clean: (Path, seq<Byte>) -> seq<Byte>,
    vet: (seq<Byte>, seq<Byte>, bool) -> bool)
  {
    ghost predicate Sane() {
      forall b :: IsDigest(sha(b))
    }
  }

  function Prefix(): string {
    ".agentmarshal/upstream/"
  }

  function OutboxPath(raw: seq<Byte>): Path {
    Bytes(Prefix()) + raw
  }

  function SentPath(): Path {
    OutboxPath(Bytes("SENT"))
  }

  predicate Under(p: Path) {
    StartsWith(p, Bytes(Prefix()))
  }

  /** A path as the commands print and compare it. */
  function Shown(p: Path): string {
    DecodeWith(p, BackslashReplace)
  }

  function OutboxOf(index: map<Path, Blob>): map<Path, Blob> {
    map p | p in index && Under(p) :: index[p]
  }

  function RestOf(index: map<Path, Blob>): map<Path, Blob> {
    map p | p in index && !Under(p) :: index[p]
  }

  // --- the check ---

  datatype CheckResult = CheckResult(
    ok: bool,
    pinned: map<Path, Blob>,
    drafts: seq<Line>,
    manifestOld: Option<seq<Byte>>,
    manifestNew: seq<Byte>)

  const REFUSED := CheckResult(false, map[], [], None, [])

  function IsDraft(f: File, sent: set<string>, host: Host): bool {
    !f.IsReadme() && !f.IsSent() && host.sha(f.content) !in sent
  }

  /**
   One file passes: its name forges nothing, its content is vetted, as UTF-8 where it is a draft, and git would stage
   the very bytes.
   */
  predicate FilePasses(f: File, sent: set<string>, host: Host) {
    && f.Shown() != "" && !Forges(f.Shown())
    && host.vet(f.raw, f.content, IsDraft(f, sent, host)) && (IsDraft(f, sent, host) ==> WellFormed(f.content))
    && (!f.IsSent() ==> host.clean(OutboxPath(f.raw), f.content) == f.content)
  }

  function Pins(files: seq<File>): map<Path, Blob> {
    if files == [] then map[]
    else
      var f := files[|files| - 1];
      var before := Pins(files[..|files| - 1]);
      if f.IsSent() then before else before[OutboxPath(f.raw) := BlobOf(f.content)]
  }

  predicate DistinctNames(files: seq<File>) {
    forall i, j :: 0 <= i < j < |files| ==> files[i].raw != files[j].raw
  }

  /** The manifest lines are what the manifest found parses to, strictly. */
  predicate ReadFrom(manifestOld: Option<seq<Byte>>, lines: seq<Line>) {
    match manifestOld
    case None => lines == []
    case Some(bytes) => AllRead(RawLines(bytes)) && lines == Parsed(RawLines(bytes))
  }

  function SentPin(r: CheckResult): map<Path, Blob> {
    if HasManifest(r) then map[SentPath() := BlobOf(r.manifestNew)] else map[]
  }

  predicate ManifestPasses(r: CheckResult, host: Host) {
    && host.vet(Bytes("SENT"), r.manifestNew, false)
    && (HasManifest(r) ==> host.clean(SentPath(), r.manifestNew) == r.manifestNew)
  }

  /** What a passing check says about the files it read and the manifest lines it found. */
  ghost predicate Vouches(r: CheckResult, files: seq<File>, lines: seq<Line>, claims: set<string>, host: Host) {
    && DistinctNames(files)
    && (forall i :: 0 <= i < |files| ==> FilePasses(files[i], DigestsOf(lines) + claims, host))
    && ReadFrom(r.manifestOld, lines)
    && r.drafts == Drafts(files, DigestsOf(lines) + claims, host.sha)
    && r.manifestNew == Print(NextLines(lines, files, claims, host.sha))
    && r.pinned == Pins(files) + SentPin(r)
    && ManifestPasses(r, host)
  }

  predicate HasManifest(r: CheckResult) {
    r.manifestOld.Some? || r.manifestNew != []
  }

  // --- the staged difference ---

  predicate Changed(head: map<Path, Blob>, index: map<Path, Blob>, p: Path) {
    (p in head) != (p in index) || (p in head && head[p] != index[p])
  }

  function NamesOf(c: NameStatus.Change<Byte>): seq<Path> {
    match c
    case One(_, p) => [p]
    case Two(_, source, dest) => [source, dest]
  }

  predicate IsPair(b: Byte) {
    b == 'R' as int || b == 'C' as int
  }

  /** Two-path entries are those of a status opening with `R` or `C`: any such list is read back from its tokens. */
  lemma TokensRead(changes: seq<NameStatus.Change<Byte>>)
    requires forall i :: 0 <= i < |changes| ==>
      changes[i].status != [] && (changes[i].Two? <==> changes[i].status[0] in {0x43, 0x52})
    requires forall i :: 0 <= i < |NameStatus.Tokens(changes)| ==> NameStatus.Tokens(changes)[i] != []
    ensures NameStatus.Read(NameStatus.Tokens(changes), IsPair) == Some(changes)
  {
    NameStatus.ReadOfTokens(changes, IsPair);
  }

  predicate SomeNames(changes: seq<NameStatus.Change<Byte>>, p: Path) {
    exists i :: 0 <= i < |changes| && p in NamesOf(changes[i])
  }

  /**
   A report of the staged difference, under any pairing of deletions with additions as renames: it names
   every changed path, nothing else, and each in one entry.
   */
  ghost predicate Reports(head: map<Path, Blob>, index: map<Path, Blob>, changes: seq<NameStatus.Change<Byte>>) {
    && NameStatus.Printable(changes, IsPair)
    && (forall i, k :: 0 <= i < |changes| && 0 <= k < |NamesOf(changes[i])| ==>
          NamesOf(changes[i])[k] != [] && Changed(head, index, NamesOf(changes[i])[k]))
    && (forall p :: Changed(head, index, p) ==> SomeNames(changes, p))
    && (forall i :: 0 <= i < |changes| && changes[i].Two? ==> changes[i].source != changes[i].dest)
    && Disjoint(changes)
  }

  /** The entries that touch the outbox, as the send weighs them. */
  predicate InBatch(c: NameStatus.Change<Byte>) {
    exists k :: 0 <= k < |NamesOf(c)| && StartsWith(Shown(NamesOf(c)[k]), Prefix())
  }

  predicate IsSentOnly(c: NameStatus.Change<Byte>) {
    |NamesOf(c)| == 1 && Shown(NamesOf(c)[0]) == Prefix() + "SENT"
  }

  predicate IsRename(c: NameStatus.Change<Byte>) {
    c.status != [] && c.status[0] == 'R' as int
  }

  /** Every path of the batch, as printed. */
  function BatchNames(changes: seq<NameStatus.Change<Byte>>): seq<string> {
    if changes == [] then []
    else
      var c := changes[|changes| - 1];
      BatchNames(changes[..|changes| - 1])
      + if !InBatch(c) then [] else if c.One? then [Shown(c.path)] else [Shown(c.source), Shown(c.dest)]
  }

  /**
   Without a draft only renames and the manifest may be in the batch, and a rename must be; with one,
   something besides the manifest must be.
   */
  ghost predicate BatchRule(changes: seq<NameStatus.Change<Byte>>, drafts: seq<Line>) {
    if drafts == [] then
      && (exists k :: 0 <= k < |changes| && InBatch(changes[k]) && IsRename(changes[k]))
      && !(exists k :: 0 <= k < |changes| && InBatch(changes[k]) && !IsRename(changes[k]) && !IsSentOnly(changes[k]))
    else
      BatchNames(changes) != [] && BatchNames(changes) != [Prefix() + "SENT"]
  }

  ghost predicate Disjoint(changes: seq<NameStatus.Change<Byte>>) {
    forall i, j, p :: 0 <= i < j < |changes| ==> !(p in NamesOf(changes[i]) && p in NamesOf(changes[j]))
  }

  lemma {:induction false} NoBatchNames(changes: seq<NameStatus.Change<Byte>>)
    requires forall k :: 0 <= k < |changes| ==> !InBatch(changes[k])
    ensures BatchNames(changes) == []
  {
    hide InBatch;
    if changes != [] {
      NoBatchNames(changes[..|changes| - 1]);
    }
  }

  lemma SentOnlyName(c: NameStatus.Change<Byte>)
    requires IsSentOnly(c)
    ensures c.One? && NamesOf(c) == [SentPath()] && Shown(c.path) == Prefix() + "SENT"
  {
    hide Shown, SentPath, Prefix;
    ShownSent(NamesOf(c)[0]);
  }

  lemma NotTwice(changes: seq<NameStatus.Change<Byte>>, k: nat, n: nat)
    requires Disjoint(changes) && k < n < |changes| && IsSentOnly(changes[n])
    ensures !IsSentOnly(changes[k])
  {
    hide Shown, SentPath, Prefix;
    SentOnlyName(changes[n]);
    assert SentPath() in NamesOf(changes[n]);
    assert SentPath() !in NamesOf(changes[k]);
    if IsSentOnly(changes[k]) {
      SentOnlyName(changes[k]);
    }
  }

  /** A batch whose every entry is the manifest alone is the manifest once. */
  lemma {:induction false} OnlyManifest(changes: seq<NameStatus.Change<Byte>>)
    requires Disjoint(changes)
    requires forall k :: 0 <= k < |changes| && InBatch(changes[k]) ==> IsSentOnly(changes[k])
    ensures BatchNames(changes) == [] || BatchNames(changes) == [Prefix() + "SENT"]
  {
    hide InBatch, IsSentOnly, Shown, SentPath, Prefix;
    if changes != [] {
      var n := |changes| - 1;
      var short := changes[..n];
      assert forall k :: 0 <= k < n ==> short[k] == changes[k];
      OnlyManifest(short);
      if InBatch(changes[n]) {
        SentOnlyName(changes[n]);
        forall k | 0 <= k < n
          ensures !InBatch(short[k])
        {
          NotTwice(changes, k, n);
        }
        NoBatchNames(short);
      }
    }
  }

  lemma PrintableReport(head: map<Path, Blob>, index: map<Path, Blob>, changes: seq<NameStatus.Change<Byte>>)
    requires Reports(head, index, changes)
    ensures NameStatus.Printable(changes, IsPair)
  {
  }

  lemma {:induction false} TokensNotEmpty(head: map<Path, Blob>, index: map<Path, Blob>,
                                          changes: seq<NameStatus.Change<Byte>>)
    requires forall i :: 0 <= i < |changes| ==> changes[i].status != []
    requires forall i, k :: 0 <= i < |changes| && 0 <= k < |NamesOf(changes[i])| ==> NamesOf(changes[i])[k] != []
    ensures forall i :: 0 <= i < |NameStatus.Tokens(changes)| ==> NameStatus.Tokens(changes)[i] != []
  {
    if changes != [] {
      var c := changes[0];
      assert forall k :: 0 <= k < |NamesOf(c)| ==> NamesOf(c)[k] != [];
      forall i, k | 0 <= i < |changes[1..]| && 0 <= k < |NamesOf(changes[1..][i])|
        ensures NamesOf(changes[1..][i])[k] != []
      {
        assert changes[1..][i] == changes[i + 1];
      }
      TokensNotEmpty(head, index, changes[1..]);
      if c.Two? {
        assert NamesOf(c)[0] == c.source && NamesOf(c)[1] == c.dest;
      } else {
        assert NamesOf(c)[0] == c.path;
      }
    }
  }

  lemma ReportTokens(head: map<Path, Blob>, index: map<Path, Blob>, changes: seq<NameStatus.Change<Byte>>)
    requires Reports(head, index, changes)
    ensures forall i :: 0 <= i < |NameStatus.Tokens(changes)| ==> NameStatus.Tokens(changes)[i] != []
  {
    TokensNotEmpty(head, index, changes);
  }

  lemma RuleNamesMore(changes: seq<NameStatus.Change<Byte>>, drafts: seq<Line>) returns (k: nat)
    requires NameStatus.Printable(changes, IsPair) && Disjoint(changes) && BatchRule(changes, drafts)
    ensures k < |changes| && !IsSentOnly(changes[k])
  {
    hide InBatch, Shown, Prefix, BatchNames, Disjoint;
    if drafts == [] {
      k :| 0 <= k < |changes| && InBatch(changes[k]) && IsRename(changes[k]);
    } else {
      if forall i :: 0 <= i < |changes| && InBatch(changes[i]) ==> IsSentOnly(changes[i]) {
        OnlyManifest(changes);
      }
      k :| 0 <= k < |changes| && InBatch(changes[k]) && !IsSentOnly(changes[k]);
    }
  }

  /** A batch the rule allows changes some outbox file besides the manifest, when nothing outside is staged. */
  lemma BatchTouches(head: map<Path, Blob>, index: map<Path, Blob>, changes: seq<NameStatus.Change<Byte>>,
                     drafts: seq<Line>)
    returns (p: Path)
    requires Reports(head, index, changes) && BatchRule(changes, drafts)
    requires RestOf(head) == RestOf(index)
    ensures Under(p) && p != SentPath() && Changed(head, index, p)
  {
    hide Under, Shown, SentPath, BatchRule, Prefix, Disjoint;
    var k := RuleNamesMore(changes, drafts);
    var c := changes[k];
    ShownSent(NamesOf(c)[0]);
    p := NamesOf(c)[0];
    if p == SentPath() {
      p := NamesOf(c)[1];
      assert c.Two?;
    }
    assert Changed(head, index, p);
    OutsideSame(head, index, p);
  }

  /** The entry names some path under the outbox. */
  predicate Touches(c: NameStatus.Change<Byte>) {
    exists k :: 0 <= k < |NamesOf(c)| && Under(NamesOf(c)[k])
  }

  lemma TouchesBatch(c: NameStatus.Change<Byte>)
    ensures InBatch(c) <==> Touches(c)
  {
    hide Under, Shown, Prefix;
    forall k | 0 <= k < |NamesOf(c)|
      ensures StartsWith(Shown(NamesOf(c)[k]), Prefix()) <==> Under(NamesOf(c)[k])
    {
      ShownUnder(NamesOf(c)[k]);
    }
  }

  /**
   Without a draft the rule allows exactly the batches whose every entry touching the outbox is a rename or the manifest
   alone, with a rename among them: no file of the outbox may be changed, added or removed in place.
   */
  lemma DraftlessExactly(changes: seq<NameStatus.Change<Byte>>)
    ensures BatchRule(changes, []) <==>
      && (exists k :: 0 <= k < |changes| && Touches(changes[k]) && changes[k].status != []
            && changes[k].status[0] == 'R' as int)
      && forall k :: 0 <= k < |changes| && Touches(changes[k]) ==>
           || (changes[k].status != [] && changes[k].status[0] == 'R' as int)
           || (changes[k].One? && changes[k].path == Bytes(".agentmarshal/upstream/SENT"))
  {
    hide Under, Shown, Touches, InBatch;
    forall k | 0 <= k < |changes|
      ensures InBatch(changes[k]) <==> Touches(changes[k])
      ensures IsSentOnly(changes[k]) <==> changes[k].One? && changes[k].path == Bytes(".agentmarshal/upstream/SENT")
    {
      TouchesBatch(changes[k]);
      SentOnlyIs(changes[k]);
    }
  }

  lemma SentOnlyIs(c: NameStatus.Change<Byte>)
    ensures IsSentOnly(c) <==> c.One? && c.path == Bytes(".agentmarshal/upstream/SENT")
  {
    PrefixIsPlain();
    assert ".agentmarshal/upstream/SENT" == Prefix() + "SENT";
    hide Shown, SentPath, Prefix;
    ShownSent(NamesOf(c)[0]);
  }

  lemma {:induction false} BatchHas(changes: seq<NameStatus.Change<Byte>>, k: nat)
    requires k < |changes| && InBatch(changes[k]) && !IsSentOnly(changes[k])
    ensures BatchNames(changes) != [] && BatchNames(changes) != [Prefix() + "SENT"]
    ensures changes[k].One? ==> Shown(changes[k].path) in BatchNames(changes)
    ensures changes[k].Two? ==> |BatchNames(changes)| >= 2
  {
    hide InBatch, Shown, Prefix;
    var n := |changes| - 1;
    if k < n {
      BatchHas(changes[..n], k);
    }
    var c := changes[k];
    if c.One? {
      assert NamesOf(c) == [c.path] && Shown(c.path) != Prefix() + "SENT";
      assert Shown(c.path) in BatchNames(changes);
    }
  }

  /** With a draft it allows exactly those with some entry touching the outbox besides the manifest alone. */
  lemma DraftedExactly(changes: seq<NameStatus.Change<Byte>>, drafts: seq<Line>)
    requires Disjoint(changes) && drafts != []
    ensures BatchRule(changes, drafts) <==> exists k ::
      && 0 <= k < |changes| && Touches(changes[k])
      && !(changes[k].One? && changes[k].path == Bytes(".agentmarshal/upstream/SENT"))
  {
    hide Under, Shown, Touches, InBatch, BatchNames, Disjoint, IsSentOnly;
    forall k | 0 <= k < |changes|
      ensures InBatch(changes[k]) <==> Touches(changes[k])
      ensures IsSentOnly(changes[k]) <==> changes[k].One? && changes[k].path == Bytes(".agentmarshal/upstream/SENT")
    {
      TouchesBatch(changes[k]);
      SentOnlyIs(changes[k]);
    }
    if k :| 0 <= k < |changes| && InBatch(changes[k]) && !IsSentOnly(changes[k]) {
      BatchHas(changes, k);
    } else {
      OnlyManifest(changes);
    }
  }

  lemma RestAgrees(head: map<Path, Blob>, index: map<Path, Blob>, p: Path)
    requires RestOf(head) == RestOf(index) && !Under(p)
    ensures !Changed(head, index, p)
  {
    hide Under;
    assert (p in head) == (p in RestOf(head)) && (p in index) == (p in RestOf(index));
    assert p in head ==> head[p] == RestOf(head)[p];
    assert p in index ==> index[p] == RestOf(index)[p];
  }

  lemma OutsideSame(head: map<Path, Blob>, index: map<Path, Blob>, p: Path)
    requires RestOf(head) == RestOf(index) && Changed(head, index, p)
    ensures Under(p)
  {
    if !Under(p) {
      RestAgrees(head, index, p);
    }
  }

  /** The plainest report: each changed path on its own, no rename paired. */
  function Plain(paths: seq<Path>): (out: seq<NameStatus.Change<Byte>>)
    ensures |out| == |paths|
    ensures forall i :: 0 <= i < |paths| ==> out[i] == NameStatus.One([0x4D], paths[i])
  {
    if paths == [] then [] else [NameStatus.One([0x4D], paths[0])] + Plain(paths[1..])
  }

  lemma PlainCovers(head: map<Path, Blob>, index: map<Path, Blob>, paths: seq<Path>, p: Path)
    requires forall q :: q in paths <==> Changed(head, index, q)
    ensures Changed(head, index, p) ==> SomeNames(Plain(paths), p)
  {
    PlainNames(paths);
    hide Plain, NamesOf, Changed;
    if Changed(head, index, p) {
      var i :| 0 <= i < |paths| && paths[i] == p;
      assert p in NamesOf(Plain(paths)[i]);
    }
  }

  lemma PlainReports(head: map<Path, Blob>, index: map<Path, Blob>, paths: seq<Path>)
    requires forall p :: p in paths <==> Changed(head, index, p)
    requires forall i, j :: 0 <= i < j < |paths| ==> paths[i] != paths[j]
    requires [] !in head && [] !in index
    ensures Reports(head, index, Plain(paths))
  {
    var changes := Plain(paths);
    PlainNames(paths);
    hide Plain, NamesOf, Changed, Disjoint, NameStatus.Printable, SomeNames;
    forall p
      ensures Changed(head, index, p) ==> SomeNames(changes, p)
    {
      PlainCovers(head, index, paths, p);
    }
    PlainDisjoint(paths);
    forall i, k | 0 <= i < |changes| && 0 <= k < |NamesOf(changes[i])|
      ensures NamesOf(changes[i])[k] != [] && Changed(head, index, NamesOf(changes[i])[k])
    {
      assert NamesOf(changes[i])[k] == paths[i];
      ChangedNotEmpty(head, index, paths[i]);
    }
  }

  lemma PlainDisjoint(paths: seq<Path>)
    requires forall i, j :: 0 <= i < j < |paths| ==> paths[i] != paths[j]
    ensures Disjoint(Plain(paths))
  {
    PlainNames(paths);
    hide Plain, NamesOf;
    var changes := Plain(paths);
    forall i, j, p | 0 <= i < j < |changes|
      ensures !(p in NamesOf(changes[i]) && p in NamesOf(changes[j]))
    {
      assert NamesOf(changes[i]) == [paths[i]] && NamesOf(changes[j]) == [paths[j]];
    }
  }

  lemma PlainNames(paths: seq<Path>)
    ensures NameStatus.Printable(Plain(paths), IsPair)
    ensures forall i :: 0 <= i < |paths| ==> NamesOf(Plain(paths)[i]) == [paths[i]] && Plain(paths)[i].One?
  {
    hide Plain;
  }

  lemma ChangedNotEmpty(head: map<Path, Blob>, index: map<Path, Blob>, p: Path)
    requires Changed(head, index, p) && [] !in head && [] !in index
    ensures p != []
  {
  }

  // --- the mismatch test ---

  /** The outbox paths whose staged blob is not the pinned one, missing and unpinned ones included. */
  function BatchMismatch(index: map<Path, Blob>, expected: map<Path, Blob>): set<Path> {
    (set p | p in expected && (p !in OutboxOf(index) || index[p] != expected[p]))
    + (set p | p in OutboxOf(index) && p !in expected)
  }

  lemma NoMismatchMeansEqual(index: map<Path, Blob>, expected: map<Path, Blob>)
    ensures BatchMismatch(index, expected) == {} <==> OutboxOf(index) == expected
  {
    hide Under;
    var outbox := OutboxOf(index);
    if BatchMismatch(index, expected) == {} {
      assert outbox.Keys == expected.Keys by {
        assert forall p :: p in expected && p !in outbox ==> p in BatchMismatch(index, expected);
        assert forall p :: p in outbox && p !in expected ==> p in BatchMismatch(index, expected);
      }
      assert forall p :: p in expected && index[p] != expected[p] ==> p in BatchMismatch(index, expected);
    }
  }

  // --- names ---

  lemma {:induction false} PrefixReads(bs: seq<Byte>, p: string)
    requires IsAsciiText(p) && '\\' !in p
    requires p <= DecodeWith(bs, BackslashReplace)
    ensures Bytes(p) <= bs
    decreases |bs|
  {
    hide Next;
    if p != [] {
      var h := Next(bs);
      var rest := DecodeWith(bs[h.len..], BackslashReplace);
      assert p[0] == DecodeWith(bs, BackslashReplace)[0];
      assert h.Good? && h.ch == p[0];
      assert DecodeWith(bs, BackslashReplace)[1..] == rest;
      PrefixReads(bs[h.len..], p[1..]);
      assert Bytes(p)[1..] == Bytes(p[1..]);
    }
  }

  lemma PrefixShown(bs: seq<Byte>, s: string)
    requires IsAsciiText(s) && '\\' !in s
    ensures StartsWith(DecodeWith(bs, BackslashReplace), s) <==> StartsWith(bs, Bytes(s))
  {
    hide DecodeWith;
    if StartsWith(bs, Bytes(s)) {
      var tail := bs[|s|..];
      assert bs == Bytes(s) + tail;
      EncodeOfAscii(s);
      AsciiPrefix(Bytes(s), tail, BackslashReplace);
    }
    if StartsWith(DecodeWith(bs, BackslashReplace), s) {
      PrefixReads(bs, s);
    }
  }

  lemma WholeShown(bs: seq<Byte>, s: string)
    requires IsAsciiText(s) && '\\' !in s
    ensures DecodeWith(bs, BackslashReplace) == s <==> bs == Bytes(s)
  {
    hide DecodeWith;
    EncodeOfAscii(s);
    DecodeAscii(Bytes(s), BackslashReplace);
    if DecodeWith(bs, BackslashReplace) == s {
      OnlyAsciiReads(bs, BackslashReplace, s);
    }
  }

  lemma PrefixIsPlain()
    ensures IsAsciiText(Prefix()) && '\\' !in Prefix()
    ensures IsAsciiText(Prefix() + "SENT") && '\\' !in Prefix() + "SENT"
    ensures Bytes(Prefix() + "SENT") == SentPath()
  {
  }

  /** The printed name starts with the outbox prefix exactly when the path does. */
  lemma ShownUnder(p: Path)
    ensures StartsWith(Shown(p), Prefix()) <==> Under(p)
  {
    PrefixIsPlain();
    hide DecodeWith, Prefix;
    PrefixShown(p, Prefix());
  }

  lemma ShownSent(p: Path)
    ensures Shown(p) == Prefix() + "SENT" <==> p == SentPath()
  {
    PrefixIsPlain();
    hide DecodeWith, Prefix, SentPath;
    WholeShown(p, Prefix() + "SENT");
  }

  lemma SentIsUnder()
    ensures Under(SentPath())
  {
  }

  // --- pins ---

  lemma {:induction false} PinsMeaning(files: seq<File>, p: Path)
    requires DistinctNames(files)
    ensures p in Pins(files) <==> exists i :: 0 <= i < |files| && !files[i].IsSent() && OutboxPath(files[i].raw) == p
    ensures forall i :: 0 <= i < |files| && !files[i].IsSent() && OutboxPath(files[i].raw) == p ==>
      Pins(files)[p] == BlobOf(files[i].content)
  {
    hide File.IsSent;
    if files != [] {
      var n := |files| - 1;
      PinsMeaning(files[..n], p);
      assert forall i :: 0 <= i < n ==> files[..n][i] == files[i];
      forall i | 0 <= i < n && OutboxPath(files[i].raw) == p
        ensures OutboxPath(files[n].raw) != p
      {
        assert OutboxPath(files[i].raw)[|Prefix()|..] == files[i].raw;
        assert OutboxPath(files[n].raw)[|Prefix()|..] == files[n].raw;
      }
    }
  }

  lemma PathsDiffer(f: File)
    ensures Under(OutboxPath(f.raw))
    ensures f.IsSent() <==> OutboxPath(f.raw) == SentPath()
  {
    assert OutboxPath(f.raw)[|Prefix()|..] == f.raw;
    assert SentPath()[|Prefix()|..] == Bytes("SENT");
  }

  /** The file counts as one to send: not the README, not the manifest, its digest neither listed nor claimed. */
  predicate Unsent(f: File, lines: seq<Line>, claims: set<string>, host: Host) {
    && f.raw != Bytes("README.md") && f.raw != Bytes("SENT") && host.sha(f.content) !in claims
    && forall k :: 0 <= k < |lines| ==> lines[k].digest != host.sha(f.content)
  }

  predicate ToSend(f: File, sent: set<string>, sha: seq<Byte> -> string) {
    f.raw != Bytes("README.md") && f.raw != Bytes("SENT") && sha(f.content) !in sent
  }

  function DraftLine(f: File, sha: seq<Byte> -> string): Line {
    Line(sha(f.content), DecodeWith(f.raw, BackslashReplace))
  }

  /** The indices are the drafts', in order. */
  ghost predicate ListsDrafts(at: seq<nat>, files: seq<File>, sent: set<string>, sha: seq<Byte> -> string) {
    && (forall k, n :: 0 <= k < n < |at| ==> at[k] < at[n])
    && (forall k :: 0 <= k < |at| ==> at[k] < |files|)
    && forall i: nat :: i < |files| ==> (i in at <==> ToSend(files[i], sent, sha))
  }

  lemma DraftsLast(files: seq<File>, f: File, sent: set<string>, sha: seq<Byte> -> string)
    ensures Drafts(files + [f], sent, sha)
      == Drafts(files, sent, sha) + if ToSend(f, sent, sha) then [DraftLine(f, sha)] else []
    ensures Drafts([], sent, sha) == []
  {
    hide DecodeWith;
    assert (files + [f])[..|files|] == files;
  }

  lemma ListsLast(at: seq<nat>, files: seq<File>, f: File, sent: set<string>, sha: seq<Byte> -> string)
    requires ListsDrafts(at, files, sent, sha)
    ensures ListsDrafts(at + if ToSend(f, sent, sha) then [|files|] else [], files + [f], sent, sha)
  {
    hide ToSend;
    var more := at + if ToSend(f, sent, sha) then [|files|] else [];
    forall i: nat | i < |files + [f]|
      ensures i in more <==> ToSend((files + [f])[i], sent, sha)
    {
      assert i == |files| ==> i !in at;
    }
  }

  lemma {:induction false} DraftsAt(files: seq<File>, sent: set<string>, sha: seq<Byte> -> string)
    returns (at: seq<nat>)
    ensures ListsDrafts(at, files, sent, sha) && |Drafts(files, sent, sha)| == |at|
    ensures forall k :: 0 <= k < |at| ==> Drafts(files, sent, sha)[k] == DraftLine(files[at[k]], sha)
  {
    hide Drafts, DraftLine, ToSend;
    if files == [] {
      at := [];
      NoDraftsOf(files, sent, sha);
    } else {
      var n := |files| - 1;
      var short := files[..n];
      assert files == short + [files[n]];
      at := DraftsAt(short, sent, sha);
      DraftsLast(short, files[n], sent, sha);
      ListsLast(at, short, files[n], sent, sha);
      assert forall k :: 0 <= k < |at| ==> files[at[k]] == short[at[k]];
      at := at + if ToSend(files[n], sent, sha) then [n] else [];
    }
  }

  lemma NoDraftsOf(files: seq<File>, sent: set<string>, sha: seq<Byte> -> string)
    requires files == []
    ensures Drafts(files, sent, sha) == []
  {
  }

  lemma UnsentIs(f: File, lines: seq<Line>, claims: set<string>, host: Host)
    ensures Unsent(f, lines, claims, host) <==> ToSend(f, DigestsOf(lines) + claims, host.sha)
    ensures Unsent(f, lines, claims, host) <==> IsDraft(f, DigestsOf(lines) + claims, host)
  {
  }

  /**
   Main result: a passing check lists one draft, in order and under its shown name, for every file that is neither the
   README nor the manifest and whose digest no manifest line holds and nobody claims, and for no other.
   */
  lemma DraftsAreUnsent(r: CheckResult, files: seq<File>, lines: seq<Line>, claims: set<string>, host: Host)
    returns (at: seq<nat>)
    requires Vouches(r, files, lines, claims, host)
    ensures (forall k, n :: 0 <= k < n < |at| ==> at[k] < at[n]) && |r.drafts| == |at|
    ensures forall i: nat :: i in at <==> i < |files| && Unsent(files[i], lines, claims, host)
    ensures forall k :: 0 <= k < |at| ==>
      && at[k] < |files|
      && r.drafts[k] == Line(host.sha(files[at[k]].content), DecodeWith(files[at[k]].raw, BackslashReplace))
  {
    hide Drafts, NextLines, Print, Pins, ReadFrom, ManifestPasses, Forges, FilePasses, DecodeWith, Unsent, ToSend;
    var sent := DigestsOf(lines) + claims;
    at := DraftsAt(files, sent, host.sha);
    forall i | 0 <= i < |files|
      ensures Unsent(files[i], lines, claims, host) <==> ToSend(files[i], sent, host.sha)
    {
      UnsentIs(files[i], lines, claims, host);
    }
  }

  /** Each of those files was vetted as a draft, UTF-8 at least, and every other file as none. */
  lemma FilesAreVetted(r: CheckResult, files: seq<File>, lines: seq<Line>, claims: set<string>, host: Host, i: nat)
    requires Vouches(r, files, lines, claims, host) && i < |files|
    ensures host.vet(files[i].raw, files[i].content, Unsent(files[i], lines, claims, host))
    ensures Unsent(files[i], lines, claims, host) ==> WellFormed(files[i].content)
  {
    hide Drafts, NextLines, Print, Pins, ReadFrom, ManifestPasses, Forges, WellFormed, DecodeWith, Unsent, IsDraft;
    assert FilePasses(files[i], DigestsOf(lines) + claims, host);
    UnsentIs(files[i], lines, claims, host);
  }

  /** The manifest to be written was vetted too, as no draft. */
  lemma ManifestIsVetted(r: CheckResult, files: seq<File>, lines: seq<Line>, claims: set<string>, host: Host)
    requires Vouches(r, files, lines, claims, host)
    ensures host.vet([0x53, 0x45, 0x4E, 0x54], r.manifestNew, false)
  {
    hide Drafts, NextLines, Print, Pins, ReadFrom, FilePasses;
    assert Bytes("SENT") == [0x53, 0x45, 0x4E, 0x54];
  }

  /** A vouched file's name holds no control character, no line or paragraph separator and no bidirectional control. */
  lemma NamesForgeNothing(r: CheckResult, files: seq<File>, lines: seq<Line>, claims: set<string>, host: Host, i: nat)
    requires Vouches(r, files, lines, claims, host) && i < |files|
    ensures forall c :: c in DecodeWith(files[i].raw, BackslashReplace) ==>
      && c as int >= 0x20 && !(0x7F <= c as int <= 0x9F) && c as int != 0x2028 && c as int != 0x2029
      && c as int != 0x061C && c as int != 0x200E && c as int != 0x200F
      && !(0x202A <= c as int <= 0x202E) && !(0x2066 <= c as int <= 0x2069)
  {
    hide Drafts, NextLines, Print, Pins, ReadFrom, ManifestPasses, WellFormed, DecodeWith, IsDraft;
    assert FilePasses(files[i], DigestsOf(lines) + claims, host);
    var name := DecodeWith(files[i].raw, BackslashReplace);
    assert !Forges(name);
    forall c | c in name
      ensures !Forgeable(c)
    {
      var k :| 0 <= k < |name| && name[k] == c;
    }
  }

  /**
   Main result: what a passing check pins is the manifest's next content and, for each file it read and
   passed, that file's very bytes — nothing else, and nothing missing.
   */
  lemma PinsAreChecked(r: CheckResult, files: seq<File>, lines: seq<Line>, claims: set<string>, host: Host, p: Path)
    requires Vouches(r, files, lines, claims, host)
    ensures p == SentPath() && p in r.pinned ==> r.pinned[p] == BlobOf(r.manifestNew)
    ensures p != SentPath() ==> (p in r.pinned <==> exists i :: 0 <= i < |files| && OutboxPath(files[i].raw) == p)
    ensures forall i :: 0 <= i < |files| && OutboxPath(files[i].raw) == p && p != SentPath() ==>
      r.pinned[p] == BlobOf(files[i].content) && FilePasses(files[i], DigestsOf(lines) + claims, host)
    ensures p in r.pinned ==> Under(p)
  {
    hide SentPath, OutboxPath, FilePasses, Pins, ReadFrom, ManifestPasses, Drafts, NextLines, Print, File.IsSent, Under;
    PinsMeaning(files, p);
    SentIsUnder();
    forall i | 0 <= i < |files|
      ensures Under(OutboxPath(files[i].raw)) && (files[i].IsSent() <==> OutboxPath(files[i].raw) == SentPath())
    {
      PathsDiffer(files[i]);
    }
  }

  /** Main result: the manifest a passing check computes can always be read back, and to the lines it means. */
  lemma ManifestReadsBack(r: CheckResult, files: seq<File>, lines: seq<Line>, claims: set<string>, host: Host)
    requires Vouches(r, files, lines, claims, host) && host.Sane()
    ensures ReadFrom(Some(r.manifestNew), NextLines(lines, files, claims, host.sha))
    ensures r.manifestNew == [] ==> NextLines(lines, files, claims, host.sha) == []
  {
    hide AllRead, RawLines, Parsed, Drafts, NextLines, Print, Pins, File.IsSent, File.Shown, Forges, ManifestPasses,
      LinesOk, NamesOk;
    LinesReadOk(r.manifestOld, lines);
    FilesNamedOk(files, DigestsOf(lines) + claims, host);
    NextLinesOk(lines, files, claims, host.sha);
    ReadOfPrint(NextLines(lines, files, claims, host.sha));
    NothingParsed();
  }

  lemma NothingParsed()
    ensures Parsed(RawLines([])) == []
  {
    SplitClean<Byte>([], LF);
  }

  lemma LinesReadOk(manifestOld: Option<seq<Byte>>, lines: seq<Line>)
    requires ReadFrom(manifestOld, lines)
    ensures LinesOk(lines)
  {
    if manifestOld.Some? {
      BytesOfParsed(RawLines(manifestOld.value));
    }
  }

  lemma FilesNamedOk(files: seq<File>, sent: set<string>, host: Host)
    requires forall i :: 0 <= i < |files| ==> FilePasses(files[i], sent, host)
    ensures NamesOk(files)
  {
  }

  /** Main result: a check after a send, over the same files, finds no draft and computes the same bytes. */
  lemma SecondCheckIsQuiet(r1: CheckResult, files1: seq<File>, lines1: seq<Line>,
                           r2: CheckResult, files2: seq<File>, lines2: seq<Line>, claims: set<string>, host: Host)
    requires Vouches(r1, files1, lines1, claims, host) && Vouches(r2, files2, lines2, claims, host) && host.Sane()
    requires Others(files1) == Others(files2)
    requires r2.manifestOld == Some(r1.manifestNew) || (r1.manifestNew == [] && r2.manifestOld == None)
    ensures r2.drafts == [] && r2.manifestNew == r1.manifestNew
  {
    hide AllRead, RawLines, Parsed, Drafts, Print, Pins, File.IsSent, File.Shown, FilePasses, ManifestPasses, Digests,
      Present, FollowAll, DigestsOf;
    ManifestReadsBack(r1, files1, lines1, claims, host);
    assert lines2 == NextLines(lines1, files1, claims, host.sha);
    var sent2 := DigestsOf(lines2) + claims;
    SentAside(files1, sent2, host.sha);
    SentAside(files2, sent2, host.sha);
    CheckIsStable(lines1, files1, claims, host.sha);
  }

  /** What `git add` stages of the outbox when nothing moves under it: the cleaned content of each regular file. */
  function StagedFrom(tree: map<Path, Node>, host: Host): map<Path, Blob> {
    map p | p in tree && Under(p) && tree[p].Regular? :: BlobOf(host.clean(p, tree[p].content))
  }

  /** An undisturbed send finds no mismatch: the pins are exactly what staging the checked files writes. */
  lemma QuietStageMatches(r: CheckResult, files: seq<File>, lines: seq<Line>, claims: set<string>, host: Host,
                          tree: map<Path, Node>)
    requires Vouches(r, files, lines, claims, host)
    requires forall p :: p in tree && Under(p) <==> p in r.pinned
    requires forall p :: p in r.pinned ==> tree[p] == Regular(r.pinned[p].content)
    ensures BatchMismatch(StagedFrom(tree, host), r.pinned) == {}
  {
    hide SentPath, OutboxPath, Pins, ReadFrom, Drafts, NextLines, Print, File.IsSent, Under, Vouches;
    var staged := StagedFrom(tree, host);
    forall p | p in r.pinned
      ensures p in staged && staged[p] == r.pinned[p]
    {
      PinIsClean(r, files, lines, claims, host, p);
    }
    assert forall p :: p in staged ==> Under(p);
    assert OutboxOf(staged) == r.pinned;
    NoMismatchMeansEqual(staged, r.pinned);
  }

  lemma PinIsClean(r: CheckResult, files: seq<File>, lines: seq<Line>, claims: set<string>, host: Host, p: Path)
    requires Vouches(r, files, lines, claims, host) && p in r.pinned
    ensures host.clean(p, r.pinned[p].content) == r.pinned[p].content
  {
    hide SentPath, OutboxPath, Pins, ReadFrom, Drafts, NextLines, Print, File.IsSent, Under;
    PinsAreChecked(r, files, lines, claims, host, p);
    if p == SentPath() {
      SentPinned(files, r);
    } else {
      var i :| 0 <= i < |files| && OutboxPath(files[i].raw) == p;
      PathsDiffer(files[i]);
    }
  }

  lemma SentPinned(files: seq<File>, r: CheckResult)
    requires DistinctNames(files) && r.pinned == Pins(files) + SentPin(r)
    ensures SentPath() in r.pinned ==> HasManifest(r)
  {
    hide SentPath, OutboxPath, Pins, File.IsSent;
    PinsMeaning(files, SentPath());
    forall i | 0 <= i < |files|
      ensures files[i].IsSent() <==> OutboxPath(files[i].raw) == SentPath()
    {
      PathsDiffer(files[i]);
    }
  }
}
