/**
 The check and the send left to themselves: what they may refuse when no call fails and nobody edits a file.
 */
module OutboxQuiet {
  import opened Text
  import opened Utf8
  import opened SentManifest
  import opened Outbox

  /** The first path component of each entry under the outbox. */
  function EntriesOf(tree: map<Path, Node>): set<seq<Byte>> {
    set p | p in tree && Under(p) :: EntryOf(p)
  }

  function EntryOf(p: Path): seq<Byte>
    requires Under(p)
  {
    SplitOn<Byte>(p[|Prefix()|..], 0x2F)[0]
  }

  /** A regular file is no directory. */
  predicate FilesAreLeaves(tree: map<Path, Node>) {
    forall p :: p in tree && Under(p) && OutboxPath(EntryOf(p)) in tree && tree[OutboxPath(EntryOf(p))].Regular? ==>
      p == OutboxPath(EntryOf(p))
  }

  function SentIn(tree: map<Path, Node>): Option<seq<Byte>> {
    if SentPath() in tree && tree[SentPath()].Regular? then Some(tree[SentPath()].content) else None
  }

  function LinesIn(tree: map<Path, Node>): seq<Line> {
    match SentIn(tree) case None => [] case Some(bytes) => Parsed(RawLines(bytes))
  }

  predicate ManifestParses(tree: map<Path, Node>) {
    SentIn(tree).Some? ==> AllRead(RawLines(SentIn(tree).value))
  }

  /** The entry is a regular file with nothing against it. */
  predicate EntryPasses(tree: map<Path, Node>, name: seq<Byte>, sent: set<string>, host: Host) {
    var p := OutboxPath(name);
    p in tree && tree[p].Regular? && FilePasses(File(name, tree[p].content), sent, host)
  }

  /** The outbox's entries, each once, as the files they are. */
  ghost predicate Lists(files: seq<File>, tree: map<Path, Node>) {
    && DistinctNames(files)
    && (forall n :: n in EntriesOf(tree) <==> exists i :: 0 <= i < |files| && files[i].raw == n)
    && forall i :: 0 <= i < |files| ==>
         OutboxPath(files[i].raw) in tree && tree[OutboxPath(files[i].raw)] == Regular(files[i].content)
  }

  function NextManifest(tree: map<Path, Node>, files: seq<File>, claims: set<string>, host: Host): seq<Byte> {
    Print(NextLines(LinesIn(tree), files, claims, host.sha))
  }

  /** The manifest to be written passes the content check and is staged as it is, if it is staged. */
  predicate NextPasses(tree: map<Path, Node>, files: seq<File>, claims: set<string>, host: Host) {
    ManifestPasses(CheckResult(true, map[], [], SentIn(tree), NextManifest(tree, files, claims, host)), host)
  }

  lemma NextIs(r: CheckResult, tree: map<Path, Node>, files: seq<File>, claims: set<string>, host: Host)
    requires r.manifestOld == SentIn(tree) && r.manifestNew == NextManifest(tree, files, claims, host)
    ensures NextPasses(tree, files, claims, host) <==> ManifestPasses(r, host)
  {
    hide SentPath, NextManifest;
  }

  ghost predicate EntryRefused(tree: map<Path, Node>, claims: set<string>, host: Host) {
    exists n :: n in EntriesOf(tree) && !EntryPasses(tree, n, DigestsOf(LinesIn(tree)) + claims, host)
  }

  /** Something in the outbox that a check refuses: a manifest line, an entry, or the manifest it would write. */
  ghost predicate Refusable(tree: map<Path, Node>, claims: set<string>, host: Host) {
    || !ManifestParses(tree) || EntryRefused(tree, claims, host)
    || exists files :: Lists(files, tree) && !NextPasses(tree, files, claims, host)
  }

  // --- the send ---

  /** The staged difference is a batch the draft rules refuse, under some report of it, or is not what was checked. */
  ghost predicate BatchRefused(head: map<Path, Blob>, index: map<Path, Blob>, r: CheckResult) {
    || (exists changes :: Reports(head, index, changes) && !BatchRule(changes, r.drafts))
    || BatchMismatch(index, r.pinned) != {}
  }

  /** The manifest is written only where it moved. */
  function Written(tree: map<Path, Node>, r: CheckResult): map<Path, Node> {
    if r.manifestNew != (match r.manifestOld case None => [] case Some(bytes) => bytes)
    then tree[SentPath() := Regular(r.manifestNew)] else tree
  }

  /** What a check of these files pins, the staging of them with the manifest written gives: nothing more or less. */
  lemma UndisturbedStage(r: CheckResult, files: seq<File>, lines: seq<Line>, claims: set<string>, host: Host,
                         tree: map<Path, Node>)
    requires Vouches(r, files, lines, claims, host) && Lists(files, tree) && r.manifestOld == SentIn(tree)
    requires FilesAreLeaves(tree)
    ensures StagedFrom(Written(tree, r), host) == r.pinned
    ensures forall p :: p in r.pinned ==> Under(p)
  {
    hide Vouches, Lists, FilesAreLeaves, SentPath, Under, SentIn, Written;
    var now := Written(tree, r);
    forall p
      ensures p in now && Under(p) <==> p in r.pinned
      ensures p in r.pinned ==> now[p] == Regular(r.pinned[p].content)
    {
      if p == SentPath() {
        SentStands(r, files, lines, claims, host, tree);
      } else {
        FileStands(r, files, lines, claims, host, tree, p);
        OthersStand(tree, r, p);
      }
    }
    QuietStageMatches(r, files, lines, claims, host, now);
    NoMismatchMeansEqual(StagedFrom(now, host), r.pinned);
    assert OutboxOf(StagedFrom(now, host)) == StagedFrom(now, host);
  }

  lemma OthersStand(tree: map<Path, Node>, r: CheckResult, p: Path)
    requires p != SentPath()
    ensures p in Written(tree, r) <==> p in tree
    ensures p in tree ==> Written(tree, r)[p] == tree[p]
  {
    hide SentPath;
  }

  lemma EntryBack(name: seq<Byte>)
    requires 0x2F !in name
    ensures Under(OutboxPath(name)) && EntryOf(OutboxPath(name)) == name
  {
    assert OutboxPath(name)[|Prefix()|..] == name;
    assert OutboxPath(name)[..|Prefix()|] == Bytes(Prefix());
    SplitClean(name, 0x2F);
  }

  lemma SentStands(r: CheckResult, files: seq<File>, lines: seq<Line>, claims: set<string>, host: Host,
                   tree: map<Path, Node>)
    requires Vouches(r, files, lines, claims, host) && Lists(files, tree) && r.manifestOld == SentIn(tree)
    ensures Under(SentPath())
    ensures SentPath() in Written(tree, r) <==> SentPath() in r.pinned
    ensures SentPath() in r.pinned ==> Written(tree, r)[SentPath()] == Regular(r.pinned[SentPath()].content)
  {
    hide Under, OutboxPath, EntryOf, EntriesOf, SentPath, Vouches, Print, NextLines, Drafts, FilePasses;
    SentEntry(tree);
    SentPinnedOnly(r, files, lines, claims, host);
    if SentPath() in tree {
      var i :| 0 <= i < |files| && files[i].raw == Bytes("SENT");
      assert OutboxPath(files[i].raw) == SentPath();
    }
  }

  lemma SentEntry(tree: map<Path, Node>)
    ensures Under(SentPath()) && SentPath() == OutboxPath(Bytes("SENT"))
    ensures SentPath() in tree ==> Bytes("SENT") in EntriesOf(tree)
  {
    hide OutboxPath, EntryOf;
    EntryBack(Bytes("SENT"));
    if SentPath() in tree {
      assert EntryOf(SentPath()) in EntriesOf(tree);
    }
  }

  lemma SentPinnedOnly(r: CheckResult, files: seq<File>, lines: seq<Line>, claims: set<string>, host: Host)
    requires Vouches(r, files, lines, claims, host)
    ensures SentPath() in r.pinned <==> HasManifest(r)
    ensures SentPath() in r.pinned ==> r.pinned[SentPath()] == BlobOf(r.manifestNew)
  {
    hide SentPath, OutboxPath, Pins, Print, NextLines, Drafts, FilePasses, ReadFrom, ManifestPasses, File.IsSent;
    SentPinned(files, r);
  }

  lemma FileStands(r: CheckResult, files: seq<File>, lines: seq<Line>, claims: set<string>, host: Host,
                   tree: map<Path, Node>, p: Path)
    requires Vouches(r, files, lines, claims, host) && Lists(files, tree) && FilesAreLeaves(tree) && p != SentPath()
    ensures p in tree && Under(p) <==> p in r.pinned
    ensures p in r.pinned ==> tree[p] == Regular(r.pinned[p].content)
  {
    hide Vouches, Under, OutboxPath, EntryOf, SentPath;
    PinsAreChecked(r, files, lines, claims, host, p);
    if p in tree && Under(p) {
      assert EntryOf(p) in EntriesOf(tree);
      var i :| 0 <= i < |files| && files[i].raw == EntryOf(p);
      assert OutboxPath(files[i].raw) == p;
    }
  }

  /** Staged as pinned, a batch can only be refused by the draft rules. */
  lemma RefusedByRule(head: map<Path, Blob>, index: map<Path, Blob>, r: CheckResult)
    requires BatchRefused(head, RestOf(index) + r.pinned, r)
    requires forall p :: p in r.pinned ==> Under(p)
    ensures exists changes :: Reports(head, RestOf(index) + r.pinned, changes) && !BatchRule(changes, r.drafts)
  {
    hide Under, Reports, BatchRule;
    NoMismatchMeansEqual(RestOf(index) + r.pinned, r.pinned);
    assert OutboxOf(RestOf(index) + r.pinned) == r.pinned;
  }
}
