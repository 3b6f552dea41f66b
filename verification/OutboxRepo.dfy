/** The check and the send over a repository: the commands step by step, with every failure and interference. */
module OutboxRepo {
  import opened Text
  import opened Utf8
  import opened SentManifest
  import opened Outbox
  import opened OutboxQuiet
  import NameStatus

  datatype Outcome =
    | NotStarted                                   // refused before anything was staged or written
    | RolledBack(indexOk: bool, manifestOk: bool)  // refused after the snapshot; each restore may itself fail
    | Committed

  class Repo {
    const host: Host
    var tree: map<Path, Node>
    var index: map<Path, Blob>
    var head: map<Path, Blob>
    /** The working-tree paths these commands themselves wrote. */
    ghost var wrote: set<Path>
    /** What the outbox held when it was last listed. */
    ghost var listed: set<seq<Byte>>
    /** No call has failed and nobody has edited a file since this was set. */
    ghost var quiet: bool

    constructor (host: Host, tree: map<Path, Node>, index: map<Path, Blob>, head: map<Path, Blob>)
      ensures this.host == host && this.tree == tree && this.index == index && this.head == head && wrote == {} && quiet
    {
      this.host, this.tree, this.index, this.head, wrote, listed, quiet := host, tree, index, head, {}, {}, true;
    }

    /** Anyone may edit any file at any time. */
    method Interfere()
      modifies this`tree, this`quiet
      ensures quiet ==> old(quiet) && tree == old(tree)
    {
      tree := *;
      if tree != old(tree) {
        quiet := false;
      }
    }

    /** Whether a call fails. */
    method Fails() returns (fails: bool)
      modifies this`quiet
      ensures quiet == (old(quiet) && !fails)
    {
      fails := *;
      if fails {
        quiet := false;
      }
    }

    /** Read a regular file; it may have changed or gone, and the read may fail. */
    method ReadFile(p: Path) returns (content: Option<seq<Byte>>)
      modifies this`tree, this`quiet
      ensures content.Some? ==> p in tree && tree[p] == Regular(content.value)
      ensures quiet ==> old(quiet) && tree == old(tree) && (content.None? ==> p !in tree || !tree[p].Regular?)
    {
      Interfere();
      content := None;
      var fails := Fails();
      if !fails && p in tree && tree[p].Regular? {
        content := Some(tree[p].content);
      }
    }

    method ListOutbox() returns (names: Option<seq<seq<Byte>>>)
      modifies this`tree, this`listed, this`quiet
      ensures names.Some? ==> listed == EntriesOf(tree) && forall n :: n in names.value <==> n in listed
      ensures quiet ==> old(quiet) && tree == old(tree) && names.Some?
      ensures names.Some? ==> forall i, j :: 0 <= i < j < |names.value| ==> names.value[i] != names.value[j]
    {
      Interfere();
      var fails := Fails();
      if fails {
        return None;
      }
      listed := EntriesOf(tree);
      var left := EntriesOf(tree);
      var out: seq<seq<Byte>> := [];
      while left != {}
        invariant left <= EntriesOf(tree)
        invariant forall n :: n in out <==> n in EntriesOf(tree) - left
        invariant forall i, j :: 0 <= i < j < |out| ==> out[i] != out[j]
        decreases left
      {
        var n :| n in left;
        assert n !in out;
        out := out + [n];
        left := left - {n};
      }
      names := Some(out);
    }

    /** The blob the content stages as, when that is the blob of the very bytes; git may fail to say. */
    method PinnedBlob(p: Path, content: seq<Byte>) returns (blob: Option<Blob>)
      modifies this`quiet
      ensures blob.Some? ==> blob.value == BlobOf(content) && host.clean(p, content) == content
      ensures quiet ==> old(quiet) && (blob.None? ==> host.clean(p, content) != content)
    {
      var fails := Fails();
      if fails {
        return None;
      }
      var staged, plain := BlobOf(host.clean(p, content)), BlobOf(content);
      return if staged == plain then Some(staged) else None;
    }

    /**
     The check: read the manifest and every outbox file once, and pin what was read. Passing, it read every entry
     listed. Left to itself it refuses only what it has cause to.
     */
    method Check(claims: Option<set<string>>) returns (r: CheckResult, ghost files: seq<File>, ghost lines: seq<Line>)
      modifies this`tree, this`listed, this`quiet
      ensures r.ok ==> claims.Some? && Vouches(r, files, lines, claims.value, host)
      ensures r.ok ==> forall n :: n in listed <==> exists i :: 0 <= i < |files| && files[i].raw == n
      ensures quiet ==> old(quiet) && tree == old(tree)
      ensures quiet && r.ok ==> Lists(files, tree) && lines == LinesIn(tree) && r.manifestOld == SentIn(tree)
      ensures quiet && !r.ok ==> claims.None? || Refusable(tree, claims.value, host)
    {
      hide AllRead, Parsed, RawLines, Drafts, Digests, Present, DigestsOf, Print, FollowAll, Pins, SentPath, OutboxPath,
        Forges, File.Shown, File.IsSent, File.IsReadme, EntriesOf, FilePasses, EntryPasses,
        ManifestPasses, SentPin;
      r, files, lines := REFUSED, [], [];
      var parses, manifestOld, manifest := ReadSent();
      if !parses || claims.None? {
        return;
      }
      lines := manifest;
      var sent := DigestsOf(manifest) + claims.value;
      var names := ListOutbox();
      if names.None? {
        return;
      }
      var refused, pinned, drafts, digests, present;
      refused, pinned, drafts, digests, present, files := Survey(names.value, sent);
      if refused {
        assert quiet ==> EntryRefused(tree, claims.value, host);
        return;
      }
      EveryEntryRead(names.value, files);
      var manifestNew := ManifestNext(manifest, drafts, digests, present);
      r := CheckResult(true, pinned, drafts, manifestOld, manifestNew);
      r := PinManifest(r);
      if quiet {
        EveryEntryListed(names.value, files);
        assert lines == LinesIn(tree) && sent == DigestsOf(lines) + claims.value;
        assert manifestNew == NextManifest(tree, files, claims.value, host);
        NextIs(CheckResult(true, pinned, drafts, manifestOld, manifestNew), tree, files, claims.value, host);
        assert !r.ok ==> !NextPasses(tree, files, claims.value, host);
      }
    }

    lemma EveryEntryListed(names: seq<seq<Byte>>, files: seq<File>)
      requires forall n :: n in names <==> n in EntriesOf(tree)
      requires forall i, j :: 0 <= i < j < |names| ==> names[i] != names[j]
      requires |files| == |names| && forall k :: 0 <= k < |files| ==> files[k].raw == names[k]
      requires forall k :: 0 <= k < |files| ==>
        OutboxPath(names[k]) in tree && tree[OutboxPath(names[k])] == Regular(files[k].content)
      ensures Lists(files, tree)
    {
      hide EntriesOf, OutboxPath;
      EveryEntryRead(names, files);
    }

    /** The manifest to be written, checked and pinned like every file. */
    method PinManifest(was: CheckResult) returns (r: CheckResult)
      requires was.ok
      modifies this`quiet
      ensures r.ok ==> ManifestPasses(r, host) && r == was.(pinned := was.pinned + SentPin(r))
      ensures quiet ==> old(quiet) && (ManifestPasses(was, host) ==> r.ok)
    {
      hide SentPath;
      r := was;
      if !host.vet(Bytes("SENT"), was.manifestNew, false) {
        r := REFUSED;
        return;
      }
      if was.manifestOld.Some? || was.manifestNew != [] {
        var blob := PinnedBlob(SentPath(), was.manifestNew);
        if blob.None? {
          r := REFUSED;
          return;
        }
        r := was.(pinned := was.pinned[SentPath() := blob.value]);
      }
    }

    /** The manifest, where it is a regular file, parsed strictly. */
    method ReadSent() returns (parses: bool, found: Option<seq<Byte>>, manifest: seq<Line>)
      modifies this`tree, this`quiet
      ensures parses ==> ReadFrom(found, manifest)
      ensures quiet ==> old(quiet) && tree == old(tree) && (parses <==> ManifestParses(tree))
      ensures quiet && parses ==> found == SentIn(tree) && manifest == LinesIn(tree)
    {
      hide AllRead, Parsed, RawLines, SentPath;
      parses, found, manifest := true, None, [];
      if SentPath() in tree && tree[SentPath()].Regular? {
        found := ReadFile(SentPath());
        if found.None? {
          parses := false;
          return;
        }
        var malformed;
        manifest, malformed := ReadManifest(found.value);
        parses := malformed == [];
      }
    }

    /** Read and judge every entry; nothing of a refused survey is used. */
    method Survey(names: seq<seq<Byte>>, sent: set<string>)
      returns (refused: bool, pinned: map<Path, Blob>, drafts: seq<Line>, digests: map<string, seq<string>>,
               present: set<string>, ghost files: seq<File>)
      modifies this`tree, this`quiet
      ensures !refused ==> |files| == |names| && Surveyed(files, sent, pinned, drafts, digests, present)
      ensures !refused ==> forall k :: 0 <= k < |files| ==> files[k].raw == names[k] && FilePasses(files[k], sent, host)
      ensures quiet ==> old(quiet) && tree == old(tree)
      ensures quiet && !refused ==> forall k :: 0 <= k < |files| ==>
        OutboxPath(names[k]) in tree && tree[OutboxPath(names[k])] == Regular(files[k].content)
      ensures quiet && refused ==> exists n :: n in names && !EntryPasses(tree, n, sent, host)
    {
      hide OutboxPath, FilePasses;
      refused, pinned, drafts, digests, present := StartSurvey();
      files := [];
      for i := 0 to |names|
        invariant refused || |files| == i
        invariant quiet ==> old(quiet) && tree == old(tree)
        invariant !refused ==> forall k :: 0 <= k < i ==> files[k].raw == names[k] && FilePasses(files[k], sent, host)
        invariant quiet && !refused ==> forall k :: 0 <= k < i ==>
          OutboxPath(names[k]) in tree && tree[OutboxPath(names[k])] == Regular(files[k].content)
        invariant quiet && refused ==> exists n :: n in names && !EntryPasses(tree, n, sent, host)
        invariant !refused ==> Surveyed(files, sent, pinned, drafts, digests, present)
      {
        var content := ReadFile(OutboxPath(names[i]));
        if content.None? {
          assert quiet ==> !EntryPasses(tree, names[i], sent, host);
          refused := true;
          continue;
        }
        var f := File(names[i], content.value);
        var passes := JudgeFile(f, sent);
        if !passes {
          assert quiet ==> !EntryPasses(tree, names[i], sent, host);
          refused := true;
          continue;
        }
        if !refused {
          SurveyStep(files, f, sent, pinned, drafts, digests, present);
        }
        pinned, drafts, digests, present := AddToSurvey(f, sent, pinned, drafts, digests, present);
        files := files + [f];
      }
    }

    lemma EveryEntryRead(names: seq<seq<Byte>>, files: seq<File>)
      requires |files| == |names| && forall k :: 0 <= k < |files| ==> files[k].raw == names[k]
      ensures forall n :: n in names <==> exists i :: 0 <= i < |files| && files[i].raw == n
    {
      forall n | n in names
        ensures exists i :: 0 <= i < |files| && files[i].raw == n
      {
        var i :| 0 <= i < |names| && names[i] == n;
        assert files[i].raw == n;
      }
    }

    /** The survey the loop keeps, as the functions of the files read so far. */
    ghost predicate Surveyed(files: seq<File>, sent: set<string>, pinned: map<Path, Blob>, drafts: seq<Line>,
                             digests: map<string, seq<string>>, present: set<string>)
    {
      && pinned == Pins(files) && drafts == Drafts(files, sent, host.sha)
      && digests == Digests(files, host.sha) && present == Present(files)
    }

    method StartSurvey() returns (refused: bool, pinned: map<Path, Blob>, drafts: seq<Line>,
                                  digests: map<string, seq<string>>, present: set<string>)
      ensures !refused && forall sent :: Surveyed([], sent, pinned, drafts, digests, present)
    {
      refused, pinned, drafts, digests, present := false, map[], [], map[], {};
    }

    function Surveying(f: File, sent: set<string>, pinned: map<Path, Blob>, drafts: seq<Line>,
                       digests: map<string, seq<string>>, present: set<string>)
      : (map<Path, Blob>, seq<Line>, map<string, seq<string>>, set<string>)
    {
      var d := host.sha(f.content);
      (if f.IsSent() then pinned else pinned[OutboxPath(f.raw) := BlobOf(f.content)],
       drafts + if f.IsReadme() || f.IsSent() || d in sent then [] else [Line(d, f.Shown())],
       if f.IsSent() then digests else digests[d := SentManifest.Lookup(digests, d) + [f.Shown()]],
       present + if f.IsSent() then {} else {f.Shown()})
    }

    method AddToSurvey(f: File, sent: set<string>, pinned: map<Path, Blob>, drafts: seq<Line>,
                       digests: map<string, seq<string>>, present: set<string>)
      returns (pinned': map<Path, Blob>, drafts': seq<Line>, digests': map<string, seq<string>>, present': set<string>)
      ensures (pinned', drafts', digests', present') == Surveying(f, sent, pinned, drafts, digests, present)
    {
      pinned', drafts', digests', present' := pinned, drafts, digests, present;
      var digest := host.sha(f.content);
      var isDraft := !f.IsReadme() && !f.IsSent();
      if !f.IsSent() {
        present' := present' + {f.Shown()};
        digests' := digests'[digest := SentManifest.Lookup(digests', digest) + [f.Shown()]];
        pinned' := pinned'[OutboxPath(f.raw) := BlobOf(f.content)];
      }
      if isDraft && digest in sent {
        isDraft := false;
      }
      if isDraft {
        drafts' := drafts' + [Line(digest, f.Shown())];
      }
      assert drafts + [] == drafts;
      assert present + {} == present;
    }

    lemma SurveyStep(files: seq<File>, f: File, sent: set<string>, pinned: map<Path, Blob>, drafts: seq<Line>,
                     digests: map<string, seq<string>>, present: set<string>)
      requires Surveyed(files, sent, pinned, drafts, digests, present)
      ensures var (p, d, g, n) := Surveying(f, sent, pinned, drafts, digests, present);
              Surveyed(files + [f], sent, p, d, g, n)
    {
      hide Present;
      assert (files + [f])[..|files|] == files;
      PresentAppend(files, f);
    }

    /** One file's problems: a forging name, content the check refuses, bytes git would transform. */
    method JudgeFile(f: File, sent: set<string>) returns (passes: bool)
      modifies this`quiet
      ensures passes ==> FilePasses(f, sent, host)
      ensures quiet ==> old(quiet) && (FilePasses(f, sent, host) ==> passes)
    {
      hide Forges, File.Shown, WellFormed, DecodeWith;
      passes := true;
      if f.Shown() == "" || Forges(f.Shown()) {
        passes := false;
      }
      if !f.IsSent() {
        var blob := PinnedBlob(OutboxPath(f.raw), f.content);
        if blob.None? {
          passes := false;
        }
      }
      var text := Decode(f.content);
      if text.None? && IsDraft(f, sent, host) {
        passes := false;
      }
      if !host.vet(f.raw, f.content, IsDraft(f, sent, host)) {
        passes := false;
      }
    }

    // --- the git commands a send runs ---

    /** `git diff --cached --name-status -z -M`: some faithful report of the staged difference, as tokens. */
    method DiffCached() returns (tokens: Option<seq<seq<Byte>>>, ghost changes: seq<NameStatus.Change<Byte>>)
      ensures tokens.Some? ==> Reports(head, index, changes) && tokens.value == NameStatus.Tokens(changes)
      modifies this`quiet
      ensures tokens.Some? ==> forall i :: 0 <= i < |tokens.value| ==> tokens.value[i] != []
      ensures quiet ==> old(quiet) && tokens.Some?
    {
      hide Reports;
      var fails := Fails();
      if fails || [] in head || [] in index {
        quiet := false;
        return None, [];
      }
      var listed := ListChanges();
      changes := listed;
      tokens := Some(NameStatus.Tokens(listed));
      ReportTokens(head, index, listed);
    }

    method ListChanges() returns (changes: seq<NameStatus.Change<Byte>>)
      requires [] !in head && [] !in index
      ensures Reports(head, index, changes)
    {
      var left := set p | p in head.Keys + index.Keys && Changed(head, index, p);
      ghost var all := left;
      var paths: seq<Path> := [];
      while left != {}
        invariant left <= all
        invariant forall p :: p in paths <==> p in all - left
        invariant forall i, j :: 0 <= i < j < |paths| ==> paths[i] != paths[j]
        decreases left
      {
        var p :| p in left;
        assert p !in paths;
        paths := paths + [p];
        left := left - {p};
      }
      PlainReports(head, index, paths);
      changes := Plain(paths);
    }

    /**
     `git add --force` of the outbox while files may be changing: it may stage anything there, and nothing elsewhere.
     */
    method Add() returns (ok: bool)
      modifies this`tree, this`index, this`quiet
      ensures RestOf(index) == RestOf(old(index))
      ensures quiet ==> old(quiet) && ok && tree == old(tree) && index == RestOf(old(index)) + StagedFrom(tree, host)
    {
      Interfere();
      var staged: map<Path, Blob> := *;
      if OutboxOf(staged) != StagedFrom(tree, host) {
        quiet := false;
      }
      index := RestOf(index) + OutboxOf(staged);
      var fails := Fails();
      ok := !fails;
    }

    method Commit() returns (ok: bool)
      modifies this`head, this`quiet
      ensures ok ==> head == index
      ensures !ok ==> head == old(head)
      ensures quiet ==> old(quiet) && ok
    {
      var fails := Fails();
      ok := !fails;
      if ok {
        head := index;
      }
    }

    method WriteSent(content: seq<Byte>) returns (ok: bool)
      modifies this`tree, this`wrote, this`quiet
      ensures wrote == old(wrote) + {SentPath()}
      ensures quiet ==> old(quiet) && ok && tree == old(tree)[SentPath() := Regular(content)]
    {
      Interfere();
      var fails := Fails();
      ok := !fails;
      if ok {
        tree := tree[SentPath() := Regular(content)];
      }
      wrote := wrote + {SentPath()};
    }

    /** Put the recorded outbox entries back and drop what no record names. */
    method RestoreOutboxIndex(records: map<Path, Blob>) returns (ok: bool)
      requires forall p :: p in records ==> Under(p)
      modifies this`index, this`quiet
      ensures RestOf(index) == RestOf(old(index))
      ensures ok ==> OutboxOf(index) == records
      ensures quiet ==> old(quiet) && ok
    {
      hide Under;
      var fails := Fails();
      ok := !fails;
      if !ok {
        return;
      }
      var additions := set p | p in OutboxOf(index) && p !in records;
      var found := index;
      if additions != {} {
        fails := Fails();
        ok := !fails;
        if !ok {
          return;
        }
        index := map p | p in index && p !in additions :: index[p];
      }
      DroppedRest(found, additions, index, records);
      if records != map[] {
        fails := Fails();
        ok := !fails;
        if !ok {
          return;
        }
        AddedRest(index, records);
        index := index + records;
      }
    }

    /** Dropping the unrecorded entries touches nothing outside the outbox and leaves only recorded ones in it. */
    lemma DroppedRest(was: map<Path, Blob>, gone: set<Path>, now: map<Path, Blob>, records: map<Path, Blob>)
      requires gone == set p | p in OutboxOf(was) && p !in records
      requires now == map p | p in was && p !in gone :: was[p]
      ensures RestOf(now) == RestOf(was) && OutboxOf(now).Keys <= records.Keys
    {
      hide Under;
      assert forall p :: p in was && Under(p) <==> p in OutboxOf(was);
    }

    lemma AddedRest(was: map<Path, Blob>, records: map<Path, Blob>)
      requires (forall p :: p in records ==> Under(p)) && OutboxOf(was).Keys <= records.Keys
      ensures RestOf(was + records) == RestOf(was) && OutboxOf(was + records) == records
    {
      hide Under;
      assert forall p :: p in was && Under(p) ==> p in OutboxOf(was);
    }

    ghost predicate ManifestIs(found: Option<seq<Byte>>)
      reads this`tree
    {
      match found
      case None => SentPath() !in tree
      case Some(bytes) => SentPath() in tree && tree[SentPath()] == Regular(bytes)
    }

    /** Put the manifest back as the check found it. */
    method RestoreManifest(found: Option<seq<Byte>>) returns (ok: bool)
      modifies this`tree, this`wrote, this`quiet
      ensures wrote == old(wrote) + {SentPath()}
      ensures ok ==> ManifestIs(found)
      ensures quiet ==> old(quiet) && ok
    {
      hide SentPath;
      Interfere();
      wrote := wrote + {SentPath()};
      var fails := Fails();
      ok := !fails;
      if ok {
        tree := match found
          case None => tree - {SentPath()}
          case Some(bytes) => tree[SentPath() := Regular(bytes)];
      }
    }

    // --- the send ---

    /** No entry of the batch refuses it: the two rules about drafts. */
    method BatchAllowed(changes: seq<NameStatus.Change<Byte>>, drafts: seq<Line>) returns (allowed: bool)
      ensures allowed <==> BatchRule(changes, drafts)
    {
      hide InBatch, IsSentOnly, Shown, Prefix;
      var batch: seq<string> := [];
      var renamed := false;
      var others := false;
      for i := 0 to |changes|
        invariant batch == BatchNames(changes[..i])
        invariant renamed <==> exists k :: 0 <= k < i && InBatch(changes[k]) && IsRename(changes[k])
        invariant others <==>
          exists k :: 0 <= k < i && InBatch(changes[k]) && !IsRename(changes[k]) && !IsSentOnly(changes[k])
      {
        var c := changes[i];
        assert changes[..i + 1][..i] == changes[..i];
        if InBatch(c) {
          batch := batch + if c.One? then [Shown(c.path)] else [Shown(c.source), Shown(c.dest)];
          renamed := renamed || IsRename(c);
          others := others || (!IsRename(c) && !IsSentOnly(c));
        }
      }
      assert changes[..|changes|] == changes;
      if drafts == [] {
        allowed := renamed && !others;
      } else {
        allowed := batch != [] && batch != [Prefix() + "SENT"];
      }
    }

    /** Check, stage, verify, commit — or put back. */
    method Send(claims: Option<set<string>>)
      returns (outcome: Outcome, ghost r: CheckResult, ghost files: seq<File>, ghost lines: seq<Line>)
      modifies this`tree, this`index, this`head, this`wrote, this`listed, this`quiet
      // A send writes no working-tree path but the manifest, and moves no index entry outside the outbox.
      ensures wrote <= old(wrote) + {SentPath()}
      ensures RestOf(index) == RestOf(old(index))
      // A commit holds under the outbox exactly what the check pinned, and elsewhere exactly what was there.
      ensures outcome.Committed? ==> claims.Some? && Vouches(r, files, lines, claims.value, host)
      ensures outcome.Committed? ==> OutboxOf(head) == r.pinned && RestOf(head) == RestOf(old(head)) && head == index
      ensures outcome.Committed? ==> exists p :: Under(p) && p != SentPath() && Changed(old(head), head, p)
      // Git reported the difference as a batch the draft rules allow.
      ensures outcome.Committed? ==> exists changes :: Reports(old(head), head, changes) && BatchRule(changes, r.drafts)
      // What the check read is every entry the outbox held when it was listed.
      ensures outcome.Committed? ==> forall n :: n in listed <==> exists i :: 0 <= i < |files| && files[i].raw == n
      // A refusal leaves no trace.
      ensures !outcome.Committed? ==> head == old(head)
      ensures outcome.NotStarted? ==> index == old(index) && wrote == old(wrote)
      ensures outcome.RolledBack? && outcome.indexOk ==> index == old(index)
      ensures outcome.RolledBack? && outcome.manifestOk ==> ManifestIs(r.manifestOld)
      // Left to itself a send refuses only for cause, and puts everything back.
      ensures quiet && outcome.NotStarted? ==>
        claims.None? || Refusable(old(tree), claims.value, host) || RestOf(old(head)) != RestOf(old(index))
      ensures quiet && outcome.RolledBack? ==> outcome.indexOk && outcome.manifestOk
      ensures quiet && outcome.RolledBack? && FilesAreLeaves(old(tree)) ==>
        exists changes :: Reports(head, RestOf(index) + r.pinned, changes) && !BatchRule(changes, r.drafts)
    {
      hide Vouches, Under, SentPath, BatchRule, Changed, Reports, RestOf, OutboxOf;
      hide Refusable, FilesAreLeaves, Lists, SentIn, BatchRefused, StagedFrom;
      var result;
      result, files, lines := Check(claims);
      r := result;
      outcome := NotStarted;
      if !result.ok {
        return;
      }
      Interfere();
      var outsideFree := StagedOnlyUnderOutbox();
      var unrecorded := Fails();
      if !outsideFree || unrecorded {
        return;
      }
      var records := OutboxOf(index);
      IndexSplits(index);
      var written := true;
      if result.manifestNew != (match result.manifestOld case None => [] case Some(bytes) => bytes) {
        written := WriteSent(result.manifestNew);
      }
      var committed := false;
      if written {
        committed := StageAndCommit(result);
      }
      if committed {
        outcome := Committed;
        IndexSplits(index);
      } else {
        if quiet && FilesAreLeaves(old(tree)) {
          UndisturbedStage(result, files, lines, claims.value, host, old(tree));
          RefusedByRule(head, old(index), result);
        }
        var indexOk := RestoreOutboxIndex(records);
        var manifestOk := RestoreManifest(result.manifestOld);
        outcome := RolledBack(indexOk, manifestOk);
        IndexSplits(index);
      }
    }

    lemma IndexSplits(i: map<Path, Blob>)
      ensures i == RestOf(i) + OutboxOf(i)
      ensures forall p :: p in OutboxOf(i) ==> Under(p)
    {
    }

    /** Nothing outside the outbox is staged; a false answer covers a failed git call too. */
    method StagedOnlyUnderOutbox() returns (free: bool)
      modifies this`quiet
      ensures free ==> RestOf(head) == RestOf(index)
      ensures quiet ==> old(quiet) && (RestOf(head) == RestOf(index) ==> free)
    {
      hide InBatch, Under, Shown, Prefix, NameStatus.Read, NameStatus.Tokens, Disjoint, Changed, NamesOf;
      var tokens;
      ghost var changes;
      tokens, changes := DiffCached();
      if tokens.None? {
        return false;
      }
      var read := NameStatus.Walk(tokens.value, IsPair);
      NameStatus.ReadOfTokens(changes, IsPair);
      var staged := read.value;
      free := true;
      for i := 0 to |staged|
        invariant quiet ==> old(quiet)
        invariant !free ==> RestOf(head) != RestOf(index)
        invariant free ==> forall k, n :: 0 <= k < i && n in NamesOf(staged[k]) ==> StartsWith(Shown(n), Prefix())
      {
        var names := NamesOf(staged[i]);
        if !forall n :: n in names ==> StartsWith(Shown(n), Prefix()) {
          free := false;
          var n :| n in names && !StartsWith(Shown(n), Prefix());
          ShownUnder(n);
          assert Changed(head, index, n);
          OutsideChanged(n);
        }
      }
      if free {
        forall p | Changed(head, index, p)
          ensures Under(p)
        {
          var i :| 0 <= i < |changes| && p in NamesOf(changes[i]);
          ShownUnder(p);
        }
        OutsideUnchanged();
      }
    }

    lemma OutsideChanged(p: Path)
      requires Changed(head, index, p) && !Under(p)
      ensures RestOf(head) != RestOf(index)
    {
      hide Under;
      assert p in RestOf(head) <==> p in head;
      assert p in RestOf(index) <==> p in index;
    }

    lemma OutsideUnchanged()
      requires forall p :: Changed(head, index, p) ==> Under(p)
      ensures RestOf(head) == RestOf(index)
    {
      hide Under;
      assert forall p :: !Under(p) ==> !Changed(head, index, p);
    }

    /** From the add to the commit, over an index that matched HEAD outside the outbox. */
    method StageAndCommit(result: CheckResult) returns (committed: bool)
      requires RestOf(head) == RestOf(index)
      modifies this`tree, this`index, this`head, this`quiet
      ensures RestOf(index) == RestOf(old(index))
      ensures !committed ==> head == old(head)
      ensures committed ==> head == index && OutboxOf(head) == result.pinned && RestOf(head) == RestOf(old(head))
      ensures committed ==> exists p :: Under(p) && p != SentPath() && Changed(old(head), head, p)
      ensures committed ==> exists changes :: Reports(old(head), head, changes) && BatchRule(changes, result.drafts)
      ensures quiet ==> old(quiet)
      ensures quiet && !committed ==> BatchRefused(head, RestOf(old(index)) + StagedFrom(old(tree), host), result)
    {
      hide Under, SentPath, Reports, BatchRule;
      committed := false;
      var ok := Add();
      if !ok {
        return;
      }
      Interfere();
      var tokens;
      ghost var changes;
      tokens, changes := DiffCached();
      if tokens.None? {
        return;
      }
      PrintableReport(head, index, changes);
      var read := NameStatus.Walk(tokens.value, IsPair);
      NameStatus.ReadOfTokens(changes, IsPair);
      var allowed := BatchAllowed(read.value, result.drafts);
      if !allowed {
        return;
      }
      var witness' := BatchTouches(head, index, changes, result.drafts);
      var unlisted := Fails();
      if unlisted || BatchMismatch(index, result.pinned) != {} {
        return;
      }
      NoMismatchMeansEqual(index, result.pinned);
      Interfere();
      committed := Commit();
    }
  }
}
