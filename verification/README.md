# AgentMarshal, verified

AgentMarshal records evidence about agent work in git and gates merges on it. This project models the parts of it whose
promises are not obvious from any one function, and proves those promises in Dafny. `dafny verify dfyconfig.toml` checks
everything.

- **The diff leak scan** (`Utf8`, `QuotedPath`, `DiffScan`, `SectionNames`, `LossyDecode`, `LeakScan`,
  `LineLoss`, `LossNames`). The parser of raw
  `git diff` output that walks hunks with two counters, and the lossy decode in front of it, as loops proved against a walk
  over lines. The proofs go through a printer of diffs, C-quoted paths and patches without a destination among them: the
  walk undoes it on characters, and, after the decode, on raw bytes; and the files announced as not fully read are exactly
  those of which some byte the scan reads was lost. UTF-8 is decoded as
  section 3 of RFC 3629 has it, an ill-formed stretch replaced as section 3.9 of the Unicode Standard recommends.
- **The outbox** (`NameStatus`, `SentManifest`, `Outbox`, `OutboxQuiet`, `OutboxRepo`). The check that pins blobs and the send that
  stages, verifies and commits them, as a class over HEAD, the index and a working tree that anyone may edit between any
  two steps, where any git call, read or write may fail; and what the two may refuse where nobody edits and nothing fails.
- **The merge gate** (`Order`, `Lifecycle`, `JournalPaths`, `Gate`, `GateRuns`, `GateShapes`). The gate's own journal checks as methods,
  a step as a merge it passed, and what every run of such merges keeps.
- **Switches and trust files** (`TomlValues`, `TomlLex`, `TomlDoc`, `TomlShapes`, `TomlLines`, `TomlFields`, `SwitchText`,
  `OffRewrite`, `AppendEntry`, `PersonalSwitch`, `PersonalRewrite`, `PersonalEnable`, `OneEntry`, `TornRewrite`,
  `PersonalFaults`, `Switches`, `SwitchOff`, `TrustFile`, `TrustRoundTrip`, `DirectoryHash`). A line-oriented subset of TOML v1.0.0 with its parser, the textual edits the commands make, and the
  proof that the edits commute with parsing; the trust file's writer and reader; the framed stream an approval hashes.
- **The process log** (`ProcessLog`, `LogReading`, `LogSweep`). Appending and rotation where every system call may fail,
  the read with its stable sort, and the sweep that bounds the directory.
- **Isolation** (`Isolation`, `SetupReport`). The child's setup under every outcome of every system call, the report it
  writes and the parent's reading of it.
- **Steps** (`Steps`, `Durations`). The open-step computation, and the durations it prints and reads.

Code that works step by step is a method with loops, proved against a function; what the functions mean is in the lemmas.
Environment choices (edits to the working tree, failing calls, rename pairings, merge outcomes) are nondeterministic or
universally quantified, so a theorem holds for all of them.

## What was found

- A switches file on CRLF line endings with no final newline, whose last line is an `on` entry's `state` or `task`, cannot
  be switched off by the command: the rewritten last line ends in a bare carriage return, which is not TOML. The
  command's own verification refuses the text, so nothing is corrupted, but the module's documentation
  (`src/agentmarshal/switch_off.py:16-33`) lists other forms as the only refused ones. `OffRewrite.RewriteCommutes` and
  `SwitchOff.OffInPlace` state the exact condition, and `TornRewrite.TornHappens` gives the failing file. The personal
  disable and enable share the fault: `PersonalRewrite.DisableCommutes` and `PersonalEnable.EnableCommutes` state theirs,
  and `PersonalFaults.TornHappens` gives a file neither can carry through.
- A personal entry whose `reason` key is spelled with an escape (`"\u0072eason"`) is read by the parser and not found by
  the rewrite. Disabling it with a new reason writes the key twice, which is not TOML; disabling it with none leaves the
  old reason. `PersonalRewrite.DisableReads` is exact about it, `PersonalFaults.EscapedHappens` shows both. The
  command's verification refuses either text, so the entry cannot be disabled at all.
- A personal entry with a table of its own below it (`[switches.x.note]`), which the personal parser reads past, cannot be
  enabled: removing the entry's own lines leaves its table standing, without a state. `PersonalEnable.EnableCommutes` holds
  exactly where there is no such table, and `PersonalFaults.SubtableHappens` shows the file.
- A system-call error whose text is exactly `ok` would be reported as success. `SetupReport.ListedExactly` says exactly
  when each requested guarantee is listed as failed, whatever the texts, and `SetupReport.OkTextForges` runs the setup with
  every call refused so: nothing is enforced and nothing is listed. No real `strerror` text is `ok`; the main result
  assumes so.

## Model

| member | source | states |
|---|---|---|
| DiffScan.CollectAdded | src/agentmarshal/journal/capture.py:688-757 | The index-and-two-counters loop computes exactly the walk that feeds the lines one at a time to the hunk state machine. |
| DiffScan.BodyWalk | src/agentmarshal/journal/capture.py:715-757 | A hunk body is consumed whole whatever its lines hold (`++ b/x`, `@@ -1 +1 @@`, `diff --git`, "\ No newline" notes): both counters end at zero and exactly its added lines are collected. |
| DiffScan.HeaderOfPrinted | src/agentmarshal/journal/capture.py:523 | A printed hunk header reads back to its two counts, with a count of 1 omitted or not and any section heading after it. |
| DiffScan.WalkUndoesPrint | src/agentmarshal/journal/capture.py:688-757 | For every list of file patches with well-formed hunks, whether a patch's destination is plain, C-quoted, `/dev/null` or missing, the walk over the printed diff collects for each path exactly its added lines in order, and nothing from headers, context or removals. |
| DiffScan.QuotedNamesApart | src/agentmarshal/journal/capture.py:537-542 | Taking a C-quoted path as given never confuses two files: two quoted paths are named alike only if they are one path. |
| DiffScan.ScanDiff | src/agentmarshal/journal/capture.py:759-783 | The matching loops report, sorted and each once, every signature match, and every marker match outside the file that declares the markers, and nothing else. |
| DiffScan.HitsExactly | src/agentmarshal/journal/capture.py:759-783 | A hit is owed exactly for a path that gained text, shown as masked, with a signature found in that text, or the position of a marker that is not empty and stands in it, outside the file declaring the markers. |
| DiffScan.HeaderOnly | src/agentmarshal/journal/capture.py:523 | Only a line of the shape `@@ -` range ` +` range ` @@` opens a hunk, a range being digits or digits, a comma and digits, and its counts are those read. |
| Utf8.DecodeOfEncode | src/agentmarshal/journal/capture.py:602-625 | Strict decoding undoes encoding for every string of Unicode scalar values. |
| Utf8.EncodeOfDecode | src/agentmarshal/journal/capture.py:602-625 | Bytes that decode strictly are the encoding of what they decode to, so no two byte strings decode alike. |
| Utf8.DecodeAppend | src/agentmarshal/journal/capture.py:525-526 | Decoding, with either error handler, splits at any byte that does not continue a sequence: cutting the stream at a line start changes no character. |
| Utf8.AsciiRunSurvives | src/agentmarshal/journal/capture.py:588-625 | A contiguous ASCII run comes through either lossy decode untouched, whatever bytes surround it. |
| Utf8.StrayByte | src/agentmarshal/journal/capture.py:588-625 | A byte that begins no sequence is shown as one replacement character, or escaped as its two small hexadecimal digits, and what follows it is decoded afresh. |
| LossyDecode.DecodeSectionLossy | src/agentmarshal/journal/capture.py:588-625 | The section loop with its two flags decodes each line by where it stands, and names the section exactly when a line before the hunks or an added line lost bytes. |
| LossyDecode.DecodeDiffPerFile | src/agentmarshal/journal/capture.py:628-670 | The whole decode is its sections' texts joined, and the names listed are, in order, those of exactly the sections that lost bytes the scan reads (or any bytes, on request). |
| LossyDecode.DecodeChoice | src/agentmarshal/journal/capture.py:588-625 | An ill-formed line is escaped exactly before the hunks and where it opens `diff --git `, `--- ` or `+++ `, and replaced anywhere else. |
| LineLoss.PatchNamed | src/agentmarshal/journal/capture.py:613-625 | Of any printed patch, the section rule names its lines exactly where a header line, the destination's path or an added line is not UTF-8. |
| LossNames.LostExactly | src/agentmarshal/journal/capture.py:588-670 | What the decode of any printed diff announces is, in order, exactly the files with a header or an added line that is not UTF-8, or, on request, with any such byte at all. |
| LossNames.LostAlwaysAnnounced | src/agentmarshal/journal/capture.py:588-670 | A file one of whose added lines is not UTF-8 is always announced, and under the very path a hit in it carries. |
| LossNames.NothingAnnounced | src/agentmarshal/journal/capture.py:588-670 | Bytes lost in removed, context and note lines and in section headings alone announce nothing. |
| LossNames.ReportedAsScanned | src/agentmarshal/journal/capture.py:545-585 | The name a patch with a destination is announced under is the path its hits carry. |
| SectionNames.NameSection | src/agentmarshal/journal/capture.py:545-585 | The loop over the section's lines names it by its first destination line, and by the first `diff --git` line where that names no file. |
| SectionNames.NameAgrees | src/agentmarshal/journal/capture.py:545-585 | An undecodable section with a destination is listed under the very path a hit in it carries, plain or C-quoted. |
| SectionNames.NameFallsBack | src/agentmarshal/journal/capture.py:566-585 | A patch that leads to no file, or names none, is listed as its first line names it. |
| SectionNames.HeaderNames | src/agentmarshal/journal/capture.py:545-563 | A `diff --git` line names what follows its last ` b/`, where no quoted destination stands on it. |
| SectionNames.HeaderNamesQuoted | src/agentmarshal/journal/capture.py:545-563 | A C-quoted destination is preferred wherever it stands, and keeps its opening quote. |
| SectionNames.HeaderWhole | src/agentmarshal/journal/capture.py:545-563 | A line with no destination on it is the name itself, and an empty one is `(unknown file)`. |
| LossyDecode.DecodeIsPerLine | src/agentmarshal/journal/capture.py:588-670 | Section splitting and the strict shortcut for a clean section change nothing: the result is one uniform decode of every line of the stream. |
| LossyDecode.LinesKept | src/agentmarshal/journal/capture.py:588-670 | Every line break of the byte stream is a line break of the text, and no other is. |
| LossyDecode.LineKeepsAscii | src/agentmarshal/journal/capture.py:588-625 | A line's decode, strict or lossy, keeps every ASCII run in place, its leading diff character included. |
| LeakScan.LeakScanDiff | src/agentmarshal/journal/gate.py:1161-1195 | The scan of a raw diff is the decode followed by the walk and the match, end to end, and the files it names as not fully read are those the decode announces. |
| LeakScan.RawWalkUndoesPrint | src/agentmarshal/journal/capture.py:588-757 | Whatever bytes a diff's content holds and however its paths are written, each path collects exactly its own added lines, decoded. |
| LeakScan.PathNeverForged | src/agentmarshal/journal/capture.py:529-542 | No destination, undecodable, C-quoted or missing, is named as the configuration file's path but that path itself, so the one exempt file cannot be impersonated. |
| LeakScan.MarkerAlwaysReported | src/agentmarshal/journal/capture.py:588-783 | An ASCII private marker inside one added line's bytes is reported for that file, whatever surrounds it in the line and in the diff, unless the file is the one declaring the markers. |
| NameStatus.ReadOfTokens | src/agentmarshal/outbox.py:932-965 | Reading a `-z` name-status token list undoes printing, for any paths and any mix of one- and two-path entries. |
| NameStatus.Walk | src/agentmarshal/outbox.py:932-965 | The index walk that advances by two or three tokens computes that reading, and refuses a list cut inside an entry. |
| SentManifest.ReadManifest | src/agentmarshal/outbox.py:583-606 | The strict parse returns the lines in order and the numbers of exactly the lines that do not parse. |
| SentManifest.ManifestNext | src/agentmarshal/outbox.py:498-527 | The loop follows each kept digest to its new name and appends one line a draft, as the lines' function has it. |
| SentManifest.ReadOfPrint | src/agentmarshal/outbox.py:66-71 | What is written always passes the strict line parse and parses to the same entries. |
| SentManifest.PrintOfRead | src/agentmarshal/outbox.py:583-606 | A manifest that parses is rewritten byte for byte, but for a missing final newline. |
| SentManifest.NextLinesOk | src/agentmarshal/outbox.py:498-527 | After a passing check every line of the next manifest is one the strict parse accepts. |
| SentManifest.NothingDropped | src/agentmarshal/outbox.py:498-527 | No digest is ever dropped, and the manifest grows by exactly one line a draft. |
| SentManifest.LineFollows | src/agentmarshal/outbox.py:498-527 | A kept line whose name is gone and whose digest exactly one file has now holds that file's name. |
| SentManifest.LineKept | src/agentmarshal/outbox.py:498-527 | Any other line is kept as written: its name is still there, or no file or several have its digest. |
| SentManifest.CheckIsStable | src/agentmarshal/outbox.py:668-683 | Over unchanged files a second check finds no draft and computes the very same lines, renames followed included. |
| SentManifest.SentAside | src/agentmarshal/outbox.py:738 | The manifest's own file never weighs: writing it between two checks changes nothing they compute. |
| Outbox.PinsAreChecked | src/agentmarshal/outbox.py:684-770 | What a passing check pins is the manifest's next content and, for each file it read and passed, that file's very bytes: nothing else and nothing missing. |
| Outbox.DraftsAreUnsent | src/agentmarshal/outbox.py:658-683 | A passing check lists one draft, in order and under its shown name, for every file that is neither the README nor the manifest and whose digest no manifest line holds and nobody claims, and for no other. |
| Outbox.FilesAreVetted | src/agentmarshal/outbox.py:710-727 | Each of those files was vetted as a draft, UTF-8 at least, and every other file as none. |
| Outbox.ManifestIsVetted | src/agentmarshal/outbox.py:738-745 | The manifest to be written was vetted as well, as no draft. |
| Outbox.NamesForgeNothing | src/agentmarshal/outbox.py:663-666 | A vouched file's shown name holds no control character, no line or paragraph separator and no bidirectional control. |
| Outbox.ManifestReadsBack | src/agentmarshal/outbox.py:746-770 | The manifest a passing check computes can be read back, and to the lines it means. |
| Outbox.SecondCheckIsQuiet | src/agentmarshal/outbox.py:668-770 | A check after a send over the same files finds no draft and computes identical bytes. |
| Outbox.NoMismatchMeansEqual | src/agentmarshal/outbox.py:1020-1047 | The mismatch test is empty exactly when the staged outbox equals the pinned one, missing and unpinned paths included. |
| Outbox.QuietStageMatches | src/agentmarshal/outbox.py:1085-1135 | An undisturbed send finds no mismatch: staging the checked files writes exactly the pins. |
| Outbox.BatchTouches | src/agentmarshal/outbox.py:1136-1161 | A batch the two draft rules allow changes some outbox file besides the manifest, whatever renames git pairs. |
| Outbox.DraftlessExactly | src/agentmarshal/outbox.py:1124-1147 | Without a draft the rule allows exactly the batches whose every entry touching the outbox is a rename or the manifest alone, with a rename among them. |
| Outbox.DraftedExactly | src/agentmarshal/outbox.py:1148-1153 | With a draft it allows exactly those with some entry touching the outbox besides the manifest alone. |
| OutboxQuiet.UndisturbedStage | src/agentmarshal/outbox.py:1085-1135 | Where a check read every entry and no file is a directory, staging the outbox with the manifest written gives exactly the pins. |
| OutboxRepo.Repo.PinnedBlob | src/agentmarshal/outbox.py:832-851 | A blob is pinned only where git would stage the very bytes that were read. |
| OutboxRepo.Repo.Check | src/agentmarshal/outbox.py:534-784 | With the working tree changing between any two reads, a passing check vouches for the files it read, which are every entry the outbox held when it was listed, and changes neither HEAD nor index. Where no call fails and nobody edits a file, it refuses only for cause: a manifest line that does not parse, an entry that is no regular file or has something against it, or a next manifest that may not be written. |
| OutboxRepo.Repo.RestoreOutboxIndex | src/agentmarshal/outbox.py:981-1017 | Replaying the recorded entries and removing unrecorded paths gives back exactly the earlier outbox index and leaves the rest alone; a failed replay is reported. |
| OutboxRepo.Repo.RestoreManifest | src/agentmarshal/outbox.py:1050-1066 | The manifest has its old bytes, or is absent as before. |
| OutboxRepo.Repo.BatchAllowed | src/agentmarshal/outbox.py:1136-1161 | The loop over the staged entries computes the draft rules exactly. |
| OutboxRepo.Repo.StageAndCommit | src/agentmarshal/outbox.py:1085-1183 | From the add to the commit, however the working tree moves: a commit is made only of exactly the pinned outbox in a batch the rules allow, and a refusal leaves the index for the rollback to restore; undisturbed, it is refused only for the batch or for a difference from the pins. |
| OutboxRepo.Repo.Send | src/agentmarshal/outbox.py:1069-1183 | Only checked bytes are committed: a made commit holds under the outbox exactly the pinned paths with the pinned blobs and is unchanged elsewhere, in a batch the draft rules allow; a refused send whose rollback succeeds leaves the index, and the manifest it wrote, as they were. Left to itself, a send is refused only where the check has cause to, where something is staged outside the outbox, or where git reports the pinned batch as one the draft rules refuse, and then everything is put back. |
| Order.ListingUnique | src/agentmarshal/journal/gate.py:2227-2235 | A set of names has one sorted listing. |
| Order.Sort | src/agentmarshal/journal/gate.py:2227-2235 | Insertion into a growing list computes that listing. |
| Lifecycle.Project | src/agentmarshal/journal/status.py:103-141 | The loop with its three variables computes the fold of the transition table, refusals included. |
| Lifecycle.FoldMeaning | src/agentmarshal/journal/attestation.py:62-115 | Along any sequence the fold accepts: one opening, closings and reopenings balance, and the state is what the last lifecycle record says. |
| Lifecycle.Begins | src/agentmarshal/journal/attestation.py:62-66 | A task begins with its opening and is open then; no other record begins one. |
| Lifecycle.AfterOpen | src/agentmarshal/journal/attestation.py:62-115 | What may follow an open task's records, type by type, and the state it leaves. |
| Lifecycle.AfterClosing | src/agentmarshal/journal/attestation.py:69-105 | What may follow a closing: a session or a check, and a reopening where the task was completed; nothing else. |
| Lifecycle.AdmittedIs | src/agentmarshal/journal/attestation.py:79-103 | A completed task still takes sessions, checks and reopenings, an abandoned one sessions and checks. |
| Lifecycle.AbandonedIsFinal | src/agentmarshal/journal/attestation.py:75-84 | A readable task with an abandonment among its records is abandoned, whatever else it holds and in whatever order. |
| Lifecycle.ReopensOnlyByReopening | src/agentmarshal/journal/attestation.py:79-83 | Records merged into a completed task, in any order, leave it open only if one of the added ones is a reopening. |
| JournalPaths.WellNamedMeaning | src/agentmarshal/journal/gate.py:391-434 | On a well-named record path the gate's two readings of the file name, by suffix and by type, agree, and the path names its task. |
| Gate.ChangedWithStatus | src/agentmarshal/journal/gate.py:358-388 | The token walk takes renames and copies apart into the pairs their function has, or refuses a list cut short. |
| Gate.PairsMeaning | src/agentmarshal/journal/gate.py:358-388 | However git pairs renames and copies, the pairs say exactly what became of each path. |
| Gate.TamperedIffEvidenceChanged | src/agentmarshal/journal/gate.py:2142-2157 | Nothing is reported tampered exactly when every record and artifact of the merge base survives unchanged. |
| GateShapes.EvidenceExactly | src/agentmarshal/journal/gate.py:391-434 | Evidence is every file under the journal with a directory called `records` on its way, and every one under its `tasks` with one called `artifacts`; nothing else. |
| GateShapes.ReportedExactly | src/agentmarshal/journal/gate.py:2142-2157 | Any change but an addition of a task's record or artifact file is reported; a path outside the journal never is. |
| GateShapes.FileSurvives | src/agentmarshal/journal/gate.py:2142-2207 | Every record and artifact file of the merge base and of the target survives a passed merge unchanged. |
| GateShapes.FilesForever | src/agentmarshal/journal/gate.py:2140-2291 | Along every run of passed merges, a task's record and artifact files, however deep, stay as they are. |
| Gate.JudgeClosed | src/agentmarshal/journal/gate.py:1399-1436 | Closed-ness and the terminal state are read off the greatest lifecycle file name. |
| Gate.JudgeLifecycle | src/agentmarshal/journal/gate.py:2223-2290 | One affected task's verdict is its merged projection and, for a task other than the judged one, its own closed-at-base admission. |
| Gate.RunGate | src/agentmarshal/journal/gate.py:2140-2291 | The gate that counts violations check by check passes exactly when every check holds. |
| GateShapes.AddedRecordIs | src/agentmarshal/journal/gate.py:2159-2190 | Every record a passed candidate adds is directly in the records of a task `CR-` and digits, named as a record file is, and holds a valid record of that very task. |
| GateShapes.AddedRecordTaken | src/agentmarshal/journal/gate.py:2159-2190 | A path so shaped that holds a valid record of its task is one the gate takes. |
| GateShapes.OwnClosedTask | src/agentmarshal/journal/gate.py:1437-1454 | A candidate of a task closed at base only adds, only under that task, and only the record types its state still takes. |
| GateShapes.OtherClosedTask | src/agentmarshal/journal/gate.py:2242-2290 | A task the candidate merely appends to, closed at base, is held to the same. |
| Gate.EvidenceGrows | src/agentmarshal/journal/gate.py:2190-2207 | A passed merge only adds evidence to the target, by a disjoint union. |
| GateRuns.ClosedAgreesWithFold | src/agentmarshal/journal/gate.py:1399-1436 | On a readable task of well-named records, the state read off the greatest lifecycle file name is the state of the fold over every record. |
| GateRuns.SoundKept | src/agentmarshal/journal/gate.py:2209-2291 | Every task stays readable and every record well-named over any merge the gate passed. |
| GateRuns.RunSound | src/agentmarshal/journal/gate.py:2140-2291 | So along a whole run of passed merges from a sound tree, every tree is sound. |
| GateRuns.EvidenceForever | src/agentmarshal/journal/gate.py:2142-2157 | What one tree of a run holds as evidence every later one holds, unchanged. |
| GateRuns.AbandonedForever | src/agentmarshal/journal/gate.py:2209-2291 | A task abandoned in one tree of a run is abandoned in every later one. |
| GateRuns.DoneReopensOnlyByRecord | src/agentmarshal/journal/gate.py:2209-2291 | A merge leaves a completed task open only by adding a `reopened` record to it. |
| GateRuns.ClosedTaskOnlyGrows | src/agentmarshal/journal/gate.py:1437-1454 | A candidate naming a task closed at base changes nothing: it only adds files of that task. |
| TomlValues.EqualIsIdentity | src/agentmarshal/switches.py:350-382 | The type-strict equality accepts exactly a value and itself. |
| TomlValues.CanonicalInjective | src/agentmarshal/journal/gate.py:1136-1158 | Values of one canonical form are one value, at any nesting. |
| TomlValues.EqualitiesAgree | src/agentmarshal/journal/gate.py:1136-1158 | The rewrites' equality and the gate's canonical comparison agree on every pair of values. |
| TomlLex.ReadOfEscaped | src/agentmarshal/extension_trust.py:486-497 | Unescaping a basic string undoes escaping it, for every string of Unicode scalar values. |
| TomlShapes.LexClean | src/agentmarshal/switch_off.py:98-104 | A line the parser accepts holds no control character, a carriage return among them. |
| TomlShapes.HeaderReads | src/agentmarshal/switch_off.py:178-203 | On such text a line the entry pattern matches parses as the header of that entry, in every spelling the pattern knows. |
| TomlShapes.KeyLineReads | src/agentmarshal/switch_off.py:267 | A line the key pattern matches parses as an assignment of that key. |
| TomlShapes.HeaderShape | src/agentmarshal/switch_off.py:85-104 | On a parsed line the header pattern matches the table headers and nothing else. |
| SwitchText.SpelledExactly | src/agentmarshal/switch_off.py:178-203 | The search knows a key in exactly three spellings: the basic string as written, bare where the name can stand bare, and a literal string where it holds no single quote. |
| SwitchText.ArrayHeader | src/agentmarshal/switch_off.py:96-104 | An array-of-tables header ends a table as a table header does. |
| TomlLines.ParseByLine | src/agentmarshal/switch_off.py:238-243 | A text parses line by line, and not at all where it ends in a bare carriage return. |
| TomlLines.StretchParses | src/agentmarshal/switch_off.py:206-246 | Any stretch of a table's own lines makes a document on its own, so the self-containedness check never refuses a table of the subset. |
| TomlLines.SpanFound | src/agentmarshal/switch_off.py:206-246 | On a parsed document the table is found exactly when its header is spelled a way the search knows, and runs to the next header. |
| TomlLines.PairFound | src/agentmarshal/switch_off.py:249-284 | In a table's own lines a pair is found exactly when its key is spelled a way the search knows, and is that one line. |
| SwitchText.FindEntrySpan | src/agentmarshal/switch_off.py:206-246 | The search loops compute the span their function has. |
| SwitchText.FindKeyPair | src/agentmarshal/switch_off.py:249-284 | The least end at which the pair's lines parse, by a loop over ends. |
| SwitchText.RewriteEntryBody | src/agentmarshal/switch_off.py:287-333 | The loop over line indices computes the lines with both located pairs replaced, or nothing where one is not located or they overlap. |
| OffRewrite.RewriteCommutes | src/agentmarshal/switch_off.py:287-390 | The in-place rewrite of an entry carrying no reason parses to the old document with only that entry's state, task and reason set, if and only if the file is not a CRLF file whose last, unterminated line was rewritten; otherwise it does not parse. |
| TornRewrite.TornHappens | src/agentmarshal/switch_off.py:318-333 | The failing file, for every name, task and reason: well-formed, its entry found and rewritten, the result not TOML. |
| AppendEntry.HeaderWritten | src/agentmarshal/switch_off.py:170-175 | The header written for any name parses as that entry's and is one the search finds again. |
| AppendEntry.AppendCommutes | src/agentmarshal/switch_off.py:378-390 | Appending a table commutes with parsing on either line-ending convention, whatever the text's last line: the old document with the entry added. |
| AppendEntry.SkeletonParses | src/agentmarshal/switch_off.py:368-374 | The file created where there was none parses to the empty switches file with the entry added. |
| PersonalSwitch.DisableEnable | src/agentmarshal/extension_trust.py:840-916 | Personal disable followed by enable, for a name the file carries no entry for, gives back the same document, with or without a reason. |
| PersonalSwitch.CreateEnable | src/agentmarshal/extension_trust.py:862-916 | A file created by disabling is enabled back to the empty switches file. |
| PersonalRewrite.OffEntryBody | src/agentmarshal/extension_trust.py:794-837 | The loop over line indices computes the table's lines with the located pairs, of one line or more, edited: the state replaced, the reason added, replaced or removed; nothing where no state is located or the pairs overlap. |
| PersonalRewrite.DisableCommutes | src/agentmarshal/extension_trust.py:794-874 | Disabling an entry in place parses to the old document with only its state and reason changed, if and only if the text is not left ending in a bare carriage return and a reason the entry carries is one the rewrite finds. |
| PersonalRewrite.DisableReads | src/agentmarshal/extension_trust.py:794-874 | What a disable in place gives in every case, exactly: what was meant; no document where the text is torn or a given reason lands beside one not found; the old reason kept where none is given. |
| PersonalEnable.EnableCommutes | src/agentmarshal/extension_trust.py:888-916 | Enabling an entry, wherever its table stands, parses to the old document without the entry and everything under it, the parent table kept, if and only if the text is not left ending in a bare carriage return and the entry has no table of its own below. Otherwise, exactly: no document, or only the entry's own keys gone. |
| PersonalEnable.RestLess | src/agentmarshal/extension_trust.py:888-916 | After a removed table the remaining lines run exactly where they ran with it, tables below the entry included; only the entry's own keys, its table and its parent may be missing. |
| PersonalEnable.RemovedIsWithout | src/agentmarshal/extension_trust.py:888-916 | Taking out an entry's own keys and its table takes out the whole entry exactly when no table stands below it. |
| PersonalFaults.TornHappens | src/agentmarshal/extension_trust.py:862-916 | For every name: a well-formed file, its entry found, that neither a disable, with any reason, nor an enable turns into TOML. |
| PersonalFaults.EscapedHappens | src/agentmarshal/extension_trust.py:794-837 | For every name and reason: an entry whose reason key is escaped becomes no document where a reason is given, and keeps its old reason where none is. |
| PersonalFaults.SubtableHappens | src/agentmarshal/extension_trust.py:888-916 | For every name: an entry with a table below it is still there after an enable, without its state. |
| Switches.ParseSwitches | src/agentmarshal/switches.py:117-203 | The entry loop accepts exactly the readable files and returns every entry as read; a reason goes with `off` and only with `off`. |
| Switches.EntryExactly | src/agentmarshal/switches.py:150-203 | An entry is read, and as this switch, exactly when its state is the switch's, its task is `CR-` and digits, and it carries a reason, not empty, of at most 1000 characters and forging nothing, if off, and none if on. |
| Switches.ReadableExactly | src/agentmarshal/switches.py:117-203 | A file is read exactly when its format is the integer 1 and its switches a table of known names, each entry read. |
| Switches.VerifiedIs | src/agentmarshal/switch_off.py:393-445 | The command's verification passes exactly on the expected document, where the entry's own fields are ones the parser takes. |
| Switches.VerifiedExactly | src/agentmarshal/switch_off.py:393-445 | Whatever the file held, the verification passes exactly on the expected document, for a task and a reason that can be recorded, where the format and every other entry are ones the parser takes. |
| Switches.LaneMeaning | src/agentmarshal/journal/gate.py:1522-1579 | What the operational lane admits, both ways: every key outside the entries as the base has it, no entry gone, and every new or different entry naming this task. |
| Switches.VerifiedPassesLane | src/agentmarshal/journal/gate.py:1522-1579 | Every file the verification accepts, whatever its text, the lane admits for the task it names. |
| SwitchOff.RootOff | src/agentmarshal/switch_off.py:420-431 | The nested view of the rewritten document is the one the verification expects, every key the entry carried kept. |
| SwitchOff.OffInPlace | src/agentmarshal/switch_off.py:622-725 | Switching off an `on` entry whose table was found: the command's verification accepts the text if and only if it is not torn, and the lane then admits it. |
| SwitchOff.OffAppended | src/agentmarshal/switch_off.py:622-725 | Where the file carries no such entry, the text is always accepted and admitted. |
| SwitchOff.OffCreated | src/agentmarshal/switch_off.py:622-725 | Where there is no file, the one created is always accepted and admitted. |
| SwitchOff.PlaceholderDecides | src/agentmarshal/switch_off.py:106-108 | The verdict under the placeholder task id, before the task exists, is the verdict under the opened task's id. |
| TrustFile.DumpGrants | src/agentmarshal/extension_trust.py:500-516 | The nested loops over sorted names and paths write the one fixed shape. |
| TrustFile.ReadGrants | src/agentmarshal/extension_trust.py:423-483 | The entry loop returns the grants, or nothing where any part is not of the recorded shape; a file without grants is no grants. |
| TrustFile.ReadExactly | src/agentmarshal/extension_trust.py:423-483 | The file is read, and as these grants, exactly when its format is the integer 1 and it holds no grants table and there are none, or one whose entries are these grants, every field of its recorded type. |
| TrustFile.GrantExactly | src/agentmarshal/extension_trust.py:455-483 | One entry is read as a grant exactly when it holds that grant's four strings and its table of files, all strings. |
| TrustRoundTrip.DumpedParses | src/agentmarshal/extension_trust.py:500-516 | What is written parses, and to exactly the leaves and tables of its grants, quoted headers and keys included. |
| TrustRoundTrip.ReadOfDump | src/agentmarshal/extension_trust.py:423-516 | The trust file round-trips: for every map of grants over Unicode scalar strings, reading what was written gives the same grants. |
| DirectoryHash.DirectoryStream | src/agentmarshal/extension_trust.py:404-420 | The hashing loop feeds the framed stream: each path and hash closed by a NUL, in path order. |
| DirectoryHash.StreamInjective | src/agentmarshal/extension_trust.py:404-420 | The stream determines the whole file map: two streams are equal if and only if the maps are. |
| DirectoryHash.ChangedAfterApproval | src/agentmarshal/extension_trust.py:542-559 | Nothing is returned exactly when the maps, and so the streams, are equal; otherwise the least differing path with the right kind. |
| ProcessLog.LinesOfClosed | src/agentmarshal/process_log.py:321-331 | Finished lines followed by a line still without its line feed read as the finished lines alone. |
| ProcessLog.TornRead | src/agentmarshal/process_log.py:321-331 | A read while a line is being appended, however much of it has landed, sees the lines before it and nothing else. |
| ProcessLog.Writer.ShiftUp | src/agentmarshal/process_log.py:313-318 | From any gap pattern and with any rename failing, no rename goes to a suffix that is there, and the lines stay in order; where none fails, every file has moved up by one and the oldest is gone. |
| ProcessLog.Writer.RotateIfFull | src/agentmarshal/process_log.py:301-318 | Stopped by whichever call fails first, the rotation loses at most the oldest file's lines, keeps at most the kept number of files, and keeps the newest written; where no call fails, a file of 10 MiB is rotated and a smaller one is not. |
| ProcessLog.Writer.WriteEvent | src/agentmarshal/process_log.py:144-155 | After every write, what the files hold from the highest suffix down is a contiguous suffix of everything written, ending in the new line; one write loses at most the oldest file. |
| LogReading.SortIsStable | src/agentmarshal/process_log.py:199-218 | The sort orders by time, keeps every event, and keeps events sharing a time in file-then-line order. |
| LogReading.ReadEvents | src/agentmarshal/process_log.py:199-218 | The read is that sort over every file's finished lines. |
| LogReading.ReadsInWrittenOrder | src/agentmarshal/process_log.py:199-218 | Whatever the rotations left and in whatever gaps, reading a writer's files gives the newest events written in the order written, when no two share a time and time did not run backwards. |
| LogSweep.TotalRemoved | src/agentmarshal/process_log.py:291-298 | A file gone takes exactly its own size from the total. |
| LogSweep.TakenByName | src/agentmarshal/process_log.py:257-289 | What the sweep may take, by name: a rotated file at any age, a writer's current file once its last write is not after the cutoff, and any payload but a staging file younger than that; a name of no such form never. |
| LogSweep.OldestMeans | src/agentmarshal/process_log.py:289-298 | Older candidates go first, the smaller first where two are equally old. |
| LogSweep.Directory.Survey | src/agentmarshal/process_log.py:257-289 | The walk's total and candidates are exactly those of the listed regular files. |
| LogSweep.Directory.Bound | src/agentmarshal/process_log.py:235-298 | For every answer to every removal: only candidates go, in order of age, size and path; each is tried only while what is truly left is over 50 MiB, and the sweep stops only when what is left fits or no candidate is left; a current or staging file written after the cutoff stays. |
| Isolation.Child.Namespaces | src/agentmarshal/isolation.py:395-430 | The combined call and the separate retries name each refused guarantee; one still standing has its namespace. |
| Isolation.Child.DropCapabilities | src/agentmarshal/isolation.py:203-257 | No failure is returned only if the ambient, bounding, effective, permitted and inheritable sets are all dropped and locked, for any number of capabilities. |
| Isolation.Child.Confine | src/agentmarshal/isolation.py:431-457 | After the maps, the bind and the drop, a guarantee still standing has everything it needs. |
| Isolation.Child.Setup | src/agentmarshal/isolation.py:355-457 | Under every outcome of every call, whatever is raised included, each requested guarantee is either named failed or enforced. |
| SetupReport.ParseSetupReport | src/agentmarshal/isolation.py:472-504 | The loop over lines, the first of a label standing, computes the verdicts. |
| SetupReport.BreaksAt | src/agentmarshal/isolation.py:489 | The report is split at exactly the ten line boundaries Python knows, a carriage return and line feed being one. |
| SetupReport.ReportHonest | src/agentmarshal/isolation.py:472-504 | Failed guarantees, and only they, are listed, where no error text is `ok` or holds a break other than a line feed. |
| SetupReport.AbsentVouchesNothing | src/agentmarshal/isolation.py:472-504 | A report that never arrived lists every requested guarantee. |
| SetupReport.RunSetup | src/agentmarshal/isolation.py:315-504 | End to end: a guarantee the parent does not list as failed really had its namespace made, its maps written, its bind remounted read-only and every capability dropped. |
| SetupReport.ListedExactly | src/agentmarshal/isolation.py:372-385 | Whatever the texts and whichever guarantees are asked for, each is listed if and only if what is read for it is not `ok`: its value's first line, unless the network's value smuggles in a line of the other's label. |
| SetupReport.OkTextForges | src/agentmarshal/isolation.py:355-504 | A whole setup in which every call is refused with the text `ok`: every requested guarantee is named failed, none is enforced, and none is listed. |
| Steps.CloseSearch | src/agentmarshal/steps.py:598-608 | The search finds a closing record after the start exactly when there is one. |
| Steps.FindOpenSteps | src/agentmarshal/steps.py:476-542 | The two passes over the events compute the listed steps. |
| Steps.ListedMeaning | src/agentmarshal/steps.py:476-542 | A step is listed exactly when it is not ended and its first valid start is closed by no record. |
| Steps.OpenExactly | src/agentmarshal/steps.py:598-626 | A step first started at one event and not ended is listed exactly when no record dated strictly after that start is `completed`, `abandoned`, a `review` where the activity is review, or a `session` of that activity where it is not. |
| Steps.NotListed | src/agentmarshal/steps.py:476-542 | A step ended, or never properly started, is not listed. |
| Steps.ShownExactly | src/agentmarshal/steps.py:530-541 | A listed step is shown with its first start's activity and deadline, and with exactly how long that deadline has passed, where it has. |
| Steps.SliceIs | src/agentmarshal/steps.py:456-473 | A task's slice holds exactly its start and end events. |
| Steps.ListedDetail | src/agentmarshal/steps.py:530-541 | A listed step carries its first start's activity and deadline, and is overdue exactly when the deadline has passed. |
| Steps.StepEventsByTask | src/agentmarshal/steps.py:456-473 | The one-pass grouping gives each task its own slice and no task an empty one. |
| Steps.SliceAgrees | src/agentmarshal/steps.py:456-542 | A task's slice leaves open exactly what the whole log does, in the same order. |
| Steps.NoStepTwice | src/agentmarshal/steps.py:476-542 | No step is listed twice. |
| Steps.ClosedStaysClosed | src/agentmarshal/steps.py:476-542 | A step once started and closed never becomes open again, whatever records are merged in, in any order, and however many events are appended. |
| Durations.ReadOfRender | src/agentmarshal/steps.py:266-297 | Any four amounts, carried or not, read back to their mixed-radix sum. |
| Durations.ParseOfFormat | src/agentmarshal/steps.py:545-566 | What an overdue span is shown as, the duration grammar reads back to the same number of seconds. |
| Durations.DurationShape | src/agentmarshal/steps.py:266-297 | The grammar takes only days, hours, minutes and seconds, each at most once and in that order, as digits and the unit's letter, with something there, and what it takes is their sum. |
| Durations.ShownAsNone | src/agentmarshal/steps.py:545-566 | A span is shown as `0s` exactly when it is nothing or not yet. |
| Durations.FormatNormalises | src/agentmarshal/steps.py:545-566 | Two durations are shown alike if and only if they are equally long: the shown text is a normal form. |
| Durations.FormatOfRender | src/agentmarshal/steps.py:545-566 | A duration already in mixed radix, not zero, is shown exactly as it is spelled. |

## Left out

- DiffScan.ScanDiff: the built-in secret regexes and the path mask are parameters, universally quantified; hunk counts are ASCII digits of any length, where Python also takes other Unicode digits and limits very long ones.
- LossNames.LostExactly: for patches of one `diff --git` line each, as git prints them; `LostAlwaysAnnounced` and `NothingAnnounced` need no such condition.
- LeakScan.MarkerAlwaysReported: printed diffs are text patches; binary patch bodies, which the command does not ask git for, and combined diffs of merges are not printed.
- OutboxRepo.Repo.Check: beyond its being UTF-8, a draft's field checks and every leak check are one abstract verdict on its content, the listing order is any (the listing itself is one moment's, which later edits may outdate), and unmerged index stages, file modes and commit hooks are not modelled; blob ids are injective.
- OutboxRepo.Repo.Send: index writers other than the command are not modelled; the working tree is edited freely.
- Gate.RunGate: the review, acceptance, scope and attestation checks are one abstract verdict, the content checks of an added record another; sidecar placement and WARN lines are not modelled.
- Gate.EvidenceGrows: the merge is path-wise and three-way, its outcome unconstrained where both sides changed a path differently; a merge in which git follows a rename, and so could carry a candidate's edit into a path the base renamed into `artifacts/`, is outside it.
- OffRewrite.RewriteCommutes: the TOML subset has bare and quoted keys, bracketed headers, one-line basic and literal strings, natural numbers and booleans; dotted keys, arrays, inline tables, arrays of tables, multi-line strings, floats and dates are not in it, so the refusals the code makes for them are not exercised.
- PersonalRewrite.DisableCommutes: what the edits parse to is stated on the subset, where every pair is one line; the personal commands' own verification of the new text is not modelled.
- Switches.ParseSwitches: which refusal is reported first, and its wording, are not modelled; the forgeable characters are any predicate.
- TomlValues.EqualitiesAgree: a scalar is its exact type's name and its `repr`, which is all either equality reads of it.
- TrustFile.ReadGrants: reading and the atomic replacement of the file itself are not modelled.
- DirectoryHash.StreamInjective: about the framed stream; sha256 itself, and the walk that makes the file map, are not modelled.
- ProcessLog.Writer.WriteEvent: JSON encoding is any line without a line feed; a sweep by another process between two rotations, and an append that fails half way, are not modelled.
- LogReading.ReadsInWrittenOrder: one writer's files; parsing a line and reading its time are any functions.
- LogSweep.Directory.Bound: modification times are integers; sequence suffixes are ASCII digits.
- Isolation.Child.Setup: mount flags and the probe that decides whether to try are not modelled; the report arrives whole or not at all.
- Steps.ClosedStaysClosed: for event logs that grow at the end; an event whose time sorts it before older ones is not an append.
- Durations.ParseOfFormat: ISO-8601 deadlines, surrounding white space, and Unicode or very long digit strings are not modelled.
- The command line, `doctor`, display escaping and message wording.
- The stage runner, prune, backfill, placement, project initialisation, and the review, acceptance, check and extension record commands: guards around I/O that would add only easy members.
