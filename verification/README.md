# Verification of the benchmark, backup and agent-builder cores

This project models five parts of the repository in Dafny and proves what they are for.

- The ordered JSON codec and the revision-bound store record of `bench/axis_damaged_store.go`:
  a token-level reader and a compact printer over trees that keep member order, duplicate keys and
  number literals; the record whose `state` is shared with `root`, edited in place and saved under
  a content hash.
- The block classifier, the metrics accumulator, the corpus check, the capability probe and the
  comparison of two runs, from `bench/classify.go`, `bench/metrics.go`, `bench/runner.go` and
  `bench/report.go`.
- Backup snapshot, archive, restore, checksum and retention, from `internal/backup` and
  `internal/cli/restore.go`, over a file system that is a map from paths to files and directories.
- Managed blocks in a prompt file and the names made from titles, from `internal/agentbuilder`.
- The recording shim's script and argument loop, from `bench/record.go` and `bench/main.go`.

What the source updates in place is a class with methods (`StoreRecord.LoadedRecord` and its shared
cells, `BackupService.Disk`, `Pruning.Inventory`, `Metrics.Accumulator`, `Probe.CapabilityProbe`,
`Inject.PromptFile`), its loops are methods with invariants, and each method is proved equal to a
function; the lemmas are about those functions.

## Files

| file | content |
|---|---|
| `Text`, `Paths`, `FileSystem` | Go's string searches, lexical paths, the file-system map |
| `JsonLex`, `Json`, `JsonRoundTrip`, `JsonIndent` | reader, printer, the RFC 8259 grammar, `json.Indent` |
| `Store`, `StoreRecord` | the record as a tree and as shared memory |
| `Archive`, `Checksum`, `Backup`, `Snapshot`, `Restoration`, `BackupService` | snapshot and restore |
| `Retention`, `Pruning` | newest backup, pruning, runs of the inventory |
| `Runnable`, `Envelope`, `Classify`, `Metrics`, `Compare`, `Corpus`, `Runner`, `Probe` | the benchmark |
| `Slug`, `Inject`, `Shim` | names, managed blocks, the shim |

## Where the code and its documentation or intent part

The model follows the code; the lemmas named here say exactly what holds of it.

- `WriteFileAtomic` returns without writing when the content is already there, so a restore does
  not give back a mode that changed while the content did not, and it writes mode 0 as 0644
  (`Restoration.ReturnedExactly` says exactly when a file comes back whole,
  `Restoration.ChangedModeStays` is the failing family).
- `WriteFileAtomic` refuses to replace a file of more than 16 MiB. A restore therefore stops on the way
  when a listed file has grown past that since the snapshot, with what is listed before it restored and
  the rest not (`Restoration.GrownFileStops`), or when a larger file is listed twice;
  `Restoration.RestoreUndoes` says that nothing else stops a restore of files and absent paths, unless a
  directory has taken the place of one or a file that of a parent.
- A directory among the backup sources is recorded like an absent path. After a restore that succeeds
  it is gone, unless a file below it that is listed after its last entry has made it again
  (`Restoration.BackIff`, where `Rebuilt` says so; `Restoration.RebuiltMeans` gives it as one
  quantifier). Its entry goes through exactly when no file left over lies above it and nothing below it
  (`Restoration.EntryIff`), so a backup that lists a directory after a file below it never restores
  (`Restoration.DirectoryAfterFileFails`). `Restoration.RestoreIff` says for sources of every kind when a
  restore succeeds, and `Restoration.RestoreStops` what it leaves when it does not.
- `json.Indent` refuses trees nested more than 10000 deep while the token reader has no limit, so a
  record that loads may fail to save (`JsonIndent.IndentedDecodes`, `Store.SaveThenLoad`; one such
  record is `Store.LoadsAndCannotBeSaved`).
- The checksum lists one `path:hash` line per file, sorted by path. A path splits where it holds a
  colon, 64 hex digits and a line break, and what follows does not sort before what precedes: it can then
  be read as two lines, and the text does not determine the sorted list (`Checksum.SplitCollides`); where
  no path splits, it does (`Checksum.PreimageInjective`), and for one file this is an equivalence
  (`Checksum.DeterminedIff`).
- A manifest whose root directory is another backup's directory makes `Prune` remove that backup,
  pinned or not (`Pruning.ForeignRootDirLosesPinned`); `Retention.SurvivesIff` says exactly what
  survives.
- `recovery_round_trips` is documented as counting from the blocking command on; the code counts
  from the command after it, one less for each episode that ends (`Metrics.CountsFromTheNextCommand`;
  `Metrics.BlockThenClean` is a run).
- The corpus check means to refuse a declaration that can never reach the classifier; it accepts one
  on a step with both arguments and a composite flow, where it is lost (`Runner.ArrivesIff` says when
  one arrives, `Runner.LostInARun` is a run in which one does not).
- A journey only the earlier run has is in neither list of a comparison (`Compare.ListedIff`). The
  label of a line survives swapping the runs exactly when a comparable journey's number is a proxy, or
  the comparable journeys of the two runs agree on whether all of them have the number
  (`Compare.SwapKeepsLabel`; `Compare.LabelChanges` is a pair of runs).
- Probe cache keys of space-free tokens can collide: no verb with one empty verb, and a verb that
  begins with the probe mark with a probe (`Probe.KeysCollide`). The cache is transparent to a
  sequence of questions exactly when no two different queries in it share a key
  (`Probe.TransparentIff`).
- A body that holds its own end marker makes a second injection leave a remainder behind
  (`Inject.InjectTwice` is an equivalence, `Inject.QuotingIsNotIdempotent` an agent with a title, the
  name made from it, and the marker in its trigger).

## Model

| member | source | states |
|---|---|---|
| Json.DecodeIsGrammar | bench/axis_damaged_store.go:120-176 | the reader succeeds with a tree exactly when the payload is a JSON text of RFC 8259 (sections 2 to 7) that denotes that tree, member order, duplicate keys and literals included |
| Json.ReadsIff | bench/axis_damaged_store.go:134-176 | any text of the grammar, with any whitespace between its tokens, is read as its value and what follows is left unread exactly when what follows does not go on with a number |
| JsonRoundTrip.EncodeThenParse | bench/axis_damaged_store.go:134-222 | decoding encode(v) followed by anything that does not go on with a number v yields v and leaves the rest unread |
| JsonRoundTrip.EncodeThenDecode | bench/axis_damaged_store.go:120-222 | decode after encode is the identity on every tree the reader can return |
| JsonRoundTrip.EncodeInjective | bench/axis_damaged_store.go:181-222 | the compact text determines the tree, so equal bytes under the hash mean equal states |
| JsonRoundTrip.DecodedWellFormed | bench/axis_damaged_store.go:120-176 | every tree the reader returns is in the domain of the round trip |
| JsonIndent.IndentedDecodes | bench/axis_damaged_store.go:364-376 | indenting the compact text succeeds exactly up to 10000 levels and then reads back as the same tree |
| Store.EditIsLocal | bench/axis_damaged_store.go:246-258 | an edit changes the first member with the key and no other subtree, later duplicates included |
| Store.SaveThenLoad | bench/axis_damaged_store.go:280-376 | what save writes passes the revision check of load and is the edited tree; it fails exactly on trees too deep to indent |
| Store.LoadsAndCannotBeSaved | bench/axis_damaged_store.go:280-376 | a file nested one level too deep loads and cannot be saved again |
| Store.RevisionBindsState | bench/axis_damaged_store.go:297-319 | two files that load under one revision hold one state, or the hash collides |
| Store.StepKeeps | bench/axis_damaged_store.go:341-376 | one edit or save keeps a loadable file loadable and, when it can be written, in step with memory |
| Store.FileAlwaysLoads | bench/axis_damaged_store.go:280-376 | over any run of edits and saves the file on disk loads at every point |
| StoreRecord.OrderedMember | bench/axis_damaged_store.go:224-235 | the first member with the key, as a reference into the shared cells |
| StoreRecord.SetOrderedMember | bench/axis_damaged_store.go:246-258 | the write goes through the shared slice and touches one cell |
| StoreRecord.EncodeOrdered | bench/axis_damaged_store.go:181-222 | the buffer loop over shared cells writes exactly the text of the tree they hold |
| StoreRecord.LoadedRecord.DeriveRevision | bench/axis_damaged_store.go:312-319 | the hash of the prefix and the compact text of the state as it is now |
| StoreRecord.LoadedRecord.SetRecoveryString | bench/axis_damaged_store.go:321-350 | an edit through `state` is the same edit of `root`, which keeps sharing it |
| StoreRecord.LoadedRecord.Save | bench/axis_damaged_store.go:356-376 | stamps the revision into `root` and writes the file, or changes no file |
| StoreRecord.LoadStoreRecord | bench/axis_damaged_store.go:280-310 | a record comes back exactly when the file passes the checks, and then shares its state with its root |
| Paths.PrefixMeansAbove | internal/backup/restore.go:25-45 | the separator-terminated prefix test on clean paths is the ancestor relation |
| Archive.ArchiveNameInjective | internal/backup/snapshot.go:98-137 | two clean absolute sources with one archive name are one source |
| Archive.DestinationBelow | internal/backup/compression.go:122-145 | every name extraction accepts lands strictly below the destination directory |
| Archive.SnapshotLands | internal/backup/compression.go:122-145 | every name a snapshot writes is accepted and lands where restore looks for it |
| Archive.ExtractStaysBelow | internal/backup/compression.go:91-165 | extraction changes nothing outside the destination directory but missing parents, failed or not |
| Checksum.SortedUnique | internal/backup/retention.go:60-66 | a consistent set of entries has one sorted list, so input order cannot matter |
| Checksum.PreimageInjective | internal/backup/retention.go:64-77 | where no path splits, the hashed text determines the sorted list of pairs |
| Checksum.PreimageIsMultiset | internal/backup/retention.go:32-78 | then sorted preimages are equal exactly when the path and content-hash pairs are the same with the same multiplicities |
| Checksum.SplitCollides | internal/backup/retention.go:64-77 | every path that splits, with any digest, has another set of valid pairs with the same hashed text |
| Checksum.DeterminedIff | internal/backup/retention.go:64-77 | the text of one file determines the sorted list exactly when its path does not split |
| Checksum.ChecksumIsFileSet | internal/backup/retention.go:32-78 | where no path splits, checksums are equal exactly when the backed-up pairs are, or the hash collides |
| Checksum.ComputeChecksum | internal/backup/retention.go:32-78 | the collect, sort and write loops compute the modelled checksum |
| Snapshot.CreateRecords | internal/backup/snapshot.go:30-137 | a successful snapshot has one entry per source, in order, saying file or absent with its mode, and an archive of exactly the files' content |
| Snapshot.SnapshotExtracts | internal/backup/compression.go:91-165 | extracting that archive lands every file's content at the place restore reads |
| Restoration.EntryIff | internal/backup/restore.go:59-159 | in a restore that has come this far, the entry of a file, of an absent path or of a directory goes through exactly when what there was and what has been done leave room for it, and one that fails changes nothing |
| Restoration.RestoreIff | internal/backup/restore.go:49-159 | for sources of any kind and any later disk with the archive intact, restore succeeds exactly when every entry has room after the ones before it |
| Restoration.RestoreStops | internal/backup/restore.go:49-159 | it stops at the first entry that has none, with the paths listed before it as their entries say and nothing else changed but parents of restored files |
| Restoration.RestoreUndoes | internal/backup/restore.go:49-159 | for files and absent paths in whose place there is no directory and no file above, restore succeeds exactly when no listed file has grown past 16 MiB and no larger one is listed twice; then every listed path is back to content or absence and nothing else has changed but missing parents |
| Restoration.GrownFileStops | internal/components/filemerge/writer.go:47-56 | the first listed file that has grown past 16 MiB stops the restore with exactly the paths before it restored |
| Restoration.ReturnedExactly | internal/components/filemerge/writer.go:42-111 | a restored file equals the recorded one exactly when its mode returns, with the condition on the two file systems |
| Restoration.ChangedModeStays | internal/components/filemerge/writer.go:42-111 | a file whose mode alone changed keeps the changed mode through a successful restore |
| Restoration.RestoreSettles | internal/backup/restore.go:49-159 | for sources of any kind and any later disk, a restore that succeeds leaves each listed path as its entry says and changes nothing else but parents of restored files |
| Restoration.BackIff | internal/backup/snapshot.go:98-137 | after it a listed path is as it was, mode aside, exactly when it was no directory or a file below it, listed after its last entry, has made it again |
| Restoration.DirectoryAfterFileFails | internal/backup/restore.go:59-159 | a directory listed after a file below it makes every restore of the backup fail |
| BackupService.CreateSnapshot | internal/backup/snapshot.go:30-94 | the imperative snapshot leaves the disk and returns the manifest of the specification |
| BackupService.ExtractArchive | internal/backup/compression.go:91-165 | the extraction loop leaves the disk of the specification |
| BackupService.RestoreBackup | internal/backup/restore.go:49-159 | the restore loops leave the disk of the specification |
| Retention.Latest | internal/backup/retention.go:104-110 | the running maximum is the first newest manifest |
| Retention.IsDuplicate | internal/backup/retention.go:90-117 | true exactly when a checksum is given and the first newest backup carries it |
| Retention.SortNewestFirst | internal/cli/restore.go:213-220 | the exchange sort permutes, sorts newest first, and its head is the first newest of its input |
| Retention.ResolveRestoreTarget | internal/cli/restore.go:153-168 | `latest` is the head of the list, any other target the first backup with that id |
| Retention.LatestAgrees | internal/cli/restore.go:153-220 | restore's latest and the duplicate check look at the same backup |
| Retention.SurvivesIff | internal/backup/manifest.go:183-195 | a backup survives a list of deletions exactly when no deletable manifest names its directory or one above it |
| Pruning.PruneSafe | internal/backup/retention.go:131-170 | for own directories and any tie order, exactly the deletable excess goes, no pinned backup does, and nothing removed is newer than an unpinned backup meant to stay |
| Pruning.PruneSettles | internal/backup/retention.go:131-170 | when deletions succeed at most the count stays unpinned and a second prune selects nothing |
| Pruning.ForeignRootDirLosesPinned | internal/backup/manifest.go:183-195 | without the own-directory condition a pinned backup is removed |
| Pruning.PinnedNeverLost | internal/backup/retention.go:131-170 | over any run of new backups, pin toggles with fresh or stale manifests, and prunes each with its own failing deletions, a pinned backup whose manifest no toggle writes is never removed |
| Pruning.Inventory.PruneBackups | internal/backup/retention.go:131-170 | list, sort and delete as the program does, with the surviving inventory and the returned ids |
| Runnable.ScanIsArguments | bench/classify.go:265-285 | cutting each field at its quote or bracket is the same as cutting the tail first and splitting after |
| Runnable.VerdictMeans | bench/classify.go:265-285 | the scan, token by token with its counter and early exits, answers the question about the list of arguments |
| Runnable.CommandTailIsRunnable | bench/classify.go:265-285 | true exactly when the fields before the first closing quote or bracket are non-empty and none holds a placeholder |
| Runnable.MatchesCover | bench/classify.go:209-261 | no place where a command could begin is passed over by the non-overlapping matches |
| Runnable.HasRunnableCommand | bench/classify.go:243-261 | true exactly when some line has a match whose tail is a usable argument list |
| Runnable.RunnableConcat | bench/classify.go:243-261 | a text on two lines names a command exactly when one of the two lines' texts does |
| Envelope.WalkContinuation | bench/classify.go:299-320 | the recursive search gives one answer whatever order a map's entries come in |
| Envelope.SearchIsPaths | bench/classify.go:299-320 | it succeeds exactly when some path reaches a meaningful string under a continuation key, or under `operation` whose nearest enclosing key through arrays is `execute` |
| Envelope.LastMemberStays | bench/classify.go:291-297 | of members with one key the last is what the search sees |
| Classify.Assign | bench/classify.go:445-465 | the ordered rules, over the searches with their loops, give the class of the specification |
| Classify.InBandIff | bench/classify.go:445-465 | a block is in_band exactly when stdout, stderr or the envelope names something to run, whatever is declared |
| Classify.ByDesignIsEarned | bench/classify.go:107-135 | by_design means a shape of the closed set, a quote with words in it that was printed, and nothing runnable in the output |
| Metrics.Accumulator.Observe | bench/metrics.go:205-280 | the in-place update of every counter equals the pure step, and the record is that of the invocation |
| Metrics.Accumulator.ObserveAll | bench/metrics.go:205-280 | a whole run leaves the state of the run function |
| Metrics.DeclarationsOnlyReclassify | bench/metrics.go:40-84 | withdrawing every declaration leaves totals and every other counter alone, and out_of_band becomes out_of_band + by_design + dead_end |
| Metrics.BlocksAreCounted | bench/metrics.go:56-73 | each bucket is the number of invocations of its class, the total the number of blocks |
| Metrics.RecoveryClosedForm | bench/metrics.go:256-280 | the online counter is the number of commands after an unresolved block up to the one that resolves it, and leaves room for one command per episode |
| Metrics.CountsFromTheNextCommand | bench/metrics.go:272-280 | the documented count is larger by one for each resolved episode, and equal exactly when nothing goes through after a block |
| Metrics.BlockThenClean | bench/metrics.go:272-280 | a block and a clean command: one by the code, two as documented |
| Compare.Aggregate | bench/metrics.go:386-451 | the one-pass totals are the row sums over counted journeys, with missing and proxy labels, and the three counts are the numbers of journeys of each fate |
| Compare.BuildComparison | bench/report.go:403-446 | the loops build the report of the specification |
| Compare.LinesMean | bench/report.go:403-446 | a delta is shown exactly when no comparable journey lacks the number, and is the sum over journeys completed in both runs of after minus before; a proxy in any of them labels the line |
| Compare.SwapNegates | bench/report.go:403-446 | swapping the runs swaps the columns, negates every delta and keeps the proxy label |
| Compare.SwapKeepsLabel | bench/report.go:426-446 | a label survives the swap exactly when a comparable journey is a proxy or the comparable journeys of the two runs agree on whether all have the number |
| Compare.LabelChanges | bench/report.go:426-446 | two runs whose label the swap changes |
| Compare.SwapKeepsComparable | bench/report.go:413-422 | swapping the runs keeps the set of comparable journeys |
| Corpus.ValidateCorpus | bench/runner.go:379-416 | the loops list every problem of every step in order |
| Corpus.Listed | bench/runner.go:379-416 | what is listed is exactly each problem of each step, under its journey and its name |
| Corpus.NothingListed | bench/runner.go:379-416 | nothing is listed exactly when every step is acceptable |
| Runner.RunJourney | bench/runner.go:468-543 | the loop over the steps, with fixture, gate, composite flows, stamped invocations, breaks and AbortOnBlock, leaves the result and the accumulator of the specification |
| Runner.RunCorpus | bench/main.go:119-169 | the whole corpus is checked before anything runs, whatever is asked for; the journeys asked for are then driven, with the same results under both orders of the declared rules |
| Runner.TraceOrigin | bench/runner.go:468-536 | every observation was issued by a step the loop came to, and is its own exactly when the step is not composite |
| Runner.SwapChangesNothing | bench/classify.go:435-464 | on an accepted corpus, for any world, result, counters and records of a journey are the same with rules five and six the other way round |
| Runner.RecordedClass | bench/classify.go:435-464 | every recorded class is the one the swapped classifier gives the same observation |
| Runner.CompositeNeverExcused | bench/runner.go:427-436 | no record of a composite step is by_design or dead_end or carries a declaration, whatever the corpus and the world |
| Runner.ArrivesIff | bench/runner.go:394-416 | on an accepted corpus a declaration reaches a record exactly when the loop comes to its step, fixture, gate and arguments let it through, and the step is not composite |
| Runner.LostInARun | bench/runner.go:394-416 | an accepted corpus, a world and a run whose record says out_of_band where the step declares a dead end |
| Probe.CapabilityProbe.Supports | bench/runner.go:278-323 | the answer equals the uncached one when no other query went by the same key; a key is asked at most once |
| Probe.CapabilityProbe.SupportsAll | bench/runner.go:278-323 | the answers to any sequence of questions to a fresh probe are those of the cache as a value, and no key is asked twice |
| Probe.TransparentIff | bench/runner.go:278-323 | the cached answers to a sequence are the uncached ones, for every binary, exactly when no two different queries of it share a key |
| Probe.SpelledTransparent | bench/runner.go:278-323 | sequences with space-free tokens, no lone empty token and no marked verb have no such pair |
| Probe.SentinelIsUnique | bench/runner.go:286-297 | real help is never taken for the sentinel, because it holds a line end |
| Probe.SpelledKeysDiffer | bench/runner.go:285-314 | spelled queries with one key are one query |
| Probe.KeysCollide | bench/runner.go:285-314 | two collisions among space-free tokens |
| Slug.TitleToName | internal/agentbuilder/parser.go:118-136 | the builder loop computes the slug function |
| Slug.SlugJoinsWords | internal/agentbuilder/parser.go:118-136 | a name is the runs of letters and digits of the lowered title joined by single hyphens |
| Slug.SlugShape | internal/agentbuilder/parser.go:118-136 | kebab shape, letters and digits kept in order, idempotent |
| Inject.NameExtracted | internal/agentbuilder/sdd.go:120-127 | the name is read back from its marker |
| Inject.ReplacesLocally | internal/agentbuilder/sdd.go:96-116 | with a marker, one stretch from the first marker through the first end marker after it, or else to the line's end, is replaced, and the text before and after is kept byte for byte |
| Inject.AppendsLocally | internal/agentbuilder/sdd.go:35-43 | without one the whole content is kept and the block added with its line ends |
| Inject.InjectTwice | internal/agentbuilder/sdd.go:20-50 | injecting twice is injecting once exactly when the body does not hold its own end marker |
| Inject.QuotingIsNotIdempotent | internal/agentbuilder/sdd.go:53-92 | an agent named after its title whose trigger is its own end marker: its block, injected twice into any content, is not what one injection leaves |
| Inject.InjectIsUpsert | internal/agentbuilder/sdd.go:20-116 | on a file of managed blocks, injection replaces the agent's own block or appends it, and every other block and text is unchanged |
| Inject.OthersStay | internal/agentbuilder/sdd.go:96-116 | the other agents' blocks keep their content and place |
| Inject.UpsertKeepsForm | internal/agentbuilder/sdd.go:20-50 | a file of managed blocks stays one, so any sequence of injections acts on the document |
| Inject.PromptFile.InjectReference | internal/agentbuilder/sdd.go:20-50 | no-op without an integrating agent, error without a file, otherwise the injected content |
| Inject.PromptFile.InjectTwiceInto | internal/agentbuilder/sdd.go:20-50 | a second installation leaves the file as the first did, under the condition of InjectTwice |
| Inject.SlugsArePlain | internal/agentbuilder/parser.go:50-63 | names of parsed agents meet what the injection properties ask of a name |
| Shim.EscapedReads | bench/record.go:123-125 | inside the quotes the escaped text is read back as the text |
| Shim.QuoteIsOneWord | bench/record.go:123-125 | the POSIX reading of a quoted text is the one word it quotes, for every text |
| Shim.QuoteInjective | bench/record.go:123-125 | two texts with one quoted form are one text |
| Shim.ScriptReads | bench/record.go:94-99 | the shell hands exec the program, the shim's arguments and then the user's, word for word |
| Shim.ScanRecovers | bench/main.go:257-282 | the argument loop recovers both paths and forwards the user's arguments, whatever they are |
| Shim.CommandShim | bench/main.go:257-282 | the loop computes the scan, and refuses exactly an empty path |
| Shim.ShimIsTransparent | bench/main.go:257-282 | from script text to forwarded arguments nothing is lost or changed |

## Left out

- Bytes: text is a sequence of Unicode scalar values, so invalid UTF-8 and the replacement characters Go puts for it in keys and strings are not modelled; byte counts are those of the UTF-8 encoding.
- SHA-256 is an arbitrary function to strings; results about equal hashes say "or the hash collides".
- gzip and the tar byte format: an archive is a list of named entries, and writing then reading it is assumed to return the list (`Archive.Faithful`). What a failed archive leaves on disk is not modelled, nor the list of entries extraction returns.
- The Go regexp engine: the patterns used are written as predicates, with RE2's leftmost, non-overlapping matching for the command pattern and its simple case folding.
- Lower-casing and folding of letters beyond ASCII that do not reach ASCII: only comparisons with ASCII words depend on them.
- Number literals whose exponent strconv caps before it converts (five digits and more, with a significand that long).
- Symlinks, volume names, umask, ownership and the temporary-directory and rename errors of the operating system; the file system is a map and every operation on it is atomic. WriteFileAtomic's temporary file is not modelled.
- Relative source paths: sources are absolute, as the callers pass them; archive entries and manifest paths may be arbitrary text.
- Restoration.RestoreIff: asks that the snapshot directory lies apart from the sources and that the temporary directory is new and not above them; an archive that has been changed is outside it, and so is a disk that is changed by others while the restore runs.
- Runner.RunCorpus: the check of the axes, the parsing of the selectors, the record written when none of them matches, and the provenance and sorting of the results are not modelled.
- Shim.QuoteIsOneWord: the reader knows quoting, words, line ends and the quoted positional parameters; any other shell construct makes it give up, and none occurs in the script.
- Shim.ShimIsTransparent: running the real program, its streams and its exit code are not modelled.
- Probe.CapabilityProbe.SupportsAll: the binary is a fixed function from arguments to output; the sandbox a probe runs in, and the git calls it leaves in the trace, are not modelled.
- Runner.RunJourney: what a journey meets is a parameter, one encounter for each step: whether its fixture and its check succeed, what the capability gate answers, and what the product prints. Making and resolving the temporary root is not modelled.
- Metrics.Accumulator.Observe: the human-readable message of a record (blockMessage, firstLine, splitLines) is not modelled.
- Compare.BuildComparison: the per-journey cells, the status table, the alphabetical order of the excluded list, headers and notes are not modelled.
- Inject.InjectTwice: names with an angle bracket or a line break are outside it; names made from titles never have one.
- Inject.InjectIsUpsert: speaks of files in which no marker text stands outside the blocks' own markers; for other files there are Inject.ReplacesLocally, Inject.AppendsLocally and Inject.InjectTwice.
- RenameBackup, the prompts and listings of the restore command, the session log of the shim, analyze mode, report rendering, the journey corpora and fixtures, the axis registry.
- Processes, git, HTTP, terminals and clocks; the time of a snapshot is a parameter.
- The review, gate and recovery engine behind `internal/cli/review*.go`, adapters, catalog, assets and the terminal interface.
