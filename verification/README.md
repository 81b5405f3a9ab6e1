# Gemba core: a verified model

This project models the parts of gemba-core that hold real state or real parsing, and proves what
they keep. `dafny verify dfyconfig.toml` checks all of it.

| files | models |
|---|---|
| `EmitterProtocol`, `EmitterProofs`, `Emitter`, `EmitterLaws` | the event fan-out `WorkPlaneEmitter`: first as a machine of atomic steps under any interleaving, then as an object whose calls are runs of that machine |
| `VerifierProtocol`, `Verifier` | `HashVerifier`, a cache keyed by a file's mtime, under concurrent calls and file replacement |
| `Backup`, `Restore`, `RestoreProofs`, `RoundTrip`, `RestoreLaws` | `gemba admin backup` and `restore` over a map from paths to nodes |
| `BashTokens`, `Bash`, `BashLaws` | the bridge's shell tokenizer and path scanner |
| `Usage` | the billing aggregator |
| `Base64`, `Decimal`, `Phc`, `Cookie` | PHC argon2id strings and signed cookies, with the printers and parsers they rest on |
| `Derive`, `Registry` | repository validation and auto-derivation, and the registry's two indexes |
| `Watch`, `WatchProtocol` | the issues.jsonl watcher: what a run of readings reports, and the debounce timer as a machine |
| `Errors` | the tagged boundary error and its wire form |
| `Egress` | applying an egress template over a connection that may fail |
| `WorkItem` | the multi-repository validators |
| `Outcomes`, `Text`, `Paths`, `PathLaws` | Go's result pairs, `strings` and `path/filepath`, as far as the above need them |

Two shapes recur. A concurrent component is a `State`, an `Action` per atomic step, `Enabled` and
`Apply`, and `Exec` over sequences of actions; what holds in every reachable state is shown by
induction over runs. A sequential component is a class whose methods are proved equal to a
function on its contents, and the properties are lemmas about that function.

A third group of lemmas, in the `Laws` files and under "In plain terms", says what each operation
does without the functions it is modelled with: names, constants, formats and errors are spelled
out there, so that a definition that drifts from the source breaks one of them.

What is foreign is a parameter: argon2, HMAC, SHA-256, JSON decoding of a row, `unicode.ToLower`,
the surface's verdicts, git's answers, the clock.

## Where the code does less than its documentation says

- `internal/cli/admin_backup.go:17-19` promises that every byte under the data directory survives. Only
  dolt/, workspaces/, vault.db and the audit log are saved, and of those a saved name containing
  `..` (such as `dolt/a..b`) is archived without complaint and makes every restore fail
  (`DottedNameCannotBeRestored`). So does a name that is not valid UTF-8, which the manifest's JSON
  text spells differently (`IllegibleNameCannotBeRestored`). `RestoreUndoesBackup` has the exact
  condition; names that are valid UTF-8 and free of `..` always meet it (`CarriedNamesAreLegible`).
- A restore whose audit destination is also another entry's destination succeeds although the
  manifest no longer describes the disk (`OverwritingArchive`); that is the only way
  (`CertifiesIffAuditApart`). Destinations are compared as the system resolves them from the flags
  and the working directory, so `--data-dir . --audit-log dolt/a` is such a case
  (`ApartIffApartAsWritten`).
- `internal/auth/verifier.go:39-42` promises that a rotation takes effect for later calls. A file
  replaced by one with the same mtime is not noticed (`SameMtimeHidesTheRotation`); an undisturbed
  call is right exactly when the cache does not contradict the file (`LoneCallIsExactIffCoherent`).
  And as long as no mtime is reused, a call that read the old file and has not stored it yet can
  undo the rotation; exactly then (`RotationTakesEffectIffNothingStale`).
- `internal/billing/usage.go:71` joins tenant and VM id with a bar. A tenant is isolated from
  another exactly when neither id continues the other past a bar (`IsolatedIffSeparated`).
- `core/repository.go:296` and `core/repository.go:453-455` speak of letters only; the code takes
  digits too. `core/repository.go:390-391` says that the derived repository always validates; it
  does exactly when the path is absolute and the branch is not blank (`DerivedIsValidIff`).
  `filepath.Abs` sees to the path and `DefaultGitRunner` trims its answer, so only another
  `GitRunner`, one that answers white space, can make it fail.
- `cmd/gemba-bd-hook/watch.go:37-38` calls a vanished file a transient. A plain deletion is not a
  relevant event, so the daemon keeps the rows of a file that is gone (`DeletionGoesUnnoticed`). When
  a reading does meet no file, it empties the snapshot, and every row is reported again when the
  file is back (`ReappearingFileIsReportedWhole`). A reading that fails is not tried again until the
  next event (`FailedLastReadStaysBehind`).
- `core/errors.go:389-420`: the typed and the wire path disagree exactly on an issue without a
  reason that did not come from the constructor, on a map whose path, reason or code is a string of
  a named type, and on any other Go type that marshals to an object with one of them, such as a
  pointer to an issue (`PathsAgreeIff`). A match of `ErrBeadAlreadyClaimed` does not cross the wire
  (`AlreadyClaimedIsLost`).
- `core/errors.go:91` speaks of nine error kinds; there are ten.
- `core/types.go:362-364` has the validator accept an item with no repository information; it also
  accepts a primary repository with an empty list.

## Where it is right because of its data

- `internal/cli/egress.go:228-231` calls re-applying a template a no-op. The loop itself would let an
  interrupted apply leave other rules than an uninterrupted one, exactly for a template with two
  hosts whose ids coincide (`TemplateConvergesIff`). No built-in template has such hosts, so with
  those an interruption never leaves a trace (`BuiltinsConverge`); the condition is what a new
  template must meet.

## Model

| member | source | states |
|---|---|---|
| `EmitterProofs.InvStep` | core/wpemitter.go:41-122 | every atomic step of Subscribe, Publish, Close, remove, a consumer or a cancellation keeps the whole invariant |
| `EmitterProofs.NeverPanics` | core/wpemitter.go:55-122 | in every interleaving no send hits a closed channel, no channel is closed twice (the recover never fires), and members are open |
| `EmitterProofs.FormerMembersAreClosing` | core/wpemitter.go:81-117 | whoever left the set is closed, or is on exactly one pending closer's list |
| `EmitterProofs.DeliversWithoutGaps` | core/wpemitter.go:67-86 | in every reachable state received then buffered is exactly the matching events from subscription to the departure, or as far as the publishing has come, in order, and at most 64 are buffered |
| `EmitterProofs.DropsExactlyTheLaggards` | core/wpemitter.go:71-80 | a publish drops a subscriber exactly when the event matches and 64 matching events are undelivered |
| `EmitterProofs.CancelledMeansParentDone` | core/wpemitter.go:48-51 | a departure through remove happens only after the subscriber's own context ended |
| `EmitterProofs.InternalRunsEnd` | core/wpemitter.go:67-117 | the emitter's own steps cannot go on forever, however scheduled |
| `EmitterProofs.UnsettledCanMove` | core/wpemitter.go:67-117 | while a subscriber is not settled, some goroutine of the emitter can step: no deadlock |
| `EmitterProofs.AtRestEverythingIsSettled` | core/wpemitter.go:38-53 | at rest a channel is closed exactly when its subscriber left, and everyone whose context ended has left |
| `Emitter.MatchFilter` | core/wpemitter.go:124-144 | true exactly when the kind is listed or none is, the work item is the one asked for or none is, and the event is not older than asked |
| `Emitter.WorkPlaneEmitter.constructor` | core/wpemitter.go:34-36 | an empty emitter satisfies the invariant |
| `Emitter.WorkPlaneEmitter.Subscribe` | core/wpemitter.go:41-53 | adds one open, empty member with the caller's own filter and context, served from the next event on |
| `Emitter.WorkPlaneEmitter.TrySend` | core/wpemitter.go:75-79 | the non-blocking send appends exactly when fewer than 64 are buffered |
| `Emitter.WorkPlaneEmitter.SubscriberCount` | core/wpemitter.go:100-105 | of all the subscribers there ever were, the number that has not departed |
| `Emitter.WorkPlaneEmitter.Offer` | core/wpemitter.go:71-80 | one turn of the sending loop is one protocol step |
| `Emitter.WorkPlaneEmitter.Drop` | core/wpemitter.go:81-85 | one turn of the dropping loop: leave, close, cancel |
| `Emitter.WorkPlaneEmitter.Publish` | core/wpemitter.go:67-86 | the new state is one map over the table, the same in every iteration order, and keeps the invariant |
| `Emitter.WorkPlaneEmitter.CloseNext` | core/wpemitter.go:94-97 | one turn of the closing loop: close, cancel |
| `Emitter.WorkPlaneEmitter.Close` | core/wpemitter.go:89-98 | every member is detached, closed and cancelled, in any order, and the invariant is kept |
| `Emitter.WorkPlaneEmitter.Remove` | core/wpemitter.go:107-117 | a member is dropped, a former member is left alone |
| `Emitter.PublishIsARun` | core/wpemitter.go:67-86 | a whole Publish is a run of the protocol's steps |
| `Emitter.CloseIsARun` | core/wpemitter.go:89-98 | a whole Close is a run of the protocol's steps |
| `Emitter.CloseClosesEverything` | core/wpemitter.go:88-98 | with no other closer at work, Close leaves every channel closed, and a second Close changes none |
| `Emitter.PublishReaches` | core/wpemitter.go:67-86 | what one Publish does to each subscriber: the event is buffered, or it is dropped, closed and cancelled at 64, or nothing happens |
| `Emitter.CloseReaches` | core/wpemitter.go:89-98 | what one Close does to each subscriber: members are closed and cancelled and keep their buffer, others are left alone |
| `EmitterLaws.MatchingLaws` | core/wpemitter.go:124-144 | the matching part of a log, event by event, with the three conditions spelled out |
| `EmitterLaws.SubscribeAdds` | core/wpemitter.go:41-47 | the record a subscription adds |
| `EmitterLaws.RecordStableRun` | core/wpemitter.go:22-26 | no run ever changes what a subscriber asked for |
| `EmitterLaws.DeliversToTheCallersFilter` | core/wpemitter.go:41-86 | in every run after it subscribed, a subscriber gets exactly the later events that the filter it gave lets through |
| `EmitterLaws.ClosedChannelsDrain` | core/wpemitter.go:38-40 | a channel can be read as long as it holds something, closed or not, first in first out |
| `EmitterLaws.ChannelIsOpenWhenTouched` | core/wpemitter.go:71-97 | whenever an event is about to be offered or a channel closed, the channel is open |
| `EmitterLaws.ClosedChannelsPanic` | core/wpemitter.go:60-63 | what would happen otherwise: a panic, or a second close |
| `EmitterLaws.WatchersEnd` | core/wpemitter.go:48-51 | no goroutine is leaked: at rest exactly the members still have a watcher |
| `VerifierProtocol.ReachableInv` | internal/auth/verifier.go:60-102 | a non-empty cached hash is the content of a version no older than the one whose mtime is cached |
| `VerifierProtocol.UnchangedMeansAtLeastAsNew` | internal/auth/verifier.go:84-89 | when the unchanged test passes and mtimes are not reused, the cached hash is at least as new as the version stat'ed |
| `VerifierProtocol.RotatedRun` | internal/auth/verifier.go:60-102 | with nothing stale, later calls stay on the current version or newer through any run that reuses no mtime |
| `VerifierProtocol.RotationTakesEffectIffNothingStale` | internal/auth/verifier.go:39-42 | as long as no mtime is reused, a replacement takes effect for every later call if and only if no call holds an older hash it read but has not stored |
| `VerifierProtocol.DeletionTakesEffect` | internal/auth/verifier.go:75-83 | after a deletion with nothing stale, later calls find no hash, as long as no mtime was reused |
| `VerifierProtocol.LoneCallIsExactIffCoherent` | internal/auth/verifier.go:60-102 | whatever run of its own steps a call takes, it ends with the current version's hash exactly when the cache did not contradict that version |
| `VerifierProtocol.LoneCallIsExact` | internal/auth/verifier.go:60-73 | without reused mtimes every run of a call's own steps, from any reachable state, ends with exactly the current version's hash |
| `VerifierProtocol.LoneCallFinishes` | internal/auth/verifier.go:60-102 | such a run always exists |
| `Verifier.HashVerifier.ReloadIfChanged` | internal/auth/verifier.go:75-102 | what each branch leaves in hash and mtime |
| `Verifier.HashVerifier.Verify` | internal/auth/verifier.go:60-73 | accepts exactly when a hash is cached after the reload and it matches; nothing cached, a missing file, a blank or a malformed hash reject; the cached hash is the current file's exactly when the cache was coherent |
| `VerifierProtocol.ReachableCacheIsCoherent` | internal/auth/verifier.go:60-102 | without reused mtimes the cache does not contradict the current file in any reachable state |
| `VerifierProtocol.CoherentMeans` | internal/auth/verifier.go:84-89 | a cache is coherent when it is right about the file or would not be used for it |
| `VerifierProtocol.SameMtimeHidesTheRotation` | internal/auth/verifier.go:84-89 | a run in which a file is replaced by another with its mtime, and the next call, alone, ends with the old hash |
| `Backup.Writer.TarFile` | internal/cli/admin_backup.go:380-406 | appends the file and records its checksum, keeping the sums those of the entries |
| `Backup.Writer.TarIfFile` | internal/cli/admin_backup.go:186-198 | appends the file when it is there and no directory |
| `Backup.Writer.TarPath` | internal/cli/admin_backup.go:360-374 | what the walk appends for a directory, a regular file and anything else |
| `Backup.Writer.TarTree` | internal/cli/admin_backup.go:347-376 | appends an entry for every directory and regular file below the root, and nothing else, in any walk order |
| `Backup.RunAdminBackup` | internal/cli/admin_backup.go:147-217 | the archive holds exactly the faithful entries, one for each saved file and directory, and last a manifest of all checksums |
| `Restore.Disk.MakeDirs` | internal/cli/admin_backup.go:225-227 | makes the directory and those above it, or fails on a file in the way |
| `Restore.Disk.Write` | internal/cli/admin_backup.go:427-445 | writes the file and returns the checksum of what was written |
| `Restore.TargetIsDest` | internal/cli/admin_backup.go:240-298 | joining the data directory, however it is written, with an entry name leads below what the directory resolves to |
| `Restore.ExtractFile` | internal/cli/admin_backup.go:272-298 | one file is written and its checksum recorded, or the restore fails |
| `Restore.ExtractEntry` | internal/cli/admin_backup.go:260-305 | every case of the switch and every failure |
| `Restore.RestoreEntry` | internal/cli/admin_backup.go:256-305 | one turn of the loop, with the destinations joined as the source joins them |
| `Restore.Prepare` | internal/cli/admin_backup.go:222-227 | the empty-target check and the data directory |
| `Restore.RunAdminRestore` | internal/cli/admin_backup.go:221-343 | the disk and the failure of a whole restore for any flags, relative paths and the root directory included |
| `RestoreProofs.SumsDescribeAll` | internal/cli/admin_backup.go:245-306 | the running checksum map always describes the last write to each destination |
| `RestoreProofs.SuccessIsCertified` | internal/cli/admin_backup.go:308-323 | for any entries, a successful restore leaves on disk, for every name of the manifest, bytes with the manifest's checksum |
| `RestoreProofs.NoAuditFlagIsDefault` | internal/cli/admin_backup.go:240-243 | without an audit flag the destination is the default one, which is no other entry's |
| `RestoreProofs.ApartIffApartAsWritten` | internal/cli/admin_backup.go:240-298 | the audit destination is apart exactly when no other extracted name, joined as the source joins it, resolves to it |
| `RestoreProofs.OverwritingArchive` | internal/cli/admin_backup.go:271-298 | an archive that restores without complaint although its manifest no longer holds |
| `RestoreProofs.CertifiesIffAuditApart` | internal/cli/admin_backup.go:245-324 | every successful restore is certified exactly when the audit destination is nobody else's |
| `RestoreProofs.FlagsCertifyIffAuditApart` | internal/cli/admin_backup.go:221-324 | the same of a command line, whatever its flags and working directory |
| `RoundTrip.RestoreUndoesBackup` | internal/cli/admin_backup.go:147-324 | restoring a backup into an empty directory succeeds exactly when no saved name contains ".." and the manifest's text carries the names; without "..", the same files are there with the same bytes, and no others |
| `RoundTrip.FlagsRestoreUndoesBackup` | internal/cli/admin_backup.go:147-324 | the same of a command line; without an audit flag nothing is asked of the audit log's place |
| `RoundTrip.CarriedNamesAreLegible` | internal/cli/admin_backup.go:200-207 | names that JSON text carries unchanged always meet the second condition |
| `RoundTrip.DefaultIsPlaced` | internal/cli/admin_backup.go:240-243 | the default audit destination is always a place the round trip covers |
| `RoundTrip.DottedNameCannotBeRestored` | internal/cli/admin_backup.go:257-259 | a directory with the file dolt/a..b is backed up and cannot be restored |
| `RoundTrip.IllegibleNameCannotBeRestored` | internal/cli/admin_backup.go:313-317 | a directory with one file whose name the manifest spells differently is backed up and cannot be restored |
| `RestoreLaws.RefusesExactlyNonEmpty` | internal/cli/admin_backup.go:222-224 | without force, and only then, a directory that holds something is refused, and nothing on disk changes |
| `RestoreLaws.StartsWithTheDirectory` | internal/cli/admin_backup.go:222-227 | otherwise the directory is made; a file in its place is an error |
| `RestoreLaws.WriteLaw` | internal/cli/admin_backup.go:427-445 | when a file can be written, and everything that changes then |
| `RestoreLaws.MkdirLaw` | internal/cli/admin_backup.go:289-291 | when a directory can be made, and everything that changes then |
| `RestoreLaws.EscapingEntryLaw` | internal/cli/admin_backup.go:256-259 | a cleaned name with .. in it ends the restore |
| `RestoreLaws.ManifestEntryLaw` | internal/cli/admin_backup.go:261-270 | manifest.json is decoded and kept |
| `RestoreLaws.AuditEntryLaw` | internal/cli/admin_backup.go:271-276 | audit.jsonl goes to the audit destination |
| `RestoreLaws.DumpEntryLaw` | internal/cli/admin_backup.go:277-285 | what is in dolt-dumps/ is written below the data directory |
| `RestoreLaws.DataEntryLaw` | internal/cli/admin_backup.go:286-298 | directories are made and files written for dolt/, workspaces/ and vault.db |
| `RestoreLaws.UnknownEntryLaw` | internal/cli/admin_backup.go:299-305 | any other entry is skipped |
| `RestoreLaws.EntriesInOrder` | internal/cli/admin_backup.go:248-306 | entries are taken in order and the first failure ends the restore |
| `RestoreLaws.EndLaw` | internal/cli/admin_backup.go:308-323 | a manifest must have come, and every checksum in it must have been recorded |
| `RestoreLaws.BackupHolds` | internal/cli/admin_backup.go:166-207 | the archive holds every file and directory below dolt/ and workspaces/, vault.db and the audit log, and a manifest with the checksum of each file |
| `RestoreLaws.BackupHoldsOnly` | internal/cli/admin_backup.go:166-198 | and nothing else |
| `RestoreLaws.EverythingComesBack` | internal/cli/admin_backup.go:147-324 | with names that can be carried, a restore into an empty directory brings back each of those, byte for byte |
| `PathLaws.CleanSteps` | internal/cli/admin_backup.go:256 | cleaning a rooted path, element by element |
| `PathLaws.BaseIff` | cmd/gemba-bridge/preuse.go:169 | the last element of a path, slashes aside |
| `PathLaws.DotsMean` | internal/cli/admin_backup.go:257 | a name has dots when two come in a row |
| `BashTokens.TokenizeBash` | cmd/gemba-bridge/preuse.go:230-258 | the loop computes the specified scan |
| `BashTokens.TokenizingUndoesQuoting` | cmd/gemba-bridge/preuse.go:227-258 | any quoting and spacing of non-empty words tokenizes back to the words |
| `BashTokens.Quote` | cmd/gemba-bridge/preuse.go:243-244 | every token has a quoting, embedded quotes included |
| `BashTokens.EveryTokenListIsTokenized` | cmd/gemba-bridge/preuse.go:230-258 | every list of non-empty tokens, over any characters, has a line that tokenizes to it |
| `BashTokens.NoEmptyToken` | cmd/gemba-bridge/preuse.go:246-256 | no emitted token is empty |
| `Bash.NextPath` | cmd/gemba-bridge/preuse.go:211-225 | the first token that is neither flag nor operator, if there is one |
| `Bash.NextPathArg` | cmd/gemba-bridge/preuse.go:213-225 | the loop finds that token |
| `Bash.InspectBash` | cmd/gemba-bridge/preuse.go:155-190 | the verdict is that of the first denied position, and allow if there is none |
| `Bash.InspectTokens` | cmd/gemba-bridge/preuse.go:167-189 | the loop reports the first denied position |
| `Bash.InspectToken` | cmd/gemba-bridge/preuse.go:168-187 | the verdict on one position |
| `Bash.DeniesExactlyDeniedPaths` | cmd/gemba-bridge/preuse.go:164-189 | deny exactly when some token spells a known verb whose next path argument is denied for its intent; the empty-path guard decides nothing |
| `Bash.WideningKeepsAllowing` | cmd/gemba-bridge/preuse.go:178-187 | widening the surface never turns an allow into a deny |
| `Bash.TrimmedLine` | cmd/gemba-bridge/preuse.go:156-160 | trimming takes the white space around a line's words and nothing of the words |
| `Bash.QuotingDoesNotMatter` | cmd/gemba-bridge/preuse.go:155-190 | two spellings of the same words, whatever the quotes and the spacing around and between them, get the same verdict |
| `BashLaws.VerbIffSpelled` | cmd/gemba-bridge/preuse.go:168-170 | a token stands for a command exactly when it is its name or a path that ends in it |
| `BashLaws.VerbInAnyDirectory` | cmd/gemba-bridge/preuse.go:168-170 | so a command may be given by name or in any directory |
| `BashLaws.SkippedMeans` | cmd/gemba-bridge/preuse.go:215-221 | flags begin with a dash, and the operators are those four |
| `BashLaws.TableMeans` | cmd/gemba-bridge/preuse.go:194-209 | which commands read and which write |
| `BashLaws.DeniesExactlyDeniedCommands` | cmd/gemba-bridge/preuse.go:155-190 | denied exactly when somewhere a reading command is followed by an argument that may not be read, or a writing one by one that may not be written |
| `BashLaws.ReportsTheFirst` | cmd/gemba-bridge/preuse.go:167-187 | the reason is the surface's own for the first such command |
| `BashLaws.OpenQuote` | cmd/gemba-bridge/preuse.go:237-256 | a quote that is never closed takes the rest of the line into its word |
| `Usage.Aggregator.Observe` | internal/billing/usage.go:107-153 | the new maps for every kind of event and every ignored one |
| `Usage.Aggregator.TakeSnapshot` | internal/billing/usage.go:157-169 | field by field the tenant's counters, the audit bytes in units of 2^30, and zero for an unknown tenant |
| `Usage.BilledByHistory` | internal/billing/usage.go:107-153 | a separated tenant's counters are the sum over its own history: each destroy minus the latest open spawn, never below zero, and every non-negative byte count |
| `Usage.SnapshotIsTotals` | internal/billing/usage.go:107-169 | a separated tenant's snapshot, from the events alone: the sum of its egress bytes, of its audit bytes, and of its billed nanoseconds |
| `Usage.OpenSpawnIff` | internal/billing/usage.go:121-136 | which spawn a destroy is billed against: the VM's latest event of the two kinds, if that is a spawn |
| `Usage.NothingWithoutATenant` | internal/billing/usage.go:108-110 | events without a tenant are dropped |
| `Usage.OwnEventsSuffice` | internal/billing/usage.go:107-169 | a tenant sees the same after all events as after its own alone |
| `Usage.SharedKeyBills` | internal/billing/usage.go:126-136 | two tenants whose ids meet at a bar: one is billed for the other's VM |
| `Usage.IsolatedIffSeparated` | internal/billing/usage.go:107-169 | a tenant's snapshot never depends on another's events exactly when neither id continues the other past a bar |
| `Usage.NoBarIsSeparated` | internal/billing/usage.go:71 | ids without the separator never meet |
| `Usage.StartsAreOpenSpawns` | internal/billing/usage.go:121-136 | for any stream and any ids, a key's open start is that of the latest spawn under it that no destroy under it closed |
| `Usage.BillsWhatItAdds` | internal/billing/usage.go:127-141 | observing a destroy adds exactly the time since the spawn it bills |
| `Usage.NoSpawnIsBilledTwice` | internal/billing/usage.go:127-141 | in any stream, shared keys or not, no spawn is billed twice, and two destroys under one key bill disjoint intervals |
| `Usage.OpenUnderIsOwn` | internal/billing/usage.go:121-136 | for a separated tenant that spawn is the one its own history shows |
| `Usage.CountersNeverDecrease` | internal/billing/usage.go:107-153 | no event makes any counter smaller |
| `Base64.DecodeUndoesEncode` | internal/auth/hash.go:50-53 | decoding undoes encoding, in both alphabets |
| `Base64.EncodingHasNoSeparator` | internal/auth/hash.go:51-53 | neither "$" nor "." occurs in an encoding |
| `Base64.AlphabetLaw` | internal/auth/cookie.go:61 | the alphabets of sections 4 and 5 of RFC 4648 |
| `Base64.GroupLaw` | internal/auth/hash.go:50 | the bits of the bytes, six at a time, filled up with zeros |
| `Base64.DecodeLaw` | internal/auth/hash.go:87-94 | line breaks are skipped and other foreign characters refused |
| `Decimal.ParseUndoesPrint` | internal/auth/cookie.go:57-86 | parsing a printed 64-bit integer gives it back |
| `Decimal.ScanUndoesPrint` | internal/auth/hash.go:82-83 | scanning a printed number gives it back and stops right after it |
| `Decimal.PrintLaw` | internal/auth/cookie.go:57 | positional notation without leading zeros |
| `Decimal.ParseLaw` | internal/auth/cookie.go:86 | digits with at most one sign, in the range of 64 bits |
| `Decimal.ScanTakesDigits` | internal/auth/hash.go:82-83 | all the digits there are, refused when they do not fit the variable |
| `Phc.ParseUndoesPrint` | internal/auth/hash.go:44-98 | parsing a printed hash gives back parameters, salt and key |
| `Phc.HashThenVerify` | internal/auth/hash.go:40-66 | with parameters argon2 takes, every token verifies against its own hash, and another one exactly when the derived keys agree |
| `Phc.HashTokenVerifies` | internal/auth/hash.go:40-42 | with the default parameters every token is accepted against its own hash |
| `Phc.PrintedForm` | internal/auth/hash.go:51-53 | the printed hash, letter by letter |
| `Phc.DefaultParameters` | internal/auth/hash.go:29-42 | the parameters HashToken uses |
| `Phc.AcceptedForm` | internal/auth/hash.go:68-98 | what is accepted as a hash, and what is read from it |
| `Phc.CheckLaw` | internal/auth/hash.go:59-66 | an error for what is no hash, argon2's panic for parameters it does not take, and otherwise the comparison |
| `Cookie.VerifyAssembled` | internal/auth/cookie.go:66-91 | any payload with any signature is accepted exactly when the signature is the payload's and it spells an expiry to come |
| `Cookie.IssuedIsValidUntilExpiry` | internal/auth/cookie.go:51-91 | an issued cookie is good exactly before its expiry, in whole seconds |
| `Cookie.DefaultLifetimeIsOneDay` | internal/auth/cookie.go:20 | with the default lifetime, exactly 86400 seconds from the second of issue |
| `Cookie.IssuedForm` | internal/auth/cookie.go:51-63 | the cookie, part by part |
| `Cookie.VerifyLaw` | internal/auth/cookie.go:66-91 | any text is accepted exactly when it is two parts around one dot, the second signs the first, and the first is an expiry to come |
| `Derive.ValidateBeadPrefix` | core/repository.go:130-151 | accepts exactly two to eight characters of [a-z0-9-], and says which rule failed |
| `Derive.SanitizeRepositoryId` | core/repository.go:435-450 | the loop computes the mapped and trimmed id |
| `Derive.SanitizedShape` | core/repository.go:432-450 | an id has only [a-z0-9-_] and no dash or underscore at an end |
| `Derive.SanitizeTwice` | core/repository.go:432-450 | sanitizing again changes nothing |
| `Derive.DerivePrefix` | core/repository.go:456-471 | the loop finds the first two letters or digits, or falls back |
| `Derive.DerivedPrefixIsGood` | core/repository.go:452-471 | the derived prefix is two characters and always validates |
| `Derive.DeriveRepository` | core/repository.go:392-430 | the derived repository, or its validation failure |
| `Derive.DerivedIsValidIff` | core/repository.go:388-430 | for every workspace name and every git answer, the result validates exactly when the path is absolute and the branch not blank |
| `Derive.ValidMeans` | core/repository.go:101-151 | what makes a repository valid, spelled out |
| `Derive.FirstFailure` | core/repository.go:101-124 | which failure is reported, in order |
| `Derive.SanitizedMeans` | core/repository.go:435-450 | the text lowered, a dash for every other character, less dashes and underscores at the ends |
| `Derive.PrefixMeans` | core/repository.go:456-471 | the first two characters of [a-z0-9], or wp |
| `Derive.DerivedMeans` | core/repository.go:392-425 | id, path, branch and remote of a derived repository |
| `Registry.RepositoryRegistry.Register` | core/repository.go:473-499 | the new indexes and the failure, and the two stay inverse and valid |
| `Registry.RepositoryRegistry.Add` | core/repository.go:485-498 | the part of Register after validation |
| `Registry.RepositoryRegistry.Get` | core/repository.go:503-506 | the repository of that id, which its prefix leads to as well |
| `Registry.RepositoryRegistry.GetByPrefix` | core/repository.go:514-517 | the repository of that prefix, which its id leads to as well |
| `Registry.IndexKeepsInverse` | core/repository.go:478-499 | one registration keeps the indexes inverse, changes nothing when refused, and grows them exactly when id and prefix are new |
| `Registry.RegisterMeans` | core/repository.go:478-499 | what a registration answers and leaves, case by case |
| `Registry.RegisterTwice` | core/repository.go:476-488 | registering the same repository again succeeds and changes nothing |
| `Registry.AnyRunKeepsInverse` | core/repository.go:478-499 | after any sequence of registrations the indexes are inverse and valid, and nothing was displaced |
| `Registry.LoadRepositoryRegistry` | core/repository.go:258-277 | loading valid repositories succeeds exactly when the prefixes are pairwise distinct, and then holds exactly them |
| `Registry.OrderDoesNotMatter` | core/repository.go:264-275 | the order of the ids decides neither success nor result |
| `Watch.LoadIssuesSnapshot` | cmd/gemba-bd-hook/watch.go:191-221 | the loop's map, and whether the reading counts |
| `Watch.LastRowWins` | cmd/gemba-bd-hook/watch.go:203-216 | an id is there exactly when some row has it, with its last row's value |
| `Watch.DiffSnapshots` | cmd/gemba-bd-hook/watch.go:227-238 | each changed id once, and no other, in any map order |
| `Watch.Daemon.constructor` | cmd/gemba-bd-hook/watch.go:85-89 | the seed, even of a reading that stopped early |
| `Watch.Daemon.Flush` | cmd/gemba-bd-hook/watch.go:107-127 | a failed reading changes and reports nothing; otherwise the snapshot is replaced and its changes reported |
| `Watch.ReportedWhenItsRunBegan` | cmd/gemba-bd-hook/watch.go:107-127 | every id of the current snapshot was reported by the flush that first saw its current value and by none since, unless it has had the seed's value all along |
| `Watch.ListenerIsUpToDate` | cmd/gemba-bd-hook/watch.go:223-238 | a listener that takes the reported values knows every row of the current snapshot, and the last value of those lost |
| `Watch.ReappearingFileIsReportedWhole` | cmd/gemba-bd-hook/watch.go:194-198 | after a reading of a missing file every row is reported again |
| `Watch.RowMeans` | cmd/gemba-bd-hook/watch.go:205-214 | which lines are rows for an id |
| `Watch.SnapshotLaw` | cmd/gemba-bd-hook/watch.go:203-216 | a snapshot, line by line |
| `WatchProtocol.InvStep` | cmd/gemba-bd-hook/watch.go:101-171 | every step of writer, event loop, timer and flushes keeps the invariant |
| `WatchProtocol.HandledEventsAreServed` | cmd/gemba-bd-hook/watch.go:129-149 | if an event was handled after the last reading, the timer is armed or a fired flush will still read |
| `WatchProtocol.AtRestTheFileWasTried` | cmd/gemba-bd-hook/watch.go:101-171 | at rest the last announced change has been tried; if a try got the current version the snapshot is the file's; a file changed unannounced is gone |
| `WatchProtocol.AtRestHoldsCurrentIff` | cmd/gemba-bd-hook/watch.go:101-171 | at rest the snapshot is the current version's exactly unless the file was deleted unannounced and not looked at since, or every look at it failed |
| `WatchProtocol.AtRestTheListenerKnows` | cmd/gemba-bd-hook/watch.go:101-149 | at rest, with the current version read, a listener knows every row of the file |
| `WatchProtocol.UnsettledCanMove` | cmd/gemba-bd-hook/watch.go:129-149 | a daemon not at rest can step, and each own step leaves less to do |
| `WatchProtocol.InternalRunsEnd` | cmd/gemba-bd-hook/watch.go:129-149 | once the writes stop, the daemon comes to rest |
| `WatchProtocol.FailedLastReadStaysBehind` | cmd/gemba-bd-hook/watch.go:110-116 | a failed last reading leaves the daemon at rest with an old snapshot |
| `WatchProtocol.DeletionGoesUnnoticed` | cmd/gemba-bd-hook/watch.go:159-171 | after a plain deletion the daemon is at rest with the old rows and has not looked at the file |
| `WatchProtocol.ReceiveLaw` | cmd/gemba-bd-hook/watch.go:163-171 | which notifications lead to a reading |
| `WatchProtocol.FlushLaw` | cmd/gemba-bd-hook/watch.go:107-141 | what arming, firing and reading leave |
| `WatchProtocol.SeedLaw` | cmd/gemba-bd-hook/watch.go:85-89 | the seed is whatever was there to read |
| `Errors.Receiver.UnmarshalJSON` | core/errors.go:249-271 | the receiver afterwards, unchanged on an error |
| `Errors.DecodeOfEncode` | core/errors.go:224-271 | exactly the errors of a canonical kind can be read back, with kind, retry flag, message and data, the cause as text |
| `Errors.EncodeAgain` | core/errors.go:224-271 | encode, decode, encode equals encode |
| `Errors.AnyKeepsJson` | core/errors.go:249-271 | what JSON decodes to without a type encodes to the same JSON |
| `Errors.PathsAgreeIff` | core/errors.go:389-420 | for any Go value under issue, typed and wire path agree exactly unless it is of a kind that reads differently after the trip |
| `Errors.NewValidationErrorCrosses` | core/errors.go:368-420 | an issue built with the constructor reads the same on both sides, with the default reason filled in |
| `Errors.MatchesThatSurvive` | core/errors.go:201-219 | over the wire a sentinel is matched exactly when the kind stands for it |
| `Errors.AlreadyClaimedIsLost` | core/errors.go:323-341 | the already-claimed sentinel is not recognised on the other side |
| `Errors.UsedReceiverIffNoCauseLeft` | core/errors.go:267-269 | decoding into a used receiver equals decoding into a fresh one exactly when the wire has a cause or the receiver had none |
| `Errors.KindsAre` | core/errors.go:78-89 | the ten kinds |
| `Errors.SentinelLaw` | core/errors.go:201-219 | which kind stands for which sentinel |
| `Errors.TextLaw` | core/errors.go:178-186 | an error's text |
| `Errors.WireForm` | core/errors.go:224-244 | the wire form, field by field |
| `Errors.IssueForm` | core/errors.go:353-357 | an issue's wire form, field by field |
| `Errors.DecodableMeans` | core/errors.go:249-262 | what can be decoded |
| `Errors.DecodedMeans` | core/errors.go:263-270 | and what it decodes to |
| `Errors.NewValidationErrorMeans` | core/errors.go:368-382 | the canonical validation error |
| `Errors.IssueOfMeans` | core/errors.go:389-420 | where an issue is found, and where not |
| `Egress.SameIdIffConfusable` | internal/cli/egress.go:52-57 | two hosts share an id exactly when they agree up to case, dot and dash, star and x |
| `Egress.Server.CreateRule` | internal/egress/store.go:86-106 | storing is an upsert |
| `Egress.ApplySlots` | internal/cli/egress.go:286-314 | the loop's store, counts and failure, for any delivery of its calls |
| `Egress.Apply` | internal/cli/egress.go:277-318 | the same for the template's hosts |
| `Egress.AttemptFrame` | internal/cli/egress.go:281-297 | rules listed at the start stay as they are, only the template's ids are added, and a try that goes through adds all of them |
| `Egress.EveryHostIsCounted` | internal/cli/egress.go:287-317 | created plus skipped is the number of hosts that are not blank |
| `Egress.NothingToCreate` | internal/cli/egress.go:295-297 | with every id present an apply sends nothing |
| `Egress.RetryingConverges` | internal/cli/egress.go:277-318 | however often it fails, a try that goes through ends with the ids of one undisturbed apply, and another apply changes nothing |
| `Egress.SharedIdDiverges` | internal/cli/egress.go:294-314 | why a template needs hosts that can be told apart: with one id for two of them and one lost answer, the retried store differs |
| `Egress.ConvergesIffIdsDistinct` | internal/cli/egress.go:277-318 | interruptions leave no trace in the rules exactly when no two new hosts share an id |
| `Egress.TemplateConvergesIff` | internal/cli/egress.go:277-318 | for any template: interruptions leave no trace exactly when its new hosts can be told apart |
| `Egress.BuiltinLengthsDiffer` | internal/egress/templates.go:65-105 | the hosts of every built-in template are trimmed and of different lengths |
| `Egress.BuiltinsConverge` | internal/cli/egress.go:256-318 | with every template the command can be given, interruptions never leave a trace |
| `Egress.IdMeans` | internal/cli/egress.go:52-57 | a rule id, letter by letter |
| `Egress.SlotMeans` | internal/cli/egress.go:289-310 | the rule a host asks for, field by field |
| `Egress.StepLaw` | internal/cli/egress.go:289-316 | one host: passed over, skipped, created, or the end of the attempt |
| `Egress.BuiltinsAre` | internal/egress/templates.go:65-104 | the built-in templates by name |
| `WorkItem.WorkItem.NormalizeRepositories` | core/types.go:350-354 | the primary becomes the list when there is none |
| `WorkItem.WorkItem.ValidateRepositories` | core/types.go:365-402 | nil exactly for no list or non-empty distinct ids with the primary; otherwise the first offence |
| `WorkItem.WorkItem.ValidateBranches` | core/types.go:280-314 | nil exactly for distinct known repositories with non-empty branches; otherwise the first offence |
| `WorkItem.WorkItem.FindBranch` | core/types.go:319-326 | the scan finds the first entry for the id |
| `WorkItem.NormalizingIsSafe` | core/types.go:350-354 | normalizing settles after one time and keeps validity |
| `WorkItem.BranchForIsFirst` | core/types.go:319-326 | the scan finds an entry exactly when there is one |
| `WorkItem.ScanIsLookup` | core/types.go:319-326 | on a consistent mapping the scan is a lookup |
| `WorkItem.OrderIrrelevantIffConsistent` | core/types.go:316-326 | the order of the entries is irrelevant exactly when no repository has two branches |
| `WorkItem.ValidatedOrderIsIrrelevant` | core/types.go:280-326 | a validated item's branches can be listed in any order |
| `WorkItem.ValidRepositoriesMeans` | core/types.go:365-402 | what makes the repositories valid, spelled out |
| `WorkItem.IdErrorMeans` | core/types.go:380-389 | how a bad entry is reported |
| `WorkItem.ValidBranchesMeans` | core/types.go:280-314 | what makes the branches valid, spelled out |
| `WorkItem.BranchProblemMeans` | core/types.go:289-311 | how an entry is reported, in the order of the checks |
| `WorkItem.BranchForLaw` | core/types.go:319-326 | looking a branch up takes the first entry |
| `WorkItem.NormalizedMeans` | core/types.go:350-354 | which items are changed, and how |

## Left out

- Atomicity: a mutex-protected section, a channel operation, a system call and one reading of a whole file are single steps; the Go memory model and a file changing under an open reader are not modelled.
- Emitter.WorkPlaneEmitter.TrySend: asks for an open channel, since sending on a closed one panics; that every call meets this is what the emitter's invariant proves.
- Backup.RunAdminBackup: I/O errors, gzip and tar framing, file modes, the manifest's time and version, and dolt dumps are not modelled; what is not a regular file or directory counts as opaque bytes.
- Restore.RunAdminRestore: archive read errors and symbolic links are not modelled, so a path leads where its text says; opening an existing non-regular file is taken to fail.
- RoundTrip.RestoreUndoesBackup: assumes, when there is an audit log to restore, that its destination is in no saved file's way and nothing is in its; the certification lemmas cover the other destinations.
- Bash.QuotingDoesNotMatter: says nothing of a line whose first or last word has an unquoted line break or other unusual white space at its outer end, which trimming cuts off.
- Bash: the surrounding switch over tool names and the surface's own path rules are one-branch code or other packages.
- Usage: float64 rounding and the saturation of time.Duration; counters are reals and times integers.
- Base64, Phc, Cookie: strength of argon2, HMAC and the random source; comparison in constant time.
- Phc.HashThenVerify: takes the salt as a parameter, so a failing random source is not modelled; argon2 panics on parameters it does not take, and so does hashing with them.
- Cookie.IssuedIsValidUntilExpiry: the expiry must fit a signed 64-bit number of seconds, as the source's type does.
- Derive: lengths are counted in characters where the source counts bytes, which changes only which error a non-ASCII prefix gets; reading TOML files and running git.
- Registry.LoadRepositoryRegistry: starts from the repositories the directory scan yields; the sorting of ids only fixes which collision is reported.
- Watch: the POSTs that carry a report and their failures, cancellation, and the JSON decoder, which is a parameter.
- WatchProtocol: real time; a timer may fire at any moment after it is armed. Every change but a plain deletion is assumed to be announced by at least one relevant event.
- Errors.PathsAgreeIff: strings are Unicode text here; bytes that are not valid UTF-8, which JSON replaces, are not modelled, and values that do not marshal are not either.
- Errors: JSON text, duplicate and differently cased keys, non-integral numbers, the null receiver, joined errors, and matching one tagged error against another.
- Egress.Apply: trims and names all hosts before the loop instead of inside it; a failing listing, which ends an apply before its first call, is not modelled.
- Egress: rejecting unknown template names, trimming and lowering the name, the HTTP client, rules changed by others during an apply, and the server's id checks.
- WorkItem: error message texts; the model keeps which rule failed and for which id.
- The planner, dispatch, conformance runner, web server, CLI wiring, TLS and TypeScript generation: I/O around other packages, or flat projections that would add only easy members.
