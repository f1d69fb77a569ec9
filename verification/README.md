# Kitty Pro: the parts that keep state across failures

Kitty Pro is a desktop and mobile front end for sing-box. Most of it hands data to other programs;
this project models the parts that have to stay right when something fails in the middle, or that
transform data under a precise meaning, and proves what they promise.

| file | models |
|---|---|
| `Disk.dfy`, `AtomicWrite.dfy`, `AtomicSweep.dfy` | replacing one file under crashes, and the sweep that repairs the rest |
| `RuleSetCache.dfy` | the two-file rule-set transaction and its recovery |
| `SyncBundle.dfy` | the content-addressed sync bundle, push and pull |
| `SyncProtocol.dfy`, `SyncCompleteness.dfy`, `SyncNoLostUpdate.dfy`, `SyncExposure.dfy`, `SyncProgress.dfy` | several devices and one remote, requests interleaving freely |
| `SyncTarget.dfy` | which remote a baseline belongs to |
| `LogBuffer.dfy`, `LogRoutes.dfy` | the bounded log buffer with route enrichment and cursor polling |
| `ConfigScript.dfy` | the JSON difference and whitelist that confine a script |
| `CoreRestart.dfy` | the restart transaction over an engine that may fail |
| `SingBoxConfig.dfy`, `SingBoxModes.dfy` | the generated configuration: two first-match lists that must agree, and what they do in each mode |
| `DnsPacket.dfy` | the Android DNS bridge against RFC 1035 |
| `JsonText.dfy`, `HelperRpc.dfy`, `HelperState.dfy` | at-most-once requests to the privileged helper, and what it does with them |
| `SubscriptionTags.dfy` | node tags |
| `Calendar.dfy` | two calendar conversions that invert each other |
| `Text.dfy`, `Wrappers.dfy` | searching and trimming text; options and results |

Conventions. Code that changes things step by step is a class or a method with loops, proved against
a function or predicate; what the program promises is then proved about those. Failures are
nondeterministic: an operation on a disk, an engine or a connection may fail at any time. A failed
write may have left nothing, a part or all of the file; a failed rename or removal leaves the files
unchanged; a failed start, stop or request may have had its effect. Loss of power is a flag on the disk after which no operation has an
effect, so one postcondition covers an interruption after every step. Assumptions about code that is
not modelled are parameters with stated properties:

- File operations are atomic and durable in program order; unique stamps are unique.
- The sixteen hash digits in a name tell the payloads of a run apart (`SyncBundle.World`); decoders
  give back the sections and the manifest that a push encoded (`SyncBundle.Codec.RoundTrips`).
- Different documents get different, non-empty ETags (`SyncProtocol.FreshRevision`).
- An engine's successful answers are truthful (`CoreRestart.Engine`).
- The helper's decoder accepts only JSON texts and gives back the actions of the run
  (`HelperRpc.Decodes`).
- Rule normalization, rule-set contents and what the core makes of a normalized rule are functions
  that both lists share (`SingBoxConfig.Foreign`); a domain suffix covers the name itself and names
  that end in a dot and the suffix, and rules about addresses match no name that is unresolved.

Results that are not simply yes:

- The difference applied to its baseline gives the output back exactly if no null of the output is
  new (`ConfigScript.DeltaIsAMergePatch`).
- Timestamps recombine exactly up to the end of the year 9999 (`Calendar.StampsRecombine`).
- A device can lose an update without a forced push exactly if its baseline has no revision and a
  time that no manifest it knows has, and no newer manifest is visible
  (`SyncExposure.CanLoseIffExposed`). Only a legacy document without an ETag brings it there.
- A failed write can be undone by every sweep exactly if no contradicting backup was left before it
  (`AtomicSweep.FailedWritesAreUndoneIff`).
- The helper's resolver stays reachable exactly if the accept loop is not left by an error while the
  tunnel is up (`HelperState.ReachableUnlessLeftWhileUp`).
- A baseline belongs to the target it was read from exactly if the checkpoint was committed with that
  target, which the commit of a pull leaves to its caller (`SyncTarget.BaselineBelongsToItsTarget`).
- The DNS list forgets the order of the route list: a direct rule behind a matching proxy rule still
  decides who answers (`SingBoxConfig.ShadowedDirectRulesStillAnswer`).
- Making tags unique can produce duplicates on lists that no parser produces
  (`SubscriptionTags.UniquifyingCanFail`).
- A response for 65536 addresses or more does not decode (`DnsPacket.AddressResponseDecodes`).

Where comments and code of the repository disagree, the model follows the code. The comment at
packages/api/src/sync.rs:283-286 says that the first bundle write fails if an old build re-published
the single document; the condition only concerns the manifest, so the write goes through. The comment
at packages/api/src/sync.rs:306-309 speaks of a byte-identical manifest; the code compares time
stamps only, which in runs without forced pushes is enough because they strictly increase. Rust's and
Go's division truncates toward zero; `Calendar.Quot` spells that out.

## Model

| member | source | states |
|---|---|---|
| `RuleSetCache.Install` | packages/api/src/rule_set_cache.rs:267-359 | Failing or losing power after any step, an install leaves a directory that stands for exactly the old pair or exactly the new one. Success means the new pair is in place and no backup, journal or marker is left; only invalid files are refused; every other failure is a failure of the disk, and if that was a single one before the commit, the old pair is back in place with no backup, marker or temporary file left. |
| `RuleSetCache.Recover` | packages/api/src/rule_set_cache.rs:499-562 | From any sound directory, cut short any number of times, recovery keeps the pair the directory stands for. Once it succeeds that pair is in place and nothing of a transaction is left, and without a disk failure it succeeds. |
| `RuleSetCache.RunSessions` | packages/api/src/rule_set_cache.rs:267-359 | Any sequence of installs and recoveries, each failing or interrupted anywhere, ends after a last recovery with the pair of the last install that committed, or the first pair, absence included, and with nothing left over, unless the disk fails in that last recovery. |
| `RuleSetCache.Begin` | packages/api/src/rule_set_cache.rs:282-332 | Every step before anything is staged keeps the old pair. Going on means nothing of an earlier transaction is left, both new files are valid and written in full, and the journal names exactly the files that exist; a refusal means a file is invalid; after a single failure the old pair is in place and no temporary file left. |
| `RuleSetCache.SwitchOver` | packages/api/src/rule_set_cache.rs:334-339 | Staging, moving in and marking: the directory stands for the new pair exactly if every step succeeds. |
| `RuleSetCache.WriteCommit` | packages/api/src/rule_set_cache.rs:398-401 | The commit marker is the one step that changes what the directory stands for, and only when it appears whole. |
| `RuleSetCache.AbandonTransaction` | packages/api/src/rule_set_cache.rs:340-357 | Rolling back after a failed switch keeps the old pair at every step, and unless the disk fails again it puts the old pair back in place at once and leaves no backup, journal, marker or temporary file. |
| `RuleSetCache.RollbackInstall` | packages/api/src/rule_set_cache.rs:415-441 | Undoing one file keeps the pair at every step, and restores the file or its absence. |
| `RuleSetCache.RollbackPair` | packages/api/src/rule_set_cache.rs:444-457 | The second file is rolled back even when the first fails; success puts the old pair in place with no backup left. |
| `RuleSetCache.FinishTransaction` | packages/api/src/rule_set_cache.rs:460-496 | Completing an installed transaction keeps the new pair at every step and ends with nothing left over. |
| `RuleSetCache.UndoTransaction` | packages/api/src/rule_set_cache.rs:541-551 | Undoing an uncommitted transaction keeps the old pair at every step, and ends with it in place and nothing of the transaction left. |
| `RuleSetCache.RecoverBackup` | packages/api/src/rule_set_cache.rs:565-581 | The recovery of caches older than the journal keeps the meaning of a backup: it counts only if the live file is missing or invalid. |
| `RuleSetCache.StageBackup` | packages/api/src/rule_set_cache.rs:404-412 | Moving an old file aside keeps the pair and leaves a backup exactly if there was a file. |
| `RuleSetCache.WriteJournal` | packages/api/src/rule_set_cache.rs:385-395 | A journal cut short never counts; a whole one names exactly the files that exist. |
| `AtomicWrite.AtomicWriteBytes` | packages/api/src/atomic_write.rs:173-191 | Under failures and power loss after any step: the new bytes whole in place, or the old file in place or whole in its backup, and no other file changes. Without a failure nothing else is left; a write given up after a single failure changes nothing at all. |
| `AtomicWrite.AtomicReplace` | packages/api/src/atomic_write.rs:101-114 | The same for a finished temporary file, on platforms with and without renaming over a file; where a file can be renamed over, it takes two failures to stop it. |
| `AtomicWrite.ReplaceWithBackup` | packages/api/src/atomic_write.rs:121-168 | Move aside, install, move back on failure: the destination is never torn, missing only while its backup holds it, and after a single failure the old file is where it was. |
| `AtomicSweep.DestinationInvertsBackupSibling` | packages/api/src/atomic_write.rs:207-217 | The destination is read off a backup name exactly when the destination's own name is not empty and contains no separator. |
| `AtomicSweep.CleanupAtomicResidueIn` | packages/api/src/atomic_write.rs:222-264 | A sweep, even one that fails anywhere, never loses the value a file has in place or in its backups, and never makes one up. |
| `AtomicSweep.SweepRestores` | packages/api/src/atomic_write.rs:239-262 | A complete sweep, in any order of the listing, puts a missing file back from its backup and leaves no backup of it. |
| `AtomicSweep.SweepRemovesSiblings` | packages/api/src/atomic_write.rs:239-262 | A complete sweep leaves no name that a write makes up, temporary files included. |
| `AtomicSweep.FirstListedBackupWins` | packages/api/src/atomic_write.rs:248-260 | With several backups of a missing file the order of the listing decides which one is restored. |
| `AtomicSweep.EverySweepRestoresIff` | packages/api/src/atomic_write.rs:222-264 | Every complete sweep restores the same bytes exactly if the file is there with them, or all its backups agree on them. |
| `AtomicSweep.AttemptHolds` | packages/api/src/atomic_write.rs:121-191 | Whatever a write leaves, cut short or not, can be restored for every file: the one written to its new bytes if the write reported success, and otherwise, like all others, to what it was. |
| `AtomicSweep.FailedWritesAreUndoneIff` | packages/api/src/atomic_write.rs:121-264 | Every complete sweep after a failed write brings back the old file exactly if no backup that differs from it was left beside it before the write. |
| `AtomicSweep.RunEvents` | packages/api/src/atomic_write.rs:173-264 | Writes, sweeps and restarts in any order, each cut short anywhere: at every moment every file holds the bytes of its last write that reported success, in place or in its backups. The run ends only before a write that makes up a used name or finds a backup contradicting its file. |
| `AtomicSweep.RunAndRecover` | packages/api/src/atomic_write.rs:173-264 | After any such run, a restart and one sweep in which nothing fails, every file has exactly the bytes of its last write that reported success, neither torn nor missing, and no backup or temporary file of any write is left; a sweep that fails loses nothing. |
| `SyncBundle.NamesAddressContent` | packages/api/src/sync.rs:594-598 | Object names determine section and content, even though they carry only sixteen digits of the hash. |
| `SyncBundle.WrittenManifestIsWellShaped` | packages/api/src/sync.rs:686-717 | The reader's structural checks accept every manifest a push writes. |
| `SyncBundle.WrittenEntriesAreValid` | packages/api/src/sync.rs:796-812 | File name, section prefix and digest of every written entry pass the reader's checks. |
| `SyncBundle.ObjectWritten` | packages/api/src/sync.rs:939-951 | Writing or skipping an object leaves it stored with its stated size and digest and changes no other object. |
| `SyncBundle.UploadSection` | packages/api/src/sync.rs:939-951 | A section is sent exactly if its name is unknown, and stored in both cases unless the request fails. |
| `SyncBundle.UploadSections` | packages/api/src/sync.rs:931-958 | The upload loop returns the entries of exactly these sections, all stored, having sent exactly those with unknown names; it stops only for a failed request or beyond the size cap. |
| `SyncBundle.UploadBundle` | packages/api/src/sync.rs:925-974 | The manifest becomes visible only under its condition, and then everything it names is stored. If no request fails, the outcome is exactly what the size cap and the condition say. |
| `SyncBundle.DownloadBundle` | packages/api/src/sync.rs:720-775 | Unless a request fails, the download loop returns what the reference reader makes of the stored objects, first failure first; and nothing is accepted unless every object has the size and digest the manifest states. |
| `SyncBundle.LoadsIff` | packages/api/src/sync.rs:720-751 | Objects are loaded exactly if all are there with the size and digest the manifest states, within the size cap. |
| `SyncBundle.PullAcceptsIff` | packages/api/src/sync.rs:636-775 | A pull accepts a snapshot if and only if the manifest passes the checks, every object is intact, each section decodes from the object of its entry, absent sections stay absent, and the whole passes the checks on snapshots. |
| `SyncBundle.WrittenFilesLoad` | packages/api/src/sync.rs:720-775 | Reading the entries of a push yields the payloads it was made from. |
| `SyncBundle.PushThenPull` | packages/api/src/sync.rs:720-775 | Push then pull is the identity for every valid snapshot within the size cap, absent sections staying absent, exactly if the manifest itself fits into a response; otherwise the pull reports it as too large. |
| `SyncBundle.PushThenPullApplies` | packages/api/src/sync.rs:450-520 | What that theorem assumes about hash and coders can be had for every snapshot that passes the structural checks. |
| `SyncBundle.OversizedBundleIsRefused` | packages/api/src/sync.rs:720-775 | What the push refuses as too large the reader would refuse too. |
| `SyncBundle.Profile.Apply` | packages/proxy-core/src/model.rs:595-614 | Applying a snapshot gives the profile the sections it carries, keeps the profile's own for absent ones, and leaves local preferences alone. |
| `SyncProtocol.StampsAdvance` | packages/api/src/sync.rs:302-303 | A push is stamped with the clock if that is past the last sync, never before it, and past the last sync exactly while the largest time is not reached. |
| `SyncProgress.DecisionIff` | packages/api/src/sync.rs:203-300 | With nobody in between, a push goes on exactly if it is forced, or the device is up to date: it has synced with this remote and the remote shows what it synced with or nothing newer, or neither has anything. Nothing is written before, and what the manifest names is not sent again. |
| `SyncProgress.UndisturbedPushesSucceed` | packages/api/src/sync.rs:256-329 | Such a push makes exactly its manifest visible, and time and revision of it are saved, also when the answer carries no ETag and the manifest is read again. |
| `SyncProgress.PushesKeepSucceeding` | packages/api/src/lib.rs:461-492 | A device alone can push any number of times without forcing: every push gets through, and the last one is what is visible and remembered. |
| `SyncProgress.UndisturbedPullsSucceed` | packages/api/src/sync.rs:720-775 | A pull of a bundle whose objects are intact hands over exactly their contents, and once committed the device is up to date. |
| `SyncProgress.UndisturbedLegacyPullsSucceed` | packages/api/src/sync.rs:331-336 | So is it after a pull of the single document of older builds. |
| `SyncProgress.DamagedBundlesAreNotPulled` | packages/api/src/sync.rs:727-751 | A pull of a bundle with a missing or damaged object changes nothing on the device. |
| `SyncProgress.NewTargetsArePulledFirst` | packages/api/src/sync.rs:151-169 | After a change of the target an ordinary push gets through exactly if nothing is there yet. |
| `SyncProgress.SavedPushesAreRemembered` | packages/api/src/lib.rs:475-484 | In every run with any other devices: once a push has saved its baseline, the device remembers time and revision of the manifest it wrote, whatever the others did meanwhile. |
| `SyncProgress.BaselineWasSaved` | packages/api/src/lib.rs:461-570 | In every run a baseline is what the device saved last, after a push or with a pulled document, unchanged since. |
| `SyncCompleteness.VisibleManifestIsComplete` | packages/api/src/sync.rs:925-974 | In every reachable state of any number of devices, forced pushes included, every object the visible manifest names is stored with its size and digest. |
| `SyncCompleteness.RunIsComplete` | packages/api/src/sync.rs:256-329 | The invariant behind it: uploads in flight, downloads in flight and finished downloads are complete as far as they got. |
| `SyncCompleteness.PullNeverMisses` | packages/api/src/sync.rs:720-775 | A pull that has read a manifest never misses an object and never reads a wrong one, even if the manifest is replaced or deleted meanwhile. |
| `SyncCompleteness.PulledBundlesAreWhole` | packages/api/src/sync.rs:720-775 | Every finished download is one payload per file of one manifest, with the stated sizes and digests. |
| `SyncCompleteness.SkippedSectionsAreStored` | packages/api/src/sync.rs:939-951 | Skipping a section because the manifest read first named its object is sound: exactly those bytes are stored. |
| `SyncNoLostUpdate.NoLostUpdate` | packages/api/src/sync.rs:203-329 | In every run without forced pushes and deletions, whatever reads and answers come without an ETag: what a push of a vouched device replaces its device had pushed or applied. For every device it is no newer than the last sync and older than what replaces it. |
| `SyncNoLostUpdate.OnlyUntaggedLegacyPullsExpose` | packages/api/src/lib.rs:524-570 | The voucher is lost in one way only: committing a legacy document that was read without an ETag. |
| `SyncExposure.CanLoseIffExposed` | packages/api/src/sync.rs:203-329 | The exact condition, at every moment of every such run, with any other device around: the run can go on so that this device, with the baseline it has, loses an update if and only if its baseline is not vouched for and no newer manifest is visible. |
| `SyncExposure.ExposedDevicesLose` | packages/api/src/sync.rs:203-329 | For every exposed device the run that loses an update, step by step. |
| `SyncExposure.LosersWereExposed` | packages/api/src/sync.rs:203-329 | A push that loses an update comes from a device that was exposed ever since it got its baseline. |
| `SyncNoLostUpdate.RememberedRevisionsPreventLostUpdates` | packages/api/src/sync.rs:203-234 | With forced pushes and deletions around, the same for every unforced push of a device that remembers a revision. |
| `SyncNoLostUpdate.ChainIncreases` | packages/api/src/sync.rs:302-303 | Time stamps strictly increase along everything the remote ever showed in such runs, ETags or not. |
| `SyncNoLostUpdate.RereadAdoptsKnownManifest` | packages/api/src/sync.rs:304-315 | A revision adopted by re-reading after a write without an ETag belongs to a manifest the device wrote or applied, in every such run. |
| `SyncNoLostUpdate.KnownWasPushedOrApplied` | packages/api/src/lib.rs:461-570 | What a device counts as known it did push or apply, at an earlier step of the run. (What it remembers as its baseline is the subject of SyncProgress.BaselineWasSaved.) |
| `SyncNoLostUpdate.UntaggedLegacyReadsLoseUpdates` | packages/api/src/sync.rs:203-234 | A concrete run of two devices in which a device without a voucher makes an unforced push that overwrites an unknown bundle. |
| `SyncTarget.SameTargetSameAddresses` | packages/api/src/sync.rs:338-356 | Configurations that count as the same target address the same document and the same bundle objects. |
| `SyncTarget.DifferentTargetsMayShareABundle` | packages/proxy-core/src/model.rs:15-23 | The converse fails: two targets with one bundle directory; switching between them forgets the baseline. |
| `SyncTarget.BundleSparesTheDocument` | packages/proxy-core/src/model.rs:10-23 | No bundle object takes the place of the single legacy document. |
| `SyncTarget.PulledObjectsStayInTheBundle` | packages/api/src/sync.rs:686-717 | What an accepted manifest names are pairwise different objects, without a slash in their names, and never the single document. |
| `SyncTarget.BaselineBelongsToItsTarget` | packages/api/src/sync.rs:151-169 | Over any sequence of saved settings, pushes and committed pulls a baseline is that of the last checkpoint and the target never changed since; so it belongs to the target it was read from exactly if that checkpoint was committed with it. |
| `SyncTarget.CommitsCanMoveABaseline` | packages/api/src/lib.rs:524-570 | The commit of a pull does not check that: a run in which the revision of one target becomes the baseline of another. |
| `SyncTarget.TrimKeepsOthers` | packages/api/src/sync.rs:338-356 | Trimming drops nothing else, so looking for a dot in the trimmed or the untrimmed bucket is the same. |
| `Calendar.CivilInvertsDays` | packages/api/src/sync.rs:1296-1313 | A valid Gregorian date, before or after year zero, survives the trip through its day number. |
| `Calendar.DaysInvertCivil` | packages/proxy-core/src/update.rs:371-379 | Every day number, negative ones included, is that of a Gregorian date and survives the trip. |
| `Calendar.SuccessorIsNextDay` | packages/proxy-core/src/update.rs:371-379 | The next date of the calendar has the next day number. |
| `Calendar.CivilStepsThroughTheCalendar` | packages/api/src/sync.rs:1296-1313 | Day 0 is the first of January 1970, and the date of day n + 1 is the Gregorian successor of the date of day n, which leaves only one conversion. |
| `Calendar.StampsRecombine` | packages/api/src/sync.rs:1284-1294 | The fields the sync client prints recombine to the timestamp exactly up to the end of year 9999; the reader refuses all later ones. |
| `Calendar.YearNineThousand` | packages/proxy-core/src/update.rs:350-352 | The day at which the accepted years end. |
| `ConfigScript.ConfigScriptDelta` | packages/proxy-core/src/script.rs:155-192 | The recursive diff computes the reference difference, member by member, for every pair of documents. |
| `ConfigScript.DeltaOfUnequalObjectsIsNonEmpty` | packages/proxy-core/src/script.rs:155-192 | Two unequal objects never have an empty difference. |
| `ConfigScript.DeltaIsAMergePatch` | packages/proxy-core/src/script.rs:155-192 | Applied as a merge patch (section 2 of RFC 7396) the difference gives the output back exactly if every null of the output was in the baseline already. |
| `ConfigScript.NullFreeOutputsAreRestored` | packages/proxy-core/src/script.rs:155-192 | In particular for every output without null members. |
| `ConfigScript.Walk` | packages/proxy-core/src/script.rs:220-243 | The walk with its shared path accepts exactly the documents the whitelist allows, restores the path, and names an offending path otherwise. |
| `ConfigScript.AcceptedIffConfinedBelow` | packages/proxy-core/src/script.rs:196-243 | For every whitelist: the difference is accepted exactly if nothing outside changed and containers stayed objects. |
| `ConfigScript.ScriptIsConfined` | packages/proxy-core/src/script.rs:143-151 | Confinement both ways: a script's output is accepted exactly if it agrees with the baseline at every path the whitelist does not mention and log, dns and route are untouched or still objects. |
| `LogRoutes.RouteKeyIff` | packages/singbox/bridge/main.go:265-288 | A line has a key exactly if it spells it out: the first outbound mark, a tag between the first brackets, the first connection mark, and then the target; tag and target without the white space around them, neither empty. |
| `LogRoutes.LineThenRoute` | packages/singbox/bridge/main.go:199-223 | A line followed within ten seconds by the route for its key ends up with the chain of the report turned around and its source, its text and level unchanged; all other lines stay as they are. |
| `LogRoutes.RouteThenLine` | packages/singbox/bridge/main.go:235-253 | A route followed within ten seconds by the line with its key ends up on that line in the same way, and no longer waits. |
| `LogRoutes.ShownLinesAreDelivered` | packages/singbox/bridge/main.go:306-330 | The very next poll returns everything, even within the grace period, if no line past the cursor waits for a route. |
| `LogRoutes.NoBareConnectionLineIsDelivered` | packages/singbox/bridge/main.go:318-326 | A reader never gets a connection line without its route before the grace period is over. |
| `LogRoutes.StaleCursorsStartOver` | packages/singbox/bridge/main.go:309-311 | A cursor past the last number starts over with the oldest buffered line. |
| `LogBuffer.AppendKeepsValid` | packages/singbox/bridge/main.go:159-181 | Logging a line keeps the invariant: contiguous numbers, ordered times, no missed match, one route per line. |
| `LogBuffer.RecordKeepsValid` | packages/singbox/bridge/main.go:199-233 | Reporting a route keeps it too. |
| `LogBuffer.AppendKeepsFaithful` | packages/singbox/bridge/main.go:235-253 | A logged line shows chain and source of exactly the route attached to it, which has its key and was reported within ten seconds. |
| `LogBuffer.RecordKeepsFaithful` | packages/singbox/bridge/main.go:210-223 | So does a line that a reported route enriches in place. |
| `LogBuffer.RunIsValid` | packages/singbox/bridge/main.go:159-233 | In every run no waiting route and waiting line with the same key lie within ten seconds of each other, each route is attached to at most one line and each line to at most one route, a line is enriched exactly with the route attached to it, numbers are contiguous and at most 500, and chained polls deliver every line once, in order, except lines evicted before. |
| `LogBuffer.PollDelivers` | packages/singbox/bridge/main.go:306-330 | A poll delivers lines without gaps from the cursor or the oldest line, and stops only before a line that is held back. |
| `LogBuffer.LatePollsReturnEverything` | packages/singbox/bridge/main.go:306-330 | A poll at least 100 ms after the last line returns everything past the cursor. |
| `LogBuffer.PruneIsSuffix` | packages/singbox/bridge/main.go:255-263 | On an ordered list dropping a prefix agrees with looking at every route. |
| `LogBuffer.BridgeLogBuffer.PrunePendingRoutes` | packages/singbox/bridge/main.go:255-263 | The prefix loop drops exactly the routes that are too old. |
| `LogBuffer.BridgeLogBuffer.AttachPendingRoute` | packages/singbox/bridge/main.go:235-253 | The scan that stops early finds what a scan of all routes finds, and splices exactly that route out. |
| `LogBuffer.BridgeLogBuffer.AppendLine` | packages/singbox/bridge/main.go:159-181 | The method in place does what the specification says and keeps the invariant. |
| `LogBuffer.BridgeLogBuffer.Store` | packages/singbox/bridge/main.go:175-180 | A full buffer loses exactly its oldest line; the newest goes last. |
| `LogBuffer.BridgeLogBuffer.ShiftLeft` | packages/singbox/bridge/main.go:176 | The in-place shift moves every line down by one. |
| `LogBuffer.BridgeLogBuffer.RecordConnectionRoute` | packages/singbox/bridge/main.go:199-233 | The latest fitting line is enriched, otherwise the route waits; exactly as specified. |
| `LogBuffer.BridgeLogBuffer.FindWaiting` | packages/singbox/bridge/main.go:210-223 | The backward scan with its early break finds what a scan of the whole buffer finds. |
| `LogBuffer.BridgeLogBuffer.TakeSnapshot` | packages/singbox/bridge/main.go:306-330 | The poll loop returns the specified batch and cursor. |
| `CoreRestart.StartWithBindRetry` | packages/api/src/core.rs:568-587 | At most 45 attempts, repeated only while the port is taken; the answer is the last attempt's, and a running engine is left alone. |
| `CoreRestart.StartAndObserve` | packages/api/src/core.rs:633-647 | A failed start is looked into: running means this configuration runs, stopped means nothing does. |
| `CoreRestart.RestorePrevious` | packages/api/src/core.rs:650-680 | Restored means exactly the previous configuration runs, offline means nothing does, with every failure reported after its cause. |
| `CoreRestart.RestartTransaction` | packages/api/src/core.rs:683-780 | For any engine with truthful successful answers every outcome tells the truth and a failed check touches nothing. The errors of an outcome are the failures there were, in order and complete, but for the last one of a start that worked all the same. Without failures the candidate runs, and one failing request alone takes the core offline only if it is the first status read. |
| `CoreRestart.FinishRestart` | packages/api/src/core.rs:797-815 | The system proxy is disabled exactly on an offline core, success is reported exactly for the candidate, and otherwise all errors are, that of the proxy included. |
| `CoreRestart.TruthfulOutcomesKeepAgreement` | packages/api/src/core.rs:783-794 | What is stored after a restart still names what runs if it did before. |
| `CoreRestart.NativeCore.Restart` | packages/api/src/core.rs:873-892 | Engine, stored configuration and proxy together: success means the candidate runs and is stored; a failed preflight changes nothing; without failures a restart succeeds. |
| `CoreRestart.NativeCore.SwitchOn` | packages/api/src/core.rs:535-554 | Success from a stopped core means the candidate runs and is stored; an error is a failure of the engine. A failed start may leave a core running that is not stored, but never one that disagrees with what is stored. |
| `CoreRestart.NativeCore.SwitchOff` | packages/api/src/core.rs:474-507 | If the proxy cannot be disabled the core stays as it is; success means nothing runs and nothing is stored; an error is a failure of the proxy or the engine. |
| `CoreRestart.ServeRequests` | packages/api/src/core.rs:466-554 | Over any sequence of requests and core deaths the stored configuration never names anything other than what runs; without core deaths whatever is stored runs, without switching on whatever runs is stored; and restarts disable the proxy once per offline outcome. |
| `DnsPacket.ParsesWhatTheDecoderReads` | packages/mobile/android/AndroidDnsBridge.kt:283-301 | The bridge accepts exactly the queries whose one question an independent decoder (sections 4.1.1 to 4.1.4 of RFC 1035) finds uncompressed, not the root and of class IN, and reads the same name, type and end. |
| `DnsPacket.HostsHaveTheirLabels` | packages/mobile/android/AndroidDnsBridge.kt:283-301 | The host name of a question has exactly its labels between its dots, in order, unless a label has a dot of its own. |
| `DnsPacket.ReadQuestion` | packages/mobile/android/AndroidDnsBridge.kt:283-301 | The loop over the labels computes that question. |
| `DnsPacket.AddressResponseDecodes` | packages/mobile/android/AndroidDnsBridge.kt:303-322 | The response decodes to the query's id, opcode, RD and question and exactly the addresses in order, exactly for fewer than 65536 addresses; beyond that it decodes to nothing. |
| `DnsPacket.AddressResponse` | packages/mobile/android/AndroidDnsBridge.kt:303-322 | The stream writer produces those bytes. |
| `DnsPacket.DataOutputStream.WriteHeader` | packages/mobile/android/AndroidDnsBridge.kt:348-362 | The header is written field by field as specified. |
| `DnsPacket.ResponseFlagsAreMasked` | packages/mobile/android/AndroidDnsBridge.kt:356 | For every byte the two masks keep opcode and RD, clear AA and TC and set QR. |
| `DnsPacket.RecordDecodes` | packages/mobile/android/AndroidDnsBridge.kt:312-319 | An answer record decodes, through its pointer, to the name asked about. |
| `DnsPacket.ReparsingGivesTheSame` | packages/mobile/android/AndroidDnsBridge.kt:283-331 | Reading the question of a response again gives what was read from the query. |
| `DnsPacket.ErrorResponseDecodes` | packages/mobile/android/AndroidDnsBridge.kt:324-331 | An error response decodes to the question, the code and nothing else. |
| `DnsPacket.ServerFailureDecodes` | packages/mobile/android/AndroidDnsBridge.kt:333-346 | A failure response is sent exactly for packets with a header, passes the transaction check, and decodes to SERVFAIL with the question if there is one. |
| `DnsPacket.ServerFailure` | packages/mobile/android/AndroidDnsBridge.kt:333-346 | The method produces those bytes. |
| `DnsPacket.ErrorResponse` | packages/mobile/android/AndroidDnsBridge.kt:324-331 | So does this one. |
| `SingBoxConfig.DirectRoutesAreResolvedDirectly` | packages/proxy-core/src/singbox_config.rs:317-350 | In rule mode, for every name no override or LAN suffix covers: what a domain or process rule routes directly gets the direct server with IPv4 only and never a FakeIP; the two splits agree exactly if no rule for another outbound shadows a direct match. |
| `SingBoxConfig.RuleModeRoute` | packages/proxy-core/src/singbox_config.rs:138-150 | The route list decides by the first matching custom rule, then by the domestic rule set. |
| `SingBoxConfig.RuleModeAnswer` | packages/proxy-core/src/singbox_config.rs:305-350 | The DNS list answers directly exactly if any direct rule or the domestic rule set matches, wherever it stands. |
| `SingBoxConfig.ShadowedDirectRulesStillAnswer` | packages/proxy-core/src/singbox_config.rs:317-335 | The order of the route list is lost on the DNS list: a name that goes out through the proxy is resolved directly. |
| `SingBoxConfig.OverridesAgree` | packages/proxy-core/src/singbox_config.rs:379-395 | The three passes that number the enabled overrides agree: the first one covering a host decides the DNS answer, the resolve rule, the direct route and the outbound's resolver. |
| `SingBoxConfig.OverrideRoutesDecide` | packages/proxy-core/src/singbox_config.rs:118-137 | The resolve and route rules of the overrides act for the first one that covers a name. |
| `SingBoxConfig.OverrideAnswersDecide` | packages/proxy-core/src/singbox_config.rs:248-261 | So do their DNS rules. |
| `SingBoxConfig.ReferencesAreClosed` | packages/proxy-core/src/singbox_config.rs:57-240 | Whatever the request: every DNS server, outbound and rule set that is used is defined. |
| `SingBoxConfig.DnsIsClosed` | packages/proxy-core/src/singbox_config.rs:242-361 | The DNS part of it, with detours and resolvers of servers. |
| `SingBoxConfig.SelectionIsAMember` | packages/proxy-core/src/singbox_config.rs:94-109 | The selector's default is a member exactly if there is a node. |
| `SingBoxConfig.DnsServerTagsAreDistinct` | packages/proxy-core/src/singbox_config.rs:242-361 | No two DNS servers have the same tag. |
| `SingBoxConfig.OutboundTagsAreDistinct` | packages/proxy-core/src/singbox_config.rs:89-111 | Outbound tags are distinct exactly if those of the nodes are and none is reserved. |
| `SingBoxConfig.SelectionsKeepReferencesClosed` | packages/proxy-core/src/singbox_config.rs:454-480 | Whatever selections were stored, applying them leaves no dangling reference, and a selector's default stays a member. |
| `SingBoxConfig.ApplySelections` | packages/proxy-core/src/singbox_config.rs:454-480 | The loops in place set the default of a selector exactly if the stored tag is one of its members. |
| `SingBoxConfig.BuildDnsConfig` | packages/proxy-core/src/singbox_config.rs:242-361 | The builder with its growing lists makes the specified servers and rules. |
| `SingBoxConfig.BuildRouteRules` | packages/proxy-core/src/singbox_config.rs:117-150 | So does the builder of the route list. |
| `SingBoxConfig.FindOverrideTag` | packages/proxy-core/src/singbox_config.rs:379-395 | The search with its own numbering finds the tag of the first covering override. |
| `SingBoxConfig.BuildOutbounds` | packages/proxy-core/src/singbox_config.rs:89-111 | Endpoints, selector and built-in outbounds, in order. |
| `SingBoxConfig.BuildConfig` | packages/proxy-core/src/singbox_config.rs:57-240 | The whole configuration is the specified one, whose meaning the following rows state. |
| `SingBoxModes.RoutesAreAsExpected` | packages/proxy-core/src/singbox_config.rs:113-150 | In every mode, for every name and port: DNS is hijacked, overridden names go out directly, everything else directly in direct mode and through the proxy in global mode, and in rule mode as the first matching rule or the domestic set says. |
| `SingBoxModes.AddressRoutesAreAsExpected` | packages/proxy-core/src/singbox_config.rs:113-150 | The same for bare addresses: in rule mode private ones go out directly, then the first matching address or process rule decides, then the domestic set. |
| `SingBoxModes.AnswersAreAsExpected` | packages/proxy-core/src/singbox_config.rs:242-361 | In every mode every query, of whatever type, is answered by the override's server, the direct server, FakeIP or the proxied server, exactly as stated without the lists. |
| `SingBoxModes.SniffedIff` | packages/proxy-core/src/singbox_config.rs:138-139 | Exactly in rule mode the name of a connection is looked for before any rule decides. |
| `SingBoxModes.SubscriptionServerIff` | packages/proxy-core/src/singbox_config.rs:284-290 | The subscription's own server is that of the first of its name servers that can be used, and exists exactly if there is one. |
| `SingBoxModes.DefaultResolverIs` | packages/proxy-core/src/singbox_config.rs:182-189 | Outbound names are resolved by the direct server in direct mode, else by the subscription's server if one can be used, else by the bootstrap server. |
| `SingBoxModes.OverrideServersAre` | packages/proxy-core/src/singbox_config.rs:363-374 | The server of an override is reached directly, and resolved directly if it is a name. |
| `SingBoxModes.OnlyOneServerIsProxied` | packages/proxy-core/src/singbox_config.rs:242-361 | Exactly the server for proxied names is reached through the proxy. |
| `SingBoxModes.FakeIpServerIff` | packages/proxy-core/src/singbox_config.rs:337-350 | There is a FakeIP server exactly with TUN outside direct mode. |
| `SingBoxModes.SuffixesCoverWholeLabels` | packages/proxy-core/src/singbox_config.rs:379-395 | An override covers a name and what is below it, and nothing that merely ends like it. |
| `SingBoxModes.HostsAreNormalized` | packages/proxy-core/src/singbox_config.rs:383 | Hosts are compared in lower case and without trailing dots. |
| `SingBoxModes.SelectionIsKept` | packages/proxy-core/src/singbox_config.rs:95-103 | The stored node stays selected as long as it exists; otherwise the first one is. |
| `SingBoxModes.StoredSelectionsAreApplied` | packages/proxy-core/src/singbox_config.rs:454-480 | A selection stored for a selector becomes its default exactly if it is a member, and nothing else changes. |
| `SingBoxModes.NodesAreResolvedByOverrides` | packages/proxy-core/src/singbox_config.rs:379-395 | The outbound of every node names the resolver that the route list gives a connection to its server. |
| `SingBoxModes.RuleSetsAre` | packages/proxy-core/src/singbox_config.rs:151-181 | Rule sets exist exactly in rule mode; cached ones are not downloaded, the others directly. |
| `JsonText.BeginningsAreNoTexts` | packages/singbox/src/macos.rs:268-276 | No strict prefix of a serialized object is a JSON text (RFC 8259), for objects of any size and depth. |
| `JsonText.WrittenValuesAreTexts` | packages/singbox/src/macos.rs:338-343 | Every serialized value is recognized, up to its very end. |
| `JsonText.ValueStays` | packages/singbox/src/macos.rs:268-276 | What the recognizer accepts at some place it still accepts when more text follows, unless a number is left open. |
| `JsonText.BeginningsOfNumbersMayBeTexts` | packages/singbox/src/macos.rs:268-276 | It takes the braces: a number cut off may be a text. |
| `JsonText.StringsAreReadBack` | packages/singbox/src/macos.rs:338-343 | What is written between quotes stands for the string it was made from (section 7 of RFC 8259). |
| `HelperRpc.OnlyWholeRequestsAreUnderstood` | packages/singbox/src/macos.rs:792-825 | The helper understands a complete request and no beginning of one. |
| `HelperRpc.Request` | packages/singbox/src/macos.rs:250-295 | Whatever breaks and although an interrupted request is sent again, at most one of its connections makes the helper dispatch, and then exactly this action. An answer is accepted only for a request sent completely, and there is one exactly if nothing failed except, at most, one broken connection. |
| `HelperRpc.Helper.HandleConnection` | packages/singbox/src/macos.rs:792-825 | Unless the connection is refused, exactly what it makes understood is dispatched, within the size limit. |
| `HelperRpc.Session` | packages/singbox/src/macos.rs:728-825 | Over any run, what was dispatched is a subsequence of what was requested: in order, and nothing twice. If every request was answered and no connection refused, it is exactly what was requested. |
| `HelperRpc.SomeDecoderDecodes` | packages/singbox/src/macos.rs:814-820 | A decoder as these claims assume it exists for every action. |
| `HelperState.RunHelper` | packages/singbox/src/macos.rs:761-790 | The accept loop with both its exits passes through exactly the moments of the specification. |
| `HelperState.ReachableUnlessLeftWhileUp` | packages/singbox/src/macos.rs:763-790 | Over every life of a helper the published resolver is reachable at every single moment, if and only if the loop is not left by an accept error while the tunnel is up. |
| `HelperState.AcceptErrorsBreakIt` | packages/singbox/src/macos.rs:783 | A life in which it is not: the tunnel comes up, accepting fails, and the core is dropped before the resolver. |
| `HelperState.EndedHelpersLeaveNothing` | packages/singbox/src/macos.rs:763-790 | A helper that ends leaves nothing running or published, whichever way it ends. |
| `HelperState.State.Drop` | packages/singbox/src/lib.rs:211-217 | Dropped, the core stops before the resolver is withdrawn, as the fields are declared. |
| `HelperState.State.Dispatch` | packages/singbox/src/macos.rs:880-950 | Only an exit ends the helper, stop and exit leave nothing behind, stopping nothing succeeds, questions and failed starts change nothing. |
| `HelperState.State.StartTunnel` | packages/singbox/src/macos.rs:427-457 | The resolver is published only after the core runs; a failed start leaves everything as it was. |
| `HelperState.State.StopTunnel` | packages/singbox/src/macos.rs:459-464 | The resolver is withdrawn before the core stops, and both are gone whatever is reported. |
| `SubscriptionTags.TagsOfPositionsDiffer` | packages/proxy-core/src/parser.rs:823-844 | Tags made for different positions differ, whatever the names. |
| `SubscriptionTags.NumberedIsInjective` | packages/proxy-core/src/parser.rs:839-843 | Base and number can be read off a tag. |
| `SubscriptionTags.SlugsAreShort` | packages/proxy-core/src/parser.rs:823-838 | A slug has at most 36 letters, digits, hyphens and underscores, none of them a hyphen at its start, nor at its end unless it was cut. |
| `SubscriptionTags.PlainNamesAreKept` | packages/proxy-core/src/parser.rs:823-844 | A name that looks like a slug is kept whole in its tag. |
| `SubscriptionTags.EveryEntryIsAccountedFor` | packages/proxy-core/src/parser.rs:110-138 | Entries that are not skipped are nodes or reported by number, and none is both. |
| `SubscriptionTags.ParseUriLines` | packages/proxy-core/src/parser.rs:110-138 | The nodes are exactly the lines that can be parsed, in order, and the report names exactly those that cannot, or that there was none. Node i has the tag made for i, so tags are distinct and making them unique changes nothing. |
| `SubscriptionTags.ParseClashProxies` | packages/proxy-core/src/parser.rs:544-554 | The nodes are exactly the entries that can be parsed, in order, and the report names exactly the others. Tags are numbered by list position with gaps for rejected entries, distinct all the same. |
| `SubscriptionTags.UniquifyTags` | packages/proxy-core/src/parser.rs:846-855 | The loop with its map of counts gives the n-th node with a tag the number n, and changes no name. |
| `SubscriptionTags.DistinctTagsStay` | packages/proxy-core/src/parser.rs:846-855 | Distinct tags are left alone. |
| `SubscriptionTags.UniquifiedIsDistinct` | packages/proxy-core/src/parser.rs:846-855 | On any list the step makes tags distinct exactly if none already has the form it gives to a repeated one. |
| `SubscriptionTags.UniquifyingCanFail` | packages/proxy-core/src/parser.rs:846-855 | A list of three on which it fails. |
| `SubscriptionTags.OutboundsOfAReportAreDistinct` | packages/proxy-core/src/singbox_config.rs:89-111 | A configuration made from one report has distinct outbound tags, the reserved ones included. |

## Left out

- Concurrent use of the rule-set files: recovery before a request runs without the update lock (packages/api/src/rule_set_cache.rs:25-28); installs and recoveries here do not overlap.
- Directories, symbolic links and unreadable entries in the residue sweep; the listing consists of plain files.
- AtomicSweep.RunEvents: ends before a write that finds a backup contradicting its file, because a second backup would make the order of the listing decide (AtomicSweep.FailedWritesAreUndoneIff); the program itself writes all the same.
- HTTP, WebDAV collections, S3 signing, redirects and URL encoding: requests are steps that fail or take effect; URLs are the strings they are built from.
- Deletion of bundle objects by others: the program never deletes one, and the completeness claim is about the program's own runs.
- The contents of sections: their checks and encodings are parameters; the model says which section is checked when.
- SyncNoLostUpdate.NoLostUpdate: is for runs without forced pushes and without deleting the manifest, with last sync below the largest time when a remote is read; forced pushes are meant to overwrite.
- SyncTarget.SameTargetSameAddresses: compares what URLs are built from; credentials and the trimming of a user name in the request are not part of it.
- The wrap-around of 64-bit line numbers, the text of timestamps, the removal of colour codes and log levels below info: a line is what reaches the buffer.
- Resetting the log buffer: afterwards a stale cursor may skip lines once the numbers have caught up, so chained polling is stated without it.
- The rejection of Clash keys and the running of scripts before the difference is taken.
- CoreRestart.RestartTransaction: the core does not die in the middle of the transaction; it may die between two requests.
- Privileged and embedded back ends, helper permissions and prepared configurations behind the engine: an engine starts, stops and answers, or fails.
- The limit of 255 bytes for a name in RFC 1035, which neither the bridge nor the reference decoder checks.
- The receive loop, network selection and upstream queries of the DNS bridge: input and output.
- The connection settings of outbounds, TUN addresses, ports and the experimental section of the configuration: copied fields without references.
- The list of proxy groups read off a configuration: a short pass over one list.
- The helper's lease watchdog, which ends the process at once, and with it the core and the published resolver together.
- Decoding of helper requests beyond JSON itself, peer identity checks, and the checks before a privileged start: a connection may be refused and a start may fail.
- UTF-8: the JSON recognizer looks at bytes and accepts any byte above the control characters inside a string, which only makes the claim about beginnings stronger.
- Share links, Clash entries and YAML: a parser of one entry is a function that yields a name or nothing.
- Latency sessions: exactly-once delivery does not hold there, and what remains is easy.
