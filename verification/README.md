# Verified model of the S3 storage backend

This project models the S3 storage backend of the repository manager (`crates/storage/src/s3/mod.rs`), the path
type it is addressed with (`crates/core/src/storage/storage_path.rs`) and the storage-usage traversal
(`pkgly/src/app/storage_usage.rs`), and proves what their protocols keep. `dafny verify dfyconfig.toml` checks all of it.

How the system is represented:

- S3 is a map from key to object; an object has an ETag and its bytes, and an ETag determines the bytes it stands for
  (the reverse is not assumed). Conditional requests compare ETags. A request may fail, may be applied although it is
  reported as failed, and, where it matters, may be applied after it was reported as failed.
- Tasks are step machines with explicit program counters. One step is one lock acquisition, one file operation or one
  S3 request; steps of different tasks interleave without restriction. Properties are about every run.
- An `LruCache` is a sequence of distinct keys, most recent first (`Lru`). The disk is a map from file name to content.
  UUIDs are numbers that are never reused. JSON is read back as it was written; clocks are inputs.
- Equal content digests mean equal contents. For file names nothing of the kind is assumed of SHA-256: `FileNames` says
  exactly when two files share a path (`RenderCollidesIff`), and the machines speak of keys that do not collide.
- A file of the cache directory that the cache did not make is a `Foreign` name. Whether recovery takes it for one of the
  cache's own is decided by the source's tests on its spelling (`KindIsSpelled`).
- Objects that the source mutates in place are classes, each method proved equal to a function on values; the machines
  are built from the same functions, so what is proved about runs is about what the methods do.
- Each operation is also followed alone: the `Undisturbed…` lemmas say what it ends with when nothing interferes and
  every request is answered, so that the machines do what the source does and do not merely avoid errors.
- Generation counters are 64-bit and wrap. History variables (`bumps`, `stale`, `begun`) count without wrapping, and
  freshness is claimed while a key has been bumped fewer than 2^64 times.

Where the code does less than its comments or their readers might expect, the exact condition is proved:

- The saturating byte count is exact if and only if the true sum fits 64 bits (`AccountingExactIff`, `CountSaturates`).
- Casting a unit count to u32 leaves a staged upload covered by its permits if and only if the step is below 2^32 units
  (`ReserveBackedIff`, `SeedBackedIff`, `TruncatedReservation`); a rolled back append restores its entry, whatever other
  uploads did meanwhile, if and only if the size did not saturate (`RollBackRestores`), and returns its units at once if and
  only if no clone of the entry holds their permit (`RollBackReturnsUnits`).
- After a failed append the staging file is as long as recorded if and only if the failure did not tear it
  (`FailedFileFitsIff`); while none does, the files together stay within the permits on loan (`FilesStayWithinBudget`,
  `TornFileExceeds`).
- A failed staged append leaves the log intact if and only if nothing of the chunk was written or the truncation, whose
  result is ignored, succeeded (`AppendRefinesLogIff`).
- Finalising against a destination that was there before keeps the staged bytes, whatever the requests answer, if and
  only if that object already is the upload, or the upload is not empty and differs from it in size
  (`OccupiedDestinationIff`): a same-sized object is taken for an earlier attempt, and a missing length counts as zero.
- The creation-probe memo stays truthful through every call but one: an `append_file` that creates a remembered path and
  does not get the answer (`CallKeepsMemoIff`, `LostAppendMisremembers`).
- The back-off of a failed deletion stops at 25.6 s; the 30 s cap is never reached (`DelaysGrowAndStop`).
- Start-up recovery spares every valid pair of files if no misfiled metadata record claims the content of one, in whatever
  order the directory is listed, and only if so when its removals succeed (`FirstPass`; a directory that loses a pair:
  `LoseMisfiled`). It removes user files too: when its removals succeed, exactly those with a recognised name
  (`RemovedBySpelling`).
- Recovery ignores removals that fail, and so do the starts here: what it could not remove stays beside the running cache,
  which never touches it but to replace a metadata file with a new one of the same key (`LeftoversStay`).
- A key without an entry comes back after a crash if and only if both files of it were left behind: by a drop both of
  whose removals failed, and then with the content it was dropped with, or by the recovery before the run, and then as
  that pair (`ComesBackIff`, `DroppedKeyComesBack`).
- A recovery that stopped half-way and is run again returns every entry it would have, except that among pairs
  published in the same millisecond the order of the listing decides (`RestartKeepsEntries`, `TiesDependOnListing`).
- A mutation that returns an error between its S3 change and its cache call leaves the old object in the cache
  (`GivingUpLeavesStale`); without one, a key is always current outside that window (`QuietKeysAreCurrent`).

## Model

| member | source | states |
|---|---|---|
| `CacheCoherence.CacheIsCoherent` | crates/storage/src/s3/mod.rs:1171-1353 | Under any limits, over every run of readers, writers, removals and retries: an entry of a key that has not changed in S3 since its last generation bump is the present object; the entry limit holds; the byte count never exceeds the true sum, and is that sum, within its limit, whenever two sizes add up in 64 bits |
| `CacheCoherence.QuietKeysAreCurrent` | crates/storage/src/s3/mod.rs:2719-2797 | Whenever the mutation of a key is not between its S3 change and its cache call, what the cache has for the key is the present object, so a slow reader never reinstates old content; the proviso is that no mutation of that key returned an error before its cache call |
| `CacheCoherence.GivingUpLeavesStale` | crates/storage/src/s3/mod.rs:2724-2748 | After a mutation that changed S3 and then returned an error, the cache still has what the object was |
| `CacheCoherence.CacheCallSettles` | crates/storage/src/s3/mod.rs:1255-1295 | The cache call of a mutation leaves its key current: the new content is cached, or nothing is |
| `CacheCoherence.TestedGenerationStays` | crates/storage/src/s3/mod.rs:1235-1276 | Check-then-act is atomic: in every reachable state, a task past the generation test holds the publish lock and the generation is still the one tested |
| `CacheCoherence.OvertakenReadIsRefused` | crates/storage/src/s3/mod.rs:1236-1252 | A read whose key was bumped since it began is refused at the test and cannot reach the cache |
| `CacheCoherence.StepKeepsMemory` | crates/storage/src/s3/mod.rs:1084-1380 | Each of the 23 kinds of step keeps the invariant on memory, generations and S3 |
| `CacheDirectory.StepKeepsDirectory` | crates/storage/src/s3/mod.rs:1194-1467 | Each step keeps the invariant on the directory: live entries have their whole content and record on disk, records describe the content they name, doomed paths are dead |
| `CacheCrash.CrashIsAtomic` | crates/storage/src/s3/mod.rs:1194-1302 | From any start, leftovers of failed removals included: stop the run at any file operation and recover. Every key comes back as one wholly published entry (the old, the new, one on its way out, or one both of whose files were left behind), never a mix, and is missing only when the limits had no room |
| `CacheCrash.ComesBackIff` | crates/storage/src/s3/mod.rs:1391-1413 | From any start: a key without an entry that nothing is at work on comes back if and only if it was dropped in this run, its record could not be removed and the content it was dropped with is still there, and then as that content; or, not touched since the start, recovery had left both files of a valid pair, and then as that pair |
| `CacheCrash.DroppedKeyComesBack` | crates/storage/src/s3/mod.rs:1391-1413 | Of any live key: a removal whose two deletions fail ends with the key dropped from memory and its entry on disk as before |
| `CacheCrash.RecoveryRoundTrip` | crates/storage/src/s3/mod.rs:914-1077 | With no publication or removal under way and of no key without an entry both files left behind, recovery rebuilds exactly the entries that memory held and evicts none |
| `CacheCrash.QuietDiskMirrorsMemory` | crates/storage/src/s3/mod.rs:1253-1301 | Then the disk gives a key an entry exactly when memory does, and the same one; any other metadata file is one that could not be removed |
| `CacheCrash.DeletionsAreHarmless` | crates/storage/src/s3/mod.rs:1391-1467 | In every reachable state no path queued for deletion, being deleted or being retried is the content of a live entry or of a publication under way, and the queue stays within 1024 |
| `CacheCrash.LiveFilesAreThere` | crates/storage/src/s3/mod.rs:1084-1123 | The content file of a live entry is always on disk, whole, with the size and digest recorded |
| `CacheCrash.LeftoversStay` | crates/storage/src/s3/mod.rs:1194-1302 | Over every run: content, temporary and user files that no entry stands on at the start stay as they are, and a leftover metadata file stays until a publication of its key replaces it |
| `CacheInheritance.StepKeepsInherits` | crates/storage/src/s3/mod.rs:1194-1467 | Each step keeps every file as it was found at the start or newer, and leaves the files no entry stood on alone |
| `CacheRestarts.StartFromRecovery` | crates/storage/src/s3/mod.rs:793-816 | Whichever removals of the recovery failed, and whatever earlier recoveries that stopped half-way took away: on a sound directory the running cache starts with its invariant, and no leftover record claims the content of a valid pair |
| `CacheRestarts.Start` | crates/storage/src/s3/mod.rs:793-816 | The constructor: recovery, the sum of sizes and empty counters make such a start |
| `CacheRestarts.CrashLeavesSound` | crates/storage/src/s3/mod.rs:1194-1302 | A crash at any moment of any run leaves a directory on which no misfiled record claims a valid pair, so that the next recovery is exact |
| `CacheRestarts.EveryLifeStartsFresh` | crates/storage/src/s3/mod.rs:793-816 | After any number of lives, each ended by a crash and followed by recoveries that failed to remove files or stopped half-way, the next one starts with the invariant, so all that is proved of a run holds of every life |
| `CacheRestarts.RestartKeepsEntries` | crates/storage/src/s3/mod.rs:1047-1076 | After a recovery that stopped at any removal, the next one returns every entry that it would have returned and whose publication time no other pair shares |
| `CacheRestarts.TiesDependOnListing` | crates/storage/src/s3/mod.rs:1047-1076 | Two pairs published at the same time with room for one: which of them recovery returns depends on the listing |
| `CacheCrash.MisfiledRecordClaims` | crates/storage/src/s3/mod.rs:975-986 | A concrete directory on which a misfiled record names the content of another key's valid pair |
| `CacheCrash.LoseMisfiled` | crates/storage/src/s3/mod.rs:975-986 | On that directory, in whatever order it is listed, a first pass whose removals succeed deletes the content of the valid pair |
| `CacheLeftovers.StepKeepsTracked` | crates/storage/src/s3/mod.rs:1391-1467 | Each step keeps the history of failed removals true: a key whose record could not be removed is dead, its record still names the content it was dropped with, and that content is gone or could not be removed |
| `CacheRecovery.RecoverEntries` | crates/storage/src/s3/mod.rs:914-1077 | On every directory nothing is altered and no file with an unrecognised name is removed; on a sound one the result is the newest valid pairs that fit both limits and both files of each are kept, whatever became of the removals, and when all succeed only those pairs and unrecognised names remain |
| `CacheRecovery.FewerFilesAreSound` | crates/storage/src/s3/mod.rs:914-1077 | Taking files away keeps a directory sound, so it is after a recovery that stopped half-way |
| `CacheRecovery.RemovedBySpelling` | crates/storage/src/s3/mod.rs:1020-1045 | When all its removals succeed, recovery of a sound directory removes exactly the names, in two-digit hexadecimal directories, that one of the four tests accepts and no recovered entry stands on |
| `CacheRecovery.Examine` | crates/storage/src/s3/mod.rs:937-1016 | Where no misfiled record claims a valid pair, a metadata file is accepted exactly when it and its content form one; anywhere, a rejected one goes when its removal succeeds, with the content it claims when it is misfiled |
| `CacheRecovery.FirstPass` | crates/storage/src/s3/mod.rs:919-1018 | Where no misfiled record claims a valid pair the scan spares them all and finds exactly those, whatever the order of the listing; where one does, a scan whose removals succeed loses the claimed content; no file with an unrecognised name is removed |
| `CacheRecovery.SecondPass` | crates/storage/src/s3/mod.rs:1020-1045 | The sweep removes the files whose names are recognised and that belong to no accepted pair, and nothing else |
| `CacheRecovery.Rebuild` | crates/storage/src/s3/mod.rs:1047-1072 | Inserting the pairs oldest first leaves the longest most-recent list that fits both limits, and names what it dropped |
| `CacheRecovery.RemoveEvicted` | crates/storage/src/s3/mod.rs:1073-1082 | Content and metadata of what the limits dropped are removed, nothing else |
| `CacheRecovery.SortByTimeSorts` | crates/storage/src/s3/mod.rs:1047 | The candidates are put in the order of their times |
| `CacheRecovery.SortByTimeIsStable` | crates/storage/src/s3/mod.rs:1047 | Of two candidates of one time, the one listed first stays first |
| `CacheRecovery.ValidPairMeans` | crates/storage/src/s3/mod.rs:937-1016 | A pair is valid exactly when the record of the present version stands under its key's name and names a content file of the size and digest it states, within the byte limit |
| `CacheMemory.InsertIsExactLru` | crates/storage/src/s3/mod.rs:1255-1295 | After a publication the entries are the longest most-recent prefix of the new key and the old order that satisfies both limits; the new key is first; the count is exact |
| `CacheMemory.AccountingExactIff` | crates/storage/src/s3/mod.rs:1286 | The count stays exact if and only if the sum before eviction fits 64 bits |
| `CacheMemory.CountSaturates` | crates/storage/src/s3/mod.rs:1286 | Two sizes that add up to 2^64: the count stays at the limit and the cache above it |
| `CacheMemory.InsertKeepsOrderly` | crates/storage/src/s3/mod.rs:1255-1295 | Under any limits an insertion keeps its entry, first, the entry limit, and a count that never exceeds the true sum |
| `CacheMemory.TrimIsLongest` | crates/storage/src/s3/mod.rs:1270-1294 | Trimming gives a prefix that fits both limits, and no longer prefix fits |
| `CacheMemory.TrimUnique` | crates/storage/src/s3/mod.rs:1270-1294 | A fitting prefix followed by one that does not fit is that prefix |
| `CacheMemory.TrimOfTrim` | crates/storage/src/s3/mod.rs:1051-1072 | Inserting one entry at a time ends where inserting all at once and trimming does |
| `CacheMemory.RemoveKeepsAccounts` | crates/storage/src/s3/mod.rs:1307-1319 | A removal keeps the count exact, and its subtraction never saturates |
| `CacheMemory.PromoteKeepsAccounts` | crates/storage/src/s3/mod.rs:1086-1092 | A lookup keeps the count exact |
| `CacheMemory.InsertSplits` | crates/storage/src/s3/mod.rs:1264-1300 | What an insertion drops is a tail of the recency order, handed over for deletion in pop order |
| `CacheMemory.InsertEvictsAll` | crates/storage/src/s3/mod.rs:1270-1300 | Every entry dropped for room goes for deletion |
| `CacheMemory.InsertEvicts` | crates/storage/src/s3/mod.rs:1270-1300 | Nothing but entries dropped for room goes for deletion |
| `CacheMemory.InsertSupersedes` | crates/storage/src/s3/mod.rs:1264-1269 | The superseded content is exactly the old path of the same key |
| `CacheMemory.LookedUpGoesLast` | crates/storage/src/s3/mod.rs:1086-1092 | A key just looked up is the last of the old ones to go: through any publications of other keys, while any old pair is left, this one is |
| `CacheMemory.InsertKeepsOrder` | crates/storage/src/s3/mod.rs:1255-1295 | Of two old pairs a publication of another key keeps the order, and never drops the later used one alone |
| `CacheMemory.EvictOverMeans` | crates/storage/src/s3/mod.rs:1287-1294 | Popping by the byte count goes from the end, no further than the count demands, and hands over the paths in the order popped |
| `CacheMemory.MakeRoomMeans` | crates/storage/src/s3/mod.rs:1270-1275 | A full list gives up its last pair, any other nothing |
| `CacheMemory.InsertBumps` | crates/storage/src/s3/mod.rs:1256-1263 | A mutation's publication advances the counter of its key, wrapping, and a read's leaves all counters alone |
| `CacheStates.CacheState.InsertPublished` | crates/storage/src/s3/mod.rs:1255-1295 | The locked block of `publish` makes the state, the superseded path and the evicted paths of the specification |
| `CacheStates.CacheState.RemoveWhen` | crates/storage/src/s3/mod.rs:1305-1385 | The locked block of the three removals, on pairs and counters: when the condition holds the counter advances and the pair of the key goes, nothing otherwise |
| `CacheStates.CacheState.Get` | crates/storage/src/s3/mod.rs:1086-1092 | A lookup that finds its key returns the entry, moves that pair to the front and leaves the others in their order, by index; one that does not changes nothing |
| `CacheStates.CacheState.EvictForEntry` | crates/storage/src/s3/mod.rs:1270-1275 | A full cache gives up its least recent entry |
| `CacheStates.CacheState.EvictForBytes` | crates/storage/src/s3/mod.rs:1287-1294 | Least recent entries go until the count is within the limit |
| `CacheStates.CacheState.PushFailedDeletion` | crates/storage/src/s3/mod.rs:766-776 | A full queue loses its oldest element to a new one |
| `CacheStates.CacheState.EnqueueFailedDeletion` | crates/storage/src/s3/mod.rs:1415-1418 | A deletion that failed is queued with no attempts and due in 100 ms |
| `CacheStates.CacheState.DrainDue` | crates/storage/src/s3/mod.rs:778-789 | A drain takes a FIFO prefix of ready entries, at most 64, and stops only at an unready one, the end or 64 |
| `CacheStates.CacheState.RetryFailedDeletions` | crates/storage/src/s3/mod.rs:1420-1467 | Every due deletion is tried once; those that failed return in order behind the queue, with their path, one attempt more and the time of the next; the queue keeps the last 1024; only due paths leave the disk, and all that did not fail have left it |
| `CacheStates.DelaysGrowAndStop` | crates/storage/src/s3/mod.rs:754-762 | Delays never decrease and stop at 25.6 s, below the 30 s cap |
| `CacheStates.PushLosesOldestOnly` | crates/storage/src/s3/mod.rs:766-776 | A push loses an element only when the queue is full, and then the oldest |
| `CacheStates.PushedAllKeepsLast` | crates/storage/src/s3/mod.rs:1460-1466 | Several pushes keep the last 1024 of the old queue and the new elements |
| `CacheStates.ConditionMeans` | crates/storage/src/s3/mod.rs:1305-1385 | The three conditions of a removal, on the pairs and the counters |
| `CachePublications.StoredAsGiven` | crates/storage/src/s3/mod.rs:1207-1284 | Over every run: an entry in memory that was not there at the start carries the content, content type and date given to the publication that made it, and its record on disk the time as well |
| `CachePublications.LaterRanksFirst` | crates/storage/src/s3/mod.rs:1047-1072 | When the times of a run's publications increase, recovery never gives up the later published of two pairs for the earlier |
| `CacheUndisturbed.UndisturbedSave` | crates/storage/src/s3/mod.rs:1194-1302 | From any state: a save that nobody disturbs is possible to the end, and ends with its entry first, its content and record on disk as given, what it replaced or evicted gone from the disk, and neither lock nor key held |
| `CacheUndisturbed.UndisturbedRead` | crates/storage/src/s3/mod.rs:1171-1302 | So does a read through the cache, with the object it read |
| `CacheUndisturbed.UndisturbedDrop` | crates/storage/src/s3/mod.rs:1305-1413 | A removal that nobody disturbs takes out the entry and exactly its two files if its condition held, and nothing otherwise |
| `CacheUndisturbed.UndisturbedUncache` | crates/storage/src/s3/mod.rs:1154-1157 | A mutation whose cache call is a removal ends with the object changed and the entry and its files gone |
| `CacheUndisturbed.UndisturbedOversizedRead` | crates/storage/src/s3/mod.rs:1180-1183 | A read of an object above the byte limit ends with the older entry and its files gone |
| `CacheUndisturbed.OvertakenOversizedRead` | crates/storage/src/s3/mod.rs:1327-1340 | If the key was bumped since such a read began, nothing is touched |
| `CacheUndisturbed.RefusedReadLeavesNothing` | crates/storage/src/s3/mod.rs:1247-1251 | A refused publication leaves memory as it was and the directory without its two temporary files |
| `CacheUndisturbed.UndisturbedRetry` | crates/storage/src/s3/mod.rs:1420-1467 | A retry whose removals succeed takes the first queued files away and off the queue; one whose removals fail queues them behind the others |
| `CacheUndisturbed.GivingUpEnds` | crates/storage/src/s3/mod.rs:1194-1254 | A task that gives up holds neither lock nor key and changes neither memory nor S3; a part of the file it was writing may stay behind as a temporary file |
| `FileNames.RecognisedForWhatItIs` | crates/storage/src/s3/mod.rs:850-880 | Recovery classifies every file name a publication produces as what it is |
| `FileNames.KindIsSpelled` | crates/storage/src/s3/mod.rs:1031-1040 | Recovery's tests, put to the spelling of any name in the directory, give the kind the model uses for it |
| `FileNames.KindsAreDisjoint` | crates/storage/src/s3/mod.rs:850-880 | No name whatever is of two kinds |
| `FileNames.Spelling` | crates/storage/src/s3/mod.rs:818-848 | The four spellings of a publication, and that the hashed name is 62 hexadecimal digits |
| `FileNames.MetadataOfGeneration` | crates/storage/src/s3/mod.rs:825-836 | Every generation of a key has the one metadata file of that key |
| `FileNames.RenderCollidesIff` | crates/storage/src/s3/mod.rs:818-848 | Two files of the cache share a path if and only if they are of one form and their keys' hashes and their suffixes collide |
| `FileNames.RenderIsInjective` | crates/storage/src/s3/mod.rs:818-848 | Different files never share a path while the hashes of their two keys and the UUIDs do not collide |
| `FileNames.NamingsExist` | crates/storage/src/s3/mod.rs:818-848 | There are namings of the assumed form: 64 hexadecimal digits for a key, hexadecimal suffixes |
| `FileNames.LayoutAcceptsOwnGenerations` | crates/storage/src/s3/mod.rs:960-974 | Of all names in the directory, the cache's or not, the layout test accepts the generations of that key's hash and nothing else |
| `FileNames.ExpectedMetadata` | crates/storage/src/s3/mod.rs:961-976 | Of all names in the directory, the expected metadata file of a key is the one of that key's hash |
| `Lru.PutKeeps` | crates/storage/src/s3/mod.rs:1276-1285 | `put` keeps keys distinct and the size within capacity, and only drops or replaces pairs |
| `Lru.PromoteKeeps` | crates/storage/src/s3/mod.rs:1088 | `get` keeps exactly the pairs it found, and a pair it found stands first |
| `Lru.PromoteMoves` | crates/storage/src/s3/mod.rs:1088 | `get` takes the pair of its key to the front and leaves the others in their order, stated by index |
| `Lru.WithoutIsCut` | crates/storage/src/s3/mod.rs:1315-1318 | `pop` takes out the pair of its key, wherever it stands, and leaves the others in their order |
| `Lru.PutReplaces` | crates/storage/src/s3/mod.rs:1276-1285 | `put` of a key that is there sets its new pair in front and takes the old one out |
| `Lru.PutAdds` | crates/storage/src/s3/mod.rs:1276-1285 | `put` of a new key sets its pair in front, and drops the last pair of a full cache and no other |
| `StagingBudget.BudgetIsConserved` | crates/storage/src/s3/mod.rs:2230-2261 | Over every run: available plus held permits make the total, no permit is held by nobody, every staged size is covered by its own permits, the sizes together stay within 64 GiB and the entries within 64 |
| `StagingBudget.ApplyKeeps` | crates/storage/src/s3/mod.rs:2090-2113 | Every operation on the budget keeps the invariant |
| `StagingBudget.RollBackRestores` | crates/storage/src/s3/mod.rs:3773-3807 | Whatever other uploads reserve, publish, drop or clone while an append writes, rolling it back restores its entry if and only if the size did not saturate, and its permits and units always |
| `StagingBudget.RollBackReturnsUnits` | crates/storage/src/s3/mod.rs:2253-2261 | The units are available again at once unless a clone of the entry holds their permit |
| `StagingBudget.ReleaseUndoesReserve` | crates/storage/src/s3/mod.rs:2233-2261 | Released at once, a reservation leaves no trace in budget, holders and map if and only if the size did not saturate |
| `StagingBudget.ReserveBackedIff` | crates/storage/src/s3/mod.rs:2233-2249 | After a reservation the entry is covered by its permits if and only if the units it lacked are fewer than 2^32 |
| `StagingBudget.TruncatedReservation` | crates/storage/src/s3/mod.rs:2233-2249 | 4 PiB are reserved against a permit of no units |
| `StagingBudget.SeedBackedIff` | crates/storage/src/s3/mod.rs:2031-2049 | An upload seeded from an object is covered if and only if the object is below 2^32 units |
| `StagingBudget.SizesWithinPermits` | crates/storage/src/s3/mod.rs:2573-2575 | Staged sizes together stay within the permits on loan |
| `StagingBudget.ReserveAdmitsIff` | crates/storage/src/s3/mod.rs:2233-2249 | Exactly when a reservation is admitted, and that it takes what the upload lacks and no more |
| `StagingBudget.HoldAdmitsIff` | crates/storage/src/s3/mod.rs:2031-2049 | Exactly when the permits for a file to be seeded are taken |
| `StagingBudget.PublishesIff` | crates/storage/src/s3/mod.rs:2090-2113 | A seeded file is published exactly when its path is not staged and fewer than 64 are, with the permits taken for it |
| `StagingBudget.ReleaseMeans` | crates/storage/src/s3/mod.rs:2253-2261 | A release gives back the size, the units and the last permit of this entry, and touches no other |
| `StagingBudget.UnstageReturnsUnits` | crates/storage/src/s3/mod.rs:2132-2141 | An upload that leaves the map gives back all its units when nothing else holds its permits |
| `StagingBudget.CloneKeepsPermits` | crates/storage/src/s3/mod.rs:2253-2261 | A clone keeps the permits of its entry on loan after the entry is gone |
| `StagingBudget.UndisturbedLife` | crates/storage/src/s3/mod.rs:2031-2113 | From any state with room: an upload that nothing disturbs is taken in, published and grows to its size on just the units that size needs, and gives all of them back when it is removed |
| `StagingBudget.StagingArea.ReserveStagedSize` | crates/storage/src/s3/mod.rs:2233-2249 | Admitted exactly when the upload is staged and the units it lacks, cast to u32, are available; then just those are taken and the size grows; a refusal changes nothing |
| `StagingBudget.StagingArea.ReleaseStagedSize` | crates/storage/src/s3/mod.rs:2253-2261 | The method makes the state of the specification: size, units and last permit given back |
| `StagingBudget.StagingArea.TryAcquire` | crates/storage/src/s3/mod.rs:2239-2243 | Permits are taken exactly when as many are available, under a fresh handle; otherwise nothing changes |
| `StagedUpload.NothingIsLost` | crates/storage/src/s3/mod.rs:3006-3086 | From an absent destination nobody else writes, through any failures, retries and late requests: the base and exactly the chunks whose append returned Ok, in order, are in staging or at the destination, and after Ok at the destination |
| `StagedUpload.AppendRefinesLogIff` | crates/storage/src/s3/mod.rs:3766-3807 | An append extends the log by the whole chunk or by nothing, if and only if it does not leave written bytes that could not be cut off |
| `StagedUpload.TruncationRepairs` | crates/storage/src/s3/mod.rs:3797-3807 | A later failure whose truncation succeeds repairs the file |
| `StagedUpload.OnlyTheBaseIsDeleted` | crates/storage/src/s3/mod.rs:3062-3074 | Of the source only the version the upload started from is deleted, when all its bytes are at the destination |
| `StagedUpload.OccupiedDestinationIff` | crates/storage/src/s3/mod.rs:3034-3060 | Against a destination that was there before, the staged bytes survive every answer if and only if it is the upload, or the upload is not empty and differs from it in size |
| `StagedUpload.OkIffDeleted` | crates/storage/src/s3/mod.rs:3062-3084 | Over every run: a finalisation has returned Ok if and only if the deletion of the base was accepted |
| `StagedUpload.UndisturbedUpload` | crates/storage/src/s3/mod.rs:3006-3084 | An upload whose requests all succeed ends, with the base and the chunks in order at the destination, the source gone and nothing staged |
| `StagedUpload.UndisturbedFinalise` | crates/storage/src/s3/mod.rs:3020-3084 | From any staged upload whose base is unchanged: PUT and DELETE accepted end the finalisation with the file at the destination |
| `StagedUpload.UndisturbedRetry` | crates/storage/src/s3/mod.rs:3034-3060 | A retry that finds an object of the staged size at the destination goes on to the deletion and ends |
| `StagedUpload.RefusedAttemptKeepsStaging` | crates/storage/src/s3/mod.rs:3034-3076 | An attempt that a request refuses ends with the upload still staged, so that it can be made again |
| `StagedUpload.LatePutArrives` | crates/storage/src/s3/mod.rs:3020-3060 | A PUT reported as failed may arrive after the attempt has ended; then the destination has the file while it is still staged |
| `StagedUpload.MistakenRetryLoses` | crates/storage/src/s3/mod.rs:3039-3060 | A same-sized other object is taken for the upload, which returns Ok and drops the staged bytes |
| `StagedUpload.StagingFile.Append` | crates/storage/src/s3/mod.rs:3766-3811 | The method leaves the file and size of the specification, and reports Ok exactly for a written and flushed chunk |
| `StagedSpace.FilesStayWithinBudget` | crates/storage/src/s3/mod.rs:3766-3811 | Over every run of seedings, interleaved appends with partial writes, failures and removals none of which tears a file: the staging files of the uploads in the map together take no more bytes than the permits on loan stand for, hence at most 64 GiB |
| `StagedSpace.FailedFileFitsIff` | crates/storage/src/s3/mod.rs:3797-3807 | After a failed append the file is as long as recorded if and only if no written bytes were left that could not be cut off, and never shorter |
| `StagedSpace.TornFileExceeds` | crates/storage/src/s3/mod.rs:3797-3807 | A run that ends with bytes in a staging file and every permit back |
| `StagedSpace.AppendIsMoves` | crates/storage/src/s3/mod.rs:3766-3811 | Reserving, writing and ending an append do to file and size what the one-step append of `StagedUpload` does |
| `StagedSpace.UndisturbedUpload` | crates/storage/src/s3/mod.rs:3766-3811 | So with its file: seeded and appended to it has all its bytes, and once removed it leaves neither file nor loan |
| `AppendFile.NoLostUpdate` | crates/storage/src/s3/mod.rs:2805-2870 | For any interleaved appends, overwrites and lost answers: the object is what was last put there followed by the committed chunks, each once, in commit order; every call that ended has committed; commits keep their place |
| `AppendFile.CommitAppends` | crates/storage/src/s3/mod.rs:2841-2866 | A PUT whose condition holds appends its chunk to what is there at that moment |
| `AppendFile.SecondWriterIsRefused` | crates/storage/src/s3/mod.rs:2855-2858 | Of two calls that read the same version, once one commits the other's condition fails |
| `AppendFile.OkIffAccepted` | crates/storage/src/s3/mod.rs:2855-2870 | Over every run: a call has returned Ok if and only if a PUT of it was applied and answered so; one whose answer was lost has not, though it may have committed |
| `AppendFile.UndisturbedAppend` | crates/storage/src/s3/mod.rs:2805-2870 | An append that nothing disturbs adds its chunk to what is there and returns Ok |
| `AppendFile.LostPutMayCommit` | crates/storage/src/s3/mod.rs:2855-2865 | An append whose PUT is reported as failed may still be applied, at once or later; it commits and does not return Ok |
| `MultipartCopy.RangesPartition` | crates/storage/src/s3/mod.rs:2319-2325 | For every size the ranges are non-empty, contiguous and cover the object; all but the last have the part size; there are at most 10,000 |
| `MultipartCopy.PartSizeIsLeast` | crates/storage/src/s3/mod.rs:2319 | No smaller part size of at least 64 MiB would do with 10,000 parts |
| `MultipartCopy.PartsMakeTheObject` | crates/storage/src/s3/mod.rs:2323-2325 | The copied parts, joined in order, are the source |
| `MultipartCopy.NumberedIsJoined` | crates/storage/src/s3/mod.rs:2337-2392 | Numbered upwards from 1, the parts make an acceptable completion, and in ascending order of their numbers are the parts as uploaded |
| `MultipartCopy.Destination.Complete` | crates/storage/src/s3/mod.rs:2371-2392 | A completion makes the object of the parts in ascending order of their numbers, if those are distinct and within 1 to 10,000, and is refused otherwise |
| `MultipartCopy.RangeOf` | crates/storage/src/s3/mod.rs:2323-2325 | The 64-bit arithmetic computes the specified range without overflow for sizes below 2^63 |
| `MultipartCopy.Destination.MultipartCopy` | crates/storage/src/s3/mod.rs:2319-2392 | Ok exactly when every guarded part and the completion succeed, and then what S3 assembles from the parts by their numbers is the version measured; on an error it is untouched unless only the answer of the completion was lost |
| `GuardedMove.MoveKeepsContent` | crates/storage/src/s3/mod.rs:3089-3157 | With no other writer of the destination: what was deleted is there; with none of the source either, the content is at the source or the destination in every state, and at the destination after Ok(true) |
| `GuardedMove.OnlyCopiedVersionsAreDeleted` | crates/storage/src/s3/mod.rs:3114-3144 | Whatever others write, only the version that was measured and copied is ever deleted |
| `GuardedMove.StepKeepsInv` | crates/storage/src/s3/mod.rs:3089-3157 | Every request, late request and overwrite keeps the invariant of the move |
| `GuardedMove.AnswersIff` | crates/storage/src/s3/mod.rs:3089-3157 | Over every run: Ok(true) if and only if the delete was accepted, Ok(false) if and only if the HEAD was answered and there was no source, an error if and only if a request failed or the version has no ETag |
| `GuardedMove.HeadChooses` | crates/storage/src/s3/mod.rs:3106-3125 | A version is copied by parts exactly when a length was given and is above 5 GiB |
| `GuardedMove.UndisturbedMove` | crates/storage/src/s3/mod.rs:3089-3157 | A move whose requests all succeed ends with Ok(true), the object at the destination and the source gone |
| `GuardedMove.UndisturbedMoveByParts` | crates/storage/src/s3/mod.rs:3089-3157 | So does the move of an object above 5 GiB, by parts |
| `GuardedMove.LateCopyArrives` | crates/storage/src/s3/mod.rs:3114-3129 | A copy reported as failed may arrive after the move has returned its error, and leaves the source as it is |
| `GuardedMove.LateDeleteArrives` | crates/storage/src/s3/mod.rs:3135-3157 | So may a delete, of the copied version |
| `ManifestCaches.ServedListingsAreFresh` | crates/storage/src/s3/mod.rs:3958-3984 | Over every run with concurrent writers: a served listing has not expired, began after the last completed invalidation, and equals a fresh listing when no change is in flight |
| `ManifestCaches.StepKeepsInv` | crates/storage/src/s3/mod.rs:1537-1586 | Every listing step, change and invalidation keeps the invariant |
| `ManifestCaches.PagesJoin` | crates/storage/src/s3/mod.rs:3976 | Pages read at different moments of an unchanged repository make up its listing |
| `ManifestCaches.ManifestCache.Get` | crates/storage/src/s3/mod.rs:1545-1552 | An unexpired listing is served and moved to the front, the others in their order, by index; otherwise nothing is served, and only an expired listing of the repository goes |
| `ManifestCaches.ManifestCache.InsertIfGeneration` | crates/storage/src/s3/mod.rs:1564-1574 | A listing is kept, first and for 30 s, exactly under the generation it began with |
| `ManifestCaches.ManifestCache.Invalidate` | crates/storage/src/s3/mod.rs:1580-1586 | The generation advances, wrapping, and the entry goes |
| `ManifestCaches.AfterGetFound` | crates/storage/src/s3/mod.rs:1545-1552 | A lookup takes an unexpired listing to the front and drops an expired one, leaving the order of the others, by index |
| `ManifestCaches.InsertedAdds` | crates/storage/src/s3/mod.rs:1554-1562 | A new listing stands first and expires in 30 s; a full cache loses its last listing to it |
| `ManifestCaches.UndisturbedListingIsServed` | crates/storage/src/s3/mod.rs:3958-3984 | A listing during which nothing changes, however it is paged, is kept and served unchanged for 30 s |
| `ManifestCaches.UndisturbedChange` | crates/storage/src/s3/mod.rs:1580-1586 | A change and its invalidation leave the object changed, no listing of the repository, those of the others, and the generation one further |
| `LockTables.OneAtATime` | crates/storage/src/s3/mod.rs:2194-2228 | In every interleaving of clones and drops with lookups that read one count at a time, all handles of a key are of the one lock in the table, so critical sections of one key never overlap and different keys never share a lock |
| `LockTables.EntersIff` | crates/storage/src/s3/mod.rs:2194-2228 | In every interleaving, a handle gets into its critical section if and only if no handle of its key is inside |
| `LockTables.PruneKeeps` | crates/storage/src/s3/mod.rs:2221-2223 | No reading of a count drops a lock that anybody has a handle of, whatever came between the readings |
| `LockTables.SweepDropsIff` | crates/storage/src/s3/mod.rs:2222 | A reading drops the lock if and only if nobody has a handle of it at that moment |
| `LockTables.SweepKeepsIff` | crates/storage/src/s3/mod.rs:2222 | A pass keeps, of the keys it reads, precisely those that somebody has a handle of when it reads them |
| `LockTables.TableStaysSmall` | crates/storage/src/s3/mod.rs:2206-2216 | A lookup in a table above its capacity leaves only the locks it found in use and the one looked up; any other adds at most one |
| `LockTables.LockTable.Retain` | crates/storage/src/s3/mod.rs:2222 | One pass drops exactly the locks only the table refers to |
| `LockTables.LockTable.Lookup` | crates/storage/src/s3/mod.rs:2219-2228 | The lock is the key's one in the table, or a new one counted twice if there was none to stay; a lookup in a table above its capacity leaves exactly the other locks that are in use, any other leaves them all |
| `LockTables.LookedUpMeans` | crates/storage/src/s3/mod.rs:2219-2228 | What a lookup does to the map of locks and to the reference count of the key's lock, stated on the maps |
| `LockTables.LookupAlone` | crates/storage/src/s3/mod.rs:2219-2228 | A lookup read step by step with nothing in between is the specification of the method |
| `CreationProbes.MemoAgreesWithPlainWalk` | crates/storage/src/s3/mod.rs:2412-2449 | After every run of calls none of which misremembers (see `CallKeepsMemoIff`), whatever the memo evicted, a path is accepted exactly when no proper ancestor is a concrete object |
| `CreationProbes.CallKeepsMemoIff` | crates/storage/src/s3/mod.rs:2182-2192 | A call keeps the memo free of concrete objects if and only if it is not an append that creates a remembered path without getting the answer |
| `CreationProbes.NotedIsForgotten` | crates/storage/src/s3/mod.rs:2182-2188 | After every call that comes to note a created path the memo does not hold it, so that the next walk asks S3 again |
| `CreationProbes.AppendedRefusesBelow` | crates/storage/src/s3/mod.rs:2858-2867 | After an append that was answered, whatever the memo held, every path below the new object is refused |
| `CreationProbes.MovedRefusesBelow` | crates/storage/src/s3/mod.rs:3106-3132 | After a move, every path below its destination is refused |
| `CreationProbes.WalkRemembers` | crates/storage/src/s3/mod.rs:2428-2444 | An accepted walk remembers each proper ancestor, unless the walk itself pushed it out of the memo |
| `CreationProbes.SecondWalkAsksNothing` | crates/storage/src/s3/mod.rs:2428-2444 | With room in the memo, the next walk to an accepted location is decided without regard to the objects there are |
| `CreationProbes.LostAppendMisremembers` | crates/storage/src/s3/mod.rs:2858-2867 | Two calls after which the memo accepts a path below a concrete object |
| `CreationProbes.PlainWalkMeaning` | crates/storage/src/s3/mod.rs:2412-2449 | The walk accepts exactly when no proper ancestor is concrete, and otherwise names the shortest that is |
| `CreationProbes.MemoWalkIsPlain` | crates/storage/src/s3/mod.rs:2428-2444 | On a truthful memo the memoised walk decides as the plain one and leaves the memo truthful |
| `CreationProbes.AncestorKeyText` | crates/storage/src/s3/mod.rs:1822-1824 | The keys the walk builds are the repository, a slash and the components' text |
| `CreationProbes.Creator.PathFor` | crates/storage/src/s3/mod.rs:2412-2449 | The loop computes the specified walk and memo, and decides as the plain walk |
| `CreationProbes.Creator.NoteObjectCreated` | crates/storage/src/s3/mod.rs:2184-2188 | The path is forgotten and every other pair stays, so the memo is truthful of S3 with an object under that path |
| `StoragePaths.UntrustedRoundTrip` | crates/core/src/storage/storage_path.rs:111-122 | Untrusted text is accepted exactly when the text itself has no leading or double slash, backslash, NUL or dot segment; then it prints exactly as given, so no two texts give one path |
| `StoragePaths.ReparsingKeepsPath` | crates/core/src/storage/storage_path.rs:200-232 | Reparsing a printed path keeps components, text and kind, and gives the same path exactly when its slash marker is the one its text calls for |
| `StoragePaths.ParsingIsStable` | crates/core/src/storage/storage_path.rs:214-232 | Printing and reparsing a parsed path changes nothing |
| `StoragePaths.MarkerMeans` | crates/core/src/storage/storage_path.rs:14-22 | A parsed path is marked a directory exactly when its text ends with a slash, a file exactly when it does not and some component has a dot, and otherwise is left undecided |
| `StoragePaths.SplitFindsSegments` | crates/core/src/storage/storage_path.rs:216-226 | Splitting finds exactly the pieces delimited by slashes or the ends |
| `StoragePaths.UntrustedStaysBelowRoot` | crates/core/src/storage/storage_path.rs:101-108 | An accepted path resolves to the place below any root that its components name |
| `StoragePaths.PushTwice` | crates/core/src/storage/storage_path.rs:146-151 | Pushing twice has the components of pushing the joined text; the last push decides the marker |
| `StoragePaths.PushPrints` | crates/core/src/storage/storage_path.rs:146-151 | Pushed text prints behind a slash |
| `StoragePaths.ParentOfPush` | crates/core/src/storage/storage_path.rs:123-132 | The parent of a pushed component is the directory it was pushed to |
| `StoragePaths.PathBuilder.PushMut` | crates/core/src/storage/storage_path.rs:152-157 | The method makes the pushed path and keeps paths well-formed |
| `StorageUsage.RepositoryStorageUsage` | pkgly/src/app/storage_usage.rs:125-203 | The traversal terminates with the recursive sum of what can be read, as a 64-bit number; with the size of all files when all can be read and fits; with an error exactly when the root cannot be listed |
| `StorageUsage.UsageMissesUnreadable` | pkgly/src/app/storage_usage.rs:168-171 | What the sum misses is exactly what lies below unreadable directories |
| `StorageUsage.ChildQueuedRight` | pkgly/src/app/storage_usage.rs:145-151 | The text queued for a child directory leads to that child |
| `StorageUsage.TextParses` | pkgly/src/app/storage_usage.rs:168-169 | A queued text parses to the components it was made of |
| `StorageUsage.Scan.ListRoot` | pkgly/src/app/storage_usage.rs:145-166 | The two passes over the root cover all of it, with at most 20 tasks outstanding |
| `StorageUsage.Scan.List` | pkgly/src/app/storage_usage.rs:171-194 | One listing hands every size to a task and every directory to the queue |
| `StorageUsage.Scan.Spawn` | pkgly/src/app/storage_usage.rs:155-163 | A size is counted or in flight, with at most 20 in flight |
| `StorageUsage.Scan.Drain` | pkgly/src/app/storage_usage.rs:159-161 | All sizes in flight are added, in whatever order the tasks finish |
| `StorageUsage.Scan.Finish` | pkgly/src/app/storage_usage.rs:168-201 | The queue empties, and everything covered has been counted |
| `Basics.DivCeilIsLeast` | crates/storage/src/s3/mod.rs:2237 | `div_ceil` is the least multiplier that reaches its argument |

## Left out

- CacheIsCoherent: mutations of one key are serialised (`busy`), because no lock of the source orders the PUT and the cache call of two concurrent `save_file` calls on one key.
- CacheIsCoherent: the exact byte count is claimed for limits with `2 * max_bytes` below 2^64, the source takes any non-zero u64; what holds under any limits is stated beside it, and `AccountingExactIff` is the exact condition of one insertion.
- RecoveryRoundTrip: limits with `2 * max_bytes` below 2^64, as the rebuilding loop counts in 64 bits; so for `Sound` in `RecoverEntries` and `StartFromRecovery`.
- LaterRanksFirst: it is about the publications of one run, at increasing times; the source takes what the system clock says. Equal times are the subject of `TiesDependOnListing`.
- EveryLifeStartsFresh: the limits are the same in every life, and UUIDs are not used twice.
- FilesStayWithinBudget: it counts the files of the uploads in the map; a file still being seeded, or one that could not be removed when its upload left the map, is not counted. Objects and chunks are below 2 PiB, and a spooled chunk does not change while it is copied.
- CacheIsCoherent: it does not compare the cache with S3 across a restart, since generations start empty and S3 may have changed meanwhile.
- RecoverEntries: on a directory where a misfiled record claims a valid pair only the clauses without `Sound` are stated of the whole; which other entries come back then depends on the order of the listing (what is lost is stated by `FirstPass`).
- BudgetIsConserved: object sizes and appended chunks are below 2 PiB, where no cast to u32 truncates; the exact conditions are `SeedBackedIff` and `ReserveBackedIff`.
- NothingIsLost: the destination is initially absent with no other writer and no append tears the file; the exact conditions are `OccupiedDestinationIff` and `AppendRefinesLogIff`. A spooled chunk does not change while it is copied. Deletion and clean-up of an upload, which drop it on purpose, end its run.
- ServedListingsAreFresh: a change whose request was applied but reported as failed returns before it invalidates; it counts as in flight from then on (the source bounds its effect by the 30 s lifetime).
- MemoAgreesWithPlainWalk: calls are whole steps; the generation test and the insertion of the memo take separate locks in the source. `put_repository_meta` is not one of the calls. A request that is applied only after its call has returned is not modelled here (`AppendFile`, `StagedUpload` and `GuardedMove` do model late requests).
- RepositoryStorageUsage: names are single path components, distinct within a directory, and the tree does not change during the traversal. The sum wraps at 64 bits, as in a build without overflow checks.
- A future dropped in the middle of a file operation, whose blocking part goes on: only error returns end an operation early.
- Removal of a stale publication's two temporary files and the release of the publish lock are one step.
- Cache files altered by others while the cache runs; `get` drops the entry it was matched with, which the machine has as a removal of a matching entry.
- Prefix-freeness of S3 keys: only ancestors are checked, and `move_file` checks nothing.
- That every due failed deletion is drained: the drain stops at the first entry that is not ready.
- Files left behind by `remove_staging_prefix`, which deletes a path collected before it takes the lock.
- AWS SDK calls, timeouts, credentials, DNS and egress policy; SHA-256, UUID generation, clocks and JSON.
- Adaptive buffer limits and memory snapshots (floating point and host queries).
- Local storage, SQL catalog and search, HTTP routing, authentication, audit, email, logging, command line, macros and the web client.
