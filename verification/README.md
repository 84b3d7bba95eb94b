# jabar: a verified model of the server's stateful core

This project models the parts of the jabar language server that keep state between
messages, and proves what each of them promises.

**Index generations** (`Lifecycle`, `Server`). One event loop owns the published symbol
index. Startup, refresh and explicit-load workers race with client requests, watcher
events and timer ticks. `Lifecycle` says what is meant to happen: at most one worker,
whose result either still counts or has been overtaken. `Server` is the event loop with
its own three flags, revision counter, queued-refresh flag, intent, pending request and
cache epoch. Each of its handlers is proved to make exactly the intended step, so every
property proved of whole runs of the machine is a property of the server. A worker is a
record of its kind, its revision, its request and the number of events handled before it
was started. Three branches of the source are shown never to be taken: the "superseded"
assignment for a startup result, and the request-id and revision mismatches of an
explicit load.

**Cache writes** (`CacheQueue`). The one-place channel in which a newer cache write
replaces the one that waits, with the worker free to act between any two steps.

**Cache generations on disk** (`Snapshot`, `IndexCache`). Any number of `store` calls in
any number of processes, `invalidate` and readers, interleaved file operation by file
operation, any call failing or dying between two of them. `Cache` is the straight-line
code of `store` and `cleanup` as a sequence of these steps.

**The symbol index** (`ShardRows`, `Repeats`, `Buckets`, `Occurrences`, `IndexTables`,
`IndexContents`, `ShardReading`, `SymbolIndexes`). Shards become rows, and which rows are
taken in, in which order and as what is said row by row; the index's tables are proved to
be plain scans of all rows taken in, so that they depend on nothing else. `IndexQueries`,
`FileOutline`, `CallGroups`, `CallHierarchy` and `SearchOrder`, `TopHits`, `Search` prove the look-ups
made on those tables equal to full scans.

**Positions and edits** (`Text`, `Encodings`, `LineIndex`, `Ranges`, `SpanConversion`, `Documents`,
`DocumentSymbols`). A text is a sequence of characters; a line ends at a newline and
nowhere else. The table of wide characters is proved to convert between UTF-8 bytes
(section 3 of RFC 3629) and UTF-16 units (section 2.1 of RFC 2781), and batches of edits
(section "DidChangeTextDocument Notification" of LSP 3.17) to be splices of characters.

**Files** (`PathInterner`, `Vfs`, `BaseDb`, `VfsSession`, `Freshness`). The pending-change
log, the database fed from it, open buffers, and which of them are newer than the index.

Results a reader of the code may not expect:

- The conversion of a UTF-16 column adds up in 32 bits, and a client may send any 32-bit
  column. Past a guard, column plus the line's surplus bytes, a build with overflow checks
  panics and any other wraps: a position that should be clamped to the end of its line
  resolves to its start, so an ordered edit is dropped (`Documents.OrderedEditIsDropped`).
  `offset`, spans and edits are proved right exactly under that guard, in both kinds of
  build. That offsets never split a character, and the round trip, need no guard.
- Such a panic is caught in the notification handler and the session goes on, but the document
  already has the new version and the earlier edits of the batch, of which neither the held
  contents nor the stale set hears. `Documents.BatchPanicsExactly` says for which batches that
  happens, `Freshness.TornAfterPanic` when buffer, held contents and staleness still agree
  afterwards, and `Freshness.HalfBatchTears` gives the input on which they do not.
- `position` under UTF-16 is right at character boundaries only. `LineIndex.PositionInside`
  gives the wrong column it returns inside a character, and when the subtraction underflows.
  `offset` only ever returns boundaries, so the server itself never gets there.
- The comments on `symbol_at` and `enclosing_callable` promise the narrowest and the
  innermost. Columns saturate when sizes are compared, so two strictly nested declarations
  can tie, and the outer one is found when it comes first: `Occurrences.OuterOccurrenceIsFound`
  and `IndexQueries.OuterCallableIsFound`. `Occurrences.NarrowestIsInnermostExactly` and
  `IndexQueries.InnermostExactly` say for which files the promises hold.
- The one-pass outline needs no laminar declarations to find the right parent: names in
  source order, which `definitions_in` delivers, are enough.
- Four of the nine arms of the change-merge table can never be reached.
- `cleanup` keeps the published generation only because it reads CURRENT, or because that
  generation is the newest (`IndexCache.CleanupSpares`). The source reads an unreadable
  CURRENT as empty; the machine here has reliable reads.
- The fallback is there for a reader that has read CURRENT when the next generation is
  published. It does its work only while no other directory sorts after the reader's
  generation (`IndexCache.CleanupDecides`): a generation renamed and never published takes the
  fallback's place, and the reader's load fails (`IndexCache.Cache.LoseReader`).
- A write that the server's epoch overtakes after its last "still current?" test is published
  all the same, also over an `invalidate` (`IndexCache.LatePublication`); overtaken earlier, it
  never is (`IndexCache.OvertakenInTimeForGood`). In this model overtaking a write is the
  epoch passing its ticket.
- The length, header and checksum tests of `load` never reject a generation that a `store`
  wrote and nothing corrupted, whatever is published or pruned in between.
- The comment on `search` says ties break on name length, then path; the code compares
  length, name, path and symbol, and so does the model.

## Model

| member | source | states |
|---|---|---|
| Lifecycle.StepInv | crates/jabar-server/src/server.rs:833-993 | every event keeps the invariant: a queued scan stands behind a worker, an awaited build leaves no index and no scan that counts, the published index is newer than the last move |
| Lifecycle.PublishedIsNotStale | crates/jabar-server/src/server.rs:957-993 | over whole runs, the published index's worker was started after the last workspace move |
| Lifecycle.AwaitingBuildHolds | crates/jabar-server/src/server.rs:944-993 | while a build is awaited there is no index, no queued scan and no scan that counts, and only a shard event or a successful load that counts ends it |
| Lifecycle.NothingServedUntilBuild | crates/jabar-server/src/server.rs:969-991 | after a workspace move the index stays gone through any events until there is evidence of a build |
| Lifecycle.RefreshPublishes | crates/jabar-server/src/server.rs:1089-1163 | a refresh that counts leaves exactly what it loaded, or no index when nothing was left; unchanged, failed or overtaken it leaves the index as it was |
| Lifecycle.LoadPublishes | crates/jabar-server/src/server.rs:1605-1658 | a load that counts leaves what it loaded, its place, its watcher and no cache entry; failed or overtaken it leaves all of that as it was |
| Lifecycle.StartupPublishes | crates/jabar-server/src/server.rs:689-728 | the startup generation is published with its place, watcher and cache entry, exactly when its worker still counts |
| Lifecycle.NothingElsePublishes | crates/jabar-server/src/server.rs:944-993 | no other event publishes, and only a workspace move withdraws |
| Lifecycle.IndexIsLastResult | crates/jabar-server/src/server.rs:689-1658 | over whole runs the index is the payload of the last result that counted and brought one, unless the workspace moved or a scan found nothing since |
| Lifecycle.IntentFollows | crates/jabar-server/src/server.rs:944-1163 | what the server waits for after each event, result and outcome |
| Lifecycle.WorkerAfterRequest | crates/jabar-server/src/server.rs:1459-1567 | a well-formed load starts a worker exactly when there is none and no shutdown; shutdown overtakes a load and the startup worker and leaves a scan alone |
| Lifecycle.WorkerAfterDiskEvent | crates/jabar-server/src/server.rs:944-1087 | which worker runs after a tick, a shard change, a watcher error or a move, in every state |
| Lifecycle.ReturnFollows | crates/jabar-server/src/server.rs:1686-1693 | a returning worker is followed by the queued scan, or by the scan that verifies a generation read from the cache, and by nothing else |
| Lifecycle.QueueFollows | crates/jabar-server/src/server.rs:995-1087 | exactly when a scan is queued, and until when it stays so |
| Lifecycle.AnswersFollow | crates/jabar-server/src/server.rs:1242-1345 | the answers each event sends, one by one and in order |
| Lifecycle.CallIsHeard | crates/jabar-server/src/server.rs:957-993 | a shard change or watcher error starts a scan or queues one behind the running worker |
| Lifecycle.QueuedScanRuns | crates/jabar-server/src/server.rs:1686-1693 | any returning worker starts the queued scan, and only a workspace move calls it off before |
| Lifecycle.NoLostWakeUp | crates/jabar-server/src/server.rs:1061-1087 | over whole runs, every call for a scan has had a scan started since, or one is queued behind a running worker, unless the workspace moved |
| Lifecycle.CallIsServed | crates/jabar-server/src/server.rs:1061-1163 | over whole runs, unless the workspace moved, every call was settled by the used result of a worker started since, or such a scan is running and counts, or one is queued, or a retry is due |
| Lifecycle.EveryCallIsScanned | crates/jabar-server/src/server.rs:1061-1163 | over whole runs, unless the workspace moved, every call was followed by a scan whose result was handed over while it counted, or by one that is running and counts, or one is queued behind a worker; a retry being due is not enough |
| Lifecycle.DeliveryRetriesOnFailure | crates/jabar-server/src/server.rs:1089-1163 | a scan that counts leaves a retry due exactly when it failed |
| Lifecycle.RetryScansAtTick | crates/jabar-server/src/server.rs:944-955 | a retry that is due starts a scan at the next tick, unless a worker is running |
| Lifecycle.StepAnswers | crates/jabar-server/src/server.rs:1242-1301 | each event answers exactly what it takes in, but for the load request it leaves open |
| Lifecycle.EveryRequestAnsweredOnce | crates/jabar-server/src/server.rs:909-942 | over whole runs, requests received are the responses sent plus the one load still open, and after shutdown none is open |
| Lifecycle.LoadIsClosedOnce | crates/jabar-server/src/server.rs:1569-1684 | an open load request is closed by its result, a workspace move or shutdown, each with its own answer, and by nothing else |
| Server.Server.constructor | crates/jabar-server/src/server.rs:104-108 | the new server with its startup worker is the machine's start |
| Server.Server.OnRefreshTick | crates/jabar-server/src/server.rs:944-955 | a timer tick makes the machine's step and touches nothing the server holds |
| Server.Server.OnShardsChanged | crates/jabar-server/src/server.rs:957-968 | a shard event makes the machine's step: a running refresh is overtaken and a scan queued; nothing the server holds changes |
| Server.Server.OnWorkspaceMoved | crates/jabar-server/src/server.rs:969-991 | a workspace move makes the machine's step: index gone, load cancelled and answered, every worker and cache write overtaken, identity distrusted, build awaited |
| Server.Server.OnWatcherError | crates/jabar-server/src/server.rs:957-993 | a watcher error makes the machine's step, takes the verified mark away, and is ignored while a build is awaited |
| Server.Server.ScheduleIndexRefresh | crates/jabar-server/src/server.rs:995-1087 | asking for a scan starts one, overtakes the running refresh, queues one, or does nothing, as the machine says |
| Server.Server.ScheduleQueuedRefresh | crates/jabar-server/src/server.rs:1686-1693 | the queued scan is started once and the flag cleared |
| Server.Server.OnRefreshResult | crates/jabar-server/src/server.rs:1089-1163 | a refresh result makes the machine's step, used exactly when it still counts: then index, manifest, identity, cache entry, epoch and cache write are those of its outcome, and otherwise all stay |
| Server.RefreshBrings | crates/jabar-server/src/server.rs:1104-1149 | what a refresh leaves, field by field: a loaded generation with its own manifest and identity, written to the cache under them if there is one; an empty set with no index, no cache hit and no current write |
| Server.Server.OnLoadIndex | crates/jabar-server/src/server.rs:1459-1567 | a load request is refused at once or starts the one worker |
| Server.Server.OnExplicitLoadResult | crates/jabar-server/src/server.rs:1569-1658 | an explicit-load result makes the machine's step; one that is pending and loaded leaves its own index, manifest, place and identity and no cache entry; the request-id and revision mismatch branches are dead |
| Server.LoadBrings | crates/jabar-server/src/server.rs:1605-1620 | what a load leaves, field by field |
| Server.Server.CancelExplicitLoad | crates/jabar-server/src/server.rs:1666-1684 | a pending load is answered as cancelled and its worker no longer counts |
| Server.Server.OnStartupResult | crates/jabar-server/src/server.rs:689-728 | a startup result makes the machine's step and leaves what was discovered, written to the cache unless it came from there; the superseded assignment is dead |
| Server.StartupBrings | crates/jabar-server/src/server.rs:1379-1401 | what startup leaves, field by field; only what did not come from the cache is written to it |
| Server.Server.OnShutdownRequest | crates/jabar-server/src/server.rs:1242-1301 | shutdown answers the pending load and itself, and stops the startup worker from counting |
| Server.Server.OnOtherRequest | crates/jabar-server/src/server.rs:1242-1345 | any other request is answered at once, and refused after shutdown |
| Server.Server.WriteCacheAsync | crates/jabar-server/src/server.rs:1436-1455 | a new write takes the next ticket, so that it alone is current, and carries the index and cache entry held |
| Server.Server.FlagsExcludeEachOther | crates/jabar-server/src/server.rs:643-698 | in every reachable state the three running flags exclude each other and a pending request belongs to the running load at the current revision |
| Server.Server.IndexIsNotStale | crates/jabar-server/src/server.rs:957-993 | the server's published index was started after the last workspace move it handled |
| Server.Server.IndexIsLastLoaded | crates/jabar-server/src/server.rs:689-1658 | the server's index and manifest are what the last result that counted brought, unless the workspace moved or a scan found nothing since |
| Server.Server.AllRequestsAnswered | crates/jabar-server/src/server.rs:1242-1301 | requests received equal responses sent plus the pending load, and none is pending after shutdown |
| Server.Server.ScanIsNotForgotten | crates/jabar-server/src/server.rs:1061-1163 | every call for a scan has a result that counted, a current scan running since, or one queued behind a worker, by the server's own flags; what was delivered settled it or left a retry due |
| Server.Server.CurrentWriteIsPublished | crates/jabar-server/src/server.rs:1436-1455 | a cache write whose ticket is still the epoch holds the published index, its manifest and its key, and is the last one offered |
| CacheQueue.Channel.SendLatest | crates/jabar-server/src/server.rs:293-314 | with the worker acting between any two steps, a send ends within two passes with its value in the channel, having replaced at most one |
| CacheQueue.OneFateEach | crates/jabar-server/src/server.rs:772-778 | every write offered was taken once, replaced once or waits, and the newest is never replaced |
| CacheQueue.Enters | crates/jabar-server/src/server.rs:293-314 | a newer write in the empty place keeps the account of all writes in ticket order |
| Snapshot.DigestInPieces | crates/jabar-server/src/index_cache.rs:279-337 | reading in other pieces than were written gives the same checksum |
| Snapshot.UpdateChecksum | crates/jabar-server/src/index_cache.rs:329-337 | the loop folds the bytes into the checksum in order |
| Snapshot.JudgeOwn | crates/jabar-server/src/index_cache.rs:100-125 | length, header and checksum accept every file a store wrote, and yield its body and shards |
| Snapshot.HitExactly | crates/jabar-server/src/index_cache.rs:100-125 | exactly which manifest and file are accepted, by length, magic word, version and checksum, and what is read from them |
| Snapshot.DigestIsFnv1a | crates/jabar-server/src/index_cache.rs:279-337 | the checksum gives the published test vectors of FNV-1a |
| IndexCache.SelectDoomed | crates/jabar-server/src/index_cache.rs:254-277 | the selection loop removes all but the named generation and the newest other |
| IndexCache.CleanupSpares | crates/jabar-server/src/index_cache.rs:254-277 | a generation survives exactly when CURRENT named it or it is the newest that CURRENT did not name |
| IndexCache.CleanupDecides | crates/jabar-server/src/index_cache.rs:254-277 | one whole cleanup with any other calls beside it: a generation that was current is left whole exactly when the cleanup read it in CURRENT or no directory sorted after it but the one read there, and is gone otherwise |
| IndexCache.StepInv | crates/jabar-server/src/index_cache.rs:130-219 | every step of every process keeps: one lock holder, files of one store per generation, CURRENT complete and past withdrawal |
| IndexCache.StepReadyOther | crates/jabar-server/src/index_cache.rs:189-218 | steps of other calls, pruning and withdrawal included, disturb no call in any of its phases |
| IndexCache.StepKeepsCurrent | crates/jabar-server/src/index_cache.rs:214-217 | only publication and invalidate change CURRENT, and no other step touches the generation it names |
| IndexCache.CurrentIsComplete | crates/jabar-server/src/index_cache.rs:130-219 | over whole runs of any processes, CURRENT names a complete generation of one store call |
| IndexCache.CleanupLeavesTwo | crates/jabar-server/src/index_cache.rs:254-277 | when cleanup ends at most two generations remain, besides those that could not be removed, and the current one is among them |
| IndexCache.FailureIsNeverServed | crates/jabar-server/src/index_cache.rs:197-218 | what a store wrote that failed, or died before its pointer was installed, never becomes current |
| IndexCache.OvertakenInTimeForGood | crates/jabar-server/src/index_cache.rs:197-213 | a call overtaken before it passes its last test never becomes current, whatever follows |
| IndexCache.OvertakenPublishesExactly | crates/jabar-server/src/index_cache.rs:209-213 | of the calls overtaken before they published, exactly those past their last test can still become current |
| IndexCache.LatePublication | crates/jabar-server/src/index_cache.rs:209-213 | the run that does it: overtaken and invalidated between the last test and the rename, the call installs CURRENT all the same |
| IndexCache.InvalidatedMisses | crates/jabar-server/src/index_cache.rs:79-84 | after invalidate every reader misses until the next publication, whatever else goes on, and no generation's files are touched |
| IndexCache.LoadIsOneStore | crates/jabar-server/src/index_cache.rs:88-125 | a hit is the body, shards and size given to one store under an equal key, whatever happened between the reads, and is certain when the keys are equal and the files are still there |
| IndexCache.SparesExactly | crates/jabar-server/src/index_cache.rs:254-277 | a cleanup spares a generation exactly when it read it in CURRENT, or no other directory sorts after it but the one it read |
| IndexCache.RunServes | crates/jabar-server/src/index_cache.rs:216-218 | a generation that was current stays complete over any run in which no cleanup selects it: no withdrawal, crash, publication or other pruning touches it |
| IndexCache.SparedReaderHits | crates/jabar-server/src/index_cache.rs:88-125 | while every cleanup spares the generation found in CURRENT, the reader never fails and hits exactly when the keys are equal |
| IndexCache.Cache.LoseReader | crates/jabar-server/src/index_cache.rs:205-217 | the run that fails: a call dies with a newer generation renamed and not published, the next one publishes and removes what the reader found in CURRENT, and its load fails under every key |
| IndexCache.Cache.Install | crates/jabar-server/src/index_cache.rs:191-213 | uninterrupted, the locked part publishes the complete generation or leaves CURRENT alone and releases the lock |
| IndexCache.Cache.Cleanup | crates/jabar-server/src/index_cache.rs:254-277 | uninterrupted, exactly the selected generations are gone and CURRENT is unchanged |
| IndexCache.Cache.Store | crates/jabar-server/src/index_cache.rs:130-219 | uninterrupted, success means all checks passed and this generation is current; failure leaves directories and CURRENT as they were |
| Repeats.RetainFirst | crates/symbol-index/src/lib.rs:568-582 | the loop keeps the first of each repeated row |
| Repeats.DistinctInOrder | crates/symbol-index/src/lib.rs:568-582 | what is kept stands in the order of first occurrences, and every first occurrence is kept |
| Repeats.DistinctEarly | crates/symbol-index/src/lib.rs:418-423 | dropping repeats shard by shard and once at the end give the same rows |
| Repeats.DistinctKnown | crates/symbol-index/src/lib.rs:560-564 | rows known before leave no trace |
| Buckets.TabulatesKey | crates/symbol-index/src/lib.rs:639-650 | pushing a key onto its list keeps the table equal to the scan for every key |
| Buckets.ScanHolds | crates/symbol-index/src/lib.rs:639-650 | a scan finds exactly the rows that carry the key |
| Buckets.ScanIncreases | crates/symbol-index/src/lib.rs:639-650 | rows with one key are found once each, in insertion order |
| Occurrences.SortDistinct | crates/symbol-index/src/lib.rs:545-558 | ending a document leaves a file's occurrences strictly sorted and exactly those seen |
| Occurrences.SortedUnique | crates/symbol-index/src/lib.rs:545-558 | that list is determined by what was seen |
| Occurrences.LessIsBySource | crates/symbol-index/src/lib.rs:545-558 | the sort is by start, then end, then the order in which symbols were first met |
| Occurrences.FindNarrowest | crates/symbol-index/src/lib.rs:763-784 | the early-exit loop finds what a full scan finds: the covering occurrence of least size, first stored on ties |
| Occurrences.NarrowestIsInnermostExactly | crates/symbol-index/src/lib.rs:756-784 | under every cursor nothing lies strictly inside the occurrence found, exactly when the stored list passes a finite test: wherever a tied pair could decide, another occurrence does |
| Occurrences.OuterOccurrenceIsFound | crates/symbol-index/src/lib.rs:756-784 | an input that fails: the outer of two nested occurrences is found |
| ShardRows.DefinitionsHaveNoTwins | crates/symbol-index/src/lib.rs:629-638 | no two definitions share symbol, path and range |
| ShardRows.DefinitionsKnown | crates/symbol-index/src/lib.rs:629-638 | rows taken in again add no definition |
| ShardRows.DefinitionsHold | crates/symbol-index/src/lib.rs:482-516 | every declaration row has a definition at its site |
| ShardReading.ShardPlaces | crates/symbol-index/src/lib.rs:466-474 | the rows taken in are those with a readable range and a symbol neither empty nor local, each spelled as in its document, in source order |
| ShardReading.DefinitionsInOrder | crates/symbol-index/src/lib.rs:482-516 | the definitions are the first declaring rows of their sites, in order, each equal to its row field by field |
| ShardReading.UsesInOrder | crates/symbol-index/src/lib.rs:517-542 | the uses of a symbol are its mentioning rows, in order, each with path, range, encoding and import mark |
| IndexTables.SitedOne | crates/symbol-index/src/lib.rs:642-646 | first site plus other sites stay the scan by symbol |
| IndexTables.PathBucket | crates/symbol-index/src/lib.rs:632-640 | a file's bucket holds exactly its definitions, in insertion order |
| IndexTables.HoldsOne | crates/symbol-index/src/lib.rs:476-480 | one row more puts exactly its range and interned symbol into its own file's list |
| IndexTables.ShowsOne | crates/symbol-index/src/lib.rs:517-542 | one mention more appends exactly its row to its symbol's list |
| IndexTables.DistinctShown | crates/symbol-index/src/lib.rs:568-575 | dropping repeats by path number is dropping repeats by path |
| IndexContents.Determined | crates/symbol-index/src/lib.rs:243-270 | two indexes of the same rows in the same order are equal, table by table |
| IndexContents.NothingNew | crates/symbol-index/src/lib.rs:438-440 | an index that took in only known rows is the index it was |
| SymbolIndexes.SymbolIndex.Insert | crates/symbol-index/src/lib.rs:629-651 | a definition at a known site is ignored, any other is appended, and every derived table stays the scan of the definitions |
| SymbolIndexes.SymbolIndex.InternSymbol | crates/symbol-index/src/lib.rs:584-592 | a known symbol keeps its id, a new one gets the next, and ids and names stay inverse |
| SymbolIndexes.SymbolIndex.InternReferencePath | crates/symbol-index/src/lib.rs:594-610 | the same for paths, also after the reverse map was lost with a snapshot |
| SymbolIndexes.SymbolIndex.AddRow | crates/symbol-index/src/lib.rs:466-543 | one row changes every table to the scan of one row more |
| SymbolIndexes.SymbolIndex.AddShardWith | crates/symbol-index/src/lib.rs:442-566 | a readable shard adds its rows in order, an unreadable one changes nothing; with deduplication no list repeats itself afterwards |
| SymbolIndexes.SymbolIndex.AddShard | crates/symbol-index/src/lib.rs:438-440 | the index is valid for its old rows followed by one for each row of the shard that has a range and a global symbol, spelled as there; its definitions say what their first declaring rows say; a shard of known rows changes only the shard count |
| SymbolIndexes.SymbolIndex.LoadShards | crates/symbol-index/src/lib.rs:401-424 | the cold load is valid for the rows of all readable shards that have a range and a global symbol, in source order, one for each; its definitions say what their first declaring rows say; it counts the readable shards and names the others |
| SymbolIndexes.SameRowsSameIndex | crates/symbol-index/src/lib.rs:401-440 | two valid indexes of the same rows hold the same tables |
| SymbolIndexes.ColdLoadEqualsAdding | crates/symbol-index/src/lib.rs:401-440 | the cold load, deduplicating once at the end, equals adding the same shards one by one, shard count included |
| Ranges.CoversIsBetween | crates/symbol-index/src/lib.rs:951-963 | a range covers what lies between its ends, the end excluded |
| Ranges.SpanLenUnderEncloses | crates/symbol-index/src/lib.rs:945-973 | size is monotone under enclosure, with the exact condition for a tie |
| Ranges.NestedSpansCanTie | crates/symbol-index/src/lib.rs:969-973 | two strictly nested ranges of equal size |
| IndexQueries.SymbolAt | crates/symbol-index/src/lib.rs:763-784 | the symbol of the narrowest occurrence under the cursor, and one is found exactly when some row taken in covers it |
| IndexQueries.EnclosingCallableIsInnermost | crates/symbol-index/src/lib.rs:795-803 | the look-up by file equals a scan of all definitions: the smallest callable around the range, first declared on ties |
| IndexQueries.InnermostExactly | crates/symbol-index/src/lib.rs:786-803 | for every range no callable strictly inside the one found surrounds it, exactly when for each callable of the file the first declared one tied around it has its own span |
| IndexQueries.OuterCallableIsFound | crates/symbol-index/src/lib.rs:786-803 | an input that fails: two nested methods whose declarations tie, and a reference given to the outer one |
| IndexQueries.InnermostUnlessTied | crates/symbol-index/src/lib.rs:793-803 | the shapes two such declarations must have |
| IndexQueries.DefinitionSitesAreAll | crates/symbol-index/src/lib.rs:904-911 | all definitions of a symbol, in order, each once |
| IndexQueries.DefinitionSite | crates/symbol-index/src/lib.rs:914-924 | finds the exact site whenever it was declared |
| IndexQueries.ImplementorsAreAll | crates/symbol-index/src/lib.rs:936-942 | the definitions that name the symbol as implemented, in order, each as often as it does |
| IndexQueries.IngestedIsSorted | crates/symbol-index/src/lib.rs:545-558 | taking shards in leaves every file's occurrences strictly sorted, as the early exits need |
| IndexQueries.FindMentioned | crates/symbol-index/src/lib.rs:840-878 | the early-exit loop equals the full scan |
| IndexQueries.WantedExactly | crates/symbol-index/src/lib.rs:840-878 | an occurrence qualifies exactly when it lies in the span, no other callable than the owner is the innermost around it, and its symbol is not declared there |
| IndexQueries.MentionedReports | crates/symbol-index/src/lib.rs:840-878 | every qualifying symbol is reported |
| IndexQueries.MentionedAtFirst | crates/symbol-index/src/lib.rs:805-878 | each at its first qualifying occurrence |
| IndexQueries.MentionedOnce | crates/symbol-index/src/lib.rs:805-878 | and once |
| IndexQueries.MentionedInOrder | crates/symbol-index/src/lib.rs:840-878 | altogether: the first qualifying occurrences of each symbol, all of them, in the order of the file |
| FileOutline.DefinitionsIn | crates/symbol-index/src/lib.rs:885-897 | exactly the file's definitions, by position, ties in insertion order |
| FileOutline.OutlineIsSourceOrdered | crates/symbol-index/src/lib.rs:885-897 | with names apart, that is the order the outline relies on |
| CallHierarchy.ReferencesAreUses | crates/symbol-index/src/lib.rs:927-934 | references to a symbol are its distinct uses in the order taken in, each saying what a mentioning row says |
| CallHierarchy.IncomingCalls | crates/jabar-server/src/handlers.rs:611-663 | for a declared site, one entry per distinct caller in order of first call, with all its references, for the first hundred callers; of these exactly those whose file has a URL are kept, in order, and each is a method or constructor; otherwise nothing |
| CallGroups.GroupsOne | crates/jabar-server/src/handlers.rs:627-642 | one reference more joins its caller's entry, opens one, or is dropped when it has no caller or the limit is reached |
| CallGroups.GroupsExactly | crates/jabar-server/src/handlers.rs:625-645 | the entries are opened by the first calls of their callers, in order, none is missing before the list is full, and each has all its calls in order |
| CallHierarchy.OutgoingCalls | crates/jabar-server/src/handlers.rs:666-706 | for a declared site, each entry is the first definition of a mentioned symbol, a method or constructor with a URL, at that symbol's first wanted occurrence; entries keep the order of the mentions, and none is missing unless a hundred come before it; otherwise nothing |
| CallHierarchy.CalleesAreCalled | crates/symbol-index/src/lib.rs:835-878 | a callable mentions a symbol exactly when some reference to it, not itself at a declaration of it, has that callable as its innermost |
| CallHierarchy.CallersAndCalleesAgree | crates/jabar-server/src/handlers.rs:611-706 | before the limits, caller lists and callee lists agree both ways when no site both declares and mentions the symbol |
| SearchOrder.LessOrders | crates/symbol-index/src/lib.rs:1008-1017 | results are totally ordered by rank, length, name, path and symbol |
| SearchOrder.BestMatchFirst | crates/symbol-index/src/lib.rs:679-684 | exact matches first, then prefixes, then the rest, shorter names first among equals |
| SearchOrder.ThenNamePathSymbol | crates/symbol-index/src/lib.rs:1008-1017 | equally good matches of one length come by name, then path, then symbol |
| SearchOrder.StringLessIsDictionary | crates/symbol-index/src/lib.rs:1008-1017 | strings are compared at the first place where they differ, an ended one first |
| TopHits.Consider | crates/symbol-index/src/lib.rs:737-743 | the heap keeps the least candidates seen, one candidate more |
| TopHits.SortHits | crates/symbol-index/src/lib.rs:701-702 | each candidate once, in order |
| TopHits.KeptAreFirst | crates/symbol-index/src/lib.rs:720-748 | whatever is given up on ties, the kept ones have the keys of the first of all |
| Search.SearchAll | crates/symbol-index/src/lib.rs:685-703 | the results are exactly the definitions whose lower-cased name is the query with something before and after it, each once, better, shorter and then earlier names first |
| Search.SearchLimited | crates/symbol-index/src/lib.rs:710-749 | the total counts every included definition whose lower-cased name holds the query; the results are the least of them in order, and none left out could stand before one of them |
| Search.LimitedIsFirst | crates/symbol-index/src/lib.rs:705-749 | the bounded search returns the keys of the first of the filtered full search |
| LineIndex.New | crates/jabar-server/src/line_index.rs:65-97 | the one-pass scan tabulates every line start and wide character |
| Encodings.Utf8LenIsEncoded | crates/jabar-server/src/line_index.rs:65-97 | the bytes counted for a character are the length of the only encodings RFC 3629 allows it |
| Encodings.Utf16LenIsEncoded | crates/jabar-server/src/line_index.rs:65-97 | the same for UTF-16 and RFC 2781 |
| LineIndex.OverflowIsExact | crates/jabar-server/src/line_index.rs:182-197 | the 32-bit sum of the conversion overflows exactly when column plus the line's surplus bytes exceed 32 bits; otherwise the column is right, and a wrapping build arrives at 0 or 1 |
| LineIndex.LandsRight | crates/jabar-server/src/line_index.rs:111-141 | a column lands on the largest character cut at or before it exactly under that guard; otherwise a checked build panics and a wrapping one lands before the end of the line, where it belongs |
| LineIndex.OffsetIsCut | crates/jabar-server/src/line_index.rs:111-141 | whatever the column, and in either build, an offset that is returned is a character boundary, and none is returned exactly past the last line |
| LineIndex.OffsetFloors | crates/jabar-server/src/line_index.rs:111-141 | on an existing line the offset is the largest character boundary at or before the column, exactly under the guard, with what happens otherwise |
| LineIndex.LargestColumnMissesTheEnd | crates/jabar-server/src/line_index.rs:182-197 | the input that fails: one wide character and the largest column |
| LineIndex.FindsLine | crates/jabar-server/src/line_index.rs:144-157 | the line found for an offset is the line it lies on |
| LineIndex.PositionAtCut | crates/jabar-server/src/line_index.rs:144-180 | at a boundary the position is the line and the length of what precedes, without underflow |
| LineIndex.PositionInside | crates/jabar-server/src/line_index.rs:144-180 | the column returned inside a character, and exactly when it underflows |
| LineIndex.RoundTrip | crates/jabar-server/src/line_index.rs:105-157 | at every boundary of any text, in both encodings and either build, offset of position is the offset |
| LineIndex.Normalizes | crates/jabar-server/src/line_index.rs:105-157 | position of offset keeps the line, never passes the position and is a fixed point whenever offset answers, and when that is |
| LineIndex.OffsetMonotone | crates/jabar-server/src/line_index.rs:111-141 | offset is monotone in line and column up to a position under the guard, or on a later line |
| LineIndex.MonotoneExactlyWhenItFits | crates/jabar-server/src/line_index.rs:111-141 | in a wrapping build offset is monotone up to a position exactly when that position satisfies the guard |
| SpanConversion.ConvertSpan | crates/jabar-server/src/handlers.rs:170-212 | equal units and unreadable files pass through, UTF-32 counting as UTF-16; byte columns come out after the most whole characters that fit, in UTF-16 units; UTF-16 columns do so in bytes exactly when column plus surplus bytes fit 32 bits at both ends; a panic is an outcome |
| SpanConversion.MovedAtCut | crates/jabar-server/src/handlers.rs:170-212 | an end between two characters comes out between the same two, measured in the client's unit |
| SpanConversion.SpanIsRight | crates/jabar-server/src/handlers.rs:170-212 | the span is the intended one exactly when both ends satisfy the guard |
| SpanConversion.ConversionKeepsNesting | crates/jabar-server/src/handlers.rs:542-567 | under the guard a range inside another is inside it after conversion, and an ordered one stays ordered |
| SpanConversion.NestingExactlyWhenItFits | crates/jabar-server/src/handlers.rs:542-567 | in a wrapping build a declaration keeps every range inside it exactly when its own end satisfies the guard |
| SpanConversion.ConversionInverts | crates/jabar-server/src/handlers.rs:170-212 | converting there and back is the identity exactly on positions between characters, in either build and for every column |
| Documents.ApplyChange | crates/jabar-server/src/documents.rs:87-117 | one edit is a splice at the two character boundaries its ends land on, or is dropped, or panics |
| Documents.Documents.ApplyChanges | crates/jabar-server/src/documents.rs:65-85 | a batch is the edits in sequence, each on the text the one before left; when one panics the document keeps the new version and the edits before it; a closed document is refused |
| Documents.OrderedEditApplies | crates/jabar-server/src/documents.rs:87-117 | under the guard an ordered range on existing lines is never dropped, and is replaced between the cuts it names |
| Documents.OrderedEditExactlyWhenItFits | crates/jabar-server/src/documents.rs:87-117 | an ordered edit does what it should, whatever text it brings, exactly when both ends satisfy the guard, in either build |
| Documents.NeverDroppedExactlyWhenItFits | crates/jabar-server/src/documents.rs:109-114 | in a wrapping build no ordered edit up to a position is dropped exactly when that position satisfies the guard |
| Documents.OrderedEditIsDropped | crates/jabar-server/src/documents.rs:87-117 | the input that fails: an ordered edit behind one wide character to the largest column |
| Documents.EncodingDoesNotMatter | crates/jabar-server/src/documents.rs:65-117 | the same batch in UTF-8 and in UTF-16 columns of cuts gives the same text, in either build |
| Documents.BatchPanicsExactly | crates/jabar-server/src/documents.rs:65-117 | a batch of 32-bit edits panics exactly when the build checks and some edit fails the guard on the text it meets; when every edit passes, the result is the intended one in either build |
| Documents.BatchIsHalfApplied | crates/jabar-server/src/documents.rs:65-117 | the input that fails: the first edit of the batch stays in the document, the second panics |
| DocumentSymbols.DocumentSymbolsFrom | crates/jabar-server/src/handlers.rs:483-540 | preorder of the outline is the input, every member's name lies in its parent's declaration, and in source order the parent is the latest earlier one of which that holds |
| DocumentSymbols.NeverAgain | crates/jabar-server/src/handlers.rs:506-512 | in source order a declaration popped for one name holds no later name |
| PathInterner.PathInterner.Intern | crates/vfs/src/path_interner.rs:20-40 | ids are dense, distinct and never change |
| Vfs.MergeComposes | crates/vfs/src/lib.rs:264-304 | merging two changes is their composition, and five of nine arms are all that can occur |
| Vfs.RecordedOrder | crates/vfs/src/lib.rs:264-304 | surviving entries keep their order |
| Vfs.RecordedCarries | crates/vfs/src/lib.rs:264-304 | the log carries the drained snapshot to the accepted state, one entry per file, tagged by presence at both ends |
| Vfs.Vfs.SetFileContents | crates/vfs/src/lib.rs:212-240 | a write is dropped exactly when its hash is held already; an accepted one is logged and counted |
| Vfs.Vfs.TakeChanges | crates/vfs/src/lib.rs:255-262 | the batch takes the last drained snapshot to the current one |
| Vfs.Vfs.FileId | crates/vfs/src/lib.rs:170-178 | only present paths have an id |
| BaseDb.AppliedShows | crates/base-db/src/lib.rs:262-286 | a database that shows one snapshot shows the next after the batch between them |
| BaseDb.RootDatabase.ApplyVfsChanges | crates/base-db/src/lib.rs:262-286 | the loop applies the batch in order; deleted and non-UTF-8 files become empty |
| VfsSession.Session | crates/base-db/src/lib.rs:262-286 | after any interleaving of writes and drains each file has the text of its accepted contents, and the revision counts accepted writes |
| VfsSession.AcceptedHashesAsWritten | crates/vfs/src/lib.rs:212-240 | what is held always hashes like what was last written |
| VfsSession.AcceptedIsLastWritten | crates/vfs/src/lib.rs:212-240 | without collisions dropping writes is applying everything |
| Freshness.Buffers.RecordVfsContents | crates/jabar-server/src/server.rs:2331-2335 | what is held by path is written exactly when the hash differs, and no batch is left pending |
| Freshness.Buffers.DidOpen | crates/jabar-server/src/server.rs:2245-2270 | the buffer is held, the path turns stale unless disk has the same text, and it agrees with both whatever was wrong before |
| Freshness.Buffers.DidChange | crates/jabar-server/src/server.rs:2202-2286 | a batch that goes through is held, and turns an agreeing path stale exactly when its hash changes; one that panics changes the buffer only, and an agreeing path then still agrees exactly when the buffer hashes as before |
| Freshness.Buffers.DidClose | crates/jabar-server/src/server.rs:2295-2313 | disk is held again, staleness survives, and the path no longer disagrees |
| Freshness.Buffers.RefreshDocumentFreshness | crates/jabar-server/src/server.rs:2012-2028 | after an install exactly the open real files that differ from disk are stale, and only what is held can still disagree with a buffer |
| Freshness.Buffers.InstallAtStartup | crates/jabar-server/src/server.rs:708-714 | a startup install adds to the stale paths exactly the open real files that differ from disk, clears none, and breaks no agreement |
| Freshness.Buffers.FreshBufferIsDiskText | crates/jabar-server/src/server.rs:2245-2286 | an open file that no caught panic has torn and that is not stale hashes like the disk text read at its last open or install, and like what is held |
| Freshness.TornAfterChange | crates/jabar-server/src/server.rs:2272-2286 | a change that goes through keeps an agreeing path agreeing, is noticed exactly when it changes the hash, and puts right what is held |
| Freshness.TornAfterPanic | crates/jabar-server/src/server.rs:2202-2286 | after a caught panic an agreeing path still agrees exactly when the half that was applied leaves the hash as it was, and no other path is touched |
| Freshness.HalfBatchTears | crates/jabar-server/src/server.rs:2202-2286 | the input that fails: an open file that agreed with disk and held contents is changed, and is neither held nor stale |

## Left out

- Server.Server.OnStartupResult: assumes what the discovery worker returns is coherent: a cache hit comes from a cache entry and is the one generation not verified.
- Server.Server.OnRefreshResult: assumes the worker returns, and that a forced refresh never reports an unchanged shard set.
- Server.Server.OnOtherRequest: says only that a request is answered once; what the answer holds is the business of the query modules.
- IndexCache.Cache.Store: one call that nothing interrupts; interleavings, I/O errors and crashes are the steps proved above it.
- IndexCache.CurrentIsComplete: assumes atomic renames, reliable reads and unique generation names; corruption of files at rest is not modelled.
- Snapshot.JudgeOwn: the MessagePack encoding of the index is a given lossless one, and the strength of the checksum is not claimed.
- SymbolIndexes.SymbolIndex.AddShardWith: does not model rejecting a shard for want of 32-bit path ids.
- IndexQueries.FindMentioned: assumes ranges that start no later than they end, as SCIP's do; the unsigned subtraction of the source assumes the same.
- Search.SearchLimited: the caller's filter is a function of the definition; hash-map order is arbitrary, and which of several equal results is kept is not determined.
- TopHits.Consider: the heap is a set that gives up some largest element.
- CallHierarchy.IncomingCalls: which paths have a URL is a parameter, and ranges are converted by SpanConversion.
- DocumentSymbols.DocumentSymbolsFrom: the tree holds numbers of definitions; a stack entry finds its span through the number.
- CacheQueue.Channel.SendLatest: the disconnected branches are left out, both ends living as long as the server.
- LineIndex.New: texts are shorter than 4 GiB; beyond that the source truncates the byte offsets it stores.
- Occurrences.SortDistinct: an insertion sort stands for the library's sort and removal of neighbours.
- Joining symbol metadata to occurrences, short names and Unicode lower-casing: a row carries its metadata, and lower-casing is a parameter.
- Workspace handling of config, `adopt_index`, and the embedding API: not reached from `run_server`.
- Bazel, git, aspect execution, the notify watcher and its debouncing: watcher events are inputs.
- JSON-RPC, progress, status, telemetry, logging, URI handling and configuration: plumbing without invariants.
- SCIP protobuf and tree-sitter parsing: decoded documents are inputs.
- Salsa durability and recomputation, source roots: the database is a map from file id to text.
- Panics other than the overflow in a batch of edits, though the handlers catch them; wrap-around of 64-bit counters and exhaustion of 32-bit ids: counters are natural numbers.
- That a refreshed or explicitly loaded generation matches sources edited while it loaded: the source assumes it.
- The read cache of `convert_span`: it only saves repeated reads of a file.
