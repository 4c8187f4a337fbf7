# The serving and gating kernel of ExaMLOps, modelled and proved

ExaMLOps decides, many times a second and usually under partial failure, what is served, how often work is
retried and what data may train. This project models that code in Dafny and proves what it promises, for all
inputs, all runs and all interleavings the model admits.

| file | what it models |
|---|---|
| `data_contracts.dfy` | the contract compiler: many checks compiled into one schema, validated once, mapped back to their owners |
| `single_flight.dfy` | cold loads: N request threads, pollers and evictions over one lock per key |
| `snapshots.dfy`, `snapshot_reader.dfy` | applying serving snapshots; choosing among their sources, over runs with restarts |
| `reloads.dfy` | following the model registry when there is no snapshot, over passes that fail as they like |
| `following.dfy` | a replica's hot set over polls, cold loads under way and reloads together |
| `version_cache.dfy`, `predict_pool.dfy` | the LRU of raw versions; the poisoned predict pool |
| `artifact_cache.dfy` | the bounded, crash-tolerant cache of model files |
| `budgets.dfy`, `router.dfy`, `batches.dfy` | deadlines over hops, the retry budget, the router's attempts, batched requests |
| `utf8.dfy`, `raw_tensors.dfy`, `tensor_assembly.dfy` | the Open Inference Protocol v2: raw tensors and the array a model gets |
| `hostlists.dfy` | Slurm/Flux hostlists |
| `promotion.dfy`, `drift.dfy` | the alias lifecycle; drift-triggered retraining |
| `feature_gate.dfy`, `parquet_head.dfy` | the rows training data is judged by |
| `counting.dfy`, `wrappers.dfy` | how many elements of a list have a property; `Option` and `Result` |

Code that updates state in place is a class or a method with loops; each such method is proved against a
function of its inputs and the old state, and the theorems are about that function. Concurrent code is a step
relation whose steps are the code's atomic stretches, and the theorems hold for every sequence of steps.
`dafny verify dfyconfig.toml` checks everything.

## Where the code falls short of what is said or expected of it

Each of these is proved, most with the exact condition under which the expectation holds.

- "Two engines, one verdict" fails for a negative `max_null_rate`: no column can meet it, but the compiled
  not-null mask does not look at it. It holds for all tables if and only if no ceiling is negative
  (`EnginesAgreeIff`).
- `expand_hostlist` says that what cannot be parsed is returned verbatim, so that discovery never loses a
  node. A range with a side that is no integer, or one of more than 4300 digits, raises and fails the whole list
  (`RaisesIff`, `OneRangeFailsAll`, `TooManyDigits`), and a range that counts down yields nothing, beside others
  without a trace (`NothingIsCountedIff`, `ARangeIsLost`). The expansion keeps every node exactly when every range
  has readable integers for sides and none counts down, and the list is not spelled `None` or `(null)`, which is read
  as empty (`NoNodeIsLostIff`).
- A poll never retries a snapshot load of a generation it has applied (`OneChancePerGeneration`,
  `PollsOfOneGenerationDoNothing`, `AFailedLoadIsNotRetried`), and without a reload an old entry that was held back
  stays (`HeldBackStays`). The load is made up for exactly when the last decision about its key loads what the
  snapshot has (`FailedLoadsAreMadeUpIff`), as a reload can (`AReloadMakesUpForIt`).
- "The replica must serve what the snapshot says", but it only does when nothing else happens to an alias. A cold
  load that read the registry before the snapshot was applied is stored over it (`AStaleColdLoadStays`); one of an
  alias that has moved since runs ahead of it (`AColdLoadOvertakesTheSnapshot`), and so does the reload that ends
  a promotion (`AReloadOvertakesTheSnapshot`). Polls leave all of these alone until the next generation. After any
  run, agreement is decided by the last decision about each key (`AgreesIff`); it is lost exactly when one loads
  something else or drops what is wanted (`AgreementIsLostIff`, `WhatUndoes`). A cold load of the right version
  still lacks the snapshot's schema (`AColdLoadHasNoSchema`).
- With all sources down a replica answers the last snapshot it wrote if and only if the file has not been harmed
  since (`LastPersistedSurvivesIff`, `KeptIff`). A file swept from the temporary directory is not written again
  within the generation, though every poll could (`ASweptFileIsNotWrittenAgain`).
- A full registry pass says it mirrors the pass over one model in keeping the last-known-good entry. It does
  so when a load fails, but drops a healthy entry when its lookup finds the registry unreachable
  (`OneLookupDropsAHealthyEntry`). Through an outage an entry is held exactly unless a full pass misses it so and
  no later pass loads it (`HeldThroughAnOutageIff`).
- The freshest snapshot any source can give is not always the answer: when the database's body is skipped because
  the generation is already held, and a newer one is published between the two queries, the older is answered.
  It is the only way (`NothingHeldIsHigherIff`, `AnOvertakenShortcutAnswersTheOld`).
- The Archived version can carry a live alias after all: archiving goes ahead when the alias listing fails
  (`AttemptIsSoundIff`, `BlindArchivingBreaksIt`).
- The version that Production leaves is not always archived: over all retries it is if and only if the first
  attempt that moved Production had read it, survived, could move Archived, and found no other alias on it or
  could not list (`PreviousIsArchivedIff`). One fault is enough, whatever follows (`OneFaultLosesTheArchiving`).
- The retrain cooldown holds if and only if every post ends before a cooldown has passed and no command is taken
  whose answer is lost (`CooldownHoldsIff`). A slow post that is then refused gives back a cooldown that a later,
  accepted one holds (`SlowPostsBreakIt`); an accepted command whose answer times out gives back its own
  (`LostAnswersBreakIt`).
- Names that share a cache directory are served each other's files; hits are genuine if and only if no two names
  in use share one (`HitsAreGenuineIff`). It takes a `/`, `\` or `:`, or a component that is empty or `.`
  (`ImproperNamesCollide`); other names never do (`ProperNamesDoNotCollide`).
- The feature gate's outcome does not depend on the order of rows, as long as the row cap takes all of them
  (`OrderIsIrrelevantIffWithinTheCap`).
- A budget crossing a hop is said never to err short. A hop passes on less than is left exactly when that is no
  whole number of milliseconds (`HopErrsShortIff`, `AHopErrsShort`), a chain of hops exactly when something is
  left and some host spent no whole number of them (`ChainErrsShortIff`); less than a millisecond per hop is lost
  (`BudgetAlongHops`).
- The feature transformer says it re-stamps a budget after the batching wait and drops what nobody is waiting
  for. The deadline is only set up after the wait, so the wait is not charged (`WaitIsChargedIff`,
  `WholeBudgetIgnoresTheWait`, `ForwardedThoughNobodyWaits`) and drops nothing (`DroppedIff`).
- A transform that raises anything but a `ValueError` fails the whole batch: requests keep the answers they would
  have had alone exactly when no transform does (`IsolationIff`, `OneBadRequestFailsTheBatch`).
- A negative `RAY_VERSION_CACHE_SIZE` empties the cache on every insertion and answers not found, although
  the load succeeded (`VersionCaches.Cache.Put`).

## Model

| member | source | states |
|---|---|---|
| DataContracts.EnginesAgreeIff | pipelines/contracts/_pandera.py:27-144 | for every list of checks, of any kinds and hand-written ones included, both engines give the same names, severities and verdicts in order on every table, if and only if no null-rate ceiling is negative |
| DataContracts.CheckVerdictsDifferExactly | pipelines/contracts/_pandera.py:58-96 | check by check, the one case in which the verdicts part, and which way |
| DataContracts.FiledChecksOwnTheirSubChecks | pipelines/contracts/_pandera.py:42-56 | compiling a check only appends and leaves it owning exactly its sub-checks, in order |
| DataContracts.OwnershipIsStable | pipelines/contracts/_pandera.py:49-56 | a position once owned holds the same sub-check after any later appends |
| DataContracts.OwnersDecide | pipelines/contracts/_pandera.py:98-144 | no owned position has a failure case if and only if the check's own sub-checks hold of its column |
| DataContracts.SchemaCompiler.Touch | pipelines/contracts/_pandera.py:42-47 | new state: an owner entry and a required column, nothing else |
| DataContracts.SchemaCompiler.Add | pipelines/contracts/_pandera.py:49-56 | new state: one sub-check at the end of its column, owned by the check that added it |
| DataContracts.SchemaCompiler.Compile | pipelines/contracts/_pandera.py:68-96 | the branch of each kind files exactly that kind's sub-checks |
| DataContracts.SchemaCompiler.AddRange | pipelines/contracts/_pandera.py:82-87 | a range files at most two sub-checks, lower bound first, for the ends it has |
| DataContracts.RunCompiled | pipelines/contracts/_pandera.py:27-144 | filing, one validation and the mapping back give each check the verdict of its own sub-checks |
| DataContracts.MapBack | pipelines/contracts/_pandera.py:124-144 | the result loop, for any filing in which every check owns its sub-checks |
| DataContracts.JudgeOne | pipelines/contracts/_pandera.py:124-144 | a missing column or a failing owned position fails a check, and nothing else does |
| DataContracts.Build | pipelines/contracts/__init__.py:163-314 | each builder's predicate reads only its own column and means what its declarative form says |
| DataContracts.ColumnPassesIff | pipelines/contracts/__init__.py:139-181 | a presence check passes exactly when the column is there and, as asked, holds strings and nulls only or has a dtype whose name contains the text |
| DataContracts.NotNullPassesIff | pipelines/contracts/__init__.py:184-195 | a null check passes exactly when the column is there and its nulls number at most the ceiling's share of its rows |
| DataContracts.InRangePassesIff | pipelines/contracts/__init__.py:198-216 | a range check passes exactly when the column is there and every value that is not null is a number within both bounds, ends included |
| DataContracts.CategoricalPassesIff | pipelines/contracts/__init__.py:219-229 | a domain check passes exactly when the column is there and every value that is not null is one of those allowed |
| DataContracts.EmbeddingPassesIff | pipelines/contracts/__init__.py:243-267 | an embedding check passes exactly when the column is there, has a value, and every one has the dimension |
| DataContracts.MinRowsPassesIff | pipelines/contracts/__init__.py:270-277 | a row check looks at the sampled table's own size where it is given |
| DataContracts.ValidateContract | pipelines/contracts/__init__.py:90-129 | the result passes exactly when every check of severity Error does, and its score is the share of all checks that do, in contract order; neither the engine setting nor a missing or faulty library moves any of it when the ceilings are rates |
| SingleFlight.RunKeepsInv | serving/ray_serving/app.py:1113-1194 | in every interleaving a load lock has one holder, and caches and answers carry the version their key names |
| SingleFlight.OneLoadInFlight | serving/ray_serving/app.py:1113-1149 | two threads loading under one key's lock are one thread |
| SingleFlight.AnswersCarryTheirVersion | serving/ray_serving/app.py:1161-1194 | a raw-version request is answered with that version of that model |
| SingleFlight.LookAnswersIff | serving/ray_serving/app.py:1044-1055 | a look answers with the entry held under the key, or by alias under the model's name in small letters, exactly when there is one |
| SingleFlight.LowerIs | serving/ray_serving/app.py:1044-1055 | small letters for capitals, and nothing else changed |
| SingleFlight.AnswersAreHeldOrLoaded | serving/ray_serving/app.py:1127-1149 | a request is only answered with an entry held at that moment or with what it has loaded |
| SingleFlight.CachedAfter | serving/ray_serving/app.py:1121-1194 | which step changes the caches, key by key, and what pollers and reloads leave alone |
| SingleFlight.LocksAreSharedIff | serving/ray_serving/app.py:1113-1119 | two keys share a load lock exactly when they are of one model and spelled alike, a version with a `v` in front |
| SingleFlight.LoadsNeedADeparture | serving/ray_serving/app.py:1121-1194 | in every run, between any two loads of one key there is a moment at which it is not held |
| SingleFlight.StepSpendsCredit | serving/ray_serving/app.py:1136-1149 | a load spends the one credit its key has; only leaving the cache gives it back |
| SingleFlight.LoadsArePaidFor | serving/ray_serving/app.py:1121-1194 | over any window of any run, successful loads of a key number at most one more than the steps in which it leaves the caches |
| SingleFlight.CountsAre | serving/ray_serving/app.py:1121-1194 | the loads and departures counted there are the events that store the key and those after which it is no longer held |
| SingleFlight.NoDeadlock | serving/ray_serving/app.py:1136-1147 | while a request is unfinished some thread can move |
| SingleFlight.FiveStepsEach | serving/ray_serving/app.py:1121-1194 | without new arrivals the threads take at most five steps for each unfinished request, whatever pollers do |
| Snapshots.ConvergesIff | serving/ray_serving/app.py:821-873 | from any history, applying a snapshot reaches exactly its versions with every served alias, if and only if no needed load failed |
| Snapshots.ConvergedReplicasAgree | serving/ray_serving/app.py:821-873 | any two converged replicas hold the same model, version and schema |
| Snapshots.ApplyingAgainLoadsNothing | serving/ray_serving/app.py:839-843 | a converged replica needs no load and does not change, even if every load would fail |
| Snapshots.NothingIsLostToAFailedLoad | serving/ray_serving/app.py:844-866 | under any failures no key outside the snapshot remains, and exactly which served keys leave |
| Following.PollsOfOneGenerationDoNothing | serving/ray_serving/app.py:805-819 | over any run of polls, cold loads and reloads, the polls of an applied generation might as well not be there |
| Following.OneChancePerGeneration | serving/ray_serving/app.py:805-873 | while nothing but polls of the generation happens the hot set does not move, and it is converged if and only if the poll that applied it had no failing load |
| Following.TheLastDecisionStands | serving/ray_serving/app.py:741-1149 | after any run of polls, cold loads and reloads, over any generations and with any failures: what is hot of a key is what the last event to decide about it decided |
| Following.SomeEventDecides | serving/ray_serving/app.py:741-1149 | that decision is the one of an event of the run after which none decides about the key |
| Following.AgreesIff | serving/ray_serving/app.py:741-1149 | over any run, from any hot set and any cold loads under way: the replica ends up agreeing with a snapshot, with or without the schemas, exactly when each key's last decision loads what the snapshot has or drops what it does not want, or there is none and the key was right before |
| Following.AgreementIsConvergence | serving/ray_serving/app.py:821-827 | with the schemas, agreeing is what applying a snapshot without failures reaches |
| Following.FailedLoadsAreMadeUpIff | serving/ray_serving/app.py:839-866 | after applying a generation and whatever follows, the replica agrees with it exactly when the last decision about each needed key whose load failed loads one and no last decision undoes agreement |
| Following.AgreementIsLostIff | serving/ray_serving/app.py:821-827 | after a poll without failures, agreement is lost exactly when the last decision about some key loads something else than the snapshot has or drops what it wants |
| Following.WhatUndoes | serving/ray_serving/app.py:894-929 | within a generation that decision is of a cold load that read another version, of a reload of the alias that finds another or none, or of a full reload |
| Following.HeldBackStays | serving/ray_serving/app.py:862-866 | without a reload no request or poll of the generation touches an entry that is held |
| Following.AliasByAlias | serving/ray_serving/app.py:890-929 | reloading the aliases of a model one by one, with nothing in between, is the pass over it |
| Following.AFailedLoadIsNotRetried | serving/ray_serving/app.py:862-866 | a concrete run in which the old version stays |
| Following.AReloadMakesUpForIt | serving/ray_serving/app.py:1778-1782 | a reload after which it does not |
| Following.AStaleColdLoadStays | serving/ray_serving/app.py:1140-1148 | a concrete run in which the version before the snapshot is served for the whole generation |
| Following.AColdLoadOvertakesTheSnapshot | serving/ray_serving/app.py:1129-1149 | a concrete run in which a cold alias that has moved is loaded ahead of the snapshot |
| Following.AReloadOvertakesTheSnapshot | serving/ray_serving/app.py:1778-1782 | a concrete run in which the reload after a promotion does the same to a served alias |
| Following.AColdLoadHasNoSchema | serving/ray_serving/app.py:1141-1145 | a concrete run that ends with the snapshot's version and not its schema |
| Snapshots.MultiModelServer.ApplySnapshot | serving/ray_serving/app.py:821-884 | new hot set, raw-version cache and generation, whatever loads fail |
| Snapshots.MultiModelServer.ApplyNewest | serving/ray_serving/app.py:805-819 | False without a snapshot; a generation already applied changes neither the hot set nor the raw-version cache |
| Snapshots.MatchSnapshot | serving/ray_serving/app.py:832-866 | the walk over all models decides every alias independently of the order |
| Snapshots.WalkIs | serving/ray_serving/app.py:832-866 | after any number of aliases the walk has made exactly the hot set of the part of the snapshot seen, and loaded what that part needs |
| Snapshots.MatchListing | serving/ray_serving/app.py:837-866 | the inner loop decides exactly the aliases of its model |
| Snapshots.DecideOne | serving/ray_serving/app.py:838-866 | one alias is kept, left out, loaded, or kept because its load failed |
| SnapshotReader.HighestHeldWins | serving/ray_serving/snapshot.py:69-115 | in every run over published snapshots, when the newest row is sound, the answer is a verified snapshot of maximal generation among those the reachable sources hold; with none held, a database that answers means none and never the file |
| SnapshotReader.WithoutAMirror | serving/ray_serving/snapshot.py:87-115 | with nothing from the mirror: a database without a snapshot, or whose row does not verify, answers none whatever is on disk; one that is down, or whose row cannot be read, leaves the file; and the state after each |
| SnapshotReader.WithASource | serving/ray_serving/snapshot.py:87-127 | with a snapshot from either source or both: which is answered, what is kept, from where, and what is written |
| SnapshotReader.EveryCase | serving/ray_serving/snapshot.py:60-78 | there is no other case |
| SnapshotReader.NothingHeldIsHigherIff | serving/ray_serving/snapshot.py:69-115 | in any state and for any poll: nothing held is newer than the answer, unless the body was skipped while a newer snapshot was published |
| SnapshotReader.AnOvertakenShortcutAnswersTheOld | serving/ray_serving/snapshot.py:69-78 | a concrete poll of that kind |
| SnapshotReader.HighestVerifiedGenerationWins | serving/ray_serving/snapshot.py:87-115 | the same for what the sources offer, skipped bodies included |
| SnapshotReader.ShortcutIsExactInRunsIff | serving/ray_serving/snapshot.py:69-127 | in every run with restarts and damaged copies, skipping the body reads like a full read exactly when it was not skipped or the row is sound; skipped, it gives the published snapshot of the announced generation |
| SnapshotReader.ShortcutIsExactIff | serving/ray_serving/snapshot.py:69-78 | skipping the body reads like a full read exactly when the stored row is the one kept |
| SnapshotReader.RunKeepsPublished | serving/ray_serving/snapshot.py:87-127 | over any run with restarts and harm to the file, what is kept is what was published, and so is what this process wrote unless the file was harmed since |
| SnapshotReader.KeptIff | serving/ray_serving/snapshot.py:117-127 | the file is kept exactly when some step wrote it and no later one harmed it |
| SnapshotReader.QuietKeepsTheFile | serving/ray_serving/snapshot.py:117-127 | steps that write nothing leave the file as it was, or as harm leaves it |
| SnapshotReader.LastPersistedSurvivesIff | serving/ray_serving/snapshot.py:87-127 | with all sources down, even a restarted reader answers the last snapshot written, if and only if the file has not been harmed since; otherwise it has no answer |
| SnapshotReader.ASweptFileIsNotWrittenAgain | serving/ray_serving/snapshot.py:117-119 | a concrete run: swept, then polled again in the same generation, and nothing is answered in the outage; with a restart in between it is |
| SnapshotReader.Reader.Newest | serving/ray_serving/snapshot.py:87-127 | answer and new state, the file included |
| Reloads.HotSet.LoadAll | serving/ray_serving/app.py:741-799 | new hot set after a full pass; untouched when the registry cannot be listed |
| Reloads.HotSet.ReloadOne | serving/ray_serving/app.py:890-929 | new hot set and raw-version cache after a pass over one model |
| Reloads.FullPassLosesIff | serving/ray_serving/app.py:763-792 | which held keys a full pass drops: unlisted, unserved, or with a lookup that brought no version |
| Reloads.OnePassLosesIff | serving/ray_serving/app.py:894-912 | a held key is dropped if and only if the registry says its alias is gone |
| Reloads.PassesAgreeIff | serving/ray_serving/app.py:768-784 | the passes differ on a held key exactly when its lookup finds the registry unreachable |
| Reloads.TheLastDecisionStands | serving/ray_serving/app.py:741-929 | after any sequence of passes over a registry and a store that fail as they like, what is held of a key is what the last pass to decide about it decided, or what was held before |
| Reloads.HeldThroughAnOutageIff | serving/ray_serving/app.py:763-912 | through any outage a held key stays held exactly unless a full pass misses it and no later pass loads it; passes over one model never lose it |
| Reloads.OneLookupDropsAHealthyEntry | serving/ray_serving/app.py:768-784 | one unreachable lookup: a full pass drops the entry, a pass over its model keeps it |
| Reloads.PassesFollowTheRegistry | serving/ray_serving/app.py:770-778 | reachable and loadable aliases end at the registry's version, and entries hold the bytes they name |
| VersionCaches.RunStaysSound | serving/ray_serving/app.py:1161-1194 | in every interleaving with invalidations: within the size, in order of last use, each key once with its own artifact |
| VersionCaches.AnswersAreTheArtifact | serving/ray_serving/app.py:1164-1169 | what a lookup answers after any run is what loading that version gives |
| VersionCaches.TheLeastRecentIsEvicted | serving/ray_serving/app.py:1189-1193 | only a full cache evicts, and only the key used before all that stay |
| VersionCaches.RunHoldsTheMostRecent | serving/ray_serving/app.py:1161-1194 | between invalidations the cache is exactly the most recently used keys, in that order |
| VersionCaches.HoldsTheMostRecent | serving/ray_serving/app.py:1189-1193 | trimming at every use equals keeping the whole order of last use and trimming once |
| VersionCaches.LargerHoldsMore | serving/ray_serving/app.py:569-579 | a larger cache never misses where a smaller one hits |
| VersionCaches.Cache.Get | serving/ray_serving/app.py:1164-1169 | the entry, moved to the end on a hit; unchanged on a miss |
| VersionCaches.Cache.Put | serving/ray_serving/app.py:1189-1193 | the new order, and that popping raises exactly for a negative size |
| VersionCaches.Cache.Resolve | serving/ray_serving/app.py:1161-1222 | hit, miss and failed load: answer and new cache |
| VersionCaches.Cache.Invalidate | serving/ray_serving/app.py:868-869 | exactly the entries of the moved models go |
| VersionCaches.DroppedAreNotFound | serving/ray_serving/app.py:868-869 | after an invalidation no version of those models is found and every other is as it was |
| PredictPool.RecyclesAreAccountedFor | serving/ray_serving/app.py:1057-1111 | in every interleaving `recycles * workers` never exceeds the running timeouts, and a full pool has a thread about to recycle it |
| PredictPool.TimeoutsAreCounted | serving/ray_serving/app.py:1057-1101 | what a timeout, cancelled or not, and a recycling thread do to the counters |
| PredictPool.ReturnsAreDiscounted | serving/ray_serving/app.py:1072-1084 | any number of late returns takes as much off the count, down to nothing |
| PredictPool.Accounting.Note | serving/ray_serving/app.py:1057-1084 | a call cancelled in time counts nothing; the recycle is called exactly when the count reaches the workers |
| PredictPool.Accounting.RecyclePool | serving/ray_serving/app.py:1086-1101 | a second recycler changes nothing |
| ArtifactCaches.HitsAreGenuineIff | serving/ray_serving/artifact_cache.py:81-152 | with a crash at any step and any decay of files, hits serve only bytes downloaded for that name and version, if and only if no two names in use share a directory that can be filled |
| ArtifactCaches.RunKeepsManifestsTrue | serving/ray_serving/artifact_cache.py:119-152 | every readable manifest tells of a finished download into its directory |
| ArtifactCaches.HarmLeavesAnything | serving/ray_serving/artifact_cache.py:95-148 | the runs of those results include any loss or damage of files, short of forged manifests |
| ArtifactCaches.HashedIff | serving/ray_serving/artifact_cache.py:53-58 | the digest covers exactly the readable files that are not named like the manifest |
| ArtifactCaches.ProperNamesDoNotCollide | serving/ray_serving/artifact_cache.py:36-82 | names and versions that are one path component as they stand never share a directory |
| ArtifactCaches.ImproperNamesCollide | serving/ray_serving/artifact_cache.py:36-82 | a slash, backslash or colon shares its directory with the other two; an empty component or `.` with its absence; `..` leads where no download can be put |
| ArtifactCaches.FillableIff | serving/ray_serving/artifact_cache.py:36-82 | which names lead to a directory a download can be moved to |
| ArtifactCaches.UnderIff | serving/ray_serving/artifact_cache.py:95-146 | what clearing a directory removes, the root and those above it included |
| ArtifactCaches.EvictionIsLeastRecentlyUsed | serving/ray_serving/artifact_cache.py:170-187 | afterwards the entries fit or only those in use remain; nothing evicted is in use or used later than what stays, nor larger when used together; none goes while it fits; it stops as soon as it does |
| ArtifactCaches.TheLastServedIsSpared | serving/ray_serving/artifact_cache.py:103-187 | an eviction that leaves anything not in use leaves the entry that the latest hit stamped |
| ArtifactCaches.InOrderIsOlder | serving/ray_serving/artifact_cache.py:168-176 | entries are sorted by last use, then size, then path |
| ArtifactCaches.PathLeqIff | serving/ray_serving/artifact_cache.py:176 | paths are ordered by their first component that differs |
| ArtifactCaches.TextLeqIff | serving/ray_serving/artifact_cache.py:176 | components are ordered by their first character that differs |
| ArtifactCaches.ListedAgainIsLeft | serving/ray_serving/artifact_cache.py:158-187 | listing the tree again after an eviction gives exactly the entries the loop left, in their order |
| ArtifactCaches.EvictingAgainDropsNothing | serving/ray_serving/artifact_cache.py:171-187 | so a second eviction drops nothing and leaves the tree as it is |
| ArtifactCaches.EntriesDescribe | serving/ray_serving/artifact_cache.py:158-168 | the sorted listing holds exactly the directories with a readable manifest |
| ArtifactCaches.FetchedIsServed | serving/ray_serving/artifact_cache.py:117-187 | a fetch survives its own eviction, whatever else is on disk: the next lookup hits exactly the downloaded bytes |
| ArtifactCaches.EvictionSparesTheFetched | serving/ray_serving/artifact_cache.py:151-187 | no evicted directory holds a file of the one just placed, not even from above or below |
| ArtifactCaches.Cache.VerifiedHit | serving/ray_serving/artifact_cache.py:85-108 | when it hits, and the tree after: stamped, removed, or left alone |
| ArtifactCaches.Cache.Evict | serving/ray_serving/artifact_cache.py:171-187 | the directories dropped, in order, and the tree after; nothing without a bound |
| ArtifactCaches.Cache.EvictOldest | serving/ray_serving/artifact_cache.py:179-187 | the eviction loop over the sorted entries |
| ArtifactCaches.Cache.Fetch | serving/ray_serving/artifact_cache.py:117-152 | hit, failed download, empty download, nowhere to put it, success: result and tree |
| Budgets.FromBudget | serving/budgets.py:59-83 | never later than the cap, never in the past, whatever header came |
| Budgets.Deadline.BudgetMs | serving/budgets.py:92-94 | at most the remaining time, and within a millisecond of it |
| Budgets.HopIgnoresTheClock | serving/budgets.py:55-94 | what a hop passes on does not depend on the host's clock |
| Budgets.OneHop | serving/budgets.py:55-94 | what leaves a hop is never more than came in, than the cap, or than is left; less than a millisecond is lost. Time is counted from when the host set its deadline up: queueing for a batch before that is outside it |
| Budgets.BudgetAlongHops | serving/inference_pipeline/app.py:693-708 | the same along any chain of hops, with the same meaning of time spent, and once spent a budget stays spent |
| Budgets.HopErrsShortIff | serving/budgets.py:85-94 | a hop passes on less than is left exactly when what is left is no whole number of milliseconds |
| Budgets.ChainErrsShortIff | serving/budgets.py:55-94 | a chain passes on less than is left exactly when something is left and some host spent no whole number of milliseconds |
| Budgets.AHopErrsShort | serving/budgets.py:92-94 | a concrete hop |
| Budgets.TokensStayInside | serving/budgets.py:125-131 | over any run the tokens stay between zero and the maximum |
| Budgets.AnswersRefill | serving/budgets.py:125-127 | any number of answers puts back the ratio for each, up to the bucket's size |
| Budgets.FailuresDrain | serving/budgets.py:129-131 | any number of failures takes a token each, down to none |
| Budgets.GrantsArePaidFor | serving/budgets.py:125-135 | granted retries are fewer than the tokens above half plus what answers refill |
| Budgets.RetriesAreThrottled | serving/budgets.py:110-135 | over any window of any interleaving, retries stay below half the bucket plus the ratio for each answer, despite clamping |
| Budgets.BurstIsRetriedIff | serving/budgets.py:129-135 | the bound is reached: a burst from a full bucket is retried in full if and only if it is shorter than half of it |
| Budgets.NewRetryBudget | serving/budgets.py:110-117 | sizes that are not positive are refused |
| Budgets.RetryBudget.RecordSuccess | serving/budgets.py:125-127 | new token count, clamped above |
| Budgets.RetryBudget.RecordFailure | serving/budgets.py:129-131 | new token count, clamped below |
| Budgets.RetryBudget.CanRetry | serving/budgets.py:133-135 | allowed exactly above half |
| Router.AttemptsAreBounded | serving/inference_pipeline/app.py:255-344 | for every sequence of outcomes: at most one POST more than the retries, each before the deadline, at most two lost replicas taken |
| Router.ReturnsByTheDeadline | serving/inference_pipeline/app.py:271-344 | if every POST honours its timeout the call returns no later than the deadline |
| Router.OnlyTransientFailuresAreRetried | serving/inference_pipeline/app.py:285-309 | every POST but the last ended in a transport error, a 503 or a lost replica, and left room for the next |
| Router.PredictionIffTheLastPostBroughtIt | serving/inference_pipeline/app.py:310-344 | the call answers with a prediction exactly when its last POST brought one |
| Router.GoesRoundIff | serving/inference_pipeline/app.py:271-343 | the loop goes round again exactly after a timeout before the deadline, another transport error, a 503 or a first lost replica, with an attempt left, time for the backoff and a twentieth of a second, and more than half of the tokens after this failure |
| Router.AttemptAnswers | serving/inference_pipeline/app.py:271-330 | what an attempt answers and does to the bucket, for every outcome and status |
| Router.BudgetSpentIff | serving/inference_pipeline/app.py:330-343 | the answer says that the retry budget is spent exactly when nothing but the tokens stood in the way |
| Router.BackoffDoubles | serving/inference_pipeline/app.py:332 | the backoff doubles from a tenth of a second |
| Router.PostsIff | serving/inference_pipeline/app.py:271-344 | a call makes more than `k` POSTs exactly when it can begin and its first `k` attempts were each worth another |
| Router.LastAttemptAnswers | serving/inference_pipeline/app.py:271-344 | a call that posts ends with the answer, at the time and with the tokens of its last attempt |
| Router.NoAttempt | serving/inference_pipeline/app.py:268-274 | a call that cannot begin answers at once, and how |
| Router.RetriesReachThePrediction | serving/inference_pipeline/app.py:271-344 | a call whose first `k` attempts are worth another and whose next one brings a prediction answers with it after `k + 1` POSTs |
| Router.OneAttempt | serving/inference_pipeline/app.py:271-343 | one POST each turn, when it starts and ends, and what a further turn presupposes |
| Router.AttemptsFollowTheProtocol | serving/inference_pipeline/app.py:271-343 | a call posts, is judged once per POST, and stops at a refusal |
| Router.PostsAreAccountedFor | serving/inference_pipeline/app.py:267-344 | in every interleaving a POST is a request's first or spends a granted retry |
| Router.WhatMayFollow | serving/inference_pipeline/app.py:285-343 | after a judgement only a request that was granted a retry takes a further step, and it sends |
| Router.BegunAreCounted | serving/inference_pipeline/app.py:267-344 | the requests begun are the ones of the run that were not there before |
| Router.PostsAreCounted | serving/inference_pipeline/app.py:275-281 | the POSTs are the steps that send |
| Router.LoadIsNotAmplified | serving/inference_pipeline/app.py:267-344 | over any window total POSTs stay below requests plus half the bucket plus the ratio for each answer |
| Router.CallsAreAFleet | serving/inference_pipeline/app.py:255-344 | every interleaving of any number of calls, each running the loop over one shared bucket, is a run of the step relation the bound is proved for |
| Router.ACallAlone | serving/inference_pipeline/app.py:255-344 | a call that nothing interleaves with, from its arrival on, takes exactly the steps of the whole call and leaves its tokens |
| Router.CallsAreNotAmplified | serving/inference_pipeline/app.py:255-344 | so the calls of a process never post more than the requests begun, half the bucket and the ratio for each answer |
| Router.OneIsJudging | serving/inference_pipeline/app.py:271-343 | a turn of the loop depends on other requests only through the tokens it finds |
| Router.Attempt | serving/inference_pipeline/app.py:271-343 | the loop body's log and the shared budget after it, other requests included |
| Router.Attempts | serving/inference_pipeline/app.py:255-344 | the whole call's log and the budget after it |
| Batches.HandleBatch | serving/inference_pipeline/app.py:508-541 | each request gets, at its own position, what it would get alone, or the exception when some transform raises one; exactly the valid unexpired ones are forwarded, in order |
| Batches.TransformAll | serving/inference_pipeline/app.py:497-505 | the loop gets through exactly when no transform raises anything but a `ValueError` |
| Batches.RouteAll | serving/inference_pipeline/app.py:529-539 | the answers of the forwarded requests, each at its own position, the others untouched |
| Batches.FailedByItsCompanyIff | serving/inference_pipeline/app.py:497-515 | a request gets another answer than alone exactly when its own transform gets through and another's raises |
| Batches.IsolationIff | serving/inference_pipeline/app.py:508-541 | in a batch in which some transform gets through, every request gets what it would get alone if and only if none raises |
| Batches.OneBadRequestFailsTheBatch | serving/inference_pipeline/app.py:477-515 | a concrete batch of two |
| Batches.DroppedIff | serving/inference_pipeline/app.py:520-526 | a request is dropped exactly when its budget is used up between setting its deadline up and checking it: with no time between them, exactly when it came with none |
| Batches.WaitIsChargedIff | serving/inference_pipeline/app.py:507-527 | a forwarded budget stays within what the batching wait left exactly when the wait is no longer than what flooring takes off |
| Batches.WholeBudgetIgnoresTheWait | serving/inference_pipeline/app.py:507-527 | a whole number of milliseconds is forwarded whole whatever the wait, and is within what is left if and only if there was none |
| Batches.ForwardedThoughNobodyWaits | serving/inference_pipeline/app.py:507-527 | twenty milliseconds forwarded in full after a wait of fifty |
| Utf8.DecodeOfEncode | serving/oip_grpc/server.py:149-153 | decoding an encoded string gives it back |
| Utf8.EncodeOfDecode | serving/oip_grpc/server.py:149-153 | bytes that decode are the encoding of what they decode to |
| RawTensors.BytesAcceptedIff | serving/oip_grpc/server.py:156-183 | a byte string is accepted exactly when it is the concatenation of `product(shape)` length-prefixed UTF-8 elements, and those are the answer |
| RawTensors.ParseOfEncode | serving/oip_grpc/server.py:163-178 | decoding what was encoded gives the elements back |
| RawTensors.EncodeOfParse | serving/oip_grpc/server.py:163-178 | encoding what was decoded gives the bytes back |
| RawTensors.ReadOfWriteWords | serving/oip_grpc/server.py:179-183 | fixed-width words, signed ones and booleans included, read back as written |
| RawTensors.WriteOfRead | serving/oip_grpc/server.py:179-183 | what is read can be written, and is written back as it was, but for a boolean spelled by another byte than one |
| RawTensors.RawFormMeansTheSame | serving/oip_grpc/server.py:156-183 | a tensor typed or raw gives the same values, and the same refusal |
| RawTensors.RawWordsAre | serving/oip_grpc/server.py:67-183 | datatype by datatype: how many bytes an element takes and which value they spell, two's complement and little-endian; a wrong count or a negative dimension is refused |
| RawTensors.OthersAreRefused | serving/oip_grpc/server.py:173-176 | a datatype of any other name is refused |
| RawTensors.ProductOfBoth | serving/oip_grpc/server.py:143-146 | the number of elements is the product of the dimensions, one for a scalar |
| RawTensors.TypedReadsItsField | serving/oip_grpc/server.py:52-65 | which field of the contents each datatype is read from, element by element; two have none |
| RawTensors.TypedAndRawAgree | serving/oip_grpc/server.py:186-231 | the same request typed or raw yields the same REST body |
| RawTensors.DecodeRaw | serving/oip_grpc/server.py:143-183 | the decoder with its offset, every refusal included |
| RawTensors.ParseAll | serving/oip_grpc/server.py:163-178 | the offset loop reads element after element to the end of the bytes |
| RawTensors.RequestToJson | serving/oip_grpc/server.py:186-231 | the request's tensors in order, or the first refusal |
| TensorAssembly.ReadTensor | serving/ray_serving/oip.py:181-203 | an accepted tensor has non-negative dimensions whose product is its size |
| TensorAssembly.ReadAll | serving/ray_serving/oip.py:210-213 | accepted exactly when every tensor is, each in its place |
| TensorAssembly.RowsAt | serving/ray_serving/oip.py:199-203 | row-major: cell `[i, c]` is element `i * k + c` |
| TensorAssembly.StackAt | serving/ray_serving/oip.py:266-269 | every cell is its block's cell at the block's prefix-sum offset |
| TensorAssembly.ToArray | serving/ray_serving/oip.py:206-235 | an accepted request has at least one row and the signature's width, when that is known |
| TensorAssembly.AcceptedIff | serving/ray_serving/oip.py:181-269 | which requests are accepted, both ways: sound tensors; a block of rows, or distinct columns of as many rows, exactly the signature's; a row at least; the signature's width |
| TensorAssembly.ProductOfBoth | serving/ray_serving/oip.py:199-203 | the number of elements is the product of the dimensions |
| TensorAssembly.CellsComeFromTheirTensor | serving/ray_serving/oip.py:238-269 | in an accepted column request each cell is the right cell of the right named tensor |
| TensorAssembly.RowsComeFromTheTensor | serving/ray_serving/oip.py:215-225 | an accepted block of rows is the tensor's data |
| TensorAssembly.OrderOfInputsIsIrrelevant | serving/ray_serving/oip.py:238-269 | with a signature, permuting the inputs changes neither acceptance nor the array |
| TensorAssembly.CollectBlocks | serving/ray_serving/oip.py:239-249 | the loop that files tensors by name, duplicates and shapes refused |
| TensorAssembly.BuildColumns | serving/ray_serving/oip.py:238-269 | the column form step by step |
| TensorAssembly.BuildArray | serving/ray_serving/oip.py:206-235 | the whole request step by step |
| Hostlists.RoundTrip | platform/infra/slurm-adapter/discovery.py:190-238 | for ranges of any digits and hyphens: expanding a printed hostlist gives exactly the lexicographic product of its ranges, or the failure, if and only if it is not spelled like one of the two words for no nodes |
| Hostlists.AroundIt | platform/infra/slurm-adapter/discovery.py:197-199 | white space around a list does not matter |
| Hostlists.IsSpaceIff | platform/infra/slurm-adapter/discovery.py:197 | which characters are white space |
| Hostlists.NoNodeIsLostIff | platform/infra/slurm-adapter/discovery.py:190-238 | returning verbatim whatever cannot be expanded, as documented, is what happens exactly when every range has integers that `int` reads for sides and none counts down, and the list is not one of the two words |
| Hostlists.NothingIsCountedIff | platform/infra/slurm-adapter/discovery.py:230-234 | a range of integers yields no name exactly when it counts down |
| Hostlists.ARangeIsLost | platform/infra/slurm-adapter/discovery.py:229-236 | a concrete list that drops one range and keeps the other |
| Hostlists.RaisesIff | platform/infra/slurm-adapter/discovery.py:197-236 | the whole call raises exactly when some range it reaches has a hyphen and a side that is no integer, or has more digits than `int` reads |
| Hostlists.TooManyDigits | platform/infra/slurm-adapter/discovery.py:231-233 | a side of more than 4300 digits is never read, leading zeros counted |
| Hostlists.ManyDigitsAreRead | platform/infra/slurm-adapter/discovery.py:231-233 | up to 4300 digits are read, in either sign |
| Hostlists.OneRangeFailsAll | platform/infra/slurm-adapter/discovery.py:229-233 | one such range in the first group of any piece fails the whole list |
| Hostlists.UnreadableRanges | platform/infra/slurm-adapter/discovery.py:231-233 | `1-2-3`, `-3`, `1-` and `1--` are such ranges, `1--3` is not |
| Hostlists.ProductAt | platform/infra/slurm-adapter/discovery.py:220-236 | the product is lexicographic |
| Hostlists.PaddingIsKept | platform/infra/slurm-adapter/discovery.py:230-234 | consecutive numbers from `lo`, none narrower than `lo`, all of one width when both ends are |
| Hostlists.GroupIs | platform/infra/slurm-adapter/discovery.py:214-219 | brackets strictly fall from a piece to what surrounds its first group, so the recursion ends |
| Hostlists.ExpandHostlist | platform/infra/slurm-adapter/discovery.py:190-238 | the loops and the recursion on every string, errors included |
| Hostlists.SplitPieces | platform/infra/slurm-adapter/discovery.py:202-212 | the character loop splits at the commas outside brackets |
| Hostlists.ExpandPiece | platform/infra/slurm-adapter/discovery.py:213-236 | one piece: verbatim, or every name of its first group expanded |
| Hostlists.EmitRange | platform/infra/slurm-adapter/discovery.py:229-236 | one range's names, in order, each expanded if a group follows |
| Promotion.ArchivedIsNeverLiveIff | pipelines/pipeline_generator.py:1755-1911 | over any sequence of promotions of fresh versions, with crashes and retries anywhere, Archived never carries a live alias, if and only if no attempt archives blindly a version that is still live |
| Promotion.AttemptIsSoundIff | pipelines/pipeline_generator.py:1868-1900 | one attempt keeps that exactly unless it archives blindly a version that is still live |
| Promotion.BlindArchivingBreaksIt | pipelines/pipeline_generator.py:1878-1888 | a concrete run in which it does |
| Promotion.PreviousIsArchivedIff | pipelines/pipeline_generator.py:1809-1900 | over all attempts of a promotion, crashes and retries included, the version Production leaves ends up Archived if and only if the first attempt that moved Production had read it, survived, could move Archived, and found no other alias on it or could not list |
| Promotion.OneAttemptArchivesIff | pipelines/pipeline_generator.py:1809-1900 | one attempt: Production and Archived afterwards, in terms of what went wrong in it |
| Promotion.OneFaultLosesTheArchiving | pipelines/pipeline_generator.py:1809-1900 | a concrete promotion: any one of three faults, then a perfect attempt, and nothing is archived |
| Promotion.NoRetryArchives | pipelines/pipeline_generator.py:1809-1816 | once Production has moved, no retry archives anything |
| Promotion.ClimbIs | pipelines/pipeline_generator.py:1826-1860 | the aliases set are exactly the qualifying stages up to the refusal or the crash; the gate is asked at most once, and exactly when a gated stage is reached |
| Promotion.RefusedMovesOnlyStaging | pipelines/pipeline_generator.py:1818-1848 | a refused gate moves no alias but Staging |
| Promotion.NoGapIffTightening | pipelines/pipeline_generator.py:1673-1677 | on one metric and direction, stages are climbed without a gap for every value exactly when thresholds tighten |
| Promotion.SetAliasesAreAPrefix | pipelines/pipeline_generator.py:1826-1860 | then the aliases an attempt sets are a prefix of the ladder, gate and crash included |
| Promotion.Registry.WalkRules | pipelines/pipeline_generator.py:1826-1860 | the walk over the rules: aliases moved in order, whether it died, questions asked |
| Promotion.Registry.Promote | pipelines/pipeline_generator.py:1755-1911 | the aliases after one attempt, whether it died, how often it asked the gate |
| Drift.CooldownHoldsIff | platform/clients/dataplane_bus_bridge.py:487-551 | over all runs, any two retrains that follow start a cooldown apart, if and only if every post ends before a cooldown has passed and no command is taken whose post fails |
| Drift.SlowPostsBreakIt | platform/clients/dataplane_bus_bridge.py:487-551 | a concrete run with a post that outlives the cooldown |
| Drift.LostAnswersBreakIt | platform/clients/dataplane_bus_bridge.py:549-551 | a concrete run with a command accepted whose answer is lost |
| Drift.CooldownIsEarned | platform/clients/dataplane_bus_bridge.py:516-551 | a model only cools down for a post that is open, that a retrain follows or that was abandoned, never for one that only failed |
| Drift.WindowIsTheRecentOutcomes | platform/clients/dataplane_bus_bridge.py:468-485 | the window is exactly the last outcomes, as many as fit |
| Drift.TriggersIff | platform/clients/dataplane_bus_bridge.py:475-488 | the trigger fires exactly for a full window in which the failures number at least the threshold's share; only a window below one divides by zero |
| Drift.Tracker.Record | platform/clients/dataplane_bus_bridge.py:468-485 | the window after one outcome, other models untouched, and what it starts |
| Drift.Tracker.Begin | platform/clients/dataplane_bus_bridge.py:490-494 | posts unless cooling down, and takes the cooldown in the same step |
| Drift.Tracker.End | platform/clients/dataplane_bus_bridge.py:513-551 | gives the cooldown back exactly for an error status or a transport error, whether or not the command was taken |
| FeatureGate.KeptIffAgreed | pipelines/feature_gate.py:194-215 | a key is kept, with its value, exactly when all its rows agree; ambiguous exactly when two differ; never both |
| FeatureGate.CountsAreConserved | pipelines/feature_gate.py:186-202 | rows checked are failures, rows without a key, collected rows and rows of tables without key columns |
| FeatureGate.SeenIff | pipelines/feature_gate.py:157-186 | the rows looked at are the first of each table up to the cap, marked exactly when the view names an entity and a time column and the table has both |
| FeatureGate.RowOrderIsIrrelevant | pipelines/feature_gate.py:186-215 | reordering rows changes nothing when the cap takes the same ones |
| FeatureGate.TableOrderIsIrrelevant | pipelines/feature_gate.py:157-215 | reordering tables changes nothing |
| FeatureGate.OrderIsIrrelevantIffWithinTheCap | pipelines/feature_gate.py:186 | and no reordering of a table of `n` rows matters exactly when `n` is within the cap |
| FeatureGate.CheckRows | pipelines/feature_gate.py:150-224 | the nested loop: refusal at the first table that lacks a column, else the tally of all rows seen |
| ParquetHead.Head | pipelines/pipeline_generator.py:2165-2185 | exactly the first rows of all files together for every split into batches, and no file or batch read that was not needed |
| ParquetHead.HeadOfFile | pipelines/pipeline_generator.py:2173-2181 | the inner loop over one file's batches |

## Left out

- Message texts (`observed` strings, details), metrics, logs, traces, audit and lineage records: only verdicts, values, state and error kinds are modelled.
- MLflow, Ray, Prefect, NATS, SQLite, httpx, gRPC and the file system's own calls: each is an outcome chosen by the environment.
- Hash functions: a digest stands for what it digests, so collisions do not exist.
- Floating point: scores before rounding, rates, tokens and budgets are real numbers; NaN and infinities do not occur.
- DataContracts.Build: leaves out date parsing; a freshness check judges its column by an arbitrary clock, the same for both engines.
- DataContracts.ValidateContract: the score is compared before it is rounded to four places.
- `validate_request`, `load_contract` and the contract registry: one-pass checks with no state beyond a dictionary.
- SingleFlight.LoadsArePaidFor: counts an entry evicted in the step that inserts it as a departure, as happens with a raw-version cache of size zero.
- Snapshots.MultiModelServer.ApplySnapshot: requires that a snapshot mentions each alias of each model once; the shadow table and the gauges are not modelled.
- SnapshotReader.HighestHeldWins: does not say that generations never go back, because with the database down a trailing mirror may answer.
- Following.TheLastDecisionStands: a full reload walks its aliases in one event, with what it saw of each held key along the way as part of it; the raw-version cache is not followed.
- SnapshotReader.LastPersistedSurvivesIff: harm leaves no file or one that does not verify; other processes that write the same file are not modelled.
- Reloads.HotSet.LoadAll: requests that change the hot set during the pass are not interleaved here; `Following.TheLastDecisionStands` has them.
- VersionCaches.Cache.Resolve: the statuses 404 and 503 are one answer.
- PredictPool.RecyclesAreAccountedFor: is not an exact count of hung threads, because late returns on an abandoned pool are discounted too; at least one worker is required, as a thread pool does.
- ArtifactCaches.HitsAreGenuineIff: files named like the manifest, at any depth, are outside the digest, as in the code; nobody forges a manifest; the file system tells all names apart and has no links, and no name leads out of the cache and back in by the cache directory's own name.
- ArtifactCaches.Cache.Evict: a removal succeeds, sizes are what the file system lists, and one directory tree is not evicted from by two processes at once; directories without a readable manifest count for nothing, as in the code.
- ArtifactCaches.Cache.Fetch: staging directories are not part of the tree; a process that dies in between leaves any `Harm` behind.
- Batches.HandleBatch: what a transform computes is not modelled, only whether it gets through.
- Budgets.BudgetAlongHops: the time a message spends on the wire is not counted as spent on a host, as in the code.
- Router.AttemptsAreBounded: elapsed times are not negative; backoff sleeps are exact.
- The router's random traffic split, shadow predictions and the ingress's own checks of a request.
- Hostlists.RoundTrip: names without brackets, commas or any white space that `str.strip` removes; the functions themselves are defined on every string but those with line breaks, which the pattern's dots do not match. `int` reads at most 4300 digits, which is the interpreter's default.
- RawTensors.RequestToJson: request parameters and requested outputs are not modelled, nor is the response path.
- TensorAssembly.ToArray: element types are numbers; conversions to and from numpy types are not modelled.
- Promotion.ArchivedIsNeverLiveIff: promotions of one model do not overlap, and no rule promotes to Archived.
- Drift.CooldownHoldsIff: the clock does not go back; triggers of different models touch different entries and are taken one model at a time; a bridge that restarts forgets its cooldowns and starts a run of its own.
- FeatureGate.CheckRows: `transform_row`, time parsing and the offline store are not part of this model; a row comes with its outcome, entity and time.
- ParquetHead.Head: differences of schema between files; the batches of a file put together are its rows.
- `_combine_table_results`, credential checks, SSH and Slurm command plumbing, code generation.
