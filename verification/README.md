# DuShengCDN server: access-log rollups, sharded storage, migrations and limiters

A Dafny model of the hardest logic of the DuShengCDN control-plane server, with proofs. It follows
the server's own parts:

- **Access-log rollups.** Raw access logs are aggregated into a detailed per-minute table. Three derived
  tables (bucket totals, identities, identities by filter) are refreshed later by a scheduler with a
  pending set, a timer and a running flag, and rebuilt after records were deleted. Counts and bucket lists
  pick a raw scan, one of the rollup tables, or a mix. The model lets writers, transactions, timers, the
  statements of a refresh and the statements of a rebuild interleave in every way, and proves that every
  state that nothing has disturbed since the last rebuild answers every such query as the raw scan would,
  that a quiet rebuild repairs any state, and exactly what disturbs one (`RollupProtocol`, `RollupRuns`,
  `RollupRaces`, `RefreshStatements`, `RebuildStatements`, `RebuildOverlap`, `RebuildRace`, `RollupQueries`,
  `FoldedBuckets`, on `AccessLog`, `DerivedRollups`, `RefreshQueue`, `DimensionKey`, `SqlDialect`).
- **Sharded reads and deduplicated writes.** Replay-safe insertion (`DedupScan`, `AccessLogStore`,
  `SnapshotStore`), limit push-down and cursor paging (`Sorting`, `ShardedList`), counter deltas by window
  function and by fold (`CounterDeltas`, `TieBreaks`).
- **Schema migrations.** The version chain with skipping (`MigrationChain`), the proxy-route backfills and
  their validators (`RouteFields`, `ProxyRouteBackfill`), the re-sharding copy (`LegacyResharding`) and the
  introspection cache (`SchemaCache`).
- **Limiters.** The sliding window with key expiry and its circuit breaker (`RateLimit`), and the login
  lockout (`LoginLockout`).

`Sums`, `TimeCounts`, `Sharding` and `Wrappers` hold shared definitions. `dafny verify dfyconfig.toml` checks
the whole project.

SQL statements are modelled by their relational meaning on sequences, sets and maps; times are integers
(seconds, or the unit a module names). Where a property of the code holds only under a condition, the
condition is proved exact: `RowsAgreeIff`, `RebuildIsAggregateIff`, `BatchesMatchRebuildIff`, `SharesTextIff`,
`ScanCoversIff`, `SqlMinuteIff`, `FoldOfMinuteIff`, `EpochsAgreeIff`, `BeforeIsRespectedIff`,
`BeforeOnOneDatabaseIff`, `FoldIsExactIff`, `AnnouncesAllIff`, `CommitIsOwnedIff`, `CountDuringRebuildIff`,
`OverlapIsSafeIff`, `OneChunkIff`, `DeleteAllIff`, `RebuildIsExactIff`, `FormsAgreeIff`, `ScanMovesOnIff`,
`FlagMeansNoWorkIff`, `WholeStepSucceedsIff`, `FollowCursor`, `MigrateV8`, `Maintain`, `Run`.

Filters, sort orders, dedup keys, rollup columns, counters, certificate choices and migration steps are
also stated by the fields of single rows (the members named `...Meaning`, and those that the table says it
of), so that two forms cannot agree on something else than the source computes.

## Findings

- The rollup filters ignore an upper time bound. A count with `Before` is wrong on some database for every
  filter (`BeforeIsRespectedIff`); on a given one it is right exactly when the rollups do not answer, or hold
  nothing beyond the bound (`BeforeOnOneDatabaseIff`).
- The program path clamps byte counts, upper-cases the cache status and floors the minute; the SQL rebuild
  does neither of the first two, and on SQLite truncates the minute. The two agree exactly on records for
  which that makes no difference (`RowsAgreeIff`).
- A rebuild takes no lock. Records stored but not yet upserted when the table is cleared, and records inserted
  later into shards still to be grouped, count twice, and nothing else does (`RebuildIsExactIff`,
  `OneRecordCountsTwice`).
- A rebuild's last part and a refresh that overlap can end stale behind an idle gate. The refresh writes a
  bucket row between the rebuild's delete and its insert, the insert fails, and the minutes left over keep no
  rows; or rows that the refresh read before are written last. With nobody else about, this cannot happen if
  and only if the bucket rows still to be written are none or exactly those from some chunk of the rebuild on,
  and the identities in hand are current (`OverlapIsSafeIff`). For a refresh that has read nothing and a
  rebuild in one chunk: its batch meets no minute of the table, or covers them all (`OneChunkIff`). When all
  logs are deleted: it holds no rows once the detailed table is empty (`DeleteAllIff`). Runs from the start
  reach both failures (`RetentionGoesStale`, `DeleteAllGoesStale`).
- In the middle of a rebuild the detailed table answers for the shards grouped so far. A count is right if and
  only if that table does not answer it or no other record matches (`CountDuringRebuildIff`).
- The scheduler announces every minute an insertion makes stale if and only if no record falls in the minute
  that starts at Go's zero time (`AnnouncesAllIff`). A run leaves such a record uncounted in the derived tables
  (`UndatedGoesStale`); only a rebuild refreshes its minute.
- The program announces the minutes of an insertion inside the transaction that inserts. If a refresh takes and
  reads them before the commit, they stay stale. Everything stale is owned after a commit if and only if each
  minute still waits, or the refresh that took it has read nothing yet or will fail (`CommitIsOwnedIff`,
  `LateCommitGoesStale`).
- A dimension hash can be shared: exactly when a field before the status holds a NUL, or the cache status holds
  a number between NULs or at its start, followed by a NUL (`SharesTextIff`).
- A zero time beside set times falls outside the range that the deduplicated insert scans
  (`ScanCoversIff`).
- On SQLite and in Go, truncating division moves instants before 1970 to another bucket than PostgreSQL
  does (`EpochsAgreeIff`). A bucket list from rollups is the raw one if and only if the query starts inside a
  minute or every selected record folds with its minute (`FoldIsExactIff`, `FoldOfMinuteIff`).
- The counter-delta statement breaks ties by ID, the fold by node ID and then by chance. They agree on all
  readings and orders exactly when no node has two samples at one instant, up to the blank node ID and its
  stand-in, and on PostgreSQL no sample with an earlier one lies before 1970 inside a bucket (`FormsAgreeIff`,
  `SettledIsOnePerInstant`).
- Two routes whose domains differ in case or outer blanks make the site backfill fail on the unique index of
  the domain column, before any validator looks (`BackfillSiteFields`, `MigrateV8`).
- A legacy table whose only row has the ID zero is copied forever (`ScanMovesOnIff`).
- Maintenance adds columns to the version table and creates rollup tables without telling the schema cache;
  it stays right only because a new cache has not been asked about them (`Maintain`).

## Model

| member | source | states |
|---|---|---|
| `AccessLog.AggregateRecords` | dushengcdn_server/model/node_access_log_rollup.go:283-309 | the loop over new records builds the table that `AggregateIsGrouping` describes |
| `AccessLog.AggregateIsGrouping` | dushengcdn_server/model/node_access_log_rollup.go:283-387 | adding rows one by one gives exactly one row per minute and dimensions, each column the sum, and the last time the maximum, over that group |
| `AccessLog.GroupMeaning` | dushengcdn_server/model/node_access_log_rollup.go:310-387 | two records share a row if and only if they lie in the same sixty seconds and agree on node, address, region, operator, host, path, status and cache status |
| `AccessLog.DetailedRowMeaning` | dushengcdn_server/model/node_access_log_rollup.go:310-387 | the columns of a row by the fields of its records: how many, the sums of request, response and upstream bytes (negative ones as zero), how many have upstream bytes, how many have cache status HIT, MISS, BYPASS, EXPIRED or STALE in any case, and the latest time |
| `AccessLog.RebuiltRowMeaning` | dushengcdn_server/model/node_access_log_rollup.go:241-272 | the columns of a rebuilt row likewise, with byte counts as they are and the cache status in upper case only |
| `AccessLog.ZeroTimeIsYearOne` | dushengcdn_server/model/node_access_log_rollup.go:473-496 | the zero time is midnight on the first day of the year 1 |
| `AccessLog.AggregateConcat` | dushengcdn_server/model/node_access_log_rollup.go:414-450 | aggregation turns concatenation into on-conflict addition |
| `AccessLog.UpsertCommutes` | dushengcdn_server/model/node_access_log_rollup.go:369-387 | the order of two upserts does not matter |
| `AccessLog.UpsertAssociates` | dushengcdn_server/model/node_access_log_rollup.go:369-387 | the grouping of upserts does not matter |
| `AccessLog.AggregatePermutation` | dushengcdn_server/model/node_access_log_rollup.go:283-309 | the order of the records does not matter |
| `AccessLog.IncrementalIsAggregate` | dushengcdn_server/model/node_access_log_rollup.go:274-281 | any sequence of batches leaves the aggregate of all their records |
| `AccessLog.RebuildTable` | dushengcdn_server/model/node_access_log_rollup.go:204-228 | the rebuild loop leaves the sum of the per-shard groupings |
| `AccessLog.RowsAgreeIff` | dushengcdn_server/model/node_access_log_rollup.go:241-272 | on either backend, the SQL grouping of a shard equals the program's aggregate if and only if every record has a time, is on SQLite not before 1970 inside a minute, and has non-negative byte counts and no known cache status spelled in lower case |
| `AccessLog.RebuildIsGrouping` | dushengcdn_server/model/node_access_log_rollup.go:204-272 | rebuilding shard by shard is one grouping of all records, however they are split |
| `AccessLog.RebuildIsAggregateIff` | dushengcdn_server/model/node_access_log_rollup.go:204-272 | the rebuilt table is the incremental one if and only if every record is one both paths agree on |
| `AccessLog.BatchesMatchRebuildIff` | dushengcdn_server/model/node_access_log_rollup.go:204-309 | any batching and any sharding of the same records give the same detailed table if and only if both paths agree on each record |
| `DimensionKey.HashedTextInjective` | dushengcdn_server/model/node_access_log_rollup.go:1768-1784 | the NUL-joined text determines the eight dimensions when no field before the status holds a NUL, whatever the cache status |
| `DimensionKey.HashedTextIs` | dushengcdn_server/model/node_access_log_rollup.go:1768-1784 | the text is node, address, region, operator, host, path, decimal status and cache status, with a NUL between each two |
| `DimensionKey.ItoaInjective` | dushengcdn_server/model/node_access_log_rollup.go:1768-1784 | the status code's decimal text determines the status code |
| `DimensionKey.SharesTextIff` | dushengcdn_server/model/node_access_log_rollup.go:1768-1784 | a row shares its text with another if and only if a field before the status holds a NUL, or the cache status holds a number that a NUL follows, at its start or after a NUL |
| `DimensionKey.NulMovesBoundary` | dushengcdn_server/model/node_access_log_rollup.go:1768-1784 | the row with the boundary moved, for a NUL in any of the six fields |
| `DimensionKey.PieceMovesStatus` | dushengcdn_server/model/node_access_log_rollup.go:1768-1784 | the row that takes a number out of the cache status for the status |
| `DerivedRollups.FreshEverywhere` | dushengcdn_server/model/node_access_log_rollup.go:720-819 | the derived tables are the derivation if and only if every minute's rows are |
| `DerivedRollups.DerivationIsLocal` | dushengcdn_server/model/node_access_log_rollup.go:720-819 | what is derived for a minute depends only on that minute's detailed rows |
| `DerivedRollups.UpsertIsLocal` | dushengcdn_server/model/node_access_log_rollup.go:414-450 | an upsert makes no minute stale that it has no row in |
| `SqlDialect.FloorOfMinute` | dushengcdn_server/model/node_access_log_rollup.go:1747-1762 | the floor of an instant's minute is the floor of the instant, at any width that is a multiple of a minute |
| `SqlDialect.SqlMinuteIff` | dushengcdn_server/model/node_access_log_rollup.go:1747-1762 | the backend computes the program's minute if and only if it is PostgreSQL, or the instant is not before 1970 or on a minute |
| `SqlDialect.BucketStartMeaning` | dushengcdn_server/model/node_access_log_rollup.go:1747-1762 | a bucket start is the multiple of the width at or below the instant; on SQLite and before 1970, at or above it |
| `SqlDialect.FoldOfMinuteIff` | dushengcdn_server/model/node_access_log_rollup.go:1747-1762 | folding the minute gives the bucket of the instant always on PostgreSQL, and on SQLite exactly unless the instant is before 1970, inside a minute that starts on a boundary |
| `SqlDialect.EscapedPrefixIsExact` | dushengcdn_server/model/node_access_log.go:1105-1170 | LIKE with the escaped prefix and a percent sign matches exactly the texts that start with it |
| `SqlDialect.PlainSuffixIsExact` | dushengcdn_server/model/node_access_log.go:1093-1103 | LIKE with a percent sign before a text without pattern characters matches exactly the texts that end in it, character by character |
| `SqlDialect.FixedLengthPattern` | dushengcdn_server/model/node_access_log.go:1041-1074 | a pattern without percent signs and escapes matches texts of its length, an underscore any one character |
| `RollupQueries.PathFilterMeaning` | dushengcdn_server/model/node_access_log.go:1105-1170 | the path filter keeps the path and what lies below it, nothing else |
| `RollupQueries.HostFilterMeaning` | dushengcdn_server/model/node_access_log.go:1093-1103 | for a text without pattern characters, the host filter keeps the host itself and the hosts that end in a dot and the text, nothing else |
| `RollupQueries.TrimSlashesMeaning` | dushengcdn_server/model/node_access_log.go:1105-1170 | exactly the trailing slashes go |
| `RollupQueries.RawMatchesMeaning` | dushengcdn_server/model/node_access_log.go:1041-1074 | a query asks for a record if and only if its node is equal, its address starts with the filter, host and path match as above, and its time is not before `Since` and before `Before` |
| `RollupQueries.RawCountMeaning` | dushengcdn_server/model/node_access_log.go:173-214 | the raw scan counts those records, and their distinct non-empty addresses |
| `RollupQueries.RequestsCountRecords` | dushengcdn_server/model/node_access_log_rollup.go:878-886 | summing request counts over selected rollup rows counts the selected records |
| `RollupQueries.DistinctThroughKeys` | dushengcdn_server/model/node_access_log_rollup.go:835-848 | distinct addresses or hosts of selected rollup rows are those of the selected records |
| `RollupQueries.DetailedServes` | dushengcdn_server/model/node_access_log_rollup.go:821-848 | the detailed table gives the raw record count and the raw identities |
| `RollupQueries.BucketTableServes` | dushengcdn_server/model/node_access_log_rollup.go:1023-1051 | when the bucket tables answer, they answer as the raw scan without an upper bound |
| `RollupQueries.FilterTableServes` | dushengcdn_server/model/node_access_log_rollup.go:1574-1601 | the filter-identity table holds exactly the raw identities of the filter |
| `RollupQueries.InclusionExclusion` | dushengcdn_server/model/node_access_log_rollup.go:1603-1635 | the hybrid total is the size of the union of prefix and suffix, and the clamp at zero never acts |
| `RollupQueries.RemainderStart` | dushengcdn_server/model/node_access_log_rollup.go:1510-1526 | the remainder starts at the next whole minute, so the second call is aligned and the mutual recursion unfolds once |
| `RollupQueries.PartialServes` | dushengcdn_server/model/node_access_log_rollup.go:850-876 | raw prefix plus rollup suffix is the raw count of records and addresses |
| `RollupQueries.IdentityCountIsExact` | dushengcdn_server/model/node_access_log_rollup.go:1574-1635 | the mutually recursive identity count is the raw distinct count whenever the filter-identity table may serve |
| `RollupQueries.CountIsPathIndependent` | dushengcdn_server/model/node_access_log.go:173-214 | for every filter and start, every path returns the raw scan's record and distinct-address counts, which `RawCountMeaning` gives by the fields of the records |
| `RollupQueries.BeforeIsRespectedIff` | dushengcdn_server/model/node_access_log_rollup.go:1699-1717 | a count is right on every database if and only if it has no upper bound |
| `RollupQueries.BeforeOnOneDatabaseIff` | dushengcdn_server/model/node_access_log_rollup.go:1699-1717 | on one database a bounded count is right if and only if the rollups do not answer it or no matching record lies beyond the bound |
| `RollupQueries.FilterHasMatch` | dushengcdn_server/model/node_access_log.go:1041-1074 | every filter matches some columns |
| `RollupQueries.LateRecordIsCounted` | dushengcdn_server/model/node_access_log_rollup.go:1699-1717 | a database on which a bounded count is wrong, for every filter that matches something |
| `FoldedBuckets.FoldedValues` | dushengcdn_server/model/node_access_log_rollup.go:906-952 | the distinct identities of a bucket are the union over its minutes |
| `FoldedBuckets.DetailedFoldServes` | dushengcdn_server/model/node_access_log_rollup.go:906-952 | folding the detailed table gives the raw buckets |
| `FoldedBuckets.FilterFoldServes` | dushengcdn_server/model/node_access_log_rollup.go:954-992 | taking the distinct counts from the filter identities gives the same buckets |
| `FoldedBuckets.BucketFoldServes` | dushengcdn_server/model/node_access_log_rollup.go:1053-1143 | folding the bucket totals and identities gives the same buckets |
| `FoldedBuckets.FoldIsExactIff` | dushengcdn_server/model/node_access_log.go:253-380 | for every width, the bucket list by whichever path equals the raw one, with the raw request, status-class and distinct counts, if and only if the query starts inside a minute or every selected record folds with its minute |
| `FoldedBuckets.RawFoldMeaning` | dushengcdn_server/model/node_access_log.go:253-380 | the raw bucket list by the fields of the records: a bucket spans sixty seconds per minute asked for (three minutes if none), counts the records asked for in it, those with a status below 400, from 400 to 499, and from 500 on, and their distinct non-empty addresses and hosts |
| `FoldedBuckets.BucketCountIsExact` | dushengcdn_server/model/node_access_log.go:253-380 | under the same condition the number of buckets is the raw one |
| `FoldedBuckets.DetailedFoldServesIff` | dushengcdn_server/model/node_access_log_rollup.go:906-952 | folding the detailed rows gives the raw buckets if and only if every selected record folds with its minute |
| `RefreshQueue.SchedulingIsKept` | dushengcdn_server/model/node_access_log_rollup.go:452-554 | every scheduler operation keeps: the timer is set exactly when something is pending and nothing runs |
| `RefreshQueue.Queue.Enqueue` | dushengcdn_server/model/node_access_log_rollup.go:452-496 | the minutes join the pending set, except the one that starts at the zero time, and the timer is set unless one is set or a refresh runs |
| `RefreshQueue.Queue.Fire` | dushengcdn_server/model/node_access_log_rollup.go:464-470 | the timer's callback starts |
| `RefreshQueue.Queue.Take` | dushengcdn_server/model/node_access_log_rollup.go:510-530 | the whole pending set becomes the batch, or nothing if a refresh runs or nothing is pending |
| `RefreshQueue.Queue.Finish` | dushengcdn_server/model/node_access_log_rollup.go:532-554 | a failed batch returns to pending, and the timer is set if something is pending |
| `RefreshQueue.Queue.Flush` | dushengcdn_server/model/node_access_log_rollup.go:556-577 | without concurrent writers, and whether or not a refresh is in flight, it ends with nothing pending, or with an error and the failed batch pending again |
| `RollupProtocol.StepKeepsInv` | dushengcdn_server/model/node_access_log_rollup.go:204-718 | every step of every actor, every statement of a refresh and of a rebuild, keeps the invariant: in a sound state each minute with stale derived rows is pending, in the batch in flight, owned by a writer between upsert and enqueue, or still to be refreshed by the rebuild |
| `RollupProtocol.StatementKeepsInv` | dushengcdn_server/model/node_access_log_rollup.go:666-718 | each separate statement of a refresh keeps it, with writers in between |
| `RollupProtocol.FailureKeepsInv` | dushengcdn_server/model/node_access_log_rollup.go:532-554 | a refresh that fails after any statement keeps it |
| `RollupProtocol.RebuildKeepsInv` | dushengcdn_server/model/node_access_log_rollup.go:204-228 | each separate statement of a rebuild keeps it: clears, groupings, the pluck and the chunks |
| `RollupProtocol.CommitKeepsInv` | dushengcdn_server/model/node_access_log_rollup.go:274-281 | a commit after the announcement keeps it when it comes in time |
| `RollupProtocol.SoundRebuildNeverClashes` | dushengcdn_server/model/node_access_log_rollup.go:666-718 | a rebuild that nothing disturbs never fails on its insert |
| `RollupRuns.RunHasInv` | dushengcdn_server/model/node_access_log_rollup.go:204-718 | the invariant holds in every state of every run |
| `RollupRuns.IdleGateMeansDerived` | dushengcdn_server/model/node_access_log_rollup.go:1568-1572 | in every run, in a state that is sound and outside a rebuild, when the gate passes and no writer is midway, all three derived tables are the derivation of the detailed table |
| `RollupRuns.WakeUpIsNeverLost` | dushengcdn_server/model/node_access_log_rollup.go:452-554 | in every run the running flag means a refresh is in flight, the timer is set exactly when something is pending and none is, and then firing it takes all that is pending |
| `RollupRuns.QuietStateIsConsistent` | dushengcdn_server/model/node_access_log_rollup.go:274-281 | in every such state with no writer midway, the detailed table is the aggregate of the stored records |
| `RollupRuns.EveryCountIsExact` | dushengcdn_server/model/node_access_log.go:173-214 | in every such state of every run, every count equals the raw scan; for a filter without pattern characters it is the number of stored records that the filter names by their fields, and of their distinct addresses |
| `RollupRuns.EveryBucketListIsExactIff` | dushengcdn_server/model/node_access_log.go:253-380 | in every such state, a bucket list equals the raw one if and only if the query starts inside a minute or every record it selects folds with its minute; then the bucket count is right too, and the buckets hold what `RawFoldMeaning` says |
| `RollupRuns.RebuildHeals` | dushengcdn_server/model/node_access_log_rollup.go:204-228 | from any state of any run, however disturbed: a rebuild without a refresh or a record on its way leaves the state sound, whatever timers and announcing writers do meanwhile |
| `RollupRaces.AnnouncesAllIff` | dushengcdn_server/model/node_access_log_rollup.go:473-496 | every minute that an insertion makes stale is announced if and only if no record falls in the minute of the zero time |
| `RollupRaces.UndatedGoesStale` | dushengcdn_server/model/node_access_log_rollup.go:473-496 | a run that ends with such a record stored, nothing pending and stale derived tables |
| `RollupRaces.CommitIsOwnedIff` | dushengcdn_server/service/observability.go:638-640 | a commit that follows its announcement keeps stale minutes owned if and only if each minute still waits, or its refresh has read nothing yet or will fail |
| `RollupRaces.LateCommitGoesStale` | dushengcdn_server/service/observability.go:638-640 | a run in which the refresh comes before the commit and the record stays out of the derived tables |
| `RollupRaces.CountDuringRebuildIff` | dushengcdn_server/model/node_access_log_rollup.go:214-228 | in every run, while shards are grouped, a count is exact if and only if the detailed table does not answer it or no record still to be grouped matches |
| `RollupRaces.HarmfulOverlapGoesStale` | dushengcdn_server/model/node_access_log_rollup.go:613-718 | from every reachable state before the last clear with a refresh in flight that is not harmless, a run that ends stale behind an idle gate |
| `RollupRaces.RetentionGoesStale` | dushengcdn_server/model/node_access_log.go:703-711 | a run from the start in which a rebuild fails on the refresh's row and another minute keeps none |
| `RollupRaces.DeleteAllGoesStale` | dushengcdn_server/model/node_access_log.go:713-719 | a run from the start in which the refresh writes a row after all logs were deleted |
| `RebuildStatements.RebuildInChunks` | dushengcdn_server/model/node_access_log_rollup.go:613-639 | undisturbed, clearing and refreshing chunk by chunk gives the derivation |
| `RebuildStatements.ChunkingExists` | dushengcdn_server/model/node_access_log_rollup.go:627-637 | every set of minutes can be cut into ascending chunks of five hundred |
| `RebuildOverlap.RefreshKeepsInv` | dushengcdn_server/model/node_access_log_rollup.go:666-718 | with a harmless refresh, each of its statements keeps what the interleaving needs: rows missing are still to be written, and a rebuild about to fail leaves only minutes that the refresh writes |
| `RebuildOverlap.RebuildKeepsInv` | dushengcdn_server/model/node_access_log_rollup.go:613-639 | so does each statement of the rebuild, its failure included |
| `RebuildOverlap.OverlapIsSafeIff` | dushengcdn_server/model/node_access_log_rollup.go:613-718 | all interleavings of a refresh with the refilling end with the derivation, up to a returned batch, if and only if the bucket rows the refresh has still to write are none or exactly those from some chunk on, and the identities it holds are current |
| `RebuildOverlap.OneChunkIff` | dushengcdn_server/model/node_access_log_rollup.go:613-718 | for a refresh that has read nothing and one chunk: if and only if its batch meets no minute of the table or covers them all |
| `RebuildOverlap.DeleteAllIff` | dushengcdn_server/model/node_access_log_rollup.go:230-239 | when all logs are deleted: if and only if the refresh holds no rows once the detailed table is empty |
| `RefreshStatements.StepKeepsRemaining` | dushengcdn_server/model/node_access_log_rollup.go:666-718 | each statement of a refresh keeps what the remaining statements will make of the tables |
| `RefreshStatements.RemainingIsLocal` | dushengcdn_server/model/node_access_log_rollup.go:666-819 | what a refresh will make of a minute depends on that minute's detailed rows only |
| `RefreshStatements.WholeRefreshIsFresh` | dushengcdn_server/model/node_access_log_rollup.go:666-718 | a refresh from its first statement makes every minute of its batch fresh |
| `RebuildRace.RebuildIsExactIff` | dushengcdn_server/model/node_access_log_rollup.go:204-228 | however insertions, upserts and the grouping of shards interleave, the rebuilt table is the aggregate of the stored records if and only if nothing counts twice, and it is always that of the stored records and those that do |
| `RebuildRace.OneRecordCountsTwice` | dushengcdn_server/model/node_access_log_rollup.go:204-228 | for every record, a run that leaves it counted twice |
| `DedupScan.CollectIncoming` | dushengcdn_server/model/node_access_log.go:757-775 | the loop keeps the first record of each key and each node's time range |
| `DedupScan.SameKeyIff` | dushengcdn_server/model/node_access_log.go:891-903 | two records have the same key if and only if node, time, address, host, path and status are equal |
| `DedupScan.CombinedRange` | dushengcdn_server/model/node_access_log.go:925-936 | in whatever order the map is walked, the combined range is the smallest and the largest set bound |
| `DedupScan.UniformTimesAreCovered` | dushengcdn_server/model/node_access_log.go:813-936 | the node set and range cover every stored row that could collide when the incoming records all have a time or all lack one |
| `DedupScan.ScanCoversIff` | dushengcdn_server/model/node_access_log.go:813-936 | with times from the zero time on, if and only if they do |
| `DedupScan.UniquesKeepKeys` | dushengcdn_server/model/node_access_log.go:757-775 | dropping repetitions keeps every key, once |
| `AccessLogStore.ExistingKeys` | dushengcdn_server/model/node_access_log.go:813-852 | the keys of exactly the stored rows in the scan |
| `AccessLogStore.Store.AssignID` | dushengcdn_server/model/node_access_log.go:165-167 | a set ID is kept, otherwise a fresh one is taken |
| `AccessLogStore.Store.InsertNew` | dushengcdn_server/model/node_access_log.go:749-811 | exactly one row per incoming key that was not stored, the number of those keys is returned, and the rollups stay the aggregate of the stored records; the shards gain exactly that many rows, each the first incoming record of its request with at most an ID given |
| `AccessLogStore.ReplayAddsNothing` | dushengcdn_server/model/node_access_log.go:749-811 | inserting the same records again inserts nothing |
| `AccessLogStore.Store.DeleteWhere` | dushengcdn_server/model/node_access_log.go:703-719 | each row that matches goes and every other row stays as often as it was stored, their number is returned, and the rebuilt rollups are exact if and only if both paths agree on the records left |
| `Sorting.PrefixSurvives` | dushengcdn_server/model/node_access_log.go:1015-1032 | dropping rows of a sorted list keeps its first n as long as those stay |
| `Sorting.LimitPushDown` | dushengcdn_server/model/node_access_log.go:1010-1032 | for any shards, filter and strict order, limiting each shard first leaves the first rows of the union as they were |
| `ShardedList.EveryOrderSeparates` | dushengcdn_server/model/node_access_log.go:1465-1482 | each sort clause is a strict order that tells rows with different IDs apart, under any collation |
| `ShardedList.PrecedesMeaning` | dushengcdn_server/model/node_access_log.go:1465-1482 | the five orders by the fields of two rows: the column's value does not fall ascending and does not rise descending, equal values are newest first and then by the larger ID, and equal times go by ID in the given order |
| `ShardedList.PageMeaning` | dushengcdn_server/model/node_access_log.go:989-1039 | a row is on a page if and only if it matches and as many matching rows come before it as the earlier pages hold, fewer than with this page and its lookahead |
| `ShardedList.UnionBranches` | dushengcdn_server/model/node_access_log.go:1010-1024 | the union of the branches, each limited on its own |
| `ShardedList.ListAcrossShards` | dushengcdn_server/model/node_access_log.go:989-1039 | the page is the page of sorting all matching rows, for any page, size, lookahead, column and order: its rows stand in the order of `PrecedesMeaning`, and are exactly those of `PageMeaning` |
| `ShardedList.AfterCursorIsTheRest` | dushengcdn_server/model/node_access_log.go:1076-1091 | the cursor's condition selects exactly what follows its row in the timeline |
| `ShardedList.ListPage` | dushengcdn_server/service/access_log.go:477-538 | a page, and the cursor of its last row exactly when more rows follow and the row has a time and an ID; a cursor without a time or an ID starts over |
| `ShardedList.FollowCursor` | dushengcdn_server/model/node_access_log.go:989-1091 | following the cursor ends after visiting the timeline up to the first page end that yields no cursor, in the order of time and ID, each row once, and all of it if and only if each page end yields a cursor |
| `ShardedList.StoredRowsAreUsable` | dushengcdn_server/service/access_log.go:1242-1254 | with a time and an ID on every row the walk is complete |
| `CounterDeltas.FoldInMemory` | dushengcdn_server/model/node_metric_snapshot.go:480-550 | one pass over any samples; in the order of time and of the window it computes the buckets of LAG and GROUP BY |
| `CounterDeltas.FoldIsGrouping` | dushengcdn_server/model/node_metric_snapshot.go:480-550 | in any order, the fold groups the samples by what each follows in it |
| `CounterDeltas.FoldAddsSample` | dushengcdn_server/model/node_metric_snapshot.go:480-550 | what one sample adds, counter by counter: by how much it rose since its node's last sample, nothing if it fell, in the bucket of its time (an hour if no minutes are given), one sample more, and its node if it has one; other buckets stay |
| `CounterDeltas.FoldSkipsFirst` | dushengcdn_server/model/node_metric_snapshot.go:480-550 | the first sample of a node adds nothing |
| `CounterDeltas.LagIsPrevious` | dushengcdn_server/model/node_metric_snapshot.go:440-453 | a sample's previous row in its node's partition is the latest earlier sample of the node |
| `CounterDeltas.StatementEqualsFold` | dushengcdn_server/model/node_metric_snapshot.go:422-550 | the statement returns what the fold returns on the same rows in the order of time and of the window, whatever order they come in |
| `TieBreaks.FormsAgreeIff` | dushengcdn_server/model/node_metric_snapshot.go:381-550 | on either backend the statement and the fold agree on all readings and in every order the sort may leave, if and only if ties are settled and the backend puts each sample that has an earlier one in the bucket the program does |
| `TieBreaks.SettledIsOnePerInstant` | dushengcdn_server/model/node_metric_snapshot.go:381-550 | with node IDs set, that is if and only if no node has two samples at one instant |
| `TieBreaks.UnsettledDisagree` | dushengcdn_server/model/node_metric_snapshot.go:405-410 | for every other table, readings and an order on which they differ |
| `CounterDeltas.EpochsAgreeIff` | dushengcdn_server/model/node_metric_snapshot.go:730-759 | both divisions put an instant in the same bucket if and only if it is not negative or is a boundary |
| `CounterDeltas.BucketTotals` | dushengcdn_server/model/node_metric_snapshot.go:480-550 | over all buckets, a counter's deltas total last minus first per node plus its falls, and the samples with a previous one total the samples minus the nodes |
| `CounterDeltas.BucketsTelescope` | dushengcdn_server/model/node_metric_snapshot.go:761-766 | for a counter that never falls, the buckets total last minus first, node by node |
| `SnapshotStore.DeltaQueriesAgree` | dushengcdn_server/model/node_metric_snapshot.go:414-550 | for every filter over stored samples, one per instant, and however the sort breaks ties, both forms agree |
| `SnapshotStore.ListInMemory` | dushengcdn_server/model/node_metric_snapshot.go:90-142 | the list with a limit on each shard is the list of the single statement: latest first, then by the larger ID, no more than the limit, and what is left out is older than all of it |
| `SnapshotStore.Collect` | dushengcdn_server/model/node_metric_snapshot.go:577-593 | the first admissible sample of each node and instant, and the ranges to scan |
| `SnapshotStore.Store.InsertNew` | dushengcdn_server/model/node_metric_snapshot.go:569-630 | the shards gain exactly the counted rows, each the first incoming sample of its node and time with at most an ID given; the stored instants become the union with those of samples that have a node and are not at the epoch, as many rows are inserted as instants are new, and one sample per instant stays one |
| `MigrationChain.SkippingIsNoOp` | dushengcdn_server/model/migrations_current_schema.go:144-193 | a step whose calls only apply the schema does nothing once it is applied |
| `MigrationChain.FlagIsTrue` | dushengcdn_server/model/migrations.go:59-111 | every step flagged as applying the schema does so on both backends, told by the calls of its body |
| `MigrationChain.FlagMeansNoWorkIff` | dushengcdn_server/model/migrations_v.go:14-448 | a step is flagged as current-schema-only if and only if, on both backends, its body makes no call but the one that applies the schema |
| `MigrationChain.UpgradeMakesAllCalls` | dushengcdn_server/model/migrations_v.go:14-448 | with steps that never fail, an upgrade makes the calls of all bodies from its version on, each once and in order, except that the schema is applied once |
| `MigrationChain.PlainRunMeaning` | dushengcdn_server/model/migrations.go:121-146 | an upgrade without skipping that ends well leaves, version by version, what each body makes of the database before, accepted by its validator, with its version stored and the final check passed |
| `MigrationChain.TraceIsRun` | dushengcdn_server/model/migrations.go:121-146 | and every such series of databases is that of an upgrade |
| `MigrationChain.SkipFrom` | dushengcdn_server/model/migrations.go:148-173 | skipping leads to the next step that does more than apply the schema |
| `MigrationChain.SkipSteps` | dushengcdn_server/model/migrations.go:148-173 | skipping as far as it goes leaves the outcome of the unskipped upgrade as it was, up to the skipped checks |
| `MigrationChain.Upgrade.Perform` | dushengcdn_server/model/migrations_current_schema.go:144-189 | the schema is applied at most once in a run |
| `MigrationChain.Upgrade.Migrate` | dushengcdn_server/model/migrations_v.go:14-448 | the calls of a body in turn, up to the first that fails |
| `MigrationChain.Upgrade.RunStep` | dushengcdn_server/model/migrations.go:121-146 | the version is stored only after the step and its validator succeed; a failure undoes the step on PostgreSQL and leaves its changes on SQLite |
| `MigrationChain.Upgrade.SkipApplied` | dushengcdn_server/model/migrations.go:148-173 | skipped steps are stored as completed, and nothing else changes |
| `MigrationChain.Upgrade.RunChain` | dushengcdn_server/model/migrations.go:186-221 | the loop ends with the schema applied, so applying it afterwards never happens |
| `MigrationChain.Upgrade.Run` | dushengcdn_server/model/migrations.go:175-221 | from any version: each step from there is completed once and in order, the stored version counts the completed steps also after a failure, versions outside the table fail without a change, and the upgrade without skipping succeeds if and only if this one does and the skipped checks would pass, with the same database; each step that was run passed its validator; on success at version 50 every step with work of its own has run exactly once, and the database is that of running all bodies |
| `RouteFields.NormalIsStable` | dushengcdn_server/model/migrations_backfill_proxy_route.go:15-17 | normalising a domain twice is normalising it once |
| `RouteFields.NormalMeaning` | dushengcdn_server/model/migrations_backfill_proxy_route.go:15-17 | blanks, tabs and line ends around the text go, capital letters become small ones, and nothing else changes |
| `RouteFields.DecodedDomains` | dushengcdn_server/model/migrations_backfill_proxy_route.go:27-75 | decoded domains are non-empty, normalised and distinct, with the primary domain first; they are exactly the primary domain and the non-blank domains of the list |
| `RouteFields.DomainsInOrder` | dushengcdn_server/model/migrations_backfill_proxy_route.go:27-75 | the other domains come in the order of their first occurrence in the list |
| `RouteFields.DomainsDecodeIff` | dushengcdn_server/model/migrations_backfill_proxy_route.go:27-75 | decoding fails exactly on text that is no list, and when there is no domain at all |
| `RouteFields.NormalisedDomainsDecode` | dushengcdn_server/model/migrations_backfill_proxy_route.go:27-75 | such a list decodes to itself |
| `RouteFields.CollectDomains` | dushengcdn_server/model/migrations_backfill_proxy_route.go:42-54 | the loop that normalises and drops blanks and repetitions |
| `RouteFields.DecodeDomainColumn` | dushengcdn_server/model/migrations_backfill_proxy_route.go:27-75 | the decoder with its loops computes what `DecodedDomains` describes, errors included |
| `RouteFields.UniqueCertIDs` | dushengcdn_server/model/migrations_backfill_proxy_route.go:324-338 | the non-zero IDs, each once, in order of first occurrence |
| `RouteFields.FirstsInOrder` | dushengcdn_server/model/migrations_backfill_proxy_route.go:324-338 | the kept items come in the order of their first occurrence |
| `RouteFields.DistinctIDsDecode` | dushengcdn_server/model/migrations_backfill_proxy_route.go:134-164 | a list of distinct non-zero IDs decodes to itself |
| `RouteFields.DecodedCertIDs` | dushengcdn_server/model/migrations_backfill_proxy_route.go:134-164 | the non-zero IDs of the list or, without any, the fallback |
| `RouteFields.DerivedAssignments` | dushengcdn_server/model/migrations_backfill_proxy_route.go:264-322 | the derivation succeeds if and only if no choice is needed, or all certificates parse and each domain has one that covers it; a single certificate goes to every domain, as many as domains are assigned one by one, and otherwise each domain keeps the certificate at its position if that covers it and takes the first that does if not |
| `RouteFields.DeriveDomainCertIDs` | dushengcdn_server/model/migrations_backfill_proxy_route.go:264-322 | the loops of the derivation compute it, errors included |
| `ProxyRouteBackfill.RouteTable.Backfill` | dushengcdn_server/model/migrations_backfill_proxy_route.go:166-211 | rows are updated in order up to the first that cannot be normalised |
| `ProxyRouteBackfill.RouteTable.BackfillSiteFields` | dushengcdn_server/model/migrations_backfill_proxy_route.go:77-122 | stops at a row that cannot be decoded or whose update a unique index rejects; succeeds if and only if every route decodes, primary domains are distinct and, once they are indexed, site names are |
| `ProxyRouteBackfill.ClashIsFinal` | dushengcdn_server/model/proxy_route.go:11-14 | an update that an index rejects would have repeated a name in the end |
| `ProxyRouteBackfill.RouteTable.BackfillCertificateFields` | dushengcdn_server/model/migrations_backfill_proxy_route.go:166-211 | the certificate backfill of every row, or up to the first failure |
| `ProxyRouteBackfill.RouteTable.BackfillDomainCertificateFields` | dushengcdn_server/model/migrations_backfill_proxy_route.go:340-423 | the per-domain certificate backfill of every row, or up to the first failure |
| `ProxyRouteBackfill.RouteTable.EnsureSiteNameIndex` | dushengcdn_server/model/migrations_backfill_proxy_route.go:124-132 | the unique index can be created exactly when no site name repeats |
| `ProxyRouteBackfill.DomainCertStepMeaning` | dushengcdn_server/model/migrations_backfill_proxy_route.go:340-423 | afterwards the columns mirror each other: one assignment per domain or none, cert_ids the first occurrences of the assignments, cert_id their head; given assignments stay, others are derived as `DerivedAssignments` says, and a route with HTTPS, no assignments and as many certificates as domains, or only one, keeps cert_ids |
| `ProxyRouteBackfill.AcceptedIff` | dushengcdn_server/model/migrations_validation.go:138-220 | with mirrored columns the V7 and V8 checks accept exactly routes that have certificates if they use HTTPS and use HTTPS if they redirect |
| `ProxyRouteBackfill.MirroredIsAtRest` | dushengcdn_server/model/migrations_backfill_proxy_route.go:77-423 | a mirrored route passes through all three backfills unchanged |
| `ProxyRouteBackfill.WholeStepMeaning` | dushengcdn_server/model/migrations_backfill_proxy_route.go:77-423 | one route through all three: mirrored, at rest, same domains and site, and accepted exactly when it was servable before |
| `ProxyRouteBackfill.WholeStepFollows` | dushengcdn_server/model/migrations_backfill_proxy_route.go:77-423 | what a migrated route keeps: its domains, normalised and with the primary one first, its trimmed site name or the primary domain, its certificates as above, and all other columns |
| `ProxyRouteBackfill.WholeStepSucceedsIff` | dushengcdn_server/model/migrations_backfill_proxy_route.go:77-423 | a route passes if and only if its columns are lists or blank, it has a domain, and its assignments match its domains in number or, if it has none, can be derived |
| `ProxyRouteBackfill.RouteTable.MigrateV8` | dushengcdn_server/model/migrations_v.go:102-119 | succeeds if and only if every route can be migrated as `WholeStepSucceedsIff` says and no primary domain and no site name repeats; then each route keeps what `WholeStepFollows` says, in particular one certificate per domain in order where it had as many, V5 accepts if and only if domains are disjoint, V7 and V8 if and only if every route was servable, and a second run changes nothing |
| `ProxyRouteBackfill.RouteTable.ValidateV5` | dushengcdn_server/model/migrations_validation.go:68-120 | accepts exactly tables whose routes decode, mirror their primary domain, and share site names and domains with no other route |
| `ProxyRouteBackfill.OwnDomains` | dushengcdn_server/model/migrations_validation.go:107-117 | fails exactly on a domain another route owns; the check for a repetition within the route never fires |
| `ProxyRouteBackfill.RouteTable.ValidateV7` | dushengcdn_server/model/migrations_validation.go:138-172 | accepts exactly the mirror conditions on cert_ids and cert_id |
| `ProxyRouteBackfill.RouteTable.ValidateV8` | dushengcdn_server/model/migrations_validation.go:174-220 | accepts exactly the mirror conditions on the per-domain assignments |
| `LegacyResharding.ScanMovesOnIff` | dushengcdn_server/model/migrations_legacy_sharding.go:139-153 | the scan moves past each batch if and only if the table is not a single row with the ID zero |
| `LegacyResharding.Renumber` | dushengcdn_server/model/migrations_legacy_sharding.go:154-163 | every row of a batch gets the next fresh ID and goes into the group its ID selects |
| `LegacyResharding.WriteGroups` | dushengcdn_server/model/migrations_legacy_sharding.go:164-168 | the shards gain exactly the grouped rows |
| `LegacyResharding.CopyTable` | dushengcdn_server/model/migrations_legacy_sharding.go:131-170 | batch by batch, each row is copied once, unchanged except for its ID, and the loop terminates |
| `LegacyResharding.RenameBase` | dushengcdn_server/model/migrations_legacy_sharding.go:8-27 | a legacy table in the way stops the rename, otherwise every table moves; no row is lost either way |
| `LegacyResharding.Database.MigrateV3` | dushengcdn_server/model/migrations_v.go:20-41 | on success every base holds its old rows, in order and unchanged except for fresh IDs, each once and in the shard its ID selects, and no legacy table; it fails only when a legacy table is in the way or a write fails, and then no row is gone |
| `SchemaCache.KeyInjective` | dushengcdn_server/model/migrations_schema_cache.go:107-125 | table and column joined by a dot determine both when table names have no dot |
| `SchemaCache.LogTableNames` | dushengcdn_server/model/sharding.go:72-90 | the ten log tables by name |
| `SchemaCache.Cache.HasTable` | dushengcdn_server/model/migrations_schema_cache.go:64-104 | the live answer, cached; entries of other tables stay |
| `SchemaCache.Cache.HasColumn` | dushengcdn_server/model/migrations_schema_cache.go:107-153 | the live answer, cached; entries of other tables stay |
| `SchemaCache.Cache.InvalidateTable` | dushengcdn_server/model/migrations_schema_cache.go:80-89 | forgets the table but not its columns |
| `SchemaCache.Cache.InvalidateColumn` | dushengcdn_server/model/migrations_schema_cache.go:125-135 | forgets one column only |
| `SchemaCache.Cache.RenameHTTPSColumn` | dushengcdn_server/model/migrations_current_schema.go:55-70 | `enable_http_s` becomes `enable_https` exactly when only the former is there and the rename works, no other column changes, and the cache is right about the routes table |
| `SchemaCache.Cache.AddMissingColumns` | dushengcdn_server/model/migrations_current_schema.go:393-404 | on success the six columns request_bytes, response_bytes, upstream_bytes, reason, operator and cache_status are there; no other column appears, none goes, and the cache is right about the table |
| `SchemaCache.Cache.Maintain` | dushengcdn_server/model/migrations_current_schema.go:199-231 | after the run the cache equals the live schema if and only if nothing that the run adds unannounced had been asked for, up to where the run came; a new cache satisfies that |
| `RateLimit.ScriptFollowsRule` | dushengcdn_server/middleware/rate-limit.go:40-58 | for every run of requests and expiries in time order, the script admits what the plain rule admits and no window of the length holds more than the limit |
| `RateLimit.RefusedOnlyWhenFull` | dushengcdn_server/middleware/rate-limit.go:40-58 | a request is refused if and only if the window that ends with it holds exactly the limit |
| `RateLimit.ExpiryStep` | dushengcdn_server/middleware/rate-limit.go:77-82 | dropping an expired key loses nothing that any later window could count |
| `RateLimit.Server.RunScript` | dushengcdn_server/middleware/rate-limit.go:40-96 | one request of one key, whatever clock it comes from; the key expires after twenty minutes or the window if that is longer, sets stay in order and other keys keep theirs |
| `RateLimit.Drop` | dushengcdn_server/middleware/rate-limit.go:40-96 | dropping from the front leaves exactly the scores above the bound |
| `RateLimit.JoinedIsOrdered` | dushengcdn_server/middleware/rate-limit.go:40-96 | adding a score keeps the order |
| `RateLimit.JoinedAdds` | dushengcdn_server/middleware/rate-limit.go:40-96 | and adds that score once |
| `RateLimit.Circuit.IsOpen` | dushengcdn_server/middleware/rate-limit.go:121-133 | open exactly before its deadline; past it the circuit is reset |
| `RateLimit.Circuit.RecordFailure` | dushengcdn_server/middleware/rate-limit.go:135-148 | fewer than three failures are ever pending, and the third opens the circuit for fifteen seconds |
| `RateLimit.Circuit.RecordSuccess` | dushengcdn_server/middleware/rate-limit.go:150-155 | closes the circuit |
| `LoginLockout.AtMostEight` | dushengcdn_server/controller/user.go:198-236 | whatever the serial failed attempts on a key, any half-open ten minutes hold at most eight recorded failures, and an entry is locked exactly when it counts five |
| `LoginLockout.EightHappen` | dushengcdn_server/controller/user.go:198-236 | eight are reached |
| `LoginLockout.LoginFailures.AttemptLocked` | dushengcdn_server/controller/user.go:198-219 | locked exactly before the deadline, with the time left; what is over is forgotten, other keys stay |
| `LoginLockout.LoginFailures.RecordFailure` | dushengcdn_server/controller/user.go:221-236 | a first failure, or one more within ten minutes of the first; the fifth locks for ten minutes; other keys stay |
| `LoginLockout.LoginFailures.ClearFailure` | dushengcdn_server/controller/user.go:238-245 | the key's entry is gone |
| `LoginLockout.LoginFailures.FailedLogin` | dushengcdn_server/controller/user.go:147-169 | check, then record: the stored entry is that of the run of attempts |

## Left out

- Text is taken as trimmed, and times as whole seconds, because the code trims it on the way in; the
  collation of a sort is a parameter, and upper and lower case are those of ASCII letters.
- A query is evaluated on one state: statements of one count or list that see different states are not modelled.
- Query cursors in counts, which the service clears before counting; the order and paging of bucket lists;
  `last_seen_at` of the bucket rows.
- The checks that a rollup table exists: the tables are assumed to exist.
- SHA-256 is taken as injective, JSON as a decoder that may fail, X.509 as an arbitrary relation between
  certificates and host names, Redis as an atomic script on one clock.
- A Redis call that times out after the script has run, and the memory limiter used instead.
- `AccessLogStore.Store.InsertNew`: one row per new key is stated for records that all have a time or all lack one, because the scan misses the others (`ScanCoversIff`).
- `SnapshotStore.Store.InsertNew`: stated for samples that all have a time or all lack one, for the same reason.
- `RollupRuns.EveryCountIsExact`: without an upper bound, in states that are sound and outside a rebuild. An overlap of a refresh with the refilling counts as a disturbance there even when `OverlapIsSafeIff` shows it harmless.
- `RebuildOverlap.OverlapIsSafeIff`: one refresh and no writer; a second refresh that starts during the same rebuild is not modelled, nor two rebuilds at once.
- `RollupRaces.CountDuringRebuildIff`: while shards are grouped; counts while chunks are refreshed see part of the bucket table and are not characterised.
- `RollupQueries.HostFilterMeaning`: for texts without pattern characters; the code does not escape the host and address filters, so that a percent sign or an underscore in them acts as a pattern.
- `RollupQueries.RawCountMeaning`: likewise; every path agrees with the raw scan for all texts (`CountIsPathIndependent`).
- `FoldedBuckets.RawFoldMeaning`: likewise.
- `MigrationChain.FlagMeansNoWorkIff`: a step's calls are told apart by what they do, not by the columns and indexes they name.
- `DedupScan.ScanCoversIff`: for times from the zero time on.
- `RefreshQueue.Queue.Flush`: reset and close in mid-run are not modelled.
- `CounterDeltas.FoldInMemory`: the buckets are returned as a map from their start; the list sorted by start follows from it.
- `LegacyResharding.Database.MigrateV3`: excludes a table whose only row has the ID zero, on which the copy does not end (`ScanMovesOnIff`); IDs come from a counter instead of the clock-based generator.
- `MigrationChain.Upgrade.Run`: a database without a version row starts as version 1, as its caller says; nil handles are not modelled.
- `SchemaCache.Cache.Maintain`: which columns AutoMigrate adds is a parameter; index creation changes no answer of the cache.
- `LoginLockout.AtMostEight`: attempts on a key follow one another; two that overlap between check and record are not modelled, nor a clock at Go's zero time.
- Origins, password hashes, GSLB, licences, DNS workers, config artifacts and request reports: their
  migrations and summaries would only add easy members.
- Region and operator enrichment of address summaries, CPU and memory averages, distributions and metering rows.
- Controllers, authentication, jobs, SQL text generation and the copy from SQLite to PostgreSQL.
