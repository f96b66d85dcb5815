# Tracelistener in Dafny

Tracelistener reads the store operations a Cosmos SDK node traces, folds them into per-module caches, and writes the
result of each block to a SQL database. This project models that pipeline, the SQL statements it generates, the trace
exporter, the bulk importer, the key parsers and the chain reset tool, and proves what they keep.

- `Sql`, `TableLaws`: the generated statements as functions from table to table. A table has at most one row per
  conflict key, so it is a map; a row is live while its delete height is NULL.
- `SplitArithmetic`, `Chunking`: how an op is cut into chunks under the placeholder limit, in exact arithmetic and in
  double precision.
- `Writeback`: executing whole ops and executing their chunks; the consumer loop of `cmd/tracelistener` and the write
  loop of the bulk importer.
- `Keys`: the length-prefixed delegation keys and the CW20 keys, as parsers with an exact language.
- `Modules`, `Processing`: the caches of the write-only and of the set-update modules as objects,
  and the processor object with its routing, epochs and flushes. How a trace decodes to a row, and under which key the row
  is cached, are parameters.
- `Flushing`, `Refinement`, `WriteEpochs`, `Delegations`, `DelegationEpochs`, `FlushOrders`, `Listener`: what the emitted
  batches do to the database, when table plus pending cache agree with the plain map that every trace updates at once, and
  when the order of flushes matters.
- `TokenInfos`: the token infos of CW20 contracts, the one module whose rows need not name the key they are cached under.
- `ExportParams`, `ExportSession`, `ExportLaws`, `ExportFile`, `Exporter`: one export session as a state machine over the
  interleaved steps of producer, stoppers and handler, its invariants, and the object whose methods are runs of that
  machine.
- `Reset`: the cursor loop of the chain reset.
- `BulkImport`: interleavings of the per-store goroutines, and the plain inserts of an import.

Objects the source updates in place are classes whose methods are tied to functions of their old state; the properties
are lemmas about those functions. Go iterates over maps in any order, so the rows a flush lists are related to the cache
by a predicate (`Modules.Lists`, `Sql.Enumerates`) and never by a function.

A stream of traces is the sequence in which the lifecycle loop takes them from its channel. Each trace reaches that channel
through a goroutine of its own (`tracelistener/tracelistener.go:340-355`), so in every statement about a run the last write
is the last to arrive, which need not be the last the node made.

Where the code and its own words differ, the code is followed:

- `tracelistener/keys.go:11-20` and `tracelistener/keys_test.go:30` admit a delegator of 255 bytes; the byte addition at
  line 39 wraps, and such a key is always refused. Keys whose second byte counts all bytes after the first slice out of
  bounds instead of being reported (`Keys.DelegationKeyLanguage`).
- `tracelistener/keys.go:88` asks for holders of at least 43 bytes; the minimum length leaves out the seven bytes of the
  word balance, and 36 bytes suffice (`Keys.BalanceKeyLanguage`).
- `exporter/exporter.go:201` lets any stop end a session; a session started a second time without Init reuses the fired
  once and is never ended (`ExportLaws.SecondStartNeverEnds`).
- `exporter/exporter.go:109` and `exporter/validator.go:38` allow a size of 1024 MB; the validator refuses it
  (`ExportParams.AcceptedParamsAreBounded`).
- `tracelistener/tracelistener.go:144-188` promises at most the limit of placeholders a statement; struct fields are counted,
  one less than the columns bound. `Chunking.RealParametersFitIff` has the exact condition, `Chunking.BalancesExceedOwnLimit`
  an op that misses the promise, and `Chunking.SplitRespectsDatabaseLimit` shows that the database's limit is kept anyway.
- `README.md:111` promises that only the final state of a block is committed; for deletes this holds only when each
  deleted key is deleted last (`Delegations.DelegationsReplayIff`), and for writes only under
  the condition of `WriteEpochs.FlushesCommitIff`, which heights that do not decrease meet and others may not
  (`Refinement.DecreasingHeightLosesWrite`); `DelegationEpochs.FlushesReplayIff` has the condition for both together.
- `tracelistener/processor/cw20_token_info.go:98-100` says that a token's value holds its name, symbol, decimals and supply
  and is unmarshalled over the row to copy them; the value is the contract's own JSON and may name another contract's
  address or any block height. Two contracts that name one address lose the whole flush
  (`TokenInfos.SharedAddressLosesFlush`, `TokenInfos.TokenFlushesRunIff`). The hypotheses of the theorems about
  chronological runs hold exactly for plain values (`TokenInfos.PlainTokensQualifyIff`); `WriteEpochs.FlushesCommitIff`
  asks for none.
- `tracelistener/tracelistener.go:144-145` promises the size of the pieces of an op and not that they do what the op does:
  one that names a conflict key twice is refused whole and may be written in pieces (`Writeback.RepeatedKeyCutApart`);
  `Writeback.SplitIsTransparentIff` has the exact condition.

## Model

| member | source | states |
|---|---|---|
| `Refinement.WriteOnlyRefinesLastWrites` | tracelistener/processor/processor.go:246-268 | over any stream of heights from 1 on that never decrease, with undecodable, foreign and skipped traces mixed in, and rows that name their cache keys, the table overlaid with the pending cache is after every trace the last-write map of all traces so far; a skipped trace is one whose decoder returns the module's constant zero row and no error |
| `Refinement.PipelineKeepsLastWrites` | tracelistener/processor/processor.go:202-268 | the same for the whole processor: for all batches a run may emit, in any row order, executed in order and chunk by chunk |
| `Refinement.DecodedRowIsStored` | tracelistener/processor/processor.go:202-268 | from trace to table, field by field: in such a run, once a later block has begun, the database holds for a write-only module the row its last write of a key decoded to, live, with that row's height, columns and values under the chain's name |
| `Refinement.LastWriteHeld` | tracelistener/processor/bank.go:80-95 | the last-write map holds for each written key the row its last accepted trace decoded to, with that row's own fields |
| `Refinement.FlushCommitsIff` | cmd/sqlgen/template.go:37-46 | the height guard of the upsert loses no pending row if and only if each pending row meeting a stored one is newer or equal to it |
| `WriteEpochs.FlushesCommitIff` | tracelistener/processor/processor.go:246-268 | for every stream, heights in any order, rows of any height and cached under any key: each flush commits exactly the last writes so far if and only if, in the stream itself, whenever an epoch ends each of its last rows is among the rows it leaves one per cache key, with pairwise distinct columns, and is newer than the last write before, or was that last write already and no newer row comes in its place |
| `WriteEpochs.KeyedFlushesCommitIff` | tracelistener/processor/processor.go:246-268 | when the rows name their cache keys, that is: whenever an epoch ends, no row last written in it follows a different last write of its key that is not older |
| `WriteEpochs.FlushesRunIff` | tracelistener/processor/processor.go:202-268 | for the ops any run of the whole processor sends: no write op of a write-only module names a conflict key twice if and only if, in the stream itself, whenever an epoch ends the last rows it wrote to different cache entries differ in their unique columns |
| `Refinement.DecreasingHeightLosesWrite` | tracelistener/processor/processor.go:252-261 | in any state that holds nothing for a key: of two writes of it, the second of an earlier block, and with any other traces between and after them that leave the key alone, the table shows the first for good, the second is at most pending until its epoch ends, and the last write is lost |
| `Refinement.FollowIsProjection` | tracelistener/processor/processor.go:207-213 | one module's cache, epoch and table over a run do not depend on what the other modules do |
| `Refinement.ReorderedFlushesConverge` | tracelistener/processor/processor.go:239-241 | batches handed over in any order, row by row even, leave a write-only module's table as the in-order execution does, skip rows included |
| `Refinement.EpochInvariant` | tracelistener/processor/processor.go:252-261 | for any order of heights, over the modules whose rows have their trace's height or none and whatever the others do: cached rows are of height zero or of the current epoch, each flush holds at most one non-zero height, and height-zero traces never open an epoch |
| `Delegations.DelegationsReplayIff` | tracelistener/processor/delegations.go:53-121 | over blocks of increasing heights, among them deletes too short for two addresses, which decode to a zero row, the live rows after every flush are those of replaying writes and deletes one by one, if and only if in each block every deleted key is deleted last |
| `Delegations.LastTraceReplayed` | tracelistener/processor/delegations.go:97-121 | the replay holds for each touched key what the last accepted trace says: nothing after a delete, and otherwise the decoded row with its own fields |
| `Delegations.DeleteHitsItsRow` | tracelistener/processor/datamarshaler/impl_v44.go:180-207 | a delete of the store key of two addresses takes away the row written for exactly these two |
| `Delegations.FlushedDeleteMarksItsRow` | cmd/sqlgen/template.go:48-55 | flushed, it soft-deletes that row alone, at the height of its block, and keeps its other fields |
| `Delegations.FlushAgreesIff` | tracelistener/processor/delegations.go:64-86 | one flush over any table and rows of any height: its live rows are those of the replay if and only if every key it deletes is deleted last and every key it only writes is written newer than the stored row, live or soft-deleted, or as exactly that live row |
| `Delegations.BlockReplaysIff` | tracelistener/processor/delegations.go:72-86 | for one block of one height over any older table only the deletes decide, zero rows of short deletes included |
| `Delegations.FlushedBlockAt` | tracelistener/processor/datamarshaler/impl_v42.go:148-165 | key by key: any key the block deletes ends soft-deleted if it has a row, a key it only writes holds its last write, every other key is untouched, and the key of short deletes never gets a row |
| `Delegations.FollowBlocks` | tracelistener/processor/processor.go:246-268 | the processor's steps over a sequence of blocks flush exactly one gathered cache per block |
| `DelegationEpochs.FlushesReplayIff` | tracelistener/processor/processor.go:246-268 | for every stream of a set-update module whose rows name their cache keys, heights in any order and rows of any height: after each flush the live rows are those of the replay if and only if, in the stream itself, every epoch that ends deletes last what it deletes, and writes what it only writes newer than the row the stream so far leaves there, live or soft-deleted, or as exactly that live row |
| `DelegationEpochs.TableIsRead` | cmd/sqlgen/template.go:37-55 | until an epoch ends otherwise, the table between two flushes is what the stream says: live rows by replay, and the heights of soft-deleted rows by which deletes found a row |
| `FlushOrders.SwappedFlushesAgreeIff` | tracelistener/processor/processor.go:239-241 | two successive flushes of a set-update module executed in the wrong order leave the same live rows if and only if no key is deleted by the first and left written by the second, or left written by the first and only deleted by the second with no live row before |
| `FlushOrders.AnyOrderAgreesIff` | tracelistener/processor/processor.go:239-241 | for any number of flushes of a set-update module, zero rows of short deletes among them, all orders leave the same live rows if and only if for each key, p being the last flush that leaves it written: with no later delete, no flush deletes the key; with one, a flush after p both writes and deletes it, or it was live at first and none before p deletes it |
| `FlushOrders.RunFlushesInAnyOrderIff` | tracelistener/processor/processor.go:239-241 | the same for the flushes of a run over blocks of increasing heights |
| `Listener.Listen` | cmd/tracelistener/main.go:139-158 | lifecycle and consumer together: every module's cache ends as if that module had been followed alone, and so does its table when its rows name their cache keys, or when it only writes and no op that repeats a key is cut, whatever the other modules' rows do |
| `Listener.NarrowBatch` | tracelistener/tracelistener.go:202-226 | when single rows fit a statement, no op of any run makes the splitter divide by zero |
| `Listener.ConsumeAll` | cmd/tracelistener/main.go:139-158 | consuming everything sent executes the pieces of each op of each batch in order |
| `Flushing.FlushContract` | tracelistener/processor/processor.go:207-235 | each emitted op has rows, each a cached row unchanged but for the chain's name, and the statement of its own type; deletes come one row at a time and only from modules that can delete; a write op has pairwise distinct conflict keys if and only if the cached rows have pairwise distinct unique columns |
| `Flushing.WriteOpRunsIff` | cmd/sqlgen/template.go:37-46 | the database runs a flush's upsert, with every row taking part, if and only if the cached rows have pairwise distinct unique columns, and otherwise refuses it as a whole |
| `Flushing.ModuleOpsEffect` | tracelistener/processor/delegations.go:72-90 | one module's ops apply its writes and then its deletes to its own table and leave every other table alone |
| `Flushing.BatchEffect` | tracelistener/processor/processor.go:207-235 | a batch executed chunk by chunk flushes each module's cache into that module's table, a statement that repeats a key being refused, as long as none of the module's ops is cut between rows of one key; what the other caches hold does not matter |
| `Flushing.ConsumedTables` | cmd/tracelistener/main.go:139-158 | batches consumed in order, chunk by chunk, leave the table of such a module as if its caches had been flushed into it directly |
| `Flushing.PartsOnTable` | tracelistener/processor/processor.go:218-229 | on a module's table a whole batch does what that module's own ops do, and under any placeholder limit no op there shows that it was cut if and only if none of the module's ops alone does |
| `Flushing.OwnOpsOnTable` | tracelistener/tracelistener.go:146-220 | a module's ops flush its cache into its table; with rows under their own keys, or ops that go out whole where they repeat a key, none shows that it was cut: upserts, plain inserts of fresh keys and deletes alike |
| `Processing.Processor.New` | tracelistener/processor/processor.go:72-200 | the first unknown name fails the construction and is reported; otherwise every enabled name, or each of the eleven default ones when none are given, has a module object of its own kind, in order, with empty caches |
| `Processing.Processor.constructor` | tracelistener/processor/processor.go:82-107 | the mapping sends each SDK name to exactly its modules, in order |
| `Processing.Processor.Lifecycle` | tracelistener/processor/processor.go:246-269 | the loop's state is the fold of its steps and the batches it sends are the flushes of the run, in order |
| `Processing.Processor.Receive` | tracelistener/processor/processor.go:251-267 | one trace: flush when a new non-zero height arrives, then process |
| `Processing.Processor.BeginBlock` | tracelistener/processor/processor.go:252-261 | a new non-zero height, and nothing else, empties all caches into one batch and becomes the epoch |
| `Processing.Processor.Flush` | tracelistener/processor/processor.go:202-244 | every cache is emptied and one batch is sent, in module order; every cached write and delete is in it, and every row of it is a cached one with its own height, columns and values under the chain's name |
| `Processing.Processor.CompleteEntries` | tracelistener/processor/processor.go:209-234 | empty entries are dropped, the others get chain name, statement and source module |
| `Processing.FlushKeepsRows` | tracelistener/processor/processor.go:207-235 | a module's ops carry its cache: all cached writes in one op, each cached delete in an op of its own, nothing else, and no row changed but for the chain's name |
| `Processing.BatchKeepsRows` | tracelistener/processor/processor.go:202-244 | a batch carries every module's cache in this way, and nothing else |
| `Processing.Processor.ProcessData` | tracelistener/processor/processor.go:271-314 | a trace with no suggestion, or one that is no module's SDK name, is processed by every module that owns its key; any other exactly by the owners of that SDK name; all other caches stay; each failure to decode is reported once with the module's name |
| `Processing.Processor.ProcessList` | tracelistener/processor/processor.go:290-314 | listed modules process the trace once, the others keep their caches |
| `Processing.ListIsRouting` | tracelistener/processor/processor.go:271-282 | the list for a trace holds each module it is routed to exactly once: all of them unless the suggestion is registered |
| `Processing.ListReaches` | tracelistener/processor/processor.go:271-282 | a module is on the list if and only if the suggestion is missing, is no module's SDK name, or is the module's own |
| `Processing.ErrorsAreFailures` | tracelistener/processor/processor.go:288-314 | the errors reported are those of the listed modules that own the key and cannot decode the trace |
| `Processing.CompletedEmits` | tracelistener/processor/processor.go:209-234 | completing what FlushCache returned gives exactly the ops promised for the cache |
| `Modules.BankProcessor.Process` | tracelistener/processor/bank.go:80-95 | a decoded row replaces the entry of its own key; an undecodable trace changes nothing and is reported |
| `Modules.BankProcessor.FlushCache` | tracelistener/processor/bank.go:52-74 | one write op listing every cached row once, in any order, and none for an empty cache |
| `Modules.DelegationsProcessor.Process` | tracelistener/processor/delegations.go:97-121 | the operation kind chooses the insert or the delete cache; the other is untouched |
| `Modules.DelegationsProcessor.FlushCache` | tracelistener/processor/delegations.go:53-91 | the write op comes first, one delete op per cached delete follows, and both caches are emptied |
| `Modules.ListRows` | tracelistener/processor/bank.go:60-64 | ranging over the cache lists each row exactly once |
| `Modules.ProcessedKeepsKeysIff` | tracelistener/processor/delegations.go:106-118 | cached rows go on carrying their own cache keys if and only if the decoded row, if any, names the key it is cached under |
| `Modules.ListedRowsEnumerate` | tracelistener/processor/processor.go:214-216 | with the chain's name on, the listed rows of a cache keyed by its rows have distinct conflict keys and are exactly the cache |
| `Modules.ListedKeysDistinctIff` | tracelistener/processor/cw20_token_info.go:60-64 | whatever the cache is keyed by, the listed rows have distinct conflict keys if and only if no two cached rows have the same unique columns |
| `Modules.DelegationDeletesDoNotCollide` | tracelistener/processor/datamarshaler/impl_v44.go:180-208 | deletes of different store keys never share a cache entry |
| `Modules.DelegationDeleteNames` | tracelistener/processor/datamarshaler/impl_v44.go:180-207 | a delete of the key of a delegator of up to 254 and a validator of up to 255 bytes, neither empty, decodes to that delegator and that validator in hexadecimal, in this order, at the block's height |
| `Modules.DelegationDeleteLanguage` | tracelistener/processor/datamarshaler/impl_v44.go:180-207 | every other key is refused |
| `Sql.UpsertKeepsNewest` | cmd/sqlgen/template.go:37-46 | for any table and list of upserts: which keys are present, when the stored row stays, and that otherwise a newest row of the list is stored live |
| `Sql.UpsertDistinctRows` | cmd/sqlgen/template.go:37-46 | upserting rows of distinct keys has one closed form, whatever their order |
| `Sql.DeleteDistinctRows` | cmd/sqlgen/template.go:48-55 | deleting rows of distinct keys has one closed form: live rows get the delete's height, others stay |
| `Sql.InsertAgreesWithUpsert` | cmd/sqlgen/template.go:30-46 | on keys the table does not hold, a plain insert and an upsert leave the same table |
| `Sql.InsertRowsAppend` | cmd/sqlgen/template.go:30-35 | inserting fresh rows in two statements is inserting them in one |
| `TableLaws.RunKeepsConsistent` | cmd/sqlgen/template.go:30-55 | after any statements in any order a set delete height equals the row's height and each row sits under its own key |
| `TableLaws.StatementOnDeletedRow` | cmd/sqlgen/template.go:37-55 | one statement changes a soft-deleted row if and only if it upserts the key at a greater height, and then the row is live and newest |
| `TableLaws.DeletedUntilNewerUpsert` | cmd/sqlgen/template.go:37-55 | over a whole run a soft-deleted row stays as it is at every point, if and only if no upsert of the run is newer |
| `TableLaws.HeightsConverge` | cmd/sqlgen/template.go:41-44 | for any permutation of upserts the same keys are stored at the same heights |
| `TableLaws.OrderIrrelevantIff` | cmd/sqlgen/template.go:41-44 | every order of the rows leaves the same table, on every table, if and only if rows that tie for the newest of a key are equal |
| `SplitArithmetic.SplitAmountIsQuotient` | tracelistener/tracelistener.go:199-208 | the ceiling and the two divisions equal the integer quotient of the rows by the chunks aimed at; at least one if and only if a row fits; a full chunk fits the limit |
| `SplitArithmetic.DoublesSplitExactly` | tracelistener/tracelistener.go:200-208 | below 2^51 placeholders, whatever correctly rounded doubles the three operations return, the integers are the exact ones |
| `SplitArithmetic.ChunkCountBounds` | tracelistener/tracelistener.go:224-240 | with c chunks aimed at, between c and 2c - 1 are made |
| `Chunking.BuildEntrierChunks` | tracelistener/tracelistener.go:224-240 | the loop cuts the slice into consecutive pieces of the chunk size |
| `Chunking.ChunksLoseNothing` | tracelistener/tracelistener.go:224-240 | the pieces concatenate to the slice |
| `Chunking.ChunkSizes` | tracelistener/tracelistener.go:227-236 | no piece is empty or too long, all but the last are full, and there are ceil(n / size) of them |
| `Chunking.SplitStatements` | tracelistener/tracelistener.go:146-220 | the imperative split returns what the specification says, panic included |
| `Chunking.SplitPanicsIff` | tracelistener/tracelistener.go:189-226 | the split panics if and only if there are rows and one alone exceeds the limit |
| `Chunking.SplitShape` | tracelistener/tracelistener.go:193-219 | no row lost, added or moved; type and SQL kept, and the source module only by an op that is not cut; every piece non-empty and within the limit; the number and sizes of pieces |
| `Chunking.SplitRespectsDatabaseLimit` | tracelistener/tracelistener.go:64-71 | no split op binds more than twice the placeholder limit, below the database's own, although one bound column a row is not counted |
| `Chunking.RealParametersFitIff` | tracelistener/tracelistener.go:144-220 | every piece binds at most the limit it was split for if and only if the largest piece does with one column more a row |
| `Chunking.BalancesExceedOwnLimit` | tracelistener/tables/balances_gen.go:28-33 | any balances op of 1638 rows counts 6552, goes out whole at the limit of 6553, and binds 8190 parameters |
| `Writeback.SplitIsTransparentIff` | tracelistener/tracelistener.go:146-220 | for any op and any table: the pieces executed in order leave all tables as the whole op executed at once, if and only if the op names no conflict key twice (for a plain insert: and none the table holds), or each piece is refused too or has nothing newer than the table |
| `Writeback.SplitIsTransparent` | tracelistener/tracelistener.go:146-220 | in particular for deletes, upserts of distinct keys and inserts of fresh ones |
| `Writeback.RepeatedKeyCutApart` | tracelistener/tracelistener.go:193-219 | the input on which it does show: two rows of one key that the table does not hold, under a limit for one row, are refused whole and written in pieces |
| `Writeback.PiecesRunLikeBatchIff` | cmd/tracelistener/main.go:139-158 | a whole batch agrees with its pieces after every op if and only if no op shows that it was cut when its turn comes |
| `Writeback.PiecesRunLikeBatch` | cmd/tracelistener/main.go:139-158 | in particular for a batch of ops that may each be cut anywhere |
| `Writeback.Database.ConsumeBatch` | cmd/tracelistener/main.go:139-158 | the loop executes the pieces of every op in order, which is executing the batch when no op shows that it was cut |
| `Writeback.Database.ConsumeOp` | tracelistener/bulk/bulkimport.go:61-92 | one op's pieces are executed in order and the number of rows reported as remaining is zero |
| `Writeback.Database.AddPieces` | tracelistener/bulk/bulkimport.go:63-84 | pieces without rows are skipped and the running counter is the number of rows handed over |
| `Keys.DelegationKeyLanguage` | tracelistener/keys.go:24-71 | success exactly on prefix, length-prefixed delegator of at most 254 bytes, length-prefixed validator; an out-of-bounds slice exactly when the second byte counts all bytes after the first and is not 255 |
| `Keys.ParsesWellFormedIff` | tracelistener/keys.go:35-55 | of the well-formed keys exactly those with a delegator of at most 254 bytes give back their two addresses in hex |
| `Keys.SplitDelegationKeyInjective` | tracelistener/keys.go:24-56 | keys of one prefix byte that name the same addresses are equal |
| `Keys.HexRoundTrip` | tracelistener/keys.go:45-54 | reading the hexadecimal digits back gives the bytes |
| `Keys.HexDigits` | tracelistener/keys.go:45-54 | two lower-case digits a byte, the more significant first |
| `Keys.FromLengthPrefixLanguage` | tracelistener/keys.go:58-71 | accepts exactly length-prefixed data and returns the data |
| `Keys.BalanceKeyLanguage` | tracelistener/keys.go:92-118 | accepts exactly 32-byte contract plus decodable holder string of 36 to 546 bytes, never a token-info key |
| `Keys.TokenInfoKeyLanguage` | tracelistener/keys.go:128-145 | accepts exactly the keys built from a 32-byte contract and returns it in hex |
| `ExportParams.AcceptedParamsAreBounded` | exporter/exporter.go:107-159 | accepted parameters become positive limits within 32 bits; a size of 1024 is refused while 0 means it |
| `ExportParams.ParamsServeOnce` | exporter/exporter.go:149-159 | parameters rewritten in place never validate again |
| `ExportParams.ValidatesInOrder` | exporter/validator.go:30-73 | exactly the acceptable parameters pass, and each error is given exactly when its test is the first of the six to fail |
| `ExportParams.EffectiveFields` | exporter/exporter.go:149-159 | zero becomes the maximum and megabytes become bytes; nothing else changes |
| `ExportSession.RunIsSound` | exporter/exporter.go:195-319 | the session's invariants hold after every interleaving |
| `ExportSession.ConservesStep` | exporter/exporter.go:278-316 | every step of anyone keeps: accepted is written, lost, in hand, queued, in this order |
| `ExportSession.CountsStep` | exporter/exporter.go:278-294 | every step keeps the counter exact and leaves the channel room whenever the producer has passed its check |
| `ExportLaws.AcceptedIsConserved` | exporter/exporter.go:274-319 | under every interleaving no accepted trace vanishes, is doubled or overtakes another |
| `ExportLaws.AtMostOneUnwritten` | exporter/exporter.go:296-310 | after a clean return of the handler, for ever, at most one accepted trace is unwritten, and none if the producer's limit closed the session |
| `ExportLaws.LateTraceIff` | exporter/exporter.go:274-310 | when the handler is about to return on an empty channel, a trace can still be accepted and stay unwritten if and only if the producer is between its check and its send, and it is that trace |
| `ExportLaws.OneTraceCanBeLost` | exporter/exporter.go:275-279 | every session has a schedule of that kind: a stop and the whole drain between a check and its send |
| `ExportLaws.ChannelNeverFull` | exporter/exporter.go:278-292 | for one producer the send never finds the channel full and at most NumTraces traces are accepted |
| `ExportLaws.SizeExactIff` | exporter/exporter.go:280-281 | session by session: traces of up to n bytes never falsify the 32-bit size counter if and only if n is at most 2^31 less the size limit, or 2^31 - 1 when one trace is asked for |
| `ExportLaws.SizeBound` | exporter/exporter.go:280-283 | within that bound the accepted bytes stay below the size limit plus the last trace |
| `ExportLaws.LongerTraceOverflows` | exporter/exporter.go:281-283 | for every size limit, a second trace one byte too long wraps the counter to its least value, and a session that may take a third keeps accepting |
| `ExportLaws.LifecycleHolds` | exporter/exporter.go:195-272 | accepting implies running; the done channel is closed at most once; finish completes exactly when running ends; a trace in hand meets an open file |
| `ExportLaws.CleanSessionOutcome` | exporter/exporter.go:211-272 | without file errors an ended session has finished exactly once, lost nothing to a write and holds at most one unwritten trace |
| `ExportLaws.NothingWrittenAfterReturn` | exporter/exporter.go:211-272 | from the handler's return on nobody writes to the file, and an ended session stays ended |
| `ExportLaws.HandlerMovesBounded` | exporter/exporter.go:296-316 | once the channel is closed the handler is never blocked and, under any interleaving, makes at most 2 (queued + in flight) + 8 moves |
| `ExportLaws.HandlerAloneFinishes` | exporter/exporter.go:232-272 | from any closed state the handler alone reaches the end with the file closed and every accepted trace written |
| `ExportLaws.EndsIffClosedInTime` | exporter/exporter.go:232-239 | at the check in finish the session can still end if and only if the channel is closed; otherwise it runs for ever and no stop helps |
| `ExportLaws.FailedWriteStrandsSession` | exporter/exporter.go:211-239 | one failed write while data is accepted reaches that state |
| `ExportLaws.RemovedIff` | exporter/exporter.go:253-262 | the file is removed, for good, if and only if removal was last asked for when finish gets to it and the removal succeeds |
| `ExportLaws.UnaskedFileStays` | exporter/http.go:129-134 | without a request to remove it, in the parameters or with a stop, the file is never removed |
| `ExportLaws.EndedTakesNoStop` | exporter/exporter.go:198-207 | once a session has ended no stop call begins and removal can no longer be asked for |
| `ExportLaws.SecondStartNeverEnds` | exporter/exporter.go:168-207 | a session started again without Init runs and accepts for ever and writes none of what it accepts |
| `ExportFile.FileRoundTripIff` | exporter/exporter.go:296-319 | splitting the file on newlines recovers exactly the written traces, if and only if none holds a newline; after a failed write the last piece is the torn trace |
| `ExportFile.SplitRecoversLines` | exporter/exporter_test.go:82-89 | splitting inverts writing newline-free traces as lines |
| `ExportFile.LineOf` | exporter/exporter.go:312-319 | each trace is followed by byte 10, and nothing else stands between two of them |
| `ExportFile.AnyPartMayRemain` | exporter/exporter.go:312-316 | for every trace and every length there is a session whose failed write leaves exactly that much of the trace |
| `ExportFile.LimitedSessionReadsBack` | exporter/exporter_test.go:78-89 | a session its own limit ended, without file errors, reads back as exactly the accepted traces, unless the file was removed, which takes a request |
| `Exporter.Exporter.Init` | exporter/exporter.go:103-166 | while not running it succeeds if and only if the file can be made and size, count, duration, length and letters of the name are in range and one limit is given; each error exactly when its test is the first to fail, with nothing changed; otherwise fresh counters, the limits meant, and an exporter not yet accepting |
| `Exporter.Exporter.StartReceiving` | exporter/exporter.go:168-193 | an error while a session runs; otherwise new channels, and nothing else reset: a fresh session after Init, and without one the session that nothing ends |
| `Exporter.Exporter.StopReceiving` | exporter/exporter.go:198-209 | the two stop steps; afterwards a session begun by Init accepts no data; an error only when not running |
| `Exporter.Exporter.NonblockingReceive` | exporter/exporter.go:274-294 | the six producer steps; it succeeds exactly when data is accepted and the channel has room, which in a session begun by Init it always has; then the trace is queued and counted, and data is accepted afterwards if and only if count, size and time are all below their limits |
| `Exporter.Exporter.HandleTrace` | exporter/exporter.go:296-319 | entered in any session, with the other goroutines moving between its steps: its own steps interleaved with theirs in their order; it waits only while data is accepted and the channel is empty, and when it returns without error it has appended what it took as lines, in order, and left nothing |
| `Exporter.Exporter.OtherStep` | exporter/exporter.go:198-294 | one atomic step of the producer or of a stop request on the fields is the step of the machine |
| `Exporter.Exporter.Drain` | exporter/exporter.go:301-311 | the inner loop appends what it takes, in order, and returns when it finds nothing queued |
| `Exporter.Exporter.Finish` | exporter/exporter.go:232-272 | the five finish steps; refused while data is accepted, otherwise the file is closed, removed if that was asked for, and running ends |
| `Exporter.Exporter.Orchestrate` | exporter/exporter.go:211-224 | handler and finish together: refused exactly when data is still accepted, never after a clean return, and otherwise the session ends |
| `Reset.ResetTable` | cmd/resetchain/resetter.go:65-124 | for any positive chunk size, whichever id comes back first and whatever rows arrive beyond the chain's ids, exactly the rows the chain had are deleted, in ceil(n / chunk) + 1 deletes |
| `Reset.AnyReturnedIdCovers` | cmd/resetchain/resetter.go:89-118 | any id of the deleted chunk is a cursor that covers all rows still to go, and one chunk fewer is needed |
| `Reset.DeleteNext` | cmd/resetchain/resetter.go:89-118 | one turn of the loop keeps that invariant, and stops only when nothing is left or the chunk size is zero |
| `Reset.ChooseChunk` | cmd/resetchain/resetter.go:90-96 | the chunk has the limit's size if there are as many, and no eligible row outside it has a greater id |
| `BulkImport.ConfluentIff` | tracelistener/bulk/bulkimport.go:184-225 | for any stores, any module and anything in its cache: all interleavings leave the same cache if and only if any two stores agree on the last row of each of the module's cache keys that both write |
| `BulkImport.MappedStoresAgree` | tracelistener/processor/processor.go:274-282 | stores whose names are all registered meet that condition for every module |
| `BulkImport.ImportIsConfluent` | tracelistener/bulk/bulkimport.go:184-225 | and then each module's cache is that of processing its own store alone |
| `BulkImport.LastEntryIsKept` | tracelistener/bulk/bulkimport.go:184-225 | entry by entry: however the stores interleave, a module holds under each cache key what the last entry of its own store with that cache key decodes to, as a write of that entry's key and value at the import's height; under other keys what it held |
| `BulkImport.ImportStore` | tracelistener/bulk/bulkimport.go:192-209 | the loop over one store hands the processor each entry as such a write, and no batch is sent meanwhile |
| `BulkImport.ImportLeavesOwnStores` | tracelistener/bulk/bulkimport.go:55-96 | over a table without the imported keys, plain inserts in chunks leave a module's table as upserting its own store at once, when its rows name their cache keys or none of its inserts is cut between rows of one key, whatever the other modules' rows do |
| `TokenInfos.PlainTokensQualifyIff` | tracelistener/processor/cw20_token_info.go:80-108 | a stream of token infos meets the hypotheses of the theorems about chronological runs, with no skip row, if and only if no accepted value names another contract than its store key or another height than its block |
| `TokenInfos.TokenRowFields` | tracelistener/processor/cw20_token_info.go:75-105 | keys are owned exactly when built from a 32-byte contract, and decode exactly when the value does; contract and height are those the JSON names, else those of key and block |
| `TokenInfos.TokenIsCached` | tracelistener/processor/cw20_token_info.go:80-108 | a decoded token info that suggests no module, or its own, is cached under the contract of its store key |
| `TokenInfos.TokenFlushesRunIff` | tracelistener/processor/cw20_token_info.go:80-108 | over any run of the whole processor: no flush of token infos names a contract twice if and only if, whenever an epoch ends, no two contracts that wrote in it name the same one with their last values |
| `TokenInfos.SharedAddressLosesFlush` | tracelistener/processor/cw20_token_info.go:84-106 | two contracts whose values name the same address in one epoch, whatever else is cached: the upsert of the flush names that address twice, the database refuses it, and no table changes; cut under any limit it changes nothing either if and only if each piece names a key twice or has nothing newer than the table |
| `BulkImport.Collect` | tracelistener/bulk/bulkimport.go:184-253 | the importer's trace loop and flush send one batch of plain inserts made of what the caches absorbed |

## Left out

- The values of the skip rows: a module has one constant row that its decoder may return for a skipped trace (for instance `tracelistener/processor/datamarshaler/impl_v44.go:117` and `tracelistener/processor/datamarshaler/impl_v42.go:55`), and no other row under that row's key; a set-update module only ever deletes under that key (`tracelistener/processor/datamarshaler/impl_v42.go:150-151`).
- Decoding of protobuf and Cosmos SDK types in `tracelistener/processor/datamarshaler`: a trace decodes to a row or an error by an arbitrary function; only the delegation delete, which needs no codec, is modelled, and of token infos what surrounds the JSON.
- Modules.DelegationDeleteLanguage: a key on which the parser slices out of bounds, which ends the process, counts as refused; `Keys.DelegationKeyLanguage` tells the two apart.
- The prefix byte of delegation keys, a constant of the Cosmos SDK: a parameter.
- Bech32 decoding (BIP 173) of CW20 holders: an arbitrary partial function.
- `tracelistener/processor/unbonding_delegations.go`: it rebuilds rows without a height, so the height-guarded statements do not apply to it.
- `tracelistener/processor/validators.go`: writes and deletes use different encodings of the operator in their keys, so its deletes do not meet its writes.
- CW20 modules ignore the operation kind: they are write-only modules whose deletes are not deletes. `cw20_token_infos` is the one whose rows need not name their cache keys; the theorems that ask for rows that do cover it as far as `TokenInfos.PlainTokensQualifyIff` says.
- FIFO tailing, JSON parsing, HTTP handlers, logging, configuration, the Tendermint websocket and database jitter.
- Database failures and retries: each statement is atomic and succeeds or is refused; the refusals modelled are those of the UNIQUE constraint and of an upsert that names one conflict key twice (`Sql.Execute`).
- JSON decoding of token infos: an arbitrary partial function to the fields that land in the row; the chain's name is one of them, but the flush overwrites it.
- Refinement.DecreasingHeightLosesWrite: starts from cached rows that are under their own keys; a cache in which two rows name one key would have its first flush refused, and then neither write is stored.
- WriteEpochs.FlushesCommitIff: takes a flush that names a conflict key twice as refused whole; of one too large for a single statement the pieces that name none twice are run (`Writeback.SplitIsTransparentIff`).
- The serial id column, outside `Reset`: no statement but the reset reads it.
- The width of Go's int64 in placeholder counts; ops of 2^51 placeholders or more are outside `SplitArithmetic.DoublesSplitExactly`.
- `AddModule` of the processor: it does not extend the SDK name mapping and only tests call it.
- The mutexes: a step between lock and unlock is one step here.
- Waiting of the goroutines that send batches: `Processing.Processor.Flush` appends to a sequence; their reordering is `Refinement.ReorderedFlushesConverge` and, for a set-update module, `FlushOrders.AnyOrderAgreesIff`.
- Exporter.Exporter.NonblockingReceive: requires that the one producer is in no other call; several producers are not modelled.
- Calls that outlive their session: Init and StartReceiving begin with no receive or stop call under way.
- Concurrent starts, and stops racing with StartReceiving.
- Upload of the export file, which the source does not do yet.
- Wall-clock time: the time limit is a choice in the limit step.
- Errors from reading the last id or closing rows in `Reset`, a missing table, and the loop over several tables.
- Module list validation of the importer and opening the node's database.
- sqlgen's assembly of column lists and names.
