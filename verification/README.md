# A verified model of RhydaDB

RhydaDB is a key/value store with a CQL query engine on top. Rows are spread over several
storage engines, every engine batches its writes behind a queue, a row cache sits in front,
and the query engine has several ways to answer the same statement. This project models
those parts in Dafny and proves that, together, they behave like one plain map of rows.

Verify everything with `dafny verify dfyconfig.toml`.

## How the pieces fit

| area | modules | main result |
|---|---|---|
| values and rows | `Bytes`, `Counting`, `Values`, `Equality`, `Codec`, `RowCodec`, `Keys`, `Layout`, `Hashing` | codecs are faithful exactly on the inputs named by a condition, and lay bytes out as specified |
| write pipeline | `Pipeline`, `Writer`, `Protocol`, `Guarantees` | every run keeps send order, acknowledges nothing early and drains |
| cache and sharding | `Coherence`, `Agreement`, `HarmfulOverlaps`, `Overlap`, `Scan`, `Sharding` | runs without overlapping calls answer like a plain map; exactly which overlaps keep the cache right |
| SELECT | `Projection`, `SelectPlans`, `PlanEquivalence`, `PartitionPlan`, `ScanOrder`, `Select`, `PlanLimits` | all plans give the query's meaning, and exactly when they do not |
| writes | `Statements`, `Refinement`, `AbstractQueries`, `EndToEnd` | a client's writes and reads, through cache and engines, are those of an abstract table |
| binds | `Binds`, `Bindings`, `Reading`, `Prepared`, `Typing` | what PREPARE announces is what execution consumes, and a bound statement says what its text and values say |
| connection | `Connection` | every frame is answered once, with no deadlock |
| schema | `Schema` | cached definitions behave like one catalog |

`Protocol` is a step machine over any number of engines: calls look in the cache, send to a
channel and await tickets one step at a time, interleaved in any way with the collector and
committer steps of each engine and with shutdown. `Writer` holds the same threads in their
imperative form. `Statements`, `Bindings`, `Codec`, `RowCodec`, `Projection`, `SelectPlans`
and `Select` hold the loops of the query engine and the codecs as methods, each proved
against a specification function about which the properties are then proved.

## Assumptions

- Engine writes succeed. The committer only logs a failed write and still completes the
  tickets (src/storage.rs:1183-1188).
- An engine is an ordered map of byte strings that applies a batch atomically.
- Keyspace and table names hold no `!` (`Keys.Plain`); `Keys.BangInNameCollides` and
  `Schema.BangLeavesAStaleDefinition` show what happens otherwise.
- Key parts are shorter than 2^16 bytes and encoded values shorter than 2^31. Both bounds are
  shown to be exact (`Keys.KeyRoundTripExactly`, `Values.RoundTripExactly`).
- Tables are valid (`SelectPlans.ValidTable`): distinct column names, key names that are
  distinct columns, key flags that agree with the key lists, indexes that fit 16 bits.
- That reads answer like a plain map is stated for runs in which calls on one row do not
  overlap (`Coherence.OrderlyRun`). That a resting row's cached copy is right is stated for
  every pair of overlapping calls for which it is true (`HarmfulOverlaps.HarmlessExactly`).
  `Overlap.OverlapResurrectsARow` is a run in which a deleted row comes back.
- Floats are bit patterns compared as IEEE 754 numbers. UTF-8 validity is a predicate.
- Parsing a literal is a function parameter. Panics of the original (an index into an empty
  payload, a missing map entry) are the error `Panicked`.

## Where the code departs from what one might expect

- The single-key fast projection skips the filter, so it returns a row stored under NaN which
  every other plan rejects (`Projection.FastPathExactly`, `PlanLimits.NanIsFound`).
- Keys are compared by bytes and filters as numbers, so `k = 0.0` misses a row stored under
  `-0.0` when it is looked up and finds it when it is scanned (`PlanLimits.OtherZeroIsMissed`,
  with the exact condition in `PlanLimits.PointLookupExactly`).
- A partition scan visits a partition once for every time it is listed, so `k IN (1, 1)` and
  `k = 1 AND k IN (1, 2)` answer rows twice (`PlanLimits.RepeatedPartitionRepeatsRows`, with
  the exact condition in `PlanLimits.PartitionScanExactly`).
- UPDATE panics when it assigns as many distinct columns as there are regular ones and one of
  them is a key column (`Statements.ExecUpdate`, `Statements.ShortcutCells`). A panicking task
  never answers its frame (`Connection.PanicLeavesItsFrameUnanswered`).
- PREPARE announces one value per assigned column even where a literal stands, so
  `UPDATE t SET v = 5 WHERE k = ?` takes the value meant for `v` as the key
  (`Prepared.LiteralShiftsTheKey`).
- Identifiers are matched case-insensitively when executing but case-sensitively when
  preparing (`Prepared.MixedCaseIsNotPrepared`, with the exact condition in
  `Binds.IdentifiersAgreeExactly`).
- An UPDATE outside the shortcut accepts assignments to key columns and ignores them
  (`Refinement.StatementRefines`).
- A compressed frame that does not decompress ends the connection unanswered
  (`Connection.NothingElseIsLost`).
- `prefix_upper_bound` documents a bound covering a prefix; it also covers other keys when the
  prefix ends in 0xFF (`Keys.UpperBoundExactly`). No caller passes such a prefix.
- A scan that stops at its limit issues no paging state (`Select.ExecSelect`).

## Model

| member | source | states |
|---|---|---|
| `Values.RoundTrip` | src/cql_value.rs:120-303 | decoding the wire form, or the raw bytes, of any well-typed value of any nesting gives that value back |
| `Values.RoundTripExactly` | src/cql_value.rs:26-303 | encode then decode is the identity exactly on nulls and well-typed values |
| `Values.DecodedWellTyped` | src/cql_value.rs:173-303 | whatever the decoder accepts is null or well typed for the column, and no larger than its input |
| `Values.RawInjective` | src/cql_value.rs:120-164 | two well-typed values of one type never share raw bytes, so key parts identify values |
| `Codec.WriteWire` | src/cql_value.rs:26-112 | the appending encoder leaves what was in the buffer and adds length prefix plus `raw_bytes`, or -1 for null |
| `Codec.ReadWire` | src/cql_value.rs:173-303 | the offset-walking decoder accepts, rejects and panics exactly as the recursive grammar does |
| `Codec.ReadElements` | src/cql_value.rs:212-263 | the element loop reads the announced count, in order, with the bounds checks of the grammar |
| `Codec.ReadEntries` | src/cql_value.rs:264-298 | the map loop reads key and value pairs, in order, with the bounds checks of the grammar |
| `Layout.ScalarLayout` | src/cql_value.rs:120-137 | the bytes of every scalar are those section 6 of the CQL Binary Protocol v4 prescribes: two's complement and IEEE bits most significant byte first, one byte 0 or 1 for a boolean, text, blob, uuid and inet as they are |
| `Layout.ScalarDecodedExactly` | src/cql_value.rs:173-211 | a scalar column decodes to a value if and only if the bytes are its bytes, except that any non-zero first byte is true and a tinyint is its first byte |
| `Layout.CollectionLayout` | src/cql_value.rs:138-153 | a set or list is its count in four bytes, then each element as four bytes of length and its payload, back to back |
| `Layout.MapLayout` | src/cql_value.rs:154-162 | a map is its number of entries, then key and value of each in turn |
| `Layout.CollectionDecodedExactly` | src/cql_value.rs:212-263 | a payload decodes to these elements if and only if it starts with their number and they are laid out behind it, trailing bytes ignored |
| `Equality.ReflexiveExactly` | src/cql_value.rs:4-22 | a value equals itself if and only if it holds no NaN at any depth |
| `Equality.EqualIsIdentical` | src/cql_value.rs:4-22 | equal values hold no NaN, and are identical unless they hold a zero |
| `Equality.EqualExactly` | src/cql_value.rs:4-22 | two values are equal if and only if neither holds a NaN and they are the same once every -0 is +0 |
| `Equality.SharpExactly` | src/cql_value.rs:4-22 | equality with a value implies identity exactly when it holds a NaN or no zero |
| `Keys.WriteKey` | src/storage.rs:1198-1205 | the loop writes each part behind its length cast to 16 bits |
| `Keys.ReadKey` | src/storage.rs:1207-1225 | the loop returns the parts, or the failure, the key grammar prescribes |
| `Layout.KeyLayout` | src/storage.rs:1198-1205 | a row key is `dt!`, keyspace, `!`, table, `!`, then for each part two bytes of length, most significant first, and the part |
| `Keys.KeyRoundTripExactly` | src/storage.rs:1198-1225 | decoding inverts encoding if and only if every part is shorter than 2^16 bytes |
| `Keys.DecodedReencodes` | src/storage.rs:1207-1225 | every byte string that decodes re-encodes to itself |
| `Keys.KeyPrefixExactly` | src/storage.rs:1198-1205 | one encoded part list is a byte prefix of another if and only if it is a prefix as a list |
| `Keys.KeyspaceOfKey` | src/storage.rs:789-797 | a row key starts with a keyspace's data prefix if and only if the row is in that keyspace |
| `Keys.TableOfKey` | src/storage.rs:888-890 | a row key starts with a table's data prefix if and only if the row is in that table |
| `Keys.RowKeyInjective` | src/storage.rs:888-925 | different rows have different keys |
| `Keys.BangInNameCollides` | src/storage.rs:888-890 | with `!` in a name two tables share a key |
| `Keys.PartitionOfKey` | src/storage.rs:674-688 | within a table, keys below an encoded partition are exactly the rows whose parts begin with it |
| `Keys.PrefixUpperBound` | src/storage.rs:1095-1104 | the backward loop increments the last byte below 0xFF, keeps what follows, and fails only on all 0xFF |
| `Keys.UpperBoundCovers` | src/storage.rs:1093-1104 | the range from a prefix to its upper bound contains every key starting with the prefix |
| `Keys.UpperBoundExactly` | src/storage.rs:1095-1104 | the range is exactly those keys if and only if the prefix does not end in 0xFF, with a stray key otherwise |
| `Keys.BangPrefixExact` | src/storage.rs:712-728 | for the prefixes the storage deletes, the range is exact |
| `Keys.Contiguous` | src/storage.rs:627-642 | no other key sorts between a prefix and a key below it |
| `Keys.Fnv1a` | src/storage.rs:125-132 | the byte loop computes the 64-bit hash of the bytes in order |
| `Hashing.MixIsXor` | src/storage.rs:128 | mixing in a byte is exclusive or, bit by bit |
| `Hashing.StepIsFnv1a` | src/storage.rs:127-130 | a step multiplies by the FNV prime and wraps at 2^64 |
| `Hashing.HashAppend` | src/storage.rs:125-132 | the hash of a longer text is one step on the hash of the shorter one |
| `Hashing.KnownHash` | src/storage.rs:125-132 | the hash of "a" is the published FNV-1a value |
| `Hashing.RouteIsHash` | src/storage.rs:563-582 | a row's engine is the hash of its table prefix and first key part by the number of engines, one engine included |
| `Pipeline.LastWriterWins` | src/storage.rs:108-123 | after any operations a key holds the effect of the last one touching it, range tombstones included |
| `Pipeline.EnqueueInOrder` | src/storage.rs:1036-1052 | accepting an operation keeps order and commits nothing |
| `Pipeline.StepInOrder` | src/storage.rs:1121-1196 | every collector and committer step loses, duplicates and reorders nothing and keeps batches within 2048 |
| `Pipeline.ViewIsSequential` | src/storage.rs:1121-1196 | the engine followed by in-flight batches, open batch and queue is one-by-one application of all operations |
| `Pipeline.DoneIsCommitted` | src/storage.rs:1182-1189 | a completed ticket means its operation and all earlier ones are written |
| `Pipeline.CommittedIsVisible` | src/storage.rs:1182-1189 | a reader of a committed key sees that operation or a later one on the key |
| `Pipeline.StepShrinksWork` | src/storage.rs:1131-1190 | every thread step decreases the work left |
| `Pipeline.StuckIsDrained` | src/storage.rs:1131-1190 | a pipeline with no step left has applied everything and completed every ticket |
| `Writer.EngineWriter.Send` | src/storage.rs:1049-1054 | sending appends to the queue and keeps the pipeline in order |
| `Writer.EngineWriter.Collect` | src/storage.rs:1131-1167 | a collector turn hands over the longest allowed run of what was queued and what arrived meanwhile, in order, stopped only by 2048 operations, the window or an empty queue |
| `Writer.EngineWriter.Commit` | src/storage.rs:1182-1189 | a committer turn writes the oldest batch and completes exactly its tickets |
| `Writer.EngineWriter.Await` | src/storage.rs:1058-1063 | waiting on an accepted ticket terminates with it completed and changes nothing readers will finally see |
| `Writer.Settle` | src/storage.rs:1058-1065 | over tickets of any engines: on return every ticket's operation and all its engine accepted earlier are committed |
| `Writer.EngineWriter.Shutdown` | src/storage.rs:81-106 | after shutdown the engine holds every accepted write applied in send order |
| `Protocol.ScopeRange` | src/storage.rs:712-728 | the tombstone of a table or keyspace covers exactly the keys below its prefix |
| `Protocol.CachedKeyspaces` | src/storage.rs:893-897 | rows of every keyspace are cached but those of `system`, `system_schema` and `system_virtual_schema` |
| `Protocol.DoSafe` | src/storage.rs:899-1065 | every step of a call, an engine or shutdown keeps order, tickets and issued gates consistent |
| `Protocol.RunSafe` | src/storage.rs:899-1065 | so does every run, and logs and completed tickets only grow |
| `Guarantees.EveryRunInOrder` | src/storage.rs:1121-1196 | in every run of any number of engines: committed is a prefix of sent, the rest is in flight in order, batches hold 1 to 2048 |
| `Guarantees.TombstoneCutsHistory` | src/storage.rs:712-728 | covered rows depend only on operations sent after the tombstone |
| `Guarantees.AckedIsCommitted` | src/storage.rs:1182-1189 | the operation an acknowledged write itself sent, under its own ticket, is committed |
| `Guarantees.NoEarlyAck` | src/server.rs:272-287 | in every run, the row on its engine shows the operation the acknowledged call itself sent, or something accepted later |
| `Guarantees.DrainIsBounded` | src/storage.rs:1131-1190 | with no input any schedule of the threads ends within the work left and accepts nothing |
| `Guarantees.DrainedIsComplete` | src/storage.rs:81-106 | any schedule that runs dry leaves sequential application of all accepted writes |
| `Guarantees.DrainExists` | src/storage.rs:81-106 | from every reachable state such a schedule exists |
| `Guarantees.ShutdownDrains` | src/storage.rs:81-106 | after a shutdown nothing is accepted any more, and running dry leaves each engine equal to its opening contents with all accepted writes applied |
| `Coherence.RunCoherent` | src/storage.rs:899-1065 | every run without overlapping calls on one row keeps cache, engine and plain map in agreement |
| `Coherence.AnswersLikeAPlainMap` | src/storage.rs:899-926 | in those runs every answered `get_row` returns what a plain map holds after the calls that began before it |
| `Coherence.RestingRowsAreCoherent` | src/storage.rs:984-1034 | a row with no write in progress is on its engine what the plain map holds, and a cached copy equals it |
| `Overlap.OverlapResurrectsARow` | src/storage.rs:1013-1034 | an overlapping read and delete leave a deleted row in the cache for later reads |
| `Agreement.CachedRowsAgree` | src/storage.rs:984-1034 | in every run whose overlaps on one row are harmless, a row with no call in progress has nothing pending and its cached copy is the engine's value |
| `HarmfulOverlaps.HarmlessExactly` | src/storage.rs:899-1034 | two calls on one row leave its cached copy right under every interleaving if and only if both read, both remove, both put the same value, or one puts and one truncates |
| `Scan.PrefixIsContiguous` | src/storage.rs:627-642 | seeking to a prefix and stopping at the first other key misses no key below it |
| `Scan.ForEachOnEngine` | src/storage.rs:627-642 | the iterator loop visits, in key order, the entries below the prefix, all or up to the first at which the callback stops |
| `Sharding.ShardingKept` | src/storage.rs:563-582 | in every run each engine only holds row keys that route to it |
| `Sharding.PartitionOnOneEngine` | src/storage.rs:573-582 | all rows of a non-empty partition are on the engine its first part routes to |
| `Sharding.PartitionScanIsComplete` | src/storage.rs:672-688 | scanning that one engine visits exactly the rows, on any engine, whose parts begin with the partition |
| `Sharding.WipeIsExact` | src/storage.rs:789-870 | once DROP TABLE, TRUNCATE or DROP KEYSPACE settles, no engine holds a key of the scope and every other row is unchanged |
| `RowCodec.WriteRow` | src/storage.rs:1232-1240 | the loop appends index and wire value per cell |
| `RowCodec.ReadRow` | src/storage.rs:1242-1273 | the loop decodes or rejects exactly as the cell grammar does |
| `RowCodec.RowRoundTrip` | src/storage.rs:1232-1273 | a sparse row decodes to null everywhere except the listed columns, the last entry winning |
| `RowCodec.PaintExactly` | src/query.rs:1538-1540 | writing cells over a row leaves in every column its last cell's value, and columns without a cell as they were |
| `Layout.RowLayout` | src/storage.rs:1232-1240 | each cell is stored as its column index in two bytes, most significant first, and its value in wire form |
| `Projection.ProjectDecoded` | src/query.rs:1393-1429 | emits the selected columns of the decoded row with the key laid over it, if and only if the filters by column index accept it |
| `PlanEquivalence.AcceptsExactly` | src/query.rs:1412-1421 | they accept a row if and only if every filter, on whatever column it names, accepts the value there |
| `Projection.ScanForCell` | src/query.rs:1351-1382 | scanning raw bytes for one column finds its first cell, or null, and panics and fails where the bytes are malformed |
| `Projection.ProjectFastPoint` | src/query.rs:1334-1387 | pushes one row built column by column from key part or raw bytes |
| `Projection.FastPathExactly` | src/query.rs:1082-1111 | on stored rows the fast projection emits what the general one does if and only if the key value holds no NaN |
| `SelectPlans.HandleEntry` | src/query.rs:1292-1330 | emits at most one row and asks to stop exactly on an error or at the limit |
| `SelectPlans.ScanGroup` | src/query.rs:1156-1200 | the callback loop over one partition or engine collects the leading rows still allowed |
| `SelectPlans.ScanGroups` | src/query.rs:1156-1253 | the loop over partitions or engines collects the leading rows of the concatenated scan |
| `SelectPlans.FirstRowsIsPrefix` | src/query.rs:1156-1271 | with a limit of at least one, the rows are exactly that many leading elements of the filtered, projected scan, or all |
| `SelectPlans.FirstRowsExactly` | src/query.rs:1292-1330 | a limited scan answers a leading part of what it would emit, as long as the limit or all of it, and fails if and only if an entry fails before the limit is reached |
| `PlanEquivalence.EntryMeaning` | src/query.rs:1306-1321 | a stored entry decodes, and is emitted only if every filter on a key column accepts the stored value |
| `PartitionPlan.ProductMembers` | src/query.rs:1132-1155 | the partitions are exactly the tuples taking each column's part from its list |
| `PartitionPlan.ProductTimes` | src/query.rs:1132-1155 | how often the product holds a tuple: the product of how often each list holds its part |
| `PartitionPlan.GroupTimes` | src/query.rs:1156-1211 | scanning the partitions visits a row once for every time its partition is listed |
| `PartitionPlan.ListedExactly` | src/query.rs:1135-1146 | the values listed for a column are those of its equalities and lists, in filter order |
| `ScanOrder.PartitionScanOrder` | src/query.rs:1132-1155 | the partitions are scanned in the order of nested loops over the listed values, first partition column outermost |
| `ScanOrder.TuplesInOrder` | src/query.rs:1147-1155 | the tuples of such loops take their values from lexicographically ascending places in the lists |
| `ScanOrder.PartitionRowsOrder` | src/query.rs:1156-1159 | rows come partition by partition in that order, in ascending key order within one |
| `ScanOrder.TableScanOrder` | src/storage.rs:654-670 | a table scan visits the engines in order and the rows of each in ascending key order |
| `PlanEquivalence.TableRows` | src/storage.rs:654-670 | a table scan visits every row of the table on any engine, once |
| `PartitionPlan.PartitionPlanAgrees` | src/query.rs:1132-1211 | the partition scan answers the same multiset of rows as the full scan, whatever other filters say, if every acceptable value of each partition column is listed once or a column accepts nothing |
| `PartitionPlan.DistinctListsAreExact` | src/query.rs:1132-1155 | byte-distinct listed values without zeros meet that condition |
| `PlanEquivalence.PointPlanAgrees` | src/query.rs:1057-1114 | the point lookup answers the same multiset of rows as the full scan |
| `Select.PartitionProduct` | src/query.rs:1132-1155 | the nested loops build the product of the listed values in order |
| `Select.ExecSelect` | src/query.rs:1017-1273 | chooses the plan; a scan's answer is a leading part of what it would emit, no longer than LIMIT, page size, or 5000 without either, and shorter than all only by reaching the smallest of them; a paging state is issued only for page size 0 |
| `Select.PlanChosenExactly` | src/query.rs:1121-1131 | a scan goes partition by partition exactly when every partition column has a filter |
| `Select.ScanHasNoErrors` | src/query.rs:1292-1330 | scanning stored rows never fails |
| `Select.NanMatchesNothing` | src/query.rs:1393-1429 | no stored row satisfies an equality of a key column with NaN |
| `Select.EveryPlanAnswersTheQuery` | src/query.rs:1057-1271 | whichever plan is chosen, if it fits the filters and the limit is not exceeded the answer is the multiset of rows satisfying every filter; a full scan always fits |
| `PlanLimits.FastPathTakenExactly` | src/query.rs:1082-1090 | the single-key shortcut is taken exactly for one filter, an equality on the only key column |
| `PlanLimits.PointLookupExactly` | src/query.rs:1057-1114 | a full-key lookup answers the query on every store if and only if the key values hold no zero, or hold a NaN on keys of several columns; a NaN breaks single-column keys |
| `PlanLimits.OtherZeroIsMissed` | src/query.rs:1059-1081 | a row stored under the other zero is scanned but not looked up |
| `PlanLimits.NanIsFound` | src/query.rs:1082-1099 | a row stored under NaN is looked up but not scanned |
| `PlanLimits.PartitionScanExactly` | src/query.rs:1132-1211 | for filters on partition columns, the partition scan answers like the full scan on every store if and only if some column accepts nothing or every value a column accepts is listed for it exactly once |
| `PlanLimits.RepeatedPartitionRepeatsRows` | src/query.rs:1132-1159 | a partition listed twice is answered twice |
| `Statements.StoredRoundTrip` | src/query.rs:814-829 | writing a row and reading it back loses exactly its key columns |
| `Statements.Resolve` | src/query.rs:780-794 | each column gets the last value provided for it |
| `Statements.LatestExactly` | src/query.rs:780-794 | that is the value of the last cell with the column's index, none exactly without such a cell |
| `Statements.InsertedExactly` | src/query.rs:814-821 | an INSERT stores in every column the last value provided, null exactly where none or a null was |
| `Statements.InsertedIsPainted` | src/query.rs:814-821 | so an INSERT is the provided cells written over a row of nulls |
| `Statements.InsertKeyParts` | src/query.rs:796-812 | the key parts are the raw key values in key order, or the failure of the first missing or null one |
| `Statements.InsertKeyExactly` | src/query.rs:796-812 | an INSERT is accepted, with exactly that key, if and only if a last non-null value is provided for every key column |
| `Statements.ExecInsert` | src/query.rs:759-833 | replaces the addressed row by the provided regular columns, null elsewhere, or reports and changes nothing |
| `Statements.KeyPartsFromFilters` | src/query.rs:1431-1458 | the first equality per key column gives its part; missing or null ones are refused |
| `Statements.FilterKeyExactly` | src/query.rs:1431-1458 | an UPDATE or DELETE is accepted, with exactly that key, if and only if the first equality on every key column has a non-null value |
| `Statements.PointKeyExactly` | src/query.rs:1059-1075 | a SELECT is a lookup of exactly that key under the same condition |
| `Statements.ShortcutTakenExactly` | src/query.rs:1511-1518 | the read is skipped exactly for as many assignments as there are regular columns with no column twice, so for every UPDATE of each regular column once |
| `Statements.ShortcutCoversExactly` | src/query.rs:1511-1518 | under the shortcut's test, assigning only regular columns is the same as assigning all of them |
| `Statements.ShortcutIsReadModifyWrite` | src/query.rs:1520-1549 | the path that skips the read writes the same bytes as read-modify-write for any existing or missing row |
| `Statements.ShortcutCells` | src/query.rs:1520-1529 | the shortcut's loop panics exactly when some regular column has no assignment |
| `Statements.ExecUpdate` | src/query.rs:1481-1561 | merges the assignments into the addressed row, panicking exactly when the shortcut meets an assigned key column |
| `Statements.ExecDelete` | src/query.rs:1460-1479 | removes exactly the addressed row, or reports and changes nothing |
| `Statements.ExecTruncate` | src/query.rs:743-757 | removes exactly the rows of the table |
| `Refinement.Execute` | src/query.rs:439-470 | running a statement on the store takes the step the refinement is about |
| `Refinement.UpdateRefines` | src/query.rs:1481-1561 | an UPDATE by either path, key columns assigned or not, stores the merge with the abstract row |
| `Refinement.StatementRefines` | src/query.rs:743-833 | INSERT, UPDATE, DELETE and TRUNCATE, accepted, refused or panicking, act on encoded bytes as on an abstract map from key tuple to row |
| `Refinement.RunRefines` | src/query.rs:439-470 | so does every sequence of statements |
| `AbstractQueries.LookupAnswers` | src/query.rs:1077-1114 | a full-key SELECT on the encoded rows answers, by either projection, from the abstract row |
| `AbstractQueries.KeyAnswerExactly` | src/query.rs:1077-1114 | equating the whole key answers the abstract row if and only if there is one and, on keys of several columns, no key value is NaN |
| `AbstractQueries.HoldsIsStored` | src/query.rs:814-829 | engines that hold an abstract table satisfy what the SELECT plans assume |
| `AbstractQueries.ListsWide` | src/query.rs:814-829 | the rows of such a table have the width of its columns, so the two results below exclude no table |
| `AbstractQueries.MeaningIsMatching` | src/query.rs:1393-1429 | a query over such engines means the projected abstract rows satisfying every filter |
| `AbstractQueries.SelectAnswersTheAbstractTable` | src/query.rs:1057-1271 | whichever plan SELECT takes, if it fits, it answers those rows |
| `Refinement.OtherTablesUntouched` | src/storage.rs:851-870 | statements on one table leave the rows of every other table alone |
| `EndToEnd.DatabaseIsAPlainTable` | src/server.rs:272-287 | in any settled run of one client's writes and full-key SELECTs, on any number of engines, with or without cache, under any scheduling, each UPDATE merging into its own read, every SELECT answers what the abstract table says and the engines end up holding exactly that table |
| `EndToEnd.SelectAfterTheRun` | src/query.rs:1057-1271 | after such a run any SELECT whose plan fits answers the projected abstract rows satisfying its filters |
| `Binds.SameColumn` | src/schema.rs:158-172 | on columns whose lower-cased names stand at or before them the two identifier lookups agree |
| `Binds.IdentifiersAgreeExactly` | src/schema.rs:158-172 | PREPARE and execution resolve every identifier alike if and only if the columns have that form |
| `Binds.WhereBindsMatch` | src/query.rs:220-250 | a WHERE clause asks for a prefix of the announced types, and for all of them unless it is rejected |
| `Binds.ValueBindsExactly` | src/query.rs:141-187 | assigned values ask for the announced types if and only if all are markers |
| `Bindings.Cursor.Take` | src/query.rs:425-436 | returns the next value decoded at the type asked for, and runs short only past the end |
| `Bindings.Cursor.OperandToValue` | src/query.rs:835-891 | an operand takes a value only if it is a marker, at the column's type |
| `Bindings.Cursor.ParseFilters` | src/query.rs:898-966 | the filters read, the values consumed in order even on failure, and only known columns |
| `Bindings.Cursor.TakeAssignments` | src/query.rs:782-794 | the operand loop's cells, and the values consumed in order even on failure |
| `Reading.WhereExactly` | src/query.rs:898-966 | a WHERE clause is read as exactly one filter per relation in order, on the column it resolves to, an equality for `=` and a list for `IN`, holding the literal's value or the given value at the number of markers before it |
| `Reading.AssignmentsExactly` | src/query.rs:781-891 | assignments are read as exactly one cell each in order, with the column's index and the value the operand stands for |
| `Prepared.PlanMatchesExactly` | src/query.rs:133-250 | execution never asks for more than announced, follows it type by type, and uses it up if and only if all assigned values are markers |
| `Prepared.StatementExactly` | src/query.rs:1491-1507 | the operand loops read exactly what the statement says and succeed exactly when it says something |
| `Prepared.Bind` | src/query.rs:1491-1507 | takes the assignments' values before the WHERE clause's and answers exactly the cells and filters the statement says |
| `Prepared.ExecutePrepared` | src/server.rs:386-435 | a wrong value count is refused; otherwise the cells and filters are exactly those the statement says with the given values, none is ever missing, and a success leaves none unused if and only if all assigned values are markers |
| `Prepared.LiteralShiftsTheKey` | src/query.rs:169-187 | a literal assignment makes the value meant for it the key |
| `Prepared.MixedCaseIsNotPrepared` | src/schema.rs:158-172 | a mixed-case column executes but does not prepare |
| `Typing.BoundStatementsAreProper` | src/query.rs:781-891 | statements read from typed literals and bound values have operands and keys of their columns' types, so the refinement applies to them |
| `Connection.SessionUse` | src/server.rs:239-254 | true exactly when the declared text starts with "use " in any case |
| `Connection.DispatchExactly` | src/server.rs:131-219 | which frames become tasks, which are handled before the next one is read, and which are answered with an error, ending the connection or not |
| `Connection.FatalFramesEndTheConnection` | src/server.rs:148-170 | in every run an unsupported version or an oversized frame is the last one dispatched |
| `Connection.EveryFrameIsAccountedFor` | src/server.rs:131-235 | in every run each frame is answered, in flight or lost (panic or garbled) exactly once, so per stream id; at most 512 tasks; answers reach the writer in order |
| `Connection.AnswersPairUp` | src/server.rs:131-235 | a client that waits before reusing a stream id can pair answers by it |
| `Connection.StepShrinksEffort` | src/server.rs:93-235 | every step but reading decreases what is left to do |
| `Connection.NeverStuck` | src/server.rs:93-235 | permits, bounded channel and reader never deadlock: a step exists while a frame is in flight |
| `Connection.EveryFrameIsAnswered` | src/server.rs:201-235 | without input the run is bounded, and at its end every frame is answered once or lost |
| `Connection.NothingElseIsLost` | src/server.rs:171-235 | without panics and bodies that fail to decompress no frame is lost |
| `Connection.PanicLeavesItsFrameUnanswered` | src/server.rs:217-235 | a panicking task frees its permit and never answers |
| `Connection.ExecuteFindsItsStatement` | src/server.rs:386-403 | a task running an EXECUTE with the id of a PREPARE finds the last statement with that id, its own exactly while fewer than 65536 later ones registered |
| `Schema.Storage.DeletePrefix` | src/storage.rs:690-707 | removes exactly the keys below the prefix unless it ends in 0xFF after a smaller byte |
| `Schema.Storage.PutKeyspaceDef` | src/storage.rs:755-763 | adds the definition to the catalog that engine and caches stand for |
| `Schema.Storage.GetKeyspaceDef` | src/storage.rs:765-787 | answers the catalog's definition whether or not it was cached, and leaves no stale entry |
| `Schema.Storage.DeleteKeyspace` | src/storage.rs:789-807 | removes from the catalog, and so from engine and caches, the keyspace and exactly its tables |
| `Schema.Storage.PutTableDef` | src/storage.rs:809-824 | adds the definition to the catalog that engine and caches stand for |
| `Schema.Storage.GetTableDef` | src/storage.rs:826-849 | answers the catalog's definition whether or not it was cached, and leaves no stale entry |
| `Schema.Storage.DeleteTable` | src/storage.rs:851-861 | removes exactly that definition from the catalog |
| `Schema.TableOfKeyspace` | src/storage.rs:789-793 | a definition key lies below a keyspace's prefix if and only if it is that keyspace's |
| `Schema.CommandRefines` | src/storage.rs:755-861 | every create, lookup and drop answers like a plain catalog and leaves no stale cached definition |
| `Schema.SchemaIsAPlainCatalog` | src/storage.rs:755-861 | so does every sequential run of them |
| `Schema.DropKeyspaceIsExact` | src/storage.rs:789-807 | afterwards neither engine nor caches hold its tables, and all others are unchanged |
| `Schema.BangLeavesAStaleDefinition` | src/storage.rs:809-849 | with `!` in a keyspace name the cache can serve a definition the engine no longer holds |

## Left out

- RocksDB internals, write-ahead log, fsync, crash recovery and failed writes: foreign code;
  an engine is an ordered map with atomic batches.
- Seeding of the system tables, the `system_schema` mirrors and the synchronous row writes they
  use, and the engine-count marker file: no further property.
- `src/server_monoio.rs`: the same request handling on another runtime.
- Delivery of bytes on the socket, flush thresholds, response bodies, compression codecs: the
  model ends where an answer is handed to the writer.
- CQL text parsing, the parsed-statement cache, `parse_literal`, JSON: statements, literals and
  stored definitions are values.
- Lower-casing of identifiers outside ASCII.
- Resuming a scan from a paging state: the code issues none for limits of one or more.
- SELECT column aliases, and the choice of selected columns by name: a query carries indexes.
- Atomicity of UPDATE against concurrent writers: its read and its write are two calls.
- Capacity of the row cache: the code never enforces it.
- A table altered between PREPARE and EXECUTE.
- The per-key fallback for prefixes of only 0xFF bytes in `delete_data_prefix`: no data prefix
  has that form. The same fallback in `delete_prefix` is modelled.
- Health checks, start-up, benchmarks, proxy and container files: input, output and deployment.
- Select.EveryPlanAnswersTheQuery: for filters of any shape the conditions are sufficient; both
  ways they are proved for full-key equality (PlanLimits.PointLookupExactly) and for filters
  on partition columns (PlanLimits.PartitionScanExactly). Listed values of 2^16 bytes or more,
  whose length does not fit a key part, are outside.
- Select.ExecSelect: reads the engine's value where the code asks the row cache first, and takes
  no incoming paging state; that a read through the cache gives the same is part of
  EndToEnd.DatabaseIsAPlainTable.
- Statements.Store: the settled store as one map from address to row bytes; that the engines,
  queues and cache amount to it is EndToEnd.DatabaseIsAPlainTable.
- Projection.ScanForCell: a stored length that is negative and not -1 is a panic; in a build
  without overflow checks the offset wraps around instead (src/query.rs:1373-1381). Stored rows
  hold no such length.
- Connection.NothingElseIsLost: a connection that ends while a frame is being read dispatches
  nothing; such a frame is outside the model.
- Binding and Refinement meet in Typing.BoundStatementsAreProper up to sizes: encoded values of
  2^31 bytes and key parts of 2^16 bytes are excluded.
