# Verified models of an embedded document database

`doc` is an embedded MongoDB-style database. This project models the parts of it whose
correctness does not show in any one function: snapshot isolation over a pruned version
overlay, a compressed column store beside it, query rewriting and joins, and two log
protocols. Each part is stated as Dafny values, functions and classes, and what the code and its
documentation promise is proved for every input and every run. `dafny verify dfyconfig.toml`
checks everything.

## What is modelled

**Transactions** (`Overlay`, `Oracle`, `CollectionModel`, `Collection`, `UniqueApply`, `Mvcc`,
`MvccInv`, `MvccRuns`, `MvccWrites`). A collection keeps newest-first version chains in memory and only the
latest versions on the heap. `Mvcc` is a step machine over any number of collections and
transactions: begin, buffered writes, the two halves of a commit (durable apply, then publishing
collection by collection), garbage collection with a watermark read any time earlier, scans that
read one key at a time, and a restart at any moment, even half way through publishing. `MvccInv`
shows each step keeps the invariant, `MvccRuns` says what that means for runs, and `MvccWrites` what a
transaction reads and a commit installs, in terms of the steps taken and the history alone. The heap is a map
from live record ids to records, a B-tree a set of entries, `_id` and index-key extraction are
parameters.

**Column store** (`Bits`, `Float64`, `ColumnCodec`, `ColumnLoops`, `ColumnValue`, `ZoneMap`,
`ColumnLog`, `ColumnRuns`, `ColumnStore`, `GroupKey`, `VectorGroup`, `GroupExec`, `GroupMeaning`). Six bit-level
encodings with explicit int64 wrap-around, segments with tombstones on one line of row ids, zone
maps, and the vectorised `$group`, each proved against a simple reference: the list of values, the
version history, the unpruned scan, the pipeline over rebuilt documents. `GroupMeaning` says what the
accumulators answer for a list of values.

**Values, joins and pipelines** (`Bson`, `BsonOrder`, `BsonCodec`, `BsonGrammar`, `KeyShape`,
`GraphLookup`, `HashJoin`, `JoinMeaning`, `Sorting`, `Pipeline`, `PipelineMeaning`,
`ReshapeMerging`). The BSON order over nested values and what it is position by position, the wire
form and exactly which bytes the reader takes, grouping keys, breadth-first graph lookup, the hash
join, the stable sort, the bounded top-K heap, the stages one by one and the pipeline optimiser.

**Logs** (`ChangeFeed`, `ResumeToken`, `Archive`, `Restore`, `RestoreTarget`,
`RestoreRuns`). The change feed's ring, streams, resume tokens and wake signal as a step machine; WAL
archiving with failing and retried writes as another; redo over a base copy up to a version or a
time. The version a commit belongs to is the one announced in the run, whether or not the archiver
still held the commit then.

Doubles are their 64 bits; what they denote is decoded exactly (`Float64`), and int64-to-double
conversion rounds half to even. Double addition and division in sums and averages are parameters,
so `$group` results are equal bit for bit whatever they do. Integers are unbounded except where
the code's width matters, and there the wrap is written out. Clocks, hashes, the matcher, field
projection and the sink's answers are parameters or free choices of a step.

## Where code and promise part ways

Each of these has a lemma at a failing input and one with the condition under which the code keeps
its promise; the conditions are exact unless noted.

- Two documents exchanging values of a unique index pass `checkUniqueSecondary`, yet the apply is
  refused half way: the earlier operation's insert meets the later one's entry
  (`UniqueApply.SwapRefused`; `UniqueApply.AppliesIff` gives the exact condition, and
  `MvccRuns.CommitApplies` carries it to every reachable state).
- A NaN in a numeric segment makes zone-map pruning drop rows that match
  (`ZoneMap.PruningSoundIff`, `ZoneMap.LostRow`).
- The column store's identity key maps int64, date and timestamp `_id`s of one value to the same
  key; deleting one document then retires another's row (`ColumnValue.IdentityKeysCollide`,
  `ColumnLog.AlwaysShowsIff`).
- A whole-collection `$group` over no rows yields one group from the vectorised executor and none
  from the pipeline (`VectorGroup.ExecutorMatchesPipeline`). A spec that reads no column is handed no
  rows, so `{$count: {}}` gives 0 for any collection (`GroupExec.CountOfNothing`);
  `GroupExec.GroupsOfSnapshot` says exactly for which specs and snapshots the answers agree.
- The hash join misses an int64 and a double that are equal beyond 9.2e18, and NaNs of different
  bits (`HashJoin.KeyIffEqual`, `HashJoin.JoinIsNestedLoop`, `HashJoin.FarIntegerMissed`).
- Grouping keys of documents and arrays are not escaped, so `{a: "x,b=Sy"}` and `{a: "x", b: "y"}` fall
  into one group (`KeyShape.UnescapedCollide`). Where no leaf's key has a comma, and no name has an
  equals sign or starts with a closing brace, nested values share a key exactly when they are equal and
  no pair of leaves is exceptional (`KeyShape.NestedKeyIffEqual`); this condition is sufficient.
- `$sort` fused with `{$limit: 0}` returns every document (`Pipeline.ZeroLimitFusion`).
- Merging two `$addFields` stages is not checked for the second reading what the first writes
  (`Pipeline.DependentMergeDiffers`). Whatever the expressions compute, merging is right exactly when
  it does not, for paths of which none leads through another (`ReshapeMerging.ReshapesMergeIff`).
- Dropping the earlier of two `$sort` stages forgets its order among documents the later one ties,
  and its compile error; before a `$limit` another document is returned
  (`Pipeline.DroppedSortExample`). It is right exactly when the later sort fails anyway or ties nothing
  the earlier tells apart (`Pipeline.SortDropsIff`).
- A stream at the last 64-bit position fails on any event, because the addition wraps
  (`ChangeFeed.PollFailsIff`).
- A failed archive write has already advanced the last known version. The retry stamps leading
  commits that carry no version with it, and a restore to an earlier version stops before them and
  loses what follows (`RestoreRuns.RetryLosesCommit`); `RestoreTarget.RestoreReplaysIff` gives the
  exact condition over runs.
- A version announced while the commit's segment is being written, or after it was, is not stamped,
  so a restore below that version replays the commit (`RestoreRuns.LateAnnotationSlips`);
  `RestoreTarget.RestoreOnlyIff` gives the exact condition over runs.

## Model

| member | source | states |
|---|---|---|
| Overlay.VisibleAt | collection/collection.go:78-85 | the scan of a chain returns the document of its newest version at or below the snapshot |
| Overlay.PruneBelow | collection/ops.go:594-605 | the cut keeps every version above the watermark and the newest one at or below it |
| Overlay.PruneKeepsReads | collection/ops.go:570-605 | a cut at a watermark is invisible to every snapshot at or above it and keeps the newest version |
| Overlay.PushKeepsReads | collection/ops.go:490-518 | a newer version on a chain is invisible to every older snapshot |
| VersionOracle.Intersects | mvcc/oracle.go:216-229 | the merge walk over two sorted write sets finds a common hash exactly when there is one |
| VersionOracle.OracleState.Acquire | mvcc/oracle.go:72-82 | a snapshot at the current version is counted live and the watermark stays the oldest live snapshot |
| VersionOracle.OracleState.Release | mvcc/oracle.go:135-182 | a snapshot is given back, the watermark recomputed, and only index entries no live snapshot needs are dropped |
| VersionOracle.OracleState.HasConflict | mvcc/oracle.go:93-107 | a commit is refused exactly when some write set committed after its snapshot meets its own |
| VersionOracle.OracleState.FinishCommit | mvcc/oracle.go:109-131 | the commit version advances by one and the write set is indexed under it |
| CollectionModel.OpMirrors | collection/ops.go:435-485 | one applied operation moves heap, `_id` index and secondary indexes from the old live heads to the new ones, keeping unique keys unique |
| CollectionModel.CommitMirrors | collection/ops.go:435-485 | a whole commit that applies leaves heap, indexes and RID ownership exactly the new live heads, even when a RID freed in it is reused |
| CollectionModel.PublishEffect | collection/ops.go:490-518 | publishing gives the overlay exactly the heads and RID owners the durable apply produced |
| CollectionModel.PublishChains | collection/ops.go:490-518 | publishing pushes one version per effective operation and touches no other chain |
| CollectionModel.CollectEffect | collection/ops.go:574-588 | garbage collection moves no head, reorders nothing and leaves `dirty` marking every chain longer than one |
| CollectionObjects.Collection.DeleteSecondary | collection/indexes.go:254-273 | exactly the document's entries leave the secondary indexes |
| CollectionObjects.Collection.InsertSecondary | collection/indexes.go:228-252 | all of the document's entries are added, or the call is refused exactly when a unique tree holds another record under one of its keys; a refused call leaves at most some of them behind |
| CollectionObjects.Collection.CheckUniqueSecondary | collection/indexes.go:281-329 | accepts exactly when no unique key is inserted twice and every entry under an inserted key belongs to a record the commit removes |
| CollectionObjects.Collection.Apply | collection/ops.go:435-485 | the durable state after the loop is the fold of the buffered operations, and the call fails exactly when the fold does |
| CollectionObjects.Collection.Publish | collection/ops.go:490-518 | chains, order, dirty marks and RID owners after the loop are those of the publish specification |
| CollectionObjects.Collection.Gc | collection/ops.go:574-588 | every dirty chain is cut at the watermark and the rest untouched |
| CollectionObjects.Collection.Rebuild | collection/collection.go:316-345 | the overlay holds one version for each heap record, and the largest version is returned |
| CollectionObjects.Transaction.CurrentDoc | collection/ops.go:285-295 | a read is the transaction's own write, else its snapshot; MvccWrites.ReadsOwnWrites says which document that is |
| CollectionObjects.Transaction.CommittedVersion | collection/ops.go:300-315 | the record a write supersedes is the live version at the snapshot |
| CollectionObjects.Transaction.BufferReplace | collection/update.go:389-399 | one net operation per key, superseding the snapshot's version |
| CollectionObjects.Transaction.BufferDelete | collection/update.go:401-409 | a delete keeps the superseded record and drops the buffered document; MvccWrites.CommitInstalls says what the commit then does |
| CollectionObjects.Transaction.InsertBuffered | collection/upsert.go:20-39 | an insert is refused exactly when the transaction already sees a document under the key |
| CollectionObjects.Transaction.ConflictKeys | collection/ops.go:399-413 | the sorted write set holds exactly the hashes of the keys with an effective write |
| CollectionObjects.Transaction.ScanKeys | collection/ops.go:355-370 | natural order followed by the transaction's own new keys, without repeats |
| UniqueApply.AppliesIff | collection/indexes.go:228-329 | a fitting commit whose pre-check passed applies exactly when no operation takes a unique key before the operation giving it up |
| UniqueApply.SwapRefused | collection/indexes.go:281-329 | two documents exchanging unique values pass the pre-check and are refused by the apply |
| MvccInv.GcInv | collection/ops.go:570-605 | cutting with a watermark read before any number of later commits keeps the whole invariant |
| MvccInv.ApplyInv | collection/multitxn.go:92-140 | the durable apply of every participant of a winning commit keeps the whole invariant |
| MvccInv.PublishInv | collection/ops.go:487-518 | publishing one participant keeps the whole invariant |
| MvccRuns.SnapshotReads | collection/ops.go:285-295 | in every run, a live transaction reads its own writes over the complete unpruned history at its start version |
| MvccRuns.RepeatableRead | collection/ops.go:285-315 | a key a transaction has not written reads the same at any two moments of its life |
| MvccRuns.ScanExact | collection/ops.go:355-370 | a key-by-key scan, however interleaved, also with the transaction's own writes to documents already read, returns each document its transaction saw at the opening exactly once and no other |
| MvccRuns.FirstCommitterWins | collection/ops.go:399-413 | two commits whose snapshot-to-commit intervals overlap wrote disjoint documents, whatever the hash |
| MvccRuns.AllOrNothing | collection/multitxn.go:79-140 | a snapshot reflects all of a commit's writes in every collection or none of them |
| MvccRuns.InFlightInvisible | collection/ops.go:487-489 | no snapshot reads a version of a commit still publishing |
| MvccRuns.DurableExact | collection/ops.go:435-518 | with no commit in flight, heap records, `_id` entries, RID owners and every secondary index are exactly the live heads |
| MvccRuns.UniqueHolds | collection/indexes.go:281-329 | in every run no two live documents share a key of a unique index |
| MvccRuns.LatestView | collection/plansource.go:104-106 | under the planner's guard a transaction sees exactly the live heads |
| MvccRuns.IndexFetchExact | collection/plansource.go:61-106 | resolving every entry of an index through RID ownership gives exactly the scanned documents that have index keys |
| MvccRuns.RebuildRecovers | collection/collection.go:316-345 | rebuilding from a mirroring heap recovers the live heads |
| MvccRuns.RestartRecovers | collection/collection.go:316-345 | a restart at any moment, also between apply and publish, recovers exactly the committed documents |
| MvccRuns.CommitApplies | collection/ops.go:211-245 | in any reachable quiet state a conflict-free, pre-checked commit applies exactly when it takes no unique key too early |
| MvccWrites.ReadsOwnWrites | collection/ops.go:285-295 | in every run a read gives the outcome of the transaction's last write step to the key since it began: the document put or inserted, nothing after a delete; without one, the document of the newest version of the history at or below the snapshot |
| MvccWrites.ScanReturns | collection/ops.go:355-370 | a completed scan has returned exactly the documents its transaction was to see at the opening by steps and history, each once |
| MvccWrites.CommitInstalls | collection/ops.go:490-518 | every logged commit has put at its version, under every key, exactly the outcome of its transaction's last write step: the document, a tombstone, or no version where nothing was written or what was deleted was not there |
| MvccWrites.RecordsTell | collection/changefeed.go:48-84 | a written document's change record has the last write's document, the snapshot's document, and the kind these two and the last put decide |
| MvccWrites.GcReclaims | collection/ops.go:574-605 | after a collection no chain keeps a version superseded at or below its watermark |
| MvccWrites.OrderGrows | collection/ops.go:490-518 | keys keep their place in natural order and new ones come after |
| MvccWrites.RefusedOnlyOnConflict | mvcc/oracle.go:93-107 | a commit is refused only when a commit finished after its snapshot shares a hash with it |
| Bits.PackRoundTrip | colstore/encoding.go:528-567 | values that fit the width, from 0 bits up, come back out of the packed bytes |
| Bits.UvarintRoundTrip | colstore/encoding.go:162-225 | a variable-length integer is read back with its length whatever follows it |
| Bits.ZigzagRoundTrip | colstore/encoding.go:569-570 | unzigzag undoes zigzag on every int64 |
| Bits.ZigzagIs | colstore/encoding.go:569-570 | non-negative numbers become the even ones and negative numbers the odd ones, although the shift wraps |
| ColumnCodec.StrictKeyInjective | colstore/value.go:174-197 | values with equal strict keys are the same value |
| ColumnCodec.ValueRoundTrip | colstore/encoding.go:162-225 | a stored value is read back with its length whatever follows it |
| ColumnCodec.RLERoundTrip | colstore/encoding.go:252-303 | run-length decoding undoes encoding |
| ColumnCodec.DictRoundTrip | colstore/encoding.go:307-369 | dictionary decoding undoes encoding |
| ColumnCodec.BitpackRoundTrip | colstore/encoding.go:389-415 | bit-packing decoding undoes encoding on integers and bools |
| ColumnCodec.FORRoundTrip | colstore/encoding.go:419-462 | frame-of-reference decoding undoes encoding, offsets wrapping in int64 |
| ColumnCodec.DeltaRoundTrip | colstore/encoding.go:466-514 | delta decoding undoes encoding, differences and sums wrapping in int64 |
| ColumnCodec.StreamRoundTrip | colstore/encoding.go:110-158 | whichever encoding is smallest, the stream decodes to the values |
| ColumnCodec.ChoosesShortest | colstore/encoding.go:110-131 | what is written is one of the encodings the values admit and no longer than any of them |
| ColumnCodec.ColumnRoundTrip | colstore/encoding.go:37-87 | decoding a column with nulls returns exactly the values encoded |
| ColumnLoops.PackBitsLoop | colstore/encoding.go:528-543 | setting bits one by one in a zeroed buffer produces the packed bytes |
| ColumnLoops.UnpackBitsLoop | colstore/encoding.go:547-566 | reading bits one by one produces the unpacked values, or nothing when the data is short |
| ColumnLoops.BitWidthLoop | colstore/encoding.go:518-525 | the loop computes the least width that holds the maximum |
| ColumnLoops.NullBitmap | colstore/encoding.go:90-99 | the bitmap has exactly the null positions set |
| ColumnLoops.EncodePlainLoop | colstore/encoding.go:229-235 | the loop writes the plain encoding |
| ColumnLoops.EncodeRLELoop | colstore/encoding.go:252-275 | counting runs then writing them produces the run-length encoding |
| ColumnLoops.BuildDict | colstore/encoding.go:307-333 | the map-driven loop builds the dictionary in first-seen order and each value's code |
| ColumnLoops.OffsetLoop | colstore/encoding.go:419-439 | minimum, wrapped offsets and their maximum |
| ColumnLoops.DeltaLoop | colstore/encoding.go:466-484 | zigzagged wrapped differences and their maximum |
| ColumnLoops.DecodePlainLoop | colstore/encoding.go:237-248 | the loop decodes plain values or fails where the format function does |
| ColumnLoops.DeltaSums | colstore/encoding.go:486-514 | running wrapped sums of the differences |
| ColumnLoops.ScatterLoop | colstore/encoding.go:53-87 | non-null values are placed around the nulls |
| ColumnValue.ProjectionReturns | colstore/value.go:70-96 | projecting a value and materialising it returns it, up to integer width and the merged integer-like and null-like types |
| ColumnValue.ProjectionStable | colstore/value.go:199-219 | projecting a materialised column value gives the column value back |
| ColumnValue.IdentityKeysCollide | colstore/store.go:79-86 | two identities share a store key exactly when they are equal, integer-like of one int64 value, or both null-like |
| ZoneMap.ComputeZone | colstore/segment.go:58-80 | the loop computes the zone of the non-null values, or none when one is opaque |
| ZoneMap.SkipIsPure | colstore/segment.go:100-123 | in a trusted segment a skipped predicate matches no value |
| ZoneMap.PruningSoundIff | colstore/segment.go:58-123 | pruning is sound for every predicate exactly on segments that keep no zone, are led by a string, have no NaN, have only NaN for numbers, or hold both infinities |
| ZoneMap.NaNFreeSound | colstore/segment.go:58-123 | without NaN pruning is sound for every predicate, whatever kinds the segment mixes |
| ZoneMap.LostRow | colstore/aggregate.go:19-38 | an untrusted segment has a predicate that skips it and a row in it that matches |
| ZoneMap.NumbersMatch | colstore/aggregate.go:19-38 | between numbers that are not NaN, equality holds when their doubles are the same number and the order operators go by the real line |
| ZoneMap.NaNMatches | colstore/value.go:135-160 | a NaN on either side matches equality and the two inclusive operators only |
| ZoneMap.StringsMatch | colstore/value.go:135-160 | between strings equality is that of bytes and the order goes by the first differing byte, a proper prefix first |
| ZoneMap.FamiliesMatch | colstore/value.go:135-160 | a value matches only bounds of its own family |
| ColumnLog.ChangeRecordsLoop | collection/changefeed.go:48-84 | the loop lists one record per effective buffered operation in first-write order |
| ColumnLog.KindsMean | collection/changefeed.go:48-84 | a record has the new document and the superseded one, and its kind tells which of them there are |
| ColumnLog.RecordsApply | collection/columnstore.go:81-95 | applying a commit's change records is applying its operations |
| ColumnLog.OpTracks | colstore/store.go:96-168 | one operation keeps rows and history in step: live rows are the live documents, and no earlier snapshot sees a change |
| ColumnLog.StoreRefines | colstore/store.go:96-232 | built from the live documents and maintained from any legal commits, the rows visible at any snapshot from the build on are exactly one per document shown there |
| ColumnLog.AlwaysShowsIff | colstore/store.go:79-86 | the store follows every history of a set of documents exactly when their identity keys tell them apart |
| ColumnRuns.ColumnAnswers | collection/columnstore.go:26-95 | a column store attached at any quiet moment of any run of the transaction machine answers every snapshot exactly |
| ColumnStore.LocateBound | colstore/store.go:172-180 | the binary search finds the flushed block holding a row id, or -1 when none does |
| ColumnStore.Store.FlushLocked | colstore/store.go:190-207 | sealing the buffer into segments changes no row |
| ColumnStore.Store.InsertLocked | colstore/store.go:96-112 | one row is appended and, with a key, made the live one; a full buffer is flushed |
| ColumnStore.Store.TombstoneLocked | colstore/store.go:143-168 | the row is stamped deleted in the buffer or in every field's segment, unless already stamped |
| ColumnStore.Store.Update | colstore/store.go:116-124 | the old live row is retired and the new document appended |
| ColumnStore.Store.Delete | colstore/store.go:127-137 | the live row is retired and forgotten |
| ColumnStore.Store.Rebuild | colstore/store.go:212-232 | all state is replaced by one row per given document |
| ColumnStore.Store.MaintainColumn | collection/columnstore.go:81-95 | a commit's change records are applied in order |
| ColumnStore.Store.Scan | colstore/aggregate.go:63-125 | the visible, matching rows in order, projected, wherever they are stored; in general those of every block its zone map does not rule out, and nothing for an empty field list; ZoneMap.NumbersMatch and StringsMatch say what matches |
| ColumnStore.ScanAnswers | colstore/aggregate.go:63-125 | when the rows show the history, a scan selects from a list of the documents the snapshot shows, each once |
| VectorGroup.CheapAgrees | colstore/group.go:313-356 | where the cheap comparison answers, it agrees with the BSON order |
| VectorGroup.KeyAgrees | colstore/group.go:363-399 | a scalar column key is the pipeline's key of the rebuilt value |
| VectorGroup.ExecutorMatchesPipeline | colstore/group.go:117-294 | executor and pipeline emit the same documents in the same order with the same widths, exactly when there is a key or a row |
| VectorGroup.GroupsMean | agg/group.go:89-130 | one group per distinct key in first-seen order, accumulating exactly its own documents in input order |
| GroupMeaning.AccumulatorAnswers | agg/group.go:287-503 | over any list of values: the first least or greatest present, null without one; the wrapped integer sum, or the doubles' sum, in the width needed; the sum over the number of numbers; the number of documents |
| GroupMeaning.GroupsAnswer | agg/group.go:89-130 | each output document has its bucket's key as `_id` and, under each name, the answer for the bucket's values in input order |
| GroupMeaning.BucketHolds | agg/group.go:89-130 | a bucket holds exactly the documents with its key, in input order |
| GroupMeaning.KeysByFirst | agg/group.go:89-130 | the groups' keys are the documents' keys, each once, in the order of their first documents |
| GroupMeaning.IdReads | agg/group.go:89-130 | a group's `_id` is the first value under the key field, null without one |
| VectorGroup.Load | agg/group.go:89-130 | the hash aggregation loop computes the pipeline's groups, whose answers GroupMeaning.GroupsAnswer gives |
| VectorGroup.FoldRows | colstore/group.go:117-178 | the executor's loops compute its groups, with and without a key; ExecutorMatchesPipeline and GroupMeaning.GroupsAnswer say what is in them |
| GroupExec.Exec | colstore/group.go:117-178 | refuses exactly when a needed column is missing, else folds the scanned rows |
| GroupExec.GroupsOfSnapshot | colstore/group.go:117-399 | over the documents a snapshot shows, each once, the executor agrees with the pipeline exactly when there is a key, or a document is shown and either a column is read or every accumulator is a sum of int32 constants that wraps to zero |
| GroupExec.CountOfNothing | collection/columngroup.go:26-49 | a whole-collection count comes out as 0 for any number of documents, where the pipeline gives their number |
| GroupExec.ZeroConstant | colstore/group.go:117-399 | below 2^33 documents only the constant 0 wraps to zero |
| Bson.NumbersExact | bson/compare.go:119-166 | int32, int64, double and Decimal128 (as zero) compare by exact value, beyond 2^53 as below it |
| Bson.CompareIsTotalPreorder | bson/compare.go:18-216 | the order is reflexive, antisymmetric in sign, transitive, and equal values are interchangeable, over all nested values; BsonOrder says which order it is |
| BsonOrder.TypeOrder | bson/compare.go:82-110 | values of different types go by an explicit chain of types |
| BsonOrder.NumberOrder | bson/compare.go:119-166 | numbers of any types go by what they stand for, NaN above all others |
| BsonOrder.TextOrder | bson/compare.go:18-57 | texts go by the first differing byte, a proper prefix first |
| BsonOrder.ScalarOrder | bson/compare.go:18-57 | object ids go by their bytes, false before true, dates and timestamps by their number |
| BsonOrder.BinaryOrder | bson/compare.go:220-232 | binaries go by length, then subtype, then bytes |
| BsonOrder.RegexOrder | bson/compare.go:234-241 | regular expressions go by pattern, then options |
| BsonOrder.DocumentOrder | bson/compare.go:190-205 | documents go by the first field they differ in, its name before its value, a proper prefix first; they tie exactly when they tie in every field |
| BsonOrder.ArrayOrder | bson/compare.go:207-218 | arrays go by the first item they differ in, a proper prefix first; they tie exactly when they tie in every item |
| BsonCodec.ElementsLoop | bson/reader.go:41-75 | the walk returns all elements, or the error of the first fault |
| BsonCodec.LookupLoop | bson/reader.go:79-106 | the walk returns the first element with the key |
| BsonCodec.Builder.AppendValue | bson/builder.go:28-40 | the element is appended to what the body encodes |
| BsonCodec.Builder.Build | bson/builder.go:155-162 | the finished document frames exactly the appended elements |
| BsonCodec.ScanStable | bson/reader.go:110-182 | what follows a payload never changes where it ends |
| BsonCodec.BuildReadsBack | bson/reader.go:41-106 | reading a built document returns its elements, and a lookup its first element with that key |
| BsonCodec.TreeReadsBack | bson/builder.go:42-162 | every encodable value, nested to any depth, is read back from its stored form |
| BsonCodec.RawOfInjective | bson/builder.go:42-162 | distinct encodable values have distinct stored forms |
| BsonCodec.KnownDocument | bson/builder.go:28-162 | the specification's example document has the bytes given there |
| BsonGrammar.PayloadIff | bson/reader.go:110-182 | a payload is taken exactly when its type's production makes it |
| BsonGrammar.AcceptsExactlyBuilt | bson/reader.go:41-75 | the reader takes a document and gives its elements exactly when it is those elements framed, below 4 GiB, with names free of NUL and payloads the grammar makes |
| GraphLookup.Expand | agg/lookup.go:530-553 | one round visits exactly the admitted, unvisited documents the frontier reaches |
| GraphLookup.Traverse | agg/lookup.go:523-556 | the search terminates, emits no identity twice, nearer documents first, each at the length of a real path; with distinct identities it emits exactly the documents within the depth limit at their shortest distance |
| GraphLookup.DistanceIs | agg/lookup.go:520-556 | being first reached in a round is having that shortest path length |
| HashJoin.KeyIffEqual | agg/group.go:145-201 | two scalars share a group key exactly when they are equal and not one of the exceptional pairs |
| KeyShape.NestedKeyIffEqual | agg/group.go:145-201 | nested values without delimiters in names and leaves share a grouping key exactly when they are equal and no pair of leaves is exceptional |
| KeyShape.UnescapedCollide | agg/group.go:160-177 | two different documents whose strings hold delimiters share a grouping key |
| HashJoin.BuildForeignIndex | agg/lookup.go:201-217 | each key's postings are exactly the documents carrying it, ascending, without repeats |
| HashJoin.EqualityMatches | agg/lookup.go:223-241 | the probe returns the documents sharing a key with the local value in foreign order |
| HashJoin.JoinIsNestedLoop | agg/lookup.go:271-293 | hash join and nested loop agree exactly when every overlap has a pair that is not exceptional, and the hash join never returns more |
| HashJoin.FarIntegerMissed | agg/group.go:187-201 | an int64 and a double of value 2^63-1024 are equal, yet the hash join misses them |
| JoinMeaning.NestedLoopLists | agg/lookup.go:271-293 | the nested loop lists, in foreign order and once each, exactly the documents one of whose values equals one of the local ones, missing counting as null |
| JoinMeaning.PathMeans | agg/lookup.go:523-556 | a path goes over admitted documents only, the first meeting the seeds and each next meeting the one before |
| JoinMeaning.EmittedAreAdmitted | agg/lookup.go:530-553 | whatever the search emits passed the restriction |
| Float64.BitsDetermined | agg/group.go:187-201 | a double other than zero and NaN has one bit pattern |
| Float64.FloatOfIntIsNearest | bson/compare.go:152-166 | an integer becomes a double by rounding to 53 significant bits, ties to even |
| Float64.FieldsMean | bson/compare.go:119-166 | sign, exponent and fraction fields stand for the number the format gives them |
| Sorting.StableSortSorts | agg/sort.go:124-138 | the sort gives an ordered permutation of its input |
| Sorting.StableSortIsStable | agg/sort.go:124-138 | documents that tie keep their input order |
| Sorting.SortedUnique | agg/sort.go:124-138 | two sorted arrangements of the same documents have equal keys at every position |
| Sorting.TopKHeap.Up | agg/sort.go:171-192 | sifting up restores the heap and permutes it |
| Sorting.TopKHeap.Down | agg/sort.go:171-192 | sifting down restores the heap among the first elements, permutes it and leaves the rest |
| Sorting.LoadTopK | agg/sort.go:141-167 | the output is sorted, of size min(K, n), a sub-multiset of the input, and nothing dropped sorts before anything kept |
| Sorting.TopKIsSortPrefix | agg/sort.go:141-167 | a sorted top-K selection has the keys of the first K of the full sort |
| Pipeline.DocOrderIsPreorder | agg/sort.go:63-74 | every sort specification orders documents by a total preorder |
| PipelineMeaning.FirstKeyDecides | agg/sort.go:63-74 | documents go by the first key that tells them apart, reversed for a descending one |
| PipelineMeaning.SortArranges | agg/sort.go:124-138 | the stage gives a permutation in which no document comes before one that sorts first |
| PipelineMeaning.MatchKeeps | agg/stage.go:286-301 | the stage keeps exactly the documents that satisfy every entry, in their order |
| PipelineMeaning.ReshapeEach | agg/stage.go:353-363 | the stage gives one document for each, all expressions reading the one that came in |
| PipelineMeaning.ReshapeSets | agg/stage.go:702-741 | each field ends up at its path and what no path meets stays |
| PipelineMeaning.LimitKeeps | agg/stage.go:465-494 | the stage gives the first documents, all when there are fewer, and a negative limit is an error |
| Pipeline.DocWithKeepsOthers | agg/stage.go:702-741 | setting a path leaves every other root alone |
| Pipeline.MatchReadsRoots | agg/optimize.go:169-217 | an analysable match depends only on the roots found |
| Pipeline.LimitsMerge | agg/optimize.go:61-78 | two limits are the smaller one, errors included |
| Pipeline.MatchMoves | agg/optimize.go:128-148 | a match on untouched roots moves before a reshape without changing any result |
| Pipeline.ReshapesMerge | agg/optimize.go:93-110 | merging two reshapes is exact when the second reads no root the first writes |
| ReshapeMerging.ReshapesMergeIff | agg/optimize.go:93-110 | merging keeps the meaning for all expressions over the given roots exactly when the second stage reads no root the first writes |
| Pipeline.DependentMergeDiffers | agg/optimize.go:93-110 | otherwise the merged stage can give another document |
| Pipeline.SortDrops | agg/optimize.go:82-89 | dropping the earlier of two sorts keeps the documents and every position's key of the later sort |
| Pipeline.SortDropsIff | agg/optimize.go:82-89 | dropping the earlier of two sorts keeps every result exactly when the later does not compile, or the earlier does and tells apart nothing the later ties |
| Pipeline.CoveredSortDrops | agg/optimize.go:82-89 | it does when the later sort goes by every value the earlier goes by, in either direction |
| Pipeline.DroppedSortExample | agg/optimize.go:82-89 | two sorts by different fields before a limit return another document once optimised |
| Pipeline.RewriteShrinks | agg/optimize.go:23-39 | every rewrite shortens the pipeline or, at equal length, removes a reshape-before-match pair |
| Pipeline.OptimizeRaw | agg/optimize.go:12-20 | the loop terminates in the fixpoint |
| Pipeline.OptimizeIsNormal | agg/optimize.go:12-39 | at the fixpoint no rule applies |
| Pipeline.OptimizeSame | agg/optimize.go:12-39 | under all four rules, a pipeline whose reshapes are separable and whose dropped sorts do not show gives every input the same result after optimisation |
| Pipeline.SortLoad | agg/sort.go:124-167 | the sort stage with a fused limit sorts, selecting the top K for K at least 1 and everything for 0 |
| Pipeline.FusionKeepsKeys | agg/optimize.go:248-262 | for K at least 1 the fused stage has the keys of sort-then-limit at every position |
| Pipeline.ZeroLimitFusion | agg/optimize.go:248-262 | a fused limit of zero is right exactly on empty input |
| ChangeFeed.Feed.Publish | changefeed.go:60-83 | events are numbered on, the ring keeps the newest, every wake slot is filled |
| ChangeFeed.Feed.Since | changefeed.go:107-122 | returns the events after a position, or reports a miss |
| ChangeFeed.MissedIffEvicted | changefeed.go:107-122 | a miss is reported exactly when an unread event is no longer in the ring |
| ChangeFeed.EventsCarryRecords | changefeed.go:60-83 | every record published in a run stays in the feed at its number with its database, collection, commit, drop mark and body |
| ChangeFeed.Scan | changestream.go:190-213 | the loop stops at the first accepted event and moves the position over what it passed |
| ChangeFeed.DeliversExactlyOnce | changestream.go:141-213 | in every interleaving a stream has delivered precisely the accepted events from its start to its position, in order |
| ChangeFeed.NoLostWakeup | changestream.go:141-168 | a stream asleep with an empty wake slot has delivered every accepted event there is |
| ChangeFeed.EndsExactlyAtDrop | changestream.go:206-221 | a stream is ended exactly by delivering a drop of its collection, and delivers nothing after it |
| ChangeFeed.PollFailsIff | changestream.go:190-196 | reading the ring fails exactly when an unread event is no longer in it, but at the last 64-bit position on any event |
| ChangeFeed.ResumeContinues | changestream.go:105-136 | in every run, what a stream delivered up to an event and what a stream opened with that event's token has delivered are together the accepted events from the first start to the second's position, without gap or repeat |
| ChangeFeed.OpensNow | changestream.go:105-136 | a stream opened without a token delivers the accepted events published after it opened and no earlier one |
| ResumeToken.Base64RoundTrip | changestream.go:444-463 | base64url without padding is undone for bytes of any length |
| ResumeToken.TokenRoundTrip | changestream.go:444-463 | a token decodes to the position it was made from |
| ResumeToken.KnownTexts | changestream.go:444-451 | the standard's unpadded test vectors have the texts given there |
| Archive.NamesOrder | archive.go:199-201 | segment names sort by base version, end version and number |
| Archive.BuildSegment | archive.go:235-262 | each commit is stamped with its version and time or the last known ones, and the segment ends with the last |
| Archive.StampsMean | archive.go:235-262 | a stamped commit has the pages captured, and the version and time of the last commit up to it that knows its own, else those from before the batch |
| RestoreTarget.RestoreReplaysIff | archive.go:186-262 | over every run, a restore to any version replays every flushed commit that belongs at or below it, by the versions announced, exactly when no stored segment was the retry of a failed write, starting with a commit without version, after the last known version had moved beyond it |
| RestoreTarget.RestoreOnlyIff | archive.go:157-262 | over every run, a restore to any version replays only commits that belong at or below it exactly when no version above every stamp up to its commit was announced after the build of the segment stored |
| RestoreTarget.RestoreStopsIff | restore.go:115-170 | every restore stops exactly behind the commits that belong at or below its target if and only if both hold |
| RestoreRuns.RetryLosesCommit | archive.go:186-262 | a run whose failed and retried write makes a restore to version 7 lose the commit of version 5 |
| RestoreTarget.RestoreToVersion | restore.go:115-170 | then a restore to a version over any earlier base gives the image after the last commit that belongs at or below it |
| RestoreRuns.LateAnnotationSlips | archive.go:157-212 | two runs, the version announced during the write or after it, in which a restore to version 3 replays a commit of version 5 |
| RestoreTarget.RestoreToTime | restore.go:115-170 | with known commit times, a restore to a time replays the commits up to the first made after it |
| Archive.EndMonotone | archive.go:235-262 | a build never lowers the last known version, also after a failed attempt |
| Archive.Archiver.ObserveCommit | archive.go:129-153 | a commit is captured at the end of pending and its bytes counted |
| Archive.Archiver.ObserveVersion | archive.go:157-166 | the pending commit with the LSN, if any, takes the version, and the time if it had none |
| Archive.CaptureStays | archive.go:129-153 | in every run a captured commit keeps its place, LSN, size, pages and known time |
| Archive.AnnotationStays | archive.go:157-166 | in every run an announcement gives one pending commit of its LSN the version, and the time if it had none, which stays, and touches no other |
| Archive.BytesCounted | archive.go:129-153 | what is counted for a commit is the size of all its pages together |
| Archive.Archiver.BeginFlush | archive.go:186-202 | a batch is taken, stamped and named |
| Archive.Archiver.EndFlush | archive.go:204-229 | a written batch leaves pending with its bytes; a failed one stays |
| Archive.ArchiveIsComplete | archive.go:186-324 | in every run, sorting the sink by name gives every flushed commit's pages once in capture order, and the byte count is that of the pending commits |
| Restore.ApplyCommits | restore.go:115-170 | commits are written in order up to the first past the target, their page images counted, then the file is cut to the last one's size |
| Restore.ReplayGivesImage | restore.go:108-170 | replaying a log prefix over a base taken at any earlier point gives the image after it |
| Restore.ArchiveThenRestore | restore.go:84-94 | any run of the archiver, read back and replayed over an earlier base, gives the image the database had after the last commit replayed |

## Left out

- Serializable isolation and its read tracking; only snapshot isolation is modelled.
- Failures inside the durable apply after pages changed: a run takes a commit only when every participant applies.
- Slotted pages, the pager and WAL frame format, B-tree nodes and the catalog: the heap is a map, a tree a set of entries, a file a map of pages.
- Index creation on existing documents, the planner's cost choice, and expression, update and query operators: easy members or library calls.
- Column maintenance is taken as one step with publishing the collection; lazy mode is only its rebuild.
- Column `$match` pushdown against the pipeline's own match: scans are related to the pushdown predicate alone.
- Segment serialisation and `SumField`/`GroupBy`: easier round trips and folds than those given.
- Field paths with dots inside `$group` specs, and document or array keys in the vectorised `$group`.
- Row ids, event counters and row counts do not wrap.
- Malformed payloads under `Compare`, UTF-8 validation and nesting limits: values are well-formed trees.
- Newline skipping and unchecked trailing bits in base64 decoding.
- `$lookup` sub-pipelines, `$unionWith`, facets and the remaining stages and accumulators.
- Pipeline.SortDrops: states equality of keys and contents only, because documents tied under the later sort may change places.
- Pipeline.ReshapesMerge: gives a sufficient condition, because given expressions may read a root without depending on it; the exact one over all expressions is ReshapeMerging.ReshapesMergeIff.
- Pipeline.OptimizeSame: its conditions are sufficient for a whole pipeline, because a later stage can hide what an earlier rewrite changed.
- CollectionObjects.Collection.InsertSecondary: does not model the multikey flag, which only the planner reads.
- CollectionObjects.Transaction.InsertBuffered: starts from a document with its `_id`, after minting, validation and capped-collection policy.
- ColumnRuns.ColumnAnswers: takes column maintenance as one step with publishing, because between the two a column scan may miss the newest commit.
- VectorGroup.CheapAgrees: leaves out NaN, which ties with every number in the column order but sorts above them in BSON.
- VectorGroup.KeyAgrees: leaves out document and array keys, whose strings are not escaped.
- VectorGroup.ExecutorMatchesPipeline: leaves out the same, and dotted fields, which the pipeline reads as paths.
- GroupExec.GroupsOfSnapshot: leaves out the same values.
- HashJoin.KeyIffEqual: speaks of null, bool, string, ObjectId, date and numeric values, for which the join key is meant.
- HashJoin.JoinIsNestedLoop: speaks of the same values.
- KeyShape.NestedKeyIffEqual: gives a sufficient condition on two values, because delimiters inside a string are harmless until some other value spells the same key.
- RestoreTarget.RestoreStopsIff: takes commits to have LSNs of their own and versions to be announced once captured, in order; announcements of anything else are outside the runs.
- ReshapeMerging.ReshapesMergeIff: is exact for fields of which no path leads through another; where one does, whether an overwritten field matters depends on which fields the other stages create in between, and the condition is sufficient only.
- GraphLookup.Traverse: exact distances are stated for distinct identities, because documents sharing one hide each other.
- Archive.ArchiveIsComplete: assumes names within their printed digits, and annotations that are not taken back and do not decrease in capture order.
- Restore.ArchiveThenRestore: asks that a commit that grows the file carries frames for its new pages and that the target is not before the base.
- Change events' rendered documents and the update description: easy members.
