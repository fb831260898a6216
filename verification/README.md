# AethelDB: a verified model

AethelDB stores PostgreSQL pages for serverless databases. This project models its three cores and
two smaller ones in Dafny, and proves what they promise.

**Page store** (page server). A repository keeps page versions in a memtable and frozen layers; a
redo manager folds versions into a page; a timeline reads copy-on-write up its ancestor chain; a
tenant collects garbage under branch-aware horizons. `Pages`, `Redo`, `KeyOrder`, `RepositorySpec`
and `TenantSpec` give the store as a value and its operations as functions; `Repository` and
`Tenants` are the same operations as they update their fields. `GcTransparency`, `BranchTooLow`,
`CopyOnWrite`, `ReadsAhead`, `RelSizes` and `WrittenHistory` hold the laws: collection is invisible,
reads equal flattened history, branches are isolated, sizes are high-water marks, and over whole runs
every page read and every size is what the writes of the run make it.

**WAL decoding and receiving** (page server). `WalStream` and `WalRecord` specify the incremental
stream decoder and the two-pass record parser, `WalDecoder` is the decoder with its buffer.
`WalChunking` proves that chunking is irrelevant for every byte stream, `WalFraming` and
`WalRecordInverse` that decoding inverts specification writers, `PglzCodec` and `ImageRestore` the
same for page images. `ReceiverSpec` and `Receiver` model the receiver that feeds one decoder from
polls. The layout is that of PostgreSQL 16 (`access/xlogrecord.h`, `access/xlog_internal.h`) in the
dialect this code reads: a main-data marker is required and ends the headers, and the top-level
transaction id takes 8 bytes.

**Safekeeper quorum and durable log.** `FlatLog` is the log a store promises; `WalDisk`,
`WalStoreSpec` and `WalRecovery` show that the segmented store with its ring cache is that log, over
every sequence of operations and across crashes at any point; `WalStorage` is the store as it runs.
`ConsensusSpec` and `ConsensusState` model terms, votes and the commit position; `Election` and
`Cluster` are step systems in which messages may be lost, delayed, repeated and reordered and nodes
may crash; `Restarts` finds how many restarting members an election survives, `ZeroOrigin` and
`Durability` when what is served is durable on a quorum. `SafekeeperSpec` and `Safekeeper` are the
request handlers and the restart on a crashed disk, tied to the promised log. `EndToEnd` and
`FullStack` join both sides: what a page server ingests is an initial run of the records in the
leader's log, and its pages are what those records make them.

**Catalog and layer files.** `Ids`, `CatalogSpec` and `Catalogs` model the topology catalog and its
worklist restore; `LayerCodec` and `LayerFiles` the byte format of layers. **Cancellation keys.**
`CancelKeys` models the proxy's incremental scanner (section 55.7, "Message Formats", of the
PostgreSQL 16 manual).

## How to read it

- Values come first: each component has a specification as datatypes and functions, its laws as
  lemmas about them, and, where the program updates fields or loops, a class or method proved equal
  to the specification function.
- An LSN is a natural number. Where a law depends on the 64-bit width (the metadata file, layer
  files), it carries the bound. Positions, lengths and page contents are otherwise exact.
- A record-apply function, the lz4 and zstd libraries, a safekeeper's answer and a peer's reply are
  parameters; the laws hold for all of them.
- `hide` statements only keep definitions out of a proof that does not need them.

## Where a promise fails

Each comes with a family of failing inputs, and with the condition under which the promise holds.

- Reads below a branch point, or through falling branch points, do not show the past:
  `ReadsAhead.BelowBranchPointReadsTheFuture`, `ReadsAhead.FallingBranchPointsReadTheFuture`. Exactly
  when some timeline on the way holds a version between the LSN and the cut it is read at:
  `CopyOnWrite.AsOfIff`.
- A branch point below its parent's collected horizon loses pages:
  `BranchTooLow.BranchBelowHorizonLosesPage`; otherwise `GcTransparency.GcInvisible`.
- Tracked sizes go wrong exactly when a modification is overtaken: `RelSizes.TrackingExactIff`.
- A crash after recycling without a flush makes acknowledged positions unreadable, and only then:
  `WalRecovery.RecoversIffUnrecycled`.
- Terms and votes are lost on restart: `Restarts.RestartsBreakSafety`. A group tolerates `k`
  restarting members exactly if it has one member or `k` is below the least overlap of two quorums:
  `Restarts.SafeIffFewRestarts`.
- Empty stores at LSN 0 accept any start: `ZeroOrigin.ZeroOriginServesUndurable`. Everything served is
  durable on a quorum exactly if the origin is not 0 or the group has one member:
  `Durability.DurableIff`.
- Layers beyond the field widths do not survive: `LayerCodec.RoundTripsIffFits`.
- Messages beyond the scan cap make chunking visible, unless the search ends without a key anyway:
  `CancelKeys.ChunkIndependentIff`.

## Model

| member | source | states |
|---|---|---|
| `Pages.DeltaMeaning` | pageserver/src/page.rs:74-101 | applying a delta succeeds if and only if every edit lies inside the page, and then each byte is that of the last edit covering it, or the old one |
| `Pages.ApplyTo` | pageserver/src/page.rs:74-101 | the in-place edit loop leaves in the array exactly the page, or reports exactly the error, of the specification |
| `Redo.NativeReconstruct` | pageserver/src/walredo.rs:71-106 | the native loop gives the one-at-a-time reconstruction for a redo that refuses every raw record: latest base, then replay; none without a base |
| `Redo.BatchedReconstruct` | pageserver/src/walredo_process.rs:161-208 | batching runs of raw records between native deltas gives the same page or error as applying versions one at a time |
| `Redo.Flush` | pageserver/src/walredo_process.rs:210-231 | an empty batch changes nothing; otherwise the page becomes what folding the whole batch over it, or over nothing without a base, gives, or stays on a fault |
| `Redo.BackendsAgree` | pageserver/src/walredo_process.rs:161-231 | any redo process agrees with the native manager whenever no raw record lies at or after the latest base |
| `Redo.OnlyFromBase` | pageserver/src/walredo.rs:71-106 | versions before the latest base never influence the page |
| `Redo.StagedReconstruct` | pageserver/src/timeline.rs:110-129 | reconstructing over an inherited page equals reconstructing the inherited history followed by the own versions, errors included |
| `RepositorySpec.ReadIsScan` | pageserver/src/repository.rs:183-218 | with each page and LSN written once, a read equals reconstruction from one ascending scan of all stored versions, wherever they are stored |
| `RepositorySpec.ReadOverBaseIsScan` | pageserver/src/repository.rs:183-218 | the same over an inherited base, which sorts first |
| `RepositorySpec.FreezeKeepsView` | pageserver/src/repository.rs:159-169 | freezing the memtable changes no stored version |
| `RepositorySpec.IngestOneView` | pageserver/src/repository.rs:129-151 | ingesting a modification adds exactly that version, freeze included |
| `RepositorySpec.CompactView` | pageserver/src/repository.rs:250-301 | compaction only forgets, and forgets a version only if a later base at or before the horizon is kept |
| `RepositorySpec.CompactKeepsExactly` | pageserver/src/repository.rs:250-301 | a frozen version survives compaction if and only if no later base of its page lies at or before the horizon |
| `RepositorySpec.LatestBase` | pageserver/src/repository.rs:268-275 | the latest base of a page at or before the horizon: it is one, and no later one exists |
| `KeyOrder.SortedKeys` | pageserver/src/repository.rs:271-280 | ordered map iteration: every key once, ascending by relation, fork, block and LSN |
| `Repository.Store.Ingest` | pageserver/src/repository.rs:129-151 | the ingest loop folds every modification into memtable, sizes and layers, in order |
| `Repository.Store.IngestModification` | pageserver/src/repository.rs:129-151 | one modification: size tracking, insertion and the freeze at the threshold |
| `Repository.Store.FreezeMemtable` | pageserver/src/repository.rs:159-169 | a non-empty memtable becomes a new layer with the next id |
| `Repository.Store.GetPageWithBase` | pageserver/src/repository.rs:183-218 | gathering memtable and layers, the stable sort and either redo manager give the specified lookup or error |
| `Repository.Store.GetRelSize` | pageserver/src/repository.rs:221-224 | the size recorded at the largest LSN at or before the one asked for |
| `Repository.Store.Compact` | pageserver/src/repository.rs:250-301 | the in-place compaction gives the specified layers, ids and upload set, with true statistics |
| `Repository.MergeAndPrune` | pageserver/src/repository.rs:250-301 | merging all layers, finding the bases in one ordered scan and dropping what lies below gives the specified repository |
| `Repository.LatestBases` | pageserver/src/repository.rs:268-275 | the one-pass scan records for every page exactly its latest base at or before the horizon |
| `RelSizes.TrackingExactIff` | pageserver/src/repository.rs:134-143 | tracked sizes stay right for every relation and LSN after a modification if and only if no later record of the relation is smaller than the block written |
| `RelSizes.SizeIsHighWater` | pageserver/src/repository.rs:129-224 | after in-order ingest every size as of every LSN is one past the highest block written by then |
| `RelSizes.SizeIsFlattened` | pageserver/src/timeline.rs:133-145 | given right sizes on each timeline, at any branch depth the size is one past the highest block among the ancestors' writes up to each branch point and the own writes up to the LSN |
| `WrittenHistory.RunSizeIsVisible` | pageserver/src/timeline.rs:133-145 | over every run of creations, branches, ingests, freezes and collections with in-order writes, the size at any branch depth is one past the highest block among the writes visible at the LSN |
| `TenantSpec.Horizon` | pageserver/src/tenant.rs:105-127 | the effective horizon is the greatest value at most the requested one and at most every direct child's branch point |
| `TenantSpec.RunRooted` | pageserver/src/tenant.rs:55-86 | in every run each branch hangs off an existing, shallower timeline |
| `GcTransparency.GcInvisible` | pageserver/src/tenant.rs:105-127 | in every run where each page and LSN is written once per timeline and no branch point lies below its parent's collected horizon, every page read at or above the collected horizon and every relation size equals what it would be had collection never happened, for any redo backend and branch depth |
| `BranchTooLow.BranchBelowHorizonLosesPage` | pageserver/src/tenant.rs:70-127 | the branch-point premise is needed: for every branch point below a collected base, the new branch loses a page it would have had |
| `CopyOnWrite.ReadIsFlattened` | pageserver/src/timeline.rs:110-129 | at any branch depth a read equals reconstruction from the ancestors' versions, each cut at its branch point, followed by the own versions |
| `CopyOnWrite.AsOfIff` | pageserver/src/timeline.rs:110-129 | on every branch tree, the history read at an LSN is the history as of that LSN if and only if no timeline on the way up holds a version of the page between the as-of cut and the cut it is read at |
| `CopyOnWrite.FlattenedIsAsOf` | pageserver/src/timeline.rs:110-129 | with non-decreasing branch points, at or above the branch point the history read is the one as of the LSN, whatever was written |
| `CopyOnWrite.FlattenedIsLinear` | pageserver/src/timeline.rs:110-129 | with writes above branch points, the history read is one history: ascending by LSN across all timelines on the way |
| `ReadsAhead.BelowBranchPointReadsTheFuture` | pageserver/src/timeline.rs:121-127 | a run that creates, ingests one image and branches at or after it: every LSN below the image reads on the branch a page the past does not have, for any page, image and positions |
| `ReadsAhead.FallingBranchPointsReadTheFuture` | pageserver/src/timeline.rs:121-127 | a run with a branch off a branch at a lower branch point: reads at or above the own branch point still show a page the past does not have |
| `WrittenHistory.PageIsWritten` | pageserver/src/timeline.rs:110-129 | over every run, collections included, with each page and LSN written once per timeline, branch points kept and writes above them, a page read at or above the collected horizon is reconstruction from what was written on the timeline and, up to each branch point, on its ancestors |
| `WrittenHistory.IngestWrites` | pageserver/src/repository.rs:129-151 | with each page and LSN written once, a store holds exactly the versions ingested into it, whatever was frozen when |
| `CopyOnWrite.BranchIsolation` | pageserver/src/timeline.rs:110-129 | ingesting into one timeline, freezes included, changes no page or size read on timelines that do not descend from it, below the written LSNs, or through a branch point below them |
| `Tenants.Tenant.CreateTimeline` | pageserver/src/tenant.rs:55-64 | creates an empty root, or fails without change if the id exists |
| `Tenants.Tenant.BranchTimeline` | pageserver/src/tenant.rs:70-86 | creates an empty branch at the branch point, or fails without change on a duplicate id or a missing parent |
| `Tenants.Tenant.Gc` | pageserver/src/tenant.rs:105-127 | compacts every timeline at its effective horizon and reports true statistics for each |
| `Tenants.ChildPins` | pageserver/src/tenant.rs:108-115 | the pin map built in a loop gives exactly the effective horizon of every timeline for every request |
| `WalStream.Collect` | pageserver/src/waldecode.rs:577-609 | collected payload has the length asked for and its raw length is accounted for |
| `WalStream.Poll` | pageserver/src/waldecode.rs:619-664 | every poll accounts for each byte: position plus buffered length is unchanged |
| `WalDecoder.WalStreamDecoder.CollectPayload` | pageserver/src/waldecode.rs:577-609 | the header-skipping loop gives the specified payload, raw length and start, or the specified shortage or error |
| `WalDecoder.WalStreamDecoder.PollDecode` | pageserver/src/waldecode.rs:619-664 | the polling loop terminates with the specified record, shortage or error and leaves the specified position and buffer |
| `WalChunking.ChunkIndependence` | pageserver/src/waldecode.rs:541-664 | for every byte stream, well-formed or not, and every schedule of feeds and polls, records, LSNs and first error are those of feeding it all at once, and position plus buffered length equals start plus bytes fed |
| `WalChunking.SameBytesSameStream` | pageserver/src/waldecode.rs:541-664 | two schedules feeding the same bytes emit the same records and the same first error |
| `WalChunking.DrainExtends` | pageserver/src/waldecode.rs:619-664 | draining, feeding more and draining again equals draining everything |
| `WalFraming.FramingInverse` | pageserver/src/waldecode.rs:546-664 | for every list of records and zero tails laid out with alignment, page and segment headers, the decoder yields exactly the records at their start LSNs and then continues with what follows |
| `WalFraming.FramedStreamDecodes` | pageserver/src/waldecode.rs:546-664 | the same through any schedule of feeds and polls, with nothing left over |
| `WalRecord.DecodeRecord` | pageserver/src/waldecode.rs:354-491 | the two-pass decoding loops give the specified record or error |
| `WalRecord.ReadHeaders` | pageserver/src/waldecode.rs:373-454 | the header loop over block references and markers gives the specified headers or error |
| `WalRecord.ReadData` | pageserver/src/waldecode.rs:456-480 | the data loop hands each block its image and data bytes as specified |
| `WalRecordInverse.RecordInverse` | pageserver/src/waldecode.rs:354-491 | for every record in the dialect read, decoding its specification encoding gives it back: own or inherited relations, images, holes, compression, data, either main-data marker |
| `PglzCodec.Decompress` | pageserver/src/waldecode.rs:198-240 | the decompression loop gives the specified bytes or error |
| `PglzCodec.Decompressed` | pageserver/src/waldecode.rs:198-240 | output never exceeds the requested length |
| `PglzCodec.CopyLoop` | pageserver/src/waldecode.rs:230-236 | the byte-by-byte back-reference copy, overlapping source included, gives the specified extension |
| `PglzCodec.PglzInverse` | pageserver/src/waldecode.rs:198-240 | decoding the encoding of any valid list of literals and back-references, overlapping ones included, gives its expansion |
| `ImageRestore.RestoreInverse` | pageserver/src/waldecode.rs:153-190 | restoring any page stored uncompressed or as pglz with a zero hole removed gives the page back |
| `ImageRestore.RestoreSound` | pageserver/src/waldecode.rs:153-190 | whatever is restored is a whole page, zero in its hole, and elsewhere the stored body |
| `ImageRestore.Modifications` | pageserver/src/repository.rs:310-325 | one modification per referenced block, at the record's LSN and the block's address, carrying the restored image if there is one that restores and the raw record otherwise |
| `ImageRestore.ImagesBecomePages` | pageserver/src/repository.rs:310-325 | a block whose stored image encodes a page becomes that page, as a base; a block without an image becomes the raw record, a base exactly if it initialises the page |
| `ReceiverSpec.PumpDrains` | pageserver/src/walreceiver.rs:132-136 | without an error the ingest loop ingests exactly the records draining the decoder gives and leaves the decoder where draining does |
| `ReceiverSpec.ReceiverAgreement` | pageserver/src/walreceiver.rs:97-139 | for any polls, chunk caps and safekeeper states without a gap or an error, the repository is what ingesting the records of [start, cursor) gives, and the cursor equals the decoder's position plus its buffered length |
| `ReceiverSpec.GapStartsOver` | pageserver/src/walreceiver.rs:116-127 | after a retention gap the receiver goes on as one started at the gap's end with the same repository, and agrees from there |
| `Receiver.WalReceiver.PollOnce` | pageserver/src/walreceiver.rs:97-139 | one poll updates cursor, decoder and repository as specified: decoder kept, created or restarted on a gap, errors returned |
| `Receiver.WalReceiver.IngestComplete` | pageserver/src/walreceiver.rs:132-136 | the ingest loop gives the specified state, count or first error |
| `Receiver.WalReceiver.IngestOne` | pageserver/src/repository.rs:121-126 | a record is decoded and its modifications ingested, or nothing changes and the error is returned |
| `EndToEnd.WrittenIsIngested` | pageserver/src/walreceiver.rs:97-139 | for any decodable records in the leader's log, whatever nodes of a safekeeper group are polled, whenever and in whatever chunks, no poll fails and what is ingested is an initial run of those records, and all of them once the cursor reaches the end |
| `EndToEnd.EncodedDecodes` | pageserver/src/waldecode.rs:354-491 | every record of the dialect read is decodable wherever it is placed |
| `FullStack.PagesFollowRecords` | pageserver/src/walreceiver.rs:97-139 | once the cursor has passed the records up to an LSN, every page read there is reconstruction from the records written to the leader's log, for any polls, chunks, freezes and redo backend |
| `FullStack.IngestAllIsMods` | pageserver/src/repository.rs:121-151 | ingesting decodable records never fails and equals ingesting their modifications in one go |
| `Ids.IdRoundTrip` | common/src/ids.rs:45-82 | every identifier parses back from its 32 hex digits |
| `CatalogSpec.RestoreIsLeastFixpoint` | pageserver/src/catalog.rs:89-136 | for any records in any order and any existing timelines, exactly the timelines whose ancestry reaches a root or an existing timeline exist afterwards; existing ones are untouched, new ones are empty with a record's parent and branch LSN |
| `CatalogSpec.SettleTwice` | pageserver/src/catalog.rs:99-127 | restoring a tenant's records a second time changes nothing |
| `CatalogSpec.RestoreTwice` | pageserver/src/catalog.rs:87-136 | restoring a catalog with distinct tenants a second time changes nothing, whatever was there |
| `CatalogSpec.SnapshotRestores` | pageserver/src/catalog.rs:64-127 | restoring the records of a tenant into an empty one reproduces its timelines and ancestry |
| `CatalogSpec.TopologySurvives` | pageserver/src/catalog.rs:64-136 | restoring a captured manager into an empty one reproduces every tenant's topology |
| `Catalogs.RetainPass` | pageserver/src/catalog.rs:102-123 | one retaining pass creates and keeps as specified |
| `Catalogs.RestoreTimelines` | pageserver/src/catalog.rs:99-127 | the worklist loop terminates with the specified timelines and orphans |
| `Catalogs.SnapshotTimelines` | pageserver/src/catalog.rs:67-83 | exactly one record per timeline, strictly ascending by printed id |
| `Catalogs.TenantManager.Snapshot` | pageserver/src/catalog.rs:64-85 | one record per tenant, strictly ascending by printed id, each describing its timelines |
| `Catalogs.TenantManager.Restore` | pageserver/src/catalog.rs:89-136 | the loop over tenants restores each as specified, skipping unparseable ids |
| `LayerCodec.RoundTripsIffFits` | pageserver/src/layer.rs:63-129 | a layer survives serialization if and only if it is within the field widths |
| `LayerCodec.LayerRoundTrip` | pageserver/src/layer.rs:63-129 | deserializing a serialized layer within the widths gives the same id and entries |
| `LayerCodec.RestoredRangeAgrees` | pageserver/src/layer.rs:58-129 | every range scan of the restored layer agrees with the original |
| `LayerCodec.VersionRoundTrip` | pageserver/src/page.rs:137-200 | a version reads back from its bytes and leaves what follows unread |
| `LayerCodec.ReadVersionFits` | pageserver/src/page.rs:162-200 | whatever version is read is within the widths |
| `LayerCodec.ModificationRoundTrip` | pageserver/src/page.rs:230-258 | a modification within the widths decodes back from its wire form |
| `LayerFiles.SerializeLayer` | pageserver/src/layer.rs:63-79 | the writing loop over the ordered entries gives the specified bytes |
| `LayerFiles.AppendVersion` | pageserver/src/page.rs:137-159 | appends exactly the specified bytes of a version |
| `LayerFiles.DeserializeLayer` | pageserver/src/layer.rs:82-129 | the reading loop gives the specified layer or error |
| `LayerFiles.ParseVersion` | pageserver/src/page.rs:162-200 | the tag cases, with the loop over edits, read the specified version or error and leave the specified rest |
| `WalDisk.WriteEffect` | safekeeper/src/storage.rs:173-189 | a segment-spanning write puts each byte at its position and keeps every other stored byte |
| `WalDisk.MetaRoundTrip` | safekeeper/src/storage.rs:286-321 | the metadata file gives back the two positions written |
| `WalStoreSpec.AppendRefines` | safekeeper/src/storage.rs:158-199 | append does to the store what it does to a flat log, or fails with the same error |
| `WalStoreSpec.FlushRefines` | safekeeper/src/storage.rs:202-218 | flush succeeds and makes every retained byte stable |
| `WalStoreSpec.ReadRefines` | safekeeper/src/storage.rs:222-258 | a read from ring or disk gives exactly the appended bytes, or the same range error |
| `WalStoreSpec.RecycleRefines` | safekeeper/src/storage.rs:262-282 | recycling up to a durable horizon drops only bytes below the new floor |
| `WalRecovery.StoreIsFlatLog` | safekeeper/src/storage.rs:94-282 | over every run of appends, flushes, durable recycling and crashes at any point, the store is the flat log: frontiers and every read agree and the ring ends at the write frontier |
| `WalRecovery.CrashKeeps` | safekeeper/src/storage.rs:94-112 | after a crash at any point of any operation, with nothing recycled since the last flush, reopening gives back the log as of that flush with appending resumed at its end |
| `WalRecovery.RecoversIffUnrecycled` | safekeeper/src/storage.rs:94-112 | the condition is exact: every crash recovers the flushed log if and only if no segment was recycled since the flush |
| `WalRecovery.SavedIsCrashed` | safekeeper/src/storage.rs:94-112 | what reopening recovers is the log cut at its durable frontier, whatever was appended since the flush |
| `WalStorage.OpenStorage` | safekeeper/src/storage.rs:94-112 | opens at the recorded frontiers, or empty without a metadata file, or fails on a corrupt one |
| `WalStorage.Storage.Append` | safekeeper/src/storage.rs:158-199 | seeding, the contiguity check, the segment loop and ring eviction give the specified store or error |
| `WalStorage.Storage.WriteAll` | safekeeper/src/storage.rs:173-189 | the segment loop writes, creates and marks dirty exactly as specified |
| `WalStorage.Storage.EvictRing` | safekeeper/src/storage.rs:192-196 | eviction keeps the newest bytes up to the capacity and moves the ring start by what it drops |
| `WalStorage.Storage.Flush` | safekeeper/src/storage.rs:202-218 | every dirty segment is synced, then the metadata written; on failure only some syncs have happened |
| `WalStorage.Storage.ReadInto` | safekeeper/src/storage.rs:222-258 | fills the buffer with the specified bytes from ring or segments, or returns the specified error |
| `WalStorage.Storage.RemoveSegmentsBefore` | safekeeper/src/storage.rs:262-282 | removes the specified segments, raises the floor and counts the files removed |
| `ConsensusSpec.CommitIsQuorum` | safekeeper/src/consensus.rs:104-112 | a position is at most the commit position if and only if a quorum of members is recorded as flushed to it |
| `ConsensusSpec.RecordFlushMonotone` | safekeeper/src/consensus.rs:97-102 | recording a flush lowers no member's position and not the commit position |
| `ConsensusState.Consensus.constructor` | safekeeper/src/consensus.rs:59-73 | a follower in term 0 with no vote and every member at position 0 |
| `ConsensusState.Consensus.Record` | safekeeper/src/consensus.rs:97-102 | raises the member's position, never lowers it, and changes nothing else |
| `ConsensusState.Consensus.Commit` | safekeeper/src/consensus.rs:106-112 | collecting and sorting the positions gives the commit position |
| `ConsensusState.Consensus.Observe` | safekeeper/src/consensus.rs:117-124 | a newer term resets role, vote and counted votes; an older one changes nothing |
| `ConsensusState.Consensus.StartElecting` | safekeeper/src/consensus.rs:128-136 | next term, self-vote, leader at once in a group of one |
| `ConsensusState.Consensus.HandleVoteRequest` | safekeeper/src/consensus.rs:139-147 | the new state and the grant are those specified |
| `ConsensusState.Consensus.HandleVoteGranted` | safekeeper/src/consensus.rs:150-161 | counts the vote for the current candidacy only, and leads at quorum |
| `SafekeeperSpec.VoteBinds` | safekeeper/src/server.rs:168-180 | a vote is granted exactly if the term is not old and no other candidate has it; a repeat is granted again, another candidate never |
| `SafekeeperSpec.ElectionWonIff` | safekeeper/src/server.rs:185-210 | an election is won exactly when the candidate and the distinct peers that granted make a quorum, in any order of replies |
| `Election.ElectionSafety` | safekeeper/src/consensus.rs:117-161 | no term ever has two leaders, whatever the loss, delay, repetition and order of requests and grants, as long as the group has one member or fewer members restart than two quorums must share |
| `Restarts.RestartsBreakSafety` | safekeeper/src/consensus.rs:59-73 | for any group of two or more there is a run in which exactly as many members restart as two quorums must share and one term has two leaders |
| `Restarts.SafeIffFewRestarts` | safekeeper/src/consensus.rs:59-161 | every run with at most k restarting members has one leader per term if and only if the group has at most one member or k is below the least overlap of two quorums |
| `Restarts.CampaignWins` | safekeeper/src/consensus.rs:128-161 | a candidate that canvasses a quorum of members without memory wins, and touches no one else |
| `SafekeeperSpec.AcceptedIsDurable` | safekeeper/src/server.rs:115-143 | an accepted request is durable in full at the answered position; a refused or failed one changes nothing; refusal means an older term |
| `SafekeeperSpec.AcksAreFolded` | safekeeper/src/server.rs:98-105 | after folding acknowledgements a member counts as flushed to a position exactly if it did before or one of them says so |
| `Cluster.LogsArePrefixes` | safekeeper/src/server.rs:63-143 | in every run through one leader from a common non-zero origin, with lost, delayed and repeated messages and crashes, every node's log is a prefix of the leader's |
| `Cluster.CommitIsReal` | safekeeper/src/consensus.rs:97-112 | the commit position is the greatest recorded by a quorum, and every member recorded there has really flushed that far |
| `Cluster.ServeMeaning` | safekeeper/src/server.rs:150-163 | a read always succeeds and serves the leader's bytes from the start raised to the floor, up to the commit position and the cap |
| `Cluster.ServedForGood` | safekeeper/src/server.rs:63-163 | in every state the invariant allows, every byte served is durable and identical on a quorum, then and on the same quorum in every later state |
| `Durability.QuorumDurability` | safekeeper/src/server.rs:63-163 | in every run from a non-zero origin, or of one member, every byte served is durable and identical on a quorum, then and on the same quorum after whatever follows |
| `Durability.DurableIff` | safekeeper/src/server.rs:63-163 | every byte served in every run is durable on a quorum for good if and only if the origin is not 0 or the group has one member |
| `Cluster.DeliverThenRecord` | safekeeper/src/server.rs:115-143 | a peer's handler is a delivery step followed by recording its own flush |
| `Cluster.StepInv` | safekeeper/src/replicator.rs:93-141 | every step keeps: logs whole and prefixes, recorded positions real, sent requests in the leader's log |
| `ZeroOrigin.ZeroOriginServesUndurable` | safekeeper/src/storage.rs:160-165 | in any group of two or more opened empty at LSN 0, with any leader, any quorum around it and any contents, a run of lost and delivered requests makes the leader serve a byte no quorum holds |
| `Safekeeper.Server.HandleReplicate` | safekeeper/src/server.rs:115-143 | the handler over store and consensus does what is specified for the promised log, with the specified answer |
| `Safekeeper.Server.BeginAppend` | safekeeper/src/server.rs:63-93 | the part of an append before waiting for peers: refusal, failure, or a durable append with the own flush recorded |
| `Safekeeper.Server.FinishAppend` | safekeeper/src/server.rs:98-110 | folds every acknowledgement in and answers with the new commit position |
| `Safekeeper.Server.HandleRead` | safekeeper/src/server.rs:150-163 | serves exactly the specified bytes or error through the segmented store |
| `Safekeeper.Server.HandleVote` | safekeeper/src/server.rs:168-180 | answers and updates as specified |
| `Safekeeper.Server.RunElection` | safekeeper/src/server.rs:185-210 | stands, counts the grants in turn and reports whether it leads |
| `Safekeeper.Reopen` | safekeeper/src/storage.rs:94-112 | a server restarted on whatever disk a crash left has its log cut at the durable frontier and a consensus state that remembers nothing: the group model's crash step |
| `CancelKeys.ChunkIndependentIff` | proxy/src/cancel.rs:101-144 | every chunking gives the whole-stream answer if and only if every message up to the decision fits the cap, or the first message of interest is malformed or ready-for-query |
| `CancelKeys.GiveUpIff` | proxy/src/cancel.rs:101-144 | the search ends without a key if and only if, after whole messages of no interest, a malformed length or a whole ready-for-query follows |
| `CancelKeys.AtMostOneKey` | proxy/src/cancel.rs:101-105 | no stream and chunking yields more than one key |
| `CancelKeys.DoneIsInert` | proxy/src/cancel.rs:101-105 | a finished scanner stays finished and returns nothing |
| `CancelKeys.KeyScanner.PushBytes` | proxy/src/cancel.rs:101-144 | the framing loop gives the specified state and key |

## Left out

- Tenants.Tenant: timelines are values in the tenant's map, so sharing one store through several handles is not modelled; depth stands for the chain of parent handles.
- Repository.Store: the lock around the fields and the metrics counters; upload of layers to the object store and its bookkeeping beyond forgetting removed ids, because layer ids restart in every repository and no durability across timelines follows.
- RelSizes.SizeIsHighWater: a block number of 2^32 - 1 makes the size overflow in the program; sizes here are unbounded.
- Redo.BatchedReconstruct: starting, feeding and retrying the redo process; the process is a function from a page and a record to a page or a fault.
- ImageRestore.RestoreInverse: lz4 and zstd bodies, which are foreign libraries; they are a parameter, and only their failure and length checks are modelled.
- WalRecord.DecodeRecord: an uncompressed holed image longer than a page underflows in the program; the model follows 16-bit truncation, as an optimized build does.
- WalStorage.Storage.Append: write errors half-way, after which the program keeps the advanced write position without the ring; and a store recycled above its write frontier, whose open handle would write to a removed file.
- WalStorage.Storage.Flush: a failing write of the metadata file, after which the program has already advanced its flush position; a missing segment file is modelled.
- WalStorage.Storage.RemoveSegmentsBefore: a failing file removal, which returns early with the floor unmoved.
- WalRecovery.CrashKeeps: the metadata file is replaced atomically and durably and new files do not vanish once synced; syncing the directory itself is not modelled, because the program does not do it.
- WalStoreSpec.AppendRefines: positions stay below 2^64; wrap-around of a position is not modelled.
- Durability.QuorumDurability: several leaders, truncation of diverging logs and recycling inside a group, which the program does not provide; the handlers' locks make append and flush one step.
- Cluster.StepInv: the replicator's connection map and reconnects; a request is a message that may be delivered at any time or never. The simulated replicator, which acknowledges without storing, is left out.
- Election.ElectionSafety: timing, and retries of an election.
- ReceiverSpec.ReceiverAgreement: the connection and the back-off between polls; a poll is the safekeeper's state at that moment and a cap.
- Catalogs.TenantManager: JSON and the object store; removal of tenants; identifiers with non-ASCII characters, on which parsing panics.
- CancelKeys.KeyScanner: the registry of keys and the forwarding of bytes.
- Sockets, message codecs of `common/`, HTTP and command-line control, metrics, the console, the proxy's wake and idle logic, SCRAM and TLS: plumbing, timing or foreign primitives.
- PostgreSQL's own redo functions, the C extension and the core patches: outside the model.
