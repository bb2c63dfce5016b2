# KisekiFS data path, modelled in Dafny

KisekiFS splits a file into chunks of 64 MiB, a chunk into blocks of 4 MiB and a block into
pages of 128 KiB. Writes go into paged slice buffers, full blocks are staged on local disk, a
slice record is published in the metadata store, and staged blocks migrate to remote storage
in the background. A read overlays the published records of a chunk and fetches the blocks
behind them. This project models that path and proves what has to hold across its parts.

| module | file | what it models |
|---|---|---|
| `Common`, `SliceTypes` | `Common.dfy`, `SliceTypes.dfy` | sizes, bytes, outcomes; slice records, block keys, "this slice is stored" |
| `Paging`, `BufferModel`, `SliceBuffers`, `SharedPools` | `Paging.dfy`, `BufferModel.dfy`, `SliceBuffer.dfy`, `SharedPool.dfy` | page pool and slice buffers: the classes with their loops, the value-level meaning they are tied to, and the pool's account over all buffers |
| `SliceWriters`, `Publication` | `SliceWriter.dfy`, `Publication.dfy` | one slice writer from first write to published record, with failures and retries: the class, and the step system its methods are tied to |
| `WriterProtocol`, `WriterRuns`, `WriterDebts` | `WriterProtocol.dfy`, `WriterRuns.dfy`, `WriterDebts.dfy` | writers, flusher, request queue and finish loops, interleaved one atomic access at a time; what every run keeps, and what is still owed after a failure |
| `ChunkWrites` | `ChunkWrites.dfy` | splitting a write over chunks |
| `StageCache`, `StageOutcomes` | `StageCache.dfy`, `StageOutcomes.dfy` | stage, read, migrate, sync and restart, interleaved; what each achieves when nothing fails |
| `RangeMaps`, `Reader` | `RangeMaps.dfy`, `Reader.dfy` | the interval map and the read loops |
| `SliceCodec`, `SliceKeyCodec` | `SliceCodec.dfy`, `SliceKeyCodec.dfy` | the 28-byte record and the block path |
| `MetadataStore`, `MetadataRuns` | `Metadata.dfy`, `MetadataRuns.dfy` | committing slices, truncation, and what any sequence of them means |
| `IdTables` | `IdTables.dfy` | id ranges reserved on a persistent counter |
| `TaskRegistry`, `Lifecycle` | `TaskRegistry.dfy`, `Lifecycle.dfy` | the two shutdown protocols |
| `EndToEnd` | `EndToEnd.dfy` | the components put together: what was written is what is read |

Code that updates objects or arrays in loops is modelled by classes and methods proved against
functions on values; the concurrent protocols are step systems, one action per atomic access,
with sequentially consistent atomics, a live flusher and no cancelled future. A *run* is any
finite sequence of steps from the initial state.

## Where the code falls short of the claim

Five natural claims are false of the code. The code is kept as it is; each claim has a concrete
counterexample and the exact condition under which it holds.

- *An idle commit publishes only staged data.* A bulk flush stages the whole blocks below the
  length its request was made at and goes idle, and an idle commit then publishes the whole
  buffered length. What is published is what was written if and only if those blocks reach the
  length: for a request that is not behind, if and only if the length is a whole number of blocks
  (`Publication.BulkThenCommitExact`, `Publication.UnstagedTailPublished`).
  `Publication.PublicationExact` joins this claim and the next into one if-and-only-if over all
  runs.
- *A write may follow a failed commit.* After a complete stage whose commit failed, the partly
  filled last block has left the buffer; a write that grows it starts the block again from
  nothing. Over any further writes, flushes and retries, what is published is what was written if
  and only if every such write found the first part of its block zero
  (`Publication.AppendAfterFailedCommit`, `Publication.BlankedBytePublished`).
- *finish never waits for nothing.* A write over several chunks that fails before its last one
  leaves the remaining slices in Writing for good, and finish then never returns unless a flush
  error lets it. Slices are abandoned if and only if some failing write had more than one slice
  left (`WriterRuns.OrphansExact`, `WriterRuns.OrphanBlocksFinish`, `WriterRuns.AbandonedSlice`).
- *Growing a file reads as zero.* A hole record identical to one the chunk already holds is
  dropped, so data written over the first hole shows through. The new part is all zero if and
  only if no position in a dropped hole showed a record before
  (`MetadataRuns.ZeroFillExact`, `MetadataRuns.RegrownFileShowsOldBytes`).
- *Ids are unique for every counter step.* They are if and only if the step is at least 3; the
  counters in use step by 1024 and 4096 (`IdTables.UniqueExactly`, `IdTables.TwoTables`).

## Model

| member | source | states |
|---|---|---|
| `SliceBuffers.MemoryPagePool.TryAcquirePage` | components/storage/src/pool/memory_pool.rs:79-84 | a page is handed out exactly when one is queued, and it is zero; otherwise nothing changes |
| `SliceBuffers.MemoryPagePool.Recycle` | components/storage/src/pool/memory_pool.rs:98-103 | a returned page is cleared before it is queued, and the queue never exceeds the pool size |
| `SliceBuffers.MemoryPagePool.TryAcquirePages` | components/storage/src/slice_buffer.rs:366-373 | all `n` pages or none: a failure part-way returns the pages already taken |
| `SliceBuffers.MemoryPagePool.RecycleAll` | components/storage/src/pool/memory_pool.rs:217-226 | dropping a block's pages returns exactly as many pages as it held |
| `SliceBuffers.SliceBuffer.ReservePages` | components/storage/src/slice_buffer.rs:349-386 | succeeds exactly when the pool has as many pages as there are pages that hold a position of the write and are not held yet; then exactly those are added and no byte changed; otherwise nothing changed; queued plus held pages stay constant |
| `SliceBuffers.SliceBuffer.WriteAt` | components/storage/src/slice_buffer.rs:256-347 | rejected for exactly three reasons, each with its error, the pool being too small when the pages holding a written position and not held outnumber it; otherwise the whole effect: the bytes, the block lengths, and as pages those held before and those holding a written position; pages conserved |
| `SliceBuffers.CopyData` | components/storage/src/slice_buffer.rs:285-344 | the nested block and page loops write exactly `data` at `off` into the flat view and grow block lengths accordingly |
| `SliceBuffers.FindMissing` | components/storage/src/slice_buffer.rs:350-364 | lists, in order, exactly the page numbers in range that are not held |
| `SliceBuffers.InstallPages` | components/storage/src/slice_buffer.rs:375-383 | the missing pages become held, fresh blocks are created only where needed, readable bytes and block lengths stay |
| `SliceBuffers.SliceBuffer.FlushBulkTo` | components/storage/src/slice_buffer.rs:443-500 | on any exit a prefix of the pending blocks is stored and released and the rest untouched; Ok, with the number of pages given back, exactly when that is all of them, and otherwise which error; page counter exact after every block; pages conserved |
| `SliceBuffers.SliceBuffer.FlushOne` | components/storage/src/slice_buffer.rs:478-491 | one block is stored under its key and released, or nothing changes |
| `SliceBuffers.SliceBuffer.Stage` | components/storage/src/slice_buffer.rs:521-578 | the same walk into the stage cache, with the page counter settled only when every block is staged; which error, and on Ok the number of pages given back |
| `SliceBuffers.SliceBuffer.ReleaseBlock` | components/storage/src/slice_buffer.rs:489-490 | a stored block's pages go back to the pool and the flushed mark moves to its end |
| `SliceBuffers.PendingIndexes` | components/storage/src/slice_buffer.rs:462-477 | the data blocks that end at or below the offset, in order |
| `SliceBuffers.GatherBlock` | components/storage/src/cache/file_cache.rs:616-632 | a block's bytes page by page, a missing page reading as zeros |
| `SharedPools.PoolUsers.WriteAt` | components/storage/src/slice_buffer.rs:349-386 | over any number of buffers sharing a pool: one buffer takes the write in full or refuses it unchanged, the others stay as they are, and queued pages plus all pages held equal the pool size |
| `SharedPools.PoolUsers.FlushBulkTo` | components/storage/src/slice_buffer.rs:443-500 | the same for a flush of one buffer, which stores exactly the pending blocks it got through |
| `SharedPools.PoolUsers.Stage` | components/storage/src/slice_buffer.rs:521-578 | the same for a stage of one buffer, which stages exactly the pending blocks it got through |
| `SharedPools.PoolUsers.Open` | components/storage/src/slice_buffer.rs:161-172 | the same after a new buffer joins |
| `SharedPools.PoolUsers.Close` | components/storage/src/pool/memory_pool.rs:217-226 | the same after a buffer is dropped, which gives back exactly the pages it held |
| `Paging.CopyIntoPageIsCopied` | components/storage/src/slice_buffer.rs:329-343 | copying into one page changes exactly those positions of the flat view and nothing else |
| `Paging.CopiedTwice` | components/storage/src/slice_buffer.rs:287-344 | two adjacent copies are one copy of the concatenation |
| `BufferModel.WriteTracks` | components/storage/src/slice_buffer.rs:256-347 | a write keeps "stored below the mark, buffered above it" for the overlaid content exactly when it does not skip a whole block |
| `BufferModel.PagesUnder` | components/storage/src/slice_buffer.rs:350-352 | the pages between the first and last of a write are exactly the pages that hold one of its positions |
| `BufferModel.ByteNeedsPage` | components/storage/src/slice_buffer.rs:285-344 | a byte that is not zero lives in the page of its position |
| `BufferModel.PendingIsRange` | components/storage/src/slice_buffer.rs:462-477 | under the invariant the pending blocks are a contiguous range from the flushed mark |
| `BufferModel.FlushTracks` | components/storage/src/slice_buffer.rs:479-493 | storing the next `n` blocks keeps the invariant and moves the mark to the last one's end |
| `BufferModel.FullFlushStores` | components/storage/src/slice_buffer.rs:424-439 | a completed flush leaves every block stored under the reader's key with the slice's bytes |
| `BufferModel.RunThenFlush` | components/storage/src/slice_buffer.rs:413-500 | for any run of writes and succeeding or failing bulk flushes ended by one completed flush: storage holds the flat array of the writes, each block put exactly once, in order, at the size the reader computes, and no page is held |
| `Publication.StageKeeps` | components/storage/src/slice_buffer.rs:521-578 | staging any prefix of the pending blocks keeps staged plus buffered equal to the content and moves the mark |
| `Publication.StepKeeps` | components/vfs/src/writer.rs:904-1103 | every write, bulk flush, full flush, commit and failure, in any state, keeps staged plus buffered blocks equal to the bytes held: what was written, up to blanks below the flushed mark |
| `Publication.StageHolds` | components/storage/src/slice_buffer.rs:521-578 | the same for a buffer whose released last block was started again: stale shorter blocks in the stage cache never get in the way |
| `Publication.StoredExactly` | components/vfs/src/reader.rs:349-367 | every block the reader asks for is staged with the bytes written if and only if the flushed mark has reached the length and the bytes held are the bytes written |
| `Publication.FullFlushPublishes` | components/vfs/src/writer.rs:1038-1103 | a complete stage leaves the bytes held stored under the reader's keys; a committed full flush publishes the full length, and the bytes written if and only if they are the bytes held |
| `Publication.CommitIdleExact` | components/vfs/src/writer.rs:1238-1290 | an idle commit publishes what was written if and only if the flushed mark had reached the length and nothing was blanked |
| `Publication.BulkFlushLeavesTail` | components/vfs/src/writer.rs:965-1001 | a completed bulk flush has reached the last whole block below the length it was asked for at, and nothing is left unstaged exactly when that is the present length |
| `Publication.PublicationSafety` | components/vfs/src/writer.rs:965-1290 | in every state of every run without a premature idle commit and without a lossy restart, bulk flushes at any length included, a published record has an id, names the length written, and every block the reader asks for is staged with the bytes written |
| `Publication.PublicationExact` | components/vfs/src/writer.rs:904-1290 | in every state of every run whatever, a published record names the length written and reads back as what was written if and only if no idle commit came with blocks unstaged and no write restarted a released block over bytes that were not zero |
| `Publication.DoneIsPublished` | components/vfs/src/writer.rs:1038-1290 | in every run a writer that is done has published the length of whatever was written to it |
| `Publication.BulkThenCommitExact` | components/vfs/src/writer.rs:1250-1267 | bulk flush then idle commit is correct if and only if the flush reached the length and nothing was blanked; for an up-to-date request it reaches the length if and only if that is a whole number of blocks |
| `Publication.UnstagedTailPublished` | components/vfs/src/writer.rs:965-985 | a concrete run that publishes a record whose last block was never staged |
| `Publication.AppendBlanksTail` | components/storage/src/slice_buffer.rs:375-383 | a write that starts a released block again leaves buffer and stage cache tracking the content with that block's first part blank |
| `Publication.AppendAfterFailedCommit` | components/vfs/src/writer.rs:1003-1103 | over any run of writes, failed and successful flushes and retries, the bytes held are the bytes written if and only if every write that started a released block again found its first part zero |
| `Publication.BlankedBytePublished` | components/vfs/src/writer.rs:1003-1103 | a concrete run of two one-byte writes around a failed commit that publishes the first byte as zero |
| `Publication.StoredUnique` | components/vfs/src/reader.rs:349-367 | the staged blocks of a slice determine its content |
| `SliceWriters.SliceWriter.WriteAt` | components/vfs/src/writer.rs:904-963 | a refused write puts the slice back as it was; otherwise it is exactly the append step of publication and the slice is dirty |
| `SliceWriters.SliceWriter.MakeFlushReq` | components/vfs/src/writer.rs:1128-1228 | from a state, length and mark loaded earlier: exactly when each kind of request is made, at which offset, and where the state goes; a state that has changed since gives none |
| `SliceWriters.SliceWriter.PrepareSliceId` | components/vfs/src/writer.rs:1105-1125 | the id is taken once and kept; a failed request leaves it unset |
| `SliceWriters.SliceWriter.BulkFlush` | components/vfs/src/writer.rs:965-1018 | is exactly the bulk-flush step of publication, successful or stopped at any block |
| `SliceWriters.SliceWriter.FlushAndCommit` | components/vfs/src/writer.rs:1038-1103 | is exactly the full-flush step of publication: only a complete stage is committed, any failure returns to dirty |
| `SliceWriters.SliceWriter.CommitPartial` | components/vfs/src/writer.rs:1238-1290 | is exactly the idle-commit step of publication; an empty slice is dropped without a record |
| `WriterProtocol.WriteStepOk` | components/vfs/src/writer.rs:331-455 | claiming, creating, writing, failing and asking for flushes keep the protocol invariant |
| `WriterProtocol.FlusherStepOk` | components/vfs/src/writer.rs:606-646 | receiving, counting, failing, settling and notifying keep the protocol invariant; where a settled request leaves its slice is pinned by `WriterDebts.WrittenIsFlushedFirst` |
| `WriterProtocol.FinishStepOk` | components/vfs/src/writer.rs:740-798 | every step of the finish loops keeps it |
| `WriterProtocol.NextOk` | components/vfs/src/writer.rs:331-1225 | every step of the protocol keeps the invariant |
| `WriterProtocol.ReqSettle` | components/vfs/src/writer.rs:1084-1100 | settling a request leaves the slice in a phase without one and no other slice's request changes |
| `WriterProtocol.NotifyCalm` | components/vfs/src/writer.rs:1003-1035 | a notification wakes the sleeping loop of its chunk writer or is stored for it, disturbs no other, and reaches nobody once the chunk writer is gone |
| `WriterProtocol.FinishComplete` | components/vfs/src/writer.rs:477-515 | when all loops have returned without an error recorded, every slice is done |
| `WriterRuns.ExclusiveOwnership` | components/vfs/src/writer.rs:687-701 | in every interleaving: a flushing or committing slice has exactly one outstanding request and other slices none; the flusher finds the phase its completing exchange expects; a writing slice has exactly one writer or was abandoned; the counter is the number of slices not done |
| `WriterRuns.FinishIsComplete` | components/vfs/src/writer.rs:465-515 | finish returns Ok only when every slice of the file is done, the counter is zero and no request is outstanding |
| `WriterRuns.OrphansExact` | components/vfs/src/writer.rs:375-392 | no slice is abandoned if and only if every failing write had one slice left |
| `WriterRuns.OrphanBlocksFinish` | components/vfs/src/writer.rs:375-392 | an abandoned slice stays in Writing for good and finish returns only with an error |
| `WriterRuns.AbandonedSlice` | components/vfs/src/writer.rs:375-392 | a concrete run without any flush error that abandons a slice |
| `WriterRuns.SleeperIsAwaited` | components/vfs/src/writer.rs:740-798 | without abandoned slices, a sleeping finish loop has for every slice it waits for a request outstanding or its notification on the way |
| `WriterRuns.FlusherMoves` | components/vfs/src/writer.rs:626-646 | the flusher can always take a step other than failing while it has anything to do |
| `WriterRuns.NeverStuck` | components/vfs/src/writer.rs:740-798 | while a finish loop sleeps, the flusher or another loop's pending send can step |
| `WriterRuns.FinishAlwaysMoves` | components/vfs/src/writer.rs:740-798 | from its start to its return a finish without abandoned slices always has a step to take: in one of its loops, in the flusher without failing, or the return |
| `WriterDebts.WrittenIsFlushedFirst` | components/vfs/src/writer.rs:1003-1018 | in every interleaving a slice written since its last successful flush, whatever failed since, is dirty, being flushed or held by a write, and no request to commit it as idle exists; and a slice is dirty or being flushed only if it is such a slice |
| `WriterDebts.FinishAsksForAll` | components/vfs/src/writer.rs:740-798 | in every interleaving finish asks for the whole of a slice, never for a bulk flush |
| `WriterDebts.ErrorIsReported` | components/vfs/src/writer.rs:283-307 | an error is recorded in a state of a run if and only if some flush failed and no write or finish has returned an error since |
| `WriterDebts.ReportingOnlyReports` | components/vfs/src/writer.rs:477-515 | the call that returns a recorded error clears it and does nothing else; a finish that ends with it keeps the chunk writers for a retry |
| `WriterDebts.WriteFollowsPlan` | components/vfs/src/writer.rs:331-392 | while a write goes on, the chunks it has still to write to lose their first exactly when a slice is written, and every slice it takes or creates is of the next chunk |
| `WriterDebts.PlanStartsAndEnds` | components/vfs/src/writer.rs:331-392 | a write starts with the chunks it covers and ends only with none left or at a failure |
| `ChunkWrites.LocateChunk` | components/vfs/src/writer.rs:1312-1350 | for any chunk size: one piece per chunk touched, each inside its chunk with matching file and buffer positions, chained from the first byte to the last |
| `ChunkWrites.PiecesPartition` | components/vfs/src/writer.rs:1312-1350 | chained pieces cover every buffer position exactly once |
| `StageCache.StepOk` | components/storage/src/cache/file_cache.rs:246-361 | every step an operation may take is harmless: nothing acknowledged, indexed or cached is lost |
| `StageCache.Undisturbed` | components/storage/src/cache/file_cache.rs:246-361 | whatever step anyone takes, what another operation relies on still holds |
| `StageCache.MigStepOk` | components/storage/src/cache/file_cache.rs:572-667 | each step of a migration keeps the block somewhere, and one that returns leaves it remote or superseded; what a whole migration does is `StageOutcomes.MigrationAchieves` and `StageOutcomes.DeleteIsEarned` |
| `StageCache.StageStepOk` | components/storage/src/cache/file_cache.rs:274-322 | each step of staging keeps what it needs, through the policy cache's hits and evictions |
| `StageCache.GetStepOk` | components/storage/src/cache/file_cache.rs:246-272 | each step of a read, storage errors included, gives the staged bytes, a confirmed remote copy or an error, and never finds an acknowledged block lost |
| `StageCache.SyncStepOk` | components/vfs/src/writer.rs:517-539 | each step of a sync keeps every slice it has passed fully remote |
| `StageCache.StepBalanced` | components/storage/src/cache/file_cache.rs:370-445 | each step moves the byte counter by exactly what moves between the index and the operation's own account |
| `StageCache.RestartOk` | components/storage/src/cache/file_cache.rs:481-514 | a crash at any moment, failed recoveries and a successful one keep the invariant; a successful one indexes exactly the local directory |
| `StageCache.NextOk` | components/storage/src/cache/file_cache.rs:274-322 | every action of the whole system keeps the invariant |
| `StageCache.StageDurability` | components/storage/src/cache/file_cache.rs:274-322 | once stage has returned Ok, the block is local or remote with exactly its bytes in every later state, crashes, failed recoveries and restarts included, and while the cache is up it is remote once it has left the index |
| `StageCache.ReadThrough` | components/storage/src/cache/file_cache.rs:246-272 | a read begun after stage returned never reports the block lost: unless storage answers with an error it yields the staged bytes, or nothing with the remote copy in place |
| `StageCache.FsyncMeansRemote` | components/vfs/src/writer.rs:517-539 | a finished sync makes every slice published before it fully remote; a published slice that is not fully remote is always still in the retry set |
| `StageCache.ByteConservation` | components/storage/src/cache/file_cache.rs:370-445 | the counter equals indexed bytes plus reservations plus removals not yet subtracted, never underflows, and is bounded by the configured maximum or what recovery found |
| `StageOutcomes.MigrationAchieves` | components/storage/src/cache/file_cache.rs:572-667 | a migration of a current entry that runs alone and without an error leaves the block remote with its content, neither local nor indexed, the byte counter lower by its size, and changes nothing else |
| `StageOutcomes.MigrationCompletes` | components/storage/src/cache/file_cache.rs:572-667 | a local block with a current entry can be migrated that way |
| `StageOutcomes.DeleteIsEarned` | components/storage/src/cache/file_cache.rs:572-667 | whatever others do in between, a migration deletes a local block only after it found its own generation indexed, uploaded the block and saw all of it in remote storage |
| `StageOutcomes.OwnGenerationOnly` | components/storage/src/cache/file_cache.rs:572-614 | a migration never takes an entry of another key or generation out of the index, and gives bytes back only for its own |
| `StageOutcomes.StageAchieves` | components/storage/src/cache/file_cache.rs:274-322 | a stage that runs alone and succeeds leaves the block indexed under its policy generation, acknowledged and accounted for, local under a new generation unless the policy cache had it; a second one only acknowledges |
| `StageOutcomes.StageCompletes` | components/storage/src/cache/file_cache.rs:274-322 | with room, a new block can be staged that way |
| `StageOutcomes.ReadAchieves` | components/storage/src/cache/file_cache.rs:246-272 | a read that runs alone gives a local block its bytes and changes nothing; a block gone remote leaves the index and gives its bytes back |
| `StageOutcomes.ReadCompletes` | components/storage/src/cache/file_cache.rs:246-272 | a block that is local, or confirmed in remote storage, can be read that way |
| `StageOutcomes.SyncAchieves` | components/vfs/src/writer.rs:517-539 | a sync that runs alone and succeeds takes every slice it started with out of the retry set, and leaves none of their blocks indexed or local |
| `RangeMaps.InsertOverwrites` | components/types/src/slice.rs:94-103 | insertion keeps the map sorted and overwrites exactly its own range |
| `RangeMaps.GapsAreHoles` | components/vfs/src/reader.rs:203-207 | the gaps of a range are exactly the positions the map says nothing about |
| `RangeMaps.Chain` | components/vfs/src/reader.rs:225-277 | a map defined on exactly a range is a chain of touching pieces |
| `Reader.ReadSlice` | components/vfs/src/reader.rs:323-428 | succeeds when the blocks are there; its count is exactly the number of positions from the offset on that the slice has and the buffer has room for, each filled with the slice's byte, and nothing else is touched |
| `Reader.FetchRange` | components/vfs/src/reader.rs:366-411 | part of a block, from local disk if staged there, else from the memory cache, else remote, in that order; fails exactly when the store errs or the block is absent or short, and says not found exactly when it is absent |
| `Reader.Overlook` | components/types/src/slice.rs:94-103 | inserting the records in commit order leaves the last covering record at every position |
| `Reader.VirtualMap` | components/vfs/src/reader.rs:195-223 | exactly the requested range, each position showing its record, or nothing for a gap or hole |
| `Reader.ReadChunk` | components/vfs/src/reader.rs:195-277 | each byte is the one of the last committed record covering it, or zero; nothing outside the range is written |
| `Reader.GapReadsZero` | components/vfs/src/reader.rs:195-277 | a position no record covers reads as zero |
| `Reader.LastRecordWins` | components/vfs/src/reader.rs:195-277 | a covered position reads as the last record covering it says: zero for a hole, otherwise the byte of its slice as far from the slice's chunk position as the position is |
| `Reader.Read` | components/vfs/src/reader.rs:148-281 | for any chunk size: byte `k` is returned if and only if it fits the buffer and position `offset + k` is inside the file, across chunks, each from the last committed covering record or zero; an empty answer for any touched chunk makes it zero bytes |
| `SliceCodec.DecodeEncode` | components/types/src/slice.rs:182-189 | a record decodes to the slice it encodes |
| `SliceCodec.EncodeDecode` | components/types/src/slice.rs:111-135 | a record that decodes is the encoding of its value |
| `SliceCodec.RecordLayout` | components/types/src/slice.rs:111-135 | which byte of a record is which byte of which field, lowest first |
| `SliceCodec.DecodeAll` | components/types/src/slice.rs:77-91 | succeeds on exactly the buffers that encode a list, and gives that list |
| `SliceCodec.StagedIsAppendNew` | components/meta/src/backend/rocksdb.rs:485-499 | staging on stored bytes is append-if-absent on the decoded list |
| `SliceKeyCodec.ParsePrinted` | components/types/src/slice.rs:310-339 | every key parses back from its path |
| `SliceKeyCodec.AcceptedIsPrinted` | components/types/src/slice.rs:310-339 | a string is accepted if and only if it is the path of a key, and then of the key returned |
| `SliceKeyCodec.PathsAreDistinct` | components/types/src/slice.rs:281-283 | distinct blocks have distinct local and remote paths |
| `SliceKeyCodec.FieldForm` | components/types/src/slice.rs:245-258 | a printed field consists of 0-9 and A-F, is at least eight digits wide and no wider than needed |
| `SliceKeyCodec.PathForm` | components/types/src/slice.rs:245-258 | an object path is the word chunks and five fields: the id in millions, in thousands and in full, the block index and the size |
| `MetadataStore.StageChunkSlice` | components/meta/src/backend/rocksdb.rs:462-500 | fails exactly on a damaged length; otherwise the record is appended unless present, with the resulting count |
| `MetadataStore.Metadata.CommitSlice` | components/meta/src/backend/rocksdb.rs:415-460 | the exact error conditions, nothing changed on error; otherwise the record is there, every position it covers is inside the file, a file that grew ends where the record ends, the growth is the one reported, and the time is set if anything changed |
| `MetadataStore.CommitCovers` | components/meta/src/backend/rocksdb.rs:442-452 | after a commit every position the record covers is inside the file, and a file that grew ends with a position it covers |
| `MetadataStore.Metadata.GetChunkSlices` | components/meta/src/backend/rocksdb.rs:910-941 | the decoded records, or NotFound for no entry and an error for an empty or undecodable one |
| `MetadataStore.StageHoles` | components/meta/src/backend/rocksdb.rs:1330-1341 | the loop ends with exactly one hole staged in every chunk of [old, new), and fails exactly when one of them is damaged |
| `MetadataStore.HolesPartition` | components/meta/src/backend/rocksdb.rs:1330-1341 | each hole lies inside its chunk and covers exactly the chunk's positions in [old, new) |
| `MetadataStore.Metadata.Truncate` | components/meta/src/backend/rocksdb.rs:1299-1350 | which error in which case, in order, with nothing changed; otherwise the holes, the new length and the returned attributes |
| `MetadataRuns.PublicationRefinesList` | components/meta/src/backend/rocksdb.rs:415-500 | over any commits each chunk decodes to its records followed by the new ones without repetition; every position a committed slice covers is inside the file, and the length is the old one or the end of some slice in its chunk, growing by exactly what is reported |
| `MetadataRuns.FirstOccurrences` | components/meta/src/backend/rocksdb.rs:488-491 | the resulting list keeps the earlier records and puts behind them, in order, exactly the first occurrence of each committed slice that was not among them |
| `MetadataRuns.ReplayIsIdempotent` | components/meta/src/backend/rocksdb.rs:943-963 | committing any earlier slice again changes nothing, not even the times |
| `MetadataRuns.OtherFilesKept` | components/meta/src/backend/rocksdb.rs:415-460 | commits to one file leave every other file's records and attributes alone |
| `MetadataRuns.HolesInRecords` | components/meta/src/backend/rocksdb.rs:1330-1341 | the staged holes appear in the decoded lists as append-if-absent |
| `MetadataRuns.GrownView` | components/meta/src/backend/rocksdb.rs:1326-1341 | growing changes no position outside the new part; inside it a position reads as zero unless its hole was dropped |
| `MetadataRuns.ZeroFillExact` | components/meta/src/backend/rocksdb.rs:488-498 | the new part is all zero if and only if no position in a dropped hole showed a record |
| `MetadataRuns.RegrownFileShowsOldBytes` | components/meta/src/backend/rocksdb.rs:488-491 | grow, write, shrink, grow again shows the written bytes |
| `IdTables.IdTable.Next` | components/meta/src/id_table.rs:47-62 | refill and skip loop hand out the specified id; an error changes neither table nor counter |
| `IdTables.Backend.IncreaseCountBy` | components/meta/src/backend/rocksdb.rs:706-743 | an absent counter counts from zero, an unreadable one and a failed transaction change nothing and say so, otherwise it grows by the step and its new value is returned |
| `IdTables.UniqueExactly` | components/meta/src/id_table.rs:47-62 | over all runs of any number of tables, lost ones included, ids are at least 2 and pairwise distinct if and only if the step is at least 3 |
| `IdTables.NoIdWasted` | components/meta/src/id_table.rs:47-62 | a single table hands out 2, 3, 4 and so on without a gap, over any number of refills and failures |
| `IdTables.TwoTables` | components/meta/src/backend/key.rs:67-74 | two tables asked once each hand out 2 and max(2, step) |
| `TaskRegistry.DrainMissesNoTask` | components/storage/src/task_registry.rs:73-157 | once draining has begun every task not yet completing has its handle registered or was aborted; a completed task leaves no handle; abort_all aborts every handle |
| `TaskRegistry.NoneAdmittedLater` | components/storage/src/task_registry.rs:124-137 | after draining has begun no task is ever added |
| `TaskRegistry.TasksAddUp` | components/storage/src/task_registry.rs:175-186 | spawned equals active plus completed plus guards between the two counters, up to one spawn mid-way |
| `TaskRegistry.NextKeeps` | components/storage/src/task_registry.rs:73-186 | every step of spawn, completion, drain and abort keeps the invariant |
| `TaskRegistry.SpawnStarts` | components/storage/src/task_registry.rs:73-122 | while tasks are accepted a spawn starts one, counted and with its handle registered |
| `TaskRegistry.TaskCompletes` | components/storage/src/task_registry.rs:175-186 | a running task can complete: its handle goes and it moves from active to completed |
| `TaskRegistry.DrainCloses` | components/storage/src/task_registry.rs:124-157 | draining closes the registry, a closed one refuses, and aborting takes every handle of a task that is not over |
| `Lifecycle.CountIsExact` | components/vfs/src/lifecycle.rs:161-171 | the counter is live guards plus operations between counting themselves and settling |
| `Lifecycle.NeverReadyAgain` | components/vfs/src/lifecycle.rs:114-159 | a mount that has left Ready never returns to it, and its guards only go |
| `Lifecycle.DrainBarrier` | components/vfs/src/lifecycle.rs:161-185 | past Ready, a zero count means no guard is live then or ever after |
| `Lifecycle.LastReleaseIsNotMissed` | components/vfs/src/lifecycle.rs:177-198 | a waiter asleep without its notification still has a counted operation or one about to notify |
| `Lifecycle.ReadyAdmits` | components/vfs/src/lifecycle.rs:161-171 | a ready mount admits an operation, counts it, and releases it again |
| `Lifecycle.OthersRefuse` | components/vfs/src/lifecycle.rs:161-171 | a mount that is not ready refuses one, at once or after taking the count back |
| `Lifecycle.DrainBegins` | components/vfs/src/lifecycle.rs:130-149 | a mount that is neither draining nor stopped can begin to drain |
| `Lifecycle.StoppedNeverDrains` | components/vfs/src/lifecycle.rs:130-149 | in every run, however late a drain's exchange comes, a stopped mount stays stopped or fails |
| `Lifecycle.Transitions` | components/vfs/src/lifecycle.rs:114-159 | where each transition leaves the mount, and that nothing else moves it |
| `Lifecycle.LastReleaseWakes` | components/vfs/src/lifecycle.rs:177-198 | a notification reaches every waiter, and a waiter that finds the count at zero returns |
| `EndToEnd.ReadBack` | components/storage/src/slice_buffer.rs:45-130 | any range of a stored slice reads back as exactly its bytes, as many as exist and fit |
| `EndToEnd.WrittenIsReadBack` | components/storage/src/slice_buffer.rs:45-137 | after any run of writes and flushes, reading the slice gives the flat array of the writes |
| `EndToEnd.WriteThenRead` | components/vfs/src/writer.rs:1038-1103 | for every run without a premature idle commit and without a lossy restart, publishing a slice makes the chunk read as exactly the bytes written where it lies, and changes nothing else |
| `EndToEnd.AcknowledgedIsBacked` | components/storage/src/cache/file_cache.rs:274-322 | acknowledged blocks stay where a reader looks, unchanged, through every run of the stage cache |
| `EndToEnd.CommittedLast` | components/meta/src/backend/rocksdb.rs:415-460 | a committed record is the last one its chunk decodes to, and every position it covers is inside the file |
| `EndToEnd.WholePath` | components/vfs/src/reader.rs:148-281 | writer run, stage-cache run, commit and read together: the file reads as exactly the bytes written where the slice lies, all of it inside the file's length, and as before elsewhere in the chunk |

## Left out

- Block and page sizes, and the chunk size of the writing side and of truncation, are the compiled-in constants, as in the code. Splitting a write and reading a file take any chunk size; a mount whose configured chunk size differs from the writers' is not modelled beyond that.
- The order between overlapping slices that are not committed yet, and the choice among writable slices: any resting slice of the chunk may be taken.
- Requests to a flusher that has stopped, cancelled futures, and the limit of 1000 slice writers.
- Memory orderings weaker than sequential consistency.
- Updating blocks in place: a buffer's block row is a sequence the methods reassign, so aliasing of page memory is not modelled; a page has one owner by construction.
- Disk-backed pages, which are not cleared when recycled; the pool is the memory pool.
- `read_at` of the slice buffer, used by its own assertions only.
- How the memory cache is filled and emptied, and the order in which the blocks of one read are fetched; what it holds is a block as it is.
- Coalescing of equal neighbours in the interval map, which no lookup can see.
- Partial writes of local and remote objects: a put happens or fails as a whole, and a key determines its bytes.
- The lock that serialises migrations of one generation, retry delays and pressure scheduling; the model allows more interleavings instead.
- Staging a block of a slice that is already published; a published slice is done and stages nothing more.
- Why a recovery stops with an error: the names of incomplete stage files.
- Corrupt attributes and failing transactions in the metadata store; times and the answer of the access check are parameters. A length always fits the platform's word, so truncation never reports a file too big.
- Wrap-around of 64-bit file positions, lengths and counters.
- IdTables.Backend.IncreaseCountBy: reads and writes the counter in one step, because one table holds its lock across the call; two processes increasing one counter are not modelled.
- Decoding a whole record buffer reports one error for a bad length and for a bad record.
- Namespace operations, link counts, open-file caching, reader/writer exclusion on handles, and reference counting of file writers.
- FUSE, mount and format commands, configuration, logging and metrics.
- Borrowed slices are decoded and read; nothing constructs them.
- Reader.Read: a chunk lookup that fails is returned as its error; which chunk failed is not stated.
