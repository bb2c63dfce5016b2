/** From writing a slice to reading it back: the components' theorems put together. */
module EndToEnd {
  import opened Common
  import opened SliceTypes
  import opened SliceCodec
  import opened Reader
  import BufferModel
  import Publication
  import MetadataRuns
  import MetadataStore
  import StageCache

  /** Wherever the blocks are by now, on local disk or remote, they are the ones staged. */
  ghost predicate Backed(blocks: Blocks, staged: map<SliceKey, seq<byte>>) {
    forall key :: key in staged ==> blocks.Has(key) && blocks.Get(key) == staged[key]
  }

  /** The record a slice writer at `chunkPos` publishes. */
  function RecordOf(w: Publication.Writer, chunkPos: nat): Slice
    requires w.record.Some?
  {
    Owned(chunkPos, w.id, w.record.value, 0)
  }

  lemma StoredHolds(blocks: Blocks, staged: map<SliceKey, seq<byte>>, id: nat, content: seq<byte>)
    requires Backed(blocks, staged) && Stored(staged, id, content)
    ensures blocks.Holds(id, |content|)
  {
    forall b | 0 <= b < BlockCount(|content|)
      ensures blocks.Has(BlockKey(id, |content|, b)) && |blocks.Get(BlockKey(id, |content|, b))| == ObjectBlockSize(|content|, b)
    {
      assert BlockStored(staged, id, content, b);
    }
  }

  lemma StoredByte(blocks: Blocks, staged: map<SliceKey, seq<byte>>, id: nat, content: seq<byte>, i: nat)
    requires Backed(blocks, staged) && Stored(staged, id, content) && i < |content|
    ensures blocks.SliceByte(id, |content|, i) == content[i]
  {
    assert BlockStored(staged, id, content, i / BLOCK_SIZE);
  }

  /** Reading any range of a stored slice back gives exactly its bytes. */
  method ReadBack(id: nat, objects: map<SliceKey, seq<byte>>, ghost content: seq<byte>, length: nat, offset: nat, dst: array<byte>)
    returns (r: Result<nat>)
    requires Stored(objects, id, content) && length == |content| <= CHUNK_SIZE
    modifies dst
    ensures r == Ok(ReadLen(length, offset, dst.Length)) && CountsReach(r.value, length, offset, dst.Length)
    ensures forall k :: 0 <= k < r.value ==> dst[k] == content[offset + k]
    ensures forall k :: r.value <= k < dst.Length ==> dst[k] == old(dst[k])
  {
    var blocks := Blocks(map[], map[], objects, {});
    StoredHolds(blocks, objects, id, content);
    r := ReadSlice(id, blocks, length, offset, dst, 0, dst.Length);
    forall k | 0 <= k < r.value
      ensures dst[k] == content[offset + k]
    {
      StoredByte(blocks, objects, id, content, offset + k);
    }
  }

  /** The round trip: after any run of writes and bulk flushes ended by one completed flush,
      byte `i` of the slice read from object storage is byte `i` of the flat array. */
  lemma WrittenIsReadBack(id: nat, ops: seq<BufferModel.Op>, trace: seq<BufferModel.Config>, i: nat)
    requires BufferModel.IsRun(id, ops, trace) && i < |BufferModel.Contents(ops)|
    ensures var last := trace[|ops|];
            var pending := BufferModel.PendingBlocks(last.buf, BufferModel.RoundUp(last.buf.length));
            var blocks := Blocks(map[], map[], BufferModel.PutAll(last.store, id, last.buf, pending).objects, {});
            && blocks.Holds(id, |BufferModel.Contents(ops)|)
            && blocks.SliceByte(id, |BufferModel.Contents(ops)|, i) == BufferModel.Contents(ops)[i]
  {
    BufferModel.RunThenFlush(id, ops, trace);
    var last := trace[|ops|];
    var pending := BufferModel.PendingBlocks(last.buf, BufferModel.RoundUp(last.buf.length));
    var objects := BufferModel.PutAll(last.store, id, last.buf, pending).objects;
    StoredHolds(Blocks(map[], map[], objects, {}), objects, id, BufferModel.Contents(ops));
    StoredByte(Blocks(map[], map[], objects, {}), objects, id, BufferModel.Contents(ops), i);
  }

  /** No idle commit was premature and no write lost bytes. */
  ghost predicate Undamaged(events: seq<Publication.Event>, trace: seq<Publication.Writer>, n: nat)
    requires n <= |events| < |trace|
  {
    Publication.Lossless(events, trace, n) && forall j :: 0 <= j < n ==> !Publication.Premature(trace[j], events[j])
  }

  /** Appending the published record to any chunk's records changes what the chunk reads as to
      exactly the bytes written, and changes nothing else. */
  lemma WriteThenRead(events: seq<Publication.Event>, trace: seq<Publication.Writer>, n: nat, chunkPos: nat,
                      records: seq<Slice>, blocks: Blocks, pos: nat)
    requires Publication.IsRun(events, trace) && n < |trace| && trace[n].record.Some? && Undamaged(events, trace, n)
    requires Backed(blocks, trace[n].staged) && AllWellFormed(records)
    ensures var s := RecordOf(trace[n], chunkPos);
            && AllWellFormed(records + [s]) && s.id != EMPTY_SLICE_ID
            && blocks.Holds(s.id, s.size)
            && s.Size() == |trace[n].content|
            && ChunkByte(records + [s], blocks, pos) ==
               if s.Covers(pos) then trace[n].content[pos - chunkPos] else ChunkByte(records, blocks, pos)
  {
    Publication.PublicationExact(events, trace, n);
    var w, s := trace[n], RecordOf(trace[n], chunkPos);
    StoredHolds(blocks, w.staged, w.id, w.content);
    MetadataRuns.WinnerOfAppended(records, s, pos);
    if s.Covers(pos) { StoredByte(blocks, w.staged, w.id, w.content, pos - chunkPos); }
  }

  /** What a reader sees of a stage cache, with a memory cache that holds blocks as they are. */
  function SeenBlocks(shared: StageCache.Shared, memory: map<SliceKey, seq<byte>>, failing: set<SliceKey>): Blocks {
    Blocks(shared.local, memory, shared.remote, failing)
  }

  ghost predicate Acknowledged(c: StageCache.Config, shared: StageCache.Shared, staged: map<SliceKey, seq<byte>>) {
    forall key :: key in staged ==> key in shared.durable && staged[key] == c.content(key)
  }

  /** In every state of every run of the stage cache, crashes and restarts included, blocks
      whose staging was acknowledged are where a reader looks, unchanged. */
  lemma AcknowledgedIsBacked(c: StageCache.Config, labels: seq<StageCache.Label>, trace: seq<StageCache.State>,
                             m: nat, n: nat, staged: map<SliceKey, seq<byte>>, memory: map<SliceKey, seq<byte>>, failing: set<SliceKey>)
    requires StageCache.IsRun(c, labels, trace) && m <= n < |trace| && Acknowledged(c, trace[m].shared, staged)
    requires forall key :: key in memory ==> memory[key] == c.content(key)
    ensures Backed(SeenBlocks(trace[n].shared, memory, failing), staged)
  {
    forall key | key in staged
      ensures var blocks := SeenBlocks(trace[n].shared, memory, failing);
              blocks.Has(key) && blocks.Get(key) == staged[key]
    {
      StageCache.StageDurability(c, labels, trace, m, n, key);
    }
  }

  /** A published record in the metadata store: its chunk decodes to the earlier records with
      the new one last, and the file reaches its end. */
  lemma CommittedLast(db: MetadataStore.Db, ino: nat, chunk: nat, records: seq<Slice>, s: Slice, now: nat)
    requires ino in db.attrs && Encodes(MetadataStore.Raw(db.chunks, ino, chunk), records) && Fits(s) && s !in records
    ensures var after := MetadataStore.Commit(db, ino, chunk, s, now);
            && Encodes(MetadataStore.Raw(after.chunks, ino, chunk), records + [s])
            && (forall pos: nat :: s.Covers(pos) ==> chunk * CHUNK_SIZE + pos < after.attrs[ino].length)
  {
    StagedIsAppendNew(MetadataStore.Raw(db.chunks, ino, chunk), records, s);
    MetadataStore.AddRecordStages(db.chunks, ino, chunk, s);
  }

  /** The whole path. A slice is written, flushed and retried in any run of its writer that was
      not damaged; its blocks were acknowledged by a stage cache that has gone through anything
      since; its record is committed to a file's chunk. Then the chunk decodes to the records
      before it and this one, and reading the file there gives exactly the bytes written, and
      elsewhere in the chunk what it gave before. */
  lemma WholePath(events: seq<Publication.Event>, trace: seq<Publication.Writer>, n: nat,
                  c: StageCache.Config, labels: seq<StageCache.Label>, states: seq<StageCache.State>, m: nat, k: nat,
                  memory: map<SliceKey, seq<byte>>, failing: set<SliceKey>,
                  db: MetadataStore.Db, ino: nat, chunk: nat, chunkPos: nat, records: seq<Slice>, now: nat,
                  chunks: ChunkIndex, pos: nat)
    requires Publication.IsRun(events, trace) && n < |trace| && trace[n].record.Some? && Undamaged(events, trace, n)
    requires StageCache.IsRun(c, labels, states) && m <= k < |states| && Acknowledged(c, states[m].shared, trace[n].staged)
    requires forall key :: key in memory ==> memory[key] == c.content(key)
    requires ino in db.attrs && Encodes(MetadataStore.Raw(db.chunks, ino, chunk), records) && AllWellFormed(records)
    requires Fits(RecordOf(trace[n], chunkPos)) && forall r :: r in records ==> r.id != trace[n].id
    requires ValidMeta(chunks) && pos / CHUNK_SIZE == chunk
    ensures var s := RecordOf(trace[n], chunkPos);
            var after := MetadataStore.Commit(db, ino, chunk, s, now);
            var blocks := SeenBlocks(states[k].shared, memory, failing);
            var chunks' := chunks[chunk := Found(records + [s])];
            && Encodes(MetadataStore.Raw(after.chunks, ino, chunk), records + [s])
            && (s.Covers(pos % CHUNK_SIZE) ==> pos < after.attrs[ino].length)
            && ValidMeta(chunks') && blocks.Holds(s.id, s.size) && s.Size() == |trace[n].content|
            && FileByte(CHUNK_SIZE, chunks', blocks, pos) ==
               if s.Covers(pos % CHUNK_SIZE) then trace[n].content[pos % CHUNK_SIZE - chunkPos]
               else ChunkByte(records, blocks, pos % CHUNK_SIZE)
  {
    var s := RecordOf(trace[n], chunkPos);
    CommittedLast(db, ino, chunk, records, s, now);
    AcknowledgedIsBacked(c, labels, states, m, k, trace[n].staged, memory, failing);
    WriteThenRead(events, trace, n, chunkPos, records, SeenBlocks(states[k].shared, memory, failing), pos % CHUNK_SIZE);
  }
}
