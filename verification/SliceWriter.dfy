/** A slice writer as the object it is: what each of its methods does between taking the slice
    out of a resting state and putting it back (components/vfs/src/writer.rs). Every method is
    a step of Publication; the id table's and the metadata store's answers are parameters. */
module SliceWriters {
  import opened Common
  import opened SliceTypes
  import opened BufferModel
  import opened SliceBuffers
  import P = Publication

  datatype State = Idle | Writing | Dirty | Flushing | Committing | Done

  predicate Resting(s: State) { s == Idle || s == Dirty }

  datatype FlushReq = FlushBulk(offset: nat) | FlushFull | CommitIdle

  function PhaseOf(s: State): P.Phase { if s == Idle then P.Idle else if s == Done then P.Done else P.Dirty }

  class SliceWriter {
    const buffer: SliceBuffer
    const cache: StageArea
    var state: State
    var sliceId: nat
    var record: Option<nat>           // the size in the published record
    ghost var content: seq<byte>      // what has been written

    /** There is something to flush whenever a flush may be asked for. */
    ghost predicate Valid()
      reads this, buffer, buffer.pool
    {
      buffer.Valid() && (state == Dirty || state == Flushing ==> buffer.length > 0)
    }

    /** The writer as publication sees it, taken to rest in `s`. */
    ghost function SeenAs(s: State): P.Writer
      reads this, buffer, cache
    {
      P.Writer(PhaseOf(s), sliceId, buffer.State(), cache.staged, record, content)
    }

    constructor (pool: MemoryPagePool, cache: StageArea)
      requires pool.Valid()
      ensures Valid() && state == Writing && this.cache == cache && buffer.pool == pool && fresh(buffer)
      ensures SeenAs(Idle) == P.NewWriter(cache.staged)
    {
      buffer := new SliceBuffer(pool);
      this.cache := cache;
      state, sliceId, record, content := Writing, EMPTY_SLICE_ID, None, [];
    }

    /** A write into a claimed slice: it goes back to where it was found if the buffer refuses,
        and becomes dirty otherwise. Slices are claimed for offsets up to their length. */
    method WriteAt(before: State, off: nat, data: seq<byte>) returns (r: Result<nat>)
      requires Valid() && state == Writing && Resting(before) && (before == Dirty ==> buffer.length > 0)
      requires off <= buffer.length
      modifies this`state, this`content, buffer, buffer.pool
      ensures Valid() && state == if r.Ok? && data != [] then Dirty else before
      ensures r.Err? || data == [] ==> SeenAs(state) == old(SeenAs(before))
      ensures r.Ok? && data != [] ==> r.value == |data| && P.Step(old(SeenAs(before)), P.Append(off, data), SeenAs(state))
    {
      r := buffer.WriteAt(off, data);
      if r.Err? {
        state := before;
        return;
      }
      state := if r.value == 0 then before else Dirty;
      content := Overlay(content, off, data);
    }

    /** Takes a resting slice out for the flusher. `seen`, `length` and `flushed` are what the
        caller loaded before; the state is only exchanged if it is still the one seen, and the
        slice may have grown or been flushed meanwhile. A finishing caller asks for a commit of
        an idle slice and a full flush of a dirty one; a writer asks for a full flush when the
        chunk is full, and for a bulk flush when a whole block is pending and the pattern is
        not sequential. */
    method MakeFlushReq(seen: State, length: nat, flushed: nat, sequential: bool, finish: bool) returns (req: Option<FlushReq>)
      requires Valid() && flushed <= length <= buffer.length
      modifies this`state
      ensures Valid()
      ensures req == Some(CommitIdle) <==> old(state) == seen == Idle && finish
      ensures req == Some(FlushFull) <==> old(state) == seen == Dirty && (finish || length == CHUNK_SIZE)
      ensures req == Some(FlushBulk(length)) <==>
                old(state) == seen == Dirty && !finish && length != CHUNK_SIZE && length - flushed >= BLOCK_SIZE && !sequential
      ensures req.Some? && req.value.FlushBulk? ==> req.value.offset == length
      ensures state == if req.None? then old(state) else if req.value.CommitIdle? then Committing else Flushing
    {
      match seen
      case Idle =>
        if finish && state == Idle {
          state := Committing;
          return Some(CommitIdle);
        }
        return None;
      case Dirty =>
        if state != Dirty {
          return None;
        } else if finish || length == CHUNK_SIZE {
          state := Flushing;
          return Some(FlushFull);
        } else if length - flushed >= BLOCK_SIZE && !sequential {
          state := Flushing;
          return Some(FlushBulk(length));
        }
        return None;
      case _ =>
        return None;
    }

    /** The slice's id, taken from the table's answer the first time. */
    method PrepareSliceId(next: Result<nat>) returns (r: Result<nat>)
      modifies this`sliceId
      ensures r.Err? <==> old(sliceId) == EMPTY_SLICE_ID && next.Err?
      ensures r.Err? ==> sliceId == old(sliceId)
      ensures r.Ok? ==> r.value == sliceId == if old(sliceId) != EMPTY_SLICE_ID then old(sliceId) else next.value
    {
      if sliceId != EMPTY_SLICE_ID {
        return Ok(sliceId);
      }
      if next.Ok? { sliceId := next.value; }
      return next;
    }

    /** The flusher's bulk flush, its failure put back to dirty. The offset is the length the
        request was made at; the slice may have grown or been flushed since. */
    method BulkFlush(next: Result<nat>, offset: nat) returns (ok: bool, ghost n: nat)
      requires Valid() && state == Flushing && offset <= buffer.length
      requires next.Ok? ==> P.FreshId(SeenAs(Dirty), next.value)
      modifies this`state, this`sliceId, buffer, buffer.pool, cache
      ensures Valid() && state == if ok then Idle else Dirty
      ensures if old(sliceId) == EMPTY_SLICE_ID && next.Err? then !ok && SeenAs(state) == old(SeenAs(Dirty))
              else P.Step(old(SeenAs(Dirty)), P.BulkFlush(if next.Ok? then next.value else old(sliceId), offset, n), SeenAs(state))
    {
      var id := PrepareSliceId(next);
      if id.Err? {
        state := Dirty;
        return false, 0;
      }
      var staged;
      staged, n := buffer.Stage(id.value, offset, cache);
      ok := staged.Ok?;
      state := if ok then Idle else Dirty;
    }

    /** The flusher's full flush and commit. Only a complete stage is committed; a failure of
        either puts the slice back to dirty. The flushed mark is within the length, as
        Publication.Follows has it. */
    method FlushAndCommit(next: Result<nat>, committed: bool) returns (ok: bool, ghost n: nat)
      requires Valid() && state == Flushing && buffer.flushedLength <= buffer.length
      requires next.Ok? ==> P.FreshId(SeenAs(Dirty), next.value)
      modifies this`state, this`sliceId, this`record, buffer, buffer.pool, cache
      ensures Valid() && state == if ok then Done else Dirty
      ensures if old(sliceId) == EMPTY_SLICE_ID && next.Err? then !ok && SeenAs(state) == old(SeenAs(Dirty))
              else P.Step(old(SeenAs(Dirty)), P.FullFlush(if next.Ok? then next.value else old(sliceId), n, committed), SeenAs(state))
    {
      var id := PrepareSliceId(next);
      if id.Err? {
        state := Dirty;
        return false, 0;
      }
      var staged;
      var end := ((buffer.length - 1) / BLOCK_SIZE + 1) * BLOCK_SIZE;
      assert end == RoundUp(buffer.length) && buffer.length <= end <= CHUNK_SIZE;
      staged, n := buffer.Stage(id.value, end, cache);
      ok := staged.Ok? && committed;
      if ok { record := Some(buffer.length); }
      state := if ok then Done else Dirty;
    }

    /** The flusher's commit of an idle slice: an empty one is dropped without a record. */
    method CommitPartial(committed: bool) returns (ok: bool)
      requires Valid() && state == Committing
      modifies this`state, this`record
      ensures Valid() && state == if ok then Done else Idle
      ensures ok <==> committed || buffer.length == 0
      ensures P.Step(old(SeenAs(Idle)), P.CommitIdle(ok), SeenAs(state))
    {
      if buffer.length != 0 {
        if !committed {
          state := Idle;
          return false;
        }
        record := Some(buffer.length);
      }
      state := Done;
      return true;
    }
  }
}
