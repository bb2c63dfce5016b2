/** Publishing slice records and changing a file's length in the metadata store
    (components/meta/src/backend/rocksdb.rs). A transaction works on the values it read and
    writes them back at commit; an error drops it. */
module MetadataStore {
  import opened Common
  import opened SliceTypes
  import opened SliceCodec

  /** An inode's attributes; `fixed` is the immutable or append-only flag. */
  datatype Attr = Attr(isFile: bool, fixed: bool, length: nat, mtime: nat)

  /** Raw slice records by inode and chunk. */
  type ChunkTable = map<(nat, nat), seq<byte>>

  datatype Db = Db(attrs: map<nat, Attr>, chunks: ChunkTable)

  function Raw(chunks: ChunkTable, ino: nat, c: nat): seq<byte> {
    if (ino, c) in chunks then chunks[(ino, c)] else []
  }

  predicate Aligned(chunks: ChunkTable, ino: nat, c: nat) { |Raw(chunks, ino, c)| % SLICE_BYTES == 0 }

  // ---- one record -----------------------------------------------------------------

  datatype StageResult = StageResult(chunks: ChunkTable, inserted: bool, count: nat)

  function AddRecord(chunks: ChunkTable, ino: nat, c: nat, s: Slice): ChunkTable {
    if HasRecord(Raw(chunks, ino, c), Encode(s)) then chunks else chunks[(ino, c) := Raw(chunks, ino, c) + Encode(s)]
  }

  method FindRecord(raw: seq<byte>, record: seq<byte>) returns (found: bool)
    ensures found <==> HasRecord(raw, record)
  {
    var i := 0;
    while i < |raw| / SLICE_BYTES
      invariant 0 <= i <= |raw| / SLICE_BYTES
      invariant forall j :: 0 <= j < i ==> Record(raw, j) != record
    {
      if Record(raw, i) == record {
        return true;
      }
      i := i + 1;
    }
    return false;
  }

  /** Appends the record to the chunk's unless it is there. */
  method StageChunkSlice(chunks: ChunkTable, ino: nat, c: nat, s: Slice) returns (r: Result<StageResult>)
    ensures r.Err? <==> !Aligned(chunks, ino, c)
    ensures r.Err? ==> r.error == Corruption
    ensures r.Ok? ==> && r.value.chunks == AddRecord(chunks, ino, c, s)
                      && (r.value.inserted <==> !HasRecord(Raw(chunks, ino, c), Encode(s)))
                      && |Raw(r.value.chunks, ino, c)| == SLICE_BYTES * r.value.count
  {
    var raw := Raw(chunks, ino, c);
    if |raw| % SLICE_BYTES != 0 {
      return Err(Corruption);
    }
    var record := Encode(s);
    var found := FindRecord(raw, record);
    if found {
      return Ok(StageResult(chunks, false, |raw| / SLICE_BYTES));
    }
    raw := raw + record;
    return Ok(StageResult(chunks[(ino, c) := raw], true, |raw| / SLICE_BYTES));
  }

  lemma AddRecordStages(chunks: ChunkTable, ino: nat, c: nat, s: Slice)
    ensures forall i: nat, d: nat :: Raw(AddRecord(chunks, ino, c, s), i, d) ==
                                     if i == ino && d == c then Staged(Raw(chunks, i, d), s) else Raw(chunks, i, d)
  {
  }

  // ---- committing a slice -----------------------------------------------------------

  datatype CommitResult = CommitResult(grewBy: nat, count: nat, inserted: bool)

  function EndInFile(c: nat, s: Slice): nat { c * CHUNK_SIZE + s.End() }

  function GrewBy(length: nat, c: nat, s: Slice): nat { Max(0, EndInFile(c, s) - length) }

  function Commit(db: Db, ino: nat, c: nat, s: Slice, now: nat): Db
    requires ino in db.attrs
  {
    var attr := db.attrs[ino];
    var inserted := !HasRecord(Raw(db.chunks, ino, c), Encode(s));
    var grewBy := GrewBy(attr.length, c, s);
    Db(if inserted || grewBy != 0 then db.attrs[ino := attr.(length := attr.length + grewBy, mtime := now)] else db.attrs,
       AddRecord(db.chunks, ino, c, s))
  }

  /** After a commit every position the record covers is inside the file; a file that grew ends
      where the record ends, and one that did not keeps its length. */
  lemma CommitCovers(db: Db, ino: nat, c: nat, s: Slice, now: nat)
    requires ino in db.attrs
    ensures var length, length' := db.attrs[ino].length, Commit(db, ino, c, s, now).attrs[ino].length;
            && (forall pos: nat :: s.Covers(pos) ==> c * CHUNK_SIZE + pos < length')
            && length <= length'
            && (length < length' ==> length' == c * CHUNK_SIZE + s.ChunkPos() + s.Size())
            && (length < length' && s.Size() > 0 ==> c * CHUNK_SIZE < length' && s.Covers(length' - 1 - c * CHUNK_SIZE))
  {
  }

  /** The hole record that covers the part of [old, new) inside chunk `c`. */
  function HoleOf(old_: nat, new_: nat, c: nat): Slice
    requires Touched(old_, new_, c)
  {
    var lo, hi := Max(old_, c * CHUNK_SIZE), Min(new_, (c + 1) * CHUNK_SIZE);
    Owned(lo - c * CHUNK_SIZE, EMPTY_SLICE_ID, hi - lo, 0)
  }

  predicate Touched(old_: nat, new_: nat, c: nat) {
    old_ < new_ && c * CHUNK_SIZE < new_ && old_ < (c + 1) * CHUNK_SIZE
  }

  /** The holes of [old, new) staged in the chunks that [old, position) touches, nothing else
      changed. */
  ghost predicate HolesUpTo(chunks: ChunkTable, ino: nat, old_: nat, new_: nat, position: nat, chunks': ChunkTable)
    requires position <= Max(old_, new_)
  {
    forall i: nat, c: nat :: Raw(chunks', i, c) ==
                             if i == ino && Touched(old_, position, c) then Staged(Raw(chunks, i, c), HoleOf(old_, new_, c))
                             else Raw(chunks, i, c)
  }

  /** One hole record staged in each chunk [old, new) touches, nothing else changed. */
  ghost predicate HolesStaged(chunks: ChunkTable, ino: nat, old_: nat, new_: nat, chunks': ChunkTable) {
    HolesUpTo(chunks, ino, old_, new_, new_, chunks')
  }

  ghost predicate AllAligned(chunks: ChunkTable, ino: nat, old_: nat, new_: nat) {
    forall c: nat :: Touched(old_, new_, c) ==> Aligned(chunks, ino, c)
  }

  predicate LoopPosition(old_: nat, new_: nat, position: nat) {
    old_ <= position <= Max(old_, new_) && (position == old_ || position == new_ || position % CHUNK_SIZE == 0)
  }

  /** One turn of the hole loop. */
  method StageHole(ghost chunks: ChunkTable, ino: nat, ghost old_: nat, new_: nat, position: nat, now: ChunkTable)
    returns (r: Result<(ChunkTable, nat)>)
    requires LoopPosition(old_, new_, position) && position < new_
    requires HolesUpTo(chunks, ino, old_, new_, position, now) && AllAligned(chunks, ino, old_, position)
    ensures r.Err? ==> r.error == Corruption && !AllAligned(chunks, ino, old_, new_)
    ensures r.Ok? ==> && position < r.value.1 && LoopPosition(old_, new_, r.value.1)
                      && HolesUpTo(chunks, ino, old_, new_, r.value.1, r.value.0)
                      && AllAligned(chunks, ino, old_, r.value.1)
  {
    var chunkIndex, chunkPosition := position / CHUNK_SIZE, position % CHUNK_SIZE;
    var holeLength := Min(CHUNK_SIZE - chunkPosition, new_ - position);
    AlignedNext(chunks, ino, old_, new_, position, now);
    var staged := StageChunkSlice(now, ino, chunkIndex, Owned(chunkPosition, EMPTY_SLICE_ID, holeLength, 0));
    if staged.Err? {
      return Err(staged.error);
    }
    HolesNext(chunks, ino, old_, new_, position, now, holeLength, staged.value.chunks);
    return Ok((staged.value.chunks, position + holeLength));
  }

  /** The hole loop. It fails exactly when a touched chunk's records are damaged. */
  method StageHoles(chunks: ChunkTable, ino: nat, old_: nat, new_: nat) returns (r: Result<ChunkTable>)
    ensures r.Ok? ==> HolesStaged(chunks, ino, old_, new_, r.value)
    ensures r.Ok? <==> AllAligned(chunks, ino, old_, new_)
    ensures r.Err? ==> r.error == Corruption
  {
    if new_ <= old_ {
      return Ok(chunks);
    }
    var position, now := old_, chunks;
    while position < new_
      invariant LoopPosition(old_, new_, position)
      invariant HolesUpTo(chunks, ino, old_, new_, position, now) && AllAligned(chunks, ino, old_, position)
      decreases new_ - position
    {
      var step := StageHole(chunks, ino, old_, new_, position, now);
      if step.Err? {
        return Err(step.error);
      }
      now, position := step.value.0, step.value.1;
    }
    return Ok(now);
  }

  /** Each turn of the loop reaches one more chunk, with the hole that belongs there. */
  lemma HoleStep(old_: nat, new_: nat, position: nat)
    requires old_ <= position < new_ && (position == old_ || position % CHUNK_SIZE == 0)
    ensures var c := position / CHUNK_SIZE;
            var n := Min(CHUNK_SIZE - position % CHUNK_SIZE, new_ - position);
            && Touched(old_, new_, c) && !Touched(old_, position, c)
            && HoleOf(old_, new_, c) == Owned(position % CHUNK_SIZE, EMPTY_SLICE_ID, n, 0)
            && (position + n == new_ || (position + n) % CHUNK_SIZE == 0)
            && forall d: nat :: Touched(old_, position + n, d) <==> Touched(old_, position, d) || d == c
  {
  }

  lemma HolesNext(chunks: ChunkTable, ino: nat, old_: nat, new_: nat, position: nat, now: ChunkTable, n: nat, next: ChunkTable)
    requires old_ <= position < new_ && (position == old_ || position % CHUNK_SIZE == 0)
    requires HolesUpTo(chunks, ino, old_, new_, position, now) && n == Min(CHUNK_SIZE - position % CHUNK_SIZE, new_ - position)
    requires next == AddRecord(now, ino, position / CHUNK_SIZE, Owned(position % CHUNK_SIZE, EMPTY_SLICE_ID, n, 0))
    ensures HolesUpTo(chunks, ino, old_, new_, position + n, next)
  {
    HoleStep(old_, new_, position);
    var c := position / CHUNK_SIZE;
    AddRecordStages(now, ino, c, HoleOf(old_, new_, c));
  }

  lemma AlignedNext(chunks: ChunkTable, ino: nat, old_: nat, new_: nat, position: nat, now: ChunkTable)
    requires old_ <= position < new_ && (position == old_ || position % CHUNK_SIZE == 0)
    requires HolesUpTo(chunks, ino, old_, new_, position, now)
    ensures var n := Min(CHUNK_SIZE - position % CHUNK_SIZE, new_ - position);
            && n > 0 && LoopPosition(old_, new_, position + n)
            && (AllAligned(chunks, ino, old_, position + n) <==>
                AllAligned(chunks, ino, old_, position) && Aligned(now, ino, position / CHUNK_SIZE))
            && (AllAligned(chunks, ino, old_, new_) ==> AllAligned(chunks, ino, old_, position + n))
  {
    HoleStep(old_, new_, position);
  }

  /** The holes partition [old, new): each lies in its chunk, and a position is inside the
      hole of its own chunk exactly when it is in the range. */
  lemma HolesPartition(old_: nat, new_: nat, c: nat)
    requires Touched(old_, new_, c)
    ensures var h := HoleOf(old_, new_, c);
            Fits(h) && 0 < h.Size() && h.End() <= CHUNK_SIZE && h.id == EMPTY_SLICE_ID
    ensures forall pos: nat :: pos / CHUNK_SIZE == c ==> (HoleOf(old_, new_, c).Covers(pos % CHUNK_SIZE) <==> old_ <= pos < new_)
  {
    forall pos: nat | pos / CHUNK_SIZE == c
      ensures HoleOf(old_, new_, c).Covers(pos % CHUNK_SIZE) <==> old_ <= pos < new_
    {
      assert pos == c * CHUNK_SIZE + pos % CHUNK_SIZE;
    }
  }

  lemma PositionTouches(old_: nat, new_: nat, pos: nat)
    requires old_ <= pos < new_
    ensures Touched(old_, new_, pos / CHUNK_SIZE)
  {
  }

  class Metadata {
    var attrs: map<nat, Attr>
    var chunks: ChunkTable

    ghost function Value(): Db
      reads this
    {
      Db(attrs, chunks)
    }

    /** Publishes a slice record: the record is appended unless it is there, the length
        grows to cover it, and an error changes nothing. */
    method CommitSlice(ino: nat, c: nat, s: Slice, now: nat) returns (r: Result<CommitResult>)
      modifies this
      ensures r.Err? <==> ino !in old(attrs) || !old(attrs)[ino].isFile || !Aligned(old(chunks), ino, c)
      ensures r.Err? ==> Value() == old(Value())
      ensures r.Err? ==> r.error == if ino !in old(attrs) then NotFound else if !old(attrs)[ino].isFile then NotPermitted else Corruption
      ensures r.Ok? ==> && Value() == Commit(old(Value()), ino, c, s, now)
                        && r.value.grewBy == attrs[ino].length - old(attrs)[ino].length
                        && (forall pos: nat :: s.Covers(pos) ==> c * CHUNK_SIZE + pos < attrs[ino].length)
                        && (r.value.grewBy > 0 ==> attrs[ino].length == c * CHUNK_SIZE + s.ChunkPos() + s.Size())
                        && (r.value.inserted || r.value.grewBy > 0 ==> attrs[ino].mtime == now)
                        && (r.value.inserted <==> !HasRecord(Raw(old(chunks), ino, c), Encode(s)))
                        && |Raw(chunks, ino, c)| == SLICE_BYTES * r.value.count
    {
      if ino !in attrs {
        return Err(NotFound);
      }
      var attr := attrs[ino];
      if !attr.isFile {
        return Err(NotPermitted);
      }
      var staged := StageChunkSlice(chunks, ino, c, s);
      if staged.Err? {
        return Err(staged.error);
      }
      var newLen := c * CHUNK_SIZE + s.ChunkPos() + s.Size();
      var grewBy := if newLen > attr.length then newLen - attr.length else 0;
      if staged.value.inserted || grewBy != 0 {
        if grewBy != 0 {
          attr := attr.(length := newLen);
        }
        attrs := attrs[ino := attr.(mtime := now)];
      }
      chunks := staged.value.chunks;
      return Ok(CommitResult(grewBy, staged.value.count, staged.value.inserted));
    }

    /** The chunk's records in commit order; a chunk without any is an error. */
    method GetChunkSlices(ino: nat, c: nat) returns (r: Result<seq<Slice>>)
      ensures (ino, c) !in chunks ==> r == Err(NotFound)
      ensures r.Ok? ==> (ino, c) in chunks && r.value != [] && Encodes(chunks[(ino, c)], r.value)
      ensures (ino, c) in chunks && r.Err? ==> forall l :: l != [] ==> !Encodes(chunks[(ino, c)], l)
    {
      if (ino, c) !in chunks {
        return Err(NotFound);
      }
      r := DecodeAll(chunks[(ino, c)]);
      if r.Ok? && |r.value| == 0 {
        return Err(Corruption);
      }
      if r.Err? {
        return Err(Corruption);
      }
    }

    /** Sets a file's length; growing it stages a hole in every chunk of the new part. The
        caller's right to write is checked unless the call says not to. */
    method Truncate(ino: nat, length: nat, skipCheck: bool, mayWrite: bool, now: nat) returns (r: Result<Attr>)
      requires ino in attrs ==> length != attrs[ino].length
      modifies this
      ensures r.Err? ==> Value() == old(Value())
      ensures var error :=
                if ino !in old(attrs) then Some(NotFound)
                else if !old(attrs)[ino].isFile || old(attrs)[ino].fixed then Some(NotPermitted)
                else if !skipCheck && !mayWrite then Some(AccessDenied)
                else if !AllAligned(old(chunks), ino, old(attrs)[ino].length, length) then Some(Corruption)
                else None;
              (r.Err? <==> error.Some?) && (r.Err? ==> error == Some(r.error))
      ensures r.Ok? ==> && HolesStaged(old(chunks), ino, old(attrs)[ino].length, length, chunks)
                        && attrs == old(attrs)[ino := old(attrs)[ino].(length := length, mtime := now)]
                        && r.value == attrs[ino]
    {
      if ino !in attrs {
        return Err(NotFound);
      }
      var attr := attrs[ino];
      if !attr.isFile || attr.fixed {
        return Err(NotPermitted);
      }
      if !skipCheck && !mayWrite {
        return Err(AccessDenied);
      }
      var holes := StageHoles(chunks, ino, attr.length, length);
      if holes.Err? {
        return Err(holes.error);
      }
      chunks := holes.value;
      attr := attr.(length := length, mtime := now);
      attrs := attrs[ino := attr];
      return Ok(attr);
    }
  }
}
