/** Reading a file: per chunk an interval map of its slice records, per slice a walk over its
    stored blocks (components/vfs/src/reader.rs, components/types/src/slice.rs). */
module Reader {
  import opened Common
  import opened SliceTypes
  import opened RangeMaps
  import opened ChunkWrites

  // ---- what a read should return ------------------------------------------------

  /** The last record in commit order that covers a position. */
  function Winner(slices: seq<Slice>, pos: nat): Option<Slice> {
    if slices == [] then None
    else if slices[|slices| - 1].Covers(pos) then Some(slices[|slices| - 1])
    else Winner(slices[..|slices| - 1], pos)
  }

  /** A hole record, like no record at all, reads as zero. */
  function Visible(s: Option<Slice>): Option<Slice> {
    if s.Some? && s.value.id != EMPTY_SLICE_ID then s else None
  }

  /** Where blocks can be found: staged on local disk, or else in the memory cache, or else in
      remote storage. The store of a block in `failing` answers this read with an error. */
  datatype Blocks = Blocks(local: map<SliceKey, seq<byte>>, memory: map<SliceKey, seq<byte>>,
                           remote: map<SliceKey, seq<byte>>, failing: set<SliceKey>) {
    predicate Has(key: SliceKey) { key in local || key in memory || key in remote }

    function Get(key: SliceKey): seq<byte>
      requires Has(key)
    {
      if key in local then local[key] else if key in memory then memory[key] else remote[key]
    }

    /** No block of a slice meets a storage error. */
    ghost predicate Answers(id: nat, length: nat) {
      forall b :: 0 <= b < BlockCount(length) ==> BlockKey(id, length, b) !in failing
    }

    /** Every block of a slice is there in full. */
    ghost predicate Holds(id: nat, length: nat) {
      forall b :: 0 <= b < BlockCount(length) ==> Has(BlockKey(id, length, b)) && |Get(BlockKey(id, length, b))| == ObjectBlockSize(length, b)
    }

    /** Byte `src` of a slice; zero where nothing is stored. */
    function SliceByte(id: nat, length: nat, src: nat): byte
      requires src < length
    {
      var key := BlockKey(id, length, src / BLOCK_SIZE);
      if Has(key) && src % BLOCK_SIZE < |Get(key)| then Get(key)[src % BLOCK_SIZE] else 0
    }
  }

  /** A record the reader can follow: not empty, and its window inside its data. */
  predicate WellFormedSlice(s: Slice) {
    0 < s.Size() && s.UnderlyingOffset() + s.Size() <= s.size
  }

  predicate AllWellFormed(slices: seq<Slice>) {
    forall s :: s in slices ==> WellFormedSlice(s)
  }

  function ChunkByte(slices: seq<Slice>, blocks: Blocks, pos: nat): byte
    requires AllWellFormed(slices)
  {
    WinnerIsRecord(slices, pos);
    match Visible(Winner(slices, pos))
    case None => 0
    case Some(s) => blocks.SliceByte(s.id, s.size, s.UnderlyingOffset() + (pos - s.ChunkPos()))
  }

  lemma {:induction false} WinnerIsRecord(slices: seq<Slice>, pos: nat)
    ensures Winner(slices, pos).Some? ==> Winner(slices, pos).value in slices && Winner(slices, pos).value.Covers(pos)
  {
    if slices != [] { WinnerIsRecord(slices[..|slices| - 1], pos); }
  }

  /** A position no record covers reads as zero. */
  lemma {:induction false} GapReadsZero(slices: seq<Slice>, blocks: Blocks, pos: nat)
    requires AllWellFormed(slices) && forall i :: 0 <= i < |slices| ==> !slices[i].Covers(pos)
    ensures ChunkByte(slices, blocks, pos) == 0 && Winner(slices, pos) == None
  {
    if slices != [] { GapReadsZero(slices[..|slices| - 1], blocks, pos); }
  }

  /** A covered position reads as the last record covering it says: zero for a hole, and
      otherwise the byte of its slice as far from the slice's start as the position is. */
  lemma {:induction false} LastRecordWins(slices: seq<Slice>, blocks: Blocks, i: nat, pos: nat)
    requires AllWellFormed(slices) && i < |slices| && slices[i].Covers(pos)
    requires forall j :: i < j < |slices| ==> !slices[j].Covers(pos)
    ensures Winner(slices, pos) == Some(slices[i]) && slices[i].chunkPos <= pos < slices[i].chunkPos + slices[i].size
    ensures ChunkByte(slices, blocks, pos) ==
            if slices[i].id == EMPTY_SLICE_ID then 0 else blocks.SliceByte(slices[i].id, slices[i].size, pos - slices[i].chunkPos)
  {
    assert WellFormedSlice(slices[i]) by { assert slices[i] in slices; }
    if i < |slices| - 1 { LastRecordWins(slices[..|slices| - 1], blocks, i, pos); }
  }

  // ---- one slice ----------------------------------------------------------------

  /** Part of a block, or the reason there is none. */
  function Cut(block: seq<byte>, off: nat, len: nat): Result<seq<byte>> {
    if off + len <= |block| then Ok(block[off..off + len]) else Err(InvalidRange)
  }

  /** Takes part of a block from local disk if it is staged there, otherwise through the
      memory cache from remote. */
  function FetchRange(blocks: Blocks, key: SliceKey, off: nat, len: nat): (r: Result<seq<byte>>)
    ensures r.Ok? <==> key !in blocks.failing && blocks.Has(key) && off + len <= |blocks.Get(key)|
    ensures r.Ok? ==> r.value == blocks.Get(key)[off..off + len]
    ensures r == Err(BlockNotFound) <==> key !in blocks.failing && !blocks.Has(key)
    ensures r.Ok? && key in blocks.local ==> off + len <= |blocks.local[key]| && r.value == blocks.local[key][off..off + len]
    ensures r.Ok? && key !in blocks.local && key in blocks.memory ==>
              off + len <= |blocks.memory[key]| && r.value == blocks.memory[key][off..off + len]
  {
    if key in blocks.failing then Err(StorageFailed)
    else if key in blocks.local then Cut(blocks.local[key], off, len)
    else if key in blocks.memory then Cut(blocks.memory[key], off, len)
    else if key in blocks.remote then Cut(blocks.remote[key], off, len)
    else Err(BlockNotFound)
  }

  /** Position `offset + k` exists and there is room for it. */
  predicate InReach(length: nat, offset: nat, room: nat, k: nat) { k < room && offset + k < length }

  /** `n` counts exactly the positions from `offset` on that exist and fit. */
  ghost predicate CountsReach(n: nat, length: nat, offset: nat, room: nat) {
    forall k: nat :: InReach(length, offset, room, k) <==> k < n
  }

  function ReadLen(length: nat, offset: nat, room: nat): (n: nat)
    ensures CountsReach(n, length, offset, room)
  {
    if offset >= length then 0 else Min(length - offset, room)
  }

  /** Fills `dst[lo..hi]` with the slice's bytes from `offset` on, block by block. It
      succeeds when the blocks are there, and success means the bytes are the slice's. */
  method ReadSlice(id: nat, blocks: Blocks, length: nat, offset: nat, dst: array<byte>, lo: nat, hi: nat) returns (r: Result<nat>)
    requires lo <= hi <= dst.Length
    modifies dst
    ensures r.Ok? ==> r.value == ReadLen(length, offset, hi - lo) && CountsReach(r.value, length, offset, hi - lo)
    ensures r.Ok? ==> forall k :: lo <= k < lo + r.value ==> dst[k] == blocks.SliceByte(id, length, offset + (k - lo))
    ensures forall i :: 0 <= i < dst.Length && !(lo <= i < lo + ReadLen(length, offset, hi - lo)) ==> dst[i] == old(dst[i])
    ensures length <= CHUNK_SIZE && blocks.Holds(id, length) && blocks.Answers(id, length) ==> r.Ok?
  {
    if length > CHUNK_SIZE {
      return Err(InvalidRange);
    }
    if lo == hi || offset >= length {
      return Ok(0);
    }
    var expected := Min(length - offset, hi - lo);
    var total := 0;
    while total < expected
      invariant total <= expected
      invariant forall k :: lo <= k < lo + total ==> dst[k] == blocks.SliceByte(id, length, offset + (k - lo))
      invariant forall i :: 0 <= i < dst.Length && !(lo <= i < lo + expected) ==> dst[i] == old(dst[i])
    {
      var blockIndex, blockOffset := (offset + total) / BLOCK_SIZE, (offset + total) % BLOCK_SIZE;
      var blockSize := ObjectBlockSize(length, blockIndex);
      var n := Min(expected - total, blockSize - blockOffset);
      var piece := FetchRange(blocks, SliceKey(id, blockIndex, blockSize), blockOffset, n);
      if piece.Err? {
        return Err(piece.error);
      }
      var start := lo + total;
      forall k | start <= k < start + n {
        dst[k] := piece.value[k - start];
      }
      forall k | start <= k < start + n
        ensures dst[k] == blocks.SliceByte(id, length, offset + (k - lo))
      {
        assert (offset + (k - lo)) / BLOCK_SIZE == blockIndex && (offset + (k - lo)) % BLOCK_SIZE == blockOffset + (k - start);
      }
      total := total + n;
    }
    return Ok(total);
  }

  // ---- one chunk ----------------------------------------------------------------

  /** Inserting the records in commit order leaves, at every position, the last one. */
  method Overlook(slices: seq<Slice>) returns (rm: seq<Entry<Slice>>)
    requires AllWellFormed(slices)
    ensures Sorted(rm)
    ensures forall pos: nat :: Lookup(rm, pos) == Winner(slices, pos)
  {
    rm := [];
    for i := 0 to |slices|
      invariant Sorted(rm)
      invariant forall pos: nat :: Lookup(rm, pos) == Winner(slices[..i], pos)
    {
      var s := slices[i];
      assert s in slices && slices[..i + 1][..i] == slices[..i];
      InsertOverwrites(rm, s.ChunkPos(), s.End(), s);
      rm := Insert(rm, s.ChunkPos(), s.End(), s);
    }
    assert slices[..|slices|] == slices;
  }

  /** The map actually walked: gaps and holes of [lo, hi) filled in, everything clipped to it. */
  method VirtualMap(rm: seq<Entry<Slice>>, lo: nat, hi: nat) returns (vm: seq<Entry<Option<Slice>>>)
    requires Sorted(rm) && lo < hi
    ensures Sorted(vm)
    ensures forall pos: nat :: Lookup(vm, pos) == if lo <= pos < hi then Some(Visible(Lookup(rm, pos))) else None
  {
    vm := FillGaps(rm, lo, hi);
    for i := 0 to |rm|
      invariant Sorted(vm)
      invariant forall pos: nat :: Lookup(vm, pos) ==
                                   if lo <= pos < hi && (Lookup(rm[..i], pos).Some? || Lookup(rm, pos).None?)
                                   then Some(Visible(Lookup(rm, pos))) else None
    {
      var e := rm[i];
      PrefixLookup(rm, i);
      if e.lo < hi && lo < e.hi {
        var v := if e.value.id == EMPTY_SLICE_ID then None else Some(e.value);
        InsertOverwrites(vm, Max(e.lo, lo), Min(e.hi, hi), v);
        vm := Insert(vm, Max(e.lo, lo), Min(e.hi, hi), v);
      }
    }
    assert rm[..|rm|] == rm;
  }

  method FillGaps(rm: seq<Entry<Slice>>, lo: nat, hi: nat) returns (vm: seq<Entry<Option<Slice>>>)
    requires Sorted(rm) && lo < hi
    ensures Sorted(vm)
    ensures forall pos: nat :: Lookup(vm, pos) == if lo <= pos < hi && Lookup(rm, pos).None? then Some(None) else None
  {
    var gaps := Gaps(rm, lo, hi);
    GapsAreHoles(rm, lo, hi);
    vm := [];
    for i := 0 to |gaps|
      invariant Sorted(vm)
      invariant forall pos: nat :: Lookup(vm, pos) == if InSome(gaps[..i], pos) then Some(None) else None
    {
      InsertOverwrites(vm, gaps[i].0, gaps[i].1, None);
      InSomeNext(gaps, i);
      vm := Insert(vm, gaps[i].0, gaps[i].1, None);
    }
    assert gaps[..|gaps|] == gaps;
  }

  lemma InSomeNext(gaps: seq<(nat, nat)>, i: nat)
    requires i < |gaps|
    ensures forall pos: nat :: InSome(gaps[..i + 1], pos) <==> InSome(gaps[..i], pos) || gaps[i].0 <= pos < gaps[i].1
  {
    forall pos: nat
      ensures InSome(gaps[..i + 1], pos) <==> InSome(gaps[..i], pos) || gaps[i].0 <= pos < gaps[i].1
    {
      if InSome(gaps[..i], pos) {
        var j :| 0 <= j < i && gaps[..i][j].0 <= pos < gaps[..i][j].1;
        assert gaps[..i + 1][j] == gaps[..i][j];
      }
      if InSome(gaps[..i + 1], pos) {
        var j :| 0 <= j < i + 1 && gaps[..i + 1][j].0 <= pos < gaps[..i + 1][j].1;
        if j < i { assert gaps[..i][j] == gaps[..i + 1][j]; }
      }
      if gaps[i].0 <= pos < gaps[i].1 { assert gaps[..i + 1][i] == gaps[i]; }
    }
  }

  lemma PrefixLookup(rm: seq<Entry<Slice>>, i: nat)
    requires Sorted(rm) && i < |rm|
    ensures forall pos: nat :: Lookup(rm[..i + 1], pos).Some? <==> Lookup(rm[..i], pos).Some? || rm[i].lo <= pos < rm[i].hi
    ensures forall pos: nat :: rm[i].lo <= pos < rm[i].hi ==> Lookup(rm, pos) == Some(rm[i].value)
  {
    forall pos: nat
      ensures Lookup(rm[..i + 1], pos).Some? <==> Lookup(rm[..i], pos).Some? || rm[i].lo <= pos < rm[i].hi
    {
      assert rm[..i + 1] == rm[..i] + [rm[i]];
      LookupAppend(rm[..i], [rm[i]], pos);
    }
    forall pos: nat | rm[i].lo <= pos < rm[i].hi
      ensures Lookup(rm, pos) == Some(rm[i].value)
    {
      LookupEntry(rm, i, pos);
    }
  }

  /** Every record's blocks can be read. */
  ghost predicate AllReadable(slices: seq<Slice>, blocks: Blocks) {
    forall s :: s in slices && s.id != EMPTY_SLICE_ID ==> s.size <= CHUNK_SIZE && blocks.Holds(s.id, s.size) && blocks.Answers(s.id, s.size)
  }

  /** Fills `dst[start..start + (hi - lo)]` from the chunk's [lo, hi). */
  method ReadChunk(slices: seq<Slice>, blocks: Blocks, lo: nat, hi: nat, dst: array<byte>, start: nat) returns (r: Result<()>)
    requires AllWellFormed(slices) && lo < hi && start + (hi - lo) <= dst.Length
    modifies dst
    ensures r.Ok? ==> forall k :: start <= k < start + (hi - lo) ==> dst[k] == ChunkByte(slices, blocks, lo + (k - start))
    ensures forall k :: 0 <= k < dst.Length && !(start <= k < start + (hi - lo)) ==> dst[k] == old(dst[k])
    ensures AllReadable(slices, blocks) ==> r.Ok?
  {
    var rm := Overlook(slices);
    var vm := VirtualMap(rm, lo, hi);
    Chain(vm, lo, hi);
    var total, chunkPos := start, lo;
    for i := 0 to |vm|
      invariant chunkPos == if i < |vm| then vm[i].lo else hi
      invariant lo <= chunkPos <= hi && total == start + (chunkPos - lo)
      invariant forall k :: start <= k < total ==> dst[k] == ChunkByte(slices, blocks, lo + (k - start))
      invariant forall k :: 0 <= k < dst.Length && !(start <= k < start + (hi - lo)) ==> dst[k] == old(dst[k])
    {
      var e := vm[i];
      assert i + 1 < |vm| ==> vm[i].hi == vm[i + 1].lo;
      assert e.hi <= hi by {
        if i < |vm| - 1 { assert vm[i].hi <= vm[|vm| - 1].lo; }
      }
      var from, end := total + e.lo - chunkPos, total + e.hi - chunkPos;
      EntryIsWinner(slices, rm, vm, lo, hi, i);
      var piece := ReadEntry(slices, blocks, e, dst, from, end);
      if piece.Err? {
        return Err(piece.error);
      }
      total, chunkPos := end, chunkPos + (e.hi - e.lo);
    }
    return Ok(());
  }

  lemma EntryIsWinner(slices: seq<Slice>, rm: seq<Entry<Slice>>, vm: seq<Entry<Option<Slice>>>, lo: nat, hi: nat, i: nat)
    requires Sorted(vm) && i < |vm| && lo <= vm[i].lo && vm[i].hi <= hi
    requires forall pos: nat :: Lookup(rm, pos) == Winner(slices, pos)
    requires forall pos: nat :: Lookup(vm, pos) == if lo <= pos < hi then Some(Visible(Lookup(rm, pos))) else None
    ensures forall pos: nat :: vm[i].lo <= pos < vm[i].hi ==> Visible(Winner(slices, pos)) == vm[i].value
  {
    forall pos: nat | vm[i].lo <= pos < vm[i].hi
      ensures Visible(Winner(slices, pos)) == vm[i].value
    {
      LookupEntry(vm, i, pos);
    }
  }

  /** One range of the walk: zeros, or the part of a slice it shows. */
  method ReadEntry(slices: seq<Slice>, blocks: Blocks, e: Entry<Option<Slice>>, dst: array<byte>, from: nat, end: nat) returns (r: Result<()>)
    requires AllWellFormed(slices) && e.lo < e.hi && from + (e.hi - e.lo) == end <= dst.Length
    requires forall pos: nat :: e.lo <= pos < e.hi ==> Visible(Winner(slices, pos)) == e.value
    modifies dst
    ensures r.Ok? ==> forall k :: from <= k < end ==> dst[k] == ChunkByte(slices, blocks, e.lo + (k - from))
    ensures forall k :: 0 <= k < dst.Length && !(from <= k < end) ==> dst[k] == old(dst[k])
    ensures AllReadable(slices, blocks) ==> r.Ok?
  {
    match e.value
    case None =>
      forall k | from <= k < end { dst[k] := 0; }
      return Ok(());
    case Some(s) =>
      WinnerIsRecord(slices, e.lo);
      WinnerIsRecord(slices, e.hi - 1);
      var n := ReadSlice(s.id, blocks, s.size, s.UnderlyingOffset() + (e.lo - s.ChunkPos()), dst, from, end);
      if n.Err? {
        return Err(n.error);
      }
      return Ok(());
  }

  // ---- a whole file -------------------------------------------------------------

  datatype MetaLookup = Missing | Failed(error: Error) | Found(slices: seq<Slice>)

  /** What metadata answers for a chunk. A chunk without a record is an error today; the
      reader also has a branch for a successful empty answer. */
  type ChunkIndex = map<nat, MetaLookup>

  function Ask(chunks: ChunkIndex, c: nat): MetaLookup {
    if c in chunks then chunks[c] else Failed(NotFound)
  }

  ghost predicate ValidMeta(chunks: ChunkIndex) {
    forall c :: c in chunks && chunks[c].Found? ==> AllWellFormed(chunks[c].slices)
  }

  /** A byte of the file. The chunk size is the mount's. */
  function FileByte(chunkSize: nat, chunks: ChunkIndex, blocks: Blocks, pos: nat): byte
    requires chunkSize > 0 && ValidMeta(chunks) && Ask(chunks, pos / chunkSize).Found?
  {
    ChunkByte(chunks[pos / chunkSize].slices, blocks, pos % chunkSize)
  }

  /** Chunks [first, last] have records whose blocks are there. */
  ghost predicate Readable(chunks: ChunkIndex, blocks: Blocks, first: nat, last: nat) {
    forall c :: first <= c <= last ==> Ask(chunks, c).Found? && AllReadable(chunks[c].slices, blocks)
  }

  ghost predicate ReadSoFar(chunkSize: nat, chunks: ChunkIndex, blocks: Blocks, offset: nat, bytes: seq<byte>)
    requires chunkSize > 0 && ValidMeta(chunks)
  {
    forall k :: 0 <= k < |bytes| ==> IsFileByte(chunkSize, chunks, blocks, offset + k, bytes[k])
  }

  ghost predicate IsFileByte(chunkSize: nat, chunks: ChunkIndex, blocks: Blocks, pos: nat, v: byte)
    requires chunkSize > 0 && ValidMeta(chunks)
  {
    Ask(chunks, pos / chunkSize).Found? && v == FileByte(chunkSize, chunks, blocks, pos)
  }

  /** One more chunk's part of the range. */
  lemma ReadFurther(chunkSize: nat, chunks: ChunkIndex, blocks: Blocks, offset: nat, c: nat, chunkPos: nat, before: seq<byte>, after: seq<byte>)
    requires chunkSize > 0 && ValidMeta(chunks) && ReadSoFar(chunkSize, chunks, blocks, offset, before)
    requires |before| <= |after| && after[..|before|] == before && Ask(chunks, c).Found?
    requires offset + |before| == c * chunkSize + chunkPos && chunkPos + (|after| - |before|) <= chunkSize
    requires forall k :: |before| <= k < |after| ==> after[k] == ChunkByte(chunks[c].slices, blocks, chunkPos + (k - |before|))
    ensures ReadSoFar(chunkSize, chunks, blocks, offset, after)
  {
    forall k | 0 <= k < |after|
      ensures IsFileByte(chunkSize, chunks, blocks, offset + k, after[k])
    {
      if k < |before| {
        assert after[k] == after[..|before|][k] == before[k];
      } else {
        DivUnique(offset + k, chunkSize, c, chunkPos + (k - |before|));
      }
    }
  }

  /** One turn of the read loop: the part of the range inside chunk `c`. */
  method ReadPart(chunkSize: nat, chunks: ChunkIndex, blocks: Blocks, offset: nat, dst: array<byte>, c: nat, total: nat, left: nat, ghost at: nat)
    returns (r: Result<nat>)
    requires ValidMeta(chunks) && Ask(chunks, c).Found? && left > 0 && total + left <= dst.Length
    requires AtPiece(chunkSize, offset, total + left, c, at, total, left) && ReadSoFar(chunkSize, chunks, blocks, offset, dst[..total])
    modifies dst
    ensures r.Ok? ==> r.value == Min(chunkSize - at, left) && ReadSoFar(chunkSize, chunks, blocks, offset, dst[..total + r.value])
    ensures forall k :: total + left <= k < dst.Length ==> dst[k] == old(dst[k])
    ensures AllReadable(chunks[c].slices, blocks) ==> r.Ok?
  {
    DivUnique(offset + total, chunkSize, c, at);
    var chunkPos := (offset + total) % chunkSize;
    var n: nat := Min(chunkSize - chunkPos, left);
    ghost var before := dst[..total];
    var piece := ReadChunk(chunks[c].slices, blocks, chunkPos, chunkPos + n, dst, total);
    if piece.Err? {
      return Err(piece.error);
    }
    assert dst[..total + n][..total] == before;
    ReadFurther(chunkSize, chunks, blocks, offset, c, chunkPos, before, dst[..total + n]);
    return Ok(n);
  }

  /** The read loop over chunks. When every touched chunk has records whose blocks are there,
      it returns as many bytes as the file and the buffer allow, and each is the byte of the
      last committed record covering it, or zero. An empty answer for any touched chunk turns
      the whole read into zero bytes. */
  method Read(chunkSize: nat, fileLength: nat, chunks: ChunkIndex, blocks: Blocks, offset: nat, dst: array<byte>) returns (r: Result<nat>)
    requires chunkSize > 0 && ValidMeta(chunks)
    modifies dst
    ensures var n := ReadLen(fileLength, offset, dst.Length);
            n == 0 || Readable(chunks, blocks, offset / chunkSize, (offset + n - 1) / chunkSize) ==>
              r == Ok(n) && CountsReach(n, fileLength, offset, dst.Length)
    ensures r.Ok? && r.value > 0 ==> r.value == ReadLen(fileLength, offset, dst.Length) && CountsReach(r.value, fileLength, offset, dst.Length)
    ensures r.Ok? ==> r.value <= dst.Length && ReadSoFar(chunkSize, chunks, blocks, offset, dst[..r.value])
    ensures forall k :: ReadLen(fileLength, offset, dst.Length) <= k < dst.Length ==> dst[k] == old(dst[k])
    ensures var n := ReadLen(fileLength, offset, dst.Length);
            r.Ok? && n > 0 ==>
              (r.value == 0 <==> exists c :: offset / chunkSize <= c <= (offset + n - 1) / chunkSize && Ask(chunks, c).Missing?)
  {
    if offset >= fileLength || dst.Length == 0 {
      return Ok(0);
    }
    var expected := Min(dst.Length, fileLength - offset);
    var first, last := offset / chunkSize, (offset + expected - 1) / chunkSize;
    var total: nat, left: nat := 0, expected;
    FirstPiece(chunkSize, offset, expected);
    ghost var at: nat := offset % chunkSize;
    for c := first to last + 1
      invariant AtPiece(chunkSize, offset, expected, c, at, total, left) && (left > 0 <==> c <= last)
      invariant ReadSoFar(chunkSize, chunks, blocks, offset, dst[..total])
      invariant forall k :: expected <= k < dst.Length ==> dst[k] == old(dst[k])
      invariant forall d :: first <= d < c ==> Ask(chunks, d).Found?
    {
      match Ask(chunks, c)
      case Missing => return Ok(0);
      case Failed(error) => return Err(error);
      case Found(slices) =>
        NextPiece(chunkSize, offset, expected, c, at, total, left);
        var n := ReadPart(chunkSize, chunks, blocks, offset, dst, c, total, left, at);
        if n.Err? {
          return Err(n.error);
        }
        total, left, at := total + n.value, left - n.value, (at + n.value) % chunkSize;
    }
    return Ok(total);
  }
}
