/** The slice buffer as a value: what a write, a bulk flush and a stage do to it, and what
    any run of them leaves in storage (components/storage/src/slice_buffer.rs). */
module BufferModel {
  import opened Common
  import opened Paging
  import opened SliceTypes

  datatype Buffer = Buffer(length: nat, flushedLength: nat, totalPageCnt: nat, slots: seq<Block>)

  /** Objects by key, and the successful puts in order. */
  datatype Store = Store(objects: map<SliceKey, seq<byte>>, log: seq<SliceKey>)

  function NewBuffer(): (s: Buffer)
    ensures s.length == s.flushedLength == s.totalPageCnt == 0
    ensures |s.slots| == BLOCKS_PER_CHUNK && forall b :: 0 <= b < BLOCKS_PER_CHUNK ==> s.slots[b].Empty?
  {
    Buffer(0, 0, 0, seq(BLOCKS_PER_CHUNK, _ => Empty))
  }

  ghost predicate WellFormedBuffer(s: Buffer) {
    && WellFormed(s.slots)
    && s.length <= CHUNK_SIZE
    && s.flushedLength <= CHUNK_SIZE
    && Held(s.slots) <= s.totalPageCnt
  }

  // ---- writing --------------------------------------------------------------

  function FirstPage(off: nat): nat { off / PAGE_SIZE }

  function LastPage(to: nat): nat
    requires 0 < to
  {
    (to - 1) / PAGE_SIZE
  }

  /** The page a position lives in. */
  function PageOf(pos: nat): nat { pos / PAGE_SIZE }

  /** The page holds a position of [off, to). */
  ghost predicate PageUnder(g: nat, off: nat, to: nat) { exists pos :: off <= pos < to && PageOf(pos) == g }

  lemma PagesUnder(g: nat, off: nat, to: nat)
    requires off < to
    ensures PageUnder(g, off, to) <==> FirstPage(off) <= g <= LastPage(to)
  {
    if FirstPage(off) <= g <= LastPage(to) {
      var pos := Max(off, g * PAGE_SIZE);
      assert off <= pos < to && PageOf(pos) == g;
    }
  }

  /** A byte that is not zero lives in the page of its position. */
  lemma ByteNeedsPage(slots: seq<Block>, pos: nat)
    requires WellFormed(slots) && pos < CHUNK_SIZE && ByteAt(slots, pos) != 0
    ensures HasPage(slots, PageOf(pos))
  {
  }

  /** The pages a write of [off, to) has to take. */
  ghost function PagesNeeded(slots: seq<Block>, off: nat, to: nat): set<nat>
    requires WellFormed(slots)
  {
    set g | 0 <= g < PAGES_PER_CHUNK && PageUnder(g, off, to) && !HasPage(slots, g)
  }

  ghost predicate Touches(b: nat, from: nat, to: nat) {
    from < (b + 1) * BLOCK_SIZE && b * BLOCK_SIZE < to
  }

  /** Pages [first, last] are held, fresh ones zero; nothing readable changed. */
  ghost predicate Reserved(s: seq<Block>, s': seq<Block>, first: nat, last: nat)
    requires WellFormed(s) && WellFormed(s') && last < PAGES_PER_CHUNK
  {
    && (forall b :: 0 <= b < BLOCKS_PER_CHUNK ==>
                      && BlockLen(s'[b]) == BlockLen(s[b])
                      && (s'[b].Data? <==> s[b].Data? || first / PAGES_PER_BLOCK <= b <= last / PAGES_PER_BLOCK))
    && (forall g :: 0 <= g < PAGES_PER_CHUNK ==> (HasPage(s', g) <==> HasPage(s, g) || first <= g <= last))
    && (forall pos :: 0 <= pos < CHUNK_SIZE ==> ByteAt(s', pos) == ByteAt(s, pos))
  }

  /** The full effect of a successful, non-empty write. */
  ghost predicate Written(s: Buffer, s': Buffer, off: nat, data: seq<byte>)
    requires WellFormed(s.slots) && WellFormed(s'.slots) && 0 < |data| && off + |data| <= CHUNK_SIZE
  {
    var to := off + |data|;
    && s'.length == Max(s.length, to)
    && s'.flushedLength == s.flushedLength
    && s'.totalPageCnt - Held(s'.slots) == s.totalPageCnt - Held(s.slots)
    && (forall pos :: 0 <= pos < CHUNK_SIZE ==>
                        ByteAt(s'.slots, pos) == if off <= pos < to then data[pos - off] else ByteAt(s.slots, pos))
    && (forall b :: 0 <= b < BLOCKS_PER_CHUNK ==>
                      && BlockLen(s'.slots[b]) == GrownLen(BlockLen(s.slots[b]), b, off, to)
                      && (s'.slots[b].Data? <==> s.slots[b].Data? || Touches(b, off, to)))
    && (forall g :: 0 <= g < PAGES_PER_CHUNK ==>
                      (HasPage(s'.slots, g) <==> HasPage(s.slots, g) || PageUnder(g, off, to)))
  }

  lemma ReserveThenCopy(s: Buffer, m: seq<Block>, s': Buffer, off: nat, data: seq<byte>)
    requires WellFormed(s.slots) && WellFormed(m) && WellFormed(s'.slots)
    requires 0 < |data| && off + |data| <= CHUNK_SIZE
    requires Reserved(s.slots, m, FirstPage(off), LastPage(off + |data|))
    requires Copied(m, s'.slots, off, data)
    requires s'.length == Max(s.length, off + |data|) && s'.flushedLength == s.flushedLength
    requires s'.totalPageCnt - Held(m) == s.totalPageCnt - Held(s.slots)
    ensures Written(s, s', off, data)
  {
    forall g | 0 <= g < PAGES_PER_CHUNK
      ensures HasPage(s'.slots, g) <==> HasPage(s.slots, g) || PageUnder(g, off, off + |data|)
    {
      PagesUnder(g, off, off + |data|);
    }
  }

  // ---- releasing blocks -----------------------------------------------------

  /** Indices of the data blocks that end at or below `offset`, among the first `n`. */
  function Pending(slots: seq<Block>, offset: nat, n: nat): (r: seq<nat>)
    requires n <= |slots|
    ensures forall i :: 0 <= i < |r| ==> r[i] < n && slots[r[i]].Data? && (r[i] + 1) * BLOCK_SIZE <= offset
    ensures forall i, j :: 0 <= i < j < |r| ==> r[i] < r[j]
  {
    if n == 0 then []
    else Pending(slots, offset, n - 1) +
         if slots[n - 1].Data? && n * BLOCK_SIZE <= offset then [n - 1] else []
  }

  function PendingBlocks(s: Buffer, offset: nat): seq<nat>
    requires WellFormed(s.slots)
  {
    Pending(s.slots, offset, BLOCKS_PER_CHUNK)
  }

  function KeyOf(id: nat, s: Buffer, b: nat): SliceKey
    requires b < |s.slots|
  {
    SliceKey(id, b, BlockLen(s.slots[b]))
  }

  /** Block `b` has been stored: its pages are dropped and the flushed mark moves up.
      The page counter is the caller's business. */
  function Release(s: Buffer, b: nat): Buffer
    requires b < |s.slots|
  {
    s.(slots := s.slots[b := Empty], flushedLength := Max(s.flushedLength, b * BLOCK_SIZE + BlockLen(s.slots[b])))
  }

  function ReleaseAll(s: Buffer, bs: seq<nat>): (r: Buffer)
    requires forall i :: 0 <= i < |bs| ==> bs[i] < |s.slots|
    ensures |r.slots| == |s.slots| && r.totalPageCnt == s.totalPageCnt && r.length == s.length
  {
    if bs == [] then s else Release(ReleaseAll(s, bs[..|bs| - 1]), bs[|bs| - 1])
  }

  /** flush_bulk_to keeps the page counter exact after every block. */
  ghost function Flushed(s: Buffer, bs: seq<nat>): Buffer
    requires forall i :: 0 <= i < |bs| ==> bs[i] < |s.slots|
    requires Held(s.slots) <= s.totalPageCnt
  {
    ReleaseAll(s, bs).(totalPageCnt := s.totalPageCnt - Held(s.slots) + Held(ReleaseAll(s, bs).slots))
  }

  function FlushedOne(s: Buffer, b: nat): Buffer
    requires b < |s.slots| && HeldIn(s.slots[b]) <= s.totalPageCnt
  {
    Release(s, b).(totalPageCnt := s.totalPageCnt - HeldIn(s.slots[b]))
  }

  function PutBlock(st: Store, key: SliceKey, bytes: seq<byte>): Store {
    Store(st.objects[key := bytes], st.log + [key])
  }

  function PutAll(st: Store, id: nat, s: Buffer, bs: seq<nat>): Store
    requires WellFormed(s.slots)
    requires forall i :: 0 <= i < |bs| ==> bs[i] < BLOCKS_PER_CHUNK && s.slots[bs[i]].Data?
  {
    if bs == [] then st
    else
      var b := bs[|bs| - 1];
      PutBlock(PutAll(st, id, s, bs[..|bs| - 1]), KeyOf(id, s, b), BlockBytes(s.slots[b]))
  }

  /** The stage cache keeps the first bytes staged under a key. */
  function StageBlock(staged: map<SliceKey, seq<byte>>, key: SliceKey, bytes: seq<byte>): map<SliceKey, seq<byte>> {
    if key in staged then staged else staged[key := bytes]
  }

  function StageAll(staged: map<SliceKey, seq<byte>>, id: nat, s: Buffer, bs: seq<nat>): map<SliceKey, seq<byte>>
    requires WellFormed(s.slots)
    requires forall i :: 0 <= i < |bs| ==> bs[i] < BLOCKS_PER_CHUNK && s.slots[bs[i]].Data?
  {
    if bs == [] then staged
    else
      var b := bs[|bs| - 1];
      StageBlock(StageAll(staged, id, s, bs[..|bs| - 1]), KeyOf(id, s, b), BlockBytes(s.slots[b]))
  }

  lemma {:induction false} ReleaseAllSlots(s: Buffer, bs: seq<nat>)
    requires WellFormed(s.slots)
    requires forall i :: 0 <= i < |bs| ==> bs[i] < BLOCKS_PER_CHUNK
    ensures WellFormed(ReleaseAll(s, bs).slots)
    ensures forall b :: 0 <= b < BLOCKS_PER_CHUNK ==>
                          ReleaseAll(s, bs).slots[b] == if b in bs then Empty else s.slots[b]
    ensures Held(ReleaseAll(s, bs).slots) <= Held(s.slots)
  {
    if bs != [] {
      var n := |bs| - 1;
      var m := ReleaseAll(s, bs[..n]);
      ReleaseAllSlots(s, bs[..n]);
      HeldUpdate(m.slots, bs[n], Empty);
      assert bs == bs[..n] + [bs[n]];
    }
  }

  /** Staging `bs` got through its first `n` blocks; the page counter is settled only when
      that is all of them. */
  ghost predicate StageEffect(s: Buffer, staged: map<SliceKey, seq<byte>>, id: nat, bs: seq<nat>, n: nat,
                              s': Buffer, staged': map<SliceKey, seq<byte>>)
    requires WellFormedBuffer(s)
    requires forall i :: 0 <= i < |bs| ==> bs[i] < BLOCKS_PER_CHUNK && s.slots[bs[i]].Data?
  {
    && n <= |bs|
    && s' == (if n == |bs| then Flushed(s, bs) else ReleaseAll(s, bs[..n]))
    && staged' == StageAll(staged, id, s, bs[..n])
  }

  // ---- what a run keeps -----------------------------------------------------

  /** The flushed mark is a block boundary unless everything is flushed. */
  ghost predicate MarkAligned(s: Buffer) {
    && s.flushedLength <= s.length
    && (s.flushedLength % BLOCK_SIZE == 0 || s.flushedLength == s.length)
  }

  /** Exactly the blocks at and above the mark are held, at the size a reader will ask for. */
  ghost predicate BlocksBuffered(s: Buffer)
    requires WellFormed(s.slots)
  {
    forall b :: 0 <= b < BLOCKS_PER_CHUNK ==>
                  if s.flushedLength <= b * BLOCK_SIZE < s.length
                  then s.slots[b].Data? && s.slots[b].length == ObjectBlockSize(s.length, b)
                  else s.slots[b].Empty?
  }

  ghost predicate BytesBuffered(s: Buffer, content: seq<byte>)
    requires WellFormed(s.slots) && |content| == s.length
  {
    forall pos :: s.flushedLength <= pos < CHUNK_SIZE ==>
                    ByteAt(s.slots, pos) == if pos < s.length then content[pos] else 0
  }

  /** Exactly the blocks below the mark are stored, once each and in order. */
  ghost predicate StoredBelow(st: Store, id: nat, mark: nat, content: seq<byte>)
    requires mark <= |content|
  {
    && (forall b :: 0 <= b < BlockCount(mark) ==> BlockStored(st.objects, id, content, b))
    && (forall key :: key in st.objects && key.id == id ==>
                        key.index < BlockCount(mark) && key == BlockKey(id, |content|, key.index))
    && |st.log| == BlockCount(mark)
    && (forall b :: 0 <= b < |st.log| ==> st.log[b] == BlockKey(id, |content|, b))
  }

  /** `content` is what has been written: what is stored and what is buffered together. */
  ghost predicate Tracks(s: Buffer, st: Store, id: nat, content: seq<byte>) {
    && WellFormedBuffer(s)
    && |content| == s.length
    && MarkAligned(s)
    && BlocksBuffered(s)
    && BytesBuffered(s, content)
    && StoredBelow(st, id, s.flushedLength, content)
  }

  lemma NewBufferTracks(id: nat, st: Store)
    requires st.log == [] && forall key :: key in st.objects ==> key.id != id
    ensures Tracks(NewBuffer(), st, id, [])
  {
    ReleaseAllSlots(NewBuffer(), []);
    HeldNothing(NewBuffer().slots);
  }

  lemma {:induction false} HeldNothing(slots: seq<Block>)
    requires forall b :: 0 <= b < |slots| ==> slots[b].Empty?
    ensures Held(slots) == 0
  {
    if slots != [] { HeldNothing(slots[..|slots| - 1]); }
  }

  lemma BlockKeyExtends(id: nat, mark: nat, length: nat, length': nat, b: nat)
    requires mark <= length <= length' && mark % BLOCK_SIZE == 0 && b < BlockCount(mark)
    ensures (b + 1) * BLOCK_SIZE <= mark
    ensures BlockKey(id, length, b) == BlockKey(id, length', b) == SliceKey(id, b, BLOCK_SIZE)
  {
  }

  lemma BlockStoredExtends(objects: map<SliceKey, seq<byte>>, id: nat, mark: nat, content: seq<byte>, content': seq<byte>, b: nat)
    requires mark <= |content| <= |content'| && mark % BLOCK_SIZE == 0 && b < BlockCount(mark)
    requires forall i :: 0 <= i < mark ==> content'[i] == content[i]
    requires BlockStored(objects, id, content, b)
    ensures BlockStored(objects, id, content', b)
  {
    BlockKeyExtends(id, mark, |content|, |content'|, b);
    assert content[b * BLOCK_SIZE..(b + 1) * BLOCK_SIZE] == content'[b * BLOCK_SIZE..(b + 1) * BLOCK_SIZE];
  }

  lemma StoredBelowExtends(st: Store, id: nat, mark: nat, content: seq<byte>, content': seq<byte>)
    requires mark <= |content| <= |content'| && mark % BLOCK_SIZE == 0
    requires forall i :: 0 <= i < mark ==> content'[i] == content[i]
    requires StoredBelow(st, id, mark, content)
    ensures StoredBelow(st, id, mark, content')
  {
    forall b | 0 <= b < BlockCount(mark)
      ensures BlockStored(st.objects, id, content', b) && BlockKey(id, |content'|, b) == BlockKey(id, |content|, b)
    {
      BlockKeyExtends(id, mark, |content|, |content'|, b);
      BlockStoredExtends(st.objects, id, mark, content, content', b);
    }
  }

  /** A write keeps the invariant exactly when it starts no later than the block after the
      last full one; skipping a whole block leaves one that no reader key will match. */
  lemma WriteTracks(s: Buffer, s': Buffer, st: Store, id: nat, content: seq<byte>, off: nat, data: seq<byte>)
    requires Tracks(s, st, id, content) && WellFormedBuffer(s') && s.flushedLength % BLOCK_SIZE == 0
    requires 0 < |data| && s.flushedLength <= off && off + |data| <= CHUNK_SIZE
    requires Written(s, s', off, data)
    ensures Tracks(s', st, id, Overlay(content, off, data)) <==> off / BLOCK_SIZE <= s.length / BLOCK_SIZE
  {
    var content' := Overlay(content, off, data);
    if off / BLOCK_SIZE <= s.length / BLOCK_SIZE {
      StoredBelowExtends(st, id, s.flushedLength, content, content');
      WriteBuffersBlocks(s, s', off, data);
      WriteBuffersBytes(s, s', content, off, data);
    } else {
      WriteSkipsBlock(s, s', off, data);
    }
  }

  lemma WriteBuffersBlocks(s: Buffer, s': Buffer, off: nat, data: seq<byte>)
    requires WellFormedBuffer(s) && WellFormedBuffer(s') && MarkAligned(s) && s.flushedLength % BLOCK_SIZE == 0
    requires 0 < |data| && s.flushedLength <= off && off + |data| <= CHUNK_SIZE
    requires Written(s, s', off, data) && BlocksBuffered(s)
    requires off / BLOCK_SIZE <= s.length / BLOCK_SIZE
    ensures BlocksBuffered(s')
  {
    forall b | 0 <= b < BLOCKS_PER_CHUNK
      ensures if s'.flushedLength <= b * BLOCK_SIZE < s'.length
              then s'.slots[b].Data? && s'.slots[b].length == ObjectBlockSize(s'.length, b)
              else s'.slots[b].Empty?
    {
      assert BlockLen(s'.slots[b]) == GrownLen(BlockLen(s.slots[b]), b, off, off + |data|);
    }
  }

  lemma WriteBuffersBytes(s: Buffer, s': Buffer, content: seq<byte>, off: nat, data: seq<byte>)
    requires WellFormedBuffer(s) && WellFormedBuffer(s') && s.flushedLength <= s.length == |content|
    requires 0 < |data| && s.flushedLength <= off && off + |data| <= CHUNK_SIZE
    requires Written(s, s', off, data) && BytesBuffered(s, content)
    ensures BytesBuffered(s', Overlay(content, off, data))
  {
  }

  lemma WriteSkipsBlock(s: Buffer, s': Buffer, off: nat, data: seq<byte>)
    requires WellFormedBuffer(s) && WellFormedBuffer(s') && MarkAligned(s) && s.flushedLength % BLOCK_SIZE == 0
    requires 0 < |data| && s.flushedLength <= off && off + |data| <= CHUNK_SIZE
    requires Written(s, s', off, data) && BlocksBuffered(s)
    requires off / BLOCK_SIZE > s.length / BLOCK_SIZE
    ensures !BlocksBuffered(s')
  {
    var b := s.length / BLOCK_SIZE;
    assert BlockLen(s'.slots[b]) < BLOCK_SIZE <= s'.length - b * BLOCK_SIZE;
  }

  // ---- flushing keeps the invariant -----------------------------------------

  function Range(from: nat, to: nat): (r: seq<nat>)
    requires from <= to
    ensures |r| == to - from && forall i :: 0 <= i < |r| ==> r[i] == from + i
  {
    seq(to - from, i requires 0 <= i => from + i)
  }

  /** One past the last block a flush up to `offset` takes. */
  function FlushEnd(s: Buffer, offset: nat): (r: nat)
    ensures BlockCount(s.flushedLength) <= r
  {
    Max(BlockCount(s.flushedLength), Min(offset / BLOCK_SIZE, BlockCount(s.length)))
  }

  /** The pending blocks are consecutive, starting at the mark. */
  lemma {:induction false} PendingPrefix(s: Buffer, offset: nat, n: nat)
    requires WellFormedBuffer(s) && MarkAligned(s) && BlocksBuffered(s) && n <= BLOCKS_PER_CHUNK
    ensures Pending(s.slots, offset, n)
            == Range(BlockCount(s.flushedLength), Max(BlockCount(s.flushedLength), Min(n, FlushEnd(s, offset))))
  {
    if n > 0 { PendingPrefix(s, offset, n - 1); }
  }

  lemma PendingIsRange(s: Buffer, offset: nat)
    requires WellFormedBuffer(s) && MarkAligned(s) && BlocksBuffered(s)
    ensures PendingBlocks(s, offset) == Range(BlockCount(s.flushedLength), FlushEnd(s, offset))
  {
    PendingPrefix(s, offset, BLOCKS_PER_CHUNK);
  }

  lemma ReleaseBuffers(s: Buffer, content: seq<byte>, b: nat)
    requires WellFormedBuffer(s) && |content| == s.length && MarkAligned(s)
    requires BlocksBuffered(s) && BytesBuffered(s, content)
    requires b == BlockCount(s.flushedLength) && b * BLOCK_SIZE < s.length
    ensures s.slots[b].Data? && s.slots[b].length == ObjectBlockSize(s.length, b)
    ensures var s' := Release(s, b);
            && WellFormedBuffer(s') && MarkAligned(s') && BlocksBuffered(s') && BytesBuffered(s', content)
            && s'.flushedLength == Min((b + 1) * BLOCK_SIZE, s.length)
  {
    var s' := Release(s, b);
    HeldUpdate(s.slots, b, Empty);
    forall pos | s'.flushedLength <= pos < CHUNK_SIZE
      ensures ByteAt(s'.slots, pos) == if pos < s'.length then content[pos] else 0
    {
      assert ByteAt(s.slots, pos) == if pos < s.length then content[pos] else 0;
    }
  }

  lemma BufferedBlockBytes(s: Buffer, content: seq<byte>, b: nat)
    requires WellFormedBuffer(s) && |content| == s.length && BytesBuffered(s, content)
    requires b < BLOCKS_PER_CHUNK && s.flushedLength <= b * BLOCK_SIZE < s.length
    requires s.slots[b].Data? && s.slots[b].length == ObjectBlockSize(s.length, b)
    ensures BlockBytes(s.slots[b]) == content[b * BLOCK_SIZE..b * BLOCK_SIZE + ObjectBlockSize(s.length, b)]
  {
    var bytes := BlockBytes(s.slots[b]);
    forall k | 0 <= k < |bytes|
      ensures bytes[k] == content[b * BLOCK_SIZE + k]
    {
      assert bytes[k] == ByteAt(s.slots, b * BLOCK_SIZE + k);
    }
  }

  lemma PutStores(st: Store, id: nat, mark: nat, content: seq<byte>, b: nat)
    requires mark <= |content| && b == BlockCount(mark) && b * BLOCK_SIZE < |content|
    requires StoredBelow(st, id, mark, content)
    ensures var key := BlockKey(id, |content|, b);
            StoredBelow(PutBlock(st, key, content[b * BLOCK_SIZE..b * BLOCK_SIZE + key.size]),
                        id, Min((b + 1) * BLOCK_SIZE, |content|), content)
  {
    var key := BlockKey(id, |content|, b);
    var st' := PutBlock(st, key, content[b * BLOCK_SIZE..b * BLOCK_SIZE + key.size]);
    forall i | 0 <= i <= b
      ensures BlockStored(st'.objects, id, content, i)
    {
      if i < b { assert BlockStored(st.objects, id, content, i); }
    }
  }

  /** Storing the first buffered block and releasing it keeps the invariant. */
  lemma ReleaseTracks(s: Buffer, st: Store, id: nat, content: seq<byte>, b: nat, s': Buffer, st': Store)
    requires Tracks(s, st, id, content)
    requires b == BlockCount(s.flushedLength) && b * BLOCK_SIZE < s.length && s.slots[b].Data?
    requires s' == Release(s, b) && st' == PutBlock(st, KeyOf(id, s, b), BlockBytes(s.slots[b]))
    ensures Tracks(s', st', id, content)
    ensures s'.flushedLength == Min((b + 1) * BLOCK_SIZE, s.length)
  {
    ReleaseBuffers(s, content, b);
    BufferedBlockBytes(s, content, b);
    PutStores(st, id, s.flushedLength, content, b);
  }

  /** The first `n` pending blocks, when the invariant holds. */
  function NextBlocks(s: Buffer, n: nat): (bs: seq<nat>)
    ensures |bs| == n && forall i :: 0 <= i < n ==> bs[i] == BlockCount(s.flushedLength) + i
  {
    Range(BlockCount(s.flushedLength), BlockCount(s.flushedLength) + n)
  }

  lemma NextBlocksHeld(s: Buffer, n: nat)
    requires WellFormedBuffer(s) && MarkAligned(s) && BlocksBuffered(s)
    requires BlockCount(s.flushedLength) + n <= BlockCount(s.length)
    ensures forall i :: 0 <= i < n ==> NextBlocks(s, n)[i] < BLOCKS_PER_CHUNK && s.slots[NextBlocks(s, n)[i]].Data?
  {
  }

  lemma OneMoreBlock(s: Buffer, st: Store, id: nat, n: nat)
    requires WellFormedBuffer(s) && MarkAligned(s) && BlocksBuffered(s)
    requires 0 < n && BlockCount(s.flushedLength) + n <= BlockCount(s.length)
    requires forall i :: 0 <= i < n ==> NextBlocks(s, n)[i] < BLOCKS_PER_CHUNK && s.slots[NextBlocks(s, n)[i]].Data?
    ensures var b := BlockCount(s.flushedLength) + n - 1;
            var m := ReleaseAll(s, NextBlocks(s, n - 1));
            && m.slots[b] == s.slots[b]
            && ReleaseAll(s, NextBlocks(s, n)) == Release(m, b)
            && PutAll(st, id, s, NextBlocks(s, n))
               == PutBlock(PutAll(st, id, s, NextBlocks(s, n - 1)), KeyOf(id, m, b), BlockBytes(m.slots[b]))
  {
    assert NextBlocks(s, n)[..n - 1] == NextBlocks(s, n - 1);
    ReleaseAllSlots(s, NextBlocks(s, n - 1));
  }

  /** Flushing one more block, given that the first `n - 1` are flushed. */
  lemma FlushOneMore(s: Buffer, st: Store, id: nat, content: seq<byte>, n: nat)
    requires WellFormedBuffer(s) && MarkAligned(s) && BlocksBuffered(s)
    requires 0 < n && BlockCount(s.flushedLength) + n <= BlockCount(s.length)
    requires forall i :: 0 <= i < n ==> NextBlocks(s, n)[i] < BLOCKS_PER_CHUNK && s.slots[NextBlocks(s, n)[i]].Data?
    requires Tracks(ReleaseAll(s, NextBlocks(s, n - 1)), PutAll(st, id, s, NextBlocks(s, n - 1)), id, content)
    requires BlockCount(ReleaseAll(s, NextBlocks(s, n - 1)).flushedLength) == BlockCount(s.flushedLength) + n - 1
    ensures Tracks(ReleaseAll(s, NextBlocks(s, n)), PutAll(st, id, s, NextBlocks(s, n)), id, content)
    ensures ReleaseAll(s, NextBlocks(s, n)).flushedLength == Min((BlockCount(s.flushedLength) + n) * BLOCK_SIZE, s.length)
  {
    var b, m, mst := BlockCount(s.flushedLength) + n - 1, ReleaseAll(s, NextBlocks(s, n - 1)), PutAll(st, id, s, NextBlocks(s, n - 1));
    OneMoreBlock(s, st, id, n);
    assert s.slots[b].Data? by { assert NextBlocks(s, n)[n - 1] == b; }
    assert m.length == s.length && b * BLOCK_SIZE < m.length;
    ReleaseTracks(m, mst, id, content, b, ReleaseAll(s, NextBlocks(s, n)), PutAll(st, id, s, NextBlocks(s, n)));
  }

  /** However many blocks are stored before a failure, the invariant holds. */
  lemma {:induction false} FlushTracks(s: Buffer, st: Store, id: nat, content: seq<byte>, n: nat)
    requires Tracks(s, st, id, content)
    requires BlockCount(s.flushedLength) + n <= BlockCount(s.length)
    ensures forall i :: 0 <= i < n ==> NextBlocks(s, n)[i] < BLOCKS_PER_CHUNK && s.slots[NextBlocks(s, n)[i]].Data?
    ensures Tracks(ReleaseAll(s, NextBlocks(s, n)), PutAll(st, id, s, NextBlocks(s, n)), id, content)
    ensures ReleaseAll(s, NextBlocks(s, n)).flushedLength
            == if n == 0 then s.flushedLength else Min((BlockCount(s.flushedLength) + n) * BLOCK_SIZE, s.length)
  {
    NextBlocksHeld(s, n);
    if n > 0 {
      FlushTracks(s, st, id, content, n - 1);
      FlushOneMore(s, st, id, content, n);
    }
  }

  /** The page counter is not part of what is tracked. */
  lemma CountIrrelevant(s: Buffer, st: Store, id: nat, content: seq<byte>, cnt: nat)
    requires Tracks(s, st, id, content) && Held(s.slots) <= cnt
    ensures Tracks(s.(totalPageCnt := cnt), st, id, content)
  {
  }

  function RoundUp(length: nat): nat { BlockCount(length) * BLOCK_SIZE }

  /** A completed full flush leaves nothing buffered and everything stored. */
  lemma FullFlushStores(s: Buffer, st: Store, id: nat, content: seq<byte>)
    requires Tracks(s, st, id, content)
    ensures var bs := PendingBlocks(s, RoundUp(s.length));
            && ReleaseAll(s, bs).flushedLength == s.length
            && Tracks(ReleaseAll(s, bs), PutAll(st, id, s, bs), id, content)
            && Stored(PutAll(st, id, s, bs).objects, id, content)
  {
    var bs := PendingBlocks(s, RoundUp(s.length));
    PendingIsRange(s, RoundUp(s.length));
    assert bs == NextBlocks(s, |bs|);
    FlushTracks(s, st, id, content, |bs|);
    AllBelowIsStored(PutAll(st, id, s, bs), id, content);
  }

  lemma AllBelowIsStored(st: Store, id: nat, content: seq<byte>)
    requires StoredBelow(st, id, |content|, content)
    ensures Stored(st.objects, id, content)
  {
  }

  // ---- whole runs -----------------------------------------------------------

  datatype Op =
    | Write(off: nat, data: seq<byte>)
    | RejectedWrite
    | FlushTo(offset: nat, blocks: nat)  // `blocks` stored; fewer than pending means it failed there

  datatype Config = Config(buf: Buffer, store: Store)

  ghost predicate Step(id: nat, c: Config, op: Op, c': Config)
    requires WellFormedBuffer(c.buf) && WellFormedBuffer(c'.buf)
  {
    if op.RejectedWrite? then c' == c
    else if op.Write? then
      if op.data == [] then c' == c
      else
        && c.buf.flushedLength <= op.off && op.off + |op.data| <= CHUNK_SIZE
        && Written(c.buf, c'.buf, op.off, op.data) && c'.store == c.store
    else
      && c.buf.flushedLength <= op.offset <= CHUNK_SIZE
      && op.blocks <= |PendingBlocks(c.buf, op.offset)|
      && c'.buf == Flushed(c.buf, PendingBlocks(c.buf, op.offset)[..op.blocks])
      && c'.store == PutAll(c.store, id, c.buf, PendingBlocks(c.buf, op.offset)[..op.blocks])
  }

  /** What a caller has to respect: no write skips a whole block, and a partly filled last
      block is not stored before the end of the run. */
  ghost predicate Disciplined(c: Config, op: Op)
    requires WellFormedBuffer(c.buf)
  {
    match op
    case RejectedWrite => true
    case Write(off, data) => off / BLOCK_SIZE <= c.buf.length / BLOCK_SIZE
    case FlushTo(offset, n) => offset <= c.buf.length || n < |PendingBlocks(c.buf, offset)| || c.buf.length % BLOCK_SIZE == 0
  }

  ghost predicate IsRun(id: nat, ops: seq<Op>, trace: seq<Config>) {
    && |trace| == |ops| + 1
    && (forall i :: 0 <= i < |trace| ==> WellFormedBuffer(trace[i].buf))
    && trace[0].buf == NewBuffer() && trace[0].store.log == []
    && (forall key :: key in trace[0].store.objects ==> key.id != id)
    && (forall i :: 0 <= i < |ops| ==> StepAt(id, ops, trace, i))
  }

  ghost predicate StepAt(id: nat, ops: seq<Op>, trace: seq<Config>, i: nat)
    requires i < |ops| && |trace| == |ops| + 1
    requires WellFormedBuffer(trace[i].buf) && WellFormedBuffer(trace[i + 1].buf)
  {
    Disciplined(trace[i], ops[i]) && Step(id, trace[i], ops[i], trace[i + 1])
  }

  /** The flat array the writes of a run describe. */
  function Contents(ops: seq<Op>): seq<byte> {
    if ops == [] then []
    else
      var op := ops[|ops| - 1];
      var before := Contents(ops[..|ops| - 1]);
      if op.Write? then Overlay(before, op.off, op.data) else before
  }

  /** The keys a reader will ask for, in block order. */
  function AllKeys(id: nat, length: nat): (r: seq<SliceKey>)
    ensures |r| == BlockCount(length)
    ensures forall b :: 0 <= b < |r| ==> r[b] == BlockKey(id, length, b)
  {
    seq(BlockCount(length), b requires 0 <= b < BlockCount(length) => BlockKey(id, length, b))
  }

  lemma PendingPrefixIsNext(s: Buffer, offset: nat, n: nat)
    requires WellFormedBuffer(s) && MarkAligned(s) && BlocksBuffered(s)
    requires n <= |PendingBlocks(s, offset)|
    ensures PendingBlocks(s, offset)[..n] == NextBlocks(s, n)
    ensures BlockCount(s.flushedLength) + n <= BlockCount(s.length)
    ensures n > 0 && (offset <= s.length || n < |PendingBlocks(s, offset)|)
            ==> (BlockCount(s.flushedLength) + n) * BLOCK_SIZE <= s.length
  {
    PendingIsRange(s, offset);
  }

  lemma FlushToTracks(id: nat, s: Buffer, st: Store, offset: nat, n: nat, content: seq<byte>)
    requires Tracks(s, st, id, content)
    requires n <= |PendingBlocks(s, offset)|
    ensures Tracks(Flushed(s, PendingBlocks(s, offset)[..n]), PutAll(st, id, s, PendingBlocks(s, offset)[..n]), id, content)
    ensures Flushed(s, PendingBlocks(s, offset)[..n]).flushedLength
            == if n == 0 then s.flushedLength else Min((BlockCount(s.flushedLength) + n) * BLOCK_SIZE, s.length)
  {
    PendingPrefixIsNext(s, offset, n);
    FlushTracks(s, st, id, content, n);
    var bs := NextBlocks(s, n);
    CountIrrelevant(ReleaseAll(s, bs), PutAll(st, id, s, bs), id, content, Flushed(s, bs).totalPageCnt);
  }

  lemma StepTracks(id: nat, c: Config, op: Op, c': Config, content: seq<byte>)
    requires Tracks(c.buf, c.store, id, content) && c.buf.flushedLength % BLOCK_SIZE == 0
    requires WellFormedBuffer(c'.buf) && Step(id, c, op, c') && Disciplined(c, op)
    requires Held(c.buf.slots) == c.buf.totalPageCnt
    ensures Tracks(c'.buf, c'.store, id, if op.Write? then Overlay(content, op.off, op.data) else content)
    ensures c'.buf.flushedLength % BLOCK_SIZE == 0
    ensures Held(c'.buf.slots) == c'.buf.totalPageCnt
  {
    if op.FlushTo? {
      FlushToTracks(id, c.buf, c.store, op.offset, op.blocks, content);
      PendingPrefixIsNext(c.buf, op.offset, op.blocks);
    } else if op.Write? && op.data != [] {
      WriteTracks(c.buf, c'.buf, c.store, id, content, op.off, op.data);
    }
  }

  lemma {:induction false} RunTracks(id: nat, ops: seq<Op>, trace: seq<Config>)
    requires IsRun(id, ops, trace)
    ensures var last := trace[|ops|];
            && Tracks(last.buf, last.store, id, Contents(ops))
            && last.buf.flushedLength % BLOCK_SIZE == 0
            && Held(last.buf.slots) == last.buf.totalPageCnt
  {
    if ops == [] {
      NewBufferTracks(id, trace[0].store);
      HeldNothing(NewBuffer().slots);
    } else {
      var n := |ops| - 1;
      var before, front := ops[..n], trace[..n + 1];
      forall i | 0 <= i < |before|
        ensures StepAt(id, before, front, i)
      {
        assert StepAt(id, ops, trace, i);
      }
      RunTracks(id, before, front);
      assert StepAt(id, ops, trace, n);
      StepTracks(id, trace[n], ops[n], trace[n + 1], Contents(ops[..n]));
    }
  }

  /** Any run of writes and of succeeding or failing bulk flushes, ended by one completed
      flush: storage holds exactly the flat array of the writes, each block stored once,
      in order, at the size the reader asks for, and no page is still held. */
  lemma RunThenFlush(id: nat, ops: seq<Op>, trace: seq<Config>)
    requires IsRun(id, ops, trace)
    ensures var last := trace[|ops|];
            var bs := PendingBlocks(last.buf, RoundUp(last.buf.length));
            var st := PutAll(last.store, id, last.buf, bs);
            && last.buf.length == |Contents(ops)|
            && Stored(st.objects, id, Contents(ops))
            && st.log == AllKeys(id, |Contents(ops)|)
            && Held(Flushed(last.buf, bs).slots) == 0 == Flushed(last.buf, bs).totalPageCnt
  {
    RunTracks(id, ops, trace);
    var last := trace[|ops|];
    var bs := PendingBlocks(last.buf, RoundUp(last.buf.length));
    FullFlushStores(last.buf, last.store, id, Contents(ops));
    HeldNothing(ReleaseAll(last.buf, bs).slots);
  }
}
