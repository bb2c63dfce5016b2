/** One slice writer from first write to published record: appends, bulk flushes, full
    flushes, idle commits, and every failure and retry in between
    (components/vfs/src/writer.rs, components/storage/src/slice_buffer.rs). */
module Publication {
  import opened Common
  import opened Paging
  import opened SliceTypes
  import opened BufferModel

  /** The resting states; Writing, Flushing and Committing are inside one event here and are
      the subject of WriterProtocol. */
  datatype Phase = Idle | Dirty | Done

  /** `record` is the size published for the slice; `content` is what was written to it. */
  datatype Writer = Writer(phase: Phase, id: nat, buf: Buffer, staged: map<SliceKey, seq<byte>>,
                           record: Option<nat>, content: seq<byte>)

  datatype Event =
    | Append(off: nat, data: seq<byte>)
    | Rejected
    | BulkFlush(newId: nat, offset: nat, blocks: nat)     // stages `blocks`; fewer than pending: failed
    | FullFlush(newId: nat, blocks: nat, committed: bool)
    | CommitIdle(committed: bool)
    | OtherStages(key: SliceKey, bytes: seq<byte>)        // another slice uses the stage cache

  /** A slice id is taken from the id table the first time one is needed. */
  function IdOf(w: Writer, newId: nat): nat { if w.id != EMPTY_SLICE_ID then w.id else newId }

  ghost predicate FreshId(w: Writer, newId: nat) {
    newId != EMPTY_SLICE_ID && (w.id == EMPTY_SLICE_ID ==> forall key :: key in w.staged ==> key.id != newId)
  }

  ghost predicate Step(w: Writer, e: Event, w': Writer)
    requires WellFormedBuffer(w.buf)
  {
    && WellFormedBuffer(w'.buf)
    && match e
       case Rejected => w' == w
       case OtherStages(key, bytes) => key.id != w.id && w' == w.(staged := StageBlock(w.staged, key, bytes))
       case Append(off, data) =>
         && w.phase != Done && 0 < |data| && off + |data| <= CHUNK_SIZE
         && w.buf.flushedLength <= off <= w.buf.length
         && Written(w.buf, w'.buf, off, data)
         && w' == w.(phase := Dirty, buf := w'.buf, content := Overlay(w.content, off, data))
       case BulkFlush(newId, offset, n) =>
         && w.phase == Dirty && FreshId(w, newId) && offset <= w.buf.length
         && if offset < w.buf.flushedLength then w' == w.(id := IdOf(w, newId))
            else
              var bs := PendingBlocks(w.buf, offset);
              && StageEffect(w.buf, w.staged, IdOf(w, newId), bs, n, w'.buf, w'.staged)
              && w' == w.(id := IdOf(w, newId), buf := w'.buf, staged := w'.staged,
                          phase := if n == |bs| then Idle else Dirty)
       case FullFlush(newId, n, committed) =>
         var bs := PendingBlocks(w.buf, RoundUp(w.buf.length));
         && w.phase == Dirty && FreshId(w, newId)
         && StageEffect(w.buf, w.staged, IdOf(w, newId), bs, n, w'.buf, w'.staged)
         && w' == w.(id := IdOf(w, newId), buf := w'.buf, staged := w'.staged,
                     phase := if n == |bs| && committed then Done else Dirty,
                     record := if n == |bs| && committed then Some(w.buf.length) else w.record)
       case CommitIdle(committed) =>
         && w.phase == Idle
         && w' == if !committed then w
                  else w.(phase := Done, record := if w.buf.length != 0 then Some(w.buf.length) else w.record)
  }

  /** What a published record promises: it has a real id, it names the length written, and
      every block the reader will ask for is staged with the bytes written. */
  ghost predicate Published(w: Writer) {
    w.record.Some? ==>
      && w.id != EMPTY_SLICE_ID
      && w.record.value == |w.content|
      && Stored(w.staged, w.id, w.content)
  }

  function KeysBelow(id: nat, length: nat, mark: nat): (r: seq<SliceKey>)
    requires mark <= length
    ensures |r| == BlockCount(mark) && forall b :: 0 <= b < |r| ==> r[b] == BlockKey(id, length, b)
  {
    seq(BlockCount(mark), b requires 0 <= b < BlockCount(mark) => BlockKey(id, length, b))
  }

  /** The staged bytes, seen as storage written once per block in order. */
  function StageStore(staged: map<SliceKey, seq<byte>>, id: nat, length: nat, mark: nat): Store
    requires mark <= length
  {
    Store(staged, KeysBelow(id, length, mark))
  }

  ghost predicate StageTracks(s: Buffer, staged: map<SliceKey, seq<byte>>, id: nat, content: seq<byte>) {
    s.flushedLength <= s.length && Tracks(s, StageStore(staged, id, s.length, s.flushedLength), id, content)
  }

  ghost predicate Unflushed(s: Buffer, content: seq<byte>) {
    && WellFormedBuffer(s) && |content| == s.length && s.flushedLength == 0
    && BlocksBuffered(s) && BytesBuffered(s, content)
  }

  // ---- what the buffer and the stage cache really hold ---------------------------

  /** A complete stage has released a partly filled last block; the next write starts that
      block again from nothing. */
  predicate Restarts(w: Writer) { w.buf.flushedLength == w.buf.length && w.buf.length % BLOCK_SIZE != 0 }

  function Boundary(length: nat): nat { length / BLOCK_SIZE * BLOCK_SIZE }

  /** How far the staged blocks of the present length reach. The flushed mark itself is ahead
      of it once a released block has been started again. */
  function Mark(s: Buffer): nat { if s.flushedLength == s.length then s.length else Boundary(s.flushedLength) }

  function Rewound(s: Buffer): Buffer { s.(flushedLength := Mark(s)) }

  /** A block staged when it was shorter than it is now. */
  predicate Stale(key: SliceKey, length: nat) {
    key.index * BLOCK_SIZE < length && key.size < ObjectBlockSize(length, key.index)
  }

  /** What is staged, without the slice's stale blocks. */
  function Live(staged: map<SliceKey, seq<byte>>, id: nat, length: nat): map<SliceKey, seq<byte>> {
    map key | key in staged && !(key.id == id && Stale(key, length)) :: staged[key]
  }

  /** The content with its partly filled last block blanked. */
  function BlankTail(content: seq<byte>): (r: seq<byte>)
    ensures |r| == |content|
    ensures forall i :: 0 <= i < |r| ==> r[i] == if i < |content| / BLOCK_SIZE * BLOCK_SIZE then content[i] else 0
  {
    seq(|content|, i requires 0 <= i < |content| => if i < |content| / BLOCK_SIZE * BLOCK_SIZE then content[i] else 0)
  }

  /** The bytes held after an event; they differ from what was written where a restarted block
      blanked its first part. */
  function HeldNext(w: Writer, e: Event, held: seq<byte>): seq<byte> {
    if e.Append? then Overlay(if Restarts(w) then BlankTail(held) else held, e.off, e.data) else held
  }

  /** `held` is what staged and buffered blocks hold together. It is what was written, except
      for blanked bytes below the flushed mark, where no later write can reach. */
  ghost predicate Follows(w: Writer, held: seq<byte>) {
    && Holding(w.buf, w.staged, w.id, held)
    && Near(held, w.content, w.buf.flushedLength)
    && (w.phase == Idle && w.buf.length > 0 ==> w.id != EMPTY_SLICE_ID)
    && (w.phase == Dirty ==> w.buf.length > 0)
    && (w.phase != Done ==> w.record == None)
    && (w.record.Some? ==> w.id != EMPTY_SLICE_ID && w.record.value == w.buf.length > 0)
    && (w.phase == Done && w.buf.length > 0 ==> w.record.Some?)
  }

  /** Equal, up to blanks below the mark. */
  ghost predicate Near(held: seq<byte>, content: seq<byte>, mark: nat) {
    |held| == |content| && forall p :: 0 <= p < |held| ==> held[p] == content[p] || (held[p] == 0 && p < mark)
  }

  ghost predicate Holding(s: Buffer, staged: map<SliceKey, seq<byte>>, id: nat, held: seq<byte>) {
    && WellFormedBuffer(s) && s.flushedLength <= s.length == |held|
    && if id == EMPTY_SLICE_ID then Unflushed(s, held) else StageTracks(Rewound(s), Live(staged, id, s.length), id, held)
  }

  lemma AssignId(w: Writer, held: seq<byte>, newId: nat)
    requires Follows(w, held) && FreshId(w, newId)
    ensures Holding(w.buf, w.staged, IdOf(w, newId), held)
  {
    if w.id == EMPTY_SLICE_ID { assert Live(w.staged, newId, w.buf.length) == w.staged; }
  }

  /** Below the invariant, staging a block never meets a key that is already there, so it is
      the same as storing it. */
  lemma {:induction false} StageIsPut(s: Buffer, st: Store, id: nat, content: seq<byte>, n: nat)
    requires Tracks(s, st, id, content)
    requires BlockCount(s.flushedLength) + n <= BlockCount(s.length)
    requires forall i :: 0 <= i < n ==> NextBlocks(s, n)[i] < BLOCKS_PER_CHUNK && s.slots[NextBlocks(s, n)[i]].Data?
    ensures StageAll(st.objects, id, s, NextBlocks(s, n)) == PutAll(st, id, s, NextBlocks(s, n)).objects
  {
    if n > 0 {
      assert NextBlocks(s, n)[..n - 1] == NextBlocks(s, n - 1);
      NextKeyIsNew(s, st, id, content, n - 1);
      StageIsPut(s, st, id, content, n - 1);
    }
  }

  lemma NextKeyIsNew(s: Buffer, st: Store, id: nat, content: seq<byte>, n: nat)
    requires Tracks(s, st, id, content) && BlockCount(s.flushedLength) + n < BlockCount(s.length)
    ensures forall i :: 0 <= i < n ==> NextBlocks(s, n)[i] < BLOCKS_PER_CHUNK && s.slots[NextBlocks(s, n)[i]].Data?
    ensures BlockCount(s.flushedLength) + n < |s.slots|
    ensures KeyOf(id, s, BlockCount(s.flushedLength) + n) !in PutAll(st, id, s, NextBlocks(s, n)).objects
  {
    FlushTracks(s, st, id, content, n);
  }

  /** Staging any number of pending blocks keeps the invariant. */
  lemma StageKeeps(s: Buffer, staged: map<SliceKey, seq<byte>>, id: nat, content: seq<byte>, offset: nat, n: nat,
                   s': Buffer, staged': map<SliceKey, seq<byte>>)
    requires StageTracks(s, staged, id, content)
    requires StageEffect(s, staged, id, PendingBlocks(s, offset), n, s', staged')
    ensures StageTracks(s', staged', id, content)
    ensures s'.flushedLength == if n == 0 then s.flushedLength else Min((BlockCount(s.flushedLength) + n) * BLOCK_SIZE, s.length)
  {
    var st := StageStore(staged, id, s.length, s.flushedLength);
    var bs := PendingBlocks(s, offset);
    PendingPrefixIsNext(s, offset, n);
    assert n == |bs| ==> bs[..n] == bs;
    FlushTracks(s, st, id, content, n);
    StageIsPut(s, st, id, content, n);
    var r := ReleaseAll(s, bs[..n]);
    CountIrrelevant(r, PutAll(st, id, s, bs[..n]), id, content, s'.totalPageCnt);
    assert PutAll(st, id, s, bs[..n]).log == KeysBelow(id, s.length, s'.flushedLength);
  }

  // ---- staging under the rewound mark ----------------------------------------------

  lemma {:induction false} ReleaseAllMark(s: Buffer, mark: nat, bs: seq<nat>)
    requires mark <= s.flushedLength && forall i :: 0 <= i < |bs| ==> bs[i] < |s.slots|
    ensures var r := ReleaseAll(s.(flushedLength := mark), bs);
            ReleaseAll(s, bs) == r.(flushedLength := Max(s.flushedLength, r.flushedLength))
  {
    if bs != [] { ReleaseAllMark(s, mark, bs[..|bs| - 1]); }
  }

  /** Staging blocks at their present size does not look at stale ones. */
  lemma {:induction false} StageAllLive(staged: map<SliceKey, seq<byte>>, id: nat, s: Buffer, bs: seq<nat>)
    requires WellFormed(s.slots)
    requires forall i :: 0 <= i < |bs| ==> bs[i] < BLOCKS_PER_CHUNK && s.slots[bs[i]].Data? && !Stale(KeyOf(id, s, bs[i]), s.length)
    ensures Live(StageAll(staged, id, s, bs), id, s.length) == StageAll(Live(staged, id, s.length), id, s, bs)
  {
    if bs != [] { StageAllLive(staged, id, s, bs[..|bs| - 1]); }
  }

  lemma PendingNotStale(s: Buffer, id: nat, offset: nat)
    requires WellFormedBuffer(s) && MarkAligned(Rewound(s)) && BlocksBuffered(Rewound(s))
    ensures forall i :: 0 <= i < |PendingBlocks(s, offset)| ==> !Stale(KeyOf(id, s, PendingBlocks(s, offset)[i]), s.length)
  {
    assert PendingBlocks(s, offset) == PendingBlocks(Rewound(s), offset);
    PendingIsRange(Rewound(s), offset);
  }

  lemma StageAllSlots(staged: map<SliceKey, seq<byte>>, id: nat, s: Buffer, t: Buffer, bs: seq<nat>)
    requires WellFormed(s.slots) && t.slots == s.slots
    requires forall i :: 0 <= i < |bs| ==> bs[i] < BLOCKS_PER_CHUNK && s.slots[bs[i]].Data?
    ensures StageAll(staged, id, s, bs) == StageAll(staged, id, t, bs)
  {
    if bs != [] { StageAllSlots(staged, id, s, t, bs[..|bs| - 1]); }
  }

  /** The same stage, seen from the rewound buffer. */
  lemma RewoundStage(s: Buffer, staged: map<SliceKey, seq<byte>>, id: nat, bs: seq<nat>, n: nat,
                     s': Buffer, staged': map<SliceKey, seq<byte>>) returns (t': Buffer)
    requires WellFormedBuffer(s) && Mark(s) <= s.flushedLength
    requires forall i :: 0 <= i < |bs| ==> bs[i] < BLOCKS_PER_CHUNK && s.slots[bs[i]].Data? && !Stale(KeyOf(id, s, bs[i]), s.length)
    requires StageEffect(s, staged, id, bs, n, s', staged')
    ensures StageEffect(Rewound(s), Live(staged, id, s.length), id, bs, n, t', Live(staged', id, s.length))
    ensures s' == t'.(flushedLength := Max(s.flushedLength, t'.flushedLength))
  {
    var t := Rewound(s);
    t' := if n == |bs| then Flushed(t, bs) else ReleaseAll(t, bs[..n]);
    assert n == |bs| ==> bs[..n] == bs;
    ReleaseAllMark(s, Mark(s), bs[..n]);
    StageAllLive(staged, id, s, bs[..n]);
    StageAllSlots(Live(staged, id, s.length), id, s, t, bs[..n]);
  }

  /** Staging any number of pending blocks keeps what is held, whatever was restarted before. */
  lemma StageHolds(s: Buffer, staged: map<SliceKey, seq<byte>>, id: nat, held: seq<byte>, offset: nat, n: nat,
                   s': Buffer, staged': map<SliceKey, seq<byte>>)
    requires Holding(s, staged, id, held) && id != EMPTY_SLICE_ID && WellFormedBuffer(s')
    requires StageEffect(s, staged, id, PendingBlocks(s, offset), n, s', staged')
    ensures Holding(s', staged', id, held) && s'.length == s.length
    ensures s'.flushedLength == if n == 0 then s.flushedLength else Min((BlockCount(Mark(s)) + n) * BLOCK_SIZE, s.length)
  {
    var bs := PendingBlocks(s, offset);
    PendingNotStale(s, id, offset);
    var t' := RewoundStage(s, staged, id, bs, n, s', staged');
    assert bs == PendingBlocks(Rewound(s), offset);
    StageKeeps(Rewound(s), Live(staged, id, s.length), id, held, offset, n, t', Live(staged', id, s.length));
    PendingPrefixIsNext(Rewound(s), offset, n);
    assert Rewound(s') == t';
  }

  // ---- every event keeps it ----------------------------------------------------------

  lemma LiveGrows(staged: map<SliceKey, seq<byte>>, id: nat, mark: nat, held: seq<byte>, length: nat)
    requires mark <= |held| <= length && mark % BLOCK_SIZE == 0
    requires StoredBelow(StageStore(Live(staged, id, |held|), id, |held|, mark), id, mark, held)
    ensures Live(staged, id, length) == Live(staged, id, |held|)
  {
    forall key | key in staged && key.id == id
      ensures Stale(key, length) <==> Stale(key, |held|)
    {
      if !Stale(key, |held|) {
        assert key in Live(staged, id, |held|);
        BlockKeyExtends(id, mark, |held|, length, key.index);
      }
    }
  }

  /** A write that starts no released block again. */
  lemma AppendHolds(s: Buffer, staged: map<SliceKey, seq<byte>>, id: nat, held: seq<byte>, off: nat, data: seq<byte>, s': Buffer)
    requires Holding(s, staged, id, held) && WellFormedBuffer(s') && Mark(s) % BLOCK_SIZE == 0
    requires 0 < |data| && off + |data| <= CHUNK_SIZE && s.flushedLength <= off <= s.length && Written(s, s', off, data)
    ensures Holding(s', staged, id, Overlay(held, off, data))
  {
    var t, t' := Rewound(s), s'.(flushedLength := Mark(s));
    if id == EMPTY_SLICE_ID {
      WriteBuffersBlocks(s, s', off, data);
      WriteBuffersBytes(s, s', held, off, data);
    } else {
      assert Written(t, t', off, data);
      var st := StageStore(Live(staged, id, s.length), id, s.length, t.flushedLength);
      WriteTracks(t, t', st, id, held, off, data);
      LiveGrows(staged, id, t.flushedLength, held, s'.length);
      KeysExtend(id, t.flushedLength, s.length, s'.length);
      assert Rewound(s') == t';
    }
  }

  lemma KeysExtend(id: nat, mark: nat, length: nat, length': nat)
    requires mark <= length <= length' && mark % BLOCK_SIZE == 0
    ensures KeysBelow(id, length, mark) == KeysBelow(id, length', mark)
  {
    forall b | 0 <= b < BlockCount(mark)
      ensures BlockKey(id, length, b) == BlockKey(id, length', b)
    {
      BlockKeyExtends(id, mark, length, length', b);
    }
  }

  // -- a write after a partly filled block was staged and released

  ghost predicate Restarted(s: Buffer, staged: map<SliceKey, seq<byte>>, id: nat, held: seq<byte>, off: nat, data: seq<byte>, s': Buffer) {
    && StageTracks(s, staged, id, held) && s.flushedLength == s.length && s.length % BLOCK_SIZE != 0
    && WellFormedBuffer(s') && off == s.length && 0 < |data| && off + |data| <= CHUNK_SIZE && Written(s, s', off, data)
  }

  lemma RestartBlanksBlocks(s: Buffer, staged: map<SliceKey, seq<byte>>, id: nat, held: seq<byte>, off: nat, data: seq<byte>, s': Buffer)
    requires Restarted(s, staged, id, held, off, data, s')
    ensures BlocksBuffered(s'.(flushedLength := Boundary(s.length)))
  {
    var t := s'.(flushedLength := Boundary(s.length));
    forall i | 0 <= i < BLOCKS_PER_CHUNK
      ensures if t.flushedLength <= i * BLOCK_SIZE < t.length
              then t.slots[i].Data? && t.slots[i].length == ObjectBlockSize(t.length, i)
              else t.slots[i].Empty?
    {
      assert s.slots[i].Empty?;
      assert BlockLen(s'.slots[i]) == GrownLen(0, i, off, off + |data|);
    }
  }

  lemma RestartBlanksBytes(s: Buffer, staged: map<SliceKey, seq<byte>>, id: nat, held: seq<byte>, off: nat, data: seq<byte>, s': Buffer)
    requires Restarted(s, staged, id, held, off, data, s')
    ensures BytesBuffered(s'.(flushedLength := Boundary(s.length)), Overlay(BlankTail(held), off, data))
  {
    forall pos | Boundary(s.length) <= pos < CHUNK_SIZE
      ensures ByteAt(s'.slots, pos) == if pos < s'.length then Overlay(BlankTail(held), off, data)[pos] else 0
    {
      assert s.slots[pos / BLOCK_SIZE].Empty?;
      assert ByteAt(s.slots, pos) == 0;
    }
  }

  /** Forgetting the partly filled last block leaves the full ones. */
  lemma RewindMark(staged: map<SliceKey, seq<byte>>, id: nat, content: seq<byte>)
    requires StoredBelow(StageStore(staged, id, |content|, |content|), id, |content|, content)
    ensures var b := |content| / BLOCK_SIZE;
            StoredBelow(StageStore(staged - {BlockKey(id, |content|, b)}, id, |content|, b * BLOCK_SIZE), id, b * BLOCK_SIZE, content)
  {
    var b := |content| / BLOCK_SIZE;
    var less := staged - {BlockKey(id, |content|, b)};
    forall i | 0 <= i < b
      ensures BlockStored(less, id, content, i)
    {
      assert BlockStored(staged, id, content, i);
    }
  }

  lemma RestartKeepsStored(staged: map<SliceKey, seq<byte>>, id: nat, held: seq<byte>, off: nat, data: seq<byte>)
    requires StoredBelow(StageStore(staged, id, |held|, |held|), id, |held|, held) && off == |held| && 0 < |data|
    ensures var c := Overlay(BlankTail(held), off, data);
            var b := |held| / BLOCK_SIZE;
            StoredBelow(StageStore(staged - {BlockKey(id, |held|, b)}, id, |c|, b * BLOCK_SIZE), id, b * BLOCK_SIZE, c)
  {
    var b := |held| / BLOCK_SIZE;
    var c := Overlay(BlankTail(held), off, data);
    RewindMark(staged, id, held);
    StoredBelowExtends(StageStore(staged - {BlockKey(id, |held|, b)}, id, |held|, b * BLOCK_SIZE), id, b * BLOCK_SIZE, held, c);
    KeysExtend(id, b * BLOCK_SIZE, |held|, |c|);
  }

  /** With the mark rewound to the block boundary, the buffer tracks the blanked content. */
  lemma AppendBlanksTail(s: Buffer, staged: map<SliceKey, seq<byte>>, id: nat, held: seq<byte>, off: nat, data: seq<byte>, s': Buffer)
    requires Restarted(s, staged, id, held, off, data, s')
    ensures StageTracks(s'.(flushedLength := Boundary(s.length)), staged - {BlockKey(id, s.length, s.length / BLOCK_SIZE)}, id,
                        Overlay(BlankTail(held), off, data))
  {
    RestartBlanksBlocks(s, staged, id, held, off, data, s');
    RestartBlanksBytes(s, staged, id, held, off, data, s');
    RestartKeepsStored(staged, id, held, off, data);
  }

  /** Growing a partly filled block makes the block staged for it stale, and only that one. */
  lemma LiveRestarts(staged: map<SliceKey, seq<byte>>, id: nat, held: seq<byte>, length: nat)
    requires |held| < length && |held| % BLOCK_SIZE != 0
    requires StoredBelow(StageStore(Live(staged, id, |held|), id, |held|, |held|), id, |held|, held)
    ensures Live(staged, id, length) == Live(staged, id, |held|) - {BlockKey(id, |held|, |held| / BLOCK_SIZE)}
  {
    var b := |held| / BLOCK_SIZE;
    forall key | key in staged && key.id == id
      ensures Stale(key, length) <==> Stale(key, |held|) || key == BlockKey(id, |held|, b)
    {
      if !Stale(key, |held|) {
        assert key in Live(staged, id, |held|);
        assert key == BlockKey(id, |held|, key.index) && key.index <= b;
      }
    }
  }

  lemma RestartHolds(s: Buffer, staged: map<SliceKey, seq<byte>>, id: nat, held: seq<byte>, off: nat, data: seq<byte>, s': Buffer)
    requires Holding(s, staged, id, held) && s.flushedLength == s.length && s.length % BLOCK_SIZE != 0
    requires WellFormedBuffer(s') && 0 < |data| && off + |data| <= CHUNK_SIZE && off == s.length && Written(s, s', off, data)
    ensures Holding(s', staged, id, Overlay(BlankTail(held), off, data))
  {
    var live := Live(staged, id, s.length);
    AppendBlanksTail(s, live, id, held, off, data, s');
    LiveRestarts(staged, id, held, s'.length);
    assert Rewound(s') == s'.(flushedLength := Boundary(s.length));
  }

  // -- all events

  lemma AppendBlanksOnly(w: Writer, held: seq<byte>, e: Event, w': Writer)
    requires WellFormedBuffer(w.buf) && Near(held, w.content, w.buf.flushedLength) && |held| == w.buf.length && e.Append? && Step(w, e, w')
    ensures Near(HeldNext(w, e, held), w'.content, w'.buf.flushedLength)
  {
  }

  lemma AppendFollows(w: Writer, held: seq<byte>, e: Event, w': Writer)
    requires Follows(w, held) && e.Append? && Step(w, e, w')
    ensures Follows(w', HeldNext(w, e, held))
  {
    AppendBlanksOnly(w, held, e, w');
    if Restarts(w) {
      RestartHolds(w.buf, w.staged, w.id, held, e.off, e.data, w'.buf);
    } else {
      AppendHolds(w.buf, w.staged, w.id, held, e.off, e.data, w'.buf);
    }
  }

  lemma FlushFollows(w: Writer, held: seq<byte>, e: Event, w': Writer)
    requires Follows(w, held) && (e.BulkFlush? || e.FullFlush?) && Step(w, e, w')
    ensures Follows(w', held) && w'.id != EMPTY_SLICE_ID
  {
    var offset := if e.BulkFlush? then e.offset else RoundUp(w.buf.length);
    AssignId(w, held, e.newId);
    if w.buf.flushedLength <= offset {
      StageHolds(w.buf, w.staged, w'.id, held, offset, e.blocks, w'.buf, w'.staged);
    }
  }

  lemma OtherFollows(w: Writer, held: seq<byte>, e: Event, w': Writer)
    requires Follows(w, held) && e.OtherStages? && Step(w, e, w')
    ensures Follows(w', held)
  {
    if w.id != EMPTY_SLICE_ID {
      var live, live' := Live(w.staged, w.id, w.buf.length), Live(w'.staged, w.id, w.buf.length);
      forall b | 0 <= b < BlockCount(Mark(w.buf))
        ensures BlockStored(live', w.id, held, b)
      {
        assert BlockStored(live, w.id, held, b);
      }
    }
  }

  /** Every event, in any state, keeps staged plus buffered blocks equal to what they hold. */
  lemma StepKeeps(w: Writer, held: seq<byte>, e: Event, w': Writer)
    requires Follows(w, held) && Step(w, e, w')
    ensures Follows(w', HeldNext(w, e, held))
  {
    match e
    case Append(_, _) => AppendFollows(w, held, e, w');
    case BulkFlush(_, _, _) => FlushFollows(w, held, e, w');
    case FullFlush(_, _, _) => FlushFollows(w, held, e, w');
    case OtherStages(_, _) => OtherFollows(w, held, e, w');
    case _ =>
  }

  // ---- when what is stored is what was written ----------------------------------------

  lemma AllStaged(s: Buffer, staged: map<SliceKey, seq<byte>>, id: nat, content: seq<byte>)
    requires StageTracks(s, staged, id, content)
    ensures Stored(staged, id, content) <==> s.flushedLength == s.length
  {
    if s.flushedLength < s.length {
      var b := BlockCount(s.flushedLength);
      assert BlockKey(id, s.length, b) !in staged;
      assert !BlockStored(staged, id, content, b);
    }
  }

  lemma StoredMonotone(staged: map<SliceKey, seq<byte>>, staged': map<SliceKey, seq<byte>>, id: nat, content: seq<byte>)
    requires forall key :: key in staged ==> key in staged' && staged'[key] == staged[key]
    ensures Stored(staged, id, content) ==> Stored(staged', id, content)
  {
    if Stored(staged, id, content) {
      forall b | 0 <= b < BlockCount(|content|)
        ensures BlockStored(staged', id, content, b)
      {
        assert BlockStored(staged, id, content, b);
      }
    }
  }

  lemma StoredUnique(staged: map<SliceKey, seq<byte>>, id: nat, c: seq<byte>, d: seq<byte>)
    requires |c| == |d| && Stored(staged, id, c) && Stored(staged, id, d)
    ensures c == d
  {
    forall i | 0 <= i < |c|
      ensures c[i] == d[i]
    {
      var b := i / BLOCK_SIZE;
      assert BlockStored(staged, id, c, b) && BlockStored(staged, id, d, b);
      var n := BlockKey(id, |c|, b).size;
      assert c[b * BLOCK_SIZE..b * BLOCK_SIZE + n][i - b * BLOCK_SIZE] == d[b * BLOCK_SIZE..b * BLOCK_SIZE + n][i - b * BLOCK_SIZE];
    }
  }

  lemma TailNotStaged(w: Writer, held: seq<byte>)
    requires Follows(w, held) && w.id != EMPTY_SLICE_ID && w.buf.flushedLength < w.buf.length
    ensures !Stored(w.staged, w.id, w.content)
  {
    var b := BlockCount(Mark(w.buf));
    assert BlockKey(w.id, w.buf.length, b) !in Live(w.staged, w.id, w.buf.length);
    assert !BlockStored(w.staged, w.id, w.content, b);
  }

  /** The blocks a reader asks for are there, with the bytes written, exactly when everything
      is staged and nothing was blanked. */
  lemma StoredExactly(w: Writer, held: seq<byte>)
    requires Follows(w, held) && w.id != EMPTY_SLICE_ID
    ensures w.buf.flushedLength == w.buf.length ==> Stored(w.staged, w.id, held)
    ensures Stored(w.staged, w.id, w.content) <==> w.buf.flushedLength == w.buf.length && held == w.content
  {
    if w.buf.flushedLength < w.buf.length {
      TailNotStaged(w, held);
    } else {
      var live := Live(w.staged, w.id, w.buf.length);
      AllStaged(w.buf, live, w.id, held);
      StoredMonotone(live, w.staged, w.id, held);
      if Stored(w.staged, w.id, w.content) { StoredUnique(w.staged, w.id, w.content, held); }
    }
  }

  /** A full flush stages every block before it publishes. */
  lemma FullFlushPublishes(w: Writer, held: seq<byte>, e: Event, w': Writer)
    requires Follows(w, held) && e.FullFlush? && Step(w, e, w')
    ensures e.blocks == |PendingBlocks(w.buf, RoundUp(w.buf.length))| ==>
              w'.buf.flushedLength == w'.buf.length && Stored(w'.staged, w'.id, held)
    ensures w'.phase == Done ==> w'.record == Some(|w.content|) && (Published(w') <==> held == w.content)
  {
    FlushFollows(w, held, e, w');
    AssignId(w, held, e.newId);
    FullMark(w.buf, w.staged, w'.id, held, e.blocks, w'.buf, w'.staged);
    StoredExactly(w', held);
  }

  lemma PendingCount(s: Buffer, offset: nat)
    requires WellFormedBuffer(s) && MarkAligned(Rewound(s)) && BlocksBuffered(Rewound(s))
    ensures |PendingBlocks(s, offset)| == FlushEnd(Rewound(s), offset) - BlockCount(Mark(s))
  {
    assert PendingBlocks(s, offset) == PendingBlocks(Rewound(s), offset);
    PendingIsRange(Rewound(s), offset);
  }

  lemma FullMark(s: Buffer, staged: map<SliceKey, seq<byte>>, id: nat, held: seq<byte>, n: nat,
                 s': Buffer, staged': map<SliceKey, seq<byte>>)
    requires Holding(s, staged, id, held) && id != EMPTY_SLICE_ID && WellFormedBuffer(s')
    requires StageEffect(s, staged, id, PendingBlocks(s, RoundUp(s.length)), n, s', staged')
    ensures n == |PendingBlocks(s, RoundUp(s.length))| ==> s'.flushedLength == s'.length
  {
    StageHolds(s, staged, id, held, RoundUp(s.length), n, s', staged');
    PendingCount(s, RoundUp(s.length));
    FullReach(s);
  }

  lemma FullReach(s: Buffer)
    requires s.flushedLength <= s.length
    ensures var n := FlushEnd(Rewound(s), RoundUp(s.length)) - BlockCount(Mark(s));
            (if n == 0 then s.flushedLength else Min((BlockCount(Mark(s)) + n) * BLOCK_SIZE, s.length)) == s.length
  {
  }

  /** Committing an idle slice publishes its whole buffered length without staging anything.
      That is safe exactly when nothing is left unstaged and nothing was blanked. */
  lemma CommitIdleExact(w: Writer, held: seq<byte>, e: Event, w': Writer)
    requires Follows(w, held) && e.CommitIdle? && e.committed && Step(w, e, w') && w.buf.length != 0
    ensures Published(w') <==> w.buf.flushedLength == w.buf.length && held == w.content
  {
    StoredExactly(w', held);
  }

  /** After a successful bulk flush the slice is idle. The request carries the length it was
      made at, which may be behind by now; nothing is left unstaged exactly when the whole
      blocks below that length reach the present one. */
  lemma BulkFlushLeavesTail(w: Writer, held: seq<byte>, e: Event, w': Writer)
    requires Follows(w, held) && e.BulkFlush? && Step(w, e, w') && w'.phase == Idle
    ensures w'.buf.flushedLength == Max(w.buf.flushedLength, Boundary(e.offset))
    ensures w'.buf.flushedLength == w'.buf.length <==> Reaches(w, e)
  {
    AssignId(w, held, e.newId);
    BulkMark(w.buf, w.staged, w'.id, held, e.offset, e.blocks, w'.buf, w'.staged);
  }

  /** A bulk flush that staged every pending block has reached the last whole block. */
  lemma BulkMark(s: Buffer, staged: map<SliceKey, seq<byte>>, id: nat, held: seq<byte>, offset: nat, n: nat,
                 s': Buffer, staged': map<SliceKey, seq<byte>>)
    requires Holding(s, staged, id, held) && id != EMPTY_SLICE_ID && s.flushedLength <= offset <= s.length && WellFormedBuffer(s')
    requires n == |PendingBlocks(s, offset)| && StageEffect(s, staged, id, PendingBlocks(s, offset), n, s', staged')
    ensures s'.length == s.length && s'.flushedLength == Max(s.flushedLength, Boundary(offset))
  {
    StageHolds(s, staged, id, held, offset, n, s', staged');
    PendingCount(s, offset);
  }

  predicate Reaches(w: Writer, e: Event)
    requires e.BulkFlush?
  {
    w.buf.flushedLength == w.buf.length || Boundary(e.offset) == w.buf.length
  }

  /** Bulk flush, then commit while idle: what is published is what was written exactly when
      nothing had been blanked and the flush reached the length, which for a request made at
      the present length means a whole number of blocks. */
  lemma BulkThenCommitExact(w: Writer, held: seq<byte>, e: Event, w1: Writer, e1: Event, w2: Writer)
    requires Follows(w, held) && e.BulkFlush? && Step(w, e, w1) && w1.phase == Idle
    requires e1.CommitIdle? && e1.committed && Step(w1, e1, w2)
    ensures Published(w2) <==> Reaches(w, e) && held == w.content
    ensures w.buf.flushedLength < w.buf.length == e.offset ==> (Reaches(w, e) <==> w.buf.length % BLOCK_SIZE == 0)
  {
    FlushFollows(w, held, e, w1);
    BulkFlushLeavesTail(w, held, e, w1);
    CommitIdleExact(w1, held, e1, w2);
  }

  // ---- whole runs -------------------------------------------------------------

  ghost predicate StepAt(events: seq<Event>, trace: seq<Writer>, i: nat)
    requires i < |events| && |trace| == |events| + 1 && WellFormedBuffer(trace[i].buf)
  {
    Step(trace[i], events[i], trace[i + 1])
  }

  function NewWriter(staged: map<SliceKey, seq<byte>>): Writer {
    Writer(Idle, EMPTY_SLICE_ID, NewBuffer(), staged, None, [])
  }

  /** Any events in any order. */
  ghost predicate IsRun(events: seq<Event>, trace: seq<Writer>) {
    && |trace| == |events| + 1
    && trace[0] == NewWriter(trace[0].staged)
    && (forall i :: 0 <= i < |trace| ==> WellFormedBuffer(trace[i].buf))
    && (forall i :: 0 <= i < |events| ==> StepAt(events, trace, i))
  }

  function HeldAt(events: seq<Event>, trace: seq<Writer>, i: nat): seq<byte>
    requires i <= |events| < |trace|
  {
    if i == 0 then [] else HeldNext(trace[i - 1], events[i - 1], HeldAt(events, trace, i - 1))
  }

  lemma {:induction false} RunFollows(events: seq<Event>, trace: seq<Writer>, i: nat)
    requires IsRun(events, trace) && i < |trace|
    ensures Follows(trace[i], HeldAt(events, trace, i))
  {
    if i == 0 {
      HeldNothing(NewBuffer().slots);
    } else {
      RunFollows(events, trace, i - 1);
      assert StepAt(events, trace, i - 1);
      StepKeeps(trace[i - 1], HeldAt(events, trace, i - 1), events[i - 1], trace[i]);
    }
  }

  /** A write that starts a released block again although its first part is not zero. */
  ghost predicate Loses(w: Writer, e: Event) {
    e.Append? && Restarts(w) && exists p :: Boundary(w.buf.length) <= p < |w.content| && w.content[p] != 0
  }

  /** An idle commit with blocks still unstaged. */
  predicate Premature(w: Writer, e: Event) { e.CommitIdle? && e.committed && w.buf.flushedLength != w.buf.length }

  lemma LossStep(w: Writer, held: seq<byte>, e: Event, w': Writer)
    requires Follows(w, held) && Step(w, e, w')
    ensures HeldNext(w, e, held) == w'.content <==> held == w.content && !Loses(w, e)
  {
    if e.Append? {
      var before := if Restarts(w) then BlankTail(held) else held;
      var after := HeldNext(w, e, held);
      forall p | 0 <= p < |held| && p < e.off
        ensures after[p] == before[p] && w'.content[p] == w.content[p]
      {
      }
      if held != w.content {
        var p :| 0 <= p < |held| && held[p] != w.content[p];
        assert after[p] == 0 != w'.content[p];
      } else if Loses(w, e) {
        var p :| Boundary(w.buf.length) <= p < |w.content| && w.content[p] != 0;
        assert after[p] == 0 != w'.content[p];
      } else {
        assert before == w.content;
      }
    }
  }

  /** What is held is what was written. */
  ghost predicate Intact(events: seq<Event>, trace: seq<Writer>, i: nat)
    requires i <= |events| < |trace|
  {
    HeldAt(events, trace, i) == trace[i].content
  }

  ghost predicate Lossless(events: seq<Event>, trace: seq<Writer>, i: nat)
    requires i <= |events| < |trace|
  {
    forall j :: 0 <= j < i ==> !Loses(trace[j], events[j])
  }

  ghost predicate LosslessUpTo(events: seq<Event>, trace: seq<Writer>, i: nat)
    requires i <= |events| < |trace|
  {
    i > 0 ==> LosslessUpTo(events, trace, i - 1) && !Loses(trace[i - 1], events[i - 1])
  }

  lemma {:induction false} LosslessIsUpTo(events: seq<Event>, trace: seq<Writer>, i: nat)
    requires i <= |events| < |trace|
    ensures Lossless(events, trace, i) <==> LosslessUpTo(events, trace, i)
  {
    if i > 0 { LosslessIsUpTo(events, trace, i - 1); }
  }

  lemma {:induction false} IntactExactly(events: seq<Event>, trace: seq<Writer>, i: nat)
    requires IsRun(events, trace) && i < |trace|
    ensures Intact(events, trace, i) <==> LosslessUpTo(events, trace, i)
  {
    if i > 0 {
      IntactExactly(events, trace, i - 1);
      RunLossStep(events, trace, i - 1);
    }
  }

  /** Writing after a complete stage whose commit failed: over any further writes, flushes and
      retries, what is held is what was written exactly when every write that started a
      released block again found its first part zero. */
  lemma AppendAfterFailedCommit(events: seq<Event>, trace: seq<Writer>, i: nat)
    requires IsRun(events, trace) && i < |trace|
    ensures Intact(events, trace, i) <==> Lossless(events, trace, i)
  {
    IntactExactly(events, trace, i);
    LosslessIsUpTo(events, trace, i);
  }

  lemma RunLossStep(events: seq<Event>, trace: seq<Writer>, i: nat)
    requires IsRun(events, trace) && i < |events|
    ensures Intact(events, trace, i + 1) <==> Intact(events, trace, i) && !Loses(trace[i], events[i])
  {
    RunFollows(events, trace, i);
    assert StepAt(events, trace, i);
    LossStep(trace[i], HeldAt(events, trace, i), events[i], trace[i + 1]);
  }

  /** Nothing was published, or what was has everything staged. */
  predicate NothingMissing(w: Writer) { w.record.None? || w.buf.flushedLength == w.buf.length }

  /** Only a premature idle commit publishes with blocks unstaged. */
  lemma MarkStep(w: Writer, held: seq<byte>, e: Event, w': Writer)
    requires Follows(w, held) && Step(w, e, w')
    ensures NothingMissing(w') <==> NothingMissing(w) && !Premature(w, e)
  {
    if e.FullFlush? { FullFlushPublishes(w, held, e, w'); }
  }

  lemma RunMarkStep(events: seq<Event>, trace: seq<Writer>, i: nat)
    requires IsRun(events, trace) && i < |events|
    ensures NothingMissing(trace[i + 1]) <==> NothingMissing(trace[i]) && !Premature(trace[i], events[i])
  {
    RunFollows(events, trace, i);
    assert StepAt(events, trace, i);
    MarkStep(trace[i], HeldAt(events, trace, i), events[i], trace[i + 1]);
  }

  lemma {:induction false} MarkExact(events: seq<Event>, trace: seq<Writer>, i: nat)
    requires IsRun(events, trace) && i < |trace|
    ensures NothingMissing(trace[i]) <==> forall j :: 0 <= j < i ==> !Premature(trace[j], events[j])
  {
    if i > 0 {
      MarkExact(events, trace, i - 1);
      RunMarkStep(events, trace, i - 1);
    }
  }

  /** In every state of every run, whatever fails and however often it is retried: a published
      record names the length written, and it is one a reader can follow to exactly the bytes
      written if and only if no idle commit was premature and no write lost bytes. */
  lemma PublicationExact(events: seq<Event>, trace: seq<Writer>, i: nat)
    requires IsRun(events, trace) && i < |trace| && trace[i].record.Some?
    ensures trace[i].id != EMPTY_SLICE_ID && trace[i].record.value == |trace[i].content| > 0
    ensures Published(trace[i]) <==> Lossless(events, trace, i) && forall j :: 0 <= j < i ==> !Premature(trace[j], events[j])
  {
    RunFollows(events, trace, i);
    StoredExactly(trace[i], HeldAt(events, trace, i));
    AppendAfterFailedCommit(events, trace, i);
    MarkExact(events, trace, i);
  }

  /** A writer that is done has published whatever was written to it. */
  lemma DoneIsPublished(events: seq<Event>, trace: seq<Writer>, i: nat)
    requires IsRun(events, trace) && i < |trace| && trace[i].phase == Done && trace[i].content != []
    ensures trace[i].record == Some(|trace[i].content|)
  {
    RunFollows(events, trace, i);
  }

  /** Bulk flushes at any length, full flushes, failures and retries are all safe. */
  lemma PublicationSafety(events: seq<Event>, trace: seq<Writer>, i: nat)
    requires IsRun(events, trace) && i < |trace|
    requires Lossless(events, trace, i) && forall j :: 0 <= j < i ==> !Premature(trace[j], events[j])
    ensures Published(trace[i])
  {
    if trace[i].record.Some? { PublicationExact(events, trace, i); }
  }

  // ---- concrete runs that go wrong ------------------------------------------------

  /** One block and one byte, all zero, as a first write leaves them. */
  function BlockAndByte(): (s: Buffer)
    ensures WellFormed(s.slots) && s.length == BLOCK_SIZE + 1 && s.flushedLength == 0
    ensures s.slots[0].Data? && s.slots[0].length == BLOCK_SIZE
    ensures s.slots[1].Data? && s.slots[1].length == 1
    ensures forall b :: 2 <= b < BLOCKS_PER_CHUNK ==> s.slots[b].Empty?
    ensures forall p :: 0 <= p < PAGES_PER_BLOCK ==> s.slots[0].pages[p] == Some(Zeros(PAGE_SIZE))
    ensures forall p :: 0 <= p < PAGES_PER_BLOCK ==> s.slots[1].pages[p] == if p == 0 then Some(Zeros(PAGE_SIZE)) else None
    ensures s.totalPageCnt == Held(s.slots)
  {
    var full := Data(BLOCK_SIZE, seq(PAGES_PER_BLOCK, _ => Some(Zeros(PAGE_SIZE))));
    var tail := Data(1, seq(PAGES_PER_BLOCK, p => if p == 0 then Some(Zeros(PAGE_SIZE)) else None));
    var slots := seq(BLOCKS_PER_CHUNK, b => if b == 0 then full else if b == 1 then tail else Empty);
    Buffer(BLOCK_SIZE + 1, 0, Held(slots), slots)
  }

  /** A concrete run of four states that publishes a record whose last block was never
      staged: write one block and one byte, bulk flush, commit. */
  lemma UnstagedTailPublished() returns (w1: Writer, n: nat, w2: Writer, w3: Writer)
    ensures WellFormedBuffer(NewBuffer()) && WellFormedBuffer(w1.buf) && WellFormedBuffer(w2.buf)
    ensures Step(NewWriter(map[]), Append(0, Zeros(BLOCK_SIZE + 1)), w1)
    ensures Step(w1, BulkFlush(2, BLOCK_SIZE + 1, n), w2)
    ensures Step(w2, CommitIdle(true), w3)
    ensures !Published(w3)
  {
    w1 := FirstWrite();
    n, w2 := BulkFlushCanSucceed(w1, 2);
    w3 := w2.(phase := Done, record := Some(w2.buf.length));
    BulkThenCommitExact(w1, w1.content, BulkFlush(2, BLOCK_SIZE + 1, n), w2, CommitIdle(true), w3);
  }

  lemma {:induction false} MarkStaysInChunk(s: Buffer, bs: seq<nat>)
    requires WellFormed(s.slots) && s.flushedLength <= CHUNK_SIZE
    requires forall i :: 0 <= i < |bs| ==> bs[i] < BLOCKS_PER_CHUNK
    ensures ReleaseAll(s, bs).flushedLength <= CHUNK_SIZE && WellFormed(ReleaseAll(s, bs).slots)
  {
    ReleaseAllSlots(s, bs);
    if bs != [] {
      MarkStaysInChunk(s, bs[..|bs| - 1]);
      assert BlockLen(ReleaseAll(s, bs[..|bs| - 1]).slots[bs[|bs| - 1]]) <= BLOCK_SIZE;
    }
  }

  lemma FlushedIsWellFormed(s: Buffer, bs: seq<nat>)
    requires WellFormedBuffer(s) && forall i :: 0 <= i < |bs| ==> bs[i] < BLOCKS_PER_CHUNK
    ensures WellFormedBuffer(Flushed(s, bs))
  {
    ReleaseAllSlots(s, bs);
    MarkStaysInChunk(s, bs);
  }

  lemma BulkFlushCanSucceed(w: Writer, newId: nat) returns (n: nat, w': Writer)
    requires WellFormedBuffer(w.buf) && w.phase == Dirty && FreshId(w, newId) && w.buf.flushedLength <= w.buf.length
    ensures Step(w, BulkFlush(newId, w.buf.length, n), w') && w'.phase == Idle && w'.buf.length == w.buf.length
  {
    var bs := PendingBlocks(w.buf, w.buf.length);
    n := |bs|;
    assert bs[..n] == bs;
    FlushedIsWellFormed(w.buf, bs);
    w' := w.(id := IdOf(w, newId), phase := Idle, buf := Flushed(w.buf, bs), staged := StageAll(w.staged, IdOf(w, newId), w.buf, bs));
  }

  lemma FirstWriteStep(w1: Writer)
    requires w1 == NewWriter(map[]).(phase := Dirty, buf := BlockAndByte(), content := Overlay([], 0, Zeros(BLOCK_SIZE + 1)))
    ensures WellFormedBuffer(NewBuffer()) && Step(NewWriter(map[]), Append(0, Zeros(BLOCK_SIZE + 1)), w1)
  {
    HeldNothing(NewBuffer().slots);
    forall g | 0 <= g < PAGES_PER_CHUNK
      ensures HasPage(w1.buf.slots, g) <==> PageUnder(g, 0, BLOCK_SIZE + 1)
    {
      PagesUnder(g, 0, BLOCK_SIZE + 1);
    }
  }

  lemma NewWriterFollows()
    ensures WellFormedBuffer(NewBuffer()) && Follows(NewWriter(map[]), [])
  {
    HeldNothing(NewBuffer().slots);
  }

  lemma FirstWrite() returns (w1: Writer)
    ensures WellFormedBuffer(NewBuffer()) && Step(NewWriter(map[]), Append(0, Zeros(BLOCK_SIZE + 1)), w1)
    ensures Follows(w1, w1.content) && w1.phase == Dirty && w1.id == EMPTY_SLICE_ID && w1.staged == map[]
    ensures w1.buf.length == BLOCK_SIZE + 1 && w1.buf.flushedLength == 0
  {
    w1 := NewWriter(map[]).(phase := Dirty, buf := BlockAndByte(), content := Overlay([], 0, Zeros(BLOCK_SIZE + 1)));
    FirstWriteStep(w1);
    NewWriterFollows();
    AppendFollows(NewWriter(map[]), [], Append(0, Zeros(BLOCK_SIZE + 1)), w1);
  }

  /** Only one page, holding byte `v` at `off`. */
  function OnePage(off: nat, v: byte): (slots: seq<Block>)
    requires off < PAGE_SIZE
    ensures WellFormed(slots) && slots[0].Data? && slots[0].length == off + 1
    ensures forall b :: 1 <= b < BLOCKS_PER_CHUNK ==> slots[b].Empty?
    ensures forall p :: 0 <= p < PAGES_PER_BLOCK ==> slots[0].pages[p] == if p == 0 then Some(Zeros(PAGE_SIZE)[off := v]) else None
  {
    var block := Data(off + 1, seq(PAGES_PER_BLOCK, p => if p == 0 then Some(Zeros(PAGE_SIZE)[off := v]) else None));
    seq(BLOCKS_PER_CHUNK, b => if b == 0 then block else Empty)
  }

  /** One byte written into a buffer that holds no block. */
  ghost function WithByte(s: Buffer, v: byte): Buffer
    requires s.length < PAGE_SIZE && Held(s.slots) <= s.totalPageCnt
  {
    Buffer(s.length + 1, s.flushedLength, s.totalPageCnt - Held(s.slots) + Held(OnePage(s.length, v)), OnePage(s.length, v))
  }

  lemma WithByteIsWritten(s: Buffer, v: byte)
    requires WellFormedBuffer(s) && s.length < PAGE_SIZE && forall b :: 0 <= b < BLOCKS_PER_CHUNK ==> s.slots[b].Empty?
    ensures WellFormedBuffer(WithByte(s, v)) && Written(s, WithByte(s, v), s.length, [v])
  {
    forall g | 0 <= g < PAGES_PER_CHUNK
      ensures HasPage(WithByte(s, v).slots, g) <==> PageUnder(g, s.length, s.length + 1)
    {
      PagesUnder(g, s.length, s.length + 1);
    }
  }

  lemma FullFlushCanStage(w: Writer, newId: nat, committed: bool) returns (n: nat, w': Writer)
    requires WellFormedBuffer(w.buf) && w.phase == Dirty && FreshId(w, newId)
    ensures Step(w, FullFlush(newId, n, committed), w') && n == |PendingBlocks(w.buf, RoundUp(w.buf.length))|
  {
    var bs := PendingBlocks(w.buf, RoundUp(w.buf.length));
    n := |bs|;
    assert bs[..n] == bs;
    FlushedIsWellFormed(w.buf, bs);
    w' := w.(id := IdOf(w, newId), buf := Flushed(w.buf, bs), staged := StageAll(w.staged, IdOf(w, newId), w.buf, bs),
             phase := if committed then Done else Dirty, record := if committed then Some(w.buf.length) else w.record);
  }

  /** A concrete run that publishes a byte as zero: write one byte, full flush whose commit
      fails, write another byte, full flush. */
  lemma BlankedBytePublished() returns (w1: Writer, n: nat, w2: Writer, w3: Writer, m: nat, w4: Writer)
    ensures WellFormedBuffer(NewBuffer()) && WellFormedBuffer(w1.buf) && WellFormedBuffer(w2.buf) && WellFormedBuffer(w3.buf)
    ensures Step(NewWriter(map[]), Append(0, [1]), w1) && Step(w1, FullFlush(2, n, false), w2)
    ensures Step(w2, Append(1, [1]), w3) && Step(w3, FullFlush(2, m, true), w4)
    ensures w4.content == [1, 1] && !Published(w4)
  {
    w1, n, w2 := ByteStaged();
    w3 := w2.(phase := Dirty, buf := WithByte(w2.buf, 1), content := Overlay(w2.content, 1, [1]));
    WithByteIsWritten(w2.buf, 1);
    AppendFollows(w2, [1], Append(1, [1]), w3);
    m, w4 := FullFlushCanStage(w3, 2, true);
    var held := HeldNext(w2, Append(1, [1]), [1]);
    FullFlushPublishes(w3, held, FullFlush(2, m, true), w4);
    assert held[0] == 0 && w3.content[0] == 1;
    assert w3.content == [1, 1];
  }

  /** One byte written and staged; the commit failed. */
  lemma ByteStaged() returns (w1: Writer, n: nat, w2: Writer)
    ensures WellFormedBuffer(NewBuffer()) && WellFormedBuffer(w1.buf) && WellFormedBuffer(w2.buf)
    ensures Step(NewWriter(map[]), Append(0, [1]), w1) && Step(w1, FullFlush(2, n, false), w2)
    ensures Follows(w2, [1]) && w2.content == [1] && w2.phase == Dirty && w2.id == 2
    ensures w2.buf.flushedLength == w2.buf.length == 1 && forall b :: 0 <= b < BLOCKS_PER_CHUNK ==> w2.buf.slots[b].Empty?
  {
    NewWriterFollows();
    w1 := NewWriter(map[]).(phase := Dirty, buf := WithByte(NewBuffer(), 1), content := Overlay([], 0, [1]));
    assert w1.content == [1];
    WithByteIsWritten(NewBuffer(), 1);
    AppendFollows(NewWriter(map[]), [], Append(0, [1]), w1);
    n, w2 := FullFlushCanStage(w1, 2, false);
    FlushFollows(w1, [1], FullFlush(2, n, false), w2);
    FullFlushPublishes(w1, [1], FullFlush(2, n, false), w2);
  }
}
