/** The page pool and the slice buffer as the objects they are: fields updated in place by
    nested block and page loops (components/storage/src/slice_buffer.rs,
    components/storage/src/pool/memory_pool.rs). Each method is tied to BufferModel. */
module SliceBuffers {
  import opened Common
  import opened Paging
  import opened BufferModel
  import opened SliceTypes

  /** A fixed number of page-sized buffers. Every queued buffer is zero, because a page is
      cleared when it comes back. */
  class MemoryPagePool {
    const pageCnt: nat
    var queue: seq<seq<byte>>

    ghost predicate Valid()
      reads this
    {
      |queue| <= pageCnt && forall i :: 0 <= i < |queue| ==> queue[i] == Zeros(PAGE_SIZE)
    }

    constructor (pageCnt: nat)
      ensures Valid() && this.pageCnt == pageCnt && |queue| == pageCnt
    {
      this.pageCnt := pageCnt;
      queue := seq(pageCnt, _ => Zeros(PAGE_SIZE));
    }

    method TryAcquirePage() returns (page: Option<seq<byte>>)
      requires Valid()
      modifies this
      ensures Valid()
      ensures page.Some? <==> old(|queue|) > 0
      ensures page.Some? ==> page.value == Zeros(PAGE_SIZE) && |queue| == old(|queue|) - 1
      ensures page.None? ==> queue == old(queue)
    {
      if queue == [] {
        return None;
      }
      page := Some(queue[0]);
      queue := queue[1..];
    }

    method Recycle(buffer: seq<byte>)
      requires Valid() && |buffer| == PAGE_SIZE
      modifies this
      ensures Valid() && |queue| == Min(old(|queue|) + 1, pageCnt)
    {
      if |queue| < pageCnt {
        queue := queue + [Zeros(|buffer|)];
      }
    }

    /** Takes `n` pages or none: pages already taken are dropped, hence returned, on failure. */
    method TryAcquirePages(n: nat) returns (pages: Option<seq<seq<byte>>>)
      requires Valid()
      modifies this
      ensures Valid()
      ensures pages.Some? <==> n <= old(|queue|)
      ensures pages.None? ==> |queue| == old(|queue|)
      ensures pages.Some? ==> |pages.value| == n && |queue| == old(|queue|) - n
      ensures pages.Some? ==> forall i :: 0 <= i < n ==> pages.value[i] == Zeros(PAGE_SIZE)
    {
      var reserved: seq<seq<byte>> := [];
      while |reserved| < n
        invariant |reserved| <= n
        invariant Valid() && |queue| + |reserved| == old(|queue|)
        invariant forall i :: 0 <= i < |reserved| ==> reserved[i] == Zeros(PAGE_SIZE)
      {
        var page := TryAcquirePage();
        if page.None? {
          for i := 0 to |reserved|
            invariant Valid() && |queue| == i
          {
            Recycle(reserved[i]);
          }
          return None;
        }
        reserved := reserved + [page.value];
      }
      return Some(reserved);
    }

    /** Dropping a row of pages returns each of them. */
    method RecycleAll(pages: seq<Option<seq<byte>>>)
      requires Valid() && |queue| + CountPages(pages) <= pageCnt
      requires forall i :: 0 <= i < |pages| && pages[i].Some? ==> |pages[i].value| == PAGE_SIZE
      modifies this
      ensures Valid() && |queue| == old(|queue|) + CountPages(pages)
    {
      for i := 0 to |pages|
        invariant Valid() && |queue| == old(|queue|) + CountPages(pages[..i])
      {
        assert pages[..i + 1][..i] == pages[..i];
        CountPagesPrefix(pages, i + 1);
        if pages[i].Some? {
          Recycle(pages[i].value);
        }
      }
      assert pages[..|pages|] == pages;
    }
  }

  lemma {:induction false} CountPagesPrefix(pages: seq<Option<seq<byte>>>, n: nat)
    requires n <= |pages|
    ensures CountPages(pages[..n]) <= CountPages(pages)
    decreases |pages|
  {
    if n < |pages| {
      assert pages[..|pages| - 1][..n] == pages[..n];
      CountPagesPrefix(pages[..|pages| - 1], n);
    } else {
      assert pages[..n] == pages;
    }
  }

  /** Remote or local object storage: a put replaces the object atomically, or fails and
      changes nothing. */
  class ObjectStorage {
    var objects: map<SliceKey, seq<byte>>
    var log: seq<SliceKey>

    ghost function State(): Store
      reads this
    {
      Store(objects, log)
    }

    method Put(key: SliceKey, bytes: seq<byte>) returns (ok: bool)
      modifies this
      ensures State() == if ok then PutBlock(old(State()), key, bytes) else old(State())
    {
      ok := *;
      if ok {
        objects := objects[key := bytes];
        log := log + [key];
      }
    }
  }

  /** What the writer sees of the stage cache: the bytes accepted under each key. Staging a
      key that is already there succeeds without looking at the bytes. */
  class StageArea {
    var staged: map<SliceKey, seq<byte>>

    method Stage(key: SliceKey, bytes: seq<byte>) returns (ok: bool)
      modifies this
      ensures old(key in staged) ==> ok
      ensures staged == if ok then StageBlock(old(staged), key, bytes) else old(staged)
    {
      if key in staged {
        return true;
      }
      ok := *;
      if ok {
        staged := staged[key := bytes];
      }
    }
  }

  lemma {:induction false} IncreasingCount(xs: seq<nat>, s: set<nat>)
    requires (forall i, j :: 0 <= i < j < |xs| ==> xs[i] < xs[j]) && forall x :: x in s <==> x in xs
    ensures |s| == |xs|
  {
    if xs == [] {
      assert s == {};
    } else {
      var n := |xs| - 1;
      assert xs == xs[..n] + [xs[n]];
      IncreasingCount(xs[..n], s - {xs[n]});
    }
  }

  lemma NeededCount(slots: seq<Block>, off: nat, to: nat, missing: seq<nat>)
    requires WellFormed(slots) && off < to <= CHUNK_SIZE
    requires forall i, j :: 0 <= i < j < |missing| ==> missing[i] < missing[j]
    requires forall i :: 0 <= i < |missing| ==> missing[i] < PAGES_PER_CHUNK
    requires forall g :: 0 <= g < PAGES_PER_CHUNK ==> (g in missing <==> FirstPage(off) <= g <= LastPage(to) && !HasPage(slots, g))
    ensures |PagesNeeded(slots, off, to)| == |missing|
  {
    var needed := PagesNeeded(slots, off, to);
    forall g
      ensures g in needed <==> g in missing
    {
      if 0 <= g < PAGES_PER_CHUNK { PagesUnder(g, off, to); }
    }
    IncreasingCount(missing, needed);
  }

  /** A fresh page under global number `g`. */
  function InstallPage(slots: seq<Block>, g: nat, page: seq<byte>): seq<Block>
    requires WellFormed(slots) && g < PAGES_PER_CHUNK
  {
    var b := slots[g / PAGES_PER_BLOCK];
    var d := if b.Empty? then NewDataBlock() else b;
    slots[g / PAGES_PER_BLOCK := Data(d.length, d.pages[g % PAGES_PER_BLOCK := Some(page)])]
  }

  lemma InstallPageEffect(s: seq<Block>, g: nat)
    requires WellFormed(s) && g < PAGES_PER_CHUNK && !HasPage(s, g)
    ensures var s' := InstallPage(s, g, Zeros(PAGE_SIZE));
            && WellFormed(s') && Held(s') == Held(s) + 1
            && (forall b :: 0 <= b < BLOCKS_PER_CHUNK ==>
                              && BlockLen(s'[b]) == BlockLen(s[b])
                              && (s'[b].Data? <==> s[b].Data? || b == g / PAGES_PER_BLOCK))
            && (forall h :: 0 <= h < PAGES_PER_CHUNK ==> (HasPage(s', h) <==> HasPage(s, h) || h == g))
            && (forall pos :: 0 <= pos < CHUNK_SIZE ==> ByteAt(s', pos) == ByteAt(s, pos))
  {
    var s' := InstallPage(s, g, Zeros(PAGE_SIZE));
    var i, p := g / PAGES_PER_BLOCK, g % PAGES_PER_BLOCK;
    var d := if s[i].Empty? then NewDataBlock() else s[i];
    if s[i].Empty? { CountNoPages(d.pages); }
    CountPagesUpdate(d.pages, p, Some(Zeros(PAGE_SIZE)));
    HeldUpdate(s, i, s'[i]);
  }

  class SliceBuffer {
    const pool: MemoryPagePool
    var length: nat
    var flushedLength: nat
    var totalPageCnt: nat
    var slots: seq<Block>

    ghost function State(): Buffer
      reads this
    {
      Buffer(length, flushedLength, totalPageCnt, slots)
    }

    /** Pages are either queued or held by someone; this buffer holds some of them. */
    ghost predicate Valid()
      reads this, pool
    {
      && WellFormedBuffer(State())
      && pool.Valid()
      && |pool.queue| + Held(slots) <= pool.pageCnt
    }

    constructor (pool: MemoryPagePool)
      requires pool.Valid()
      ensures Valid() && this.pool == pool && State() == NewBuffer()
    {
      this.pool := pool;
      length, flushedLength, totalPageCnt := 0, 0, 0;
      slots := seq(BLOCKS_PER_CHUNK, _ => Empty);
      new;
      HeldNothing(slots);
    }

    /** All or nothing: either every page under the write is held afterwards, or the pool
        was too small and nothing changed. */
    method ReservePages(off: nat, to: nat) returns (ok: bool)
      requires Valid() && off < to <= CHUNK_SIZE
      modifies this`slots, this`totalPageCnt, pool
      ensures Valid()
      ensures ok <==> |PagesNeeded(old(slots), off, to)| <= old(|pool.queue|)
      ensures !ok ==> State() == old(State()) && |pool.queue| == old(|pool.queue|)
      ensures ok ==> Reserved(old(slots), slots, FirstPage(off), LastPage(to))
      ensures totalPageCnt - Held(slots) == old(totalPageCnt - Held(slots))
      ensures |pool.queue| + Held(slots) == old(|pool.queue| + Held(slots))
    {
      var first, last := off / PAGE_SIZE, (to - 1) / PAGE_SIZE;
      var missing := FindMissing(slots, first, last);
      NeededCount(slots, off, to, missing);
      var reserved := pool.TryAcquirePages(|missing|);
      if reserved.None? {
        return false;
      }
      slots := InstallPages(slots, missing, reserved.value, first, last);
      totalPageCnt := totalPageCnt + |reserved.value|;
      return true;
    }

    /** A write either happens in full or, when it is rejected, changes neither bytes nor
        length nor pages; the three reasons for rejection are exactly these. */
    method WriteAt(off: nat, data: seq<byte>) returns (r: Result<nat>)
      requires Valid()
      modifies this, pool
      ensures Valid()
      ensures r.Err? <==> data != [] && (off + |data| > CHUNK_SIZE || off < old(flushedLength) ||
                                         |PagesNeeded(old(slots), off, off + |data|)| > old(|pool.queue|))
      ensures r.Err? ==> r.error == if off + |data| > CHUNK_SIZE then InvalidRange
                                    else if off < old(flushedLength) then InvalidWriteOffset else PagePoolExhausted
      ensures r.Err? || data == [] ==> State() == old(State()) && |pool.queue| == old(|pool.queue|)
      ensures r.Ok? ==> r.value == |data|
      ensures r.Ok? && data != [] ==> Written(old(State()), State(), off, data)
      ensures |pool.queue| + Held(slots) == old(|pool.queue| + Held(slots))
    {
      if data == [] {
        return Ok(0);
      }
      if off + |data| > CHUNK_SIZE {
        return Err(InvalidRange);
      }
      if off < flushedLength {
        return Err(InvalidWriteOffset);
      }
      var ok := ReservePages(off, off + |data|);
      if !ok {
        return Err(PagePoolExhausted);
      }
      ghost var reserved := slots;
      slots := CopyData(slots, off, data);
      length := Max(length, off + |data|);
      ReserveThenCopy(old(State()), reserved, State(), off, data);
      return Ok(|data|);
    }

    /** Empties a stored block, which drops its pages, and moves the flushed mark. */
    method ReleaseBlock(b: nat)
      requires Valid() && b < BLOCKS_PER_CHUNK && slots[b].Data?
      modifies this`slots, this`flushedLength, pool
      ensures Valid() && State() == Release(old(State()), b)
      ensures Held(slots) == old(Held(slots)) - HeldIn(old(slots)[b])
      ensures |pool.queue| + Held(slots) == old(|pool.queue| + Held(slots))
    {
      var block := slots[b];
      HeldUpdate(slots, b, Empty);
      slots := slots[b := Empty];
      flushedLength := Max(flushedLength, b * BLOCK_SIZE + block.length);
      pool.RecycleAll(block.pages);
    }

    /** Stores the pending blocks up to `offset` one by one and stops at the first failure.
        Whatever the exit, the blocks before it are stored and released, the others are
        untouched, and the page counter moves with the pages held. */
    method FlushBulkTo(id: nat, offset: nat, storage: ObjectStorage) returns (r: Result<nat>, ghost n: nat)
      requires Valid()
      modifies this, pool, storage
      ensures Valid()
      ensures n <= |PendingBlocks(old(State()), offset)|
      ensures State() == Flushed(old(State()), PendingBlocks(old(State()), offset)[..n])
      ensures storage.State() == PutAll(old(storage.State()), id, old(State()), PendingBlocks(old(State()), offset)[..n])
      ensures r.Err? ==> r.error == if old(flushedLength) > offset then InvalidWriteOffset
                                    else if offset > CHUNK_SIZE then InvalidRange else StorageFailed
      ensures old(flushedLength) > offset || offset > CHUNK_SIZE ==> r.Err? && n == 0
      ensures old(flushedLength) <= offset <= CHUNK_SIZE ==> (r.Ok? <==> n == |PendingBlocks(old(State()), offset)|)
      ensures r.Ok? ==> r.value == old(Held(slots)) - Held(slots)
      ensures |pool.queue| + Held(slots) == old(|pool.queue| + Held(slots))
    {
      n := 0;
      if flushedLength > offset {
        return Err(InvalidWriteOffset), 0;
      }
      if offset > CHUNK_SIZE {
        return Err(InvalidRange), 0;
      }
      var pending := PendingIndexes(slots, offset);
      var released;
      released, n := FlushPending(id, pending, storage);
      assert pending[..|pending|] == pending;
      return if released.Some? then Ok(released.value) else Err(StorageFailed), n;
    }

    method FlushPending(id: nat, pending: seq<nat>, storage: ObjectStorage) returns (released: Option<nat>, ghost n: nat)
      requires Valid() && Walk(slots, pending)
      modifies this, pool, storage
      ensures Valid() && n <= |pending| && (released.Some? <==> n == |pending|)
      ensures State() == Flushed(old(State()), pending[..n])
      ensures storage.State() == PutAll(old(storage.State()), id, old(State()), pending[..n])
      ensures released.Some? ==> released.value == old(Held(slots)) - Held(slots)
      ensures |pool.queue| + Held(slots) == old(|pool.queue| + Held(slots))
    {
      ghost var was, stored := State(), storage.State();
      var cnt: nat := 0;
      for i := 0 to |pending|
        invariant Valid() && State() == Flushed(was, pending[..i])
        invariant storage.State() == PutAll(stored, id, was, pending[..i])
        invariant cnt == Held(was.slots) - Held(slots)
        invariant |pool.queue| + Held(slots) == old(|pool.queue| + Held(slots))
      {
        NextPending(was, stored, map[], id, pending, i);
        cnt := cnt + CountPages(slots[pending[i]].pages);
        var ok := FlushOne(id, pending[i], storage);
        if !ok {
          return None, i;
        }
      }
      return Some(cnt), |pending|;
    }

    method FlushOne(id: nat, b: nat, storage: ObjectStorage) returns (ok: bool)
      requires Valid() && b < BLOCKS_PER_CHUNK && slots[b].Data?
      modifies this`slots, this`flushedLength, this`totalPageCnt, pool, storage
      ensures Valid()
      ensures !ok ==> State() == old(State()) && storage.State() == old(storage.State())
      ensures ok ==> && old(HeldIn(slots[b]) <= totalPageCnt) && State() == FlushedOne(old(State()), b)
                     && storage.State() == PutBlock(old(storage.State()), KeyOf(id, old(State()), b), BlockBytes(old(slots)[b]))
                     && Held(slots) == old(Held(slots)) - CountPages(old(slots)[b].pages)
      ensures |pool.queue| + Held(slots) == old(|pool.queue| + Held(slots))
    {
      var block := slots[b];
      var bytes := GatherBlock(block);
      ok := storage.Put(SliceKey(id, b, block.length), bytes);
      if ok {
        HeldUpdate(slots, b, Empty);
        ReleaseBlock(b);
        totalPageCnt := totalPageCnt - CountPages(block.pages);
      }
    }

    /** The same walk into the stage cache, except that the page counter is only settled
        once every block is staged. */
    method Stage(id: nat, offset: nat, cache: StageArea) returns (r: Result<nat>, ghost n: nat)
      requires Valid()
      modifies this, pool, cache
      ensures Valid()
      ensures r.Err? ==> r.error == if old(flushedLength) > offset then InvalidWriteOffset
                                    else if offset > CHUNK_SIZE then InvalidRange else StorageFailed
      ensures old(flushedLength) > offset || offset > CHUNK_SIZE ==>
                r.Err? && State() == old(State()) && cache.staged == old(cache.staged)
      ensures old(flushedLength) <= offset <= CHUNK_SIZE ==>
                && StageEffect(old(State()), old(cache.staged), id, PendingBlocks(old(State()), offset), n, State(), cache.staged)
                && (r.Ok? <==> n == |PendingBlocks(old(State()), offset)|)
      ensures r.Ok? ==> r.value == old(Held(slots)) - Held(slots)
      ensures |pool.queue| + Held(slots) == old(|pool.queue| + Held(slots))
    {
      n := 0;
      if flushedLength > offset {
        return Err(InvalidWriteOffset), 0;
      }
      if offset > CHUNK_SIZE {
        return Err(InvalidRange), 0;
      }
      var pending := PendingIndexes(slots, offset);
      var released;
      released, n := StageAndSettle(id, pending, cache);
      return if released.Some? then Ok(released.value) else Err(StorageFailed), n;
    }

    method StageAndSettle(id: nat, pending: seq<nat>, cache: StageArea) returns (released: Option<nat>, ghost n: nat)
      requires Valid() && Walk(slots, pending)
      modifies this, pool, cache
      ensures Valid() && (released.Some? <==> n == |pending|)
      ensures StageEffect(old(State()), old(cache.staged), id, pending, n, State(), cache.staged)
      ensures released.Some? ==> released.value == old(Held(slots)) - Held(slots)
      ensures |pool.queue| + Held(slots) == old(|pool.queue| + Held(slots))
    {
      released, n := StagePending(id, pending, cache);
      if released.Some? {
        assert pending[..n] == pending;
        Settle(old(State()), pending, released.value);
      }
    }

    method StagePending(id: nat, pending: seq<nat>, cache: StageArea) returns (released: Option<nat>, ghost n: nat)
      requires Valid() && Walk(slots, pending)
      modifies this`slots, this`flushedLength, pool, cache
      ensures Valid() && n <= |pending| && (released.Some? <==> n == |pending|)
      ensures State() == ReleaseAll(old(State()), pending[..n])
      ensures cache.staged == StageAll(old(cache.staged), id, old(State()), pending[..n])
      ensures released.Some? ==> released.value == old(Held(slots)) - Held(slots)
      ensures |pool.queue| + Held(slots) == old(|pool.queue| + Held(slots))
    {
      ghost var was, staged := State(), cache.staged;
      var cnt: nat := 0;
      for i := 0 to |pending|
        invariant Valid() && State() == ReleaseAll(was, pending[..i])
        invariant cache.staged == StageAll(staged, id, was, pending[..i])
        invariant cnt == Held(was.slots) - Held(slots)
        invariant |pool.queue| + Held(slots) == old(|pool.queue| + Held(slots))
      {
        NextPending(was, Store(map[], []), staged, id, pending, i);
        cnt := cnt + CountPages(slots[pending[i]].pages);
        var ok := StageOne(id, pending[i], cache);
        if !ok {
          return None, i;
        }
      }
      return Some(cnt), |pending|;
    }

    method Settle(ghost was: Buffer, ghost pending: seq<nat>, released: nat)
      requires Valid() && WellFormedBuffer(was) && Walk(was.slots, pending)
      requires State() == ReleaseAll(was, pending)
      requires released == Held(was.slots) - Held(slots)
      modifies this`totalPageCnt
      ensures Valid() && State() == Flushed(was, pending)
    {
      totalPageCnt := totalPageCnt - released;
    }

    method StageOne(id: nat, b: nat, cache: StageArea) returns (ok: bool)
      requires Valid() && b < BLOCKS_PER_CHUNK && slots[b].Data?
      modifies this`slots, this`flushedLength, pool, cache
      ensures Valid()
      ensures !ok ==> State() == old(State()) && cache.staged == old(cache.staged)
      ensures ok ==> && State() == Release(old(State()), b)
                     && cache.staged == StageBlock(old(cache.staged), KeyOf(id, old(State()), b), BlockBytes(old(slots)[b]))
                     && Held(slots) == old(Held(slots)) - CountPages(old(slots)[b].pages)
      ensures |pool.queue| + Held(slots) == old(|pool.queue| + Held(slots))
    {
      var bytes := GatherBlock(slots[b]);
      ok := cache.Stage(SliceKey(id, b, slots[b].length), bytes);
      if ok {
        ReleaseBlock(b);
      }
    }
  }

  /** Distinct data blocks, in ascending order. */
  ghost predicate Walk(slots: seq<Block>, bs: seq<nat>) {
    && (forall j :: 0 <= j < |bs| ==> bs[j] < |slots| && slots[bs[j]].Data?)
    && (forall j, k :: 0 <= j < k < |bs| ==> bs[j] < bs[k])
  }

  /** One more block of a walk over the pending list: it is still the block it was at the
      start, and the walk's effect grows by exactly that block. */
  lemma NextPending(s: Buffer, st: Store, staged: map<SliceKey, seq<byte>>, id: nat, bs: seq<nat>, i: nat)
    requires WellFormed(s.slots) && Walk(s.slots, bs) && i < |bs| && Held(s.slots) <= s.totalPageCnt
    ensures ReleaseAll(s, bs[..i]).slots[bs[i]] == s.slots[bs[i]]
    ensures ReleaseAll(s, bs[..i + 1]) == Release(ReleaseAll(s, bs[..i]), bs[i])
    ensures Held(Flushed(s, bs[..i]).slots) <= Flushed(s, bs[..i]).totalPageCnt
    ensures HeldIn(s.slots[bs[i]]) <= Flushed(s, bs[..i]).totalPageCnt
    ensures Flushed(s, bs[..i + 1]) == FlushedOne(Flushed(s, bs[..i]), bs[i])
    ensures PutAll(st, id, s, bs[..i + 1])
            == PutBlock(PutAll(st, id, s, bs[..i]), KeyOf(id, s, bs[i]), BlockBytes(s.slots[bs[i]]))
    ensures StageAll(staged, id, s, bs[..i + 1])
            == StageBlock(StageAll(staged, id, s, bs[..i]), KeyOf(id, s, bs[i]), BlockBytes(s.slots[bs[i]]))
  {
    assert bs[..i + 1][..i] == bs[..i];
    ReleaseAllSlots(s, bs[..i]);
    HeldUpdate(ReleaseAll(s, bs[..i]).slots, bs[i], Empty);
  }

  method PendingIndexes(slots: seq<Block>, offset: nat) returns (pending: seq<nat>)
    requires WellFormed(slots)
    ensures pending == Pending(slots, offset, BLOCKS_PER_CHUNK)
  {
    pending := [];
    for b := 0 to |slots|
      invariant pending == Pending(slots, offset, b)
    {
      if slots[b].Data? && (b + 1) * BLOCK_SIZE <= offset {
        pending := pending + [b];
      }
    }
  }

  /** Assembles a block's bytes page by page; a missing page contributes zeros. */
  method GatherBlock(block: Block) returns (bytes: seq<byte>)
    requires WellFormedBlock(block) && block.Data?
    ensures bytes == BlockBytes(block)
  {
    bytes := [];
    while |bytes| < block.length
      invariant |bytes| <= block.length
      invariant forall k :: 0 <= k < |bytes| ==> bytes[k] == BlockByte(block, k)
    {
      var p, po := |bytes| / PAGE_SIZE, |bytes| % PAGE_SIZE;
      var n := Min(PAGE_SIZE - po, block.length - |bytes|);
      var piece := if block.pages[p].None? then Zeros(n) else block.pages[p].value[po..po + n];
      forall k | |bytes| <= k < |bytes| + n
        ensures piece[k - |bytes|] == BlockByte(block, k)
      {
        assert k / PAGE_SIZE == p && k % PAGE_SIZE == po + (k - |bytes|);
      }
      bytes := bytes + piece;
    }
  }

  /** The nested block and page loops of a write; every page they need is already held, so
      taking a page on the way never happens. */
  method CopyData(s: seq<Block>, off: nat, data: seq<byte>) returns (s': seq<Block>)
    requires WellFormed(s) && 0 < |data| && off + |data| <= CHUNK_SIZE
    requires forall g :: FirstPage(off) <= g <= LastPage(off + |data|) ==> HasPage(s, g)
    ensures WellFormed(s') && Copied(s, s', off, data)
  {
    s' := s;
    var total := 0;
    CopiedNothing(s, off);
    while total < |data|
      invariant total <= |data| && WellFormed(s') && Copied(s, s', off, data[..total])
    {
      var blockIndex, blockOffset := (off + total) / BLOCK_SIZE, (off + total) % BLOCK_SIZE;
      var blockTotal, toBlock := 0, Min(|data| - total, BLOCK_SIZE - blockOffset);
      var start := total;
      while blockTotal < toBlock
        invariant blockTotal <= toBlock && total == start + blockTotal
        invariant WellFormed(s') && Copied(s, s', off, data[..total])
      {
        var pageIndex, pageOffset := (blockOffset + blockTotal) / PAGE_SIZE, (blockOffset + blockTotal) % PAGE_SIZE;
        var toPage := Min(toBlock - blockTotal, PAGE_SIZE - pageOffset);
        s' := CopyPage(s, s', off, data, total, blockIndex, pageIndex, pageOffset, toPage);
        blockTotal, total := blockTotal + toPage, total + toPage;
      }
    }
    assert data[..total] == data;
  }

  lemma PageIsHeld(s: seq<Block>, m: seq<Block>, off: nat, data: seq<byte>, total: nat, b: nat, p: nat, po: nat)
    requires WellFormed(s) && WellFormed(m) && off + |data| <= CHUNK_SIZE && total < |data| && po < PAGE_SIZE && p < PAGES_PER_BLOCK
    requires off + total == b * BLOCK_SIZE + p * PAGE_SIZE + po
    requires forall g :: FirstPage(off) <= g <= LastPage(off + |data|) ==> HasPage(s, g)
    requires Copied(s, m, off, data[..total])
    ensures b < BLOCKS_PER_CHUNK && m[b].Data? && m[b].pages[p].Some?
  {
    var g := b * PAGES_PER_BLOCK + p;
    assert FirstPage(off) <= g <= LastPage(off + |data|) && HasPage(s, g) && HasPage(m, g);
    assert g / PAGES_PER_BLOCK == b && g % PAGES_PER_BLOCK == p;
  }

  lemma PageIsCopied(s: seq<Block>, m: seq<Block>, off: nat, data: seq<byte>, total: nat, b: nat, p: nat, po: nat, n: nat)
    requires WellFormed(s) && WellFormed(m) && off + |data| <= CHUNK_SIZE && b < BLOCKS_PER_CHUNK && p < PAGES_PER_BLOCK
    requires 0 < n && total + n <= |data| && po + n <= PAGE_SIZE && off + total == b * BLOCK_SIZE + p * PAGE_SIZE + po
    requires m[b].Data? && m[b].pages[p].Some? && Copied(s, m, off, data[..total])
    ensures var s' := CopyIntoPage(m, b, p, po, data[total..total + n]);
            WellFormed(s') && Copied(s, s', off, data[..total + n])
  {
    var piece := data[total..total + n];
    var s' := CopyIntoPage(m, b, p, po, piece);
    CopyIntoPageIsCopied(m, b, p, po, piece);
    CopiedTwice(s, m, s', off, data[..total], piece);
    assert data[..total] + piece == data[..total + n];
  }

  /** One turn of the page loop. */
  method CopyPage(ghost s: seq<Block>, m: seq<Block>, ghost off: nat, data: seq<byte>, total: nat,
                  b: nat, p: nat, po: nat, n: nat) returns (s': seq<Block>)
    requires WellFormed(s) && WellFormed(m) && off + |data| <= CHUNK_SIZE
    requires 0 < n && total + n <= |data| && po + n <= PAGE_SIZE && p < PAGES_PER_BLOCK
    requires off + total == b * BLOCK_SIZE + p * PAGE_SIZE + po
    requires forall g :: FirstPage(off) <= g <= LastPage(off + |data|) ==> HasPage(s, g)
    requires Copied(s, m, off, data[..total])
    ensures WellFormed(s') && Copied(s, s', off, data[..total + n])
  {
    PageIsHeld(s, m, off, data, total, b, p, po);
    PageIsCopied(s, m, off, data, total, b, p, po, n);
    s' := CopyIntoPage(m, b, p, po, data[total..total + n]);
  }

  method FindMissing(slots: seq<Block>, first: nat, last: nat) returns (missing: seq<nat>)
    requires WellFormed(slots) && first <= last < PAGES_PER_CHUNK
    ensures forall i :: 0 <= i < |missing| ==> missing[i] <= last
    ensures forall g :: 0 <= g < PAGES_PER_CHUNK ==> (g in missing <==> first <= g <= last && !HasPage(slots, g))
    ensures forall i, j :: 0 <= i < j < |missing| ==> missing[i] < missing[j]
  {
    missing := [];
    for g := first to last + 1
      invariant forall i :: 0 <= i < |missing| ==> missing[i] < g
      invariant forall h :: 0 <= h < PAGES_PER_CHUNK ==> (h in missing <==> first <= h < g && !HasPage(slots, h))
      invariant forall i, j :: 0 <= i < j < |missing| ==> missing[i] < missing[j]
    {
      if !HasPage(slots, g) {
        missing := missing + [g];
      }
    }
  }

  method InstallPages(s: seq<Block>, missing: seq<nat>, pages: seq<seq<byte>>, first: nat, last: nat) returns (s': seq<Block>)
    requires WellFormed(s) && first <= last < PAGES_PER_CHUNK && |pages| == |missing|
    requires forall i :: 0 <= i < |pages| ==> pages[i] == Zeros(PAGE_SIZE)
    requires forall g :: 0 <= g < PAGES_PER_CHUNK ==> (g in missing <==> first <= g <= last && !HasPage(s, g))
    requires forall i, j :: 0 <= i < j < |missing| ==> missing[i] < missing[j]
    requires forall i :: 0 <= i < |missing| ==> missing[i] <= last
    ensures WellFormed(s') && Held(s') == Held(s) + |missing|
    ensures Reserved(s, s', first, last)
  {
    s' := s;
    for i := 0 to |missing|
      invariant WellFormed(s') && Held(s') == Held(s) + i
      invariant forall b :: 0 <= b < BLOCKS_PER_CHUNK ==>
                              && BlockLen(s'[b]) == BlockLen(s[b])
                              && (s[b].Data? ==> s'[b].Data?)
                              && (s'[b].Data? && !s[b].Data? ==> first / PAGES_PER_BLOCK <= b <= last / PAGES_PER_BLOCK)
      invariant forall g :: 0 <= g < PAGES_PER_CHUNK ==> (HasPage(s', g) <==> HasPage(s, g) || g in missing[..i])
      invariant forall pos :: 0 <= pos < CHUNK_SIZE ==> ByteAt(s', pos) == ByteAt(s, pos)
    {
      assert missing[i] in missing;
      InstallPageEffect(s', missing[i]);
      assert missing[..i + 1] == missing[..i] + [missing[i]];
      s' := InstallPage(s', missing[i], pages[i]);
    }
    assert missing[..|missing|] == missing;
    ReservedFromPages(s, s', first, last);
  }

  lemma ReservedFromPages(s: seq<Block>, s': seq<Block>, first: nat, last: nat)
    requires WellFormed(s) && WellFormed(s') && first <= last < PAGES_PER_CHUNK
    requires forall b :: 0 <= b < BLOCKS_PER_CHUNK ==>
                           && BlockLen(s'[b]) == BlockLen(s[b])
                           && (s[b].Data? ==> s'[b].Data?)
                           && (s'[b].Data? && !s[b].Data? ==> first / PAGES_PER_BLOCK <= b <= last / PAGES_PER_BLOCK)
    requires forall g :: 0 <= g < PAGES_PER_CHUNK ==> (HasPage(s', g) <==> HasPage(s, g) || first <= g <= last)
    requires forall pos :: 0 <= pos < CHUNK_SIZE ==> ByteAt(s', pos) == ByteAt(s, pos)
    ensures Reserved(s, s', first, last)
  {
    forall b | first / PAGES_PER_BLOCK <= b <= last / PAGES_PER_BLOCK
      ensures s'[b].Data?
    {
      var g := Max(first, b * PAGES_PER_BLOCK);
      assert g / PAGES_PER_BLOCK == b && HasPage(s', g);
    }
  }
}
