/** All slice buffers of a mount draw their pages from one pool
    (components/storage/src/slice_buffer.rs, components/storage/src/pool/memory_pool.rs). */
module SharedPools {
  import opened Common
  import opened Paging
  import opened BufferModel
  import opened SliceTypes
  import opened SliceBuffers

  function TotalHeld(rows: seq<seq<Block>>): nat {
    if rows == [] then 0 else TotalHeld(rows[..|rows| - 1]) + Held(rows[|rows| - 1])
  }

  lemma {:induction false} RowWithin(rows: seq<seq<Block>>, i: nat)
    requires i < |rows|
    ensures Held(rows[i]) <= TotalHeld(rows)
  {
    if i < |rows| - 1 { RowWithin(rows[..|rows| - 1], i); }
  }

  lemma RowAdded(rows: seq<seq<Block>>, row: seq<Block>)
    ensures TotalHeld(rows + [row]) == TotalHeld(rows) + Held(row)
  {
    assert (rows + [row])[..|rows|] == rows;
  }

  /** Only one buffer's pages changed. */
  lemma {:induction false} OneChanged(rows: seq<seq<Block>>, i: nat, rows': seq<seq<Block>>)
    requires i < |rows| == |rows'| && forall j :: 0 <= j < |rows| && j != i ==> rows'[j] == rows[j]
    ensures TotalHeld(rows') + Held(rows[i]) == TotalHeld(rows) + Held(rows'[i])
  {
    var n := |rows| - 1;
    if i < n {
      OneChanged(rows[..n], i, rows'[..n]);
    } else {
      assert rows'[..n] == rows[..n];
    }
  }

  ghost function Rows(bs: seq<SliceBuffer>): (rows: seq<seq<Block>>)
    reads bs
    ensures |rows| == |bs| && forall i :: 0 <= i < |bs| ==> rows[i] == bs[i].slots
  {
    if bs == [] then [] else Rows(bs[..|bs| - 1]) + [bs[|bs| - 1].slots]
  }

  ghost predicate Shares(b: SliceBuffer, pool: MemoryPagePool)
    reads b
  {
    b.pool == pool && WellFormedBuffer(b.State())
  }

  ghost predicate AllShare(bs: seq<SliceBuffer>, pool: MemoryPagePool)
    reads bs
  {
    forall i :: 0 <= i < |bs| ==> Shares(bs[i], pool)
  }

  ghost predicate Distinct(bs: seq<SliceBuffer>) { forall i, j :: 0 <= i < j < |bs| ==> bs[i] != bs[j] }

  /** Every page of the pool is queued or held by exactly one of the buffers. */
  ghost predicate Account(bs: seq<SliceBuffer>, pool: MemoryPagePool)
    reads bs, pool
  {
    && pool.Valid() && AllShare(bs, pool) && Distinct(bs)
    && |pool.queue| + TotalHeld(Rows(bs)) == pool.pageCnt
  }

  lemma AccountAdded(bs: seq<SliceBuffer>, b: SliceBuffer, pool: MemoryPagePool)
    requires Account(bs, pool) && Shares(b, pool) && Held(b.slots) == 0 && b !in bs
    ensures Account(bs + [b], pool)
  {
    assert Rows(bs + [b]) == Rows(bs) + [b.slots];
    RowAdded(Rows(bs), b.slots);
  }

  /** An operation moved pages between the pool and one buffer only. */
  lemma AccountKept(bs: seq<SliceBuffer>, pool: MemoryPagePool, i: nat, rows: seq<seq<Block>>, queued: nat)
    requires i < |bs| == |rows| && pool.Valid() && AllShare(bs, pool) && Distinct(bs)
    requires forall j :: 0 <= j < |bs| && j != i ==> bs[j].slots == rows[j]
    requires queued + TotalHeld(rows) == pool.pageCnt && |pool.queue| + Held(bs[i].slots) == queued + Held(rows[i])
    ensures Account(bs, pool)
  {
    OneChanged(rows, i, Rows(bs));
  }

  lemma AccountWithin(bs: seq<SliceBuffer>, pool: MemoryPagePool, i: nat)
    requires Account(bs, pool) && i < |bs|
    ensures Shares(bs[i], pool) && pool.Valid() && |pool.queue| + Held(bs[i].slots) <= pool.pageCnt
  {
    RowWithin(Rows(bs), i);
  }

  // an operation on one buffer, and what the pool's account needs of it

  /** A write happened in full, or it was empty or refused and nothing changed. */
  ghost predicate WriteOutcome(s: Buffer, s': Buffer, off: nat, data: seq<byte>, r: Result<nat>)
    requires WellFormed(s.slots) && WellFormed(s'.slots)
  {
    && (r.Err? || data == [] ==> s' == s)
    && (r.Ok? ==> r.value == |data|)
    && (r.Ok? && data != [] ==> off + |data| <= CHUNK_SIZE && Written(s, s', off, data))
  }

  /** The first `n` pending blocks were stored, all of them on success. */
  ghost predicate FlushOutcome(s: Buffer, st: Store, id: nat, offset: nat, n: nat, s': Buffer, st': Store, r: Result<nat>)
    requires WellFormedBuffer(s)
  {
    var bs := PendingBlocks(s, offset);
    && n <= |bs| && s' == Flushed(s, bs[..n]) && st' == PutAll(st, id, s, bs[..n])
    && (r.Ok? <==> s.flushedLength <= offset <= CHUNK_SIZE && n == |bs|)
  }

  /** The first `n` pending blocks were staged, all of them on success. */
  ghost predicate StageOutcome(s: Buffer, staged: map<SliceKey, seq<byte>>, id: nat, offset: nat, n: nat,
                               s': Buffer, staged': map<SliceKey, seq<byte>>, r: Result<nat>)
    requires WellFormedBuffer(s)
  {
    if s.flushedLength <= offset <= CHUNK_SIZE
    then StageEffect(s, staged, id, PendingBlocks(s, offset), n, s', staged') && (r.Ok? <==> n == |PendingBlocks(s, offset)|)
    else r.Err? && s' == s && staged' == staged
  }

  method NewOne(pool: MemoryPagePool) returns (b: SliceBuffer)
    requires pool.Valid()
    ensures fresh(b) && Shares(b, pool) && Held(b.slots) == 0 && b.length == 0
  {
    b := new SliceBuffer(pool);
    HeldNothing(b.slots);
  }

  method WriteOne(b: SliceBuffer, off: nat, data: seq<byte>) returns (r: Result<nat>)
    requires Shares(b, b.pool) && b.pool.Valid() && |b.pool.queue| + Held(b.slots) <= b.pool.pageCnt
    modifies b, b.pool
    ensures Shares(b, b.pool) && b.pool.Valid() && |b.pool.queue| + Held(b.slots) == old(|b.pool.queue| + Held(b.slots))
    ensures WriteOutcome(old(b.State()), b.State(), off, data, r)
  {
    r := b.WriteAt(off, data);
  }

  method FlushOne(b: SliceBuffer, id: nat, offset: nat, storage: ObjectStorage) returns (r: Result<nat>, ghost n: nat)
    requires Shares(b, b.pool) && b.pool.Valid() && |b.pool.queue| + Held(b.slots) <= b.pool.pageCnt
    modifies b, b.pool, storage
    ensures Shares(b, b.pool) && b.pool.Valid() && |b.pool.queue| + Held(b.slots) == old(|b.pool.queue| + Held(b.slots))
    ensures FlushOutcome(old(b.State()), old(storage.State()), id, offset, n, b.State(), storage.State(), r)
  {
    r, n := b.FlushBulkTo(id, offset, storage);
  }

  method StageOne(b: SliceBuffer, id: nat, offset: nat, cache: StageArea) returns (r: Result<nat>, ghost n: nat)
    requires Shares(b, b.pool) && b.pool.Valid() && |b.pool.queue| + Held(b.slots) <= b.pool.pageCnt
    modifies b, b.pool, cache
    ensures Shares(b, b.pool) && b.pool.Valid() && |b.pool.queue| + Held(b.slots) == old(|b.pool.queue| + Held(b.slots))
    ensures StageOutcome(old(b.State()), old(cache.staged), id, offset, n, b.State(), cache.staged, r)
  {
    r, n := b.Stage(id, offset, cache);
  }

  method RecycleBlocks(pool: MemoryPagePool, slots: seq<Block>)
    requires pool.Valid() && WellFormed(slots) && |pool.queue| + Held(slots) <= pool.pageCnt
    modifies pool
    ensures pool.Valid() && |pool.queue| == old(|pool.queue|) + Held(slots)
  {
    for i := 0 to |slots|
      invariant pool.Valid() && |pool.queue| == old(|pool.queue|) + Held(slots[..i])
    {
      assert slots[..i + 1][..i] == slots[..i];
      HeldPrefix(slots, i + 1);
      if slots[i].Data? { pool.RecycleAll(slots[i].pages); }
    }
    assert slots[..|slots|] == slots;
  }

  class PoolUsers {
    const pool: MemoryPagePool
    var buffers: seq<SliceBuffer>

    ghost predicate Valid()
      reads this, pool, buffers
    {
      Account(buffers, pool)
    }

    constructor (pageCnt: nat)
      ensures Valid() && buffers == [] && pool.pageCnt == pageCnt
    {
      pool := new MemoryPagePool(pageCnt);
      buffers := [];
    }

    method Open() returns (b: SliceBuffer)
      requires Valid()
      modifies this`buffers
      ensures Valid() && fresh(b) && buffers == old(buffers) + [b] && b.length == 0
    {
      b := NewOne(pool);
      Add(b);
    }

    method Add(b: SliceBuffer)
      requires Valid() && Shares(b, pool) && Held(b.slots) == 0 && b !in buffers
      modifies this`buffers
      ensures Valid() && buffers == old(buffers) + [b]
    {
      AccountAdded(buffers, b, pool);
      ghost var more := buffers + [b];
      assert Account(more, pool);
      buffers := buffers + [b];
    }

    /** A write in one buffer, successful or refused, keeps the pool's account; so does a flush
        and so does a stage, wherever it stops. Nothing but that buffer and the pool changes. */
    method WriteAt(i: nat, off: nat, data: seq<byte>) returns (r: Result<nat>)
      requires Valid() && i < |buffers|
      modifies buffers[i], pool
      ensures Valid() && buffers == old(buffers)
      ensures WriteOutcome(old(buffers[i].State()), buffers[i].State(), off, data, r)
    {
      ghost var rows, queued := Rows(buffers), |pool.queue|;
      var b := buffers[i];
      AccountWithin(buffers, pool, i);
      r := WriteOne(b, off, data);
      AccountKept(buffers, pool, i, rows, queued);
    }

    method FlushBulkTo(i: nat, id: nat, offset: nat, storage: ObjectStorage) returns (r: Result<nat>, ghost n: nat)
      requires Valid() && i < |buffers|
      modifies buffers[i], pool, storage
      ensures Valid() && buffers == old(buffers)
      ensures FlushOutcome(old(buffers[i].State()), old(storage.State()), id, offset, n, buffers[i].State(), storage.State(), r)
    {
      ghost var rows, queued := Rows(buffers), |pool.queue|;
      var b := buffers[i];
      AccountWithin(buffers, pool, i);
      r, n := FlushOne(b, id, offset, storage);
      AccountKept(buffers, pool, i, rows, queued);
    }

    method Stage(i: nat, id: nat, offset: nat, cache: StageArea) returns (r: Result<nat>, ghost n: nat)
      requires Valid() && i < |buffers|
      modifies buffers[i], pool, cache
      ensures Valid() && buffers == old(buffers)
      ensures StageOutcome(old(buffers[i].State()), old(cache.staged), id, offset, n, buffers[i].State(), cache.staged, r)
    {
      ghost var rows, queued := Rows(buffers), |pool.queue|;
      var b := buffers[i];
      AccountWithin(buffers, pool, i);
      r, n := StageOne(b, id, offset, cache);
      AccountKept(buffers, pool, i, rows, queued);
    }

    /** Dropping a buffer gives every page it holds back. */
    method Close()
      requires Valid() && buffers != []
      modifies this`buffers, pool
      ensures Valid() && buffers == old(buffers)[..|old(buffers)| - 1]
      ensures |pool.queue| == old(|pool.queue|) + Held(old(buffers)[|buffers|].slots)
    {
      var b := buffers[|buffers| - 1];
      AccountWithin(buffers, pool, |buffers| - 1);
      RecycleBlocks(pool, b.slots);
      buffers := buffers[..|buffers| - 1];
      assert Rows(buffers) == old(Rows(buffers))[..|buffers|];
    }
  }

  lemma {:induction false} HeldPrefix(slots: seq<Block>, n: nat)
    requires n <= |slots|
    ensures Held(slots[..n]) <= Held(slots)
    decreases |slots|
  {
    if n < |slots| {
      assert slots[..|slots| - 1][..n] == slots[..n];
      HeldPrefix(slots[..|slots| - 1], n);
    } else {
      assert slots[..n] == slots;
    }
  }
}
