/** What publishing and truncating mean for a file over any number of calls
    (components/meta/src/backend/rocksdb.rs, components/types/src/slice.rs). */
module MetadataRuns {
  import opened Common
  import opened SliceTypes
  import opened SliceCodec
  import opened MetadataStore
  import opened Reader

  // ---- sequences of commits -----------------------------------------------------------

  datatype Publish = Publish(chunk: nat, slice: Slice, now: nat)

  function CommitAll(db: Db, ino: nat, ps: seq<Publish>): (r: Db)
    requires ino in db.attrs
    ensures ino in r.attrs
  {
    if ps == [] then db
    else
      var p := ps[|ps| - 1];
      Commit(CommitAll(db, ino, ps[..|ps| - 1]), ino, p.chunk, p.slice, p.now)
  }

  /** The slices committed to one chunk, in order. */
  function OfChunk(ps: seq<Publish>, c: nat): seq<Slice> {
    if ps == [] then []
    else
      var p, rest := ps[|ps| - 1], OfChunk(ps[..|ps| - 1], c);
      if p.chunk == c then rest + [p.slice] else rest
  }

  function AddAll(l: seq<Slice>, more: seq<Slice>): seq<Slice> {
    if more == [] then l else AppendNew(AddAll(l, more[..|more| - 1]), more[|more| - 1])
  }

  /** Adding keeps the list and puts behind it, in order, exactly the first occurrence of each
      slice that was not in it. */
  lemma {:induction false} FirstOccurrences(base: seq<Slice>, more: seq<Slice>) returns (at: seq<nat>)
    ensures |AddAll(base, more)| == |base| + |at| && base <= AddAll(base, more)
    ensures forall i :: 0 <= i < |at| ==> && at[i] < |more| && AddAll(base, more)[|base| + i] == more[at[i]]
                                          && more[at[i]] !in more[..at[i]] && more[at[i]] !in base
    ensures forall i, j :: 0 <= i < j < |at| ==> at[i] < at[j]
    ensures forall s :: s in more ==> s in AddAll(base, more)
  {
    if more == [] {
      at := [];
    } else {
      var n := |more| - 1;
      at := FirstOccurrences(base, more[..n]);
      assert forall i :: 0 <= i < |at| ==> more[..n][..at[i]] == more[..at[i]];
      var kept := AddAll(base, more[..n]);
      if more[n] !in kept {
        assert more[n] !in more[..n];
        assert more[n] !in base by { assert forall i :: 0 <= i < |base| ==> base[i] == kept[i]; }
        at := at + [n];
      }
      assert more == more[..n] + [more[n]];
    }
  }

  // -- a chunk's bytes

  function StageAll(raw: seq<byte>, more: seq<Slice>): seq<byte> {
    if more == [] then raw else Staged(StageAll(raw, more[..|more| - 1]), more[|more| - 1])
  }

  lemma {:induction false} CommittedBytes(db: Db, ino: nat, ps: seq<Publish>, c: nat)
    requires ino in db.attrs
    ensures Raw(CommitAll(db, ino, ps).chunks, ino, c) == StageAll(Raw(db.chunks, ino, c), OfChunk(ps, c))
  {
    if ps != [] {
      var p, init := ps[|ps| - 1], ps[..|ps| - 1];
      CommittedBytes(db, ino, init, c);
      AddRecordStages(CommitAll(db, ino, init).chunks, ino, p.chunk, p.slice);
      if p.chunk == c { assert OfChunk(ps, c)[..|OfChunk(ps, c)| - 1] == OfChunk(init, c); }
    }
  }

  lemma {:induction false} StagedRecords(raw: seq<byte>, base: seq<Slice>, more: seq<Slice>)
    requires Encodes(raw, base) && forall s :: s in more ==> Fits(s)
    ensures Encodes(StageAll(raw, more), AddAll(base, more))
  {
    if more != [] {
      var n := |more| - 1;
      StagedRecords(raw, base, more[..n]);
      StagedIsAppendNew(StageAll(raw, more[..n]), AddAll(base, more[..n]), more[n]);
    }
  }

  lemma {:induction false} AddedIsMember(base: seq<Slice>, more: seq<Slice>, s: Slice)
    requires s in more
    ensures s in AddAll(base, more)
  {
    var n := |more| - 1;
    if s != more[n] { AddedIsMember(base, more[..n], s); }
  }

  lemma {:induction false} OfChunkMember(ps: seq<Publish>, k: nat)
    requires k < |ps|
    ensures ps[k].slice in OfChunk(ps, ps[k].chunk)
  {
    if k < |ps| - 1 { OfChunkMember(ps[..|ps| - 1], k); }
  }

  lemma {:induction false} OfChunkFits(ps: seq<Publish>, c: nat)
    requires AllFit(ps)
    ensures forall s :: s in OfChunk(ps, c) ==> Fits(s)
  {
    if ps != [] { OfChunkFits(ps[..|ps| - 1], c); }
  }

  ghost predicate AllFit(ps: seq<Publish>) { forall i :: 0 <= i < |ps| ==> Fits(ps[i].slice) }

  lemma CommittedRecords(db: Db, ino: nat, ps: seq<Publish>, c: nat, base: seq<Slice>)
    requires ino in db.attrs && AllFit(ps) && Encodes(Raw(db.chunks, ino, c), base)
    ensures Encodes(Raw(CommitAll(db, ino, ps).chunks, ino, c), AddAll(base, OfChunk(ps, c)))
  {
    CommittedBytes(db, ino, ps, c);
    OfChunkFits(ps, c);
    StagedRecords(Raw(db.chunks, ino, c), base, OfChunk(ps, c));
  }

  // -- the file's length

  function LengthAfter(length: nat, ps: seq<Publish>): nat {
    if ps == [] then length
    else
      var p, before := ps[|ps| - 1], LengthAfter(length, ps[..|ps| - 1]);
      before + GrewBy(before, p.chunk, p.slice)
  }

  /** The growth the commits report, added up. */
  function Growth(length: nat, ps: seq<Publish>): nat {
    if ps == [] then 0
    else
      var p, init := ps[|ps| - 1], ps[..|ps| - 1];
      Growth(length, init) + GrewBy(LengthAfter(length, init), p.chunk, p.slice)
  }

  lemma {:induction false} CommittedLength(db: Db, ino: nat, ps: seq<Publish>)
    requires ino in db.attrs
    ensures CommitAll(db, ino, ps).attrs[ino].length == LengthAfter(db.attrs[ino].length, ps)
  {
    if ps != [] { CommittedLength(db, ino, ps[..|ps| - 1]); }
  }

  /** The length is the largest of the old one and every slice's end, and the reported
      growth adds up to the difference. */
  lemma {:induction false} LengthIsLargestEnd(length: nat, ps: seq<Publish>)
    ensures LengthAfter(length, ps) == length + Growth(length, ps)
    ensures forall i :: 0 <= i < |ps| ==> EndInFile(ps[i].chunk, ps[i].slice) <= LengthAfter(length, ps)
    ensures LengthAfter(length, ps) == length || exists i :: 0 <= i < |ps| && EndInFile(ps[i].chunk, ps[i].slice) == LengthAfter(length, ps)
  {
    if ps != [] {
      var n := |ps| - 1;
      LengthIsLargestEnd(length, ps[..n]);
      var before, after := LengthAfter(length, ps[..n]), LengthAfter(length, ps);
      if after == before && after != length {
        var i :| 0 <= i < n && EndInFile(ps[..n][i].chunk, ps[..n][i].slice) == before;
        assert EndInFile(ps[i].chunk, ps[i].slice) == after;
      }
      forall i | 0 <= i < |ps|
        ensures EndInFile(ps[i].chunk, ps[i].slice) <= after
      {
        if i < n { assert ps[..n][i] == ps[i]; }
      }
    }
  }

  // -- together

  /** Committing never touches another file. */
  lemma {:induction false} OtherFilesKept(db: Db, ino: nat, ps: seq<Publish>, other: nat, c: nat)
    requires ino in db.attrs && other != ino
    ensures var after := CommitAll(db, ino, ps);
            && Raw(after.chunks, other, c) == Raw(db.chunks, other, c)
            && (other in after.attrs <==> other in db.attrs)
            && (other in db.attrs ==> after.attrs[other] == db.attrs[other])
  {
    if ps != [] { OtherFilesKept(db, ino, ps[..|ps| - 1], other, c); }
  }

  lemma CommitAgain(db: Db, ino: nat, c: nat, s: Slice, now: nat)
    requires ino in db.attrs && HasRecord(Raw(db.chunks, ino, c), Encode(s)) && EndInFile(c, s) <= db.attrs[ino].length
    ensures Commit(db, ino, c, s, now) == db
  {
  }

  /** Committing any of the slices again changes nothing, not even the times. */
  lemma ReplayIsIdempotent(db: Db, ino: nat, ps: seq<Publish>, base: seq<Slice>, k: nat, now: nat)
    requires ino in db.attrs && AllFit(ps) && k < |ps| && Encodes(Raw(db.chunks, ino, ps[k].chunk), base)
    ensures Commit(CommitAll(db, ino, ps), ino, ps[k].chunk, ps[k].slice, now) == CommitAll(db, ino, ps)
  {
    var c, after := ps[k].chunk, CommitAll(db, ino, ps);
    CommittedRecords(db, ino, ps, c, base);
    OfChunkMember(ps, k);
    AddedIsMember(base, OfChunk(ps, c), ps[k].slice);
    StoredIsMember(Raw(after.chunks, ino, c), AddAll(base, OfChunk(ps, c)), ps[k].slice);
    CommittedLength(db, ino, ps);
    LengthIsLargestEnd(db.attrs[ino].length, ps);
    CommitAgain(after, ino, c, ps[k].slice, now);
  }

  /** Publishing refines an append-if-absent list: for any commits to a file, each chunk's
      bytes decode to its earlier records followed by the new ones without repetition, and
      the length grows to the largest end by exactly what the commits report. */
  lemma PublicationRefinesList(db: Db, ino: nat, ps: seq<Publish>, c: nat, base: seq<Slice>)
    requires ino in db.attrs && AllFit(ps) && Encodes(Raw(db.chunks, ino, c), base)
    ensures var after := CommitAll(db, ino, ps);
            && Encodes(Raw(after.chunks, ino, c), AddAll(base, OfChunk(ps, c)))
            && after.attrs[ino].length == db.attrs[ino].length + Growth(db.attrs[ino].length, ps)
            && (forall i, pos: nat :: 0 <= i < |ps| && ps[i].slice.Covers(pos) ==> ps[i].chunk * CHUNK_SIZE + pos < after.attrs[ino].length)
            && (|| after.attrs[ino].length == db.attrs[ino].length
                || exists i :: 0 <= i < |ps| && ps[i].chunk * CHUNK_SIZE + ps[i].slice.End() == after.attrs[ino].length)
  {
    CommittedRecords(db, ino, ps, c, base);
    CommittedLength(db, ino, ps);
    LengthIsLargestEnd(db.attrs[ino].length, ps);
  }

  // ---- growing a file by truncation -----------------------------------------------------

  /** What a read shows at a position of the file: a record, or nothing, which reads as zero. */
  function VisibleAt(records: nat -> seq<Slice>, pos: nat): Option<Slice> {
    Visible(Winner(records(pos / CHUNK_SIZE), pos % CHUNK_SIZE))
  }

  function WithHoles(records: nat -> seq<Slice>, old_: nat, new_: nat): nat -> seq<Slice> {
    (c: nat) => if Touched(old_, new_, c) then AppendNew(records(c), HoleOf(old_, new_, c)) else records(c)
  }

  /** The holes appear in the record lists as append-if-absent. */
  lemma HolesInRecords(chunks: ChunkTable, ino: nat, old_: nat, new_: nat, chunks': ChunkTable, records: nat -> seq<Slice>)
    requires HolesStaged(chunks, ino, old_, new_, chunks') && forall c: nat :: Encodes(Raw(chunks, ino, c), records(c))
    ensures forall c: nat :: Encodes(Raw(chunks', ino, c), WithHoles(records, old_, new_)(c))
  {
    forall c: nat
      ensures Encodes(Raw(chunks', ino, c), WithHoles(records, old_, new_)(c))
    {
      if Touched(old_, new_, c) {
        HolesPartition(old_, new_, c);
        StagedIsAppendNew(Raw(chunks, ino, c), records(c), HoleOf(old_, new_, c));
      }
    }
  }

  lemma WinnerOfAppended(l: seq<Slice>, s: Slice, pos: nat)
    ensures Winner(l + [s], pos) == if s.Covers(pos) then Some(s) else Winner(l, pos)
  {
    assert (l + [s])[..|l|] == l;
  }

  /** The chunk already held the identical hole record, so staging it was skipped. */
  predicate HoleDropped(records: nat -> seq<Slice>, old_: nat, new_: nat, pos: nat)
    requires old_ <= pos < new_
  {
    HoleOf(old_, new_, pos / CHUNK_SIZE) in records(pos / CHUNK_SIZE)
  }

  /** After growing from `old_` to `new_`: nothing changes outside the new part, and inside it
      a position reads as zero unless its hole was dropped, when it shows what it showed. */
  lemma GrownView(records: nat -> seq<Slice>, old_: nat, new_: nat, pos: nat)
    requires old_ < new_
    ensures VisibleAt(WithHoles(records, old_, new_), pos) ==
            if old_ <= pos < new_ && !HoleDropped(records, old_, new_, pos) then None else VisibleAt(records, pos)
  {
    var c := pos / CHUNK_SIZE;
    if old_ <= pos < new_ { PositionTouches(old_, new_, pos); }
    if Touched(old_, new_, c) {
      HolesPartition(old_, new_, c);
      WinnerOfAppended(records(c), HoleOf(old_, new_, c), pos % CHUNK_SIZE);
    }
  }

  /** Growing zero-fills the whole new part exactly when no position of it both shows a record
      beforehand and lies in a chunk that already holds the very same hole record. */
  lemma ZeroFillExact(records: nat -> seq<Slice>, old_: nat, new_: nat)
    requires old_ < new_
    ensures (forall pos: nat :: old_ <= pos < new_ ==> VisibleAt(WithHoles(records, old_, new_), pos) == None)
       <==> (forall pos: nat :: old_ <= pos < new_ && HoleDropped(records, old_, new_, pos) ==> VisibleAt(records, pos) == None)
  {
    var after := WithHoles(records, old_, new_);
    if forall pos: nat :: old_ <= pos < new_ ==> VisibleAt(after, pos) == None {
      forall pos: nat | old_ <= pos < new_ && HoleDropped(records, old_, new_, pos)
        ensures VisibleAt(records, pos) == None
      {
        GrownView(records, old_, new_, pos);
      }
    }
    if forall pos: nat :: old_ <= pos < new_ && HoleDropped(records, old_, new_, pos) ==> VisibleAt(records, pos) == None {
      forall pos: nat | old_ <= pos < new_
        ensures VisibleAt(after, pos) == None
      {
        GrownView(records, old_, new_, pos);
      }
    }
  }

  /** Growing to 10 bytes, writing them, shrinking to nothing and growing again brings the
      written bytes back: the second hole is the first one's twin and is dropped. */
  lemma RegrownFileShowsOldBytes(chunks: seq<ChunkTable>, ino: nat, data: Slice)
    requires |chunks| == 5 && Raw(chunks[0], ino, 0) == [] && data == Owned(0, 7, 10, 0)
    requires HolesStaged(chunks[0], ino, 0, 10, chunks[1])
    requires chunks[2] == AddRecord(chunks[1], ino, 0, data)
    requires HolesStaged(chunks[2], ino, 10, 0, chunks[3])
    requires HolesStaged(chunks[3], ino, 0, 10, chunks[4])
    ensures exists l :: Encodes(Raw(chunks[4], ino, 0), l) && Visible(Winner(l, 3)) == Some(data)
  {
    var hole := HoleOf(0, 10, 0);
    assert hole == Owned(0, EMPTY_SLICE_ID, 10, 0);
    AddRecordStages(chunks[1], ino, 0, data);
    assert Raw(chunks[3], ino, 0) == Raw(chunks[2], ino, 0);
    SecondHoleDropped(hole, data);
    assert Encodes(Raw(chunks[4], ino, 0), [hole, data]);
    WinnerOfAppended([hole], data, 3);
    assert [hole] + [data] == [hole, data];
  }

  lemma SecondHoleDropped(hole: Slice, data: Slice)
    requires Fits(hole) && Fits(data) && hole != data
    ensures Encodes(Staged(Staged(Staged([], hole), data), hole), [hole, data])
  {
    StagedIsAppendNew([], [], hole);
    StagedIsAppendNew(Staged([], hole), [hole], data);
    assert [hole] + [data] == [hole, data];
    StagedIsAppendNew(Staged(Staged([], hole), data), [hole, data], hole);
  }
}
