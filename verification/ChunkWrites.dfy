/** Splitting a file write over the chunks it touches (locate_chunk in
    components/vfs/src/writer.rs). */
module ChunkWrites {
  import opened Common

  datatype ChunkWrite = ChunkWrite(fileOffset: nat, chunkIndex: nat, chunkOffset: nat, length: nat, bufStart: nat)

  /** A piece stays in its chunk, is not empty, and takes file and buffer positions together. */
  predicate InPlace(p: ChunkWrite, chunkSize: nat, offset: nat) {
    && 0 < p.length && p.chunkOffset + p.length <= chunkSize
    && p.fileOffset == p.chunkIndex * chunkSize + p.chunkOffset
    && p.fileOffset == offset + p.bufStart
  }

  /** The pieces follow one another from the start of the buffer to `end`. */
  predicate Chained(ps: seq<ChunkWrite>, end: nat) {
    && (forall i :: 0 <= i < |ps| - 1 ==> ps[i].bufStart + ps[i].length == ps[i + 1].bufStart)
    && (if ps == [] then end == 0 else ps[0].bufStart == 0 && ps[|ps| - 1].bufStart + ps[|ps| - 1].length == end)
  }

  /** Where the next piece goes: not past the last chunk while bytes are left. */
  ghost predicate AtPiece(chunkSize: nat, offset: nat, length: nat, index: nat, chunkPos: nat, bufStart: nat, left: nat) {
    && bufStart + left == length && chunkPos < chunkSize
    && (left > 0 ==> offset + bufStart == index * chunkSize + chunkPos)
  }

  /** One turn: the piece fills the chunk or finishes the write, and the next turn, if any,
      starts at the next chunk. */
  lemma NextPiece(chunkSize: nat, offset: nat, length: nat, index: nat, chunkPos: nat, bufStart: nat, left: nat)
    requires AtPiece(chunkSize, offset, length, index, chunkPos, bufStart, left) && left > 0
    ensures var n := Min(chunkSize - chunkPos, left);
            && AtPiece(chunkSize, offset, length, index + 1, (chunkPos + n) % chunkSize, bufStart + n, left - n)
            && (left - n > 0 <==> index < (offset + length - 1) / chunkSize)
  {
    var n := Min(chunkSize - chunkPos, left);
    var last := offset + length - 1;
    if left <= chunkSize - chunkPos {
      DivUnique(last, chunkSize, index, chunkPos + left - 1);
    } else {
      DivUnique(chunkSize, chunkSize, 1, 0);
      assert (index + 1) * chunkSize == index * chunkSize + chunkSize;
      DivParts(last, chunkSize);
      if last / chunkSize <= index { MulMonotone(last / chunkSize, index, chunkSize); }
    }
  }

  lemma MulMonotone(a: nat, b: nat, d: nat)
    requires a <= b
    ensures a * d <= b * d
  {
    if a < b { MulStep(a, b, d); }
  }

  lemma FirstPiece(chunkSize: nat, offset: nat, length: nat)
    requires 0 < chunkSize && 0 < length
    ensures AtPiece(chunkSize, offset, length, offset / chunkSize, offset % chunkSize, 0, length)
    ensures offset / chunkSize <= (offset + length - 1) / chunkSize
  {
    DivParts(offset, chunkSize);
    var last := offset + length - 1;
    DivParts(last, chunkSize);
    if last / chunkSize < offset / chunkSize { MulStep(last / chunkSize, offset / chunkSize, chunkSize); }
  }

  method LocateChunk(chunkSize: nat, offset: nat, length: nat) returns (ps: seq<ChunkWrite>)
    requires chunkSize > 0 && length > 0
    ensures forall i :: 0 <= i < |ps| ==> InPlace(ps[i], chunkSize, offset)
    ensures Chained(ps, length)
    ensures |ps| == (offset + length - 1) / chunkSize - offset / chunkSize + 1
    ensures forall i :: 0 <= i < |ps| ==> ps[i].chunkIndex == offset / chunkSize + i
  {
    var first, last := offset / chunkSize, (offset + length - 1) / chunkSize;
    var chunkPos: nat, bufStart: nat, left: nat := offset % chunkSize, 0, length;
    FirstPiece(chunkSize, offset, length);
    ps := [];
    for index := first to last + 1
      invariant |ps| == index - first
      invariant AtPiece(chunkSize, offset, length, index, chunkPos, bufStart, left) && (left > 0 <==> index <= last)
      invariant forall i :: 0 <= i < |ps| ==> InPlace(ps[i], chunkSize, offset) && ps[i].chunkIndex == first + i
      invariant Chained(ps, bufStart)
    {
      var n: nat := Min(chunkSize - chunkPos, left);
      NextPiece(chunkSize, offset, length, index, chunkPos, bufStart, left);
      ps := ps + [ChunkWrite(offset + bufStart, index, chunkPos, n, bufStart)];
      chunkPos := (chunkPos + n) % chunkSize;
      bufStart := bufStart + n;
      left := left - n;
    }
  }

  /** Chained pieces cover every buffer position exactly once. */
  lemma {:induction false} PiecesPartition(ps: seq<ChunkWrite>, end: nat, at: nat) returns (i: nat)
    requires Chained(ps, end) && at < end && forall j :: 0 <= j < |ps| ==> 0 < ps[j].length
    ensures i < |ps| && ps[i].bufStart <= at < ps[i].bufStart + ps[i].length
    ensures forall j :: 0 <= j < |ps| && ps[j].bufStart <= at < ps[j].bufStart + ps[j].length ==> j == i
  {
    var n := |ps| - 1;
    if ps[n].bufStart <= at {
      i := n;
      forall j | 0 <= j < n
        ensures ps[j].bufStart + ps[j].length <= ps[n].bufStart
      {
        Ordered(ps, j, n);
      }
    } else {
      assert n > 0;
      assert ps[n - 1].bufStart + ps[n - 1].length == ps[n].bufStart;
      i := PiecesPartition(ps[..n], ps[n].bufStart, at);
    }
  }

  lemma {:induction false} Ordered(ps: seq<ChunkWrite>, i: nat, j: nat)
    requires i < j < |ps| && forall k :: 0 <= k < |ps| - 1 ==> ps[k].bufStart + ps[k].length == ps[k + 1].bufStart
    ensures ps[i].bufStart + ps[i].length <= ps[j].bufStart
    decreases j
  {
    if i < j - 1 {
      Ordered(ps, i, j - 1);
      assert ps[j - 1].bufStart + ps[j - 1].length == ps[j].bufStart;
    }
  }
}
