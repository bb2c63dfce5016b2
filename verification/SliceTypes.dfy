/** Slice records and block keys (components/types/src/slice.rs). */
module SliceTypes {
  import opened Common

  const EMPTY_SLICE_ID: nat := 0

  /** A slice record. Written data is Owned; Borrowed windows another slice's data. */
  datatype Slice =
    | Owned(chunkPos: nat, id: nat, size: nat, padding: nat)
    | Borrowed(chunkPos: nat, id: nat, size: nat, off: nat, len: nat)
  {
    function ChunkPos(): nat { if Owned? then chunkPos else chunkPos + off }

    function Size(): nat { if Owned? then size else len }

    function UnderlyingOffset(): nat { if Owned? then 0 else off }

    function End(): nat { ChunkPos() + Size() }

    predicate Covers(pos: nat) { ChunkPos() <= pos < End() }
  }

  /** Names one stored block: owning slice, position in the slice, byte size. */
  datatype SliceKey = SliceKey(id: nat, index: nat, size: nat)

  /** Number of blocks a slice of `length` bytes spans. */
  function BlockCount(length: nat): nat { (length + BLOCK_SIZE - 1) / BLOCK_SIZE }

  /** The size the reader expects block `index` of a `length`-byte slice to have. */
  function ObjectBlockSize(length: nat, index: nat): nat
    requires index * BLOCK_SIZE <= length
  {
    Min(length - index * BLOCK_SIZE, BLOCK_SIZE)
  }

  function BlockKey(id: nat, length: nat, index: nat): SliceKey
    requires index * BLOCK_SIZE <= length
  {
    SliceKey(id, index, ObjectBlockSize(length, index))
  }

  /** Every block of the slice is present under the key the reader computes, and holds
      exactly the slice's bytes. */
  ghost predicate Stored(objects: map<SliceKey, seq<byte>>, id: nat, content: seq<byte>) {
    forall b :: 0 <= b < BlockCount(|content|) ==> BlockStored(objects, id, content, b)
  }

  ghost predicate BlockStored(objects: map<SliceKey, seq<byte>>, id: nat, content: seq<byte>, b: nat)
    requires b * BLOCK_SIZE <= |content|
  {
    var key := BlockKey(id, |content|, b);
    key in objects && objects[key] == content[b * BLOCK_SIZE..b * BLOCK_SIZE + key.size]
  }
}
