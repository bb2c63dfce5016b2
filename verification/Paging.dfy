/** How a slice buffer lays bytes out: block slots, each block a row of optional pages
    (components/storage/src/slice_buffer.rs). Everything here is a value; the buffer
    object that updates it in place is in SliceBuffer.dfy. */
module Paging {
  import opened Common

  datatype Block = Empty | Data(length: nat, pages: seq<Option<seq<byte>>>)

  ghost predicate WellFormedBlock(b: Block) {
    b.Data? ==>
      && b.length <= BLOCK_SIZE
      && |b.pages| == PAGES_PER_BLOCK
      && forall p :: 0 <= p < PAGES_PER_BLOCK && b.pages[p].Some? ==> |b.pages[p].value| == PAGE_SIZE
  }

  ghost predicate WellFormed(slots: seq<Block>) {
    && |slots| == BLOCKS_PER_CHUNK
    && forall b :: 0 <= b < BLOCKS_PER_CHUNK ==> WellFormedBlock(slots[b])
  }

  function NewDataBlock(): (b: Block)
    ensures WellFormedBlock(b) && b.Data? && b.length == 0
    ensures forall p :: 0 <= p < PAGES_PER_BLOCK ==> b.pages[p].None?
  {
    Data(0, seq(PAGES_PER_BLOCK, _ => None))
  }

  function BlockLen(b: Block): nat { if b.Empty? then 0 else b.length }

  /** Byte `k` of a block; a missing page, like an empty block, is a run of zeros. */
  function BlockByte(b: Block, k: nat): byte
    requires WellFormedBlock(b) && k < BLOCK_SIZE
  {
    if b.Empty? || b.pages[k / PAGE_SIZE].None? then 0
    else b.pages[k / PAGE_SIZE].value[k % PAGE_SIZE]
  }

  function ByteAt(slots: seq<Block>, pos: nat): byte
    requires WellFormed(slots) && pos < CHUNK_SIZE
  {
    BlockByte(slots[pos / BLOCK_SIZE], pos % BLOCK_SIZE)
  }

  /** Pages are numbered across the chunk, as the reservation loop does. */
  predicate HasPage(slots: seq<Block>, g: nat)
    requires WellFormed(slots) && g < PAGES_PER_CHUNK
  {
    var b := slots[g / PAGES_PER_BLOCK];
    b.Data? && b.pages[g % PAGES_PER_BLOCK].Some?
  }

  /** The bytes a block is stored as: its written prefix. */
  function BlockBytes(b: Block): (r: seq<byte>)
    requires WellFormedBlock(b) && b.Data?
    ensures |r| == b.length
    ensures forall k :: 0 <= k < b.length ==> r[k] == BlockByte(b, k)
  {
    seq(b.length, k requires 0 <= k < b.length => BlockByte(b, k))
  }

  // ---- counting pages -------------------------------------------------------

  function CountPages(pages: seq<Option<seq<byte>>>): nat {
    if pages == [] then 0
    else CountPages(pages[..|pages| - 1]) + if pages[|pages| - 1].Some? then 1 else 0
  }

  function HeldIn(b: Block): nat { if b.Empty? then 0 else CountPages(b.pages) }

  function Held(slots: seq<Block>): nat {
    if slots == [] then 0 else Held(slots[..|slots| - 1]) + HeldIn(slots[|slots| - 1])
  }

  lemma {:induction false} CountPagesUpdate(pages: seq<Option<seq<byte>>>, i: nat, p: Option<seq<byte>>)
    requires i < |pages|
    ensures CountPages(pages[i := p]) == CountPages(pages)
                                         - (if pages[i].Some? then 1 else 0)
                                         + (if p.Some? then 1 else 0)
  {
    var n := |pages| - 1;
    if i < n {
      assert pages[i := p][..n] == pages[..n][i := p];
      CountPagesUpdate(pages[..n], i, p);
    } else {
      assert pages[i := p][..n] == pages[..n];
    }
  }

  lemma {:induction false} CountNoPages(pages: seq<Option<seq<byte>>>)
    requires forall p :: 0 <= p < |pages| ==> pages[p].None?
    ensures CountPages(pages) == 0
  {
    if pages != [] { CountNoPages(pages[..|pages| - 1]); }
  }

  lemma {:induction false} HeldUpdate(slots: seq<Block>, i: nat, b: Block)
    requires i < |slots|
    ensures Held(slots[i := b]) == Held(slots) - HeldIn(slots[i]) + HeldIn(b)
    ensures HeldIn(slots[i]) <= Held(slots)
  {
    var n := |slots| - 1;
    if i < n {
      assert slots[i := b][..n] == slots[..n][i := b];
      HeldUpdate(slots[..n], i, b);
    } else {
      assert slots[i := b][..n] == slots[..n];
    }
  }

  // ---- one page of a write --------------------------------------------------

  /** Where a chunk position lives. */
  lemma Locate(pos: nat, b: nat, p: nat)
    requires pos < CHUNK_SIZE && p < PAGES_PER_BLOCK
    ensures (pos / BLOCK_SIZE == b && pos % BLOCK_SIZE / PAGE_SIZE == p)
            <==> b * BLOCK_SIZE + p * PAGE_SIZE <= pos < b * BLOCK_SIZE + (p + 1) * PAGE_SIZE
    ensures pos / BLOCK_SIZE == b && pos % BLOCK_SIZE / PAGE_SIZE == p
            ==> pos % BLOCK_SIZE % PAGE_SIZE == pos - b * BLOCK_SIZE - p * PAGE_SIZE
  {
  }

  /** The written length of block `b` after a write of [from, to). */
  function GrownLen(len: nat, b: nat, from: nat, to: nat): nat {
    if from < to && from < (b + 1) * BLOCK_SIZE && b * BLOCK_SIZE < to
    then Max(len, Min(to, (b + 1) * BLOCK_SIZE) - b * BLOCK_SIZE)
    else len
  }

  ghost predicate SameShape(s: seq<Block>, s': seq<Block>)
    requires WellFormed(s) && WellFormed(s')
  {
    && (forall b :: 0 <= b < BLOCKS_PER_CHUNK ==> s'[b].Data? == s[b].Data?)
    && (forall g :: 0 <= g < PAGES_PER_CHUNK ==> HasPage(s', g) == HasPage(s, g))
  }

  /** `s'` is `s` with `data` copied over [off, off + |data|), into pages already held. */
  ghost predicate Copied(s: seq<Block>, s': seq<Block>, off: nat, data: seq<byte>)
    requires WellFormed(s) && WellFormed(s') && off + |data| <= CHUNK_SIZE
  {
    && SameShape(s, s')
    && Held(s') == Held(s)
    && (forall pos :: 0 <= pos < CHUNK_SIZE ==>
                        ByteAt(s', pos) == if off <= pos < off + |data| then data[pos - off] else ByteAt(s, pos))
    && (forall b :: 0 <= b < BLOCKS_PER_CHUNK ==>
                      BlockLen(s'[b]) == GrownLen(BlockLen(s[b]), b, off, off + |data|))
  }

  lemma CopiedNothing(s: seq<Block>, off: nat)
    requires WellFormed(s) && off <= CHUNK_SIZE
    ensures Copied(s, s, off, [])
  {
  }

  lemma CopiedTwice(s: seq<Block>, m: seq<Block>, s': seq<Block>, off: nat, d: seq<byte>, e: seq<byte>)
    requires WellFormed(s) && WellFormed(m) && WellFormed(s') && off + |d| + |e| <= CHUNK_SIZE
    requires Copied(s, m, off, d) && Copied(m, s', off + |d|, e)
    ensures Copied(s, s', off, d + e)
  {
    forall pos | 0 <= pos < CHUNK_SIZE
      ensures ByteAt(s', pos) == if off <= pos < off + |d + e| then (d + e)[pos - off] else ByteAt(s, pos)
    {
      assert ByteAt(m, pos) == if off <= pos < off + |d| then d[pos - off] else ByteAt(s, pos);
    }
  }

  function CopyIntoPage(slots: seq<Block>, b: nat, p: nat, po: nat, data: seq<byte>): (r: seq<Block>)
    requires WellFormed(slots) && b < BLOCKS_PER_CHUNK && p < PAGES_PER_BLOCK
    requires slots[b].Data? && slots[b].pages[p].Some?
    requires po + |data| <= PAGE_SIZE
  {
    var page := slots[b].pages[p].value;
    var page' := page[..po] + data + page[po + |data|..];
    slots[b := Data(Max(slots[b].length, p * PAGE_SIZE + po + |data|), slots[b].pages[p := Some(page')])]
  }

  lemma CopyIntoPageIsCopied(s: seq<Block>, b: nat, p: nat, po: nat, data: seq<byte>)
    requires WellFormed(s) && b < BLOCKS_PER_CHUNK && p < PAGES_PER_BLOCK
    requires s[b].Data? && s[b].pages[p].Some?
    requires 0 < |data| && po + |data| <= PAGE_SIZE
    ensures WellFormed(CopyIntoPage(s, b, p, po, data))
    ensures Copied(s, CopyIntoPage(s, b, p, po, data), b * BLOCK_SIZE + p * PAGE_SIZE + po, data)
  {
    var s' := CopyIntoPage(s, b, p, po, data);
    var off := b * BLOCK_SIZE + p * PAGE_SIZE + po;
    CountPagesUpdate(s[b].pages, p, s'[b].pages[p]);
    HeldUpdate(s, b, s'[b]);
    forall pos | 0 <= pos < CHUNK_SIZE
      ensures ByteAt(s', pos) == if off <= pos < off + |data| then data[pos - off] else ByteAt(s, pos)
    {
      Locate(pos, b, p);
    }
  }
}
