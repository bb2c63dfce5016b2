/** The stored form of slice records: 28 bytes each, little-endian fields behind a 32-bit
    variant tag, back to back (components/types/src/slice.rs). */
module SliceCodec {
  import opened Common
  import opened SliceTypes

  const SLICE_BYTES: nat := 28

  const U32: nat := 0x1_0000_0000
  const U64: nat := 0x1_0000_0000_0000_0000

  /** Every field fits its width in the record. */
  predicate Fits(s: Slice) {
    && s.chunkPos < U32 && s.id < U64 && s.size < U32
    && (s.Owned? ==> s.padding < U64)
    && (s.Borrowed? ==> s.off < U32 && s.len < U32)
  }

  // ---- fields -------------------------------------------------------------------

  function Pow256(width: nat): nat { if width == 0 then 1 else 256 * Pow256(width - 1) }

  lemma Widths()
    ensures Pow256(4) == U32 && Pow256(8) == U64
  {
    assert Pow256(4) == 256 * Pow256(3) && Pow256(3) == 256 * Pow256(2) && Pow256(2) == 256 * Pow256(1);
    assert Pow256(8) == 256 * Pow256(7) && Pow256(7) == 256 * Pow256(6) && Pow256(6) == 256 * Pow256(5);
  }

  /** `v` in `width` bytes, lowest first. */
  function Le(v: nat, width: nat): (b: seq<byte>)
    ensures |b| == width
  {
    if width == 0 then [] else [v % 256] + Le(v / 256, width - 1)
  }

  function FromLe(b: seq<byte>): nat { if b == [] then 0 else b[0] + 256 * FromLe(b[1..]) }

  lemma {:induction false} FromLeLe(v: nat, width: nat)
    requires v < Pow256(width)
    ensures FromLe(Le(v, width)) == v
  {
    if width > 0 {
      FromLeLe(v / 256, width - 1);
      assert Le(v, width)[1..] == Le(v / 256, width - 1);
    }
  }

  lemma {:induction false} FromLeBound(b: seq<byte>)
    ensures FromLe(b) < Pow256(|b|)
  {
    if b != [] { FromLeBound(b[1..]); }
  }

  lemma {:induction false} LeFromLe(b: seq<byte>)
    ensures Le(FromLe(b), |b|) == b && FromLe(b) < Pow256(|b|)
  {
    FromLeBound(b);
    if b != [] {
      var v, rest := FromLe(b), b[1..];
      LeFromLe(rest);
      assert v % 256 == b[0] && v / 256 == FromLe(rest);
      assert Le(v, |b|) == [b[0]] + rest;
    }
  }

  // ---- one record ---------------------------------------------------------------

  /** Byte `i` of a record: tag, chunk position, id, size, then what is left of the variant. */
  function EncodedByte(s: Slice, i: nat): byte
    requires i < SLICE_BYTES
  {
    if i < 4 then Le(if s.Owned? then 0 else 1, 4)[i]
    else if i < 8 then Le(s.chunkPos, 4)[i - 4]
    else if i < 16 then Le(s.id, 8)[i - 8]
    else if i < 20 then Le(s.size, 4)[i - 16]
    else if s.Owned? then Le(s.padding, 8)[i - 20]
    else if i < 24 then Le(s.off, 4)[i - 20]
    else Le(s.len, 4)[i - 24]
  }

  function Encode(s: Slice): (b: seq<byte>)
    ensures |b| == SLICE_BYTES
  {
    seq(SLICE_BYTES, i requires 0 <= i < SLICE_BYTES => EncodedByte(s, i))
  }

  function Decode(b: seq<byte>): Result<Slice>
    requires |b| == SLICE_BYTES
  {
    var tag := FromLe(b[0..4]);
    var chunkPos, id, size := FromLe(b[4..8]), FromLe(b[8..16]), FromLe(b[16..20]);
    if tag == 0 then Ok(Owned(chunkPos, id, size, FromLe(b[20..28])))
    else if tag == 1 then Ok(Borrowed(chunkPos, id, size, FromLe(b[20..24]), FromLe(b[24..28])))
    else Err(Corruption)
  }

  lemma Fields(s: Slice)
    ensures var b := Encode(s);
            && b[0..4] == Le(if s.Owned? then 0 else 1, 4) && b[4..8] == Le(s.chunkPos, 4)
            && b[8..16] == Le(s.id, 8) && b[16..20] == Le(s.size, 4)
            && (s.Owned? ==> b[20..28] == Le(s.padding, 8))
            && (s.Borrowed? ==> b[20..24] == Le(s.off, 4) && b[24..28] == Le(s.len, 4))
  {
  }

  lemma {:induction false} LeByte(v: nat, width: nat, i: nat)
    requires i < width
    ensures Pow256(i) > 0 && Le(v, width)[i] == v / Pow256(i) % 256
  {
    if i > 0 {
      LeByte(v / 256, width - 1, i - 1);
      DivDiv(v, Pow256(i - 1));
    }
  }

  lemma DivDiv(v: nat, d: nat)
    requires d > 0
    ensures v / 256 / d == v / (256 * d)
  {
    var q := v / 256 / d;
    DivParts(v / 256, d);
    assert v == 256 * (q * d + v / 256 % d) + v % 256;
    assert 256 * (q * d + v / 256 % d) == q * (256 * d) + 256 * (v / 256 % d);
    DivUnique(v, 256 * d, q, 256 * (v / 256 % d) + v % 256);
  }

  /** Which byte of a record is which: a 32-bit variant number, chunk position, 64-bit id and
      size, then the padding or the window, each with its lowest byte first. */
  lemma RecordLayout(s: Slice, j: nat)
    requires j < 8
    ensures Pow256(j) > 0 && Encode(s)[8 + j] == s.id / Pow256(j) % 256
    ensures j < 4 ==> Encode(s)[j] == (if s.Owned? then 0 else 1) / Pow256(j) % 256
    ensures j < 4 ==> Encode(s)[4 + j] == s.chunkPos / Pow256(j) % 256 && Encode(s)[16 + j] == s.size / Pow256(j) % 256
    ensures s.Owned? ==> Encode(s)[20 + j] == s.padding / Pow256(j) % 256
    ensures s.Borrowed? && j < 4 ==> Encode(s)[20 + j] == s.off / Pow256(j) % 256 && Encode(s)[24 + j] == s.len / Pow256(j) % 256
  {
    LeByte(s.id, 8, j);
    if j < 4 {
      LeByte(if s.Owned? then 0 else 1, 4, j);
      LeByte(s.chunkPos, 4, j);
      LeByte(s.size, 4, j);
    }
    if s.Owned? {
      LeByte(s.padding, 8, j);
    } else if j < 4 {
      LeByte(s.off, 4, j);
      LeByte(s.len, 4, j);
    }
  }

  lemma DecodeEncode(s: Slice)
    requires Fits(s)
    ensures Decode(Encode(s)) == Ok(s)
  {
    Fields(s);
    Widths();
    FromLeLe(if s.Owned? then 0 else 1, 4);
    FromLeLe(s.chunkPos, 4);
    FromLeLe(s.id, 8);
    FromLeLe(s.size, 4);
    if s.Owned? {
      FromLeLe(s.padding, 8);
    } else {
      FromLeLe(s.off, 4);
      FromLeLe(s.len, 4);
    }
  }

  /** Records have one stored form: what decodes is the encoding of its value. */
  lemma EncodeDecode(b: seq<byte>)
    requires |b| == SLICE_BYTES && Decode(b).Ok?
    ensures Fits(Decode(b).value) && Encode(Decode(b).value) == b
  {
    Widths();
    LeFromLe(b[0..4]);
    LeFromLe(b[4..8]);
    LeFromLe(b[8..16]);
    LeFromLe(b[16..20]);
    LeFromLe(b[20..28]);
    LeFromLe(b[20..24]);
    LeFromLe(b[24..28]);
  }

  // ---- a chunk's records ----------------------------------------------------------

  /** Record `i` of a buffer. */
  function Record(raw: seq<byte>, i: nat): (b: seq<byte>)
    requires i < |raw| / SLICE_BYTES
    ensures |b| == SLICE_BYTES
  {
    raw[SLICE_BYTES * i..SLICE_BYTES * i + SLICE_BYTES]
  }

  /** The buffer is a whole number of records, and they decode to the list. */
  ghost predicate Encodes(raw: seq<byte>, l: seq<Slice>) {
    && |raw| == SLICE_BYTES * |l|
    && forall i :: 0 <= i < |l| ==> Decode(Record(raw, i)) == Ok(l[i])
  }

  /** Reads a whole buffer: it succeeds on exactly the buffers that encode a list, and gives
      that list. */
  method DecodeAll(raw: seq<byte>) returns (r: Result<seq<Slice>>)
    ensures r.Ok? ==> Encodes(raw, r.value)
    ensures r.Err? ==> forall l :: !Encodes(raw, l)
  {
    if |raw| % SLICE_BYTES != 0 {
      return Err(Corruption);
    }
    var slices: seq<Slice> := [];
    var i := 0;
    while i < |raw|
      invariant i == SLICE_BYTES * |slices| && i <= |raw|
      invariant forall j :: 0 <= j < |slices| ==> Decode(Record(raw, j)) == Ok(slices[j])
    {
      var s := Decode(raw[i..i + SLICE_BYTES]);
      if s.Err? {
        assert Decode(Record(raw, |slices|)).Err?;
        return Err(s.error);
      }
      slices := slices + [s.value];
      i := i + SLICE_BYTES;
    }
    return Ok(slices);
  }

  // ---- appending a record that is not there yet -------------------------------------

  predicate HasRecord(raw: seq<byte>, record: seq<byte>) {
    exists i :: 0 <= i < |raw| / SLICE_BYTES && Record(raw, i) == record
  }

  function Staged(raw: seq<byte>, s: Slice): seq<byte> {
    if HasRecord(raw, Encode(s)) then raw else raw + Encode(s)
  }

  function AppendNew(l: seq<Slice>, s: Slice): seq<Slice> { if s in l then l else l + [s] }

  lemma StoredIsMember(raw: seq<byte>, l: seq<Slice>, s: Slice)
    requires Encodes(raw, l) && Fits(s)
    ensures HasRecord(raw, Encode(s)) <==> s in l
  {
    DecodeEncode(s);
    if s in l {
      var i :| 0 <= i < |l| && l[i] == s;
      EncodeDecode(Record(raw, i));
    }
    if HasRecord(raw, Encode(s)) {
      var i :| 0 <= i < |raw| / SLICE_BYTES && Record(raw, i) == Encode(s);
      assert l[i] == s;
    }
  }

  lemma RecordOfExtended(raw: seq<byte>, record: seq<byte>, i: nat)
    requires |raw| % SLICE_BYTES == 0 && |record| == SLICE_BYTES && i <= |raw| / SLICE_BYTES
    ensures Record(raw + record, i) == if i < |raw| / SLICE_BYTES then Record(raw, i) else record
  {
  }

  /** Staging a record on the stored bytes is append-if-absent on the list. */
  lemma StagedIsAppendNew(raw: seq<byte>, l: seq<Slice>, s: Slice)
    requires Encodes(raw, l) && Fits(s)
    ensures Encodes(Staged(raw, s), AppendNew(l, s))
  {
    StoredIsMember(raw, l, s);
    if s !in l {
      DecodeEncode(s);
      forall i | 0 <= i <= |l|
        ensures Decode(Record(raw + Encode(s), i)) == Ok((l + [s])[i])
      {
        RecordOfExtended(raw, Encode(s), i);
      }
    }
  }
}
