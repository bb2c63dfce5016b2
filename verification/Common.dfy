/** Vocabulary shared by every component: outcomes, bytes and the fixed sizes
    (components/common/src/lib.rs). A chunk holds whole blocks and a block whole pages. */
module Common {

  datatype Option<+T> = None | Some(value: T)

  datatype Error =
    | InvalidRange
    | InvalidWriteOffset
    | PagePoolExhausted
    | StorageFailed
    | BlockNotFound
    | NotFound
    | Corruption
    | NotPermitted
    | AccessDenied
    | InvalidSliceKey
    | BadHexField

  datatype Result<+T> = Ok(value: T) | Err(error: Error)

  type byte = x: int | 0 <= x < 256

  const PAGE_SIZE: nat := 131072
  const BLOCK_SIZE: nat := 4194304
  const CHUNK_SIZE: nat := 67108864

  const PAGES_PER_BLOCK: nat := 32
  const BLOCKS_PER_CHUNK: nat := 16
  const PAGES_PER_CHUNK: nat := 512

  function Min(a: int, b: int): int { if a <= b then a else b }

  function Max(a: int, b: int): int { if a <= b then b else a }

  function Zeros(n: nat): (z: seq<byte>)
    ensures |z| == n && forall i :: 0 <= i < n ==> z[i] == 0
  {
    seq(n, _ => 0)
  }

  /** The flat meaning of a positioned write: `data` replaces what was there, a gap
      between the old end and `off` reads as zero. */
  function Overlay(content: seq<byte>, off: nat, data: seq<byte>): (r: seq<byte>)
    ensures |r| == if data == [] then |content| else Max(|content|, off + |data|)
    ensures forall i :: 0 <= i < |r| ==>
                          r[i] == if off <= i < off + |data| then data[i - off]
                                  else if i < |content| then content[i] else 0
  {
    if data == [] then content
    else
      seq(Max(|content|, off + |data|), i requires 0 <= i =>
        if off <= i < off + |data| then data[i - off]
        else if i < |content| then content[i] else 0)
  }

  // ---- division by a size that is not a constant ------------------------------------

  lemma DivUnique(x: nat, d: nat, q: nat, r: nat)
    requires 0 < d && x == q * d + r && r < d
    ensures x / d == q && x % d == r
  {
    var k := x / d;
    assert x == k * d + x % d;
    if k < q { MulStep(k, q, d); }
    if q < k { MulStep(q, k, d); }
  }

  lemma MulStep(a: nat, b: nat, d: nat)
    requires a < b
    ensures a * d + d <= b * d
  {
    assert b * d == (a + 1) * d + (b - a - 1) * d;
    assert (a + 1) * d == a * d + d;
  }

  lemma DivParts(x: nat, d: nat)
    requires 0 < d
    ensures x == x / d * d + x % d && x % d < d
  {
  }
}
