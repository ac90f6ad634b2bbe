/**
 File metadata and the arithmetic that cuts a file into fixed-size chunks
 (crates/core/src/protocol/types.rs, crates/core/src/disk/reader.rs).
 The code computes in `u64`, so the wrap-around is written out; `Offset` and `Len` are the
 mathematical ranges the rest of the model reasons with.
 */
module Chunks {
  const U64: nat := 0x1_0000_0000_0000_0000

  type byte = b: int | 0 <= b < 256
  type Bytes = seq<byte>

  datatype Metadata = Metadata(fileId: nat, relativePath: string, size: nat, chunkSize: nat, modified: nat) {

    /** Every field fits the machine width; a zero chunk size panics in `div_ceil`. */
    ghost predicate Valid() {
      size < U64 && 0 < chunkSize < U64 && modified < U64
    }

    /** `size.div_ceil(chunk_size)` */
    function NumChunks(): nat
      requires 0 < chunkSize
    {
      if size % chunkSize > 0 then size / chunkSize + 1 else size / chunkSize
    }

    /** `get_chunk_size`: the product and the difference wrap at 64 bits. */
    function GetChunkSize(index: nat): nat
    {
      var offset := index * chunkSize % U64;
      var diff := (size - offset) % U64;
      if diff < chunkSize then diff else chunkSize
    }

    /** More than one chunk: the file is staged as `.part` and has a `.state`. */
    predicate Staged() {
      size > chunkSize
    }

    ghost function Offset(i: nat): nat {
      i * chunkSize
    }

    ghost function Len(i: nat): int {
      if size - Offset(i) < chunkSize then size - Offset(i) else chunkSize
    }

    ghost predicate InChunk(i: nat, p: int) {
      Offset(i) <= p < Offset(i) + Len(i)
    }
  }

  lemma MulMono(a: nat, b: nat, c: nat)
    requires a <= b
    ensures a * c <= b * c
  {
    assert b * c == a * c + (b - a) * c;
  }

  /** n = div_ceil(size, chunk) is the one number with (n-1)*chunk < size <= n*chunk. */
  lemma NumChunksBounds(m: Metadata)
    requires m.Valid()
    ensures m.size <= m.Offset(m.NumChunks())
    ensures m.NumChunks() > 0 ==> m.Offset(m.NumChunks() - 1) < m.size
    ensures m.NumChunks() == 0 <==> m.size == 0
    ensures m.Staged() ==> m.NumChunks() >= 2
    ensures m.size > 0 && !m.Staged() ==> m.NumChunks() == 1
  {
  }

  /** Inside the bitmap no u64 product or subtraction wraps, and each range is a non-empty part of the file. */
  lemma ChunkInBounds(m: Metadata, i: nat)
    requires m.Valid() && i < m.NumChunks()
    ensures m.Offset(i) < m.size < U64
    ensures m.GetChunkSize(i) == m.Len(i) > 0
    ensures m.Offset(i) + m.Len(i) <= m.size
    ensures m.Offset(i) % U64 == m.Offset(i)
    ensures !m.Staged() ==> m.Offset(i) == 0 && m.Len(i) == m.size
  {
    NumChunksBounds(m);
    MulMono(i, m.NumChunks() - 1, m.chunkSize);
    NoWrap(m.Offset(i));
    NoWrap(m.size - m.Offset(i));
    hide Metadata.NumChunks;
  }

  lemma NoWrap(v: nat)
    requires v < U64
    ensures v % U64 == v
  {
  }

  lemma OnlyChunk(m: Metadata, p: nat, q: nat, i: nat)
    requires m.Valid() && p < m.size
    requires m.Offset(q) <= p < m.Offset(q) + m.chunkSize
    requires i < m.NumChunks()
    ensures m.InChunk(i, p) <==> i == q
  {
    ChunkInBounds(m, i);
    if i < q {
      MulMono(i + 1, q, m.chunkSize);
      assert m.Offset(i + 1) == m.Offset(i) + m.chunkSize;
    } else if q < i {
      MulMono(q + 1, i, m.chunkSize);
      assert m.Offset(q + 1) == m.Offset(q) + m.chunkSize;
    }
  }

  /** Chunk tiling: every byte of the file lies in exactly one chunk, the one numbered p / chunk_size. */
  lemma Tiling(m: Metadata, p: nat)
    requires m.Valid() && p < m.size
    ensures p / m.chunkSize < m.NumChunks()
    ensures forall i: nat :: i < m.NumChunks() ==> (m.InChunk(i, p) <==> i == p / m.chunkSize)
  {
    var q := p / m.chunkSize;
    assert m.Offset(q) <= p < m.Offset(q) + m.chunkSize by {
      assert p == q * m.chunkSize + p % m.chunkSize;
    }
    NumChunksBounds(m);
    if q >= m.NumChunks() {
      MulMono(m.NumChunks(), q, m.chunkSize);
      assert false;
    }
    forall i: nat | i < m.NumChunks()
      ensures m.InChunk(i, p) <==> i == q
    {
      OnlyChunk(m, p, q, i);
    }
  }

  /** Sum of the lengths of those of the first k chunks whose bit equals `which`. */
  ghost function LensWhere(m: Metadata, bits: seq<bool>, which: bool, k: nat): int
    requires k <= |bits|
  {
    if k == 0 then 0
    else LensWhere(m, bits, which, k - 1) + (if bits[k - 1] == which then m.Len(k - 1) else 0)
  }

  /** Byte conservation: missing bytes plus completed bytes always make the whole file. */
  lemma {:induction false} Conservation(m: Metadata, bits: seq<bool>, k: nat)
    requires m.Valid() && |bits| == m.NumChunks() && k <= |bits|
    ensures LensWhere(m, bits, false, k) >= 0 && LensWhere(m, bits, true, k) >= 0
    ensures LensWhere(m, bits, false, k) + LensWhere(m, bits, true, k)
         == (if m.Offset(k) < m.size then m.Offset(k) else m.size)
  {
    if k == 0 {
    } else {
      Conservation(m, bits, k - 1);
      ChunkInBounds(m, k - 1);
      assert m.Offset(k) == m.Offset(k - 1) + m.chunkSize;
    }
  }

  lemma ConservationWhole(m: Metadata, bits: seq<bool>)
    requires m.Valid() && |bits| == m.NumChunks()
    ensures LensWhere(m, bits, false, |bits|) + LensWhere(m, bits, true, |bits|) == m.size
    ensures 0 <= LensWhere(m, bits, false, |bits|) <= m.size
  {
    Conservation(m, bits, |bits|);
    NumChunksBounds(m);
  }

  /** The chunk lengths add up to the file: with no bit set, everything is missing. */
  lemma {:induction false} LensOfUniform(m: Metadata, bits: seq<bool>, which: bool, k: nat)
    requires k <= |bits| && (forall i :: 0 <= i < |bits| ==> bits[i] == which)
    ensures LensWhere(m, bits, !which, k) == 0
  {
    if k > 0 {
      LensOfUniform(m, bits, which, k - 1);
    }
  }
}
