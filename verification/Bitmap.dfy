/**
 The chunk bitmap `BitVec<u8, Lsb0>` (crates/core/src/protocol/types.rs): `bits` are the live bits and
 `pad` the dead bits of the last storage byte, which `as_raw_slice` writes out with the live ones.
 */
module Bitmap {
  import opened Chunks

  /** A byte from eight bits, least significant first, and its inverse. */
  function ByteValue(bits: seq<bool>): nat {
    if bits == [] then 0 else (if bits[0] then 1 else 0) + 2 * ByteValue(bits[1..])
  }

  function BitOf(v: nat, k: nat): bool {
    if k == 0 then v % 2 == 1 else BitOf(v / 2, k - 1)
  }

  function Pow2(n: nat): nat {
    if n == 0 then 1 else 2 * Pow2(n - 1)
  }

  lemma {:induction false} ByteValueBound(bits: seq<bool>)
    ensures ByteValue(bits) < Pow2(|bits|)
  {
    if bits != [] { ByteValueBound(bits[1..]); }
  }

  lemma {:induction false} BitOfByteValue(bits: seq<bool>, k: nat)
    requires k < |bits|
    ensures BitOf(ByteValue(bits), k) == bits[k]
  {
    var rest := ByteValue(bits[1..]);
    assert ByteValue(bits) / 2 == rest;
    if k > 0 { BitOfByteValue(bits[1..], k - 1); }
  }

  function PackByte(bits: seq<bool>): byte
    requires |bits| == 8
  {
    ByteValueBound(bits);
    assert Pow2(8) == 2 * (2 * (2 * (2 * (2 * (2 * (2 * (2 * Pow2(0))))))));
    ByteValue(bits)
  }

  function Pack(bits: seq<bool>): (bytes: Bytes)
    requires |bits| % 8 == 0
    ensures |bytes| == |bits| / 8
  {
    seq(|bits| / 8, j requires 0 <= j < |bits| / 8 => PackByte(bits[8 * j..8 * j + 8]))
  }

  function Unpack(bytes: Bytes): (bits: seq<bool>)
    ensures |bits| == 8 * |bytes|
  {
    seq(8 * |bytes|, i requires 0 <= i < 8 * |bytes| => BitOf(bytes[i / 8], i % 8))
  }

  function Falses(n: nat): (s: seq<bool>)
    ensures |s| == n && forall i :: 0 <= i < n ==> !s[i]
  {
    seq(n, _ => false)
  }

  predicate AllSet(bits: seq<bool>) {
    forall i :: 0 <= i < |bits| ==> bits[i]
  }

  datatype BitVec = BitVec(bits: seq<bool>, pad: seq<bool>) {
    ghost predicate Valid() {
      (|bits| + |pad|) % 8 == 0 && |pad| < 8
    }

    /** `as_raw_slice` */
    function Raw(): Bytes
      requires Valid()
    {
      Pack(bits + pad)
    }

    function Set(i: nat): BitVec
      requires i < |bits|
    {
      this.(bits := bits[i := true])
    }
  }

  function PadLen(n: nat): nat {
    (8 - n % 8) % 8
  }

  /** `bitvec![u8, Lsb0; 0; n]` */
  function Zeros(n: nat): (v: BitVec)
    ensures v.Valid() && |v.bits| == n && forall i :: 0 <= i < n ==> !v.bits[i]
  {
    BitVec(Falses(n), Falses(PadLen(n)))
  }

  /** `fill(true)` */
  function Ones(n: nat): (v: BitVec)
    ensures v.Valid() && |v.bits| == n && AllSet(v.bits)
  {
    BitVec(seq(n, _ => true), Falses(PadLen(n)))
  }

  /** The padding of n bits fits where n bits fit. */
  lemma PadFits(n: nat, bytes: nat)
    ensures PadLen(n) < 8 && (n + PadLen(n)) % 8 == 0
    ensures n <= 8 * bytes ==> n + PadLen(n) <= 8 * bytes
  {
    var q := (n + PadLen(n)) / 8;
    assert n + PadLen(n) == 8 * q;
  }

  /** `BitVec::from_vec` followed by `resize(n, false)` or `truncate(n)`. */
  function Load(bytes: Bytes, n: nat): (v: BitVec)
    ensures v.Valid() && |v.bits| == n
    ensures forall i :: 0 <= i < n ==> (v.bits[i] <==> i < 8 * |bytes| && BitOf(bytes[i / 8], i % 8))
  {
    var stored := Unpack(bytes);
    PadFits(n, |bytes|);
    hide PadLen, BitOf;
    if |stored| < n then BitVec(stored + Falses(n - |stored|), Falses(PadLen(n)))
    else BitVec(stored[..n], stored[n..n + PadLen(n)])
  }

  lemma UnpackPack(bits: seq<bool>)
    requires |bits| % 8 == 0
    ensures Unpack(Pack(bits)) == bits
  {
    var back := Unpack(Pack(bits));
    forall i | 0 <= i < |bits|
      ensures back[i] == bits[i]
    {
      BitOfByteValue(bits[8 * (i / 8)..8 * (i / 8) + 8], i % 8);
    }
  }

  /**
   Torn-file theorem: loading the first k bytes of a saved bitmap gives exactly the bits stored in them and
   false for all later ones, whatever the padding bits hold.
   */
  lemma LoadPrefix(v: BitVec, k: nat)
    requires v.Valid() && k <= |v.Raw()|
    ensures forall i :: 0 <= i < |v.bits| ==> (Load(v.Raw()[..k], |v.bits|).bits[i] <==> i < 8 * k && v.bits[i])
  {
    var raw := v.Raw();
    UnpackPack(v.bits + v.pad);
    forall i | 0 <= i < |v.bits|
      ensures Load(raw[..k], |v.bits|).bits[i] <==> i < 8 * k && v.bits[i]
    {
      assert i < 8 * |raw|;
      assert Unpack(raw)[i] == BitOf(raw[i / 8], i % 8);
      assert (v.bits + v.pad)[i] == v.bits[i];
      if i < 8 * k { assert raw[..k][i / 8] == raw[i / 8]; }
    }
  }

  /** Codec round trip: saving a bitmap and loading it at the same length is the identity. */
  lemma LoadRaw(v: BitVec)
    requires v.Valid()
    ensures Load(v.Raw(), |v.bits|).bits == v.bits
  {
    LoadPrefix(v, |v.Raw()|);
    assert v.Raw()[..|v.Raw()|] == v.Raw();
  }
}
