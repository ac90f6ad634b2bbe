/**
 The three files the receiver keeps for one incoming file: `.part`, `.state` and the final file
 (crates/core/src/disk/staging.rs). A disk operation is described by the disk states it passes through,
 so a crash "between any two disk operations", or inside a torn write, is a position in such a trace.
 */
module Disk {
  import opened Wrappers
  import opened Chunks

  datatype File = File(data: Bytes, mtime: nat)

  datatype Disk = Disk(part: Option<Bytes>, state: Option<Bytes>, final: Option<File>)

  function End(d: Disk, trace: seq<Disk>): Disk {
    if trace == [] then d else trace[|trace| - 1]
  }

  lemma EndEmpty(d: Disk)
    ensures End(d, []) == d
  {
  }

  lemma EndConcat(d: Disk, a: seq<Disk>, b: seq<Disk>)
    ensures End(d, a + b) == End(End(d, a), b)
  {
  }

  /** Two traces in a row: where they end, and how a history grows by them. */
  lemma Follow(h: seq<Disk>, d: Disk, a: seq<Disk>, b: seq<Disk>)
    ensures End(d, a + b) == End(End(d, a), b)
    ensures (h + a) + b == h + (a + b)
  {
  }

  function Zeroed(n: nat): (z: Bytes)
    ensures |z| == n && forall p :: 0 <= p < n ==> z[p] == 0
  {
    seq(n, _ => 0)
  }

  /** `set_len`: cut, or extend with zero bytes. */
  function SetLen(data: Bytes, n: nat): (r: Bytes)
    ensures |r| == n && forall p :: 0 <= p < n ==> r[p] == if p < |data| then data[p] else 0
  {
    if n <= |data| then data[..n] else data + Zeroed(n - |data|)
  }

  /** Seek to `off` and write: a gap before `off` reads as zeros, bytes after the write stay. */
  function WriteAt(data: Bytes, off: nat, bytes: Bytes): (r: Bytes)
    ensures bytes != [] ==> |r| == (if off + |bytes| < |data| then |data| else off + |bytes|)
    ensures bytes == [] ==> r == data
    ensures forall p :: off <= p < off + |bytes| && p < |r| ==> r[p] == bytes[p - off]
    ensures forall p :: 0 <= p < |data| && p < |r| && !(off <= p < off + |bytes|) ==> r[p] == data[p]
    ensures forall p :: |data| <= p < off && p < |r| ==> r[p] == 0
  {
    if bytes == [] then data
    else
      (if |data| <= off then SetLen(data, off) else data[..off]) + bytes
      + (if off + |bytes| < |data| then data[off + |bytes|..] else [])
  }

  /** Opening with create and without truncate. */
  function OpenPart(d: Disk): Disk {
    d.(part := Some(PartBytes(d)))
  }

  function PartBytes(d: Disk): Bytes {
    match d.part case None => [] case Some(b) => b
  }

  function FinalBytes(d: Disk): Bytes {
    match d.final case None => [] case Some(f) => f.data
  }

  function SizePart(d: Disk, n: nat): Disk {
    d.(part := Some(SetLen(PartBytes(d), n)))
  }

  function OpenFinal(d: Disk, now: nat): Disk {
    if d.final.Some? then d else d.(final := Some(File([], now)))
  }

  /** A torn write may stop after any byte. */
  function WritePart(d: Disk, off: nat, bytes: Bytes): (trace: seq<Disk>)
    ensures |trace| == |bytes|
  {
    seq(|bytes|, k requires 0 <= k < |bytes| => d.(part := Some(WriteAt(PartBytes(d), off, bytes[..k + 1]))))
  }

  function WriteFinal(d: Disk, off: nat, bytes: Bytes, now: nat): (trace: seq<Disk>)
    ensures |trace| == |bytes|
  {
    seq(|bytes|, k requires 0 <= k < |bytes| =>
      d.(final := Some(File(WriteAt(FinalBytes(d), off, bytes[..k + 1]), now))))
  }

  /** `tokio::fs::write`: truncate, then write; every prefix can be what a crash leaves. */
  function WriteState(d: Disk, raw: Bytes): (trace: seq<Disk>)
    ensures |trace| == |raw| + 1
  {
    seq(|raw| + 1, k requires 0 <= k < |raw| + 1 => d.(state := Some(raw[..k])))
  }

  /** Every prefix of the bytes of a write is a state that a crash can leave. */
  lemma EveryPrefix(d: Disk, off: nat, bytes: Bytes, n: nat, now: nat)
    requires 0 < n <= |bytes|
    ensures exists k :: 0 <= k < |bytes| && WritePart(d, off, bytes)[k].part
                                            == Some(WriteAt(PartBytes(d), off, bytes[..n]))
    ensures exists k :: 0 <= k < |bytes| && WriteFinal(d, off, bytes, now)[k].final
                                            == Some(File(WriteAt(FinalBytes(d), off, bytes[..n]), now))
    ensures exists k :: 0 <= k <= |bytes| && WriteState(d, bytes)[k].state == Some(bytes[..n])
    ensures exists k :: 0 <= k <= |bytes| && WriteState(d, bytes)[k].state == Some([])
  {
    hide WriteAt;
    assert WritePart(d, off, bytes)[n - 1].part == Some(WriteAt(PartBytes(d), off, bytes[..n]));
    assert WriteFinal(d, off, bytes, now)[n - 1].final == Some(File(WriteAt(FinalBytes(d), off, bytes[..n]), now));
    assert WriteState(d, bytes)[n].state == Some(bytes[..n]) && WriteState(d, bytes)[0].state == Some([]);
  }

  function RemoveState(d: Disk): Disk {
    d.(state := None)
  }

  /** `rename(part, final)` keeps the bytes and the time of the last write. */
  function RenamePart(d: Disk, now: nat): Disk {
    d.(part := None, final := Some(File(PartBytes(d), now)))
  }

  function TouchFinal(d: Disk, mtime: nat): Disk {
    if d.final.None? then d else d.(final := Some(d.final.value.(mtime := mtime)))
  }

  /** `File::create(final)`: an existing file is truncated. */
  function CreateEmptyFinal(d: Disk, now: nat): Disk {
    d.(final := Some(File([], now)))
  }

  /** The disk as the code sees it; `history` records every state a crash could have left. */
  class FileStore {
    var disk: Disk
    ghost var history: seq<Disk>

    constructor (d: Disk)
      ensures disk == d && history == []
    {
      disk := d;
      history := [];
    }

    method Perform(trace: seq<Disk>)
      modifies this
      ensures disk == End(old(disk), trace)
      ensures history == old(history) + trace
    {
      disk := End(disk, trace);
      history := history + trace;
    }
  }
}
