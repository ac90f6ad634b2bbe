/**
 Where the guarantee ends: the exact conditions under which single steps of the code are safe
 (crates/core/src/disk/writer.rs, crates/core/src/disk/staging.rs).
 */
module Limits {
  import opened Wrappers
  import opened Chunks
  import opened Bitmap
  import opened Disk
  import opened Writer
  import opened CrashSafety
  import opened Instruction

  /** A later handshake that takes the file as finished is right to. */
  ghost predicate Sound(j: Job, d: Disk)
    requires j.Valid()
  {
    AllSet(ParseLarge(j.mode, j.meta, d, 0).0.vec.bits) ==> Exact(j, d)
  }

  /**
   A crash inside `commit` is harmless if and only if the old file at the final path does not look finished (or is):
   between removing `.state` and renaming `.part`, only the old final file is left to look at.
   */
  lemma CommitCrash(j: Job, d: Disk, now: nat, touched: bool)
    requires j.Valid() && j.meta.Staged() && d.part == Some(j.source) && d.state.Some?
    ensures var trace := CommitTrace(j.meta, d, now, touched);
            (forall k :: 0 <= k < |trace| ==> Sound(j, trace[k]))
            <==> (SkipRule(j.mode, j.meta, d.final) ==> Exact(j, d))
  {
    NumChunksBounds(j.meta);
    var trace := CommitTrace(j.meta, d, now, touched);
    assert trace[0] == RemoveState(d);
    FinishedIff(j, RemoveState(d));
    assert forall k :: 1 <= k < |trace| ==> Exact(j, trace[k]);
    hide ParseLarge, CommitTrace;
    assert Sound(j, trace[0]) <==> (SkipRule(j.mode, j.meta, d.final) ==> Exact(j, d));
  }

  /**
   Without a `.state` a file is taken for finished by what is at its final path: by the length in Unique mode, by
   length and time in Sync mode, never in Overwrite mode.
   */
  lemma FinishedIff(j: Job, d: Disk)
    requires j.Valid() && d.state == None
    ensures AllSet(ParseLarge(j.mode, j.meta, d, 0).0.vec.bits) <==>
              && j.mode != Overwrite && d.final.Some? && |d.final.value.data| == |j.source|
              && (j.mode == Sync ==> d.final.value.mtime == j.meta.modified)
    ensures AllSet(ParseLarge(j.mode, j.meta, d, 0).0.vec.bits) <==> SkipRule(j.mode, j.meta, d.final)
  {
    NumChunksBounds(j.meta);
    assert !Zeros(j.meta.NumChunks()).bits[0];
  }

  /** A single-chunk file is written in place without truncation: exact if and only if nothing longer was there. */
  lemma SmallWrite(j: Job, d: Disk, isResumed: bool, now: nat)
    requires j.Valid() && !j.meta.Staged()
    ensures var packet := Packet(0, 0, j.source);
            Exact(j, End(d, WriteTrace(j.meta, isResumed, false, d, packet, now))) <==> |FinalBytes(d)| <= j.meta.size
  {
    var d0 := OpenFinal(d, now);
    AllWritten(d0, j.source, now);
    CoversIff(FinalBytes(d), j.source);
    hide WriteAt, WriteFinal;
    assert End(d, [d0]) == d0 && OpenTrace(j.meta, isResumed, d, now) == [d0];
    hide End, OpenTrace;
    Follow([], d, [d0], WriteFinal(d0, 0, j.source, now));
  }

  lemma AllWritten(d: Disk, bytes: Bytes, now: nat)
    requires bytes != []
    ensures FinalBytes(End(d, WriteFinal(d, 0, bytes, now))) == WriteAt(FinalBytes(d), 0, bytes)
    ensures End(d, WriteFinal(d, 0, bytes, now)).final.Some?
  {
    assert bytes[..|bytes|] == bytes;
    hide WriteAt;
  }

  /** A write from the start leaves its own bytes alone if and only if nothing longer was there. */
  lemma CoversIff(data: Bytes, bytes: Bytes)
    requires bytes != []
    ensures WriteAt(data, 0, bytes) == bytes <==> |data| <= |bytes|
  {
  }

  /** With no `.state` and no finished-looking final file, a file may start unless it has a single chunk and meets
      something longer. */
  lemma FreshStart(j: Job, d: Disk)
    requires j.Valid() && d.state == None && !SkipRule(j.mode, j.meta, d.final)
    ensures FileInv(j, d) <==> j.meta.Staged() || |FinalBytes(d)| <= j.meta.size
  {
  }

  /**
   In Sync mode the in-place write of a single-chunk file is crash-safe if and only if the clock stands apart: with the
   source's mtime as write time, an old file of the same length and another tail looks finished while half-written.
   */
  lemma SyncWrite(j: Job, d: Disk, now: nat)
    requires j.Valid() && j.mode == Sync && !j.meta.Staged() && d.state == None
    ensures (forall k :: 0 <= k < j.meta.size ==> Sound(j, WriteFinal(d, 0, j.source, now)[k]))
            <==> ClockApart(j, d, now)
  {
    var trace := WriteFinal(d, 0, j.source, now);
    forall k | 0 <= k < j.meta.size && ClockApart(j, d, now)
      ensures Sound(j, trace[k])
    {
      SyncPrefix(j, d, now, k);
    }
    if !ClockApart(j, d, now) {
      SyncTorn(j, d, now);
    }
  }

  lemma SyncPrefix(j: Job, d: Disk, now: nat, k: nat)
    requires j.Valid() && j.mode == Sync && !j.meta.Staged() && d.state == None && k < j.meta.size
    ensures var torn := WriteFinal(d, 0, j.source, now)[k];
            && torn.final == Some(File(WriteAt(FinalBytes(d), 0, j.source[..k + 1]), now))
            && (Sound(j, torn) <==> (SkipRule(Sync, j.meta, torn.final) ==> Exact(j, torn)))
            && (ClockApart(j, d, now) ==> Sound(j, torn))
  {
    var torn := WriteFinal(d, 0, j.source, now)[k];
    FinishedIff(j, torn);
    var r := WriteAt(FinalBytes(d), 0, j.source[..k + 1]);
    hide WriteAt, ParseLarge;
    if SkipRule(Sync, j.meta, torn.final) && ClockApart(j, d, now) {
      assert r == j.source;
    }
  }

  /** The first byte alone shows it. */
  lemma SyncTorn(j: Job, d: Disk, now: nat)
    requires j.Valid() && j.mode == Sync && !j.meta.Staged() && d.state == None && !ClockApart(j, d, now)
    ensures !Sound(j, WriteFinal(d, 0, j.source, now)[0])
  {
    SyncPrefix(j, d, now, 0);
    var data := FinalBytes(d);
    var p :| 1 <= p < |data| && data[p] != j.source[p];
    var r := WriteAt(data, 0, j.source[..1]);
    hide WriteAt, ParseLarge, Sound;
    assert r[p] == data[p];
  }

  /** Overwrite starts from nothing if and only if no chunk is saved: a `.state` is resumed in this mode too. */
  lemma OverwriteRestarts(m: Metadata, d: Disk, now: nat)
    requires m.Valid()
    ensures ParseLarge(Overwrite, m, d, now).0.vec.bits == Falses(m.NumChunks()) <==>
              d.state == None || forall i :: 0 <= i < m.NumChunks() ==> !Load(d.state.value, m.NumChunks()).bits[i]
  {
  }

  /** Two chunks of one byte, the first of them saved: only the second is asked for. */
  lemma OverwriteResumes(part: Bytes, now: nat)
    ensures var m := Metadata(0, "a", 2, 1, 0);
            ParseLarge(Overwrite, m, Disk(Some(part), Some([1]), None), now).0.vec.bits == [true, false]
  {
    var m := Metadata(0, "a", 2, 1, 0);
    var bits := Load([1], m.NumChunks()).bits;
    assert BitOf(1, 0) && !BitOf(1, 1);
    assert bits[0] && !bits[1];
  }

  /** Two live writers: one that saves after another has committed leaves a `.state` without its `.part`. */
  lemma StaleSave(j: Job, d: Disk, vec: BitVec)
    requires j.Valid() && j.meta.Staged() && d.part == None && d.state == None && vec.Valid()
    ensures CrashSafe(j, d) && !CrashSafe(j, End(d, SaveTrace(j.meta, vec, d)))
  {
  }

  /** Removing the staging files is crash-safe in any order if and only if no `.state` is left. */
  lemma CleanupOrder(j: Job, d: Disk)
    requires j.Valid() && j.meta.Staged() && CrashSafe(j, d)
    ensures CrashSafe(j, d.(part := None)) <==> d.state == None
    ensures CrashSafe(j, d.(state := None))
  {
  }
}
