/**
 What every disk operation of the writer keeps: the resume invariant of one file, for every disk state a
 crash could leave, and what a session promises when its loop ends (crates/core/src/disk/writer.rs,
 crates/core/src/protocol/types.rs).
 */
module CrashSafety {
  import opened Wrappers
  import opened Chunks
  import opened Bitmap
  import opened Disk
  import opened Writer

  datatype Mode = Unique | Overwrite | Sync

  /** One large file of the transfer: what the manifest says of it, and the bytes the sender holds. */
  datatype Job = Job(meta: Metadata, source: Bytes, mode: Mode) {
    ghost predicate Valid() {
      meta.Valid() && |source| == meta.size && meta.size > 0
    }

    /** What `get_chunk` reads: as many bytes as `get_chunk_size` says, from the chunk's offset. */
    ghost function Chunk(i: nat): (chunk: Bytes)
      requires Valid() && i < meta.NumChunks()
      ensures |chunk| == meta.GetChunkSize(i) <= meta.chunkSize
    {
      ChunkInBounds(meta, i);
      source[meta.Offset(i)..meta.Offset(i) + meta.Len(i)]
    }
  }

  /** When `parse` takes the file at the final path for the finished one. */
  predicate SkipRule(mode: Mode, m: Metadata, final: Option<File>) {
    match mode
    case Unique => final.Some? && |final.value.data| == m.size
    case Overwrite => false
    case Sync => final.Some? && |final.value.data| == m.size && final.value.mtime == m.modified
  }

  ghost predicate Exact(j: Job, d: Disk) {
    d.final.Some? && d.final.value.data == j.source
  }

  /** The final file carries the source's modification time again. */
  ghost predicate Restored(j: Job, d: Disk) {
    d.final.Some? && d.final.value.mtime == j.meta.modified
  }

  ghost predicate ChunkExact(j: Job, data: Bytes, i: nat) {
    |data| == |j.source| && forall p :: 0 <= p < |data| && j.meta.InChunk(i, p) ==> data[p] == j.source[p]
  }

  /** The chunk bits a restarted receiver would read from disk. */
  function DiskBits(j: Job, d: Disk): seq<bool>
    requires 0 < j.meta.chunkSize
  {
    if d.state.Some? then Load(d.state.value, j.meta.NumChunks()).bits else Falses(j.meta.NumChunks())
  }

  /** The heart of resume: a `.state` vouches for a `.part` of full length, and each set bit for its chunk. */
  ghost predicate CrashSafe(j: Job, d: Disk)
    requires 0 < j.meta.chunkSize
  {
    j.meta.Staged() && d.state.Some? ==>
      && d.part.Some? && |d.part.value| == j.meta.size
      && forall i: nat :: i < j.meta.NumChunks() && DiskBits(j, d)[i] ==> ChunkExact(j, d.part.value, i)
  }

  /** A saved bitmap is never complete, so the `state.all()` branches of `parse` cannot meet one. */
  ghost predicate NeverComplete(j: Job, d: Disk)
    requires 0 < j.meta.chunkSize
  {
    d.state.Some? ==> j.meta.Staged() && !AllSet(DiskBits(j, d))
  }

  ghost predicate FileInv(j: Job, d: Disk)
    requires j.Valid()
  {
    && CrashSafe(j, d)
    && NeverComplete(j, d)
    && (SkipRule(j.mode, j.meta, d.final) ==> Exact(j, d))
    && (!j.meta.Staged() && d.final.Some? ==> |d.final.value.data| <= j.meta.size)
    && (j.mode == Sync && d.state.Some? ==> !SkipRule(Sync, j.meta, d.final))
  }

  ghost predicate TraceInv(j: Job, trace: seq<Disk>)
    requires j.Valid()
  {
    forall k :: 0 <= k < |trace| ==> FileInv(j, trace[k])
  }

  ghost function Unsaved(j: Job, bits: seq<bool>, d: Disk): set<nat>
    requires j.Valid() && |bits| == j.meta.NumChunks()
  {
    set i: nat | i < |bits| && bits[i] && !DiskBits(j, d)[i]
  }

  /** The `.part` file holds every chunk the in-memory bitmap claims. */
  ghost predicate Backed(j: Job, bits: seq<bool>, d: Disk)
    requires j.Valid() && |bits| == j.meta.NumChunks()
  {
    && d.part.Some? && |d.part.value| == j.meta.size
    && forall i: nat :: i < |bits| && bits[i] ==> ChunkExact(j, d.part.value, i)
  }

  /** What holds at every head of the writer loop of an incomplete file. */
  ghost predicate SessionInv(j: Job, s: Session, d: Disk)
    requires j.Valid()
  {
    && s.vec.Valid() && |s.vec.bits| == j.meta.NumChunks() && !s.Complete()
    && s.sinceSave < SAVE_INTERVAL
    && (!j.meta.Staged() ==> !s.open)
    && (j.meta.Staged() ==>
          && (s.isResumed ==> Backed(j, s.vec.bits, d))
          && (!s.isResumed ==> d.state == None && s.vec.bits == Falses(|s.vec.bits|) && !s.open && s.sinceSave == 0)
          && (forall i :: 0 <= i < |s.vec.bits| && DiskBits(j, d)[i] ==> s.vec.bits[i])
          && |Unsaved(j, s.vec.bits, d)| <= s.sinceSave
          && NotTaken(j, d))
  }

  /** A restart would go by the saved bitmap, not take the final file for the finished one. */
  ghost predicate NotTaken(j: Job, d: Disk) {
    j.mode == Sync || d.state == None ==> !SkipRule(j.mode, j.meta, d.final)
  }

  /** Ending without a commit lost nothing: a restart would read back the session's bitmap. */
  ghost predicate Retained(j: Job, s: Session, d: Disk)
    requires j.Valid()
  {
    j.meta.Staged() ==> DiskBits(j, d) == s.vec.bits && NotTaken(j, d)
  }

  /** No other payload hashes like a chunk of the source. */
  ghost predicate CollisionFree(j: Job, hash: Hash)
    requires j.Valid()
  {
    forall i: nat, b: Bytes :: i < j.meta.NumChunks() && hash(b) == hash(j.Chunk(i)) ==> b == j.Chunk(i)
  }

  /** The header names a chunk of the source; the payload may be anything. */
  ghost predicate Honest(j: Job, hash: Hash, p: Packet)
    requires j.Valid()
  {
    p.index < j.meta.NumChunks() && p.hash == hash(j.Chunk(p.index))
  }

  /**
   In Sync mode a single-chunk file is rewritten in place. Half-written it must not look finished: the write time is
   not the source's mtime, or the old file has another length, or it differs in its first byte at most.
   */
  ghost predicate ClockApart(j: Job, d: Disk, now: nat) {
    j.mode == Sync && !j.meta.Staged() ==>
      now != j.meta.modified || |FinalBytes(d)| != j.meta.size || SameTail(j, FinalBytes(d))
  }

  ghost predicate SameTail(j: Job, data: Bytes) {
    forall p :: 1 <= p < |data| && p < |j.source| ==> data[p] == j.source[p]
  }

  ghost predicate ValidEvent(j: Job, hash: Hash, d: Disk, event: Event)
    requires j.Valid()
  {
    event.Receive? ==> Honest(j, hash, event.packet) && ClockApart(j, d, event.now)
  }

  /** What the session and the disk promise after a turn of the loop. */
  ghost predicate TurnInv(j: Job, s: Session, d: Disk)
    requires j.Valid()
  {
    match s.status
    case Waiting => false
    case Running => SessionInv(j, s, d)
    case Committed => Exact(j, d) && d.state == None && s.Complete()
    case Drained => Retained(j, s, d)
    case Cancelled => Retained(j, s, d)
    case Rejected => true
    case Faulted => false
  }

  lemma TraceConcat(j: Job, a: seq<Disk>, b: seq<Disk>)
    requires j.Valid() && TraceInv(j, a) && TraceInv(j, b)
    ensures TraceInv(j, a + b)
  {
  }

  /** Writing a piece of the source at its own place never loses an exact byte. */
  lemma WriteKeepsChunk(j: Job, data: Bytes, off: nat, piece: Bytes, i: nat)
    requires j.Valid() && |data| == |j.source| && off + |piece| <= |data|
    requires piece == j.source[off..off + |piece|]
    requires ChunkExact(j, data, i)
    ensures ChunkExact(j, WriteAt(data, off, piece), i)
  {
  }

  lemma WriteMakesChunk(j: Job, data: Bytes, i: nat)
    requires j.Valid() && |data| == |j.source| && i < j.meta.NumChunks()
    ensures ChunkExact(j, WriteAt(data, j.meta.Offset(i), j.Chunk(i)), i)
  {
    ChunkInBounds(j.meta, i);
  }

  lemma ByteExact(j: Job, data: Bytes, p: nat)
    requires j.Valid() && |data| == |j.source| && p < |data|
    requires forall i: nat :: i < j.meta.NumChunks() ==> ChunkExact(j, data, i)
    ensures data[p] == j.source[p]
  {
    hide ChunkExact;
    Tiling(j.meta, p);
    var q := p / j.meta.chunkSize;
    assert j.meta.InChunk(q, p) && ChunkExact(j, data, q);
    ExactAt(j, data, q, p);
  }

  lemma ExactAt(j: Job, data: Bytes, i: nat, p: nat)
    requires j.Valid() && ChunkExact(j, data, i) && p < |data| && j.meta.InChunk(i, p)
    ensures data[p] == j.source[p]
  {
  }

  /** A bitmap with every bit set vouches for the whole file. */
  lemma AllChunksExact(j: Job, data: Bytes)
    requires j.Valid() && |data| == |j.source|
    requires forall i: nat :: i < j.meta.NumChunks() ==> ChunkExact(j, data, i)
    ensures data == j.source
  {
    forall p | 0 <= p < |data|
      ensures data[p] == j.source[p]
    {
      ByteExact(j, data, p);
    }
  }

  /** Opening the staged file: a fresh `.part` gets its full length before anything else sees it. */
  lemma OpenSafe(j: Job, s: Session, d: Disk, now: nat)
    requires j.Valid() && j.meta.Staged() && FileInv(j, d) && SessionInv(j, s, d) && !s.open
    ensures var trace := OpenTrace(j.meta, s.isResumed, d, now);
            && TraceInv(j, trace) && Backed(j, s.vec.bits, End(d, trace))
            && End(d, trace).state == d.state && End(d, trace).final == d.final
  {
  }

  lemma BackedAfter(j: Job, bits: seq<bool>, d: Disk, off: nat, piece: Bytes)
    requires j.Valid() && |bits| == j.meta.NumChunks() && Backed(j, bits, d)
    requires off + |piece| <= |j.source| && piece == j.source[off..off + |piece|]
    ensures Backed(j, bits, d.(part := Some(WriteAt(PartBytes(d), off, piece))))
  {
  }

  /** Every torn prefix of a chunk write keeps what the bitmaps claim; the whole write adds the chunk. */
  lemma WriteStagedSafe(j: Job, bits: seq<bool>, d: Disk, i: nat)
    requires j.Valid() && j.meta.Staged() && FileInv(j, d) && |bits| == j.meta.NumChunks()
    requires i < |bits| && Backed(j, bits, d)
    ensures var trace := WritePart(d, j.meta.Offset(i), j.Chunk(i));
            && TraceInv(j, trace) && Backed(j, bits[i := true], End(d, trace))
            && End(d, trace).state == d.state && End(d, trace).final == d.final
  {
    hide WriteAt, ChunkExact, FileInv, DiskBits;
    ChunkInBounds(j.meta, i);
    var off, chunk := j.meta.Offset(i), j.Chunk(i);
    var trace := WritePart(d, off, chunk);
    forall k | 0 <= k < |trace|
      ensures FileInv(j, trace[k])
    {
      assert chunk[..k + 1] == j.source[off..off + (k + 1)];
      TornWriteSafe(j, d, off, chunk[..k + 1]);
    }
    assert chunk[..|chunk|] == chunk;
    BackedAfter(j, bits, d, off, chunk);
    WriteMakesChunk(j, PartBytes(d), i);
  }

  lemma TornWriteSafe(j: Job, d: Disk, off: nat, piece: Bytes)
    requires j.Valid() && j.meta.Staged() && FileInv(j, d) && d.part.Some? && |d.part.value| == |j.source|
    requires off + |piece| <= |j.source| && piece == j.source[off..off + |piece|]
    ensures FileInv(j, d.(part := Some(WriteAt(PartBytes(d), off, piece))))
  {
  }

  /** A single-chunk file is written in place: until the last byte it does not meet the skip rule wrongly. */
  lemma WriteSmallSafe(j: Job, d: Disk, now: nat)
    requires j.Valid() && !j.meta.Staged() && FileInv(j, d) && d.final.Some? && ClockApart(j, d, now)
    ensures j.meta.NumChunks() == 1 && j.Chunk(0) == j.source
    ensures var trace := WriteFinal(d, 0, j.source, now);
            TraceInv(j, trace) && Exact(j, End(d, trace)) && End(d, trace).state == d.state == None
  {
    NumChunksBounds(j.meta);
    ChunkInBounds(j.meta, 0);
    var data := d.final.value.data;
    var trace := WriteFinal(d, 0, j.source, now);
    forall k | 0 <= k < |trace|
      ensures FileInv(j, trace[k]) && (k == |trace| - 1 ==> Exact(j, trace[k]))
    {
      var r := trace[k].final.value.data;
      assert r == WriteAt(data, 0, j.source[..k + 1]);
      if k == |trace| - 1 || data == j.source {
        assert r == j.source;
      } else if j.mode == Unique {
        assert |data| < j.meta.size;
      }
    }
  }

  /** Saving an incomplete, backed bitmap: even a torn `.state` claims no more than the bitmap does. */
  lemma SaveSafe(j: Job, vec: BitVec, d: Disk)
    requires j.Valid() && j.meta.Staged() && FileInv(j, d)
    requires vec.Valid() && |vec.bits| == j.meta.NumChunks() && !AllSet(vec.bits) && Backed(j, vec.bits, d)
    requires NotTaken(j, d)
    ensures var trace := SaveTrace(j.meta, vec, d);
            && TraceInv(j, trace) && DiskBits(j, End(d, trace)) == vec.bits
            && End(d, trace).part == d.part && End(d, trace).final == d.final
  {
    var trace := SaveTrace(j.meta, vec, d);
    forall k | 0 <= k < |trace|
      ensures FileInv(j, trace[k])
    {
      LoadPrefix(vec, k);
      assert trace[k].state.value == vec.Raw()[..k];
      var w :| 0 <= w < |vec.bits| && !vec.bits[w];
      assert !DiskBits(j, trace[k])[w];
    }
    LoadRaw(vec);
    assert vec.Raw()[..|vec.Raw()|] == vec.Raw();
  }

  /**
   Commit removes `.state` before it renames, so no crash inside it leaves a `.state` without its `.part`. At the end
   neither is there, and the final file has the source's time, or, if setting that fails, the clock's.
   */
  lemma CommitSafe(j: Job, d: Disk, now: nat, touched: bool)
    requires j.Valid() && FileInv(j, d)
    requires if j.meta.Staged() then d.part == Some(j.source) else Exact(j, d)
    ensures var trace := CommitTrace(j.meta, d, now, touched);
            && TraceInv(j, trace) && Exact(j, End(d, trace)) && End(d, trace).state == None
            && (touched ==> End(d, trace).final.value.mtime == j.meta.modified)
            && (j.meta.Staged() ==>
                  && End(d, trace).part == None
                  && (!touched ==> End(d, trace).final.value.mtime == now))
  {
  }

  /** Setting one bit leaves at most one more chunk that is in memory but not on disk. */
  lemma UnsavedGrows(j: Job, bits: seq<bool>, i: nat, d: Disk, d1: Disk)
    requires j.Valid() && |bits| == j.meta.NumChunks() && i < |bits| && d1.state == d.state
    ensures |Unsaved(j, bits[i := true], d1)| <= |Unsaved(j, bits, d)| + 1
  {
    var before, after := Unsaved(j, bits, d), Unsaved(j, bits[i := true], d1);
    assert after <= before + {i};
    Subset(after, before + {i});
  }

  lemma {:induction false} Subset<T>(a: set<T>, b: set<T>)
    requires a <= b
    ensures |a| <= |b|
  {
    if a != {} {
      var x :| x in a;
      Subset(a - {x}, b - {x});
    }
  }

  lemma NothingUnsaved(j: Job, bits: seq<bool>, d: Disk)
    requires j.Valid() && |bits| == j.meta.NumChunks() && DiskBits(j, d) == bits
    ensures Unsaved(j, bits, d) == {}
  {
  }

  /** With nothing unsaved and the disk below memory, the two bitmaps are the same. */
  lemma SavedAgrees(j: Job, s: Session, d: Disk)
    requires j.Valid() && SessionInv(j, s, d) && j.meta.Staged() && s.sinceSave == 0
    ensures DiskBits(j, d) == s.vec.bits
  {
    var bits := s.vec.bits;
    assert Unsaved(j, bits, d) == {};
    forall i: nat | i < |bits|
      ensures DiskBits(j, d)[i] == bits[i]
    {
      assert i !in Unsaved(j, bits, d);
    }
  }

  /** Ending without a commit: what memory knew is what the disk knows. */
  lemma EndSafe(j: Job, hash: Hash, s: Session, d: Disk, event: Event)
    requires j.Valid() && FileInv(j, d) && SessionInv(j, s, d) && s.status == Running
    requires event == Cancel || event == Close
    ensures var (s1, trace) := Step(j.meta, hash, s, d, event);
            TraceInv(j, trace) && FileInv(j, End(d, trace)) && TurnInv(j, s1, End(d, trace)) && s1.vec == s.vec
  {
    if j.meta.Staged() {
      if s.isResumed { SaveSafe(j, s.vec, d); }
      if s.sinceSave == 0 { SavedAgrees(j, s, d); }
    }
  }

  /** The disk part of a good packet: opening, then writing chunk i. */
  lemma WriteSafe(j: Job, s: Session, d: Disk, packet: Packet, now: nat)
    requires j.Valid() && FileInv(j, d) && SessionInv(j, s, d) && ClockApart(j, d, now)
    requires packet.index < j.meta.NumChunks() && packet.bytes == j.Chunk(packet.index)
    ensures var trace := WriteTrace(j.meta, s.isResumed, s.open, d, packet, now);
            var d1 := End(d, trace);
            && TraceInv(j, trace) && FileInv(j, d1) && d1.state == d.state
            && (if j.meta.Staged() then Backed(j, s.vec.bits[packet.index := true], d1) && d1.final == d.final
                else Exact(j, d1))
  {
    ChunkInBounds(j.meta, packet.index);
    var opening := if s.open then [] else OpenTrace(j.meta, s.isResumed, d, now);
    var d0 := End(d, opening);
    var writing := ChunkTrace(j.meta, d0, packet, now);
    if j.meta.Staged() {
      StagedWriteSafe(j, s, d, packet.index, now);
    } else {
      OpenSmallSafe(j, s, d, now);
      WriteSmallSafe(j, d0, now);
    }
    hide FileInv, End;
    TraceConcat(j, opening, writing);
    Follow([], d, opening, writing);
    EndInv(j, d, opening + writing);
  }

  lemma EndInv(j: Job, d: Disk, trace: seq<Disk>)
    requires j.Valid() && FileInv(j, d) && TraceInv(j, trace)
    ensures FileInv(j, End(d, trace))
  {
  }

  lemma OpenSmallSafe(j: Job, s: Session, d: Disk, now: nat)
    requires j.Valid() && !j.meta.Staged() && FileInv(j, d)
    ensures var trace := OpenTrace(j.meta, s.isResumed, d, now);
            && TraceInv(j, trace) && FileInv(j, End(d, trace))
            && End(d, trace).final.Some? && End(d, trace).state == d.state
  {
  }

  lemma StagedWriteSafe(j: Job, s: Session, d: Disk, i: nat, now: nat)
    requires j.Valid() && j.meta.Staged() && FileInv(j, d) && SessionInv(j, s, d) && i < j.meta.NumChunks()
    ensures var opening := if s.open then [] else OpenTrace(j.meta, s.isResumed, d, now);
            var d0 := End(d, opening);
            var writing := WritePart(d0, j.meta.Offset(i), j.Chunk(i));
            && TraceInv(j, opening) && TraceInv(j, writing) && End(d0, writing).state == d.state
            && Backed(j, s.vec.bits[i := true], End(d0, writing)) && End(d0, writing).final == d.final
  {
    var opening := if s.open then [] else OpenTrace(j.meta, s.isResumed, d, now);
    if !s.open {
      OpenSafe(j, s, d, now);
    }
    EndInv(j, d, opening);
    hide FileInv, WritePart, End, OpenTrace;
    EndEmpty(d);
    WriteStagedSafe(j, s.vec.bits, End(d, opening), i);
  }

  /** The last chunk is on disk: the complete file is committed. */
  lemma CompleteSafe(j: Job, bits: seq<bool>, d1: Disk, now: nat, touched: bool)
    requires j.Valid() && FileInv(j, d1) && |bits| == j.meta.NumChunks() && AllSet(bits)
    requires if j.meta.Staged() then Backed(j, bits, d1) else Exact(j, d1)
    ensures var trace := CommitTrace(j.meta, d1, now, touched);
            && TraceInv(j, trace) && FileInv(j, End(d1, trace))
            && Exact(j, End(d1, trace)) && End(d1, trace).state == None
            && (touched ==> Restored(j, End(d1, trace)))
  {
    if j.meta.Staged() {
      AllChunksExact(j, d1.part.value);
    }
    CommitSafe(j, d1, now, touched);
    hide FileInv, Exact, CommitTrace;
    assert touched ==> Restored(j, End(d1, CommitTrace(j.meta, d1, now, touched)));
    EndInv(j, d1, CommitTrace(j.meta, d1, now, touched));
  }

  /** Chunk i is on disk and the file is incomplete: the session goes on, saved when the interval is reached. */
  lemma IncompleteSafe(j: Job, s: Session, d: Disk, i: nat, d1: Disk)
    requires j.Valid() && SessionInv(j, s, d) && s.status == Running
    requires i < j.meta.NumChunks() && !AllSet(s.vec.bits[i := true])
    requires FileInv(j, d1) && d1.state == d.state && j.meta.Staged()
    requires Backed(j, s.vec.bits[i := true], d1) && d1.final == d.final
    ensures var s1 := s.WithChunk(i);
            var trace := SaveTrace(j.meta, s1.vec, d1);
            && (s1.sinceSave < SAVE_INTERVAL ==> SessionInv(j, s1, d1))
            && TraceInv(j, trace) && FileInv(j, End(d1, trace)) && SessionInv(j, s1.(sinceSave := 0), End(d1, trace))
  {
    var s1 := s.WithChunk(i);
    var trace := SaveTrace(j.meta, s1.vec, d1);
    UnsavedGrows(j, s.vec.bits, i, d, d1);
    SaveSafe(j, s1.vec, d1);
    NothingUnsaved(j, s1.vec.bits, End(d1, trace));
    hide FileInv, WriteState, ChunkExact, CrashSafe, NeverComplete, Load;
    EndInv(j, d1, trace);
  }

  /** After chunk i is on disk: commit, save, or carry on. */
  lemma AfterSafe(j: Job, s: Session, d: Disk, i: nat, d1: Disk, now: nat, touched: bool)
    requires j.Valid() && SessionInv(j, s, d) && s.status == Running && i < j.meta.NumChunks()
    requires FileInv(j, d1) && d1.state == d.state
    requires if j.meta.Staged() then Backed(j, s.vec.bits[i := true], d1) && d1.final == d.final else Exact(j, d1)
    ensures var s1 := s.WithChunk(i);
            var (s2, trace) := AfterStore(j.meta, s1, d1, now, touched);
            && TraceInv(j, trace) && FileInv(j, End(d1, trace)) && TurnInv(j, s2, End(d1, trace))
            && s2.vec == s.vec.Set(i) && (s2.status == Running || s2.status == Committed)
            && (s2.status == Committed && touched ==> Restored(j, End(d1, trace)))
  {
    NumChunksBounds(j.meta);
    if AllSet(s.vec.bits[i := true]) {
      CompleteSafe(j, s.vec.bits[i := true], d1, now, touched);
    } else {
      IncompleteSafe(j, s, d, i, d1);
    }
    hide FileInv, SessionInv, Backed, Exact, CommitTrace, SaveTrace;
  }

  /**
   Crash safety of one turn: every disk state passed through, torn writes and the inside of commit included,
   keeps the resume invariant, and the session ends the turn with what its status promises.
   */
  lemma StepSafe(j: Job, hash: Hash, s: Session, d: Disk, event: Event)
    requires j.Valid() && CollisionFree(j, hash)
    requires FileInv(j, d) && SessionInv(j, s, d) && s.status == Running && ValidEvent(j, hash, d, event)
    ensures var (s1, trace) := Step(j.meta, hash, s, d, event);
            && TraceInv(j, trace) && FileInv(j, End(d, trace)) && TurnInv(j, s1, End(d, trace))
            && s1.vec.bits == (if event.Receive? && s1.status != Rejected
                               then s.vec.bits[event.packet.index := true] else s.vec.bits)
            && (s1.status == Cancelled ==> event == Cancel) && (s1.status == Drained ==> event == Close)
            && (s1.status == Running ==> event.Receive?)
            && (event.Receive? ==> (s1.status == Rejected <==> event.packet.hash != hash(event.packet.bytes)))
            && (s1.status == Committed ==> event.Receive? && (event.touched ==> Restored(j, End(d, trace))))
  {
    match event
    case Cancel => EndSafe(j, hash, s, d, event);
    case Close => EndSafe(j, hash, s, d, event);
    case Receive(packet, now, touched) =>
      if packet.hash == hash(packet.bytes) {
        assert packet.bytes == j.Chunk(packet.index);
        PacketSafe(j, hash, s, d, packet, now, touched);
      }
  }

  lemma PacketSafe(j: Job, hash: Hash, s: Session, d: Disk, packet: Packet, now: nat, touched: bool)
    requires j.Valid() && ClockApart(j, d, now)
    requires FileInv(j, d) && SessionInv(j, s, d) && s.status == Running
    requires packet.index < j.meta.NumChunks() && packet.bytes == j.Chunk(packet.index)
    requires packet.hash == hash(packet.bytes)
    ensures var (s1, trace) := Step(j.meta, hash, s, d, Receive(packet, now, touched));
            && TraceInv(j, trace) && FileInv(j, End(d, trace)) && TurnInv(j, s1, End(d, trace))
            && s1.vec.bits == s.vec.bits[packet.index := true] && (s1.status == Running || s1.status == Committed)
            && (s1.status == Committed && touched ==> Restored(j, End(d, trace)))
  {
    hide *;
    SessionShape(j, s, d);
    var written := WriteTrace(j.meta, s.isResumed, s.open, d, packet, now);
    var d1 := End(d, written);
    WriteSafe(j, s, d, packet, now);
    AfterSafe(j, s, d, packet.index, d1, now, touched);
    StepStored(j.meta, hash, s, d, packet, now, touched);
    TraceConcat(j, written, AfterStore(j.meta, s.WithChunk(packet.index), d1, now, touched).1);
  }

  lemma SessionShape(j: Job, s: Session, d: Disk)
    requires j.Valid() && SessionInv(j, s, d)
    ensures s.vec.Valid() && |s.vec.bits| == j.meta.NumChunks() && j.meta.Valid()
    ensures forall i: nat :: i < |s.vec.bits| ==> s.vec.Set(i).Valid() && s.vec.Set(i).bits == s.vec.bits[i := true]
  {
  }
}
